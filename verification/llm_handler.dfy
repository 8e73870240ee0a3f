/** Answer generation: the retrieved chunks are numbered into a context
    block, the recent conversation is cut to a window of turns and then to a
    token budget, and a chat message list of the shape system, (user,
    assistant)*, user is sent to the language model. The model behind the
    HTTP call is a function parameter returning a reply or a failure. */
module LlmHandler {
  import opened Records
  import opened Text
  import opened TokenWindows

  datatype Role = System | User | Assistant

  datatype Message = Message(role: Role, content: string)

  /** What the chat-completions call gives back. */
  datatype ApiOutcome = Reply(content: string) | Failure(reason: string)

  /** The result of `generate_answer`: the answer text and the chunks it
      was given. */
  datatype Answer = Answer(answer: string, sources: seq<Scored>)

  // ---------------------------------------------------------------------
  // Memory window

  /** `r` is the last `|r|` turns of `h`. */
  ghost predicate IsRecent(r: seq<Turn>, h: seq<Turn>) {
    |r| <= |h| && r == h[|h| - |r|..]
  }

  /** Python's `s[start:]`, negative starts counting from the end. */
  function SliceFrom(s: seq<Turn>, start: int): (r: seq<Turn>)
    ensures IsRecent(r, s)
  {
    if start >= 0 then s[Min(start, |s|)..] else s[Max(|s| + start, 0)..]
  }

  /** `chat_history[-window:]`. */
  function RecentTurns(history: seq<Turn>, window: int): (r: seq<Turn>)
    ensures IsRecent(r, history)
  {
    SliceFrom(history, -window)
  }

  /** A positive window keeps the last `window` turns (all of them when
      there are fewer); a window of 0 keeps every turn, since `-0` is `0`. */
  lemma {:induction false} RecentTurnsWindow(history: seq<Turn>, window: int)
    ensures window >= 1 ==> |RecentTurns(history, window)| == Min(window, |history|)
    ensures window == 0 ==> RecentTurns(history, window) == history
    ensures window < 0 ==> RecentTurns(history, window) == history[Min(-window, |history|)..]
  {
  }

  /** A missing history is an empty one. */
  function OrEmpty(history: Option<seq<Turn>>): seq<Turn> {
    if history.None? then [] else history.value
  }

  /** A run of recent turns of a run of recent turns is a run of recent
      turns. */
  lemma {:induction false} RecentOfRecent(h: seq<Turn>, recent: seq<Turn>, r: seq<Turn>)
    requires IsRecent(recent, h) && IsRecent(r, recent)
    ensures IsRecent(r, h)
  {
  }

  /** The turns that go into the prompt: the window, then the token budget. */
  function MemoryUsed(history: Option<seq<Turn>>, cfg: Config, count: string -> nat): (r: seq<Turn>)
    ensures IsRecent(r, OrEmpty(history))
    ensures r == [] || TotalCost(count, r) <= cfg.maxMemoryTokens
    ensures cfg.memoryWindow >= 1 ==> |r| <= cfg.memoryWindow
    ensures history.None? ==> r == []
  {
    var h := OrEmpty(history);
    var recent := RecentTurns(h, cfg.memoryWindow);
    RecentTurnsWindow(h, cfg.memoryWindow);
    var r := Truncate(count, recent, cfg.maxMemoryTokens);
    RecentOfRecent(h, recent, r);
    r
  }

  /** Within the window, the newest turns are kept for as long as they fit:
      the turns used are the newest of the window, and one more turn from
      the window would go over the budget. */
  lemma {:induction false} MemoryUsedKeepsNewest(history: Option<seq<Turn>>, cfg: Config, count: string -> nat)
    ensures var recent := RecentTurns(OrEmpty(history), cfg.memoryWindow);
      var r := MemoryUsed(history, cfg, count);
      |r| <= |recent| && r == Last(recent, |r|) &&
      (|r| == |recent| || TotalCost(count, Last(recent, |r| + 1)) > cfg.maxMemoryTokens)
  {
    var recent := RecentTurns(OrEmpty(history), cfg.memoryWindow);
    KeptCountMaximal(count, recent, cfg.maxMemoryTokens);
  }

  // ---------------------------------------------------------------------
  // Context

  /** One context block: its 1-based number, then the rest of the block. */
  function Block(number: nat, d: Scored, formatScore: real -> string): string {
    "[Document " + NatToString(number) + "]" + BlockBody(d, formatScore)
  }

  /** The rest of a block: the relevance score as the score formatter
      renders it, the content and where it came from. */
  function BlockBody(d: Scored, formatScore: real -> string): string {
    " (Relevance: " + formatScore(d.score) + ")\n" +
    d.doc.content + "\n" +
    "Source: " + d.doc.metadata.filename + ", Page " + NatToString(d.doc.metadata.page) + "\n"
  }

  /** The blocks of the documents, numbered from 1 in input order. */
  function Blocks(docs: seq<Scored>, formatScore: real -> string): (r: seq<string>)
    ensures |r| == |docs|
    ensures forall i :: 0 <= i < |docs| ==> r[i] == Block(i + 1, docs[i], formatScore)
    decreases |docs|
  {
    if |docs| == 0 then []
    else Blocks(docs[..|docs| - 1], formatScore) + [Block(|docs|, docs[|docs| - 1], formatScore)]
  }

  /** `_format_context`: the blocks joined by newlines. */
  function FormatContext(docs: seq<Scored>, formatScore: real -> string): (r: string)
    ensures docs == [] ==> r == ""
  {
    Join(Blocks(docs, formatScore), "\n")
  }

  /** The context holds the block of document `i + 1` at the block's
      offset: the blocks appear whole and in document order. */
  lemma {:induction false} FormatContextBlockAt(docs: seq<Scored>, formatScore: real -> string, i: nat)
    requires i < |docs|
    ensures var bs := Blocks(docs, formatScore);
      Occurs(FormatContext(docs, formatScore), JoinOffset(bs, "\n", i), bs[i])
  {
    JoinPartAt(Blocks(docs, formatScore), "\n", i);
  }

  /** The number a block's header carries, or 0 for text that is not a block. */
  function BlockNumber(b: string): nat {
    var header := "[Document ";
    if |b| >= |header| && b[..|header|] == header then
      var digits := Before(b[|header|..], ']');
      if AllDigits(digits) then ParseNat(digits) else 0
    else 0
  }

  /** A block's header reads back as the number it was given. */
  lemma {:induction false} BlockNumberRoundTrip(n: nat, body: string)
    ensures BlockNumber("[Document " + NatToString(n) + "]" + body) == n
  {
    var header := "[Document ";
    var digits := NatToString(n);
    var b := header + digits + "]" + body;
    assert b[..|header|] == header;
    assert b[|header|..] == digits + "]" + body;
    assert ']' !in digits;
    BeforeConcat(digits, ']', body);
    ParseNatToString(n);
  }

  /** Block `i` of the context carries the number `i + 1`. */
  lemma {:induction false} BlocksNumbered(docs: seq<Scored>, formatScore: real -> string, i: nat)
    requires i < |docs|
    ensures BlockNumber(Blocks(docs, formatScore)[i]) == i + 1
  {
    BlockNumberRoundTrip(i + 1, BlockBody(docs[i], formatScore));
  }

  // ---------------------------------------------------------------------
  // Messages

  /** The final user message: the context followed by the question. */
  function CurrentPrompt(context: string, query: string): string {
    "Documents: \n" + context + "\n\nQuestion: " + query + "\n\nAnswer:"
  }

  /** Each earlier turn as a user message followed by an assistant message. */
  function HistoryMessages(history: seq<Turn>): (r: seq<Message>)
    ensures |r| == 2 * |history|
    ensures forall i :: 0 <= i < |history| ==>
      r[2 * i] == Message(User, history[i].query) && r[2 * i + 1] == Message(Assistant, history[i].answer)
    decreases |history|
  {
    if |history| == 0 then []
    else
      var n := |history| - 1;
      HistoryMessages(history[..n]) + [Message(User, history[n].query), Message(Assistant, history[n].answer)]
  }

  /** `_create_messages_with_memory`. */
  function CreateMessages(instructions: string, query: string, context: string, history: seq<Turn>): (m: seq<Message>)
    ensures |m| == 2 + 2 * |history|
    ensures m[0] == Message(System, instructions)
    ensures m[|m| - 1] == Message(User, CurrentPrompt(context, query))
    ensures forall i :: 0 <= i < |history| ==>
      m[1 + 2 * i] == Message(User, history[i].query) && m[2 + 2 * i] == Message(Assistant, history[i].answer)
  {
    [Message(System, instructions)] + HistoryMessages(history) + [Message(User, CurrentPrompt(context, query))]
  }

  /** The conversation a message list carries: the (user, assistant) pairs
      between the system message and the final user message. */
  function HistoryOf(m: seq<Message>): seq<Turn>
    requires |m| >= 2 && |m| % 2 == 0
  {
    seq((|m| - 2) / 2, i requires 0 <= i < (|m| - 2) / 2 => Turn(m[1 + 2 * i].content, m[2 + 2 * i].content))
  }

  /** The history can be read back from the messages, so every turn is
      sent, in order, and nothing else is. */
  lemma {:induction false} HistoryOfCreateMessages(instructions: string, query: string, context: string, history: seq<Turn>)
    ensures HistoryOf(CreateMessages(instructions, query, context, history)) == history
  {
    var m := CreateMessages(instructions, query, context, history);
    var h := HistoryOf(m);
    forall i | 0 <= i < |history| ensures h[i] == history[i] {
      assert m[1 + 2 * i].content == history[i].query;
    }
  }

  /** The roles alternate: system first, then user and assistant in turn,
      and user last. */
  lemma {:induction false} CreateMessagesRoles(instructions: string, query: string, context: string, history: seq<Turn>)
    ensures var m := CreateMessages(instructions, query, context, history);
      m[0].role == System &&
      (forall j :: 1 <= j < |m| ==> m[j].role == (if j % 2 == 1 then User else Assistant))
  {
    var m := CreateMessages(instructions, query, context, history);
    var h := HistoryMessages(history);
    forall j | 1 <= j < |m| - 1 ensures m[j].role == (if j % 2 == 1 then User else Assistant) {
      assert m[j] == h[j - 1];
      var i := (j - 1) / 2;
      assert 0 <= i < |history|;
      assert h[2 * i] == Message(User, history[i].query) && h[2 * i + 1] == Message(Assistant, history[i].answer);
      if j % 2 == 1 {
        assert j - 1 == 2 * i;
      } else {
        assert j - 1 == 2 * i + 1;
      }
    }
    assert (|m| - 1) % 2 == 1;
  }

  // ---------------------------------------------------------------------
  // Generating an answer

  /** The text `_call_api` returns: the reply, or the error in-band. */
  function AnswerText(outcome: ApiOutcome): (r: string)
    ensures outcome.Reply? ==> r == outcome.content
    ensures outcome.Failure? ==> r == "Error calling LLM API: " + outcome.reason
  {
    match outcome
    case Reply(content) => content
    case Failure(reason) => "Error calling LLM API: " + reason
  }

  /** A message list of 2 + 2n entries has an even length and n turns. */
  lemma {:induction false} EvenLength(len: nat, n: nat)
    requires len == 2 + 2 * n
    ensures len >= 2 && len % 2 == 0 && (len - 2) / 2 == n
  {
  }

  /** The messages `generate_answer` sends. */
  function SentMessages(instructions: string, query: string, docs: seq<Scored>, history: Option<seq<Turn>>,
                        cfg: Config, count: string -> nat, formatScore: real -> string): (m: seq<Message>)
    ensures |m| >= 2 && |m| % 2 == 0
    ensures HistoryOf(m) == MemoryUsed(history, cfg, count)
    ensures m[|m| - 1] == Message(User, CurrentPrompt(FormatContext(docs, formatScore), query))
    ensures m[0].role == System && forall j :: 1 <= j < |m| ==> m[j].role == (if j % 2 == 1 then User else Assistant)
  {
    var used := MemoryUsed(history, cfg, count);
    var context := FormatContext(docs, formatScore);
    var m := CreateMessages(instructions, query, context, used);
    EvenLength(|m|, |used|);
    HistoryOfCreateMessages(instructions, query, context, used);
    CreateMessagesRoles(instructions, query, context, used);
    m
  }

  /** `generate_answer`: the sources are always the documents given, and a
      failed call still yields an answer, the error text. */
  function GenerateAnswer(instructions: string, query: string, docs: seq<Scored>, history: Option<seq<Turn>>,
                          cfg: Config, count: string -> nat, formatScore: real -> string,
                          api: seq<Message> -> ApiOutcome): (r: Answer)
    ensures r.sources == docs
    ensures var outcome := api(SentMessages(instructions, query, docs, history, cfg, count, formatScore));
      (outcome.Reply? ==> r.answer == outcome.content) &&
      (outcome.Failure? ==> r.answer == "Error calling LLM API: " + outcome.reason)
  {
    var messages := SentMessages(instructions, query, docs, history, cfg, count, formatScore);
    Answer(AnswerText(api(messages)), docs)
  }
}
