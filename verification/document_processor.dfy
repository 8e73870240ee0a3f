/** Ingestion: a file is dispatched on its extension to an extractor that
    yields numbered pages, each page is cleaned and cut into token windows,
    and every window becomes a chunk record carrying the file name, the page
    and a `"{page}_{idx}"` chunk id. Reading the file, the PDF and DOCX
    parsers, the text cleaner, whitespace splitting and the tokenizer are
    outside the model and enter as inputs and function parameters. */
module DocumentProcessor {
  import opened Records
  import opened Text
  import opened TokenWindows

  /** Words per synthetic page for formats without pages. */
  const WordsPerPage: nat := 500

  /** One page of extracted text with its 1-based number. */
  datatype Page = Page(number: nat, text: string)

  /** What reading the file gives each extractor. For a PDF: the text
      pdfplumber extracted from each page it reached (empty where it found
      none), whether it then raised, and the text PyPDF2 extracts from every
      page, read only after pdfplumber raised. Then the paragraphs of a DOCX
      document, and the whole text of a plain text file. */
  datatype FileView = FileView(
    pdfPages: seq<string>,
    pdfRaised: bool,
    fallbackPages: seq<string>,
    paragraphs: seq<string>,
    text: string
  )

  /** The foreign text functions: `clean_text`, `str.split()`, and the
      tokenizer's encode and decode. */
  datatype TextTools = TextTools(
    clean: string -> string,
    words: string -> seq<string>,
    encode: string -> seq<int>,
    decode: seq<int> -> string
  )

  datatype Format = Pdf | Docx | Txt

  // ---------------------------------------------------------------------
  // Paths

  /** The position of the last `c` in `s`, or -1. */
  function LastIndexOf(s: string, c: char): (r: int)
    ensures -1 <= r < |s|
    ensures r >= 0 ==> s[r] == c
    ensures forall k :: r < k < |s| ==> s[k] != c
    decreases |s|
  {
    if |s| == 0 then -1
    else if s[|s| - 1] == c then |s| - 1
    else LastIndexOf(s[..|s| - 1], c)
  }

  /** `os.path.basename`: everything after the last `/`. */
  function Basename(path: string): (r: string)
    ensures |r| <= |path| && r == path[|path| - |r|..]
    ensures '/' !in r
    ensures |r| < |path| ==> path[|path| - |r| - 1] == '/'
  {
    path[LastIndexOf(path, '/') + 1..]
  }

  /** Whether `s[lo..hi]` holds a character other than `.`. */
  predicate HasNonDot(s: string, lo: nat, hi: nat)
    requires lo <= hi <= |s|
  {
    exists k :: lo <= k < hi && s[k] != '.'
  }

  /** `os.path.splitext(path)[1]`: from the last `.` of the file name on,
      unless that dot is preceded in the name only by dots (a hidden file
      such as `.txt` has no extension). */
  function Extension(path: string): (r: string)
    ensures r == [] || (r[0] == '.' && |r| <= |path| && r == path[|path| - |r|..])
    ensures r != [] ==> '.' !in r[1..] && '/' !in r
  {
    var sep := LastIndexOf(path, '/');
    var dot := LastIndexOf(path, '.');
    if dot > sep && HasNonDot(path, sep + 1, dot) then path[dot..] else ""
  }

  /** A stem whose last character is neither `.` nor `/`, followed by `.`
      and a suffix free of dots and slashes, has `.` and that suffix as its
      extension. */
  lemma {:induction false} ExtensionOf(stem: string, e: string)
    requires |stem| > 0 && stem[|stem| - 1] != '.' && stem[|stem| - 1] != '/'
    requires '.' !in e && '/' !in e
    ensures Extension(stem + "." + e) == "." + e
  {
    var path := stem + "." + e;
    var dot := |stem|;
    assert path[dot] == '.' && path[dot - 1] == stem[dot - 1];
    assert forall k :: dot < k < |path| ==> path[k] == e[k - dot - 1];
    assert LastIndexOf(path, '.') == dot;
    assert LastIndexOf(path, '/') < dot - 1;
    assert path[dot - 1] != '.';
  }

  /** Every dot of `name` is preceded only by dots, as in `.txt`, `..x`
      or a name without dots. */
  ghost predicate DotsLeading(name: string) {
    forall i, j :: 0 <= i < j < |name| && name[j] == '.' ==> name[i] == '.'
  }

  /** A path has no extension exactly when every dot of its file name is
      preceded only by dots (so hidden files such as `.txt` have none);
      otherwise the extension is a proper suffix of the file name, which by
      the contract of `Extension` starts at its last dot. */
  lemma {:induction false} ExtensionSpec(path: string)
    ensures Extension(path) == [] <==> DotsLeading(Basename(path))
    ensures var b := Basename(path); var r := Extension(path);
      r != [] ==> |r| < |b| && r == b[|b| - |r|..]
  {
    var sep := LastIndexOf(path, '/');
    var dot := LastIndexOf(path, '.');
    if dot > sep && HasNonDot(path, sep + 1, dot) {
      ExtensionFound(path, sep, dot);
    } else {
      NoExtensionDotsLeading(path, sep, dot);
    }
  }

  /** When the last dot follows a non-dot of the file name, the name is not
      all leading dots and the extension is a proper suffix of it. */
  lemma {:induction false} ExtensionFound(path: string, sep: int, dot: int)
    requires sep == LastIndexOf(path, '/') && dot == LastIndexOf(path, '.')
    requires dot > sep && HasNonDot(path, sep + 1, dot)
    ensures !DotsLeading(Basename(path))
    ensures var b := Basename(path); |path[dot..]| < |b| && path[dot..] == b[|b| - |path[dot..]|..]
  {
    var b := Basename(path);
    assert b == path[sep + 1..];
    var k :| sep + 1 <= k < dot && path[k] != '.';
    assert b[k - sep - 1] == path[k] && b[dot - sep - 1] == path[dot];
  }

  /** When the last dot does not follow a non-dot of the file name, every
      dot of the name is preceded only by dots. */
  lemma {:induction false} NoExtensionDotsLeading(path: string, sep: int, dot: int)
    requires sep == LastIndexOf(path, '/') && dot == LastIndexOf(path, '.')
    requires !(dot > sep && HasNonDot(path, sep + 1, dot))
    ensures DotsLeading(Basename(path))
  {
    var b := Basename(path);
    assert b == path[sep + 1..];
    forall i, j | 0 <= i < j < |b| && b[j] == '.' ensures b[i] == '.' {
      assert path[sep + 1 + j] == b[j];
      assert sep + 1 + j <= dot;
      assert path[sep + 1 + i] == b[i];
      assert sep + 1 <= sep + 1 + i < dot;
    }
  }

  /** ASCII lower-casing. */
  function Lower(s: string): (r: string)
    ensures |r| == |s|
  {
    seq(|s|, i requires 0 <= i < |s| => if 'A' <= s[i] <= 'Z' then (s[i] as int + 32) as char else s[i])
  }

  /** The extractor an extension selects. */
  function FormatOf(ext: string): (f: Option<Format>)
    ensures f.Some? <==> ext in {".pdf", ".docx", ".txt"}
    ensures f == Some(Pdf) <==> ext == ".pdf"
    ensures f == Some(Docx) <==> ext == ".docx"
    ensures f == Some(Txt) <==> ext == ".txt"
  {
    if ext == ".pdf" then Some(Pdf)
    else if ext == ".docx" then Some(Docx)
    else if ext == ".txt" then Some(Txt)
    else None
  }

  // ---------------------------------------------------------------------
  // Extraction

  /** Page numbers strictly increase. */
  ghost predicate Increasing(pages: seq<Page>) {
    forall i, j :: 0 <= i < j < |pages| ==> pages[i].number < pages[j].number
  }

  /** `_extract_pdf`: page `i + 1` for every page with text, in order. */
  function PdfPages(texts: seq<string>): (r: seq<Page>)
    ensures Increasing(r)
    ensures forall p :: p in r ==> 1 <= p.number <= |texts| && p.text == texts[p.number - 1] && p.text != ""
    ensures forall i :: 0 <= i < |texts| && texts[i] != "" ==> Page(i + 1, texts[i]) in r
    decreases |texts|
  {
    if |texts| == 0 then []
    else
      var init := PdfPages(texts[..|texts| - 1]);
      var last := texts[|texts| - 1];
      if last == "" then init else init + [Page(|texts|, last)]
  }

  /** No two pages share a number: the pages are the entries of a
      dictionary keyed by page number. */
  ghost predicate DistinctNumbers(pages: seq<Page>) {
    forall i, j :: 0 <= i < j < |pages| ==> pages[i].number != pages[j].number
  }

  lemma {:induction false} IncreasingDistinct(pages: seq<Page>)
    requires Increasing(pages)
    ensures DistinctNumbers(pages)
  {
  }

  /** The position of the page numbered `n`, or -1. */
  function PositionOf(d: seq<Page>, n: nat): (r: int)
    ensures -1 <= r < |d|
    ensures r >= 0 ==> d[r].number == n
    ensures r < 0 ==> forall i :: 0 <= i < |d| ==> d[i].number != n
    decreases |d|
  {
    if |d| == 0 then -1
    else if d[|d| - 1].number == n then |d| - 1
    else PositionOf(d[..|d| - 1], n)
  }

  /** Python's `d[n] = t` on a dictionary of pages: an existing key keeps
      its place and takes the new text, a new key goes at the end. What the
      pages hold afterwards is SetPageContent. */
  function SetPage(d: seq<Page>, n: nat, t: string): (r: seq<Page>)
    requires DistinctNumbers(d)
    ensures DistinctNumbers(r)
    ensures |d| <= |r| <= |d| + 1
    ensures forall i :: 0 <= i < |d| ==> r[i].number == d[i].number
    ensures |r| == |d| + 1 ==> r[|d|] == Page(n, t)
  {
    var i := PositionOf(d, n);
    if i >= 0 then d[i := Page(n, t)] else d + [Page(n, t)]
  }

  /** After `d[n] = t` page `n` holds `t` and every other page what it held. */
  lemma {:induction false} SetPageContent(d: seq<Page>, n: nat, t: string, m: nat, x: string)
    requires DistinctNumbers(d)
    ensures Page(m, x) in SetPage(d, n, t) <==> (m == n && x == t) || (Page(m, x) in d && m != n)
  {
    var i := PositionOf(d, n);
    var r := SetPage(d, n, t);
    if i >= 0 {
      if Page(m, x) in d && m != n {
        var j :| 0 <= j < |d| && d[j] == Page(m, x);
        assert r[j] == d[j];
      }
      if Page(m, x) in r && m != n {
        var j :| 0 <= j < |r| && r[j] == Page(m, x);
        assert d[j] == r[j];
      }
    }
  }

  /** Page `m` of `texts` has text. */
  predicate HasText(texts: seq<string>, m: nat) {
    1 <= m <= |texts| && texts[m - 1] != ""
  }

  /** The loop `for i, page in enumerate(pages, 1): if text: d[i] = text`
      run on dictionary `d`. Keys already in `d` keep their place; the new
      ones follow in increasing order. What the pages hold afterwards is
      SetPagesContent. */
  function SetPages(d: seq<Page>, texts: seq<string>): (r: seq<Page>)
    requires DistinctNumbers(d)
    ensures DistinctNumbers(r)
    ensures |r| >= |d| && forall i :: 0 <= i < |d| ==> r[i].number == d[i].number
    ensures forall i :: |d| <= i < |r| ==> 1 <= r[i].number <= |texts|
    ensures forall i, j :: |d| <= i < j < |r| ==> r[i].number < r[j].number
    decreases |texts|
  {
    if |texts| == 0 then d
    else
      var k := |texts|;
      var before := SetPages(d, texts[..k - 1]);
      if texts[k - 1] == "" then before else SetPage(before, k, texts[k - 1])
  }

  /** Afterwards page `m` holds the text of `texts` when that has text, and
      otherwise what `d` held for it. */
  lemma {:induction false} SetPagesContent(d: seq<Page>, texts: seq<string>, m: nat, x: string)
    requires DistinctNumbers(d)
    ensures Page(m, x) in SetPages(d, texts) <==>
      (HasText(texts, m) && x == texts[m - 1]) || (Page(m, x) in d && !HasText(texts, m))
    decreases |texts|
  {
    if |texts| > 0 {
      var k := |texts|;
      var init := texts[..k - 1];
      SetPagesContent(d, init, m, x);
      if texts[k - 1] != "" {
        SetPageContent(SetPages(d, init), k, texts[k - 1], m, x);
      }
      if m != k {
        assert HasText(texts, m) <==> HasText(init, m);
        assert HasText(init, m) ==> texts[m - 1] == init[m - 1];
      }
    }
  }

  /** `_extract_pdf`: pdfplumber's pages; when pdfplumber raises, PyPDF2
      then writes its pages into the same dictionary. */
  function ExtractPdf(view: FileView): (r: seq<Page>)
    ensures DistinctNumbers(r)
    ensures !view.pdfRaised ==> r == PdfPages(view.pdfPages)
    ensures |r| >= |PdfPages(view.pdfPages)|
    ensures forall i :: 0 <= i < |PdfPages(view.pdfPages)| ==> r[i].number == PdfPages(view.pdfPages)[i].number
  {
    var first := PdfPages(view.pdfPages);
    IncreasingDistinct(first);
    if view.pdfRaised then SetPages(first, view.fallbackPages) else first
  }

  /** Page `m` of the PDF holds PyPDF2's text when pdfplumber raised and
      PyPDF2 found text there, and pdfplumber's text otherwise. */
  lemma {:induction false} ExtractPdfContent(view: FileView)
    ensures forall m, x :: Page(m, x) in ExtractPdf(view) <==>
      if view.pdfRaised && HasText(view.fallbackPages, m) then x == view.fallbackPages[m - 1]
      else HasText(view.pdfPages, m) && x == view.pdfPages[m - 1]
  {
    var first := PdfPages(view.pdfPages);
    IncreasingDistinct(first);
    assert forall m: nat, x :: Page(m, x) in first <==> HasText(view.pdfPages, m) && x == view.pdfPages[m - 1] by {
      forall m: nat, x | HasText(view.pdfPages, m) && x == view.pdfPages[m - 1] ensures Page(m, x) in first {
        assert Page(m - 1 + 1, view.pdfPages[m - 1]) in first;
      }
    }
    if view.pdfRaised {
      forall m, x {
        SetPagesContent(first, view.fallbackPages, m, x);
      }
    }
  }

  /** After a pdfplumber failure the pages need not come in page order:
      pdfplumber stores pages 1 and 3 and raises, PyPDF2 then finds text on
      page 2 as well, and page 2 follows page 3. */
  lemma {:induction false} FallbackReordersPages()
    ensures ExtractPdf(FileView(["a", "", "c"], true, ["a", "b", "c"], [], ""))
      == [Page(1, "a"), Page(3, "c")] + [Page(2, "b")]
  {
    PlumberExample();
    FallbackExample();
  }

  /** pdfplumber's pages in the reordering example. */
  lemma {:induction false} PlumberExample()
    ensures PdfPages(["a", "", "c"]) == [Page(1, "a"), Page(3, "c")]
  {
    var plumber: seq<string> := ["a", "", "c"];
    assert plumber[..2] == ["a", ""];
    PlumberPrefixExample();
  }

  lemma {:induction false} PlumberPrefixExample()
    ensures PdfPages(["a", ""]) == [Page(1, "a")]
  {
    var plumber: seq<string> := ["a", ""];
    assert plumber[..1] == ["a"];
    assert PdfPages(["a"]) == [Page(1, "a")] by {
      assert ["a"][..0] == [];
    }
  }

  /** PyPDF2 writing three pages over pdfplumber's in the reordering example. */
  lemma {:induction false} FallbackExample()
    ensures DistinctNumbers([Page(1, "a"), Page(3, "c")])
    ensures SetPages([Page(1, "a"), Page(3, "c")], ["a", "b", "c"]) == [Page(1, "a"), Page(3, "c"), Page(2, "b")]
  {
    var first := [Page(1, "a"), Page(3, "c")];
    var texts: seq<string> := ["a", "b", "c"];
    assert texts[..2] == ["a", "b"] && texts[..2][..1] == ["a"] && texts[..2][..1][..0] == [];
    FallbackFirstTwo();
    var two := [Page(1, "a"), Page(3, "c"), Page(2, "b")];
    assert PositionOf(two, 3) == 1 by {
      assert two[..2] == first;
    }
    assert two[1 := Page(3, "c")] == two;
  }

  lemma {:induction false} FallbackFirstTwo()
    ensures DistinctNumbers([Page(1, "a"), Page(3, "c")])
    ensures SetPages([Page(1, "a"), Page(3, "c")], ["a", "b"]) == [Page(1, "a"), Page(3, "c"), Page(2, "b")]
  {
    var first := [Page(1, "a"), Page(3, "c")];
    var texts: seq<string> := ["a", "b"];
    assert texts[..1] == ["a"] && texts[..1][..0] == [];
    assert SetPages(first, ["a"]) == first by {
      assert PositionOf(first[..1], 1) == 0;
      assert first[0 := Page(1, "a")] == first;
    }
    assert PositionOf(first[..1][..0], 2) == -1;
    assert PositionOf(first[..1], 2) == -1;
  }

  /** The synthetic pages of a word list: page `j + 1` joins the words of
      window `j` with single spaces. */
  function WordPages(words: seq<string>): (r: seq<Page>)
    ensures |r| == |SplitTokens(words, WordsPerPage, 0)|
    ensures forall j :: 0 <= j < |r| ==>
      r[j] == Page(j + 1, Join(SplitTokens(words, WordsPerPage, 0)[j], " "))
  {
    var windows := SplitTokens(words, WordsPerPage, 0);
    seq(|windows|, j requires 0 <= j < |windows| => Page(j + 1, Join(windows[j], " ")))
  }

  /** Synthetic pages are numbered 1, 2, ... and hold between one and 500
      words each; their word lists concatenate to the document's words, and
      there are words / 500 of them, rounded up. */
  lemma {:induction false} WordPagesSpec(words: seq<string>)
    ensures |WordPages(words)| == WindowCount(|words|, WordsPerPage)
    ensures Increasing(WordPages(words))
    ensures forall j :: 0 <= j < |WordPages(words)| ==> WordPages(words)[j].number == j + 1
    ensures forall j :: 0 <= j < |WordPages(words)| ==> 0 < |SplitTokens(words, WordsPerPage, 0)[j]| <= WordsPerPage
    ensures Flatten(SplitTokens(words, WordsPerPage, 0)) == words
    ensures words == [] <==> WordPages(words) == []
  {
    SplitTokensWindows(words, WordsPerPage, 0);
    SplitTokensConcat(words, WordsPerPage);
  }

  /** The paragraphs that hold more than whitespace. */
  function NonBlank(paragraphs: seq<string>, words: string -> seq<string>): (r: seq<string>)
    ensures forall p :: p in r ==> p in paragraphs && words(p) != []
    ensures forall p :: p in paragraphs && words(p) != [] ==> p in r
    ensures |r| <= |paragraphs|
    decreases |paragraphs|
  {
    if |paragraphs| == 0 then []
    else
      var init := NonBlank(paragraphs[..|paragraphs| - 1], words);
      var last := paragraphs[|paragraphs| - 1];
      assert forall p :: p in paragraphs ==> p in paragraphs[..|paragraphs| - 1] || p == last;
      if words(last) == [] then init else init + [last]
  }

  /** Filtering a concatenation filters each part: the kept paragraphs
      stay in document order. */
  lemma {:induction false} NonBlankAppend(a: seq<string>, b: seq<string>, words: string -> seq<string>)
    ensures NonBlank(a + b, words) == NonBlank(a, words) + NonBlank(b, words)
    decreases |b|
  {
    if |b| == 0 {
      assert a + b == a;
    } else {
      var init := b[..|b| - 1];
      assert (a + b)[..|a + b| - 1] == a + init;
      assert (a + b)[|a + b| - 1] == b[|b| - 1];
      NonBlankAppend(a, init, words);
    }
  }

  /** The pages the extractor of a format yields. */
  function ExtractPages(format: Format, view: FileView, tools: TextTools): (r: seq<Page>)
    ensures DistinctNumbers(r)
    ensures format != Pdf || !view.pdfRaised ==> Increasing(r)
  {
    match format
    case Pdf => ExtractPdf(view)
    case Docx =>
      var all := tools.words(Join(NonBlank(view.paragraphs, tools.words), "\n"));
      WordPagesSpec(all);
      IncreasingDistinct(WordPages(all));
      WordPages(all)
    case Txt =>
      WordPagesSpec(tools.words(view.text));
      IncreasingDistinct(WordPages(tools.words(view.text)));
      WordPages(tools.words(view.text))
  }

  // ---------------------------------------------------------------------
  // Chunk records

  /** The records of one page's windows, chunk `k` with id `"{page}_{k}"`. */
  function PageChunks(path: string, page: nat, contents: seq<string>): (r: seq<Chunk>)
    ensures |r| == |contents|
    ensures forall k :: 0 <= k < |r| ==>
      r[k] == Chunk(contents[k], Metadata(Basename(path), page, ChunkId(page, k), path))
  {
    seq(|contents|, k requires 0 <= k < |contents| => Chunk(contents[k], Metadata(Basename(path), page, ChunkId(page, k), path)))
  }

  /** The decoded windows of a cleaned page. */
  function PageContents(cleaned: string, tools: TextTools, cfg: Config): (r: seq<string>)
    requires 0 < cfg.chunkSize && cfg.chunkOverlap < cfg.chunkSize
    ensures |r| == |SplitTokens(tools.encode(cleaned), cfg.chunkSize, cfg.chunkOverlap)|
  {
    var windows := SplitTokens(tools.encode(cleaned), cfg.chunkSize, cfg.chunkOverlap);
    seq(|windows|, k requires 0 <= k < |windows| => tools.decode(windows[k]))
  }

  /** Chunks from `path` whose id names their page. */
  ghost predicate WellLabelled(cs: seq<Chunk>, path: string) {
    forall c :: c in cs ==>
      c.metadata.filename == Basename(path) && c.metadata.source == path &&
      PageOfChunkId(Id(c)) == c.metadata.page
  }

  /** The chunk records of one page. A page with text left after cleaning
      gives one chunk per token window: chunk `k` decodes window `k` of the
      cleaned text's tokens and is labelled `"{page}_{k}"`; a page with
      nothing left gives none. */
  function PageRecords(path: string, page: Page, tools: TextTools, cfg: Config): (r: seq<Chunk>)
    requires 0 < cfg.chunkSize && cfg.chunkOverlap < cfg.chunkSize
    ensures tools.clean(page.text) == "" ==> r == []
    ensures var tokens := tools.encode(tools.clean(page.text));
      tools.clean(page.text) != "" ==>
        |r| == |SplitTokens(tokens, cfg.chunkSize, cfg.chunkOverlap)| &&
        forall k :: 0 <= k < |r| ==>
          r[k].content == tools.decode(SplitTokens(tokens, cfg.chunkSize, cfg.chunkOverlap)[k]) &&
          r[k].metadata == Metadata(Basename(path), page.number, ChunkId(page.number, k), path)
  {
    var cleaned := tools.clean(page.text);
    if cleaned == "" then [] else PageChunks(path, page.number, PageContents(cleaned, tools, cfg))
  }

  /** The chunk records of a list of pages, page after page. */
  function ChunksOf(path: string, pages: seq<Page>, tools: TextTools, cfg: Config): (r: seq<Chunk>)
    requires 0 < cfg.chunkSize && cfg.chunkOverlap < cfg.chunkSize
    ensures WellLabelled(r, path)
    ensures forall c :: c in r ==> exists p :: p in pages && p.number == c.metadata.page && tools.clean(p.text) != ""
    decreases |pages|
  {
    if |pages| == 0 then []
    else
      var init := ChunksOf(path, pages[..|pages| - 1], tools, cfg);
      var page := pages[|pages| - 1];
      var own := PageRecords(path, page, tools, cfg);
      forall k | 0 <= k < |own| ensures PageOfChunkId(Id(own[k])) == page.number {
        PageOfChunkIdRoundTrip(page.number, k);
      }
      assert forall p :: p in pages[..|pages| - 1] ==> p in pages;
      init + own
  }

  /** The records of a single page are that page's records. */
  lemma {:induction false} ChunksOfPage(path: string, page: Page, tools: TextTools, cfg: Config)
    requires 0 < cfg.chunkSize && cfg.chunkOverlap < cfg.chunkSize
    ensures ChunksOf(path, [page], tools, cfg) == PageRecords(path, page, tools, cfg)
  {
    assert [page][..0] == [];
  }

  /** The records of consecutive runs of pages concatenate. */
  lemma {:induction false} ChunksOfAppend(path: string, a: seq<Page>, b: seq<Page>, tools: TextTools, cfg: Config)
    requires 0 < cfg.chunkSize && cfg.chunkOverlap < cfg.chunkSize
    ensures ChunksOf(path, a + b, tools, cfg) == ChunksOf(path, a, tools, cfg) + ChunksOf(path, b, tools, cfg)
    decreases |b|
  {
    if |b| == 0 {
      assert a + b == a;
    } else {
      var init := b[..|b| - 1];
      assert (a + b)[..|a + b| - 1] == a + init;
      assert (a + b)[|a + b| - 1] == b[|b| - 1];
      ChunksOfAppend(path, a, init, tools, cfg);
    }
  }

  /** Every page's records appear in the records of the list as one block,
      after the records of the pages before it and before those of the
      pages after it. */
  lemma {:induction false} ChunksOfPageBlock(path: string, pages: seq<Page>, i: nat, tools: TextTools, cfg: Config)
    requires 0 < cfg.chunkSize && cfg.chunkOverlap < cfg.chunkSize
    requires i < |pages|
    ensures ChunksOf(path, pages, tools, cfg) ==
      ChunksOf(path, pages[..i], tools, cfg) + PageRecords(path, pages[i], tools, cfg) + ChunksOf(path, pages[i + 1..], tools, cfg)
  {
    assert pages == pages[..i] + [pages[i]] + pages[i + 1..];
    ChunksOfAppend(path, pages[..i] + [pages[i]], pages[i + 1..], tools, cfg);
    ChunksOfAppend(path, pages[..i], [pages[i]], tools, cfg);
    ChunksOfPage(path, pages[i], tools, cfg);
  }

  /** Chunk ids are distinct within one file. */
  ghost predicate IdsUnique(cs: seq<Chunk>) {
    forall i, j :: 0 <= i < j < |cs| ==> Id(cs[i]) != Id(cs[j])
  }

  /** When no page is numbered `n`, no chunk names page `n`. */
  lemma {:induction false} ChunksOfOtherPages(path: string, pages: seq<Page>, tools: TextTools, cfg: Config, n: nat)
    requires 0 < cfg.chunkSize && cfg.chunkOverlap < cfg.chunkSize
    requires forall i :: 0 <= i < |pages| ==> pages[i].number != n
    ensures forall c :: c in ChunksOf(path, pages, tools, cfg) ==> c.metadata.page != n
  {
    forall c | c in ChunksOf(path, pages, tools, cfg) ensures c.metadata.page != n {
      var p :| p in pages && p.number == c.metadata.page && tools.clean(p.text) != "";
      var q :| 0 <= q < |pages| && pages[q] == p;
    }
  }

  /** Appending the chunks of a page no earlier chunk names keeps ids
      distinct. */
  lemma {:induction false} AppendPageUnique(init: seq<Chunk>, path: string, page: nat, contents: seq<string>)
    requires IdsUnique(init)
    requires forall c :: c in init ==> PageOfChunkId(Id(c)) == c.metadata.page != page
    ensures IdsUnique(init + PageChunks(path, page, contents))
  {
    var own := PageChunks(path, page, contents);
    var all := init + own;
    forall i, j | 0 <= i < j < |all| ensures Id(all[i]) != Id(all[j]) {
      if i >= |init| {
        var ki := i - |init|;
        var kj := j - |init|;
        if Id(own[ki]) == Id(own[kj]) {
          ChunkIdInjective(page, ki, page, kj);
        }
      } else if j >= |init| {
        var kj := j - |init|;
        assert all[i] == init[i] && all[j] == own[kj];
        assert init[i] in init;
        PageOfChunkIdRoundTrip(page, kj);
      } else {
        assert all[i] == init[i] && all[j] == init[j];
      }
    }
  }

  /** Over pages with distinct numbers, no two chunks share an id: chunks
      of different pages name different pages, and chunks of one page have
      different indexes. */
  lemma {:induction false} ChunksOfIdsUnique(path: string, pages: seq<Page>, tools: TextTools, cfg: Config)
    requires 0 < cfg.chunkSize && cfg.chunkOverlap < cfg.chunkSize
    requires DistinctNumbers(pages)
    ensures IdsUnique(ChunksOf(path, pages, tools, cfg))
    decreases |pages|
  {
    if |pages| > 0 {
      var before := pages[..|pages| - 1];
      var page := pages[|pages| - 1];
      assert DistinctNumbers(before) by {
        forall i, j | 0 <= i < j < |before| ensures before[i].number != before[j].number {
          assert before[i] == pages[i] && before[j] == pages[j];
        }
      }
      ChunksOfIdsUnique(path, before, tools, cfg);
      var cleaned := tools.clean(page.text);
      if cleaned != "" {
        forall i | 0 <= i < |before| ensures before[i].number != page.number {
          assert before[i] == pages[i];
        }
        ChunksOfOtherPages(path, before, tools, cfg, page.number);
        var contents := PageContents(cleaned, tools, cfg);
        AppendPageUnique(ChunksOf(path, before, tools, cfg), path, page.number, contents);
        assert PageRecords(path, page, tools, cfg) == PageChunks(path, page.number, contents);
        assert ChunksOf(path, pages, tools, cfg) == ChunksOf(path, before, tools, cfg) + PageChunks(path, page.number, contents);
      } else {
        assert PageRecords(path, page, tools, cfg) == [];
        assert ChunksOf(path, pages, tools, cfg) == ChunksOf(path, before, tools, cfg);
      }
    }
  }

  // ---------------------------------------------------------------------
  // Processing a file

  /** `process_file`: dispatch on the lower-cased extension, extract the
      pages, and turn every page into chunk records. */
  function ProcessFile(path: string, view: FileView, tools: TextTools, cfg: Config): (r: Result<seq<Chunk>>)
    requires 0 < cfg.chunkSize && cfg.chunkOverlap < cfg.chunkSize
    ensures r.Err? <==> Lower(Extension(path)) !in {".pdf", ".docx", ".txt"}
    ensures r.Err? ==> r.error == UnsupportedFormat(Lower(Extension(path)))
    ensures r.Ok? ==> WellLabelled(r.value, path)
  {
    var ext := Lower(Extension(path));
    match FormatOf(ext)
    case None => Err(UnsupportedFormat(ext))
    case Some(format) => Ok(ChunksOf(path, ExtractPages(format, view, tools), tools, cfg))
  }

  /** A file of a supported format yields the records of its extracted
      pages in page order: each page's records form one block, preceded by
      the records of the pages before it and followed by those after it. */
  lemma {:induction false} ProcessFilePageOrder(path: string, view: FileView, tools: TextTools, cfg: Config, i: nat)
    requires 0 < cfg.chunkSize && cfg.chunkOverlap < cfg.chunkSize
    requires FormatOf(Lower(Extension(path))).Some?
    requires i < |ExtractPages(FormatOf(Lower(Extension(path))).value, view, tools)|
    ensures var pages := ExtractPages(FormatOf(Lower(Extension(path))).value, view, tools);
      ProcessFile(path, view, tools, cfg) ==
        Ok(ChunksOf(path, pages[..i], tools, cfg) + PageRecords(path, pages[i], tools, cfg) + ChunksOf(path, pages[i + 1..], tools, cfg))
  {
    var pages := ExtractPages(FormatOf(Lower(Extension(path))).value, view, tools);
    ChunksOfPageBlock(path, pages, i, tools, cfg);
  }

  /** The chunks of one file all carry different ids. */
  lemma {:induction false} ProcessFileIdsUnique(path: string, view: FileView, tools: TextTools, cfg: Config)
    requires 0 < cfg.chunkSize && cfg.chunkOverlap < cfg.chunkSize
    ensures var r := ProcessFile(path, view, tools, cfg);
      r.Ok? ==> IdsUnique(r.value)
  {
    var ext := Lower(Extension(path));
    if FormatOf(ext).Some? {
      ChunksOfIdsUnique(path, ExtractPages(FormatOf(ext).value, view, tools), tools, cfg);
    }
  }

  /** Chunk ids leave out the file name: the first chunk of page 1 of any
      two files has the id `1_0` in both. */
  lemma {:induction false} ChunkIdsCollideAcrossFiles(pathA: string, pathB: string, contentA: string, contentB: string)
    ensures Id(PageChunks(pathA, 1, [contentA])[0]) == Id(PageChunks(pathB, 1, [contentB])[0]) == "1_0"
  {
    assert NatToString(1) == "1" && NatToString(0) == "0";
  }
}
