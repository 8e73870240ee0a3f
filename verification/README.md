# AskMyDocs core in Dafny

AskMyDocs answers questions about uploaded documents with a
retrieval-augmented pipeline. Files are cut into pages and token-window
chunks. Each chunk carries its file name, page and a `"{page}_{idx}"` chunk
id. The chunks are held in a FAISS vector store. A hybrid retriever fuses
dense (embedding) hits with BM25 hits, a cross-encoder reranks the result,
and an LLM handler builds a chat prompt from the best chunks and the recent
conversation.

This project models the pure core of that pipeline as Dafny functions over
immutable records, and proves what each stage promises.

| module | file | models |
|---|---|---|
| `Records` | records.dfy | chunks, metadata, scored results, turns, configuration, errors |
| `Ranking` | ranking.dfy | Python's stable `sort(key=score, reverse=True)` and `[:k]` |
| `Normalization` | normalization.dfy | `_normalize_scores` (min-max) |
| `Fusion` | fusion.dfy | `_combine_results`: a dictionary keyed by chunk id, then sorted |
| `VectorStore` | vector_store.dfy | `create_index`, `search` post-processing, `save`/`load`/`clear` |
| `Retriever` | retriever.dfy | `_init_bm25`, the BM25 top-k and `retrieve` |
| `TokenWindows` | token_windows.dfy | `truncate_memory`, `split_text_by_tokens` |
| `Text` | text.dfy | `str(n)`, chunk ids, `sep.join` |
| `Reranker` | reranker.dfy | `Reranker.rerank` |
| `LlmHandler` | llm_handler.dfy | `generate_answer`, `_format_context`, `_create_messages_with_memory` |
| `DocumentProcessor` | document_processor.dfy | `process_file`, the extension dispatch, page extraction |

Scores are `real`, so normalisation and fusion are exact. Every foreign
component enters as an input or a function parameter:

- the FAISS neighbour list, as `(row, distance)` pairs;
- the BM25 score vector, and the order `np.argsort` returns for it;
- the cross-encoder, as `(query, content) -> real`;
- the tokenizer, as `count`, `encode` and `decode`;
- `clean_text` and `str.split()`;
- the score formatter `{:.3f}`;
- the chat-completions call, as a reply or a failure.

Some behaviours of the code are modelled exactly as written:

- **A FAISS `-1` label reads the last chunk.** FAISS pads with `-1` when fewer
  rows exist than were asked for. The guard `idx < len(documents)` lets `-1`
  through, and Python's negative indexing then reads the last chunk
  (`VectorStore.SentinelReadsLastChunk`). A label below `-len(documents)`
  would raise, and is an `Err(LabelOutOfRange)`.
- **Chunk ids are unique within one file only.** Within a file no two chunks
  share an id (`DocumentProcessor.ProcessFileIdsUnique`). The ids omit the
  file name, so two files give the same ids
  (`DocumentProcessor.ChunkIdsCollideAcrossFiles`).
  Fusion is keyed by that id, so a later dense hit with the same id replaces
  an earlier one (`Fusion.DenseTableLookup` keeps the last). Lexical hits with
  a shared id add their scores.
- **A pdfplumber failure can reorder PDF pages.** When pdfplumber raises,
  PyPDF2 writes its pages into the same dictionary: pages pdfplumber stored
  keep their places, PyPDF2's text replaces theirs where it found any, and
  pages new to PyPDF2 follow in page number order. So page 2 can come after
  page 3 (`DocumentProcessor.FallbackReordersPages`), and the chunks follow
  that order. Page numbers, and so chunk ids, stay distinct.
- **A memory window of 0 keeps the whole history.** `chat_history[-0:]` is the
  whole list (`LlmHandler.RecentTurnsWindow`).
- **`np.argsort` is not stable.** The BM25 order is taken as an input that is
  any ascending order of the scores, ties in any order
  (`Retriever.IsAscendingOrder`). `[::-1]` is applied to it inside the model,
  so chunks with equal BM25 scores may come in any order.
- **Clear then load restores nothing.** `clear` deletes both files, so a
  later `load` returns `False` and leaves the store empty
  (`VectorStore.LoadAfterClear`).
- **Building an index checks no dimensions.** `create_index` does not compare
  the number of vectors with the number of chunks, so the model has no such
  error.
- **Top-k and the BM25 weight are read at the call.** The app's sliders
  assign `TOP_K_RETRIEVAL`, `TOP_K_RERANK` and `BM25_WEIGHT`, so retrieval and
  reranking take the configuration as a parameter (`Records.Config`);
  `Records.DefaultConfig` holds the values `config.py` starts with.

## Model

| member | source | states |
|---|---|---|
| `Ranking.SortDescSorted` | retriever.py:98 | the stable descending sort yields scores in non-increasing order |
| `Ranking.SortDescPermutation` | retriever.py:98 | the sort is a permutation of its input (same multiset) |
| `Ranking.SortDescStable` | reranker.py:40 | entries with equal scores keep their input order: restricted to any one score value, the sorted list equals the input list |
| `Ranking.SortDescIdsDistinct` | retriever.py:94-98 | sorting a list with distinct chunk ids keeps them distinct |
| `Normalization.NormalizeEmpty` | retriever.py:105-106 | the normalised list is empty exactly when the input is empty |
| `Normalization.NormalizeDegenerate` | retriever.py:109-110 | when all scores are equal, every normalised score is exactly 1.0 |
| `Normalization.NormalizeSpread` | retriever.py:107-111 | otherwise each score lies in [0, 1], is 0 exactly at the minimum and 1 exactly at the maximum |
| `Normalization.NormalizeInUnitInterval` | retriever.py:103-111 | in every case every normalised score lies in [0, 1] |
| `Normalization.NormalizeMonotone` | retriever.py:111 | normalisation preserves order both ways: s_i <= s_j iff n_i <= n_j |
| `Normalization.NormalizeIdempotent` | retriever.py:103-111 | normalising a normalised list changes nothing |
| `Fusion.CombineResults` | retriever.py:62-100 | the fused list is sorted non-increasing by score, has at most one entry per chunk id, and is a reordering of the keyed table |
| `Fusion.CombineResultsIsKeyedUnion` | retriever.py:74-91 | looking up any chunk id in the fused list gives the entry of the reference keyed-union definition |
| `Fusion.CombineResultsUnion` | retriever.py:76-91 | a chunk id is in the fused list iff it occurs in the dense list or in the lexical list |
| `Fusion.DenseTableLookup` | retriever.py:76-81 | after the dense loop an id holds the chunk of its LAST dense occurrence with score (1 - alpha) times its normalised score |
| `Fusion.LexTableLookupPresent` | retriever.py:83-86 | an id already in the table keeps its chunk and gains alpha times the sum of its lexical normalised scores |
| `Fusion.LexTableLookupAbsent` | retriever.py:83-91 | an id not yet in the table gets its first lexical chunk with the summed lexical score, or stays absent |
| `Fusion.FusedScoreDense` | retriever.py:76-86 | an id in the dense list scores (1 - alpha) * dense norm + alpha * (sum of its lexical norms, 0 if none), with the dense chunk |
| `Fusion.FusedScoreLexical` | retriever.py:83-91 | an id only in the lexical list scores alpha * its lexical norm sum, with its first lexical chunk |
| `Fusion.LookupMembership` | retriever.py:94-97 | in a table with distinct ids, lookup finds an entry iff the entry is in the table with that id |
| `Fusion.FusedScoresInUnitInterval` | retriever.py:80-90 | with 0 <= alpha <= 1 and distinct lexical ids, every fused score lies in [0, 1] |
| `Fusion.RepeatedLexicalIdExceedsOne` | retriever.py:80-90 | a chunk found once densely and twice lexically with equal BM25 scores fuses to 1 + alpha, above 1 for any positive weight |
| `VectorStore.NewStore` | vector_store.py:12-16 | a new store has no index and no chunks |
| `VectorStore.CreateIndex` | vector_store.py:18-25 | the index is replaced, the chunks become exactly the given list, the disk is untouched |
| `VectorStore.Save` | vector_store.py:29-35 | with an index both files are written with the index and the chunks; without one nothing changes |
| `VectorStore.Load` | vector_store.py:37-45 | succeeds iff both files exist, then restores both; otherwise the store is unchanged |
| `VectorStore.Clear` | vector_store.py:64-72 | drops the index and the chunks and deletes both files |
| `VectorStore.SearchLoopSucceeds` | vector_store.py:56-60 | the loop succeeds iff no neighbour row is below minus the chunk count |
| `VectorStore.Search` | vector_store.py:47-62 | no index gives the not-initialised error; with an index and every row readable, a search equals the reference filter-then-map: the neighbours whose row is below the chunk count, in order, each read with Python indexing and scored 1/(1+d); with an unreadable row it fails at the first one |
| `VectorStore.KeptMembers` | vector_store.py:57 | a neighbour is kept iff it is among the neighbours and its row is below the chunk count, negative rows included |
| `VectorStore.SentinelReadsLastChunk` | vector_store.py:56-60 | a `-1` label yields the last chunk |
| `VectorStore.SimilarityRange` | vector_store.py:59 | for a distance >= 0 the similarity lies in (0, 1], and is 1 iff the distance is 0 |
| `VectorStore.SimilarityDecreasing` | vector_store.py:59 | similarity strictly decreases as distance grows, both ways |
| `VectorStore.SearchNeedsIndex` | vector_store.py:49-50 | the not-initialised error occurs iff there is no index |
| `VectorStore.SaveLoadRoundTrip` | vector_store.py:29-45 | loading after saving restores the index and the chunks |
| `VectorStore.ClearIdempotent` | vector_store.py:64-72 | clearing twice is clearing once |
| `VectorStore.LoadAfterClear` | vector_store.py:37-72 | after a clear, load returns false and changes nothing, and search fails |
| `Retriever.NewRetriever` | retriever.py:18-27 | a lexical index exists iff the store holds chunks |
| `Retriever.ReverseIsDescending` | retriever.py:45 | reversing an ascending argsort order gives a descending order over all positions |
| `Retriever.LexicalTopK` | retriever.py:45-49 | the k lexical results are the chunks and BM25 scores at the first k positions of the reversed order |
| `Retriever.LexicalTopKIsTopK` | retriever.py:45-49 | the lexical results are sorted and no chunk left out scores above one kept |
| `Retriever.ResolveTopK` | retriever.py:32-33 | a given top_k is used as is; a missing one is the configuration's retrieval depth at the time of the call |
| `Retriever.LexicalResults` | retriever.py:40-51 | without a lexical index the lexical list is empty; it has at most k entries |
| `Retriever.Retrieve` | retriever.py:30-60 | a retrieval fails with the not-initialised error exactly when there is no index; when it succeeds it returns the first min(top_k, number fused) entries of the fused list of the dense results and the top_k BM25 results, so at most top_k, sorted, with distinct chunk ids |
| `Retriever.RetrieveDenseOnly` | retriever.py:40-60 | without a lexical index the result is the dense-only fusion cut to top_k |
| `Retriever.DenseOnlyFusion` | retriever.py:70-81 | with no lexical results an id is fused iff it is a dense hit, and scores (1 - alpha) times its normalised dense score |
| `Retriever.RetrieveKeepsBestFused` | retriever.py:53-60 | exactly min(top_k, number fused) results come back; every result is its chunk id's fused entry under the configured BM25 weight, and no fused entry left out scores above one kept |
| `TokenWindows.TruncateMemory` | utils.py:58-71 | the result is a suffix of the memory in order, fits the budget, and is maximal: either all of it or adding the next older turn overflows |
| `TokenWindows.Truncate` | utils.py:58-71 | a suffix that fits the budget, empty when the newest turn alone is over budget |
| `TokenWindows.KeptCountFits` | utils.py:65-69 | the kept suffix costs at most the budget |
| `TokenWindows.KeptCountMaximal` | utils.py:66-67 | the loop stops at the first overflow |
| `TokenWindows.KeptCountUnique` | utils.py:64-69 | the kept count is the only count that fits and stops at the first overflow |
| `TokenWindows.TruncateIsLongestFit` | utils.py:64-67 | every longer suffix is over budget |
| `TokenWindows.KeptCountFitting` | utils.py:64-69 | a memory that fits is kept whole |
| `TokenWindows.TruncateIdempotent` | utils.py:58-71 | truncating a truncated memory changes nothing |
| `TokenWindows.SplitTextByTokens` | utils.py:24-43 | the while loop yields exactly the windows of the closed-form definition, window i starting at i * (size - overlap) |
| `TokenWindows.SplitTokensWindows` | utils.py:36-41 | no tokens give no windows; every window holds between 1 and chunk_size tokens |
| `TokenWindows.SplitTokensCovers` | utils.py:36-41 | with 0 <= overlap every token lies in window t / stride |
| `TokenWindows.CeilingUnique` | utils.py:36-41 | the window count is the token count divided by the stride, rounded up |
| `TokenWindows.SplitTokensConcat` | utils.py:36-41 | with no overlap the windows concatenate back to the tokens |
| `Text.ParseNatToString` | document_processor.py:48 | a rendered page or index number reads back as the number |
| `Text.PageOfChunkIdRoundTrip` | document_processor.py:48 | the page can be read back from a chunk id |
| `Text.ChunkIdInjective` | document_processor.py:48 | different (page, index) pairs give different chunk ids |
| `Reranker.Rescore` | reranker.py:28-37 | each candidate keeps its chunk and gets the cross-encoder's score of (query, content); the old score is dropped |
| `Reranker.ResolveTopK` | reranker.py:21-22 | a given top_k is used as is; a missing one is the configuration's rerank depth at the time of the call |
| `Reranker.Rerank` | reranker.py:14-42 | no candidates give no results; otherwise min(top_k, n) results |
| `Reranker.RerankSpec` | reranker.py:34-42 | the results are sorted by the new score, each score is the scorer's, and they are the first entries of a permutation of the rescored candidates |
| `Reranker.RerankStable` | reranker.py:40 | candidates with the same new score keep their input order |
| `LlmHandler.RecentTurnsWindow` | llm_handler.py:34-35 | a window w >= 1 keeps the last min(w, n) turns; a window of 0 keeps all of them |
| `LlmHandler.MemoryUsed` | llm_handler.py:30-37 | the turns sent are recent turns of the history (none when it is missing), at most the window many, within the token budget |
| `LlmHandler.MemoryUsedKeepsNewest` | llm_handler.py:33-36 | within the window the newest turns are kept while they fit: the turns sent are the newest of the window, and one more turn from the window would exceed the budget |
| `LlmHandler.Blocks` | llm_handler.py:50-59 | one block per document, in input order, block i headed with i + 1 |
| `LlmHandler.BlocksNumbered` | llm_handler.py:53-55 | the header of block i reads back as i + 1 |
| `LlmHandler.FormatContext` | llm_handler.py:49-59 | no documents give an empty context |
| `LlmHandler.FormatContextBlockAt` | llm_handler.py:49-59 | the block of document i + 1 appears whole in the context, at the offset after the earlier blocks each followed by a newline, so the blocks come in document order |
| `Text.Join` | llm_handler.py:59 | a single part joins to itself |
| `Text.JoinLength` | llm_handler.py:59 | a joined text is as long as its parts plus one separator between each two neighbours |
| `Text.JoinPartAt` | llm_handler.py:59 | every part appears unchanged in the joined text at the offset after the earlier parts and their separators |
| `Text.JoinSepAt` | llm_handler.py:59 | between each part and the next the joined text holds exactly the separator |
| `LlmHandler.CreateMessages` | llm_handler.py:61-108 | 2 + 2n messages: the system prompt first, each turn as user(query) then assistant(answer) in order, and the prompt with context and question last |
| `LlmHandler.HistoryOfCreateMessages` | llm_handler.py:84-93 | the history can be read back from the messages, so every turn is sent, in order, and nothing else |
| `LlmHandler.CreateMessagesRoles` | llm_handler.py:69-106 | the roles are system, then user and assistant alternating, and user last |
| `LlmHandler.AnswerText` | llm_handler.py:121-127 | a reply is returned as is; a failure becomes the text "Error calling LLM API: " and the reason |
| `LlmHandler.SentMessages` | llm_handler.py:18-40 | the messages sent start with the system message, alternate user and assistant after it, carry exactly the memory used, and end with the prompt built from the formatted context |
| `LlmHandler.GenerateAnswer` | llm_handler.py:18-48 | the sources are the documents given, and the answer is the reply or the error text |
| `DocumentProcessor.LastIndexOf` | document_processor.py:18 | the position of the last occurrence of a character, or -1 |
| `DocumentProcessor.Basename` | document_processor.py:46 | the file name is the longest suffix of the path without a `/`: it holds none, and the character before it is one |
| `DocumentProcessor.Extension` | document_processor.py:18 | the extension is empty or a suffix of the path that starts with `.` and holds no further `.` and no `/` |
| `DocumentProcessor.ExtensionSpec` | document_processor.py:18 | there is no extension iff every dot of the file name is preceded only by dots (hidden files such as `.txt` included); otherwise the extension is a proper suffix of the file name |
| `DocumentProcessor.ExtensionOf` | document_processor.py:18 | a stem whose last character is neither `.` nor `/`, then `.` and a suffix without dots or slashes, has `.` and that suffix as its extension |
| `DocumentProcessor.FormatOf` | document_processor.py:20-27 | `.pdf`, `.docx` and `.txt` select the PDF, DOCX and text extractors respectively, and no other extension selects one |
| `DocumentProcessor.PdfPages` | document_processor.py:59-65 | the pages pdfplumber stores keep their 1-based numbers in order, every page with text is present and no page without |
| `DocumentProcessor.SetPage` | document_processor.py:65 | `d[n] = t` keeps the numbers already present in their places, adds at most one entry, at the end and only for a new number, and keeps numbers distinct |
| `DocumentProcessor.SetPageContent` | document_processor.py:65 | after `d[n] = t` page n holds t and every other page what it held |
| `DocumentProcessor.SetPages` | document_processor.py:70-73 | writing a parser's pages into a dictionary keeps the pages already present in their places and appends the new numbers after them in increasing order |
| `DocumentProcessor.SetPagesContent` | document_processor.py:70-73 | after the writes a page holds the parser's text where it found text, and what it held before elsewhere |
| `DocumentProcessor.ExtractPdf` | document_processor.py:55-75 | PDF page numbers are distinct; without a pdfplumber failure the pages are pdfplumber's; with one, pdfplumber's pages keep their places and PyPDF2's new pages follow |
| `DocumentProcessor.ExtractPdfContent` | document_processor.py:55-75 | a PDF page holds PyPDF2's text when pdfplumber raised and PyPDF2 found text on it, and pdfplumber's text otherwise |
| `DocumentProcessor.FallbackReordersPages` | document_processor.py:59-73 | pdfplumber storing pages 1 and 3 and then raising, with PyPDF2 finding text on page 2, yields the pages in the order 1, 3, 2 |
| `DocumentProcessor.WordPages` | document_processor.py:104-112 | synthetic page j + 1 joins the words of window j with spaces |
| `DocumentProcessor.WordPagesSpec` | document_processor.py:91-112 | synthetic pages are numbered 1, 2, ...; there are words / 500 of them rounded up, none for no words; each holds 1 to 500 words; together they give back the words |
| `DocumentProcessor.NonBlank` | document_processor.py:82-85 | exactly the paragraphs with more than whitespace are kept |
| `DocumentProcessor.NonBlankAppend` | document_processor.py:82-85 | filtering a concatenation concatenates the filtered parts, so kept paragraphs stay in document order |
| `DocumentProcessor.ExtractPages` | document_processor.py:20-25 | every extractor yields pages with distinct numbers, in increasing order except after a pdfplumber failure |
| `DocumentProcessor.PageChunks` | document_processor.py:42-51 | chunk k of a page has id `"{page}_{k}"`, the page, the file's basename and the path |
| `DocumentProcessor.PageRecords` | document_processor.py:31-51 | a page with cleaned text gives one chunk per token window, decoded, numbered from 0 and labelled with the page; a page with none gives no chunks |
| `DocumentProcessor.ChunksOf` | document_processor.py:29-53 | every chunk carries the basename and path, names its own page in its id, and comes from a page whose cleaned text is not empty |
| `DocumentProcessor.ChunksOfPage` | document_processor.py:29-51 | the records of a single page are that page's records |
| `DocumentProcessor.ChunksOfAppend` | document_processor.py:29-53 | the records of two consecutive runs of pages concatenate |
| `DocumentProcessor.ChunksOfPageBlock` | document_processor.py:29-53 | every page's records form one block, after the records of the earlier pages and before those of the later ones |
| `DocumentProcessor.ChunksOfIdsUnique` | document_processor.py:42-51 | over pages with distinct numbers no two chunks share an id |
| `DocumentProcessor.ProcessFile` | document_processor.py:16-53 | an unsupported extension is an error naming it, and only then; otherwise every chunk is labelled with the file and its page |
| `DocumentProcessor.ProcessFilePageOrder` | document_processor.py:16-53 | a supported file yields the records of its extracted pages page by page, in the extractor's order, each page's records as one block |
| `DocumentProcessor.ProcessFileIdsUnique` | document_processor.py:16-53 | the chunks of one file all carry different ids |
| `DocumentProcessor.ChunkIdsCollideAcrossFiles` | document_processor.py:48 | two files give their first chunks the same id `1_0` |

## Left out

- Fusion.FusedScoresInUnitInterval: requires the lexical list to hold distinct chunk ids. BM25 can return two chunks of different files with the same id, and then their scores add up: `Fusion.RepeatedLexicalIdExceedsOne` gives a fused score of 1 + alpha.
- DocumentProcessor.Lower: lower-cases ASCII letters only. Unicode case mapping is not modelled.
- A negative `top_k` (Python's `[:-k]`) is not modelled: `top_k` is a natural number or absent.
- A chunk size of 0 or less, or an overlap not below the chunk size, is not modelled. The Python loop would not terminate or would slice from the end; the window functions require `0 < chunk_size` and `overlap < chunk_size`.
- The BM25 formula and its `lower().split()` tokenisation are outside the model: the scores and their argsort order are inputs.
- The FAISS nearest-neighbour computation is outside the model: its neighbour list is an input. Index and pickle file formats are not modelled; the disk is a record of the two files.
- The tokenizer (`count_tokens`, encode, decode), `clean_text` and `str.split()` are function parameters. Their Unicode regular expressions are not modelled.
- PDF and DOCX parsing (pdfplumber, PyPDF2, python-docx) and file reading are outside the model: their output, and whether pdfplumber raised, is the `FileView` input.
- The system prompt wording is a parameter of the message builder. `{score:.3f}` float formatting is the `formatScore` parameter.
- The HTTP request, its JSON and its exceptions are outside the model: the call is a function returning a reply or a failure reason.
- Floating-point rounding: scores are exact reals.
- The Streamlit app, the embedding wrapper, `format_sources` and the configuration's directory and token side effects are not part of this model. The configuration is the `Records.Config` parameter, with `Records.DefaultConfig` holding its starting values.
- Console messages are not modelled.
