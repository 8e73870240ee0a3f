/** Records shared by every stage of the question-answering pipeline:
    chunks with their provenance, scored results, conversation turns,
    the runtime configuration and the error outcomes of the core. */
module Records {

  /** Provenance attached to every chunk at ingestion time. */
  datatype Metadata = Metadata(filename: string, page: nat, chunkId: string, source: string)

  /** A bounded span of document text, the unit that is indexed and retrieved. */
  datatype Chunk = Chunk(content: string, metadata: Metadata)

  /** The join key used when result lists are merged. It does not include
      the file name, so chunks of different files can share it. */
  function Id(c: Chunk): string {
    c.metadata.chunkId
  }

  /** A chunk paired with the score one stage gave it (a `(doc, score)` tuple). */
  datatype Scored = Scored(doc: Chunk, score: real)

  /** One earlier question with the answer that was given to it. */
  datatype Turn = Turn(query: string, answer: string)

  /** The process-wide settings, passed explicitly to each stage. */
  datatype Config = Config(
    topKRetrieval: nat,
    topKRerank: nat,
    bm25Weight: real,
    memoryWindow: int,
    maxMemoryTokens: int,
    chunkSize: nat,
    chunkOverlap: int
  )

  /** The values the configuration starts with. */
  const DefaultConfig := Config(
    topKRetrieval := 20,
    topKRerank := 5,
    bm25Weight := 0.3,
    memoryWindow := 5,
    maxMemoryTokens := 2000,
    chunkSize := 500,
    chunkOverlap := 50
  )

  datatype Option<T> = None | Some(value: T)

  /** The failures the core raises. */
  datatype Error =
    | IndexNotReady                  // search before any index exists
    | LabelOutOfRange(position: int) // a neighbour label Python cannot index with
    | UnsupportedFormat(ext: string) // a file extension with no extractor

  datatype Result<T> = Ok(value: T) | Err(error: Error)

  function Min(a: int, b: int): int { if a <= b then a else b }

  function Max(a: int, b: int): int { if a <= b then b else a }
}
