/**
 * The records the summarizer writes and the embedder reads back: the
 * interfaces of spearbot-node/src/types/types.ts, with every indexed
 * JavaScript object kept as an insertion-ordered object.
 */
module Records {
  import opened JsObject

  /** Token counts of a chunk's summary and of its content. */
  datatype TokenCounts = TokenCounts(summary: nat, content: nat)

  /** One structural chunk of a file with its generated title and summary. */
  datatype ChunkedSummary = ChunkedSummary(title: string, summary: string, content: string, tokens: TokenCounts)

  /** One file: its global summary and its chunk summaries keyed by title. */
  datatype SingleFileSummary = SingleFileSummary(filename: string, globalSummary: string, chunkedSummaries: Object<ChunkedSummary>)

  /** File path to file summary, for one input category. */
  type SummarySetByExtension = Object<SingleFileSummary>

  /** Input category ("text", "markdown", "solidity") to its files. */
  type Summaries = Object<SummarySetByExtension>
}
