/**
 * `main` of spearbot-node/src/scripts/embedder.ts after argument parsing:
 * per Solidity file, a one-sentence summary of its global summary, one text
 * per chunk combining that summary with the chunk's summary and content, the
 * texts embedded file by file, and the documents and vectors collected in
 * order for the vector store. The chat model and the embedding model are the
 * fields of `Services`; reading and parsing the input file and saving the
 * index are not modelled (the parsed summaries are the input).
 */
module Embedder {
  import opened Wrappers
  import opened JsObject
  import opened Records
  import EmbedderArgs

  /** An embedding vector. */
  type Vector = seq<real>

  datatype Services = Services(
    /** `model.generate([prompt])`, the text of its first generation */
    generate: string -> string,
    /** `embeddings.embedDocuments(texts)` */
    embedDocuments: seq<string> -> seq<Vector>)

  /** What is handed to the vector store: the documents and their vectors. */
  datatype Embedded = Embedded(docs: seq<string>, embeds: seq<Vector>)

  /** `Object.keys(input["solidity"])` on a summaries file without a Solidity category throws. */
  datatype EmbedError = NoSolidityCategory

  const ShortInstruction: string :=
    "Give a one sentence summary fo the following. Only give the sentence and do not say anything else: "

  /** The prompt for a file's one-sentence summary. */
  function ShortPrompt(globalSummary: string): string {
    ShortInstruction + globalSummary
  }

  const ContextLabel: string := "File Context: "
  const SummaryLabel: string := "\n\nSection Summary: "
  const ContentLabel: string := "\n\nSection Content: "

  /** The text embedded for one chunk. */
  function EmbedText(short: string, summary: string, content: string): string {
    ContextLabel + short + SummaryLabel + summary + ContentLabel + content
  }

  /**
   * An embedded text opens with the file's short summary and ends with the
   * chunk's content verbatim, the chunk summary between them.
   */
  lemma EmbedTextLayout(short: string, summary: string, content: string)
    ensures var t := EmbedText(short, summary, content);
      var head := ContextLabel + short + SummaryLabel + summary + ContentLabel;
      && |t| == |head| + |content|
      && t[..|head|] == head && t[|head|..] == content
      && t[..|ContextLabel| + |short|] == ContextLabel + short
  {
    var head := ContextLabel + short + SummaryLabel + summary + ContentLabel;
    var t := EmbedText(short, summary, content);
    assert t == head + content;
    assert head == (ContextLabel + short) + (SummaryLabel + summary + ContentLabel);
    assert t[..|ContextLabel| + |short|] == head[..|ContextLabel| + |short|];
  }

  /** For the same short summary and chunk summary, a chunk's text determines its content. */
  lemma EmbedTextDeterminesContent(short: string, summary: string, a: string, b: string)
    requires EmbedText(short, summary, a) == EmbedText(short, summary, b)
    ensures a == b
  {
    EmbedTextLayout(short, summary, a);
    EmbedTextLayout(short, summary, b);
  }

  /** `fileNames.map(fileName => soliditySummaries[fileName])`. */
  function FileSummaries(solidity: SummarySetByExtension): (files: seq<SingleFileSummary>)
    ensures |files| == |solidity|
    ensures DistinctKeys(solidity) ==> files == Values(solidity)
  {
    ReadInKeyOrder(solidity);
    seq(|solidity|, k requires 0 <= k < |solidity| => Read(solidity, Keys(solidity)[k]))
  }

  /** The short summary of a file. */
  function ShortSummary(file: SingleFileSummary, svc: Services): string {
    svc.generate(ShortPrompt(file.globalSummary))
  }

  /** The texts of the first `n` chunks of a file, chunk by chunk in key order. */
  function ChunkTexts(chunks: Object<ChunkedSummary>, short: string, n: nat): (ts: seq<string>)
    requires n <= |chunks|
    ensures |ts| == n
    ensures forall k :: 0 <= k < n ==>
      var c := Read(chunks, Keys(chunks)[k]); ts[k] == EmbedText(short, c.summary, c.content)
  {
    if n == 0 then []
    else
      var c := Read(chunks, Keys(chunks)[n - 1]);
      ChunkTexts(chunks, short, n - 1) + [EmbedText(short, c.summary, c.content)]
  }

  /** `toEmbeds` for one file. */
  function FileTexts(file: SingleFileSummary, svc: Services): seq<string> {
    ChunkTexts(file.chunkedSummaries, ShortSummary(file, svc), |file.chunkedSummaries|)
  }

  /** `docs` after the given files: every file's texts, file after file. */
  function Docs(files: seq<SingleFileSummary>, svc: Services): seq<string> {
    if files == [] then []
    else Docs(files[..|files| - 1], svc) + FileTexts(files[|files| - 1], svc)
  }

  /** `embeds` after the given files: every file's embedding call, file after file. */
  function Embeds(files: seq<SingleFileSummary>, svc: Services): seq<Vector> {
    if files == [] then []
    else Embeds(files[..|files| - 1], svc) + svc.embedDocuments(FileTexts(files[|files| - 1], svc))
  }

  /** The documents and vectors of a summaries file. */
  function EmbedSummaries(input: Summaries, svc: Services): Result<Embedded, EmbedError> {
    match Get(input, "solidity")
    case None => Failure(NoSolidityCategory)
    case Some(solidity) =>
      var files := FileSummaries(solidity);
      Success(Embedded(Docs(files, svc), Embeds(files, svc)))
  }

  /** The embedding loop of `main`. */
  method CreateEmbeddings(input: Summaries, svc: Services) returns (r: Result<Embedded, EmbedError>)
    ensures r == EmbedSummaries(input, svc)
  {
    var soliditySummaries := Get(input, "solidity");
    if soliditySummaries.None? {
      return Failure(NoSolidityCategory);
    }
    var fileSummaries := FileSummaries(soliditySummaries.value);
    var embeds: seq<Vector> := [];
    var docs: seq<string> := [];
    for i := 0 to |fileSummaries|
      invariant docs == Docs(fileSummaries[..i], svc)
      invariant embeds == Embeds(fileSummaries[..i], svc)
    {
      var toEmbeds;
      toEmbeds, docs := ChunkEmbedTexts(fileSummaries[i], svc, docs);
      var embeddingsResult := svc.embedDocuments(toEmbeds);
      embeds := embeds + embeddingsResult;
      FileStep(fileSummaries, i, svc);
    }
    assert fileSummaries[..|fileSummaries|] == fileSummaries;
    return Success(Embedded(docs, embeds));
  }

  /** The chunk loop of one file: each text goes to `toEmbeds` and to `docs`. */
  method ChunkEmbedTexts(fileSummary: SingleFileSummary, svc: Services, docs0: seq<string>)
    returns (toEmbeds: seq<string>, docs: seq<string>)
    ensures toEmbeds == FileTexts(fileSummary, svc)
    ensures docs == docs0 + toEmbeds
  {
    var globalSummary := fileSummary.globalSummary;
    var chunkedSummaries := fileSummary.chunkedSummaries;
    var chunkNames := Keys(chunkedSummaries);
    var globalShortSummary := svc.generate(ShortPrompt(globalSummary));
    toEmbeds := [];
    docs := docs0;
    for k := 0 to |chunkNames|
      invariant toEmbeds == ChunkTexts(chunkedSummaries, globalShortSummary, k)
      invariant docs == docs0 + toEmbeds
    {
      var chunkSummary := Read(chunkedSummaries, chunkNames[k]);
      var toEmbed := EmbedText(globalShortSummary, chunkSummary.summary, chunkSummary.content);
      toEmbeds := toEmbeds + [toEmbed];
      docs := docs + [toEmbed];
    }
  }

  /** One more file appends its texts to the documents and its embedding call's result to the vectors. */
  lemma FileStep(files: seq<SingleFileSummary>, i: nat, svc: Services)
    requires i < |files|
    ensures Docs(files[..i + 1], svc) == Docs(files[..i], svc) + FileTexts(files[i], svc)
    ensures Embeds(files[..i + 1], svc) == Embeds(files[..i], svc) + svc.embedDocuments(FileTexts(files[i], svc))
  {
    assert files[..i + 1][..i] == files[..i];
  }

  /*
   * Documents and vectors line up.
   */

  /** Where the documents of file `i` start. */
  function Offset(files: seq<SingleFileSummary>, i: nat, svc: Services): nat
    requires i <= |files|
  {
    |Docs(files[..i], svc)|
  }

  /** The embedding model returns one vector per text. */
  ghost predicate OneVectorPerText(svc: Services) {
    forall texts :: |svc.embedDocuments(texts)| == |texts|
  }

  /** The documents of file `i` sit at `Offset(files, i)`, in chunk order. */
  lemma {:induction false} DocsAt(files: seq<SingleFileSummary>, svc: Services, i: nat, k: nat)
    requires i < |files| && k < |FileTexts(files[i], svc)|
    ensures Offset(files, i, svc) + k < |Docs(files, svc)|
    ensures Docs(files, svc)[Offset(files, i, svc) + k] == FileTexts(files[i], svc)[k]
  {
    var front := files[..|files| - 1];
    if i == |files| - 1 {
      assert files[..i] == front;
    } else {
      assert front[..i] == files[..i] && front[i] == files[i];
      DocsAt(front, svc, i, k);
    }
  }

  /** With one vector per text, there are as many vectors as documents. */
  lemma {:induction false} EmbedsCount(files: seq<SingleFileSummary>, svc: Services)
    requires OneVectorPerText(svc)
    ensures |Embeds(files, svc)| == |Docs(files, svc)|
  {
    if files != [] {
      EmbedsCount(files[..|files| - 1], svc);
      assert |svc.embedDocuments(FileTexts(files[|files| - 1], svc))| == |FileTexts(files[|files| - 1], svc)|;
    }
  }

  /** The vectors of the last file follow those of the files before it, one per text. */
  lemma EmbedsLast(files: seq<SingleFileSummary>, svc: Services)
    requires OneVectorPerText(svc) && files != []
    ensures var last := |files| - 1;
      var block := svc.embedDocuments(FileTexts(files[last], svc));
      && Embeds(files, svc) == Embeds(files[..last], svc) + block
      && |Embeds(files[..last], svc)| == Offset(files, last, svc)
      && |block| == |FileTexts(files[last], svc)|
  {
    EmbedsCount(files[..|files| - 1], svc);
  }

  /**
   * With one vector per text, the vector at a document's position is the one
   * the embedding call of that document's file returned for it.
   */
  lemma {:induction false} EmbedsAt(files: seq<SingleFileSummary>, svc: Services, i: nat, k: nat)
    requires OneVectorPerText(svc)
    requires i < |files| && k < |FileTexts(files[i], svc)|
    ensures Offset(files, i, svc) + k < |Embeds(files, svc)|
    ensures Embeds(files, svc)[Offset(files, i, svc) + k] == svc.embedDocuments(FileTexts(files[i], svc))[k]
  {
    var front := files[..|files| - 1];
    EmbedsLast(files, svc);
    if i < |files| - 1 {
      assert front[..i] == files[..i] && front[i] == files[i];
      EmbedsAt(front, svc, i, k);
    }
  }

  /**
   * Each document is the text of one chunk of one file: the file's short
   * summary, then the chunk's summary and content.
   */
  lemma DocumentOfChunk(files: seq<SingleFileSummary>, svc: Services, i: nat, k: nat)
    requires i < |files| && k < |files[i].chunkedSummaries|
    ensures var chunks := files[i].chunkedSummaries;
      var c := Read(chunks, Keys(chunks)[k]);
      && Offset(files, i, svc) + k < |Docs(files, svc)|
      && Docs(files, svc)[Offset(files, i, svc) + k] == EmbedText(ShortSummary(files[i], svc), c.summary, c.content)
  {
    DocsAt(files, svc, i, k);
  }

  /*
   * Saving.
   */

  /** What happens after the embeddings: the HNSW index saved (and where), then the Pinecone error. */
  datatype Outcome = Outcome(savedTo: Option<Option<string>>, pineconeError: bool)

  /** The two `if`s at the end of `main`. */
  function Output(out: Option<string>, outfile: Option<string>): (r: Outcome)
    ensures r.savedTo.Some? <==> out == Some(EmbedderArgs.Hnsw) || out == Some(EmbedderArgs.Both)
    ensures r.savedTo.Some? ==> r.savedTo.value == outfile
    ensures r.pineconeError <==> out == Some(EmbedderArgs.Pinecone) || out == Some(EmbedderArgs.Both)
  {
    var saved := if out == Some(EmbedderArgs.Hnsw) || out == Some(EmbedderArgs.Both) then Some(outfile) else None;
    Outcome(saved, out == Some(EmbedderArgs.Pinecone) || out == Some(EmbedderArgs.Both))
  }

  /**
   * An output target other than the three is accepted by `parseArgs` and
   * then neither saves nor fails: the run ends with nothing written.
   */
  lemma UnknownTargetSavesNothing(opts: EmbedderArgs.ProgOpts, target: string, pathExists: string -> bool)
    requires EmbedderArgs.Validate(opts, pathExists).Success?
    requires target != EmbedderArgs.Hnsw && target != EmbedderArgs.Pinecone && target != EmbedderArgs.Both
    ensures EmbedderArgs.Validate(opts.(out := Some(target)), pathExists).Success?
    ensures Output(Some(target), opts.outfile) == Outcome(None, false)
  {
    EmbedderArgs.OutputNotValidated(opts, Some(target), opts.outfile, pathExists);
  }
}
