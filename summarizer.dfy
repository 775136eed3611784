/**
 * The summarizer of spearbot-node/src/scripts/summarizer.ts: per file, one
 * global summary (re-split when the file is too large for one request) and
 * one titled summary per structural chunk, the chunks summarised in batches
 * of ten and then keyed by title.
 *
 * The language model, the summarisation chain, the langchain splitters and
 * the tokenizer are not visible here; they are the fields of `Services`,
 * functions about which nothing is assumed.
 */
module Summarizer {
  import opened Wrappers
  import opened JsText
  import opened JsObject
  import opened Records
  import opened CodeSplitter

  /** The input categories (`InputFormat`). */
  const Text: string := "text"
  const Markdown: string := "markdown"
  const Solidity: string := "solidity"

  predicate IsInputFormat(ext: string) {
    ext == Text || ext == Markdown || ext == Solidity
  }

  /** The boundary keywords of the Solidity splitter. */
  const SolidityKeywords: seq<string> := ["contract", "interface", "function", "constructor"]

  /** A file with more tokens than this is summarised in pieces. */
  const TokenBudget: nat := 3000

  /** The size, in tokens, of those pieces. */
  const SubChunkTokens: nat := 1500

  /** Chunks summarised per batch. */
  const Concurrency: nat := 10

  /** The calls into the model and the libraries, each as an uninterpreted function. */
  datatype Services = Services(
    /** `model.generate([prompt])`, the text of its first generation */
    generate: string -> string,
    /** `model.getNumTokens` */
    modelTokens: string -> nat,
    /** the length of the `cl100k_base` encoding (`getTokenCount`) */
    countTokens: string -> nat,
    /** the map-reduce summarisation chain over documents, its `text` */
    summarize: seq<string> -> string,
    /** `new TokenTextSplitter({chunkSize}).splitDocuments` on one document */
    tokenSplit: (string, nat) -> seq<string>,
    /** `RecursiveCharacterTextSplitter` */
    splitPlainText: string -> seq<string>,
    /** `MarkdownTextSplitter` */
    splitMarkdown: string -> seq<string>,
    /** the Solidity boundary regex, `BoundaryPattern(SolidityKeywords)` */
    solidityMatcher: Matcher)

  ghost predicate ValidServices(svc: Services) {
    SoundMatcher(svc.solidityMatcher)
  }

  /*
   * The extension mapping of `main`.
   */

  /** The file extension searched for each input category; `None` is the usage-and-exit path. */
  function ExtensionFor(ext: string): (r: Option<string>)
    ensures r.Some? <==> IsInputFormat(ext)
  {
    if ext == Text then Some(".txt")
    else if ext == Markdown then Some(".md")
    else if ext == Solidity then Some(".sol")
    else None
  }

  /** The input category whose files carry a file extension. */
  function CategoryOf(extension: string): Option<string> {
    if extension == ".txt" then Some(Text)
    else if extension == ".md" then Some(Markdown)
    else if extension == ".sol" then Some(Solidity)
    else None
  }

  /** Distinct categories search for distinct extensions: the mapping can be read backwards. */
  lemma ExtensionRoundTrip(ext: string)
    ensures ExtensionFor(ext).Some? ==> CategoryOf(ExtensionFor(ext).value) == Some(ext)
    ensures ExtensionFor(ext) == Some(".txt") <==> ext == Text
    ensures ExtensionFor(ext) == Some(".md") <==> ext == Markdown
    ensures ExtensionFor(ext) == Some(".sol") <==> ext == Solidity
  {
  }

  /*
   * `splitContent`.
   */

  /**
   * The chunks of a file, by category. Solidity goes through
   * `GenericCodeTextSplitter`, that is the structural splitter as written
   * (`CodeSplitter.BaseSplit`): each chunk is a trimmed piece, and the pieces
   * put together are the first boundary followed by the content with that
   * many characters cut from its front.
   */
  function SplitContent(content: string, contentType: string, svc: Services): (chunks: seq<string>)
    requires ValidServices(svc) && IsInputFormat(contentType)
    ensures contentType == Text ==> chunks == svc.splitPlainText(content)
    ensures contentType == Markdown ==> chunks == svc.splitMarkdown(content)
    ensures contentType == Solidity && !Live(svc.solidityMatcher(content)) ==> chunks == []
    ensures contentType == Solidity && Live(svc.solidityMatcher(content)) ==>
      var m0 := svc.solidityMatcher(content).value.matched;
      var pieces := BasePieces(svc.solidityMatcher, content);
      && |chunks| == |pieces| >= 1
      && (forall k :: 0 <= k < |pieces| ==> chunks[k] == Trim(pieces[k]))
      && |m0| <= |content|
      && Concat(pieces) == m0 + content[|m0|..]
  {
    if contentType == Text then svc.splitPlainText(content)
    else if contentType == Markdown then svc.splitMarkdown(content)
    else
      TrimAllAt(BasePieces(svc.solidityMatcher, content));
      BaseSplitEmpty(svc.solidityMatcher, content);
      if Live(svc.solidityMatcher(content)) then
        BaseReconstruction(svc.solidityMatcher, content);
        BaseSplit(svc.solidityMatcher, content)
      else
        BaseSplit(svc.solidityMatcher, content)
  }

  /**
   * When the file's first boundary is at its very start (or there is none),
   * the Solidity chunks are those of the corrected splitter and, put back
   * together before trimming, give the content exactly.
   */
  lemma SolidityChunksWhenBoundaryLeads(content: string, svc: Services)
    requires ValidServices(svc)
    requires !Live(svc.solidityMatcher(content)) || svc.solidityMatcher(content).value.index == 0
    ensures SplitContent(content, Solidity, svc) == IntendedSplit(svc.solidityMatcher, content)
    ensures Live(svc.solidityMatcher(content)) ==> Concat(BasePieces(svc.solidityMatcher, content)) == content
  {
    IntendedAgreesWithBase(svc.solidityMatcher, content);
    if Live(svc.solidityMatcher(content)) {
      BaseReconstruction(svc.solidityMatcher, content);
    }
  }

  /*
   * `getChunkSummary` and `getThreeWordSummary`.
   */

  const TitleInstruction: string :=
    "Given the following text, generate a three word identifier/title. Remember ONLY output the three words, and literally nothing else.\n"

  const SummaryInstruction: string := "Give a detailed and technical summary of the following content:\n"

  /** The prompt `getThreeWordSummary` sends. */
  function TitlePrompt(text: string): string {
    TitleInstruction + text + "\n\n"
  }

  /** The prompt `getChunkSummary` sends for the summary itself. */
  function SummaryPrompt(text: string): string {
    SummaryInstruction + text + "\n"
  }

  /** Both prompts carry the chunk verbatim, so each prompt determines its chunk. */
  lemma PromptsCarryChunk(text: string)
    ensures var p := TitlePrompt(text);
      |p| == |TitleInstruction| + |text| + 2 && p[|TitleInstruction|..|p| - 2] == text
    ensures var p := SummaryPrompt(text);
      |p| == |SummaryInstruction| + |text| + 1 && p[|SummaryInstruction|..|p| - 1] == text
  {
    var p := TitlePrompt(text);
    assert p == TitleInstruction + (text + "\n\n");
    var q := SummaryPrompt(text);
    assert q == SummaryInstruction + (text + "\n");
  }

  lemma PromptsInjective(a: string, b: string)
    ensures TitlePrompt(a) == TitlePrompt(b) ==> a == b
    ensures SummaryPrompt(a) == SummaryPrompt(b) ==> a == b
  {
    PromptsCarryChunk(a);
    PromptsCarryChunk(b);
  }

  /**
   * The record of one chunk: a generated title, a generated summary, the
   * chunk text verbatim, and the token counts of the summary and of the text.
   */
  function GetChunkSummary(chunk: string, svc: Services): (r: ChunkedSummary)
    ensures r.content == chunk
    ensures r.title == svc.generate(TitlePrompt(chunk))
    ensures r.summary == svc.generate(SummaryPrompt(chunk))
    ensures r.tokens.summary == svc.countTokens(r.summary)
    ensures r.tokens.content == svc.countTokens(chunk)
  {
    var title := svc.generate(TitlePrompt(chunk));
    var summary := svc.generate(SummaryPrompt(chunk));
    ChunkedSummary(title, summary, chunk, TokenCounts(svc.countTokens(summary), svc.countTokens(chunk)))
  }

  /** The chunk summaries of `splitDocs`, in order (what `Promise.all` keeps). */
  function ChunkSummaries(splitDocs: seq<string>, svc: Services): (rs: seq<ChunkedSummary>)
    ensures |rs| == |splitDocs|
    ensures forall k :: 0 <= k < |splitDocs| ==> rs[k] == GetChunkSummary(splitDocs[k], svc)
  {
    seq(|splitDocs|, k requires 0 <= k < |splitDocs| => GetChunkSummary(splitDocs[k], svc))
  }

  /*
   * The global summary.
   */

  /**
   * The documents the global summary is made from: the whole file when the
   * model counts at most `TokenBudget` tokens in it, otherwise the file cut
   * into pieces of `SubChunkTokens` tokens.
   */
  function GlobalDocs(content: string, svc: Services): (docs: seq<string>)
    ensures svc.modelTokens(content) <= TokenBudget ==> docs == [content]
    ensures svc.modelTokens(content) > TokenBudget ==> docs == svc.tokenSplit(content, SubChunkTokens)
  {
    var globalDocs := [content];
    if svc.modelTokens(content) > TokenBudget then svc.tokenSplit(content, SubChunkTokens) else globalDocs
  }

  /*
   * Batching.
   */

  /** The chunk indices batch `k` of `n` chunks covers: [10k, min(10k + 10, n)). */
  function BatchIndices(n: nat, k: nat): (b: seq<nat>)
    ensures |b| <= Concurrency
    ensures forall t :: 0 <= t < |b| ==> b[t] == Concurrency * k + t && b[t] < n
  {
    var start := Concurrency * k;
    var size := if n <= start then 0 else if n - start < Concurrency then n - start else Concurrency;
    seq(size, t requires 0 <= t < size => start + t)
  }

  /** Number of batches for `n` chunks. */
  function BatchCount(n: nat): nat {
    (n + Concurrency - 1) / Concurrency
  }

  /** The batches are a partition: chunk `t` is in batch t / 10 and in no other. */
  lemma BatchPartition(n: nat, t: nat)
    requires t < n
    ensures t / Concurrency < BatchCount(n)
    ensures t in BatchIndices(n, t / Concurrency)
    ensures forall k :: k != t / Concurrency ==> t !in BatchIndices(n, k)
  {
    var k0 := t / Concurrency;
    var b := BatchIndices(n, k0);
    assert Concurrency * k0 <= t < Concurrency * k0 + Concurrency;
    assert b[t - Concurrency * k0] == t;
    forall k | k != k0 ensures t !in BatchIndices(n, k) {
      var c := BatchIndices(n, k);
      forall u | 0 <= u < |c| ensures c[u] != t {
        assert c[u] == Concurrency * k + u && u < Concurrency;
        assert (Concurrency * k + u) / Concurrency == k;
      }
    }
  }

  /** The indices 0 to n - 1, in order. */
  function Range(n: nat): (r: seq<nat>)
    ensures |r| == n && forall t :: 0 <= t < n ==> r[t] == t
  {
    seq(n, t requires 0 <= t < n => t)
  }

  /** The batches one after the other. */
  function Flatten(batches: seq<seq<nat>>): seq<nat> {
    if batches == [] then [] else Flatten(batches[..|batches| - 1]) + batches[|batches| - 1]
  }

  /** The number of chunks handled once `i` has reached its value. */
  function Handled(i: nat, n: nat): nat {
    if i < n then i else n
  }

  /**
   * The chunk-summary loops of `summarizeFile`: batch by batch, up to ten
   * chunks per batch, collecting the results in order. `batches` records the
   * indices each batch handled.
   */
  method ResolveChunks(splitDocs: seq<string>, svc: Services)
    returns (resolvedChunks: seq<ChunkedSummary>, ghost batches: seq<seq<nat>>)
    ensures resolvedChunks == ChunkSummaries(splitDocs, svc)
    ensures |batches| == BatchCount(|splitDocs|)
    ensures forall k :: 0 <= k < |batches| ==> batches[k] == BatchIndices(|splitDocs|, k)
    ensures Flatten(batches) == Range(|splitDocs|)
  {
    var n := |splitDocs|;
    resolvedChunks := [];
    batches := [];
    var i := 0;
    while i < n
      invariant BatchesSoFar(n, i, batches)
      invariant ResolvedPrefix(splitDocs, svc, resolvedChunks, Handled(i, n))
      decreases n - i
    {
      var promises: seq<ChunkedSummary> := [];
      ghost var batch: seq<nat> := [];
      var j := 0;
      while j < Concurrency
        invariant 0 <= j <= Concurrency && i + j <= n
        invariant |promises| == j && |batch| == j
        invariant forall t :: 0 <= t < j ==> promises[t] == GetChunkSummary(splitDocs[i + t], svc)
        invariant forall t :: 0 <= t < j ==> batch[t] == i + t
      {
        if i + j >= n {
          break;
        }
        var chunk := splitDocs[i + j];
        var chunkedSummary := GetChunkSummary(chunk, svc);
        promises := promises + [chunkedSummary];
        batch := batch + [i + j];
        j := j + 1;
      }
      BatchesStep(n, i, j, batches, batch);
      ResolvedStep(splitDocs, svc, i, j, resolvedChunks, promises);
      batches := batches + [batch];
      resolvedChunks := resolvedChunks + promises;
      i := i + Concurrency;
    }
    BatchesDone(n, i, batches);
    AllResolved(splitDocs, svc, resolvedChunks);
  }

  /** The batches recorded once the outer loop's `i` has reached its value. */
  ghost predicate BatchesSoFar(n: nat, i: nat, batches: seq<seq<nat>>) {
    && i == Concurrency * |batches|
    && (|batches| == 0 || Concurrency * (|batches| - 1) < n)
    && (forall k :: 0 <= k < |batches| ==> batches[k] == BatchIndices(n, k))
    && Flatten(batches) == Range(Handled(i, n))
  }

  /** The summaries of the first `m` chunks, in order. */
  ghost predicate ResolvedPrefix(splitDocs: seq<string>, svc: Services, resolved: seq<ChunkedSummary>, m: nat) {
    && m <= |splitDocs| && |resolved| == m
    && forall t :: 0 <= t < m ==> resolved[t] == GetChunkSummary(splitDocs[t], svc)
  }

  /** One pass of the outer loop records the next batch. */
  lemma BatchesStep(n: nat, i: nat, j: nat, batches: seq<seq<nat>>, batch: seq<nat>)
    requires BatchesSoFar(n, i, batches) && i < n
    requires j <= Concurrency && i + j <= n && (j == Concurrency || i + j == n)
    requires |batch| == j && forall t :: 0 <= t < j ==> batch[t] == i + t
    ensures BatchesSoFar(n, i + Concurrency, batches + [batch])
    ensures Handled(i, n) == i && Handled(i + Concurrency, n) == i + j
  {
    BatchStep(n, i, j, batches, batch);
    var bs := batches + [batch];
    forall k | 0 <= k < |bs| ensures bs[k] == BatchIndices(n, k) {
      if k < |batches| {
        assert bs[k] == batches[k];
      }
    }
  }

  /** One pass of the outer loop appends the summaries of the next chunks. */
  lemma ResolvedStep(splitDocs: seq<string>, svc: Services, i: nat, j: nat,
                     resolved: seq<ChunkedSummary>, promises: seq<ChunkedSummary>)
    requires ResolvedPrefix(splitDocs, svc, resolved, i) && i + j <= |splitDocs|
    requires |promises| == j
    requires forall t :: 0 <= t < j ==> promises[t] == GetChunkSummary(splitDocs[i + t], svc)
    ensures ResolvedPrefix(splitDocs, svc, resolved + promises, i + j)
  {
    var r := resolved + promises;
    forall t | 0 <= t < i + j ensures r[t] == GetChunkSummary(splitDocs[t], svc) {
      if t >= i {
        assert r[t] == promises[t - i];
      }
    }
  }

  /** When the outer loop stops, it has recorded every batch. */
  lemma BatchesDone(n: nat, i: nat, batches: seq<seq<nat>>)
    requires BatchesSoFar(n, i, batches) && i >= n
    ensures |batches| == BatchCount(n)
    ensures Flatten(batches) == Range(n)
  {
    assert Handled(i, n) == n;
    BatchCountOf(n, |batches|);
  }

  /** Summaries of every chunk, in chunk order, are `ChunkSummaries`. */
  lemma AllResolved(splitDocs: seq<string>, svc: Services, resolved: seq<ChunkedSummary>)
    requires ResolvedPrefix(splitDocs, svc, resolved, |splitDocs|)
    ensures resolved == ChunkSummaries(splitDocs, svc)
  {
  }

  /** One pass of the outer loop handles the next batch and extends the flattened order. */
  lemma BatchStep(n: nat, i: nat, j: nat, batches: seq<seq<nat>>, batch: seq<nat>)
    requires i == Concurrency * |batches| && i < n
    requires j <= Concurrency && i + j <= n && (j == Concurrency || i + j == n)
    requires |batch| == j && forall t :: 0 <= t < j ==> batch[t] == i + t
    requires Flatten(batches) == Range(i)
    ensures batch == BatchIndices(n, |batches|)
    ensures Flatten(batches + [batch]) == Range(Handled(i + Concurrency, n))
  {
    BatchIsIndices(n, i, j, |batches|, batch);
    FlattenRange(i, j, batches, batch);
  }

  /** The indices the outer loop takes from `i` on are those of batch `k`. */
  lemma BatchIsIndices(n: nat, i: nat, j: nat, k: nat, batch: seq<nat>)
    requires i == Concurrency * k && i < n
    requires j <= Concurrency && i + j <= n && (j == Concurrency || i + j == n)
    requires |batch| == j && forall t :: 0 <= t < j ==> batch[t] == i + t
    ensures batch == BatchIndices(n, k)
  {
    var b := BatchIndices(n, k);
    assert |b| == j;
    assert forall t :: 0 <= t < j ==> b[t] == batch[t];
  }

  /** Appending the next `j` indices to the first `i` gives the first `i + j`. */
  lemma FlattenRange(i: nat, j: nat, batches: seq<seq<nat>>, batch: seq<nat>)
    requires Flatten(batches) == Range(i)
    requires |batch| == j && forall t :: 0 <= t < j ==> batch[t] == i + t
    ensures Flatten(batches + [batch]) == Range(i + j)
  {
    FlattenSnoc(batches, batch);
    assert Range(i) + batch == Range(i + j);
  }

  /** When the loop stops, it has run once per batch. */
  lemma BatchCountOf(n: nat, count: nat)
    requires Concurrency * count >= n
    requires count == 0 || Concurrency * (count - 1) < n
    ensures count == BatchCount(n)
  {
  }

  lemma FlattenSnoc(batches: seq<seq<nat>>, batch: seq<nat>)
    ensures Flatten(batches + [batch]) == Flatten(batches) + batch
  {
    assert (batches + [batch])[..|batches|] == batches;
  }

  /*
   * The title map.
   */

  /** `chunkedSummaries[s.title] = s` for each summary in order. */
  function TitleMap(rs: seq<ChunkedSummary>): Object<ChunkedSummary> {
    if rs == [] then []
    else
      var last := rs[|rs| - 1];
      Set(TitleMap(rs[..|rs| - 1]), last.title, last)
  }

  /** The titles, in order, each kept at its first occurrence. */
  function FirstTitles(rs: seq<ChunkedSummary>): seq<string> {
    if rs == [] then []
    else
      var front := FirstTitles(rs[..|rs| - 1]);
      if rs[|rs| - 1].title in front then front else front + [rs[|rs| - 1].title]
  }

  /** The loop after the batches: fill the title-keyed object. */
  method CollectByTitle(resolvedChunks: seq<ChunkedSummary>) returns (chunkedSummaries: Object<ChunkedSummary>)
    ensures chunkedSummaries == TitleMap(resolvedChunks)
  {
    chunkedSummaries := [];
    for k := 0 to |resolvedChunks|
      invariant chunkedSummaries == TitleMap(resolvedChunks[..k])
    {
      var awaitedSummary := resolvedChunks[k];
      assert resolvedChunks[..k + 1][..k] == resolvedChunks[..k];
      chunkedSummaries := Set(chunkedSummaries, awaitedSummary.title, awaitedSummary);
    }
    assert resolvedChunks[..|resolvedChunks|] == resolvedChunks;
  }

  /**
   * The keys of the title map are the titles, each once, in the order of
   * their first occurrence: an overwritten key keeps its position.
   */
  lemma {:induction false} TitleMapKeys(rs: seq<ChunkedSummary>)
    ensures Keys(TitleMap(rs)) == FirstTitles(rs)
    ensures DistinctKeys(TitleMap(rs))
  {
    if rs != [] {
      var front := rs[..|rs| - 1];
      var last := rs[|rs| - 1];
      TitleMapKeys(front);
      SetKeepsDistinct(TitleMap(front), last.title, last);
    }
  }

  /** The first-occurrence titles are exactly the titles of the summaries. */
  lemma {:induction false} FirstTitlesAreTitles(rs: seq<ChunkedSummary>, t: string)
    ensures t in FirstTitles(rs) <==> exists k :: 0 <= k < |rs| && rs[k].title == t
  {
    if rs != [] {
      var front := rs[..|rs| - 1];
      FirstTitlesAreTitles(front, t);
      if t in FirstTitles(front) {
        var k :| 0 <= k < |front| && front[k].title == t;
        assert rs[k] == front[k];
      }
      if exists k :: 0 <= k < |rs| && rs[k].title == t {
        var k :| 0 <= k < |rs| && rs[k].title == t;
        if k < |front| {
          assert front[k] == rs[k];
        }
      }
    }
  }

  /** Each title maps to the last summary with that title. */
  lemma {:induction false} TitleMapLast(rs: seq<ChunkedSummary>, k: nat)
    requires k < |rs|
    requires forall j :: k < j < |rs| ==> rs[j].title != rs[k].title
    ensures Get(TitleMap(rs), rs[k].title) == Some(rs[k])
  {
    var front := rs[..|rs| - 1];
    var last := rs[|rs| - 1];
    SetGet(TitleMap(front), last.title, last, rs[k].title);
    if k < |rs| - 1 {
      assert rs[k] == front[k];
      forall j | k < j < |front| ensures front[j].title != front[k].title {
        assert front[j] == rs[j];
      }
      TitleMapLast(front, k);
    }
  }

  /*
   * `summarizeFile`.
   */

  /** What `summarizeFile` returns for one file. */
  function FileSummary(filename: string, content: string, ext: string, svc: Services): SingleFileSummary
    requires ValidServices(svc) && IsInputFormat(ext)
  {
    SingleFileSummary(
      filename,
      svc.summarize(GlobalDocs(content, svc)),
      TitleMap(ChunkSummaries(SplitContent(content, ext, svc), svc)))
  }

  /** `summarizeFile`, step by step. */
  method SummarizeFile(filename: string, content: string, ext: string, svc: Services)
    returns (summary: SingleFileSummary)
    requires ValidServices(svc) && IsInputFormat(ext)
    ensures summary == FileSummary(filename, content, ext, svc)
  {
    var splitDocs := SplitContent(content, ext, svc);
    var globalDocs := GlobalDocs(content, svc);
    var globalSummary := svc.summarize(globalDocs);
    var resolvedChunks, _ := ResolveChunks(splitDocs, svc);
    var chunkedSummaries := CollectByTitle(resolvedChunks);
    summary := SingleFileSummary(filename, globalSummary, chunkedSummaries);
  }

  /**
   * Every entry of a file summary is keyed by its own title, holds one of the
   * file's chunks verbatim, with the token counts of its summary and content.
   */
  lemma FileSummaryEntries(filename: string, content: string, ext: string, svc: Services, i: nat)
    requires ValidServices(svc) && IsInputFormat(ext)
    requires i < |FileSummary(filename, content, ext, svc).chunkedSummaries|
    ensures var chunks := SplitContent(content, ext, svc);
      var entry := FileSummary(filename, content, ext, svc).chunkedSummaries[i];
      && entry.0 == entry.1.title
      && entry.1.content in chunks
      && entry.1.tokens == TokenCounts(svc.countTokens(entry.1.summary), svc.countTokens(entry.1.content))
  {
    var rs := ChunkSummaries(SplitContent(content, ext, svc), svc);
    TitleMapEntries(rs, i);
  }

  /** Every entry of the title map is one of the summaries, under its own title. */
  lemma {:induction false} TitleMapEntries(rs: seq<ChunkedSummary>, i: nat)
    requires i < |TitleMap(rs)|
    ensures TitleMap(rs)[i].0 == TitleMap(rs)[i].1.title
    ensures TitleMap(rs)[i].1 in rs
  {
    var front := rs[..|rs| - 1];
    var last := rs[|rs| - 1];
    var o := TitleMap(front);
    SetEntries(o, last.title, last, i);
    if Set(o, last.title, last)[i] != (last.title, last) {
      TitleMapEntries(front, i);
      var k :| 0 <= k < |front| && front[k] == o[i].1;
      assert rs[k] == front[k];
    }
  }

  /*
   * `generateMarkdown`.
   */

  const SolidityHeading: string := "# Solidity\n\n"

  /** The section of one chunk: its title as a third-level heading, then its summary. */
  function ChunkSection(chunk: ChunkedSummary): string {
    "### " + chunk.title + "\n\n" + chunk.summary + "\n\n"
  }

  /** `out` after the sections of the first `n` keys of `chunks`, each key looked up in the object. */
  function AppendChunks(out: string, chunks: Object<ChunkedSummary>, n: nat): string
    requires n <= |chunks|
  {
    if n == 0 then out
    else AppendChunks(out, chunks, n - 1) + ChunkSection(Read(chunks, Keys(chunks)[n - 1]))
  }

  /**
   * `out` after the first `n` files of the Solidity category: per file a
   * heading with its path, its global summary, then its chunk sections.
   */
  function AppendFiles(out: string, solidity: SummarySetByExtension, n: nat): string
    requires n <= |solidity|
  {
    if n == 0 then out
    else
      var filename := Keys(solidity)[n - 1];
      var file := Read(solidity, filename);
      var headed := AppendFiles(out, solidity, n - 1)
        + ("## " + filename + "\n\n") + ("Summary: " + file.globalSummary + "\n\n");
      AppendChunks(headed, file.chunkedSummaries, |file.chunkedSummaries|)
  }

  /** The Markdown document: the Solidity category only; a missing category iterates nothing. */
  function MarkdownDocument(summaries: Summaries): string {
    match Get(summaries, Solidity)
    case None => SolidityHeading
    case Some(solidity) => AppendFiles(SolidityHeading, solidity, |solidity|)
  }

  /** `generateMarkdown`, appending to one string. */
  method GenerateMarkdown(summaries: Summaries) returns (outputString: string)
    ensures outputString == MarkdownDocument(summaries)
  {
    var found := Get(summaries, Solidity);
    outputString := SolidityHeading;
    if found.Some? {
      var solidity := found.value;
      var filenames := Keys(solidity);
      for i := 0 to |filenames|
        invariant outputString == AppendFiles(SolidityHeading, solidity, i)
      {
        var filename := filenames[i];
        outputString := outputString + ("## " + filename + "\n\n");
        var fileSummaryObj := Read(solidity, filename);
        var fileSummary := fileSummaryObj.globalSummary;
        outputString := outputString + ("Summary: " + fileSummary + "\n\n");
        ghost var headed := outputString;
        var chunks := fileSummaryObj.chunkedSummaries;
        var chunkTitles := Keys(chunks);
        for j := 0 to |chunkTitles|
          invariant outputString == AppendChunks(headed, chunks, j)
        {
          var chunk := Read(chunks, chunkTitles[j]);
          var title := chunk.title;
          var summary := chunk.summary;
          outputString := outputString + ("### " + title + "\n\n" + summary + "\n\n");
        }
      }
    }
  }

  /** Appending chunk sections keeps what was there. */
  lemma {:induction false} AppendChunksExtends(out: string, chunks: Object<ChunkedSummary>, n: nat)
    requires n <= |chunks|
    ensures |AppendChunks(out, chunks, n)| >= |out| && AppendChunks(out, chunks, n)[..|out|] == out
  {
    if n > 0 {
      AppendChunksExtends(out, chunks, n - 1);
      var front := AppendChunks(out, chunks, n - 1);
      assert (front + ChunkSection(Read(chunks, Keys(chunks)[n - 1])))[..|out|] == front[..|out|];
    }
  }

  /** Appending file sections keeps what was there. */
  lemma {:induction false} AppendFilesExtends(out: string, solidity: SummarySetByExtension, n: nat)
    requires n <= |solidity|
    ensures |AppendFiles(out, solidity, n)| >= |out| && AppendFiles(out, solidity, n)[..|out|] == out
  {
    if n > 0 {
      AppendFilesExtends(out, solidity, n - 1);
      var filename := Keys(solidity)[n - 1];
      var file := Read(solidity, filename);
      var front := AppendFiles(out, solidity, n - 1);
      var header := ("## " + filename + "\n\n") + ("Summary: " + file.globalSummary + "\n\n");
      var headed := front + ("## " + filename + "\n\n") + ("Summary: " + file.globalSummary + "\n\n");
      assert headed == front + header;
      PrefixOfAppend(front, header);
      PrefixTrans(out, front, headed);
      AppendChunksExtends(headed, file.chunkedSummaries, |file.chunkedSummaries|);
      PrefixTrans(out, headed, AppendFiles(out, solidity, n));
    }
  }

  lemma PrefixOfAppend(a: string, x: string)
    ensures (a + x)[..|a|] == a
  {
  }

  lemma PrefixTrans(a: string, b: string, c: string)
    requires |a| <= |b| <= |c| && b[..|a|] == a && c[..|b|] == b
    ensures c[..|a|] == a
  {
    assert c[..|a|] == c[..|b|][..|a|];
  }

  /**
   * The document always opens with the Solidity heading, and is nothing more
   * when there is no Solidity category or it has no files.
   */
  lemma MarkdownHeading(summaries: Summaries)
    ensures |MarkdownDocument(summaries)| >= |SolidityHeading|
    ensures MarkdownDocument(summaries)[..|SolidityHeading|] == SolidityHeading
    ensures Get(summaries, Solidity).None? || Get(summaries, Solidity) == Some([])
      ==> MarkdownDocument(summaries) == SolidityHeading
  {
    var found := Get(summaries, Solidity);
    if found.Some? {
      AppendFilesExtends(SolidityHeading, found.value, |found.value|);
    }
  }

  /** The other categories do not reach the document. */
  lemma MarkdownOnlySolidity(a: Summaries, b: Summaries)
    requires Get(a, Solidity) == Get(b, Solidity)
    ensures MarkdownDocument(a) == MarkdownDocument(b)
  {
  }

  /** The chunk sections of a list of chunk records. */
  function RenderChunks(chunks: seq<ChunkedSummary>): string {
    if chunks == [] then "" else RenderChunks(chunks[..|chunks| - 1]) + ChunkSection(chunks[|chunks| - 1])
  }

  /** With distinct keys, each chunk is rendered once, in the object's order. */
  lemma {:induction false} ChunkSectionsInOrder(out: string, chunks: Object<ChunkedSummary>, n: nat)
    requires DistinctKeys(chunks) && n <= |chunks|
    ensures AppendChunks(out, chunks, n) == out + RenderChunks(Values(chunks)[..n])
  {
    if n > 0 {
      ChunkSectionsInOrder(out, chunks, n - 1);
      ReadDistinct(chunks, n - 1);
      var key := Keys(chunks)[n - 1];
      var vs := Values(chunks)[..n];
      assert key == chunks[n - 1].0;
      assert Read(chunks, key) == chunks[n - 1].1 == vs[n - 1];
      assert vs[..n - 1] == Values(chunks)[..n - 1];
      calc {
        out + RenderChunks(vs);
        out + (RenderChunks(vs[..n - 1]) + ChunkSection(vs[n - 1]));
        (out + RenderChunks(vs[..n - 1])) + ChunkSection(vs[n - 1]);
        AppendChunks(out, chunks, n - 1) + ChunkSection(Read(chunks, key));
      }
    }
  }

  /**
   * A summarised file's chunks are rendered from its title map in order: one
   * section per title, each under the title the chunk is keyed by.
   */
  lemma SummaryRenderedInOrder(out: string, filename: string, content: string, ext: string, svc: Services)
    requires ValidServices(svc) && IsInputFormat(ext)
    ensures var chunks := FileSummary(filename, content, ext, svc).chunkedSummaries;
      && AppendChunks(out, chunks, |chunks|) == out + RenderChunks(Values(chunks))
      && forall i :: 0 <= i < |chunks| ==> Keys(chunks)[i] == Values(chunks)[i].title
  {
    var rs := ChunkSummaries(SplitContent(content, ext, svc), svc);
    var chunks := TitleMap(rs);
    TitleMapKeys(rs);
    ChunkSectionsInOrder(out, chunks, |chunks|);
    assert Values(chunks)[..|chunks|] == Values(chunks);
    forall i | 0 <= i < |chunks| ensures Keys(chunks)[i] == Values(chunks)[i].title {
      TitleMapEntries(rs, i);
    }
  }

  /*
   * `main`: the extension loop, then `summarizeFiles` per category.
   */

  /**
   * `filesByExtension`: each category's files, found by `find` (the recursive
   * directory search for one file extension); the first category that is not
   * an input format stops the program.
   */
  function FilesByExtension(exts: seq<string>, find: string -> seq<string>): (r: Result<Object<seq<string>>, string>)
    ensures r.Failure? ==> r.error in exts && !IsInputFormat(r.error)
    ensures r.Success? ==> forall ext :: ext in exts ==> IsInputFormat(ext)
  {
    if exts == [] then Success([])
    else
      var ext := exts[|exts| - 1];
      match FilesByExtension(exts[..|exts| - 1], find)
      case Failure(e) => assert e in exts[..|exts| - 1]; Failure(e)
      case Success(files) =>
        match ExtensionFor(ext)
        case None => Failure(ext)
        case Some(extension) =>
          assert forall x :: x in exts ==> x in exts[..|exts| - 1] || x == ext;
          Success(Set(files, ext, find(extension)))
  }

  /** Each listed category holds the files of its extension; nothing else is a key. */
  lemma {:induction false} FilesByExtensionGet(exts: seq<string>, find: string -> seq<string>, ext: string)
    requires FilesByExtension(exts, find).Success?
    ensures Get(FilesByExtension(exts, find).value, ext)
      == if ext in exts then Some(find(ExtensionFor(ext).value)) else None
    ensures DistinctKeys(FilesByExtension(exts, find).value)
  {
    if exts != [] {
      var front := exts[..|exts| - 1];
      var last := exts[|exts| - 1];
      FilesByExtensionGet(front, find, ext);
      var files := FilesByExtension(front, find).value;
      SetGet(files, last, find(ExtensionFor(last).value), ext);
      SetKeepsDistinct(files, last, find(ExtensionFor(last).value));
      assert ext in exts <==> ext in front || ext == last;
    }
  }

  /** `summarizeFiles`: each file summarised and stored under its path. */
  function SummarizeFiles(filenames: seq<string>, ext: string, read: string -> string, svc: Services)
    : SummarySetByExtension
    requires ValidServices(svc) && IsInputFormat(ext)
  {
    if filenames == [] then []
    else
      var filename := filenames[|filenames| - 1];
      Set(SummarizeFiles(filenames[..|filenames| - 1], ext, read, svc), filename,
        FileSummary(filename, read(filename), ext, svc))
  }

  /** Each found file is stored under its path with its summary. */
  lemma {:induction false} SummarizeFilesGet(filenames: seq<string>, ext: string, read: string -> string,
                                             svc: Services, filename: string)
    requires ValidServices(svc) && IsInputFormat(ext)
    ensures Get(SummarizeFiles(filenames, ext, read, svc), filename)
      == if filename in filenames then Some(FileSummary(filename, read(filename), ext, svc)) else None
  {
    if filenames != [] {
      var front := filenames[..|filenames| - 1];
      var last := filenames[|filenames| - 1];
      SummarizeFilesGet(front, ext, read, svc, filename);
      SetGet(SummarizeFiles(front, ext, read, svc), last, FileSummary(last, read(last), ext, svc), filename);
      assert filename in filenames <==> filename in front || filename == last;
    }
  }

  /** `summarizeFiles` for one category. */
  function SummarizeCategory(read: string -> string, svc: Services): (string, seq<string>) --> SummarySetByExtension {
    (ext: string, filenames: seq<string>) requires ValidServices(svc) && IsInputFormat(ext) =>
      SummarizeFiles(filenames, ext, read, svc)
  }

  /** The categories found so far, each summarised. */
  function SummarizeCategories(files: Object<seq<string>>, n: nat, read: string -> string, svc: Services): Summaries
    requires ValidServices(svc) && n <= |files|
    requires forall ext :: ext in Keys(files) ==> IsInputFormat(ext)
  {
    MapEntries(files, Keys(files)[..n], SummarizeCategory(read, svc))
  }

  /** One more category sets its name to the summaries of its files. */
  lemma SummarizeCategoriesStep(files: Object<seq<string>>, k: nat, read: string -> string, svc: Services)
    requires ValidServices(svc) && k < |files|
    requires forall ext :: ext in Keys(files) ==> IsInputFormat(ext)
    ensures IsInputFormat(Keys(files)[k])
    ensures SummarizeCategories(files, k + 1, read, svc)
      == Set(SummarizeCategories(files, k, read, svc), Keys(files)[k],
             SummarizeFiles(Read(files, Keys(files)[k]), Keys(files)[k], read, svc))
  {
    PrefixStep(Keys(files), k);
  }

  /** What `main` hands to the output: the summaries, or the category that stopped it. */
  function AllSummaries(exts: seq<string>, find: string -> seq<string>, read: string -> string, svc: Services)
    : Result<Summaries, string>
    requires ValidServices(svc)
  {
    match FilesByExtension(exts, find)
    case Failure(e) => Failure(e)
    case Success(files) =>
      assert forall ext :: ext in Keys(files) ==> IsInputFormat(ext) by {
        forall ext | ext in Keys(files) ensures IsInputFormat(ext) {
          FilesByExtensionGet(exts, find, ext);
        }
      }
      Success(SummarizeCategories(files, |files|, read, svc))
  }

  /** The extension loop of `main`. */
  method CollectFiles(exts: seq<string>, find: string -> seq<string>) returns (r: Result<Object<seq<string>>, string>)
    ensures r == FilesByExtension(exts, find)
  {
    var filesByExtension: Object<seq<string>> := [];
    for k := 0 to |exts|
      invariant FilesByExtension(exts[..k], find) == Success(filesByExtension)
    {
      var ext := exts[k];
      FilesByExtensionStep(exts, find, k, filesByExtension);
      var extension := ExtensionFor(ext);
      if extension.None? {
        FilesByExtensionPrefix(exts, find, k + 1);
        return Failure(ext);
      }
      var files := find(extension.value);
      filesByExtension := Set(filesByExtension, ext, files);
    }
    assert exts[..|exts|] == exts;
    return Success(filesByExtension);
  }

  /** One more listed category: the usage exit, or its files added under it. */
  lemma FilesByExtensionStep(exts: seq<string>, find: string -> seq<string>, k: nat, files: Object<seq<string>>)
    requires k < |exts| && FilesByExtension(exts[..k], find) == Success(files)
    ensures FilesByExtension(exts[..k + 1], find)
      == match ExtensionFor(exts[k])
         case None => Failure(exts[k])
         case Some(extension) => Success(Set(files, exts[k], find(extension)))
  {
    assert exts[..k + 1][..k] == exts[..k];
  }

  /** The two loops of `main` before the output. */
  method SummarizeAll(exts: seq<string>, find: string -> seq<string>, read: string -> string, svc: Services)
    returns (r: Result<Summaries, string>)
    requires ValidServices(svc)
    ensures r == AllSummaries(exts, find, read, svc)
  {
    var found := CollectFiles(exts, find);
    if found.Failure? {
      return Failure(found.error);
    }
    var filesByExtension := found.value;
    forall ext | ext in Keys(filesByExtension) ensures IsInputFormat(ext) {
      FilesByExtensionGet(exts, find, ext);
    }
    var summaries: Summaries := [];
    var categories := Keys(filesByExtension);
    for k := 0 to |categories|
      invariant summaries == SummarizeCategories(filesByExtension, k, read, svc)
    {
      var ext := categories[k];
      SummarizeCategoriesStep(filesByExtension, k, read, svc);
      var fileSummaries := SummarizeFilesLoop(Read(filesByExtension, ext), ext, read, svc);
      summaries := Set(summaries, ext, fileSummaries);
    }
    return Success(summaries);
  }

  /** A failure on a prefix of the categories is the failure of them all. */
  lemma {:induction false} FilesByExtensionPrefix(exts: seq<string>, find: string -> seq<string>, k: nat)
    requires k <= |exts| && FilesByExtension(exts[..k], find).Failure?
    ensures FilesByExtension(exts, find) == FilesByExtension(exts[..k], find)
    decreases |exts| - k
  {
    if k < |exts| {
      assert exts[..k + 1][..k] == exts[..k];
      FilesByExtensionPrefix(exts, find, k + 1);
    } else {
      assert exts[..k] == exts;
    }
  }

  /** The loop of `summarizeFiles`. */
  method SummarizeFilesLoop(filenames: seq<string>, ext: string, read: string -> string, svc: Services)
    returns (summaries: SummarySetByExtension)
    requires ValidServices(svc) && IsInputFormat(ext)
    ensures summaries == SummarizeFiles(filenames, ext, read, svc)
  {
    summaries := [];
    for k := 0 to |filenames|
      invariant summaries == SummarizeFiles(filenames[..k], ext, read, svc)
    {
      var filename := filenames[k];
      assert filenames[..k + 1][..k] == filenames[..k];
      var contents := read(filename);
      var fileSummary := SummarizeFile(filename, contents, ext, svc);
      summaries := Set(summaries, filename, fileSummary);
    }
    assert filenames[..|filenames|] == filenames;
  }

  /**
   * Every file of every requested category ends up in the summaries, under
   * its category and path, with the summary of its contents.
   */
  lemma SummariesCover(exts: seq<string>, find: string -> seq<string>, read: string -> string, svc: Services,
                       ext: string, filename: string)
    requires ValidServices(svc)
    requires AllSummaries(exts, find, read, svc).Success?
    requires ext in exts && filename in find(ExtensionFor(ext).value)
    ensures IsInputFormat(ext)
    ensures var summaries := AllSummaries(exts, find, read, svc).value;
      && Get(summaries, ext).Some?
      && Get(Get(summaries, ext).value, filename) == Some(FileSummary(filename, read(filename), ext, svc))
  {
    FilesByExtensionGet(exts, find, ext);
    var files := FilesByExtension(exts, find).value;
    var filenames := find(ExtensionFor(ext).value);
    forall x | x in Keys(files) ensures IsInputFormat(x) {
      FilesByExtensionGet(exts, find, x);
    }
    assert AllSummaries(exts, find, read, svc) == Success(SummarizeCategories(files, |files|, read, svc));
    var i :| 0 <= i < |files| && files[i] == (ext, filenames);
    SummarizeCategoriesGet(files, |files|, read, svc, i);
    SummarizeFilesGet(filenames, ext, read, svc, filename);
  }

  /** The `i`-th category, once reached, holds the summaries of its files. */
  lemma SummarizeCategoriesGet(files: Object<seq<string>>, n: nat, read: string -> string,
                               svc: Services, i: nat)
    requires ValidServices(svc) && n <= |files| && i < n
    requires forall ext :: ext in Keys(files) ==> IsInputFormat(ext)
    requires DistinctKeys(files)
    ensures Get(SummarizeCategories(files, n, read, svc), files[i].0)
      == Some(SummarizeFiles(files[i].1, files[i].0, read, svc))
  {
    var ext := files[i].0;
    assert Keys(files)[..n][i] == ext;
    MapEntriesGet(files, Keys(files)[..n], SummarizeCategory(read, svc), ext);
    ReadDistinct(files, i);
  }
}
