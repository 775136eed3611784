# spearbot summarise-and-embed pipeline, modelled in Dafny

spearbot's Node tools prepare Solidity code for an auditing chatbot in two steps:

- **`summarizer.ts`** finds the text, Markdown and Solidity files of a directory and splits each file into chunks. Solidity is split at `contract`, `interface`, `function` and `constructor` lines by the `GenericCodeTextSplitter` of `codeSplitter.ts`. The script then asks a language model for:
  - a global summary of the whole file, split into token-sized pieces when it has more than 3000 tokens;
  - a three-word title and a detailed summary of every chunk, ten chunks per batch.

  It collects the chunk summaries under their titles, writes the whole result as JSON, and renders the Solidity part as Markdown.
- **`embedder.ts`** reads that JSON back. For every Solidity file it gets a one-sentence summary of the global summary. For every chunk it builds the text "File Context / Section Summary / Section Content", embeds the texts file by file, and hands the documents and vectors to an HNSW index.

The model covers these parts:

- **`CodeSplitter`**: both splitting loops of `codeSplitter.ts`, each as a method proved equal to a specification function, and the regex source that the generic splitter builds.
- **`LineMatcher`**: a concrete keyword-line matcher, used to exhibit the splitter's defect on concrete text.
- **`Summarizer`**: `summarizeFile`, `getChunkSummary`, the batching loop, the title map, `generateMarkdown`, `summarizeFiles` and the extension mapping and summarising loops of `main`.
- **`SummarizerArgs`** and **`EmbedderArgs`**: the two `parseArgs` functions. They share their argument scan, which lives in **`ArgScan`**.
- **`Embedder`**: the embedding loop and the save step of `embedder.ts`.
- **Support modules**: `JsText` models the JavaScript string built-ins used (`trim`, `split`, `indexOf`, `join`). `JsObject` models plain objects as insertion-ordered key/value lists. `Records` holds the summary record types.

External parts are parameters:

- **Regex engine.** Any `Matcher` may stand for it, as long as it reports a match that really occurs in the string at its index.
- **Language model, summarisation chain, token counters and LangChain splitters.** These are uninterpreted functions, held in a `Services` value.
- **File system.** Its existence check is a `pathExists` parameter. File listing and file reading are `find` and `read`.
- **Current directory.** It is the `cwd` parameter.

## Model

| member | source | states |
|---|---|---|
| JsText.TrimSpec | spearbot-node/src/extensions/codeSplitter.ts:42 | `trim` returns the slice of its input that remains once the leading and trailing whitespace is dropped, and the result neither starts nor ends with whitespace |
| JsText.IndexOf | spearbot-node/src/extensions/codeSplitter.ts:87 | `indexOf` is never below -1, gives -1 exactly when the element is absent, and otherwise the first position holding it |
| JsText.SplitOn | spearbot-node/src/scripts/summarizer.ts:85 | `split(",")` yields at least one part and no part contains the separator |
| JsText.JoinSplitOn | spearbot-node/src/scripts/summarizer.ts:85 | joining the parts of a split with the separator gives back the original string |
| JsText.SplitOnJoin | spearbot-node/src/scripts/summarizer.ts:85 | splitting a join of separator-free parts gives back the parts |
| JsObject.Get | spearbot-node/src/scripts/summarizer.ts:184 | an object lookup finds a value exactly when the key is one of the object's keys, and the value is that key's entry |
| JsObject.Set | spearbot-node/src/scripts/summarizer.ts:268 | an assignment keeps the key order and appends a key that is new |
| JsObject.SetGet | spearbot-node/src/scripts/summarizer.ts:268 | after `o[k] = v`, `o[k]` is `v` and every other key reads as before |
| JsObject.SetKeepsDistinct | spearbot-node/src/scripts/summarizer.ts:268 | assignment never duplicates a key |
| JsObject.ReadDistinct | spearbot-node/src/scripts/summarizer.ts:183-184 | in an object, looking up the key of entry i gives entry i's value |
| CodeSplitter.MatchIndexOfFirst | spearbot-node/src/extensions/codeSplitter.ts:85-92 | `match.indexOf(match[0])` is 0 for every match, so the condition at line 85 always holds and the "Unexpected matching index" error can never be thrown |
| CodeSplitter.Pieces | spearbot-node/src/extensions/codeSplitter.ts:98-110 | each run of the loop from a pending boundary pushes at least one chunk |
| CodeSplitter.PiecesStep | spearbot-node/src/extensions/codeSplitter.ts:98-110 | one iteration: with a next match at n, the chunk is the boundary plus the text before n and the scan resumes at n; without one, the chunk is the boundary plus all remaining text and the loop ends |
| CodeSplitter.PiecesAfter | spearbot-node/src/extensions/codeSplitter.ts:98-110 | the same step, stated for the chunk list pushed so far |
| CodeSplitter.PiecesConcat | spearbot-node/src/extensions/codeSplitter.ts:98-110 | the untrimmed chunks from a boundary concatenate back to the boundary plus the remaining text: the loop neither loses nor repeats text after its first step |
| CodeSplitter.BaseSplitText | spearbot-node/src/extensions/codeSplitter.ts:69-114 | `BaseCodeSplitter.splitText` returns exactly `BaseSplit` |
| CodeSplitter.BaseSplitEmpty | spearbot-node/src/extensions/codeSplitter.ts:75-78 | the base splitter returns no chunk exactly when the regex finds no non-empty match |
| CodeSplitter.BaseReconstruction | spearbot-node/src/extensions/codeSplitter.ts:83-96 | the untrimmed chunks of the base splitter concatenate to the first match followed by the text with that many characters cut from its front; this equals the text exactly when the text starts with the match, in particular when the match is at index 0 |
| CodeSplitter.JsLoopStep | spearbot-node/src/extensions/codeSplitter.ts:15-48 | one iteration of `JavascriptBaseTextSplitter.splitText` keeps the relation between the pushed chunks, the remaining text and the specification |
| CodeSplitter.JsSplitText | spearbot-node/src/extensions/codeSplitter.ts:6-51 | the JavaScript splitter returns `JsSplit` when it finishes, and it finishes whenever `JsSplit` terminates and the fuel covers the text; when the first match is at index 0 it never finishes and pushes "" on every iteration |
| CodeSplitter.IntendedReconstruction | spearbot-node/src/extensions/codeSplitter.ts:83-110 | corrected splitter: the untrimmed chunks concatenate exactly to the text; the first chunk is the text before the first boundary, or starts with the boundary when that is at index 0 |
| CodeSplitter.IntendedSplitEmpty | spearbot-node/src/extensions/codeSplitter.ts:75-78 | the corrected splitter returns no chunk exactly when there is no non-empty match |
| CodeSplitter.IntendedAgreesWithBase | spearbot-node/src/extensions/codeSplitter.ts:85-96 | the base splitter and the corrected one agree whenever there is no match or the first match is at index 0 |
| CodeSplitter.IntendedAgreesWithJs | spearbot-node/src/extensions/codeSplitter.ts:6-51 | whenever the JavaScript splitter terminates, its chunks are the corrected splitter's; it fails to terminate exactly when the first match is non-empty and at index 0 |
| CodeSplitter.JsReconstruction | spearbot-node/src/extensions/codeSplitter.ts:20-47 | when the first match is after index 0, the JavaScript splitter's untrimmed chunks concatenate to the text, and its first chunk is the trimmed text before the match |
| CodeSplitter.Groups | spearbot-node/src/extensions/codeSplitter.ts:122-124 | each keyword becomes its own parenthesised group, in order |
| CodeSplitter.GroupsWithBarsAlternation | spearbot-node/src/extensions/codeSplitter.ts:121-126 | appending `(kw)\|` per keyword and dropping the last character yields the alternation of the groups |
| CodeSplitter.GenericPattern | spearbot-node/src/extensions/codeSplitter.ts:118-131 | the constructor builds `BoundaryPattern(keywords)` as its regex source |
| CodeSplitter.AlternationGroups | spearbot-node/src/extensions/codeSplitter.ts:121-126 | splitting the alternation at `\|` gives back the groups, so every keyword without a bar appears in the pattern as its own alternative; no keywords give the empty alternation |
| CodeSplitter.BoundaryPatternShape | spearbot-node/src/extensions/codeSplitter.ts:128-130 | the pattern is the comment prefix, then the alternation, then the rest-of-line suffix |
| LineMatcher.FirstKeywordLine | spearbot-node/src/extensions/codeSplitter.ts:128-130 | the match is a whole line, from a line start up to its line feed or the end of the text, that holds a keyword |
| LineMatcher.NoKeywordLineAt | spearbot-node/src/extensions/codeSplitter.ts:128-130 | no line starting before the match, and with no match no line at all, holds a keyword: the match is the earliest keyword line |
| LineMatcher.KeywordLineNone | spearbot-node/src/extensions/codeSplitter.ts:128-130 | the matcher finds nothing exactly when no line of the text holds a keyword |
| LineMatcher.KeywordLineSound | spearbot-node/src/extensions/codeSplitter.ts:128-130 | the keyword-line matcher reports only text that occurs at its index |
| LineMatcher.OneLine | spearbot-node/src/extensions/codeSplitter.ts:128-130 | on a single line, the matcher matches the whole line exactly when the line holds a keyword |
| LineMatcher.SecondLine | spearbot-node/src/extensions/codeSplitter.ts:128-130 | when only the second of two lines holds a keyword, the match is that line, at the offset after the first line |
| LineMatcher.BaseSplitOfTwoLines | spearbot-node/src/extensions/codeSplitter.ts:83-110 | as written, when the matcher's boundary is the second line, the first line is shorter than the second, and the last (first line's length + 1) characters of the second line hold no keyword, the splitter returns one chunk: the second line followed by those last characters, trimmed |
| LineMatcher.IntendedSplitOfTwoLines | spearbot-node/src/extensions/codeSplitter.ts:83-110 | corrected, the same text splits into the first line and the second line |
| LineMatcher.BaseSplitLosesFirstLine | spearbot-node/src/extensions/codeSplitter.ts:83-110 | for every two-line text whose keyword is only on the second line, whose first line is shorter than its second, and whose second line holds no keyword in its last (first line's length + 1) characters, the base splitter loses the first line and repeats that tail of the second, while the corrected splitter keeps both lines |
| LineMatcher.BaseSplitLosesPragma | spearbot-node/src/extensions/codeSplitter.ts:83-110 | with the Solidity keywords, "pragma x;\ncontract A {}" splits as written into ["contract A {}tract A {}"], and correctly into ["pragma x;", "contract A {}"] |
| Summarizer.ExtensionFor | spearbot-node/src/scripts/summarizer.ts:135-145 | an extension is found exactly for the three input formats; every other value takes the usage-and-exit path |
| Summarizer.ExtensionRoundTrip | spearbot-node/src/scripts/summarizer.ts:135-145 | `.txt`, `.md` and `.sol` belong to text, markdown and solidity, each in both directions, and the category of a format's extension is that format |
| Summarizer.SplitContent | spearbot-node/src/scripts/summarizer.ts:347-365 | text and Markdown go to their splitters; Solidity content without a boundary yields no chunk; with one, the chunks are the trimmed pieces of the as-written splitter, and those pieces put together are the first boundary followed by the content with that many characters cut from its front |
| Summarizer.SolidityChunksWhenBoundaryLeads | spearbot-node/src/scripts/summarizer.ts:359-361 | when the first boundary is at the start of the file (or there is none), the Solidity chunks are the corrected splitter's and the untrimmed pieces give back the content exactly |
| Summarizer.PromptsCarryChunk | spearbot-node/src/scripts/summarizer.ts:283 | the title prompt (line 303) and the summary prompt (line 283) each contain the chunk verbatim between the instruction and the trailing line feeds |
| Summarizer.PromptsInjective | spearbot-node/src/scripts/summarizer.ts:303 | different chunks give different title prompts and different summary prompts (line 283) |
| Summarizer.GetChunkSummary | spearbot-node/src/scripts/summarizer.ts:280-300 | a chunk summary holds the chunk as content, the model's answers to the title and summary prompts, and the cl100k token counts of its summary and content |
| Summarizer.ChunkSummaries | spearbot-node/src/scripts/summarizer.ts:256-257 | one summary per chunk, in chunk order |
| Summarizer.GlobalDocs | spearbot-node/src/scripts/summarizer.ts:221-229 | a file of at most 3000 tokens is summarised whole; a larger one is summarised from its 1500-token pieces |
| Summarizer.BatchIndices | spearbot-node/src/scripts/summarizer.ts:246-254 | batch k holds at most ten chunk indices: 10k, 10k+1, and so on, all below the chunk count |
| Summarizer.BatchPartition | spearbot-node/src/scripts/summarizer.ts:246-254 | every chunk index is in batch t/10 and in no other batch |
| Summarizer.ResolveChunks | spearbot-node/src/scripts/summarizer.ts:240-264 | the batched loop yields every chunk's summary in chunk order, in ceil(n/10) batches that partition 0..n-1 in order |
| Summarizer.CollectByTitle | spearbot-node/src/scripts/summarizer.ts:266-269 | the loop builds the title map |
| Summarizer.TitleMapKeys | spearbot-node/src/scripts/summarizer.ts:266-269 | the keys are the titles in order of first appearance, without repetition |
| Summarizer.FirstTitlesAreTitles | spearbot-node/src/scripts/summarizer.ts:266-269 | a title is a key exactly when some chunk has it |
| Summarizer.TitleMapLast | spearbot-node/src/scripts/summarizer.ts:266-269 | under each title sits the last chunk with that title: earlier chunks with the same title are overwritten |
| Summarizer.TitleMapEntries | spearbot-node/src/scripts/summarizer.ts:266-269 | every entry is one of the chunk summaries, keyed by its own title |
| Summarizer.SummarizeFile | spearbot-node/src/scripts/summarizer.ts:209-278 | `summarizeFile` returns `FileSummary`: the file name, the chain's summary of the global documents, and the title map of the chunk summaries |
| Summarizer.FileSummaryEntries | spearbot-node/src/scripts/summarizer.ts:209-278 | every entry of a file summary is keyed by its own title, holds one of the file's chunks verbatim, and holds the token counts of its summary and content |
| Summarizer.GenerateMarkdown | spearbot-node/src/scripts/summarizer.ts:171-193 | `generateMarkdown` returns `MarkdownDocument`: the Solidity heading, then per file a filename heading, its summary line and its chunk sections |
| Summarizer.AppendChunksExtends | spearbot-node/src/scripts/summarizer.ts:183-189 | the chunk loop only appends to the output |
| Summarizer.AppendFilesExtends | spearbot-node/src/scripts/summarizer.ts:175-190 | the file loop only appends to the output |
| Summarizer.MarkdownHeading | spearbot-node/src/scripts/summarizer.ts:172-174 | the document starts with "# Solidity\n\n" and is only that heading when there is no Solidity category or it is empty |
| Summarizer.MarkdownOnlySolidity | spearbot-node/src/scripts/summarizer.ts:172 | the document depends on the Solidity category alone |
| Summarizer.ChunkSectionsInOrder | spearbot-node/src/scripts/summarizer.ts:183-189 | looking each key up yields the sections of the chunk values in key order |
| Summarizer.SummaryRenderedInOrder | spearbot-node/src/scripts/summarizer.ts:183-189 | a file's Markdown renders every chunk once, in key order, under a heading equal to the key the chunk is stored under |
| Summarizer.FilesByExtension | spearbot-node/src/scripts/summarizer.ts:131-151 | the extension loop fails only on a listed value that is no input format; when it succeeds, every listed value is an input format |
| Summarizer.FilesByExtensionGet | spearbot-node/src/scripts/summarizer.ts:131-151 | a category has an entry exactly when listed, holding the files found for its extension; categories are distinct |
| Summarizer.FilesByExtensionPrefix | spearbot-node/src/scripts/summarizer.ts:141-144 | the first invalid extension stops the loop: later values are never looked at |
| Summarizer.CollectFiles | spearbot-node/src/scripts/summarizer.ts:131-151 | the extension loop yields exactly `FilesByExtension`: the usage exit at the first invalid value, otherwise the map from each listed category to its files |
| Summarizer.SummarizeFilesLoop | spearbot-node/src/scripts/summarizer.ts:195-207 | `summarizeFiles` returns `SummarizeFiles` |
| Summarizer.SummarizeFilesGet | spearbot-node/src/scripts/summarizer.ts:195-207 | a file name has an entry exactly when it is one of the files, holding the summary of its contents |
| Summarizer.SummarizeAll | spearbot-node/src/scripts/summarizer.ts:130-158 | the two loops of `main` yield `AllSummaries`: the usage exit on a bad extension, otherwise one summary set per category |
| Summarizer.SummarizeCategoriesGet | spearbot-node/src/scripts/summarizer.ts:154-158 | each category's entry is the summary set of its files |
| JsObject.MapEntriesGet | spearbot-node/src/scripts/summarizer.ts:154-158 | `for (const k of keys) out[k] = f(k, o[k])` leaves under each listed key `f` of that key and its value, and sets no other key |
| Summarizer.SummariesCover | spearbot-node/src/scripts/summarizer.ts:130-158 | every file found for a listed extension is summarised under its category and its file name |
| ArgScan.ArgAt | spearbot-node/src/scripts/summarizer.ts:79 | `args[++i]` is the next argument, or `undefined` past the end |
| ArgScan.ScanPairs | spearbot-node/src/scripts/summarizer.ts:74-94 | complete flag-value pairs are read through, and scanning then continues as from a fresh start |
| ArgScan.UnknownArgumentStops | spearbot-node/src/scripts/summarizer.ts:90-92 | after complete flag-value pairs, an argument every step rejects stops the scan with that step's failure, whatever follows (also embedder.ts lines 86-88) |
| ArgScan.ScanShift | spearbot-node/src/scripts/summarizer.ts:74-94 | scanning after a prefix behaves like scanning the rest alone |
| ArgScan.ScanKeeps | spearbot-node/src/scripts/embedder.ts:70-90 | an option that only one flag changes is kept by every scan that does not contain that flag |
| SummarizerArgs.Apply | spearbot-node/src/scripts/summarizer.ts:77-93 | a `switch` case succeeds exactly for the four flags, with `--exts` needing a value; anything else is an invalid argument |
| SummarizerArgs.ParseArgsLoop | spearbot-node/src/scripts/summarizer.ts:59-114 | the index-bumping loop and the three checks return `ParseArgs` |
| SummarizerArgs.NoArguments | spearbot-node/src/scripts/summarizer.ts:61-66 | with no arguments the defaults are returned, exactly when the current directory exists or is empty |
| SummarizerArgs.LaterFlagWins | spearbot-node/src/scripts/summarizer.ts:74-94 | a flag given again overrides the earlier value, and `--exts` splits its value at commas |
| SummarizerArgs.UnknownArgumentExits | spearbot-node/src/scripts/summarizer.ts:90-92 | an argument in flag position that is no flag exits there, whatever follows |
| SummarizerArgs.HelpAnywhere | spearbot-node/src/scripts/summarizer.ts:68-71 | `--help` anywhere exits, even as a flag's value |
| SummarizerArgs.ValidateExactly | spearbot-node/src/scripts/summarizer.ts:98-111 | validation passes exactly when a non-empty directory exists, a non-empty format is json, markdown or stdout, and the output name is non-empty; it then returns the options unchanged |
| SummarizerArgs.TrailingFormatPasses | spearbot-node/src/scripts/summarizer.ts:87-88 | a trailing `--format` leaves the format undefined, and that passes the check at line 103 |
| SummarizerArgs.TrailingExtsFails | spearbot-node/src/scripts/summarizer.ts:84-86 | a trailing `--exts` is a type error, not a usage exit |
| EmbedderArgs.Apply | spearbot-node/src/scripts/embedder.ts:73-89 | a `switch` case succeeds exactly for `--in`, `--fmt`, `--out` and `--outdir`; anything else is an invalid argument |
| EmbedderArgs.ParseArgsLoop | spearbot-node/src/scripts/embedder.ts:55-115 | the index-bumping loop and the four checks return `ParseArgs` |
| EmbedderArgs.NoArgumentsExit | spearbot-node/src/scripts/embedder.ts:94-97 | with no arguments the empty default input makes the program exit |
| EmbedderArgs.HelpAnywhere | spearbot-node/src/scripts/embedder.ts:64-67 | `--help` anywhere exits, even as a flag's value |
| EmbedderArgs.UnknownArgumentExits | spearbot-node/src/scripts/embedder.ts:86-88 | an argument in flag position that is no flag exits there, whatever follows |
| EmbedderArgs.OnlyOutdirSetsOutfile | spearbot-node/src/scripts/embedder.ts:83-85 | without `--outdir` the output path stays `<cwd>/embeddings` |
| EmbedderArgs.OutfdirIsUnknown | spearbot-node/src/scripts/embedder.ts:48 | the flag `--outfdir`, which the usage text (line 48) names, is rejected as an invalid argument by the switch at lines 73-89 |
| EmbedderArgs.ValidateExactly | spearbot-node/src/scripts/embedder.ts:94-112 | validation passes exactly when a non-empty input path exists and the format is json, empty or missing; it then returns the options unchanged |
| EmbedderArgs.OutputNotValidated | spearbot-node/src/scripts/embedder.ts:92-114 | neither the output target nor the output path affects validation |
| Embedder.EmbedTextLayout | spearbot-node/src/scripts/embedder.ts:164 | an embedded text starts with "File Context: " and the short summary, and ends with the chunk's content verbatim |
| Embedder.EmbedTextDeterminesContent | spearbot-node/src/scripts/embedder.ts:164 | for the same short summary and the same chunk summary, equal texts mean equal chunk contents |
| Embedder.FileSummaries | spearbot-node/src/scripts/embedder.ts:139-141 | one file summary per key of the Solidity category; when the keys are distinct, as in any object, these are the category's values in key order |
| Embedder.ChunkTexts | spearbot-node/src/scripts/embedder.ts:153-168 | a file yields one text per chunk, in key order: the short summary, then the chunk's summary and content |
| Embedder.ChunkEmbedTexts | spearbot-node/src/scripts/embedder.ts:149-166 | for one file, the chunk loop builds one text per chunk, "File Context: " + the model's one-sentence global summary + the section summary + the section content, in chunk order, and appends exactly those texts to the documents |
| Embedder.CreateEmbeddings | spearbot-node/src/scripts/embedder.ts:139-173 | the loop yields `EmbedSummaries`: a failure without a Solidity category, otherwise every file's texts and embedding results, file after file |
| Embedder.DocsAt | spearbot-node/src/scripts/embedder.ts:147-168 | file i's texts are contiguous in `docs`, starting after the texts of the files before it, in chunk order |
| Embedder.EmbedsCount | spearbot-node/src/scripts/embedder.ts:170-172 | when the embedding model returns one vector per text, there are as many vectors as documents |
| Embedder.EmbedsAt | spearbot-node/src/scripts/embedder.ts:170-172 | when the embedding model returns one vector per text, the vector at a document's position is the one embedded from that document's file call |
| Embedder.DocumentOfChunk | spearbot-node/src/scripts/embedder.ts:157-167 | the document at file i's offset plus k is the text of the k-th chunk of file i |
| Embedder.Output | spearbot-node/src/scripts/embedder.ts:180-189 | the index is saved, to the output path, exactly for hnsw and both; the Pinecone error is raised exactly for pinecone and both |
| Embedder.UnknownTargetSavesNothing | spearbot-node/src/scripts/embedder.ts:180-189 | an output target other than the three passes `parseArgs` and then neither saves nor fails |

## Left out

- **Regular expressions.** The regex engine is not modelled. The splitters are proved for every matcher that reports real substrings. The `LineMatcher` matcher agrees with the Solidity boundary regex only on text without `//` or `/*` lines and without carriage returns, line separators (U+2028) or paragraph separators (U+2029). The JavaScript-only regexes at codeSplitter.ts lines 54-64 are constants and are not modelled.
- **The LangChain `TextSplitter` base class.** `createDocuments`, chunk size, overlap and Document metadata are not part of this model. `SplitContent` stands for the splitter's `splitText`.
- **The language model, the summarisation chain, `TokenTextSplitter`, the text and Markdown splitters, tiktoken and the embedding model.** These are uninterpreted functions, so their outputs are not constrained.
- **Promise concurrency.** `Promise.all` over a batch is modelled as sequential, in order. The results are the same because each chunk's summary depends only on the chunk.
- **I/O and environment.** Not modelled:
  - file reading, `JSON.parse` and `findFilesWithExtension` (both are parameters);
  - `outputSummaries`;
  - the `.md` file written by `main`;
  - the `OPENAI_API_KEY` checks;
  - console output and the usage text;
  - `process.exit` (a `Failure` stands for each exit);
  - HNSW construction and the saving itself (`Embedder.Output` records only whether it saves and where).
- **JavaScript object key order.** Objects keep insertion order. The special ordering JavaScript gives integer-like keys, and the `__proto__` key, are not modelled.
- **Embeddings.** Vectors are sequences of reals. Floating point is not modelled.
- **Service failures.** The model, the chain, the splitters and the embedding model are total functions, so a rejected promise cannot be represented. In the source such a rejection aborts the file or the whole run (summarizer.ts lines 244-264, embedder.ts lines 147-173); the model does not capture that.
- **`CodeSplitter.JsSplitText`: the fuel bound.** It takes a fuel bound on iterations because the JavaScript splitter can loop forever. A run that needs more iterations than the fuel ends unfinished. Any fuel of at least the text length suffices when the loop terminates.
- **No boundary at all.** When Solidity content has no boundary, the splitter's loop (codeSplitter.ts lines 75-78) never runs and returns no chunks, so the file gets no chunk summaries. The model follows the code in this.
- **`--exts` without a value.** A trailing `--exts` throws a TypeError rather than printing the usage text. The model records this as `ExtsWithoutValue`.
- CodeSplitter.BaseSplit, CodeSplitter.BaseReconstruction and Summarizer.SplitContent: exact only for text without characters outside the Basic Multilingual Plane. Strings here are sequences of Unicode characters, while JavaScript's `length`, `slice` and `match.index` count UTF-16 code units. Everywhere else an index is cut from the same string it was measured on, so the two agree. The as-written first cut (codeSplitter.ts line 95) is different: it removes `match[0].length` units from the text's front, not from the match. If the match or that prefix holds a character such as an emoji, JavaScript cuts a different number of characters than the model, and it may split a surrogate pair, which these strings cannot represent.
- **Regex source text.** `CodeSplitter.BoundaryPattern` is the source string handed to `new RegExp`, with the keywords unescaped. Compiling that string is not modelled.

## Findings

| source | as written | input that shows it | evidently intended | confidence | as-written member | corrected member |
|---|---|---|---|---|---|---|
| spearbot-node/src/extensions/codeSplitter.ts:85 | `match.indexOf(match[0]) === 0` searches the match array for its own first element and is therefore always true. On the first iteration the splitter cuts `match[0].length` characters from the front of the text wherever the match is. The text before the first boundary is lost, and the characters after the cut are duplicated into the first chunk. | the Solidity keywords and "pragma x;\ncontract A {}", which give ["contract A {}tract A {}"] | test whether the match starts at index 0 (`match.index === 0`). The splitter then returns ["pragma x;", "contract A {}"], and its chunks reassemble the text. | not executed | LineMatcher.BaseSplitLosesPragma | CodeSplitter.IntendedReconstruction |
