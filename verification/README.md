# Verification of the evidence pipeline

A Dafny 4.11 model of the parts of the system that make an answer traceable: where a
chunk lies in its document, how rankings are fused and judged, what a trace records,
which citations survive, and what a crash can leave in the database. Each module keeps
to one source file or one group of them; `dafny verify dfyconfig.toml` checks everything.

| module | models | proves |
|---|---|---|
| `Text`, `Parsing` | `strip`, `find`, `rfind`; the text parser and the PDF page loop | offsets recovered by searching are the true ones |
| `Chunking` | the sliding window of the recursive chunker | where a window ends, termination and a bound on the number of windows, exact overlap if and only if it is small enough, whole words if and only if they are short enough, windows reassemble to the text |
| `Provenance` | parser and chunker together | every chunk is the slice its offsets name, nothing visible is lost |
| `Jobs`, `JobLaws`, `StoredProvenance` | ingestion and embedding jobs over a committed and a working database | consistency and provenance after every run of jobs, failures, crashes and retries; convergence; which failures are recorded |
| `Batching` | embedding in batches, realigned by response index | each text receives its own vector |
| `Fusion`, `FusionLaws`, `Agreement` | reciprocal rank fusion and the two retrievers built on it | refinement of a definition without dictionaries; conservation, Pareto dominance; exactly when agreement wins, in scores and in what retrievers return |
| `RetrievalMetrics` | ranking metrics | range, equality case and exchange property of nDCG; how the metrics relate |
| `Tracing`, `Collector`, `Timeline` | the span recorder as an object, programs that run on it, the timeline walk | any nested run, raising or not, is recorded as the pre-order of its calls, and the calls can be read back; depth is the height of the stack |
| `Grounding`, `Scoring`, `ScoringLaws`, `Aggregation`, `EvidenceGraph`, `EndToEnd` | citation resolution, item scores, aggregates, the evidence graph | citations are sound, whatever the model replies; every metric as a count, every failure category by its exact condition; groups recombine |
| `AnsweredQueries` | a query's stored trace, and the graph drawn from it later | a kept citation is drawn if and only if its chunk is still stored |
| `EvaluationRuns` | one item, and a run over all of them, with its commits | a run completes with every item recorded if and only if nothing but a `DomainError` is raised |
| `Sorting`, `Sequences`, `Sessions`, `Fractions`, `Wrappers` | sorting by a comparison, different things, a database session | what the others share |

## How the system is represented

- A UUID is a number. Its canonical text is fixed-width lower-case hexadecimal, so
  comparing texts is comparing numbers. `chunk_id_for` is the pair of a document and an
  ordinal: deterministic and injective, as hashing by name (section 5.5 of RFC 9562) is
  taken to be. The n-th identifier a trace draws is the pair of the trace and n.
- Text is a sequence of characters. White space is the set `str.isspace` accepts, which
  `strip` and the `\s` of a pattern share.
- Scores, weights, costs and metrics are exact reals; rounding is not modelled. The
  discount of nDCG is any positive, strictly falling function of the position.
- A retriever is any function from a depth to a list of hits. Where a result needs it
  never to return a chunk twice, or more hits than asked for, it says so.
- A database is a committed and a working state. Jobs commit several times, and a crash
  keeps a prefix of what they commit; so laws are stated about every committed state.
- An exception is a value: a `DomainError` with its code, any other exception, or, in
  traces, something that is not an `Exception` (a cancelled task).
- Code under a trace collector is a tree of stages, uses, raises and handlers; a handler
  catches anything, and may raise again.

## Where the code and its documentation differ

The code is followed. Each difference is stated by a member listed below.

- "A chunk found by both arms outranks one found by either alone" (fusion.py:34-36) is
  true of rankings of depth D if and only if `D <= 1`, or both weights are positive and
  `(v + w)(k + 1) > max(v, w)(k + D)`; weights of any sign are accepted. What the default
  hybrid retriever returns keeps it for up to 20 results and no further. Under the default
  adaptive profiles a conceptual or exact-entity query keeps it only up to 7, a
  comparative one up to 8. Search and evaluation ask for 10 by default, a query for 8.
- A stage that is cancelled leaves a span with status OK and no error code: neither
  handler names exceptions outside `Exception` (recorder.py:141-150).
- Citation validity is documented to measure the model's inventions (citation.py:70-72),
  and `invented_citation` is a failure category. The answer parser drops inventions
  first, so for any run validity is undefined or 1 and the category is never used.
- Restoring order by `index` is documented to rule out attaching the wrong vector
  (mistral.py:228-230). A response that repeats an index and omits another passes every
  check; order is restored if and only if every input has an entry.
- A failure is documented to be recorded with its error code (embedding_service.py:55-57),
  but a document can be FAILED without one. That comes about exactly when an embedding of
  its rows succeeds while it is FAILED, for whatever reason: the code is cleared and the
  status is not (embedding_service.py:81-83). So a retried embedding leaves it so, and so
  does embedding the rows that a failed re-ingestion kept, which erases why that failed.
  Nor is every failure recorded: unlike ingestion, which records whatever goes wrong, an
  embedding records what it raises if and only if that is a `DomainError`. A response is
  enough for one that is not: an infinite index, or a number too large for a float, raises
  an `OverflowError`, which the adapter does not catch (mistral.py:236).
- "A partially embedded document resumes instead of starting over"
  (embedding_service.py:105-106) never happens. In every state any run reaches, for any
  model, all of a document's chunks are pending or none is.
- A citation of a chunk outside the graph is called "a guard rather than an expected case"
  (builder.py:125-127). The graph is drawn from rows still stored
  (visualizations.py:106-123), and ingesting a document again into fewer chunks deletes
  some. A kept citation is drawn if and only if its chunk is still stored, which for the
  n-th chunk of a document means that it now has more than n.
- The chunker is documented to cut mid-word only "when a single word exceeds the chunk
  size" (recursive.py:7-8). Separators in the first quarter of a window are ignored, so a
  shorter word can be cut. Windows end inside no word of any text, for words between
  spaces and line breaks of at most m characters, if and only if
  `m < chunk_size - chunk_size // 4`, or both are 1; with the default size, up to 899.
- Consecutive windows overlap by exactly the configured amount on every text if and only
  if `overlap <= chunk_size // 4 + 1`. The defaults, 1200 and 150, satisfy it.
- "One item failing must not abort the run" (evaluation_service.py:301-303) is true of
  items that fail with a `DomainError`. Neither `_run_item` nor `execute` catches anything
  else, so any other exception aborts the run: nothing is recorded and it stays RUNNING. A
  model's reply is enough. An infinite number among the cited indices raises an
  `OverflowError`, which `_resolve_evidence` does not catch (grounded.py:163-167).

## Model

| member | source | states |
|---|---|---|
| Collector.TraceCollector.constructor | backend/core/tracing/recorder.py:94-104 | a new collector stands for no calls, nothing open and no usage |
| Collector.UsageIsTotalled | backend/core/tracing/recorder.py:110-116 | however usage is reported, one report after another comes to the sums of the tokens, and to a cost that is absent exactly when no report had one and otherwise is the sum of those reported |
| Collector.TraceCollector.Enter | backend/core/tracing/recorder.py:126-135 | opening a stage pushes a fresh identifier, takes the next number and the innermost open span as parent, and records nothing; the flat fields still mean the call spine with one more span open, which opened at the height the stack had |
| Collector.TraceCollector.Exit | backend/core/tracing/recorder.py:139-167 | however the body ends, exactly the innermost span is popped and recorded last, with its own number and parent; the flat fields mean the spine with that call completed |
| Collector.TraceCollector.Finish | backend/core/tracing/recorder.py:169-196 | at any moment, also with spans open, the finished record lists completed spans in pre-order; it failed exactly when told so or when some span did |
| Collector.TraceRecord.StageSpan | backend/core/tracing/recorder.py:67-72 | the first span of a stage, and nothing exactly when the stage never ran |
| Tracing.OpenPushes | backend/core/tracing/recorder.py:126-135 | opening a span anywhere in a spine adds one identifier, drawn from the number of spans started, to the open stack |
| Tracing.OpenLocals | backend/core/tracing/recorder.py:126-129 | the innermost span's parent is the top of the stack before it was opened, and its number is how many started before |
| Tracing.ClosePops | backend/core/tracing/recorder.py:151-152 | completing the innermost call removes exactly the last identifier of the stack |
| Tracing.CloseRecords | backend/core/tracing/recorder.py:153-167 | completion order is post-order: completing the innermost call appends its record and moves no other |
| Tracing.StartOrderNumbers | backend/core/tracing/recorder.py:128-129 | in pre-order, the n-th record has number n and the n-th identifier |
| Tracing.SortedSpansArePreOrder | backend/core/tracing/recorder.py:186-189 | for every spine, sorting completion order by start number gives the pre-order, whichever spans are still open |
| Tracing.ReadForestInverts | backend/core/tracing/recorder.py:1-7 | a forest followed by foreign records is read back exactly, leaving those records |
| Tracing.ForestIsRebuilt | backend/core/tracing/recorder.py:1-7 | the span list of a finished trace determines its call forest: reading it back gives the forest and leaves nothing |
| Collector.OpenAddClose | backend/core/tracing/recorder.py:118-167 | opening a span, completing any calls inside it and closing it completes one call at the level it was opened, and the locals in between are unchanged |
| Collector.Run | backend/core/tracing/recorder.py:118-167 | for any program, raising or not, caught or not, the stack is restored on every path, exactly the calls it made are completed, and its outcome and usage are those of its text |
| Collector.TraceExecution | backend/core/tracing/recorder.py:91-197 | a whole execution records the pre-order of its calls: each span names its call's stage and says ERROR with exactly the code and message of a `DomainError`, ERROR with INTERNAL_ERROR and the message of any other exception, OK with neither otherwise; the calls are read back from it, usage is summed, and it failed exactly when told so or some stage raised an exception, surfaced or not |
| Collector.RecordsTell | backend/core/tracing/recorder.py:139-167 | the same of each record of any forest of calls: stage, status, code and message by how the call ended |
| Collector.ErrorsAreExceptions | backend/core/tracing/recorder.py:141-150 | a record has status ERROR exactly when its call raised an exception the handlers name, so some record has exactly when some call did |
| Collector.CancelledStageLooksFine | backend/core/tracing/recorder.py:136-167 | a stage left by something that is not an `Exception` fails and yet is recorded as OK without an error code |
| Timeline.DepthOf | backend/visualization/traces/timeline.py:37-45 | the depth is the number of spans a walk up the parent links visits, on any dictionary, with cycles and missing parents |
| Timeline.LastSpanIsKept | backend/visualization/traces/timeline.py:30-35 | of spans with one identifier the last is looked up |
| Timeline.BuildTimeline | backend/visualization/traces/timeline.py:25-64 | one bar per span, in order, indented by the length of its walk |
| Timeline.VisitsEachOnce | backend/visualization/traces/timeline.py:39-44 | the walk visits known spans only, none twice and never the span itself |
| Timeline.DepthIsBounded | backend/visualization/traces/timeline.py:37-45 | every depth is below the number of distinct spans, however corrupt the links |
| Timeline.OneDeeperIffNoCycle | backend/visualization/traces/timeline.py:37-45 | a span with a known parent is one deeper than it if and only if it is neither its own parent nor among that parent's ancestors |
| Timeline.TimelineShowsNesting | backend/visualization/traces/timeline.py:30-45 | on collector output, finished at any moment and stored in any order, a bar's depth is its nesting inside completed calls |
| Tracing.OpenAddsHeight | backend/core/tracing/recorder.py:126-135 | a span that opens adds the height of the stack at that moment to the heights, and changes no other |
| Tracing.CloseKeepsHeights | backend/core/tracing/recorder.py:151-167 | closing a span changes none of the heights |
| Timeline.DepthIsHeight | backend/core/tracing/recorder.py:126-167 | for every spine, a completed span's depth plus the still open spans that started before it is the height of the stack when it opened |
| Timeline.BarsShowStackHeight | backend/visualization/traces/timeline.py:37-45 | on any collector and any stored order, the depth drawn for a completed span is the recorded height of the stack when it opened, less the spans around it that never closed |
| Text.StripIsSlice | backend/core/parsing/text.py:35-41 | the stripped text is the slice after the leading white space, holds everything visible, is empty exactly for blank text and has visible ends |
| Parsing.SpansTile | backend/core/parsing/text.py:13-29 | the pieces of the split tile the text, are separated by exactly the separators, and contain none |
| Parsing.SeparatorIsBlankLine | backend/core/parsing/text.py:13-14 | a separator runs from i to e if and only if a line break is at i and another at e - 1, with only spaces and tabs between |
| Parsing.SplitAtBlankLines | backend/core/parsing/text.py:14-29 | in characters: the pieces of the split run from the first to the last character, from each to the next there is one such stretch, and none begins inside a piece |
| Parsing.SearchLands | backend/core/parsing/text.py:29-33 | from a cursor with only white space before the true start, the search succeeds, never passes it, and for a visible piece finds exactly it |
| Parsing.BlankGap | backend/core/parsing/text.py:30-33 | a blank piece found too early pulls the cursor back over white space only |
| Parsing.ParseText | backend/core/parsing/text.py:27-50 | the loop that searches for each piece reports the blocks the true positions give; the branch for a failed search never matters |
| Parsing.TextBlocksLocate | backend/core/parsing/text.py:39-50 | blocks are visible, in order, disjoint, each the slice its offsets name, and cover everything visible |
| Parsing.NoBlankLineInside | backend/core/parsing/text.py:13-50 | no two line breaks with only spaces and tabs between them begin inside a block |
| Parsing.HeadingIff | backend/core/parsing/text.py:15 | a block is a heading if and only if it opens with one to six hashes, white space and something visible |
| Parsing.BlockKind | backend/core/parsing/text.py:42-49 | every block has no page and is a heading or a paragraph accordingly |
| Parsing.ParsePages | backend/core/parsing/pdf.py:50-77 | the page loop yields the visible pages with running offsets, or fails at the first unreadable page |
| Parsing.PageBlocksLocate | backend/core/parsing/pdf.py:63-77 | page offsets are exact in the visible pages joined by any one white-space character, and nothing visible is lost |
| Parsing.VisiblePageIs | backend/core/parsing/pdf.py:52-68 | a visible page is the page of its number, stripped |
| Chunking.MakeSettings | backend/core/chunking/recursive.py:38-43 | the sizes accepted are exactly a positive one with a smaller non-negative overlap |
| Chunking.BoundaryMeaning | backend/core/chunking/recursive.py:95-103 | a window is cut after the last usable occurrence of the widest separator that has one, and nowhere else; not at all exactly when none has |
| Chunking.BoundaryInCharacters | backend/core/chunking/recursive.py:22-103 | in characters, with the first quarter spelled out: a window is cut after its last blank line that can be cut after, else its last line break, else its last sentence end, else its last space, else at its end |
| Chunking.CutWordIsLong | backend/core/chunking/recursive.py:95-103 | a window that ends inside a word has only that word after its first quarter, and beyond its end |
| Chunking.TwoWordsAreCut | backend/core/chunking/recursive.py:100-103 | for every size above 1, a text of words just longer than what is kept, though shorter than the chunk size, is cut inside one |
| Chunking.WordsAreKeptIff | backend/core/chunking/recursive.py:7-8 | for all texts whose words have at most m characters no window ends inside a word, if and only if m is at most three quarters of the chunk size, rounded up, less one, or one for windows of one character |
| Chunking.EndsNeverDecrease | backend/core/chunking/recursive.py:75-91 | window ends never move back, even where the step is a single character |
| Chunking.WindowsStep | backend/core/chunking/recursive.py:73-91 | windows are non-empty, no longer than the chunk size, advance by the least step and leave no gap; the last ends with the text |
| Chunking.WindowsCover | backend/core/chunking/recursive.py:73-91 | every position lies in some window |
| Chunking.WindowCount | backend/core/chunking/recursive.py:73-103 | the windows after the first, times the least step, fit in what is left of the text |
| Chunking.WindowsAreFew | backend/core/chunking/recursive.py:73-103 | a text of length n has at most 1 + (n - 1) / A windows, A being the larger of 1 and min(chunk_size // 4 + 2, chunk_size) - overlap |
| Chunking.WindowsExact | backend/core/chunking/recursive.py:87-102 | if the overlap is at most a quarter of the chunk size plus one, each window starts exactly the overlap before the previous end, and ends strictly increase |
| Chunking.StubbornIsInexact | backend/core/chunking/recursive.py:89-102 | for every larger overlap there is a text on which it is not exact |
| Chunking.OverlapIsExactIff | backend/core/chunking/recursive.py:87-102 | the overlap is exact on all texts if and only if it is at most that |
| Chunking.WindowsRoundTrip | backend/core/chunking/recursive.py:73-91 | the first window and every later one without its overlap concatenate back to the text |
| Chunking.SplitBlock | backend/core/chunking/recursive.py:62-93 | the loop with its early break and the shortcut for short blocks both give the stripped, located visible windows |
| Chunking.ShortBlock | backend/core/chunking/recursive.py:66-71 | the shortcut gives what the window walk would |
| Chunking.ChunkBlocks | backend/core/chunking/recursive.py:46-60 | pieces of all blocks, numbered on across blocks, with page and offsets |
| Provenance.WindowPiece | backend/core/chunking/recursive.py:80-85 | a window yields exactly what is visible in it, at its place in the document |
| Provenance.BlockPiecesCite | backend/core/chunking/recursive.py:62-93 | pieces of a located block are slices of the document, not longer than the chunk size, and neither starts nor ends go back |
| Provenance.BlockPiecesCover | backend/core/chunking/recursive.py:62-93 | every visible character of a located block is in one of its pieces |
| Provenance.ChunksProvenant | backend/core/chunking/recursive.py:46-60 | located blocks give chunks numbered from zero in reading order, each the slice its offsets name, that cover what is visible |
| Provenance.ChunkHasBlock | backend/core/chunking/recursive.py:46-60 | every chunk is a located piece of one of the blocks and has that block's page |
| Provenance.NoBlankLineInChunk | backend/core/chunking/recursive.py:46-60 | no chunk of a text runs across a blank line |
| Provenance.PdfChunksCarryPages | backend/core/chunking/recursive.py:46-60 | each chunk of a PDF carries the number of the page it is a slice of, at the offset where that page begins |
| Provenance.ChunkText | backend/core/parsing/text.py:23-56 | that, for every decoded text and all valid settings, of parsing and chunking together; and no blank line begins inside a chunk |
| Provenance.ChunkPages | backend/core/parsing/pdf.py:50-77 | that, for every readable PDF, in its pages joined by a white-space character; and every chunk carries the number of the page it is a slice of |
| Fusion.Fuse | backend/core/retrieval/fusion.py:26-90 | the dictionaries and the sort refine the definition: every chunk found, once, scored by the sum of its shares, with its own contributions, first sighting and first matched terms, strictly ordered by score then identifier; refused exactly for a wrong number of weights or a non-positive k |
| Fusion.FirstTerms | backend/core/retrieval/fusion.py:93-99 | the first non-empty matched terms of a chunk, empty exactly when it has none |
| Fusion.TabulateStep | backend/core/retrieval/fusion.py:53-63 | one hit keeps the three dictionaries what they stand for: scores, contributions and first sightings of the hits so far |
| Fusion.SortedEntries | backend/core/retrieval/fusion.py:65-68 | sorting the keys lists each exactly once, strictly by rank |
| FusionLaws.FusionIsUnique | backend/core/retrieval/fusion.py:65-68 | identifiers, order and scores are determined by which chunks were found and what they score |
| FusionLaws.ArmOrderIsIrrelevant | backend/core/retrieval/fusion.py:32-39 | permuting the arms together with their weights changes neither identifiers nor order nor scores |
| FusionLaws.ContributionsAreConserved | backend/core/retrieval/fusion.py:58-60 | the contributions of the result are in number the hits of all arms |
| FusionLaws.ContributionsExplainScore | backend/core/retrieval/fusion.py:53-60 | what an arm adds to a chunk's score is the sum of weight / (k + rank + 1) over the contributions reported for it |
| FusionLaws.ScoreIsWorth | backend/core/retrieval/fusion.py:34-36 | a chunk's score is what its contributions are worth, arm by arm |
| FusionLaws.SoleFinderScore | backend/core/retrieval/fusion.py:53-57 | the score of a chunk that one arm alone found, times k plus its place counted from one, is the arm's weight |
| FusionLaws.EveryHitIsFused | backend/core/retrieval/fusion.py:52-63 | whatever an arm returned at whatever place is among the results, with that place and score among its contributions |
| FusionLaws.OneResultEach | backend/core/retrieval/fusion.py:65-71 | the results are distinct and as many as the chunks found |
| FusionLaws.PlaceIsRank | backend/core/retrieval/fusion.py:65-71 | one result is before another exactly when it outranks it |
| FusionLaws.UnanimityIsRespected | backend/core/retrieval/fusion.py:52-68 | with positive weights, if one chunk precedes another in every arm that has the other, it precedes it in the fusion |
| FusionLaws.OneArmIsReproduced | backend/app/retrieval/hybrid.py:62-66 | when one arm alone returned anything, its order is reproduced |
| FusionLaws.FusionExists | backend/core/retrieval/fusion.py:48-90 | the definition that fusion refines can be met for any arms |
| Agreement.ShallowSuffices | backend/core/retrieval/fusion.py:34-36 | under the depth condition, a chunk found by both arms scores strictly more than any found by one |
| Agreement.WitnessScores | backend/core/retrieval/fusion.py:34-36 | when the condition fails, in two explicit rankings a chunk found by one arm outranks every other chunk |
| Agreement.DeepFails | backend/core/retrieval/fusion.py:34-36 | so the promise fails for rankings of that depth |
| Agreement.AgreementWinsIff | backend/core/retrieval/fusion.py:34-46 | the documented promise holds of all rankings of a depth if and only if the condition does, for all weights, negative ones included |
| Agreement.ResultsKeepPromiseIff | backend/core/retrieval/fusion.py:34-46 | what is returned, cut to the number asked for, keeps the promise for all retrievers if and only if nothing is asked for or the condition holds at the depth fetched |
| Agreement.EqualWeights | backend/core/retrieval/fusion.py:41-42 | for equal weights the condition is depth at most k + 1 |
| Agreement.HybridRetrieve | backend/app/retrieval/hybrid.py:42-67 | the first results of the fusion of both arms, asked for at least 20 and at least the multiplier times as many as wanted, and for one of the two; or the fusion's refusal |
| Agreement.HybridFusesThePool | backend/app/retrieval/hybrid.py:15-43 | with the defaults, every chunk either arm returns among three times as many as wanted, and at least 20, is fused with its contribution from that arm |
| Agreement.HybridPromiseIff | backend/app/retrieval/hybrid.py:18-43 | what is returned with the defaults keeps the promise, for all retrievers, if and only if at most 20 results are asked for |
| Agreement.TopKeepsAgreement | backend/app/retrieval/hybrid.py:66-67 | cutting off never drops a chunk both arms found in favour of one a single arm found |
| Agreement.HybridAgreementFirst | backend/app/retrieval/hybrid.py:45-67 | so in any default hybrid result of at most 20, a chunk both arms found precedes every chunk one found |
| Agreement.ReturnedLength | backend/app/retrieval/hybrid.py:66-67 | what is returned has no chunk twice and is as long as the number asked for or the number of chunks found, whichever is less |
| Agreement.ReturnedUnanimity | backend/app/retrieval/hybrid.py:66-67 | what is ahead of a returned chunk in every arm that has it is returned too, ahead of it |
| Agreement.ReturnedArm | backend/app/retrieval/hybrid.py:62-67 | when one arm alone returned anything, its first results are returned in its order |
| Agreement.DefaultProfile | backend/core/retrieval/adaptive.py:33-60 | every default profile passes its own validation |
| Agreement.HeavierArmLeads | backend/core/retrieval/adaptive.py:40-44 | of two chunks found by one arm each, at the same place, the heavier arm's is placed first, and with equal weights the one with the smaller identifier |
| Agreement.LeadingArm | backend/core/retrieval/adaptive.py:50-60 | so by default the dense arm leads for conceptual and comparative queries, the keyword arm for exact entities, and neither otherwise |
| Agreement.DefaultsAreShares | backend/core/retrieval/adaptive.py:50-60 | default weights add up to one, and the pool is five times what is wanted for multi-hop, comparative and ambiguous queries, three times otherwise |
| Agreement.AdaptiveRetriever.Retrieve | backend/app/retrieval/adaptive.py:45-58 | the first results of the fusion with the weights and pool of the query's profile; the decision is remembered |
| Agreement.AdaptivePromiseIff | backend/core/retrieval/adaptive.py:50-60 | for each kind of query, the number of results up to which what is returned keeps the promise for all retrievers, and beyond which it does not |
| RetrievalMetrics.FirstGold | backend/evaluation/metrics/retrieval.py:59-70 | the position of the first gold chunk, absent exactly when none was retrieved |
| RetrievalMetrics.DcgAgainstIdeal | backend/evaluation/metrics/retrieval.py:73-91 | gain is at most that of as many hits at the front, and equal exactly when they are at the front |
| RetrievalMetrics.NdcgRange | backend/evaluation/metrics/retrieval.py:82-95 | for distinct identifiers nDCG is defined, in [0, 1], 1 exactly when every slot that could be gold is, 0 exactly when none is |
| RetrievalMetrics.SwappingGoldUpHelps | backend/evaluation/metrics/retrieval.py:73-95 | moving a gold chunk ahead of a neighbour that is not strictly raises nDCG |
| RetrievalMetrics.RecallAndPrecision | backend/evaluation/metrics/retrieval.py:26-49 | recall times the gold count, and precision times the number looked at, both are the number of gold chunks at one of the first k places; precision is positive exactly when there is one, and 0 when nothing was retrieved |
| RetrievalMetrics.DeeperFindsMore | backend/evaluation/metrics/retrieval.py:20-56 | recall and hit rate never fall as k grows, and recall is at most 1 |
| RetrievalMetrics.HitIffRecallIffRank | backend/evaluation/metrics/retrieval.py:26-70 | hit rate is 1 when a gold chunk is at one of the first k places and 0 otherwise; the first exactly when recall is positive, exactly when reciprocal rank is at least 1/k |
| RetrievalMetrics.RankIsInverse | backend/evaluation/metrics/retrieval.py:59-70 | reciprocal rank is undefined exactly without gold, 0 when no result is gold, and times the first place that is gold, counted from one, it is 1 |
| RetrievalMetrics.WithoutValue | backend/evaluation/metrics/retrieval.py:20-95 | without gold every metric is undefined; with gold a depth that is not positive leaves nDCG undefined and is refused by the others |
| EndToEnd.FusedNdcgIsNormalised | backend/core/retrieval/fusion.py:65-90 | fusion output always has distinct identifiers, so its nDCG is in [0, 1] whatever the arms returned |
| EndToEnd.RepeatedGoldExceedsOne | backend/evaluation/metrics/retrieval.py:82-95 | without distinctness it is not: a gold chunk listed twice scores above 1 |
| Jobs.RunIngestion | backend/app/services/ingestion_service.py:176-275 | which states are committed, in order, for every failure; what is raised is exactly the unexpected failures, recorded after a rollback |
| Jobs.IngestSteps | backend/app/services/ingestion_service.py:187-234 | the steps commit the same states up to the first failure, which they report |
| Jobs.ReplaceRows | backend/app/services/ingestion_service.py:203-227 | deleting a document's rows and adding its chunks replaces exactly those rows and never repeats a key |
| JobLaws.StoredRow | backend/app/services/ingestion_service.py:209-227 | after a successful ingestion the n-th chunk is stored under the n-th identifier with its text, page and offsets, and no vector |
| Jobs.PendingAreRows | backend/app/services/embedding_service.py:102-116 | the chunks selected are exactly the document's rows with no vector or one of another named model |
| JobLaws.PendingIff | backend/app/services/embedding_service.py:102-114 | of rows whose vectors are what they say, those selected are the ones that lack the vector of this model |
| JobLaws.EmbeddingBringsUpToDate | backend/app/services/embedding_service.py:65-116 | from every consistent state, an embedding with model m leaves every row of the document with m's vector of its text and the name m, whatever model it had before, and changes nothing else; nothing is committed if and only if every row already was so |
| Jobs.EmbedDocument | backend/app/services/embedding_service.py:52-125 | which states are committed and what is returned or raised, for every failure to build the pipeline, pending chunks or not, and every reply of the provider |
| JobLaws.EveryCommitConsistent | backend/app/services/ingestion_service.py:176-275 | every state any event commits is consistent if the one before was, so a crash between commits leaves a consistent one |
| JobLaws.EveryRunConsistent | backend/app/services/embedding_service.py:52-125 | after every run of uploads, jobs, failures, crashes and retries: row identifiers are the document's ordinals up to its chunk count, an embedding names its model and is that model's vector of the text, and COMPLETED means no error |
| JobLaws.EveryRunCounted | backend/app/services/ingestion_service.py:203-234 | of this, rows and counts need nothing of the embedders |
| JobLaws.JobsAreIsolated | backend/app/services/ingestion_service.py:203-227 | no commit of a job changes another document or its rows |
| JobLaws.FailedIngestionKeepsRows | backend/app/services/ingestion_service.py:242-275 | only the final commit of a successful ingestion touches rows |
| JobLaws.NothingLeftPending | backend/app/services/embedding_service.py:65-83 | after a successful embedding, embedding again commits nothing |
| JobLaws.RetryConverges | backend/app/services/ingestion_service.py:203-234 | from any state, one successful ingestion and one successful embedding of the same content reach the same rows; a further embedding commits nothing |
| JobLaws.IngestSucceeds | backend/app/services/ingestion_service.py:203-234 | a successful ingestion ends COMPLETED, without an error, with the page count of the file and the number of its chunks |
| JobLaws.ReingestionIsStable | backend/core/chunking/recursive.py:3-5 | ingesting the same content with the same settings gives the same rows under the same identifiers, whatever was there before |
| JobLaws.IngestionFailureIsRecorded | backend/app/services/ingestion_service.py:242-275 | whatever goes wrong with an ingestion, its last commit is FAILED with the code |
| JobLaws.EmbeddingFailureIsRecordedIff | backend/app/services/embedding_service.py:55-57 | what an embedding raises is in its last commit, as FAILED with the code, if and only if it is a `DomainError`; otherwise there is no commit |
| JobLaws.NeverPartiallyEmbedded | backend/app/services/embedding_service.py:102-116 | in every state any run reaches, whatever the embedders do, all of a document's chunks are pending for a model or none is |
| JobLaws.EmbeddingClearsTheCodeOnly | backend/app/services/embedding_service.py:65-83 | a successful embedding keeps the status, and afterwards there is no error code if and only if there was none or something was embedded |
| JobLaws.UnexplainedIff | backend/app/services/embedding_service.py:59-100 | after any event, a document is FAILED without an error code if and only if it was FAILED and an embedding that had a pipeline, something pending and as many vectors was committed, or it already was so and the event is another document's, died before a commit or had nothing to commit |
| JobLaws.RetriedEmbeddingStaysFailed | backend/app/services/embedding_service.py:77-100 | a failed embedding retried successfully leaves the document FAILED with no error and nothing to embed |
| JobLaws.EmbeddingHidesFailedIngestion | backend/app/services/embedding_service.py:77-83 | for every failure of a re-ingestion, embedding the rows it kept erases its code and leaves the document FAILED |
| StoredProvenance.ChunksQuote | backend/app/services/ingestion_service.py:209-227 | every row made from a parsed file is the slice of it that its offsets name |
| StoredProvenance.EveryRunGrounded | backend/app/services/ingestion_service.py:176-275 | in every state any run reaches, every stored row is the slice of its document that its offsets name, whatever settings each job used |
| Batching.MakePipeline | backend/core/embeddings/pipeline.py:16-21 | a size that is not positive is refused; otherwise the size is the configured one or the provider's limit, whichever is less |
| Batching.EmbedTexts | backend/core/embeddings/pipeline.py:28-34 | the batch loop is the concatenation of the batches' answers, or the first failure |
| Batching.AcceptedIff | backend/models/providers/mistral.py:225-259 | a response is accepted if and only if it has one entry per input, each with a number for its index and an embedding of the provider's dimension; so has every vector accepted; any refusal that is not an overflow is `EMBEDDING_FAILED` |
| Batching.OneCall | backend/models/providers/mistral.py:206-223 | nothing is sent for no text, too many texts are refused unsent with `MODEL_CONTEXT_EXCEEDED`, and what comes back is one vector of the dimension per text |
| Batching.OneVectorEach | backend/core/embeddings/pipeline.py:28-34 | however texts are cut and whatever is answered, what is returned is one vector for each text, all of the provider's dimension |
| Batching.RealignsByIndex | backend/models/providers/mistral.py:225-259 | a response with every index once, in any order, gives the vectors in input order |
| Batching.AlignedIffEachIndexOnce | backend/models/providers/mistral.py:225-259 | an accepted response is aligned if and only if every input has an entry |
| Batching.RepeatedIndexIsAccepted | backend/models/providers/mistral.py:244-259 | two entries for one input and none for the other pass every check |
| Batching.ResponseEscapesIff | backend/models/providers/mistral.py:232-242 | reading a response raises something that is not a `DomainError` if and only if an infinite index comes before any that is no number or, with sound indices, a number too large comes before any that is no number |
| Batching.OverflowIsNotRecorded | backend/app/services/embedding_service.py:70-100 | then, whatever is pending, the job raises it and commits nothing |
| Batching.EachTextGetsItsVector | backend/core/embeddings/pipeline.py:28-34 | for every number of texts and every batch size, each text has its own vector, and no batch exceeds its size |
| Batching.PipelineIsFaithful | backend/app/services/embedding_service.py:65-79 | such a provider meets what the job laws assume of an embedder |
| Grounding.ResolveEvidence | backend/core/reasoning/grounded.py:149-175 | the chunks of the valid indices, each at its first mention, and the number of invented ones; it fails exactly on an infinite number |
| Grounding.FirstMentionsAre | backend/core/reasoning/grounded.py:161-174 | exactly the valid indices of the list, none twice |
| Grounding.CitationsSplit | backend/core/reasoning/grounded.py:161-175 | every entry of a citation list is resolved, invented or a repetition |
| Grounding.KeptAre | backend/core/reasoning/grounded.py:115-125 | the entries that become claims are exactly the objects with a text |
| Grounding.ParseAnswer | backend/core/reasoning/grounded.py:99-147 | which payloads are refused and how, and which raise something else; accepted ones keep exactly the claims with text, each with its resolved evidence, and the total of inventions |
| Grounding.ParsedAreAccepted | backend/core/reasoning/grounded.py:115-125 | every claim of a parsed answer is one of the model's with its citations resolved |
| Grounding.Generate | backend/core/reasoning/grounded.py:75-147 | without evidence the model is not asked, and the answer abstains, claims nothing and costs no tokens; which replies are answers, which fail with what code and which raise something else; the claims of an answer are accepted ones |
| Grounding.InfiniteIndexEscapes | backend/core/reasoning/grounded.py:163-167 | a kept claim that cites an infinite number makes generation raise something else |
| Grounding.ClaimsAreSound | backend/core/reasoning/grounded.py:149-175 | whatever the model said, a claim cites only what was retrieved, and nothing twice if the evidence is distinct |
| Scoring.ScoreItem | backend/evaluation/scoring.py:55-93 | every metric at every depth and every other metric, latencies included, has its own definition's value, there is no further one, and the category is the first reason that applies |
| ScoringLaws.CitationMetricsAre | backend/evaluation/scoring.py:73-78 | the score's citation metrics are those of what the claims cite, of the gold chunks and of what was retrieved |
| ScoringLaws.PrecisionMeans | backend/evaluation/metrics/citation.py:24-34 | precision times the chunks cited counts the cited gold chunks; 1 exactly when all cited are gold, 0 exactly when none is, undefined exactly without gold or citations |
| ScoringLaws.RecallMeans | backend/evaluation/metrics/citation.py:37-41 | recall times the gold chunks counts the same chunks; 1 exactly when all gold is cited, undefined exactly without gold |
| ScoringLaws.CoverageMeans | backend/evaluation/metrics/citation.py:44-53 | coverage times the distinct retrieved chunks counts those cited; 1 exactly when all are, undefined exactly when nothing was retrieved |
| ScoringLaws.UnsupportedMeans | backend/evaluation/metrics/citation.py:56-64 | the unsupported rate times the claims counts those that cite nothing; 0 exactly when every claim cites something, 1 exactly when none does, undefined exactly without claims |
| ScoringLaws.ValidityCounts | backend/evaluation/metrics/citation.py:67-79 | validity times the citations, one by one, counts those of retrieved chunks |
| ScoringLaws.ValidityMeans | backend/evaluation/metrics/citation.py:67-79 | validity is 1 exactly when everything cited was retrieved, 0 exactly when nothing was, undefined exactly when nothing is cited |
| ScoringLaws.RankScored | backend/evaluation/scoring.py:71 | the reciprocal rank of the score by the places of the gold chunks |
| ScoringLaws.DepthMetricsAre | backend/evaluation/scoring.py:66-70 | the four depth metrics are there for each depth asked for and no other |
| ScoringLaws.ScoreRepeatsObservation | backend/evaluation/scoring.py:80-91 | tokens, cost and times are as observed, failure is flagged exactly with an error code, abstention is right exactly when it was expected |
| ScoringLaws.CategoriesAre | backend/evaluation/scoring.py:96-121 | each of the six categories, and none, by its exact condition on the item and the observation: an unsupported claim, say, if and only if nothing failed or was missed, abstaining was right, nothing is invented and some claim cites nothing |
| Scoring.InventedCitationIsUnreachable | backend/evaluation/scoring.py:115-117 | for any generated, retrieved or failed item, citation validity is undefined or 1 and the category is never `invented_citation` |
| Aggregation.Aggregate | backend/evaluation/scoring.py:124-151 | per metric the mean over items that define it and how many do; per category its count |
| Aggregation.AggregateGrows | backend/evaluation/scoring.py:124-151 | one more item adds its value to the sum behind the mean and one to the count if it defines the metric, one to its category and one to the items |
| Aggregation.AggregateBy | backend/evaluation/scoring.py:154-165 | one aggregate per label, over exactly the items with that label |
| Aggregation.GroupsAddUp | backend/evaluation/scoring.py:154-165 | for any labelling and any weighing of items, group totals add up to the pooled total |
| Aggregation.GroupsRecombine | backend/evaluation/scoring.py:124-165 | counts, means times counts, categories and item counts of the groups add up to the overall ones |
| Aggregation.OverallMeanIsBetween | backend/evaluation/metrics/retrieval.py:98-112 | some group's mean is at most the overall one and some group's is at least it |
| Aggregation.FailedAreExecutionErrors | backend/app/services/evaluation_service.py:252-259 | the failed count of a run is its number of execution errors |
| EvaluationRuns.RunItem | backend/app/services/evaluation_service.py:289-336 | an item's `DomainError`, wherever it is raised, becomes an observation with its code; nothing is observed exactly when something else is raised |
| EvaluationRuns.ObservationTells | backend/app/services/evaluation_service.py:307-336 | what is observed, from the reply: the chunks retrieved, whether the answer abstained, its input and its output tokens; without evidence or without a model no claims and no tokens; of a failed item nothing but the code |
| EvaluationRuns.ClaimsTell | backend/app/services/evaluation_service.py:322-331 | each observed claim is an entry of the reply with its text, and each entry with a text is observed |
| EvaluationRuns.RunItems | backend/app/services/evaluation_service.py:223-250 | every item is recorded with what it did and its score, unless some item raises something other than a `DomainError` |
| EvaluationRuns.RunningIsShown | backend/app/services/evaluation_service.py:191-213 | the first state committed says RUNNING of that run and changes nothing else |
| EvaluationRuns.Execute | backend/app/services/evaluation_service.py:191-287 | which two states are committed and what is raised; results are committed with the status COMPLETED or not at all, the report and the counts are theirs, and no other run is touched |
| EvaluationRuns.RunCompletesIff | backend/app/services/evaluation_service.py:299-303 | a run ends COMPLETED with every item recorded if and only if providers, items and the last commit raise nothing, items' `DomainError`s aside; when the first thing raised is not a `DomainError` it stays RUNNING |
| EvaluationRuns.RecordedCategory | backend/app/services/evaluation_service.py:332-336 | a recorded item is an execution error exactly when it failed with a `DomainError`, and never an invented citation |
| EvaluationRuns.AbstentionByCondition | backend/evaluation/datasets/schema.py:49-52 | abstaining counts as right exactly on incomplete items; over-abstention, answering without evidence and a miss by the stored item's condition and gold chunks |
| EvaluationRuns.DepthsRecorded | backend/app/services/evaluation_service.py:234-250 | a recorded score looks at the first 1, 3, 5 and 10 results |
| EvaluationRuns.FailedCountIsFailures | backend/app/services/evaluation_service.py:252-253 | a completed run's failed count is the number of its items that failed with a `DomainError`, and its completed count is the rest |
| EvidenceGraph.BuildEvidenceGraph | backend/visualization/evidence_graph/builder.py:40-133 | appending to the two lists builds the graph of its parts |
| EvidenceGraph.NodesAre | backend/visualization/evidence_graph/builder.py:54-122 | which nodes there are, and what each says about being cited or supported |
| EvidenceGraph.EdgesAre | backend/visualization/evidence_graph/builder.py:71-131 | which edges there are: a citation exactly of a known chunk |
| EvidenceGraph.EdgesAreWellPlaced | backend/visualization/evidence_graph/builder.py:54-133 | for any claims, no edge dangles and each goes one layer down from query to document to chunk to claim to answer |
| EvidenceGraph.WalksGoDown | backend/visualization/evidence_graph/builder.py:54-133 | a walk goes down as many layers as it has steps, so none comes back to where it began |
| EvidenceGraph.EveryChunkIsReached | backend/visualization/evidence_graph/builder.py:57-99 | every chunk is reachable from the query |
| EvidenceGraph.AnswerIsReachedIffCited | backend/visualization/evidence_graph/builder.py:111-131 | the answer is reachable from the query exactly when some claim cites a retrieved chunk |
| EvidenceGraph.CitedIffEdge | backend/visualization/evidence_graph/builder.py:73-90 | a chunk is marked cited exactly when a CITES edge leaves it |
| EvidenceGraph.NodeIdsUniqueIff | backend/visualization/evidence_graph/builder.py:54-122 | node identifiers are unique if and only if the chunk identifiers are |
| EvidenceGraph.RenderInjective | backend/visualization/evidence_graph/builder.py:62-113 | the prefixes keep node identifiers of any spelling apart |
| EvidenceGraph.DecimalReads | backend/visualization/evidence_graph/builder.py:111-113 | a claim's number is written without a leading zero and reads back as itself |
| EvidenceGraph.Summarise | backend/visualization/evidence_graph/builder.py:136-155 | counts per node type, edges, uncited chunks and unsupported claims of any graph |
| EvidenceGraph.SummaryCounts | backend/visualization/evidence_graph/builder.py:141-154 | on a built graph these are the retrieved chunks no claim cites and the claims that cite nothing |
| AnsweredQueries.AnswerQuery | backend/app/api/v1/routes/query.py:115-180 | what is stored with the trace: what was retrieved, and the claims or the code of the failure; nothing exactly when something other than a `DomainError` is raised |
| AnsweredQueries.ResponseKeepsCitations | backend/app/api/v1/routes/query.py:182-194 | the response resolves every citation of an accepted claim and drops none |
| AnsweredQueries.ResolvedAre | backend/app/api/v1/routes/query.py:184-190 | what is resolved of a citation list is exactly what was retrieved of it; nothing is dropped if and only if all of it was |
| AnsweredQueries.DrawTrace | backend/app/api/v1/routes/visualizations.py:106-150 | the graph is drawn from the retrieved chunks that are still stored, in the order they were retrieved |
| AnsweredQueries.CitationIsDrawnIff | backend/visualization/evidence_graph/builder.py:124-131 | a citation that was kept has its edge if and only if its chunk is still stored |
| AnsweredQueries.AnswerIsGroundedIff | backend/app/api/v1/routes/visualizations.py:117-150 | the answer is reachable from the query if and only if some claim cites a chunk that is still stored |
| AnsweredQueries.CitationSurvivesIff | backend/app/api/v1/routes/visualizations.py:106-123 | after any run of jobs, a citation of a document's n-th chunk is drawn if and only if the document has more than n chunks |
| AnsweredQueries.ReingestionDropsTheRest | backend/app/services/ingestion_service.py:203-234 | after a document is ingested again, the citations drawn are those of the chunks it has now |
| AnsweredQueries.AnswerAndDraw | backend/app/api/v1/routes/visualizations.py:99-150 | from the model's reply to the stored trace and the graph, with nothing assumed of the reply or of what is stored by then: every citation was retrieved, is drawn if and only if still stored, and the answer is reachable if and only if some such citation is |
| EndToEnd.RunAndScore | backend/app/services/evaluation_service.py:307-336 | from what the model replied to observation and score, with nothing assumed of the reply: everything cited was retrieved, validity is undefined or 1 and nothing counts as invented |

## Left out

- Durations, timestamps, span and trace attributes and timeline offsets: clocks. An observation's latencies are inputs.
- Concurrent spans on one collector: stages run one after another in the repository.
- Persisted span order by start time; the depth result holds for any stored order.
- Token counts, decoding of bytes, PDF text extraction, hashing, and the file checks of an upload: given functions or input validation.
- Error messages on documents, and fields of a row that no operation here reads (owner, project, metadata).
- A fused result's provenance and metadata, which travel with the text of the first sighting, and its fixed retriever label.
- SQL execution and ranking, HTTP transport, retries, JSON decoding and the Mistral chat adapter: a retriever, a provider and a session stand for them.
- Jobs.RunIngestion: a commit may fail at the first and at the last step; at the second it leaves what a failed fetch leaves, and during the failure record what a crash leaves.
- Jobs.EmbedDocument: an exception from the commit itself is not modelled; a crash before it is.
- EvaluationRuns.Execute: a crash between the two commits leaves the first, RUNNING; a missing dataset, a configuration that cannot be read before the first commit, and an exception while closing the providers are not modelled.
- Batching.EmbedTexts: a response without a list of entries is a transport error.
- AnsweredQueries.AnswerQuery: the spans, usage and cost of the stored trace, which `Collector` models; AnsweredQueries.DrawTrace: the labels and offsets shown, which are those of the row now stored and, after an ingestion with other settings, need not be those that were retrieved.
- The query analyzer's patterns; the kind of query is an input.
- Scores by `should_escalate`, the unimplemented weighted score fusion, retrieval comparison, heatmap, prompt rendering and local storage: easy or absent behaviour.
- Labels, previews, titles and page metadata of graph nodes: display text.
- Aggregation.AggregateBy: a map has no order, so that labels are listed sorted is not stated.
- Floating-point rounding everywhere.
