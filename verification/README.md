# MigrationLens: a verified model

MigrationLens scans a ZIP archive of Python source, groups what it finds, lets a bounded agent explain
the groups with the help of retrieved documentation, and publishes a report whose citations are checked
against a pinned snapshot. This project models the parts where loops, state, failure or interleaving
make the outcome hard to see, and proves what each of them is for.

| file | what it models |
|---|---|
| `PyText`, `MarkdownParser`, `Chunker`, `ChunkBuilder`, `ChunkAudit` | the Markdown chunker: parsing sections and fenced blocks, cutting overlapping chunks, the independent audit |
| `MarkdownStructure`, `MarkdownLines`, `ChunkProperties`, `ChunkChoice`, `ChunkPieces`, `ChunkLimits`, `ChunkStray` | what the chunker recognises, where it cuts, what it guarantees, and exactly where its guarantees end |
| `AtomicPublish` | publishing several files as one transaction, with a file system in which every operation may fail |
| `AgentGrouping`, `AgentGraph`, `AgentInvariants`, `AgentRun` | grouping of findings and the agent's state machine with budgets, retries, a deadline and degradation |
| `AgentTrace`, `AgentSearch`, `AgentReasons`, `AgentOutcomes`, `AgentFailure`, `AgentReport` | where the texts, chunks, searches and human items of a run come from, why it was degraded, which findings it loses, which runs raise, and what a result gives the report |
| `ZipPath`, `ZipPlan`, `ZipExtract` | archive member names, metadata validation, bounded reads, extraction into a possibly case-folding file system |
| `Bindings` | static name resolution against a small semantics of straight-line Python |
| `Inheritance` | which classes derive from BaseModel: a loop until nothing changes |
| `RankFusion` | reciprocal rank fusion with exact scores |
| `DenseIndex`, `ChunkIndex` | building an index when every remote call may fail, also after taking effect; indexing what the chunker builds |
| `SingleFlight` | loading a model once under every interleaving of callers |
| `Citation`, `CitationFaults`, `Report`, `ReportRetry`, `ReportViews`, `ReportLimits` | the citation guard and its faults, when another choice is asked for, the final report item by item, and exactly when there is none |
| `Order`, `Wrappers` | sorting and orders; optional values, results, bytes |

Imperative code is modelled imperatively: loops with invariants proved against specification functions,
and classes (`FileSystem`, `Tree`, `FusionCandidate`, `Index`, `DenseIndexBuilder`, `E5Embedding`) for what the
program updates in place. Regular expressions are written out as matchers over `seq<char>`.

## What the proofs found

Several promises turned out to need a condition. Each comes with a concrete input on the other side.

* Dropping the recorded overlap and joining the chunks gives back every source if and only if
  `min_chars >= overlap_chars`; chunk ends rise on every source if and only if `min_chars > overlap_chars`
  (`ChunkLimits.LosslessIff`, `ChunkLimits.EndsRiseIff`). The constructor demands neither.
* The audit parses each chunk alone. That is the only check of it a build can fail, and only a chunk that begins within
  a line, where the rest of the line opens a fence, can fail it (`ChunkAudit.BuiltPassesAudit`, `ChunkAudit.RefusedChunk`).
  Every piece of a source that cuts no fence parses alone if and only if the source has no run of three fence characters
  outside its fences; such a source passes under every configuration (`ChunkPieces.PiecesParseIff`,
  `ChunkAudit.NoStrayRunPasses`). In a source without fences every such run with more than a hundred characters of its
  section after it makes the audit refuse some configuration (`ChunkStray.StrayRunRefusedSomewhere`), and for every
  configuration there is a source that is refused (`ChunkLimits.AuditRejectsSomeBuild`).
* When the clean-up of a publication works, a temporary file is left if and only if its write or sync was the failing
  operation. After a failure whose rollback counts as successful, everything is as before if and only if no removal of a
  target that did not exist before failed: such a failure is not noticed. The old bytes of a file are gone after a failure
  if and only if it had been replaced, its removal and its restore failed, and the clean-up removed its backup
  (`AtomicPublish.PublishFiles`, `AtomicPublish.TornTemporaryStays`, `AtomicPublish.NewBytesStayUnnoticed`,
  `AtomicPublish.OldBytesGone`).
* A provider may name its model with surrounding whitespace. The name is refused only when an explanation is made from
  it, where nothing catches the refusal: a run raises if and only if the completion of a group gets its step while the
  latest answer explains the group under such a name. Every run of a request hands over a result if and only if there is
  no group, no model to ask, or no more than three steps (`AgentFailure.RunRaisesIff`, `AgentFailure.PaddedProviderRaises`,
  `AgentFailure.AlwaysHandedOverIff`).
* The result model of an agent run wants at most one retry in all, but a run may retry once for each group. A finished
  run is accepted if and only if it retried at most once; among providers with stripped names every run of a request hands
  over a result if and only if there is at most one group, no model to ask, no retry allowed, or no more than four steps
  (`AgentRun.AcceptedIffFewRetries`, `AgentFailure.TidyHandedOverIff`).
* A finding is missing from the draft of a finished run if and only if the documentation search made for its group was
  answered with nothing. No finished run of a request loses a group if and only if there is no group, no model to ask, or
  no more than three steps (`AgentReport.FindingLostIff`, `AgentSearch.AlwaysDeliveredIff`).
* An index is built only from chunks whose texts the embedding request accepts: when calls work, a build succeeds if and
  only if point ids are distinct, nothing is stale, and no text is blank or begins with a prefix of the model's own
  (`DenseIndex.DenseIndexBuilder.Build`). The chunker builds blank chunks: a source that is blank up to its first heading
  is chunked under every configuration, may pass its audit, and can never be indexed (`ChunkIndex.BlankStartBlankChunk`,
  `ChunkIndex.IndexBlankStart`, `ChunkIndex.LineBreakPasses`).
* The resolver decides in the scope the language prescribes if and only if that scope binds the name before the use
  (`Bindings.DecidesInOwningScopeIff`, `Bindings.LocalBoundLater`). A proof holds whenever the use runs if and only if
  nothing from the use on binds the name to another value (`Bindings.ProofHoldsAlwaysIff`, `Bindings.RebindingAfterwards`).
  Equally named functions share one scope, and a local import shadowing a known class goes unnoticed
  (`Bindings.EquallyNamedFunctions`, `Bindings.ImportShadowsReceiver`).
* Being found by both retrievers always wins if and only if `rrf_k >= 7` (`RankFusion.BothAlwaysFirstIff`). With exact
  scores the total rank, the third part of the sort key, never decides: chunks with equal scores and equal best ranks have
  the same two ranks, and their ids decide (`RankFusion.OrderIff`).
* Another citation is asked for only if everything that was retrieved is genuine, chosen or not: one spoiled chunk is
  enough to keep the report from asking (`ReportRetry.AsksIff`).
* A failure handed to a caller is forgotten in every interleaving if and only if it is not a timeout. A loader that raises
  a timeout of its own stays on record; without a cancellation no loader starts again
  (`SingleFlight.HandedFailureClearsIff`, `SingleFlight.LoaderTimeoutIsKept`).
* An analysis gets no final report if and only if the audit of its citations has more than eighty items, a finding has more
  than five valid citations, or the human items are more than 700: one for each finding, one more for each finding without
  a usable explanation, and the other items of the analysis (`ReportLimits.BuildRefusedIff`, with an analysis for each
  refusal). Without explanations 351 findings are already too many (`ReportLimits.BareReport`). When an agent run hands
  something over only the last reason remains, with the agent's own human items counted alone
  (`AgentReport.ReportOfRunIff`).

## Model

| member | source | states |
|---|---|---|
| MarkdownParser.ParseSemanticSections | app/ingestion/markdown_chunker.py:554-609 | the line loop computes `Parse`, which `ParseCharacterized` pins down; errors for an empty source and an unclosed fence |
| MarkdownLines.LogicalLineIs | app/ingestion/markdown_chunker.py:573 | a logical line is its line without the carriage returns and newlines at its end |
| MarkdownLines.FenceOpenIff | app/ingestion/markdown_chunker.py:34 | a line opens a fence if and only if it is blanks, a longest run of at least three backticks or tildes, and anything |
| MarkdownLines.ClosesIff | app/ingestion/markdown_chunker.py:617-626 | a line closes a fence if and only if it is blanks, at least as many marks, and blanks |
| MarkdownLines.HeadingIff | app/ingestion/markdown_chunker.py:35 | a line is a heading if and only if it is at most three spaces, two or three marks, blanks, a title and blanks; its title is the normal form of that title |
| MarkdownLines.TitleIff | app/ingestion/markdown_chunker.py:612-614 | the normal form is the title without the blanks and marks that close it, stripped, and the heading marks if nothing is left |
| MarkdownStructure.StepKeepsFences | app/ingestion/markdown_chunker.py:566-600 | one line keeps: the recorded fences are all the closed fences so far and an open one has no closing line yet |
| MarkdownStructure.StepKeepsSections | app/ingestion/markdown_chunker.py:566-606 | one line keeps: sections so far partition the text before the current one, and the current path is the latest H2, plus H3, outside fences |
| MarkdownStructure.ParseCharacterized | app/ingestion/markdown_chunker.py:554-609 | parsing returns exactly the sections and fences that fit an independent description of the source, and fails exactly when no fences fit |
| MarkdownStructure.FencesUnique | app/ingestion/markdown_chunker.py:566-600 | the description of the fences leaves no choice |
| MarkdownStructure.SectionsUnique | app/ingestion/markdown_chunker.py:566-609 | the description of the sections leaves no choice |
| MarkdownStructure.FencedSourceParses | app/ingestion/markdown_chunker.py:598-600 | a source whose fences all close is never refused |
| MarkdownStructure.PartitionOrdered | app/ingestion/markdown_chunker.py:601-609 | sections are contiguous and in order |
| MarkdownStructure.SectionCutsAvoidFences | app/ingestion/markdown_chunker.py:566-609 | no section boundary falls strictly inside a fence |
| MarkdownStructure.FenceAfterLineBreak | app/ingestion/markdown_chunker.py:566-600 | a fence is non-empty and starts the source or follows a line break |
| Chunker.ChunkSection | app/ingestion/markdown_chunker.py:409-456 | the cursor loop terminates with the chunks of `ChunkSectionSpec`, which `ChunkChoice.ChunkFromIsCut` ties to the text and the fences; the errors for a stuck cursor and a cut fence are kept as results |
| ChunkProperties.BoundaryIsGood | app/ingestion/markdown_chunker.py:483-509 | a chosen boundary lies between the bounds and in no fence; without any, no oversized fence begins at the limit |
| ChunkProperties.EndAtIsGood | app/ingestion/markdown_chunker.py:458-509 | the end of a chunk always exists, advances, cuts no fence, and exceeds the limit only for one oversized fence: the error "hard split would cut fenced code" is unreachable |
| ChunkProperties.EndGrows | app/ingestion/markdown_chunker.py:458-509 | a chunk that begins with overlap ends beyond it when `min_chars` exceeds `overlap_chars` |
| ChunkProperties.ChunkFromIsGood | app/ingestion/markdown_chunker.py:409-456 | from any cursor the rest of a section is cut without error: starts rise, nothing is skipped, overlaps are none or exactly `overlap_chars` |
| ChunkProperties.ChunkAllIsGood | app/ingestion/markdown_chunker.py:409-456 | the chunks of all sections form one document from first to last character |
| ChunkChoice.ParagraphEndsAre | app/ingestion/markdown_chunker.py:36 | every paragraph end found is one, and no pair of newlines with only blanks between passes without one found by its end |
| ChunkChoice.LineEndsAre | app/ingestion/markdown_chunker.py:37 | line ends are the positions right after a newline |
| ChunkChoice.SentenceEndsAre | app/ingestion/markdown_chunker.py:38 | sentence ends are where the blanks stop that follow a terminator and its closing marks |
| ChunkChoice.WhitespaceEndsAre | app/ingestion/markdown_chunker.py:39 | whitespace ends are the positions where whitespace stops |
| ChunkChoice.EndsAtBoundary | app/ingestion/markdown_chunker.py:483-509 | with no fence across the limit the end is the last usable paragraph end, without one the last line end, then sentence end, then whitespace end, else the limit |
| ChunkChoice.StopsAtFence | app/ingestion/markdown_chunker.py:471-478 | with a fence across the limit the end is where that fence begins, or where it ends if it begins the chunk, and the next chunk must not overlap |
| ChunkChoice.ChunkFromIsCut | app/ingestion/markdown_chunker.py:409-456 | from any cursor each chunk ends as these say, and the next begins back over the overlap or, where that is forbidden, right at its end |
| ChunkChoice.BuiltIsCut | app/ingestion/markdown_chunker.py:279-345 | so is every chunk of every build |
| ChunkBuilder.Build | app/ingestion/markdown_chunker.py:279-328 | the build loops compute `BuildSpec`: parse, cut, number repeated identities |
| ChunkBuilder.IdentifiersDistinct | app/ingestion/markdown_chunker.py:287-306 | no two chunks share the data their identifier is hashed from |
| ChunkBuilder.BuildIsLossless | app/ingestion/markdown_chunker.py:409-456 | dropping each recorded overlap and joining gives the source back |
| ChunkBuilder.FenceInOneChunk | app/ingestion/markdown_chunker.py:458-509 | every fenced block lies whole in one chunk |
| ChunkBuilder.ChunkRespectsStructure | app/ingestion/markdown_chunker.py:409-509 | chunk edges cut no fence; a chunk over the limit is exactly one fence; each chunk lies in one section and carries its path |
| ChunkBuilder.ChunksAdvance | app/ingestion/markdown_chunker.py:409-456 | starts always rise, ends rise when `min_chars` exceeds `overlap_chars`, the recorded overlap is the real one |
| ChunkAudit.CoverageCounts | app/ingestion/markdown_chunker.py:683-696 | for rising starts, no gap and a full count hold if and only if every position is covered; the count is the number of covered positions |
| ChunkAudit.IntervalIsCovered | app/ingestion/markdown_chunker.py:764-778 | decides whether every position of an interval is covered |
| ChunkAudit.ProseBlocks | app/ingestion/markdown_chunker.py:662-672 | prose blocks tile their interval and are cut exactly after each paragraph boundary |
| ChunkAudit.SourceBlocks | app/ingestion/markdown_chunker.py:646-659 | source blocks tile the source, include every fence, and end exactly at fences and after the paragraph boundaries of the prose between them |
| ChunkAudit.HoldsFenceIff | app/ingestion/markdown_chunker.py:700-708 | a fence counts as preserved if and only if one chunk has every position of it |
| ChunkAudit.AuditChunks | app/ingestion/markdown_chunker.py:675-761 | the audit computes `Verdict` over texts, coverage, fences and re-parsing; it reports the number of chunks, and as source blocks, all covered, the number of places where a block ends |
| ChunkAudit.BuiltIsArtifact | app/ingestion/markdown_chunker.py:88-174 | built chunks meet the whole contract: headings not blank, spans as long as their texts, overlap none or the configured one and none at index 0, distinct identities, rising starts; and they match the source |
| ChunkAudit.BuiltCovers | app/ingestion/markdown_chunker.py:683-696 | built chunks cover every position |
| ChunkAudit.BuiltKeepsFences | app/ingestion/markdown_chunker.py:698-710 | built chunks preserve every fence |
| ChunkAudit.BuiltPassesAudit | app/ingestion/markdown_chunker.py:675-761 | a build fails no check of the audit but the parsing of chunks, and passes exactly when each chunk that begins at a stray opener parses alone |
| ChunkPieces.CleanPieceParses | app/ingestion/markdown_chunker.py:554-609 | a piece that cuts no fence and begins a line, or opens no fence with its first line, parses alone into exactly the fences in it |
| ChunkPieces.RefusedPiece | app/ingestion/markdown_chunker.py:554-609 | a piece that cuts no fence and does not parse begins within a line whose rest opens a fence |
| ChunkPieces.PiecesParseIff | app/ingestion/markdown_chunker.py:554-609 | every piece that cuts no fence parses alone if and only if no run of three fence characters stands outside the fences |
| ChunkAudit.RefusedChunk | app/ingestion/markdown_chunker.py:711-712 | a built chunk that does not parse begins within a line whose rest opens a fence |
| ChunkAudit.NoStrayRunPasses | app/ingestion/markdown_chunker.py:711-712 | a source without a stray run of fence characters passes the audit under every configuration |
| ChunkAudit.OversizedIsCode | app/ingestion/markdown_chunker.py:726-732 | a built chunk over the limit parses alone, as one fence and nothing else |
| ChunkLimits.LosslessIff | app/ingestion/markdown_chunker.py:409-456 | every source is rebuilt if and only if `min_chars >= overlap_chars` |
| ChunkLimits.EndsRiseIff | app/ingestion/markdown_chunker.py:409-509 | ends rise on every source if and only if `min_chars > overlap_chars` |
| ChunkLimits.TrickyRepeats | app/ingestion/markdown_chunker.py:409-509 | the source on which text is repeated when `min_chars < overlap_chars` |
| ChunkLimits.AuditRejectsSomeBuild | app/ingestion/markdown_chunker.py:711-712 | for every configuration, a source whose build the audit refuses for an unclosed fence |
| ChunkStray.UnfencedPassesIff | app/ingestion/markdown_chunker.py:711-712 | a build of a source without fences passes its audit if and only if no chunk begins within a line whose rest opens a fence |
| ChunkStray.StrayRunRefusedSomewhere | app/ingestion/markdown_chunker.py:409-509 | in a source without fences, a run of three fence characters with more than a hundred characters of its section after it makes some configuration build chunks the audit refuses |
| AtomicPublish.FileSystem.Replace | app/evaluation/artifacts.py:18-19 | an atomic move, or a failure that changes nothing |
| AtomicPublish.WriteTemporaries | app/evaluation/artifacts.py:41-48 | complete temporaries up to the first failure, everything else untouched |
| AtomicPublish.SwapIn | app/evaluation/artifacts.py:50-56 | how far backups and targets have come when an operation fails |
| AtomicPublish.TakeAwaySafe | app/evaluation/artifacts.py:51-54 | moving a target to its backup loses nothing |
| AtomicPublish.PutInPlaceSafe | app/evaluation/artifacts.py:55 | moving a temporary over its target loses nothing |
| AtomicPublish.RemoveReplaced | app/evaluation/artifacts.py:57-62 | removing replaced targets loses nothing that existed before |
| AtomicPublish.RestoreBackups | app/evaluation/artifacts.py:63-70 | without failure every target that existed has its old bytes again |
| AtomicPublish.RollBack | app/evaluation/artifacts.py:57-74 | restores everything when its own operations work |
| AtomicPublish.CleanUp | app/evaluation/artifacts.py:75-86 | removes only temporaries and backups of targets that exist, whatever fails; when nothing fails, all of them; whether each backup is left, by the operation that would remove it |
| AtomicPublish.PublishFiles | app/evaluation/artifacts.py:22-86 | succeeds exactly when no operation of the attempt fails, with new bytes everywhere; after a failure whose restores work everything is as before if and only if no removal of a new target failed; old bytes are gone if and only if removal and restore failed and the backup was cleaned up; in every intermediate state old or new bytes of each target survive; when the clean-up works a temporary is left if and only if its write or sync failed, and nothing else after success |
| AtomicPublish.TornTemporaryStays | app/evaluation/artifacts.py:41-48 | one failing write is enough to leave a temporary behind |
| AtomicPublish.NewBytesStayUnnoticed | app/evaluation/artifacts.py:57-62 | a rollback that counts as successful and leaves new bytes in a new target |
| AtomicPublish.OldBytesGone | app/evaluation/artifacts.py:57-86 | three failing operations after which the old bytes of a file are nowhere |
| AgentGrouping.PrepareAmbiguousGroups | app/agent/graph_models.py:504-555 | the loops compute the packed grouping of the findings in order, refuse duplicates and bad limits, and split it into selected groups and overflow |
| AgentGrouping.PackedUnique | app/agent/graph_models.py:520-544 | order and packing leave no choice of groups |
| AgentGrouping.GroupingIsCanonical | app/agent/graph_models.py:514-544 | the groups do not depend on the order of the findings |
| AgentGrouping.GroupsPartitionFindings | app/agent/graph_models.py:504-555 | groups and overflow list every finding exactly once; only a full selection overflows |
| AgentGrouping.GroupsAreHomogeneous | app/agent/graph_models.py:520-544 | a group holds 1 to 100 findings of one path and rule in strictly ascending order |
| AgentGrouping.GroupsAscend | app/agent/graph_models.py:199-206 | the groups ascend strictly by path, rule and first finding, as the model's validator wants |
| AgentGrouping.PreparationIsWellPrepared | app/agent/graph_models.py:504-555 | what preparation returns meets everything a run relies on |
| AgentGrouping.NoFindingLost | app/agent/graph.py:634-717 | in any settled state each finding is in an explanation, a candidate or a human item, unless its group is recorded as searched in vain, which `EmptySearchIff` ties to the reply |
| AgentGraph.RunAttempts | app/agent/graph.py:320-385 | the retry loop of one group ends as `Attempts` says, which `AgentReasons.AttemptsTried` ties to the clock and the replies |
| AgentReasons.AttemptsTried | app/agent/graph.py:320-385 | look by look: each retry follows a fault the clock still allowed to be made good; the loop ends with a decision about the group, at the deadline, or with the fault of the last reply |
| AgentInvariants.PrepareKeeps | app/agent/graph.py:249-291 | preparation establishes the invariant of the run |
| AgentInvariants.LlmDecideKeeps | app/agent/graph.py:293-395 | deciding keeps counters, budgets and the account of every group |
| AgentInvariants.ValidateActionKeeps | app/agent/graph.py:397-436 | validating an action keeps the invariant |
| AgentInvariants.ExecuteToolKeeps | app/agent/graph.py:438-534 | a tool call keeps the invariant; bindings hold retrieved chunks only |
| AgentInvariants.CompleteGroupKeeps | app/agent/graph.py:536-581 | finishing a group keeps the invariant, or raises exactly when it has its step and the explanation comes under a model name with surrounding whitespace |
| AgentInvariants.DegradeAccounts | app/agent/graph.py:634-675 | degradation hands every unfinished group to a human |
| AgentInvariants.VisitKeeps | app/agent/graph.py:249-609 | every node visit keeps the invariant or raises, and it raises exactly at such an explanation: no internal error is reachable |
| AgentRun.RunEnds | app/agent/graph.py:162-177 | every run ends, or has raised for a model name, within `max_steps + 3` visits, inside the recursion limit |
| AgentRun.Run | app/agent/graph.py:162-214 | whatever the model, tools, clock and overall timeout do, the run stops at the first visit the timeout cuts, the first visit that raises, or the end; a result that is handed over accounts for every group unless its search was empty, sends every overflow finding to a human and passes the result model; an error is a padded model name or a second retry |
| AgentRun.CounterLaws | app/agent/graph.py:293-395 | reviewed ids are the first groups in order without repeats; model calls are groups plus retries, one less only at the deadline; at most one tool call a group |
| AgentRun.BudgetsSuffice | app/agent/graph.py:611-632 | with steps for three per group and one, and a tool call per group, neither limit is ever hit |
| AgentRun.DefaultLimitsSuffice | app/agent/graph_models.py:93-117 | the default limits are such limits |
| AgentRun.TimeoutDelivers | app/agent/graph.py:677-717 | the overall timeout still delivers every prepared group and overflow finding, to a human, for the timeout or as overflow, and nothing else |
| AgentTrace.DecisionAnswered | app/agent/graph.py:320-370 | a decision is word for word an answer the model gave in this call |
| AgentTrace.VisitKeepsTrace | app/agent/graph.py:249-609 | every visit keeps the origin of texts, chunks and bindings |
| AgentTrace.RunTraced | app/agent/graph.py:457-581 | throughout every run the candidates are exactly the retrieved chunks, at most five a call, each explanation is an answer about its group under a stripped name, each human item without a group is about overflow |
| AgentReasons.ReasonsAre | app/agent/graph.py:249-534 | a finished run is degraded for switched-off review, a missing model, a fault of the model or a failing tool if and only if the request, the last reply or the last call says so, with the deadline taking precedence; every other reason has its cause; every group not done is with a human for that reason |
| AgentReasons.RunReasons | app/agent/graph.py:249-675 | at every point of every run nothing but the reason on record stands against the last reply and tool call |
| AgentOutcomes.RunOutcomes | app/agent/graph.py:293-675 | at every point of every run each group done was done as a reply about it decided, each human item comes from such a reply, the overflow or the end of the run, and the error log has one error for each retry and one, of the right node and group, for what broke the run off |
| AgentSearch.RunSearched | app/agent/graph.py:438-534 | throughout every run each tool call is logged for one group, no group has two, and each binding is what the search for its own group found |
| AgentSearch.EmptySearchIff | app/agent/graph.py:478-510 | the record shows an empty search for a group if and only if the search made for it was answered with nothing |
| AgentSearch.AccountedIff | app/agent/graph.py:162-214 | after a finished run a group is accounted for if and only if no search for it was answered with nothing |
| AgentSearch.AlwaysDeliveredIff | app/agent/graph.py:478-510 | every finished run of a request accounts for every group if and only if there is no group, no reviewing model, or no more than three steps |
| AgentSearch.FruitlessSearchLoses | app/agent/graph.py:478-510 | a world in which the first group of any reviewable request is lost |
| AgentReport.FindingLostIff | app/agent/graph.py:478-510 | a finding is missing from the draft of a finished run if and only if the search for its group was answered with nothing |
| AgentReport.FindingsLost | app/agent/graph.py:478-510 | a world in which every finding of the first group of a reviewable request is lost |
| AgentReport.RunIsValid | app/agent/graph_models.py:335-406 | what a run hands over meets everything the report relies on, with one binding a group and every chunk chosen |
| AgentReport.ReasonsSpelledApart | app/agent/graph_models.py:54-66 | no two reasons are spelled alike |
| AgentReport.ReportOfRunIff | app/reporting/builder.py:77-142 | the report of what a run hands over, finished or cut short, is refused if and only if the agent's own human items, one item for each finding and one more for each finding without a usable explanation are more than 700 |
| AgentRun.AcceptedIffFewRetries | app/agent/graph_models.py:335-406 | a finished run passes the result model if and only if it retried at most once |
| AgentRun.AlwaysAcceptedIff | app/agent/graph_models.py:363 | every finished run of a request passes if and only if there is at most one group, no reviewing model, no retry allowed, or no more than four steps |
| AgentFailure.RunRaisesIff | app/agent/graph.py:536-581 | a run raises if and only if the completion of a group gets its step while the latest answer explains the group under a name with surrounding whitespace |
| AgentFailure.PaddedProviderRaises | app/agent/graph_models.py:253-258 | a provider under which the run of any reviewable request with a group and four steps raises |
| AgentFailure.AlwaysHandedOverIff | app/agent/graph.py:162-177 | every run of a request hands over a result if and only if there is no group, no reviewing model, or no more than three steps |
| AgentFailure.TidyHandedOverIff | app/agent/graph.py:162-177 | among providers with stripped names, every run of a request hands over a result if and only if no run can retry twice |
| ZipPath.CanonicalizeMemberPath | app/security/zip_guard.py:200-223 | the component loop accepts exactly the admissible names and returns their path |
| ZipPath.CanonicalIsWellFormed | app/security/zip_guard.py:200-232 | an accepted path is relative, never climbs, and each component is portable |
| ZipPath.AdmissibleNames | app/security/zip_guard.py:200-232 | an accepted name is no absolute or drive path, and no component climbs, has a separator, colon or control character, ends in a space or dot, or is reserved |
| ZipPath.SuffixIs | app/security/zip_guard.py:446-448 | the suffix is what follows the last dot inside the name, with the dot |
| ZipPath.CanonicalRoundTrip | app/security/zip_guard.py:200-223 | canonicalising the written form of a path gives the path back if and only if it is well formed |
| ZipPath.JoinInjective | app/security/zip_guard.py:200-223 | different well-formed paths are written differently |
| ZipPlan.Classify | app/security/zip_guard.py:467-490 | a member is accepted if and only if it is unencrypted, of a supported compression, no label, and its type agrees with how it is marked; encryption has its own error, all else is an unsafe type |
| ZipPlan.SizeFault | app/security/zip_guard.py:493-509 | sizes pass if and only if they are within limit and ratio, and zero for directories; each error is given exactly for its own cause |
| ZipPlan.HasFileAncestor | app/security/zip_guard.py:512-520 | finds a file that sits above another member if and only if there is one |
| ZipPlan.ValidateAllMetadata | app/security/zip_guard.py:404-464 | the loop accepts only archives that meet every check together, and an error names the first thing that is wrong |
| ZipPlan.AcceptedIsNotRejected | app/security/zip_guard.py:404-464 | no archive is both: the loop accepts exactly the sound archives |
| ZipExtract.ReadMember | app/security/zip_guard.py:588-616 | bounded reads return exactly the content or the right limit error, taking at most one byte beyond the limit |
| ZipExtract.ReadAll | app/security/zip_guard.py:523-585 | succeeds if and only if contents have their declared sizes, Python files are UTF-8 and lines stay within the limit; an error names the first thing that is wrong; the final total check never fires |
| ZipExtract.Tree.MakeParents | app/security/zip_guard.py:625 | creates the missing ancestors, or fails at a file |
| ZipExtract.Tree.CreateExclusive | app/security/zip_guard.py:637-641 | creates a file where nothing exists and its directory does |
| ZipExtract.ExtractPayloads | app/security/zip_guard.py:619-641 | from an empty root succeeds if and only if no payload's name equals or lies above another's in that file system, leaving exactly the payloads and their directories |
| ZipExtract.PayloadsSeparate | app/security/zip_guard.py:404-520 | payloads of accepted metadata never meet under collision keys |
| ZipExtract.SeparateOnAnyFileSystem | app/security/zip_guard.py:235-239 | nor in any file system that identifies only names with equal collision keys |
| ZipExtract.SortedPayloads | app/security/zip_guard.py:153-168 | sorting by name keeps them apart and gives the strict order the inventory wants |
| ZipExtract.ValidateAndExtract | app/security/zip_guard.py:264-289 | an archive is extracted if and only if metadata and contents pass; returned, and alone on disk, are exactly the regular members with the Python suffix in no ignored directory, with their paths, bytes and lines; an error names what is wrong first and leaves the root empty |
| ZipExtract.PayloadsAreWanted | app/security/zip_guard.py:404-464 | the payloads of accepted metadata are exactly those members, each once |
| ZipExtract.HeldOnDisk | app/security/zip_guard.py:619-641 | a tree that holds these payloads has each such member as a file with its bytes, and nothing else but the directories above |
| Bindings.AccessibleScopes | app/scanner/rule_scanner.py:544-553 | the loop returns the names of the visible scopes |
| Bindings.VisibleScopesAre | app/scanner/rule_scanner.py:544-553 | nearest first: the scope, exactly the enclosing functions, the module, never an enclosing class (Python Language Reference, section 4.2.2) |
| Bindings.CanonicalDenotes | app/scanner/rule_scanner.py:1030-1050 | the canonical reference is what executing the import makes of the reference |
| Bindings.ProofIffDenotes | app/scanner/rule_scanner.py:226-281 | for straight-line code a proof is given if and only if one earlier binding decides and execution makes the reference denote exactly the target |
| Bindings.LaterBindingsIrrelevant | app/scanner/rule_scanner.py:266-273 | bindings after the use, or of other names, never change the answer |
| Bindings.EarlierBindingOnlyRemoves | app/scanner/rule_scanner.py:274-276 | one more earlier binding in the deciding scope leaves no proof |
| Bindings.DecidesInOwningScopeIff | app/scanner/rule_scanner.py:249-281 | the resolver decides in the scope the language assigns if and only if that scope binds the name before the use |
| Bindings.LocalBoundLater | app/scanner/rule_scanner.py:249-281 | a name bound in the function only after its use gets a proof about the module |
| Bindings.ProofHoldsIff | app/scanner/rule_scanner.py:266-281 | with the proved import executed, the reference denotes the target if and only if the last executed binding of the name has its value |
| Bindings.ProofHoldsAlwaysIff | app/scanner/rule_scanner.py:266-281 | a proof holds at every later time if and only if nothing from the use on binds the name to another value |
| Bindings.EquallyNamedFunctions | app/scanner/rule_scanner.py:246-281 | two functions of one name share events: a proof without any binding in the language's scopes |
| Bindings.RebindingAfterwards | app/scanner/rule_scanner.py:266-273 | a proof inside a function outlives a later rebinding of the module name |
| Bindings.ReceiverProofDecidesIff | app/scanner/rule_scanner.py:481-513 | a receiver proof is about the deciding binding if and only if no earlier import of the name is in its scope or a nearer one |
| Bindings.ReceiverIff | app/scanner/rule_scanner.py:481-513 | some scope has decided if and only if one has an earlier local binding; the nearest such scope gives a proof if and only if it has just one and that is of known type |
| Bindings.ReceiverProvedIff | app/scanner/rule_scanner.py:650-661 | imports are asked if and only if no accessible scope binds the name locally before |
| Bindings.ImportShadowsReceiver | app/scanner/rule_scanner.py:409-513 | a local import that shadows a known class goes unnoticed |
| Inheritance.DirectIff | app/scanner/ast_scanner.py:779-787 | a base is direct if and only if it is an alias or `BaseModel` of a module alias |
| Inheritance.ResolveLocalIff | app/scanner/ast_scanner.py:758-776 | a reference resolves to the only class of its name in the nearest enclosing scope that has any |
| Inheritance.FlaggedParent | app/scanner/ast_scanner.py:726-737 | finds a flagged earlier base if and only if there is one |
| Inheritance.ResolveClassInheritance | app/scanner/ast_scanner.py:705-739 | the loop flags exactly the derived classes with the right evidence, and its second pass changes nothing |
| Inheritance.DerivedIffChain | app/scanner/ast_scanner.py:720-738 | a class is flagged if and only if a strictly descending chain of local bases reaches a direct module-level subclass |
| Inheritance.FlaggedIsLeastFixpoint | app/scanner/ast_scanner.py:720-739 | the flagged classes are the least set closed under both rules |
| Inheritance.NoEvidenceIffNotDerived | app/scanner/models.py:104-109 | evidence is none if and only if no chain exists, so every class record is accepted |
| RankFusion.ComponentFacts | app/retrieval/hybrid.py:145-156 | an accepted component has at most eight hits, distinct chunks, distinct ranks from 1 to 8 |
| RankFusion.ComponentIff | app/retrieval/hybrid.py:145-156 | a component is accepted if and only if it has at most eight hits, distinct chunks, and every rank from 1 to their number |
| RankFusion.Absorb | app/retrieval/hybrid.py:175-193 | one hit updates one candidate object and no other |
| RankFusion.Fuse | app/retrieval/hybrid.py:159-228 | succeeds if and only if parameter, components and provenance fit; the result ranks the union, in the order `OrderIff` states, at most 16, with its first three as top results |
| RankFusion.RankingIsUnion | app/retrieval/hybrid.py:178-223 | the ranked ids are the union of both lists, each once |
| RankFusion.RankingIgnoresListOrder | app/retrieval/hybrid.py:179-210 | rearranging either list changes nothing |
| RankFusion.RankingIsSymmetric | app/retrieval/hybrid.py:195-210 | exchanging the lists exchanges the evidence and leaves the order alone |
| RankFusion.DominancePrecedes | app/retrieval/hybrid.py:193-210 | a chunk at least as well ranked in both lists always precedes |
| RankFusion.OrderIff | app/retrieval/hybrid.py:195-210 | on ranks and ids alone: of two chunks the one with the greater sum of shares precedes, at equal sums the one with the better best rank, and at the same two ranks the one with the smaller id; the total rank never decides |
| RankFusion.SamePairById | app/retrieval/hybrid.py:195-210 | two chunks with the same two ranks, in either order, stand in the order of their ids |
| RankFusion.BestRankDecides | app/retrieval/hybrid.py:195-210 | with k 1 rank 1 alone precedes ranks 2 and 5, which weigh as much |
| RankFusion.BothAlwaysFirstIff | app/retrieval/hybrid.py:166-210 | chunks in both lists always precede chunks in one if and only if `rrf_k >= 7` |
| DenseIndex.UpsertStores | app/ingestion/dense_index.py:184-192 | a batch stored whole has each of its chunks under its point id |
| DenseIndex.BatchAdds | app/ingestion/dense_index.py:172-193 | a batch stored in part adds only points of the artifact and deletes none |
| DenseIndex.DenseIndexBuilder.StoreBatches | app/ingestion/dense_index.py:170-193 | all chunks stored in the right number of batches and each text embeddable, or an error: a text the request refuses, or what the last call came to |
| DenseIndex.DenseIndexBuilder.Build | app/ingestion/dense_index.py:153-209 | ready implies the index holds exactly the artifact, each chunk with the vector of its text; each error has its exact cause or the call to blame, and after each but a collision or a failing store the index is marked not built; when calls work, success if and only if point ids are distinct, nothing is stale and every text is embeddable |
| DenseIndex.DenseIndexBuilder.BuildAll | app/ingestion/dense_index.py:153-209 | over any sequence of builds and failures, ready implies the index holds the last completed artifact |
| ChunkIndex.BlankStartBlankChunk | app/ingestion/markdown_chunker.py:279-328 | under every configuration the first chunk of a source that is blank up to its first heading is blank |
| ChunkIndex.IndexBlankStart | app/ingestion/dense_index.py:170-176 | no build of an index over the chunks of such a source succeeds, whatever works |
| ChunkIndex.LineBreakFirst | app/core/embedding.py:48-58 | a line break before the first heading is enough |
| ChunkIndex.LineBreakPasses | app/ingestion/markdown_chunker.py:675-712 | its chunks pass the audit under every configuration |
| SingleFlight.E5Embedding.Begin | app/core/embedding.py:260-266 | the locked section of a call is `BeginLoad` |
| SingleFlight.E5Embedding.PublishLoaded | app/core/embedding.py:346-350 | the locked section of the task sets model and metadata together |
| SingleFlight.E5Embedding.ForgetFailedTask | app/core/embedding.py:352-358 | the locked section that forgets a finished task |
| SingleFlight.SingleFlightAlways | app/core/embedding.py:257-358 | in every interleaving at most one loader runs, and model and metadata come together from the one task that succeeded |
| SingleFlight.NoLoadAfterSuccess | app/core/embedding.py:261-262 | after success nothing is loaded or set again and calls return at once |
| SingleFlight.ForgottenForGood | app/core/embedding.py:257-279 | a task off the record never returns to it |
| SingleFlight.HandedFailureClearsIff | app/core/embedding.py:268-279 | in every interleaving a failure handed to a call is off the record for good once the call has had its turn, and no later call awaits it, if and only if it is not a timeout |
| SingleFlight.CancelledClearsIff | app/core/embedding.py:277-279 | a cancelled call takes the task off the record for good if it is done, and leaves it to the others if it is not |
| SingleFlight.CallsHaveReasons | app/core/embedding.py:257-279 | in every interleaving what a call reports has its reason: the published metadata, its own expiry or cancellation, or a load that failed with a timeout or otherwise |
| SingleFlight.LoaderTimeoutIsKept | app/core/embedding.py:270-273 | without a cancellation a loader's own timeout is kept forever |
| SingleFlight.LoaderTimeoutReached | app/core/embedding.py:270-273 | a first loader raising a timeout is enough to get there |
| Citation.ProvenanceIff | app/reporting/citation.py:359-387 | a retrieved chunk is genuine if and only if it has the trusted origin and a declared prefix of the trusted text |
| Citation.Validate | app/reporting/citation.py:73-165 | the four loops give the guard's result, whose items, citations and allowlist `CitationFaults.ItemsAre`, `CitationsExactly` and `AllowlistExactly` determine, or refuse it for its size |
| Citation.VerdictIff | app/reporting/citation.py:167-318 | a candidate is valid if and only if it is of this analysis, fits its group, findings and rule, is named once, and its chunk is genuine, retrieved here, brought by exactly one fitting binding and on topic |
| CitationFaults.FaultIff | app/reporting/citation.py:167-318 | each fault, and whether choosing again could help, in terms of the analysis: only for a forged chunk and for one that is right but off the topic |
| CitationFaults.SpoiledIs | app/reporting/citation.py:359-387 | the fault of a retrieved chunk names the first thing in which it departs from the trusted one |
| CitationFaults.ItemsAre | app/reporting/citation.py:109-158 | the items are one for each candidate, with its fault, each group without a candidate, and each spoiled chunk nobody chose, and no others |
| CitationFaults.ItemsWithoutLibrary | app/reporting/citation.py:403-416 | without a library every group has the same fault and nothing can be chosen again |
| CitationFaults.CitationsInOrder | app/reporting/citation.py:152-157 | citations stand in the order of group and chunk |
| Citation.CitationsExactly | app/reporting/citation.py:109-157 | the citations are those of the valid candidates, all and only |
| Citation.AllowlistExactly | app/reporting/citation.py:86-101 | the allowlist is the genuine retrieved chunks, strictly sorted |
| Citation.GuardAlwaysAccepted | app/reporting/models.py:148-174 | the result always passes its own sorted, unique and allowlisted checks |
| ReportLimits.ItemsCounted | app/reporting/models.py:144-146 | the audit has an item for each candidate, each group without one, and each spoiled chunk nobody chose |
| ReportLimits.GuardWithinLimitsIff | app/reporting/models.py:141-146 | the guard's result fits its model if and only if it has at most eighty items |
| AgentReport.FewItems | app/reporting/models.py:144-146 | at most 48 items when every retrieved chunk was chosen, as `RunIsValid` shows of a run |
| Report.RetryOnce | app/reporting/builder.py:157-248 | asks about the first eligible item's group with its old APIs and the allowlist; none of its lookups fails |
| Report.RetryKeepsOtherFindings | app/reporting/builder.py:240-248 | a retry leaves the report of every finding outside the group it asked about exactly as it was |
| Report.RetryHasGroup | app/reporting/builder.py:162-171 | a retry always finds an eligible item whose group is in the analysis |
| Report.RetryFrame | app/reporting/builder.py:234-248 | every valid citation of another group is unchanged, the retried group has at most one, the allowlist is the same |
| Report.Build | app/reporting/builder.py:77-142 | at most one retry, asked for as `ReportRetry.BuildAsks` says; the report of the guarded analysis, or one of three refusals, which `BuildRefusedIff` ties to the analysis |
| ReportRetry.AsksIff | app/reporting/builder.py:144-155 | another choice is asked for if and only if there is a library and a model that may be asked, something was retrieved and all of it is genuine, some group has nothing valid, and every candidate is valid, forged or off the topic |
| ReportRetry.AskedGroupIs | app/reporting/builder.py:162-171 | the group asked about is the eligible one with the least id |
| ReportRetry.BuildAsks | app/reporting/builder.py:77-248 | a report counts one retry if and only if another choice was asked for; the question is about that group, its old APIs and every retrieved chunk in order; the report is made from the analysis as it is, or with the answer if that keeps to the group |
| ReportViews.ViewShows | app/reporting/builder.py:90-117 | each finding shows the text of the first usable explanation that covers it and all valid citations that name it, in the order of their chunks |
| ReportViews.HumanReviewIs | app/reporting/builder.py:290-332 | the human items are the first of each key of the analysis, and for each finding those about its text and citations, under its group, whose key the analysis does not have |
| ReportViews.HumanReviewOrdered | app/reporting/builder.py:324-332 | they stand in the order of group, findings and reason |
| Report.ExplainedIff | app/reporting/builder.py:251-271 | a finding gets a model text if and only if a safe explanation of its group's exact findings exists, and then the first such text |
| Report.EveryFindingReviewed | app/reporting/builder.py:290-332 | merging keeps every human item of the analysis, gives every finding the item its citations call for, and invents none |
| ReportLimits.BuildRefusedIff | app/reporting/models.py:268-270 | no report if and only if the audit has more than eighty items, a finding more than five valid citations, or the human items, counted from the analysis, are more than 700 |
| ReportLimits.RetryStaysWithin | app/reporting/builder.py:77-90 | the second guarding is never refused for its size |
| ReportLimits.TooManyFindings | app/reporting/models.py:268-270 | more than 700 findings leave no report |
| ReportLimits.BareReport | app/reporting/models.py:268-270 | without explanations and groups there is a report if and only if there are at most 350 findings |
| ReportLimits.ScatteredReport | app/reporting/models.py:144-146 | an analysis whose audit has 81 items |
| ReportLimits.CrowdedReport | app/reporting/models.py:227 | an analysis with six valid citations for one finding |
| ReportLimits.HumanItemCount | app/reporting/builder.py:290-332 | how many human items a report has |
| ReportLimits.CitationCount | app/reporting/citation.py:109-157 | a finding has as many citations as valid candidates name it |
| Report.HumanItemsKnown | app/reporting/models.py:306-311 | human items name findings of the report only |
| Report.CitationsOfFinding | app/reporting/models.py:230-242 | a finding's citations name it, share its rule and group, and have different chunks |
| ReportLimits.AtMostFiveCitations | app/reporting/models.py:227 | at most five citations a finding when each group has one search, as `RunIsValid` shows of a run |

## Left out

- Hashes (SHA-256, UUIDv5) stand for what they are computed from, or are injective functions given as parameters.
- Case folding, Unicode normalisation, reserved Windows names, UTF-8 decoding and the keyword tables are function parameters.
- `ChunkAudit.BuiltIsArtifact`: the identity of the source, copied into every chunk from one manifest, is not modelled, nor are the audit's statistics beyond coverage, fences and blocks.
- The model, the tools, the clock, embeddings and remote stores are oracles; a documentation search is taken to return at most five distinct chunks. Exceptions a client or a tool raises outside its own protocol, and the limit on the length of a prompt, are not modelled.
- `AtomicPublish`: directories, symbolic links and path resolution are not modelled, `exists` never fails, the transaction identifier is new, targets are given sorted and resolved.
- `ChunkAudit.NoStrayRunPasses`: the condition is sufficient; which runs near the end of a section a configuration can begin a chunk at is not characterised.
- `AtomicPublish`: bytes that reach the file but not the disk are not modelled; a write either completes or leaves a prefix.
- `AgentGraph`: node functions are values, as the source returns updates to an immutable state; tool results other than searches carry no content.
- `AgentGrouping.PrepareAmbiguousGroups`: takes findings in any order and skips the initial sort by location, which `GroupingIsCanonical` shows makes no difference.
- `ZipExtract.ExtractPayloads`: symbolic links and `resolve` are not modelled, nor are disk errors other than name clashes and the removal of the temporary directory.
- `ZipExtract`: reading the archive file, the ZIP container format and the inventory counters are not part of this model.
- `Bindings.ProofIffDenotes`: star imports bind unknown names in Python, while the resolver and this model treat `*` as a name; code with star imports, branches, loops and exceptions is outside the semantics.
- `Bindings`: collecting events from the syntax tree is not modelled; events are given.
- `Bindings.ProofHoldsAlwaysIff`: a scope's bindings run in the order of the text, each at its own position.
- `Inheritance`: the alias sets are given, not collected from imports.
- `RankFusion`: scores are exact reals, not floats; component scores are carried along; query validation is not part of this model.
- `DenseIndex`: an artifact may have no chunks; builds run one after another; two builds at once are not modelled. Vectors are those of an embedding function when the replies can be relied on.
- `SingleFlight`: the background task itself is never cancelled; model contract checks are failures of the loader; inference is not part of this model.
- `Citation`: loading and auditing the trusted bundle yields the library or nothing; the third component of the citation key never decides and is not compared.
- `Report`: importer relations, repository summary, status text and rendering are not part of this model; explanations are texts or the template.
- The command-line entry points, HTTP routes, configuration, logging, BM25 scoring, metric formulas and evaluation scripts would only add easy members.
