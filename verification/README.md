# Project Knowledge, modelled in Dafny

The program ingests GitLab projects into versioned snapshots and serves them to readers while it works.
This project models three parts of it and proves what they keep.

**Ingestion.** A snapshot goes from in progress to completed or failed; one pointer names the snapshot that
readers see; one running slot admits one job at a time. `StoreModel` has the tables as values,
`KnowledgeStore.dfy` and `Coordinator.dfy` have the store, the catalog, the job handle and the coordinator as
objects over flat tables, proved against those values. `Protocol` is a transition system: any number of full and
single-project refreshes, shutdowns and stray handle calls interleave, and a guarded write is two steps, its status
check and its statement. `ProtocolInvariant` has the inductive invariant, `ProtocolTheorems` what follows for every
run, `ReaderTheorems` the readers and `PageGraph` the page that makes two reads. `SoloRuns` shows that an uninterrupted
job of the transition system leaves exactly what the methods of the objects leave, and `Outcomes` says when those
complete and when they leak the slot, `AfterRefresh` what every reader answers then, and `Payloads` where, in any run,
the stored payloads come from. A shutdown's abort is one step in `Protocol`; `SplitAbort` takes it apart and
says exactly which runs still keep what readers rely on. Scheduler ticks and the start-up thread are jobs like any other.

**The dependency graph and its two encodings.** `DependencyGraph` has what the builders' loops list and what the list
means, `GraphBuilders` the two builders, `Mermaid` and `ScriptJson` the texts, and `GraphReaders` what a reader of each
gets back, when the two agree, and when that is the whole graph.

**Merging analysis results.** `FirstOccurrences`, `IoLocations`, `IoMerge`, `DbTables`, `GoServices`, `SdkServices`,
`Conflicts`, `GoFilter` and `Purpose`. `Base`, `Ordering`, `Text`, `Models` and `Readers` are shared.

`dafny verify dfyconfig.toml` checks everything.

## Where the code does less than its comments say

- `abort_snapshot` checks the status and then updates without a guard on it, unlike `commit_snapshot`. The update breaks
  a promise exactly when it hits a completed snapshot, current or not (`StoreModel.UnguardedFailIsSafeIff`). A job's own
  abort never does; a shutdown's does when the job commits between the check and the update
  (`SplitAbort.MarkHitsTheCurrentSnapshot`), and runs keep their promises exactly when none does
  (`SplitAbort.PromisesKeptIff`).
- A started job gives the slot back when it commits, when GitLab answers with an authentication or group-not-found error,
  and when its project is gone, even if failing the snapshot raises on the way. Any other exception leaks the slot for the
  life of the process (`Outcomes.FullRefreshOutcome`, `Outcomes.SingleRefreshOutcome`), and the view is frozen from then on
  (`ProtocolTheorems.LeakFreezesTheView`).
- The dependency page claims to observe one snapshot although it reads the pointer anew for its catalog and for its
  profiles. It does exactly when no commit takes effect in between (`PageGraph.OneSnapshotReadIff`); otherwise it can draw
  a graph that no snapshot shows (`PageGraph.PageMixesTwoSnapshots`).
- A single-project refresh reads the pointer, and its scope check reads it again, both before `try_start`. With commits
  in between it can copy a snapshot that does not list its project and commit a profile outside the catalog
  (`StaleParent.StaleParentUncoversView`); it cannot when its parent is still current at the commit. Exactly the runs whose
  commits all have a missing branch or a parent that lists the project keep profiles within catalogs
  (`ProtocolTheorems.RunCoveredIff`).
- The graph leaves out isolated projects although its documentation promises every catalog entry.
- Escaping for Mermaid does not tell a quotation mark from the text `&quot;`, and an edge label does not tell an unknown
  mode from a table name that ends in the suffix.
- The location pattern takes the end of a path with spaces for the whole of it, so an entry can be pruned by mistake.
- Truncation backs up to the last separator even when the cap does not fall inside a word, and then loses a whole word
  that fits: `x`, a word of 998 letters and `z` become `x` (`Purpose.WordLostIff`). It cuts at the cap, inside a word if
  need be, not only without whitespace but also when only a leading separator or other whitespace stands before it
  (`Purpose.WordSplitIff`).
- The kind of a service reported with several kinds of equal rank depends on the order of detections.
- Singular forms are taken before marker words are filtered, so `owns` reaches the responsibility key as `own`.

## Model

| member | source | states |
|---|---|---|
| StoreModel.CatalogRowsMeaning | src/project_knowledge_mcp/project_catalog.py:92-149 | upserting an enumeration lists exactly its ids, each with the path of its last occurrence |
| StoreModel.AnalysedMeaning | src/project_knowledge_mcp/ingestion_coordinator.py:793-868 | analysis leaves a row for exactly the ids some listed project carries a SHA for, from the last such project |
| StoreModel.SkipRowsMeaning | src/project_knowledge_mcp/ingestion_coordinator.py:793-868 | a skip row is recorded for exactly the listed projects whose branch is missing |
| StoreModel.SkipRowsInOrder | src/project_knowledge_mcp/ingestion_coordinator.py:793-812 | the skip rows are one per listed project without a SHA, in the order of the list, each naming the project, the missing branch and the reason |
| StoreModel.ProfilesAndSkipsCoverCatalog | src/project_knowledge_mcp/ingestion_coordinator.py:793-868 | profiles and skips together cover the catalog, and partition it when ids are distinct |
| StoreModel.BeginEvolves | src/project_knowledge_mcp/knowledge_store.py:319-420 | opening a snapshot takes a fresh id, starts it in progress, and changes nothing else; a refusal changes nothing |
| StoreModel.BeginRefusesIff | src/project_knowledge_mcp/knowledge_store.py:348-371 | opening is refused exactly for a single project without a parent, anything else with one, or a parent that does not exist, each with its own error |
| StoreModel.WritersRefuseIff | src/project_knowledge_mcp/knowledge_store.py:422-579 | every other writer refuses exactly when its snapshot is missing or finished, after its own argument check, and then writes nothing |
| StoreModel.RowWritesEvolve | src/project_knowledge_mcp/knowledge_store.py:422-530 | rewriting the rows of an uncompleted snapshot, or failing it, keeps completed snapshots, other snapshots and the pointer |
| StoreModel.PromoteEvolves | src/project_knowledge_mcp/knowledge_store.py:554-574 | the guarded commit transaction takes effect exactly on an in-progress snapshot and leaves everything alone otherwise |
| StoreModel.UnguardedFailIsSafeIff | src/project_knowledge_mcp/knowledge_store.py:509-530 | the status update of `abort_snapshot` alone, without its check, keeps the store well formed and everything completed as it is exactly when it does not hit a completed snapshot; the pointer alone, exactly when it does not hit the current one |
| StoreModel.UnguardedFailRewritesParent | src/project_knowledge_mcp/knowledge_store.py:509-530 | it can rewrite a completed parent that is not current any more, in a store two refreshes leave |
| Ordering.StringLeIff | src/project_knowledge_mcp/project_analyzer/db_tables.py:553 | strings sort by their first difference |
| Readers.ByAscendingIdMeaning | src/project_knowledge_mcp/knowledge_store.py:730-757 | a listing holds exactly the rows of its snapshot, strictly ascending by project id |
| KnowledgeTables.KnowledgeStore.constructor | src/project_knowledge_mcp/knowledge_store.py:216-222 | an empty store: no snapshot, no pointer |
| KnowledgeTables.KnowledgeStore.RequireInProgress | src/project_knowledge_mcp/knowledge_store.py:626-647 | raises for a missing or finished snapshot, on the flat tables as on grouped ones |
| KnowledgeTables.KnowledgeStore.BeginSnapshot | src/project_knowledge_mcp/knowledge_store.py:319-420 | on flat tables with key columns, opens a snapshot and copies the parent's profile and catalog rows; same result and errors as on grouped stores |
| KnowledgeTables.KnowledgeStore.WriteProfile | src/project_knowledge_mcp/knowledge_store.py:422-479 | upserts one profile row of one in-progress snapshot, after the SHA and status checks |
| KnowledgeTables.KnowledgeStore.RecordSkip | src/project_knowledge_mcp/knowledge_store.py:481-507 | appends one skip row after the reason and status checks |
| KnowledgeTables.KnowledgeStore.AbortSnapshot | src/project_knowledge_mcp/knowledge_store.py:509-530 | fails an in-progress snapshot and nothing else |
| KnowledgeTables.KnowledgeStore.CommitSnapshot | src/project_knowledge_mcp/knowledge_store.py:532-579 | completes an in-progress snapshot and moves the pointer to it |
| KnowledgeTables.KnowledgeStore.GetCurrentSnapshotId | src/project_knowledge_mcp/knowledge_store.py:667-694 | the pointer |
| KnowledgeTables.KnowledgeStore.GetProfile | src/project_knowledge_mcp/knowledge_store.py:696-728 | the profile row behind the pointer, if any |
| KnowledgeTables.KnowledgeStore.ListProfiles | src/project_knowledge_mcp/knowledge_store.py:730-757 | the profile rows behind the pointer, ascending by id |
| KnowledgeTables.KnowledgeStore.GetSnapshotMetadata | src/project_knowledge_mcp/knowledge_store.py:759-818 | trigger and commit SHA per project behind the pointer |
| KnowledgeTables.ProjectCatalog.PopulateInScope | src/project_knowledge_mcp/project_catalog.py:92-149 | the upsert loop leaves the catalog rows of the enumeration, last path per id, and touches no other snapshot |
| KnowledgeTables.ProjectCatalog.ListInScope | src/project_knowledge_mcp/project_catalog.py:153-181 | the catalog behind the pointer, ascending by id |
| KnowledgeTables.ProjectCatalog.IsInScope | src/project_knowledge_mcp/project_catalog.py:183-206 | whether the current catalog lists the project |
| KnowledgeTables.CopyParentRows | src/project_knowledge_mcp/knowledge_store.py:372-413 | the two copies of a single-project refresh give the new snapshot exactly its parent's rows |
| Coordinator.JobHandle.End | src/project_knowledge_mcp/ingestion_coordinator.py:195-221 | ends a handle once; frees the slot only when this very handle occupies it |
| Coordinator.IngestionCoordinator.TryStart | src/project_knowledge_mcp/ingestion_coordinator.py:283-337 | gives a new handle exactly when the slot is idle; a refusal leaves the occupant |
| Coordinator.IngestionCoordinator.Release | src/project_knowledge_mcp/ingestion_coordinator.py:369-381 | frees the slot only for its occupant |
| Coordinator.IngestionCoordinator.AnalyzeEnumeratedProjects | src/project_knowledge_mcp/ingestion_coordinator.py:768-875 | the per-project loop: skip, or fetch, analyse and write, stopping at the first exception |
| Coordinator.IngestionCoordinator.FailAndRelease | src/project_knowledge_mcp/ingestion_coordinator.py:502-521 | the error path fails the snapshot and gives the slot back even when failing it raises |
| Coordinator.IngestionCoordinator.RunFull | src/project_knowledge_mcp/ingestion_coordinator.py:474-521 | enumeration, catalog, loop and commit of a full refresh, with every error path |
| Coordinator.IngestionCoordinator.RunSingle | src/project_knowledge_mcp/ingestion_coordinator.py:659-734 | enumeration, matching, loop and commit of a single-project refresh, with every error path |
| Coordinator.IngestionCoordinator.StartFullRefresh | src/project_knowledge_mcp/ingestion_coordinator.py:385-521 | store, outcome and slot after a whole full refresh, busy or idle |
| Outcomes.LoopOutcome | src/project_knowledge_mcp/ingestion_coordinator.py:768-875 | the loop ends well exactly when every listed project lacks its branch or is analysed under a non-empty SHA; otherwise with the error of the first that is not. The rows written are those of the last SHA-carrying project per id, each with the answer for it as payload |
| Outcomes.FullRefreshOutcome | src/project_knowledge_mcp/ingestion_coordinator.py:385-521 | for every store, enumeration and answers: a full refresh completes exactly when the slot is idle, the enumeration arrives and every project is fine; it leaks the slot exactly when the slot is idle and the first thing to go wrong is neither of the two GitLab errors; in both other cases readers keep their view |
| Outcomes.FullRefreshShowsEnumeration | src/project_knowledge_mcp/ingestion_coordinator.py:385-521 | a completed one shows the enumeration and the answers: its catalog, for each id the last project with a SHA and the payload analysed for it, skips for the rest |
| Outcomes.SingleRefreshOutcome | src/project_knowledge_mcp/ingestion_coordinator.py:525-734 | the same for a single-project refresh, whose only project must also still be enumerated; refused for scope it changes nothing |
| Outcomes.SingleRefreshShowsParent | src/project_knowledge_mcp/ingestion_coordinator.py:659-734 | a completed one shows its parent with the one project's row, payload included, put over it, or its skip added |
| Outcomes.FullRefreshRaises | src/project_knowledge_mcp/ingestion_coordinator.py:453-521 | what the caller of a full refresh is told: that one is running, what the enumeration raised, or what the first project to go wrong raised |
| Outcomes.SingleRefreshRaises | src/project_knowledge_mcp/ingestion_coordinator.py:631-734 | the same for a single project, scope first: no current snapshot, not in its catalog, or enumerated no more |
| Outcomes.MatchingIsFirst | src/project_knowledge_mcp/ingestion_coordinator.py:671-681 | the project refreshed is the first one enumerated with the wanted id |
| AfterRefresh.ReadersAgree | src/project_knowledge_mcp/knowledge_store.py:696-818 | pointwise: a profile read alone is the one listed, the SHA shown for a project is that of its listed profile, and scope is what the catalog lists |
| AfterRefresh.AfterFullRefresh | src/project_knowledge_mcp/knowledge_store.py:696-818 | after a completed full refresh the metadata shows a full trigger and, for exactly the projects analysed, the SHA of the last one listed; profiles carry the analysed payloads; scope is what was listed |
| AfterRefresh.AfterSingleRefresh | src/project_knowledge_mcp/knowledge_store.py:696-818 | after a completed single-project refresh the trigger is that, and every reader answers as before but for the one project |
| Outcomes.UnhandledFetchLeaks | src/project_knowledge_mcp/ingestion_coordinator.py:502-521 | a call that leaks the slot: fetching the only project raises an error no handler names |
| Outcomes.TwoRefreshesLeave | src/project_knowledge_mcp/ingestion_coordinator.py:385-734 | a full refresh of an empty store that finds one branchless project, then a refresh of that project, leave exactly the store in which the bare update of `abort_snapshot` can rewrite a parent |
| Coordinator.IngestionCoordinator.CheckScope | src/project_knowledge_mcp/ingestion_coordinator.py:631-641 | the parent of a single-project refresh: the current snapshot, if it lists the project |
| Coordinator.IngestionCoordinator.StartSingleProjectRefresh | src/project_knowledge_mcp/ingestion_coordinator.py:525-734 | store, outcome and slot after a whole single-project refresh; refused for scope it opens no snapshot |
| SoloRuns.AnalyzeAlone | src/project_knowledge_mcp/ingestion_coordinator.py:768-875 | the loop of the object model is a sequence of steps of the transition system, with the same store and the same place to continue |
| SoloRuns.FullRefreshIsASoloRun | src/project_knowledge_mcp/ingestion_coordinator.py:385-521 | an uninterrupted full-refresh job of the transition system ends in the store, ending and slot that `start_full_refresh` leaves |
| SoloRuns.SingleRefreshIsASoloRun | src/project_knowledge_mcp/ingestion_coordinator.py:525-734 | the same for a single-project refresh, refusals included |
| Protocol.Matching | src/project_knowledge_mcp/ingestion_coordinator.py:671-681 | the first enumerated project with the wanted id, or none exactly when no listed project has it |
| ProtocolInvariant.ActKeeps | src/project_knowledge_mcp/ingestion_coordinator.py:453-734 | every step of a job keeps its own guarantees and touches shared state only inside its own snapshot and slot |
| ProtocolInvariant.OtherJobKeeps | src/project_knowledge_mcp/ingestion_coordinator.py:453-734 | no step of one job disturbs the guarantees of another |
| ProtocolInvariant.ShutdownKeepsInv | src/project_knowledge_mcp/main.py:490-516 | a shutdown's abort keeps every job's guarantees, those of the job it hits included |
| ProtocolInvariant.EndAgainIsNoOp | src/project_knowledge_mcp/ingestion_coordinator.py:195-221 | a repeated `complete` or `abort` on a finished handle changes nothing, whoever occupies the slot |
| ProtocolInvariant.NextKeepsInv | src/project_knowledge_mcp/ingestion_coordinator.py:385-734 | every action of every actor keeps the invariant, and the store only evolves |
| ProtocolInvariant.RunInv | src/project_knowledge_mcp/ingestion_coordinator.py:385-734 | the invariant holds in every state of every run |
| ProtocolInvariant.RunEvolves | src/project_knowledge_mcp/knowledge_store.py:319-579 | along every run nothing committed is rewritten, nothing failed reopens, and ids are fresh |
| ProtocolTheorems.PointerNamesCompleted | src/project_knowledge_mcp/knowledge_store.py:532-579 | in every reachable state the current pointer is null or refers to a completed snapshot |
| ProtocolTheorems.CompletedIsFrozen | src/project_knowledge_mcp/knowledge_store.py:626-647 | a completed snapshot's status and rows never change again |
| ProtocolTheorems.FailedIsFinal | src/project_knowledge_mcp/knowledge_store.py:532-579 | a failed snapshot never completes and never becomes current |
| ProtocolTheorems.ShutdownAbortIsFinal | src/project_knowledge_mcp/main.py:490-516 | a snapshot failed by a shutdown stays failed and out of sight in every continuation |
| ProtocolTheorems.PointerNeverReturns | src/project_knowledge_mcp/knowledge_store.py:554-574 | once the pointer leaves a snapshot it never returns to it |
| ProtocolTheorems.EqualPointersMeanNoCommitBetween | src/project_knowledge_mcp/knowledge_store.py:667-694 | two equal readings of the pointer mean no commit in between |
| ProtocolTheorems.ViewChangesOnlyAtCommits | src/project_knowledge_mcp/knowledge_store.py:532-579 | the reader view changes at commit steps only, and there to the committed snapshot |
| ProtocolTheorems.AtMostOneJobHolds | src/project_knowledge_mcp/ingestion_coordinator.py:321-337 | at most one job is between `try_start` and the release |
| ProtocolTheorems.OnlyTheSlotHolderWrites | src/project_knowledge_mcp/ingestion_coordinator.py:453-521 | every store change is a job opening its own snapshot, a refused job failing its own, a shutdown, or the slot's occupant inside its own snapshot |
| ProtocolTheorems.TryStartIsSingleFlight | src/project_knowledge_mcp/ingestion_coordinator.py:321-337 | `try_start` refuses exactly when some job still runs between its own `try_start` and its release, or the last occupant leaked the slot; it never touches the store |
| ProtocolTheorems.RejectionAlwaysEndsRejected | src/project_knowledge_mcp/ingestion_coordinator.py:462-472 | a refused start always ends refused, its own snapshot failed, slot and reader view untouched |
| ProtocolTheorems.OnlyTheHolderReleases | src/project_knowledge_mcp/ingestion_coordinator.py:369-381 | nobody but its occupant frees the slot |
| ProtocolTheorems.EndingsAreClean | src/project_knowledge_mcp/ingestion_coordinator.py:502-521 | a job that ends other than by committing or an unhandled exception has its snapshot failed, not current, and holds no slot |
| ProtocolTheorems.OccupantRunsOrLeaked | src/project_knowledge_mcp/ingestion_coordinator.py:502-521 | the occupant of the slot is a job still at work, or one that ended by an exception no handler names |
| ProtocolTheorems.LeakFreezesTheView | src/project_knowledge_mcp/ingestion_coordinator.py:502-521 | after such an exception the slot is never given back and the reader view never changes again in that process |
| ProtocolTheorems.JobsTakeBoundedlyManySteps | src/project_knowledge_mcp/ingestion_coordinator.py:385-734 | a job takes at most 3n + 13 steps for enumerations of at most n projects, however it is interleaved |
| ProtocolTheorems.NeverStuck | src/project_knowledge_mcp/ingestion_coordinator.py:385-734 | a job that has not ended can always take a step |
| ProtocolTheorems.CommittedFullRefreshMeansEnumeration | src/project_knowledge_mcp/ingestion_coordinator.py:474-501 | a committed full refresh shows the enumeration: catalog, profiles of exactly the projects with a SHA, skips for the rest |
| ProtocolTheorems.CommittedSingleRefreshMeansParent | src/project_knowledge_mcp/ingestion_coordinator.py:671-721 | a committed single-project refresh shows its recorded parent's catalog and profiles, changed at the refreshed project at most |
| ProtocolTheorems.SingleRefreshCoveredIff | src/project_knowledge_mcp/ingestion_coordinator.py:631-721 | its profiles stay within its catalog exactly when the branch is missing or the parent lists the project |
| ProtocolTheorems.FreshCommitKeepsCovered | src/project_knowledge_mcp/ingestion_coordinator.py:631-721 | a commit whose recorded parent is still current keeps every shown profile catalogued |
| ProtocolTheorems.ViewStaysCovered | src/project_knowledge_mcp/ingestion_coordinator.py:631-721 | so does every run in which each single-project commit is of that kind |
| ProtocolTheorems.CommitCoveredIff | src/project_knowledge_mcp/ingestion_coordinator.py:631-721 | over covered snapshots a commit is covered exactly when it is a full refresh, its branch is missing, or its parent lists the project |
| ProtocolTheorems.RunCoveredIff | src/project_knowledge_mcp/ingestion_coordinator.py:631-721 | along every run over covered snapshots, an empty store for one, everything committed so far is covered exactly when every commit so far was of that kind: the first that is not breaks it for good |
| ProtocolTheorems.FreshCommitIsListed | src/project_knowledge_mcp/ingestion_coordinator.py:631-721 | a commit whose recorded parent is still current is of that kind |
| Payloads.WriteStepStoresAnswer | src/project_knowledge_mcp/ingestion_coordinator.py:832-868 | in every run, a write step stores the enumerated project with the answer the job was given for it |
| Payloads.CommittedPayloadsAreAnswers | src/project_knowledge_mcp/ingestion_coordinator.py:832-868 | in every run, a committed refresh shows for each id the answer given for the last project listed with it and a SHA |
| Payloads.OneAnswerPerPosition | src/project_knowledge_mcp/ingestion_coordinator.py:832-868 | and a job is given one answer per project |
| StaleParent.StaleParentUncoversView | src/project_knowledge_mcp/ingestion_coordinator.py:631-657 | some run does not: the scope check reads the pointer again, so a job can copy an older snapshot than the one that lists its project |
| SplitAbort.CleanStepIsCoarse | src/project_knowledge_mcp/knowledge_store.py:509-530 | with the check and the update of a shutdown's abort as two steps, every step but an update that hits a completed snapshot is a step of the system with one-step aborts, or changes nothing in it |
| SplitAbort.CleanRunEvolves | src/project_knowledge_mcp/knowledge_store.py:509-530 | so along a run without such a hit the store evolves as before |
| SplitAbort.PromisesKeptIff | src/project_knowledge_mcp/knowledge_store.py:509-530 | a run of the finer system keeps the current pointer on completed snapshots and every completed snapshot as it is exactly when no update hits a snapshot committed since its check |
| SplitAbort.MarkHitsTheCurrentSnapshot | src/project_knowledge_mcp/main.py:490-516 | a run that does: a shutdown checks, the job commits, the shutdown's update fails the current snapshot |
| ReaderTheorems.ReadersLinearizeAtPointerRead | src/project_knowledge_mcp/knowledge_store.py:696-818 | every multi-query reader returns what held when it read the pointer, whatever happens between its queries |
| PageGraph.OneSnapshotReadIff | src/project_knowledge_mcp/visualization_server.py:969-970 | the catalog and the profiles of a page are read from one snapshot exactly when no commit takes effect between the two readings of the pointer |
| PageGraph.PageShowsOneSnapshot | src/project_knowledge_mcp/visualization_server.py:940-971 | then the page draws that snapshot's graph, whatever else happens during the request |
| PageGraph.RowsGraphMeaning | src/project_knowledge_mcp/visualization_server.py:969-971 | what the graph of some catalog and profile rows says: the tables two catalogued projects share, and the projects at their ends |
| PageGraph.PageMixesTwoSnapshots | src/project_knowledge_mcp/visualization_server.py:948-953 | from an empty store, two refreshes, the second committing between the two readings: the page draws a graph that no snapshot shows, old names with new edges |
| DependencyGraph.ModesOfMeaning | src/project_knowledge_mcp/diagram_renderer.py:986-997 | the dictionary of a profile holds each table with its mode, for one entry per table |
| DependencyGraph.IndexProfilesMeaning | src/project_knowledge_mcp/diagram_renderer.py:1251-1256 | the index holds exactly the profiles in scope, for distinct ids |
| DependencyGraph.IndexKeepsLast | src/project_knowledge_mcp/diagram_renderer.py:1251-1256 | for any list, the last profile of an id in scope is the one indexed |
| DependencyGraph.ModesKeepLast | src/project_knowledge_mcp/diagram_renderer.py:986-997 | for any list, the last entry for a table name is the one that counts |
| DependencyGraph.EdgesAreTheSharedTables | src/project_knowledge_mcp/diagram_renderer.py:979-1018 | for distinct ids: an edge for exactly each pair a < b and table both profiles name, unknown exactly when either entry is, each once, in order of source, target and table |
| DependencyGraph.NodesAreTheEndpoints | src/project_knowledge_mcp/diagram_renderer.py:1020-1041 | nodes are exactly the catalog entries at the end of some edge, ascending; every edge has both its nodes |
| DependencyGraph.GraphIgnoresOrder | src/project_knowledge_mcp/diagram_renderer.py:1245-1256 | for distinct ids the graph does not depend on the order of catalog or profiles |
| GraphBuilders.BuildGraphData | src/project_knowledge_mcp/diagram_renderer.py:957-1041 | the nested loops of the payload builder produce exactly the specified graph |
| GraphBuilders.BuildMermaidSource | src/project_knowledge_mcp/diagram_renderer.py:1044-1131 | the separately written loops of the Mermaid builder produce the same graph, line by line, and its edge count |
| GraphBuilders.RenderDependencyGraph | src/project_knowledge_mcp/diagram_renderer.py:1192-1281 | what the page embeds for any catalog and profiles; blanks for an empty catalog |
| GraphReaders.ScriptReadsBack | src/project_knowledge_mcp/diagram_renderer.py:930-1041 | a reader of the script text gets every node and edge, in order, with its label as written |
| GraphReaders.EdgeKindReads | src/project_knowledge_mcp/diagram_renderer.py:998-1014 | every edge of the payload is marked as a shared table |
| GraphReaders.EncodingsAgreeIff | src/project_knowledge_mcp/diagram_renderer.py:930-1131 | the reader of the Mermaid text gets what the reader of the script text gets, item by item, up to the spelling of quotation marks, exactly when no name holds a newline |
| GraphReaders.ScriptRecoversGraphIff | src/project_knowledge_mcp/diagram_renderer.py:957-1041 | paths, tables and modes come back from the script text exactly when no table of known mode ends in the suffix |
| GraphReaders.MermaidRecoversGraphIff | src/project_knowledge_mcp/diagram_renderer.py:1044-1131 | they come back from the Mermaid text exactly when, besides, no name holds a newline or spells out the entity for a quotation mark |
| GraphReaders.PayloadDeterminesGraph | src/project_knowledge_mcp/diagram_renderer.py:957-1041 | two graphs have one payload exactly when their nodes are equal and their edges are, up to the suffix case |
| GraphReaders.MermaidDeterminesGraph | src/project_knowledge_mcp/diagram_renderer.py:1044-1131 | without newlines in names, two graphs have one Mermaid text exactly when that holds with quotation marks spelled as the entity |
| Mermaid.AsPrinted | src/project_knowledge_mcp/diagram_renderer.py:1044-1131 | labels and header, letter by letter, at one input each |
| Mermaid.EscapeIsSafeAndDecodes | src/project_knowledge_mcp/diagram_renderer.py:886-895 | an escaped label holds no quotation mark and no angle bracket; one HTML decoding gives the label with quotation marks as entities |
| Mermaid.EscapeEqualIff | src/project_knowledge_mcp/diagram_renderer.py:886-895 | two labels escape alike exactly when they differ at most in spelling a quotation mark as the entity |
| Mermaid.EscapeConflatesQuoteAndEntity | src/project_knowledge_mcp/diagram_renderer.py:886-895 | a quotation mark and its entity do escape alike |
| Mermaid.DisplayedAsWrittenIff | src/project_knowledge_mcp/diagram_renderer.py:858-884 | a label is displayed as written exactly when it does not spell out the entity |
| Mermaid.MermaidRoundTripIff | src/project_knowledge_mcp/diagram_renderer.py:1109-1131 | reading the lines back gives every node and edge in order exactly when no path and no table name holds a newline |
| Mermaid.EdgeLabelEqualIff | src/project_knowledge_mcp/diagram_renderer.py:998-1006 | edge labels tell table and mode apart except for a table whose own name ends in the suffix |
| ScriptJson.ScriptSafeIsSafe | src/project_knowledge_mcp/diagram_renderer.py:948-954 | the three replacements act character by character |
| ScriptJson.ScriptJsonRoundTrip | src/project_knowledge_mcp/diagram_renderer.py:930-954 | the script text holds no `</` and no line or paragraph separator, and a JSON reader (section 7 of RFC 8259 for strings) gets the value back |
| IoLocations.LocationPathIsThePattern | src/project_knowledge_mcp/project_analyzer/go/go_io.py:2574-2599 | scanning from the end finds a path exactly where the suffix pattern matches, and it is the only one |
| IoLocations.PrintedPathIsReadIff | src/project_knowledge_mcp/project_analyzer/go/go_io.py:1733-1786 | reading a printed call site gives the file back exactly when its path is non-empty and free of whitespace |
| IoLocations.TextBeforeNeverMatters | src/project_knowledge_mcp/project_analyzer/go/go_io.py:2586-2599 | nothing printed before the suffix, however it looks, changes the path read |
| IoLocations.SiteSays | src/project_knowledge_mcp/project_analyzer/go/go_io.py:1755-1763 | the suffix names the file and, in digits that read back as it, the line |
| IoLocations.FileReadDetermines | src/project_knowledge_mcp/project_analyzer/go/go_io.py:1733-1763 | at plain paths two descriptions of file reads are equal exactly when literal, call, file and line are |
| IoLocations.FileWrittenDetermines | src/project_knowledge_mcp/project_analyzer/go/go_io.py:1766-1786 | the same for files written |
| IoLocations.BinaryDetermines | src/project_knowledge_mcp/project_analyzer/go/go_io.py:2183-2238 | for a binary its name, file and line |
| IoLocations.FileReadFilterIsExact | src/project_knowledge_mcp/project_analyzer/go/go_io.py:2602-2607 | for whitespace-free paths the file-read filter removes exactly the excluded call site |
| IoLocations.FileWrittenFilterIsExact | src/project_knowledge_mcp/project_analyzer/go/go_io.py:2610-2621 | the same for file writes |
| IoLocations.BinaryFilterIsExact | src/project_knowledge_mcp/project_analyzer/go/go_io.py:2624-2637 | the same for binary entry points |
| IoLocations.PathReadIff | src/project_knowledge_mcp/project_analyzer/go/go_io.py:2586-2599 | for every file, which path is read from its printed call site: a plain one that, after whitespace, `at` and whitespace, ends the text |
| IoLocations.FileReadRemovedIff | src/project_knowledge_mcp/project_analyzer/go/go_io.py:2602-2607 | for every path, which file-read entries are removed |
| IoLocations.FileWrittenRemovedIff | src/project_knowledge_mcp/project_analyzer/go/go_io.py:2610-2621 | for every path, which file-written entries are removed |
| IoLocations.BinaryRemovedIff | src/project_knowledge_mcp/project_analyzer/go/go_io.py:2624-2637 | for every path, which binary entry points are removed |
| IoLocations.SpacedPathIsRemovedByMistake | src/project_knowledge_mcp/project_analyzer/go/go_io.py:2602-2607 | a file-read entry whose path holds a space can be removed although its call site is not excluded |
| IoLocations.SpacedWriteIsRemovedByMistake | src/project_knowledge_mcp/project_analyzer/go/go_io.py:2610-2621 | so can a file-written entry |
| IoLocations.SpacedBinaryIsRemovedByMistake | src/project_knowledge_mcp/project_analyzer/go/go_io.py:2624-2637 | and a binary entry point |
| FirstOccurrences.DedupKeepsFirstOccurrences | src/project_knowledge_mcp/project_analyzer/go/go_io.py:2801-2810 | each element once, in the order of first occurrences |
| FirstOccurrences.DedupParts | src/project_knowledge_mcp/project_analyzer/go/go_io.py:2778-2810 | deduplicating parts first changes nothing |
| FirstOccurrences.DedupFilter | src/project_knowledge_mcp/project_analyzer/go/go_io.py:2729-2743 | pruning and deduplicating commute |
| IoMerge.Accumulator.AddInput | src/project_knowledge_mcp/project_analyzer/io_extractor.py:216-225 | appends an input unless the pair is already there |
| IoMerge.Accumulator.AddOutput | src/project_knowledge_mcp/project_analyzer/io_extractor.py:227-236 | appends an output unless the pair is already there |
| IoMerge.MergeIo | src/project_knowledge_mcp/project_analyzer/__init__.py:617-627 | the aggregator's merge is one deduplication of both branches |
| IoMerge.DedupSources | src/project_knowledge_mcp/project_analyzer/go/go_io.py:2801-2836 | the nested loop over the sources is one deduplication of their concatenation |
| IoMerge.ExtractGoIo | src/project_knowledge_mcp/project_analyzer/go/go_io.py:2704-2764 | the result lists, once each, what the recognizers emitted but for reads and writes of the configuration file and the main binary, by first recognizer that keeps it and first position there |
| FirstOccurrences.PrunedMerge | src/project_knowledge_mcp/project_analyzer/go/go_io.py:2729-2764 | pruning each source, concatenating and deduplicating lists what some source keeps, once, by source and position |
| IoMerge.InputReturnedIff | src/project_knowledge_mcp/project_analyzer/go/go_io.py:2704-2764 | which inputs the composer returns, recognizer by recognizer |
| IoMerge.OutputReturnedIff | src/project_knowledge_mcp/project_analyzer/go/go_io.py:2704-2764 | which outputs |
| IoMerge.PlainFileReadReturnedIff | src/project_knowledge_mcp/project_analyzer/go/go_io.py:2729-2733 | at a plain path a file read is returned exactly when its file is not `config/config.go` |
| IoMerge.PlainFileWrittenReturnedIff | src/project_knowledge_mcp/project_analyzer/go/go_io.py:2734-2738 | the same for a file written |
| IoMerge.PlainBinaryReturnedIff | src/project_knowledge_mcp/project_analyzer/go/go_io.py:2739-2743 | a binary entry point exactly when its file is not `cmd/main.go` |
| IoMerge.InputLayersCollapse | src/project_knowledge_mcp/project_analyzer/go/go_io.py:2704-2764 | recognizer, composer and aggregator deduplication equal one pass over the pruned raw inputs |
| IoMerge.OutputLayersCollapse | src/project_knowledge_mcp/project_analyzer/go/go_io.py:2704-2764 | the same for outputs |
| IoMerge.MergeIsIdempotent | src/project_knowledge_mcp/project_analyzer/__init__.py:617-627 | merging either side in again changes nothing |
| DbTables.JoinIsLeastUpperBound | src/project_knowledge_mcp/models.py:104-119 | access modes form a lattice: unknown below, read and write side by side, read_write above |
| DbTables.ResolveIsJoin | src/project_knowledge_mcp/project_analyzer/db_tables.py:560-582 | the branch chain computes the join of what was observed |
| DbTables.Aggregate | src/project_knowledge_mcp/project_analyzer/db_tables.py:515-591 | the loops over the three dictionaries give one entry per non-empty name, in order |
| DbTables.AggregatedMeaning | src/project_knowledge_mcp/project_analyzer/db_tables.py:515-591 | one entry per non-empty name detected; its mode says whether reads, writes, both or nothing known was seen; its locations are those detected for it, once each, in order of first detection |
| DbTables.AggregatedIsValid | src/project_knowledge_mcp/models.py:285-297 | the result passes the profile validators: strictly sorted unique names, non-empty duplicate-free locations |
| DbTables.EntryOfIsTheEntry | src/project_knowledge_mcp/project_analyzer/db_tables.py:553-591 | the listed entry of a table is its aggregated entry |
| DbTables.AggregateConcat | src/project_knowledge_mcp/project_analyzer/db_tables.py:515-591 | aggregating a concatenation combines the aggregations: modes joined, locations in order of first occurrence |
| DbTables.ModeIsLeastUpperBound | src/project_knowledge_mcp/project_analyzer/db_tables.py:560-582 | a table's mode is the least one above all its observations |
| DbTables.AggregationIgnoresOrder | src/project_knowledge_mcp/project_analyzer/db_tables.py:515-591 | only the order of locations depends on the order of detections |
| GoServices.CoalesceDetections | src/project_knowledge_mcp/project_analyzer/go/go_external_services.py:513-554 | the ordered-dictionary loop gives one entry per name, in order of first detection |
| GoServices.CoalescedMeaning | src/project_knowledge_mcp/project_analyzer/go/go_external_services.py:513-554 | one entry per name, by first detection; kind of the first detection, locations of all of them once |
| GoServices.EntryOfOne | src/project_knowledge_mcp/project_analyzer/go/go_external_services.py:513-554 | a single detection coalesces into itself; with the next row this fixes every entry |
| GoServices.CoalescedIsValid | src/project_knowledge_mcp/models.py:275-283 | valid detections coalesce into a valid section with duplicate-free locations |
| GoServices.EntryConcat | src/project_knowledge_mcp/project_analyzer/go/go_external_services.py:513-554 | per name, the first kind and all locations once |
| GoServices.CoalesceConcat | src/project_knowledge_mcp/project_analyzer/go/go_external_services.py:513-554 | coalescing in parts and then together is coalescing once |
| SdkServices.Aggregate | src/project_knowledge_mcp/project_analyzer/external_services.py:542-588 | group, pick, deduplicate and sort: the specified entries in order of name |
| SdkServices.AggregatedMeaning | src/project_knowledge_mcp/project_analyzer/external_services.py:517-588 | one entry per name; its kind is the first specific one reported (broker, object store, cache, auth provider), else HTTP API if reported, else other; its locations are the sources reported, once each, by path and line |
| SdkServices.MinKind | src/project_knowledge_mcp/project_analyzer/external_services.py:562-564 | the minimum by rank, the first among equals |
| SdkServices.AggregatedIsValid | src/project_knowledge_mcp/project_analyzer/external_services.py:542-588 | unique sorted names, non-empty duplicate-free sorted locations |
| SdkServices.BestKindIsFirstOfLeastRank | src/project_knowledge_mcp/project_analyzer/external_services.py:562-564 | the kind is that of the first detection of least rank |
| SdkServices.LocationsIgnoreOrder | src/project_knowledge_mcp/project_analyzer/external_services.py:566-577 | the locations do not depend on the order of detections |
| SdkServices.KindIgnoresOrderIff | src/project_knowledge_mcp/project_analyzer/external_services.py:517-564 | the kind does not depend on it exactly when all detections of least rank agree |
| Conflicts.KeyTokensMeaning | src/project_knowledge_mcp/conflict_detector.py:205-225 | which words reach the key; `owns` does, as `own` |
| Conflicts.ClassifyIsSymmetric | src/project_knowledge_mcp/conflict_detector.py:332-412 | the kind does not depend on which profile comes first |
| Conflicts.FindAllConflicts | src/project_knowledge_mcp/conflict_detector.py:486-523 | the nested loops over positions give the listed dictionary, sorted |
| Conflicts.ConflictsAreTheClosure | src/project_knowledge_mcp/conflict_detector.py:449-523 | strictly sorted; a pair is listed exactly when some profiles with those ids conflict, with their justification |
| Conflicts.PurposeConflictsAreTheClosure | src/project_knowledge_mcp/conflict_detector.py:449-523 | the same with the classification itself, in whichever order the two profiles come |
| Conflicts.ConflictsIgnoreOrder | src/project_knowledge_mcp/conflict_detector.py:449-523 | for distinct ids the whole list, justifications included, ignores the order of profiles |
| Conflicts.KeyTokensSnoc | src/project_knowledge_mcp/conflict_detector.py:205-225 | word by word, what reaches the key words and in which form |
| Conflicts.ListedIff | src/project_knowledge_mcp/conflict_detector.py:354-523 | two projects are listed exactly when both summaries are known, start with the same one or two key words, and share at least one and a half times as many words as they do not, or one owns and the other delegates |
| Conflicts.ListedJustification | src/project_knowledge_mcp/conflict_detector.py:354-523 | the text a listed pair is justified by, word for word, the smaller id first |
| Conflicts.UnknownIsNamed | src/project_knowledge_mcp/conflict_detector.py:354-366 | an indeterminate classification names the projects whose summary is unknown |
| Conflicts.TwinsAreListedIff | src/project_knowledge_mcp/conflict_detector.py:332-523 | two projects with one summary are listed exactly when it is known and has a content word |
| Conflicts.ListedShareTheirFirstWord | src/project_knowledge_mcp/conflict_detector.py:332-523 | a listed pair has its first content word in common, so summaries without a common word never conflict, whatever ownership they claim |
| GoFilter.VendoredIsNotRoot | src/project_knowledge_mcp/project_analyzer/go/go_filter.py:58-86 | a vendored Go file is never at the repository root |
| GoFilter.SourceIffNoVendorDirectory | src/project_knowledge_mcp/project_analyzer/go/go_filter.py:58-86 | a Go file is a source exactly when no directory on its path, at any depth and under either slash, is called `vendor` |
| GoFilter.GoRepositoryIff | src/project_knowledge_mcp/project_analyzer/go/go_filter.py:89-116 | a repository counts as Go exactly with a root `go.mod` or a Go file outside directories called `vendor` |
| GoFilter.ViewKeepsOrder | src/project_knowledge_mcp/project_analyzer/__init__.py:269-295 | the vendor view lists the remaining paths in the same order |
| Purpose.ExtractReadme | src/project_knowledge_mcp/project_analyzer/purpose.py:317-335 | the scan returns the first README prose in path order |
| Purpose.ExtractDocstring | src/project_knowledge_mcp/project_analyzer/purpose.py:468-493 | the scan returns the first top-level docstring in path order |
| Purpose.ExtractManifestDescription | src/project_knowledge_mcp/project_analyzer/purpose.py:382-401 | the scan tries the three manifests in order and returns the first description |
| Purpose.ReadmeMeaning | src/project_knowledge_mcp/project_analyzer/purpose.py:317-335 | the README text is the prose of the first root file whose name starts with README, in any case, that has any |
| Purpose.DocstringMeaning | src/project_knowledge_mcp/project_analyzer/purpose.py:468-493 | the docstring is that of the first top-level Python file, or the comment of the first root script, whichever path comes first |
| Purpose.ManifestMeaning | src/project_knowledge_mcp/project_analyzer/purpose.py:382-401 | the first of package.json, pyproject.toml and pom.xml that describes anything, each by its own parser |
| Purpose.SkipEntriesMeaning | src/project_knowledge_mcp/project_analyzer/__init__.py:213-220 | the degraded entries are one per reason of each eligible skipped file |
| Purpose.SkipEntriesInOrder | src/project_knowledge_mcp/project_analyzer/__init__.py:213-220 | they stand file by file in path order, within a file in the order of its reasons |
| Purpose.PlainSourcesInterleave | src/project_knowledge_mcp/project_analyzer/purpose.py:165-210 | without Go the four sources win in the documented order: README, collapsed description, manifest, docstring |
| Purpose.CollectCandidates | src/project_knowledge_mcp/project_analyzer/purpose.py:213-272 | one candidate per non-empty source, with its priority |
| Purpose.SummarizePurpose | src/project_knowledge_mcp/project_analyzer/purpose.py:165-210 | candidates, description, choice |
| Purpose.SafePurpose | src/project_knowledge_mcp/project_analyzer/__init__.py:486-558 | the aggregator's candidates, choice and degraded entries, when every sub-analyzer returns |
| Purpose.AnalyzePurpose | src/project_knowledge_mcp/project_analyzer/__init__.py:340-379 | the Go parser is consulted only for repositories with Go artefacts |
| Purpose.VendorViewHidesNothing | src/project_knowledge_mcp/project_analyzer/__init__.py:269-295 | the vendor view hides no path the summarizer reads |
| Purpose.WithoutGoPurposeIsUnchanged | src/project_knowledge_mcp/project_analyzer/__init__.py:486-558 | without Go artefacts the purpose section is what the plain summarizer gives, and nothing is degraded |
| Purpose.WinnerIsFirstOfLeastPriority | src/project_knowledge_mcp/project_analyzer/purpose.py:199-210 | the summary is that of the first candidate of least priority |
| Purpose.GoSourcesInterleave | src/project_knowledge_mcp/project_analyzer/__init__.py:456-526 | with Go artefacts the seven sources win in the documented order |
| Purpose.TruncateMeaning | src/project_knowledge_mcp/project_analyzer/purpose.py:288-304 | a prefix of at most 1000 characters, cut at whitespace when shorter than the cap, never emptied, idempotent |
| Purpose.TruncateIsTheCut | src/project_knowledge_mcp/project_analyzer/purpose.py:296-304 | an over-long text is cut before the last separator within the cap, less the whitespace there, where a visible character stands before it, and at the cap otherwise; nothing else is so cut |
| Purpose.HardCutIff | src/project_knowledge_mcp/project_analyzer/purpose.py:296-304 | an over-long text keeps 1000 characters exactly when, within them, no separator follows the first visible one |
| Purpose.WordSplitIff | src/project_knowledge_mcp/project_analyzer/purpose.py:289-304 | a word is split exactly when the cap falls inside one and, within the cap, no separator follows a visible character |
| Purpose.WordLostIff | src/project_knowledge_mcp/project_analyzer/purpose.py:289-304 | a whole word that fits is lost exactly when one ends within the cap with no separator between its end and the cap, and some separator within the cap follows a visible character |
| Purpose.SeparatorsOnlyCuts | src/project_knowledge_mcp/project_analyzer/purpose.py:289-304 | where separators are the only whitespace and the text starts with a word: split exactly when the cap falls inside the first word, lost exactly when it falls on the end of a later one |
| Purpose.WordLostAtTheBoundary | src/project_knowledge_mcp/project_analyzer/purpose.py:289-304 | an input: `x`, a word of 998 letters that ends at the cap and `z` are cut to `x` |
| Purpose.HardCutMaySplitNoWord | src/project_knowledge_mcp/project_analyzer/purpose.py:289-304 | an input: a word of 1000 letters and `b` are cut at the cap and no word is split |

## Left out

- ProtocolTheorems.ShutdownAbortIsFinal: takes the status check and the update of a shutdown's abort as one step, as do all theorems about `Protocol`; `SplitAbort` takes it apart and says which runs those theorems' main promises survive in.
- ProtocolInvariant.ShutdownKeepsInv: is about that one step, too.
- ProtocolTheorems.NeverStuck: says that a step is possible, not that a scheduler takes it; fairness of threads is not modelled.
- ReaderTheorems.ReadersLinearizeAtPointerRead: is about one reader call; for the two calls of the dependency page see `PageGraph`.
- PageGraph.PageShowsOneSnapshot: takes the tables listed in a stored payload as an arbitrary function of it, and each listing as one query.
- KnowledgeTables.KnowledgeStore.GetSnapshotMetadata: has no timestamps; for a pointer to a missing snapshot row, which `ProtocolTheorems.PointerNamesCompleted` excludes, it returns nothing where the code raises.
- IoMerge.ExtractGoIo: omits the third result, the list of messages about skipped files.
- SplitAbort.PromisesKeptIff: leaves a snapshot captured when a shutdown's check fails, so that a second shutdown may still check it.
- KnowledgeTables.KnowledgeStore.BeginSnapshot: has no timestamps and no SQLite errors; a parent id equal to the new row's own id is admitted, as the foreign key does.
- KnowledgeTables.KnowledgeStore.ListProfiles: returns the stored payload, without rebuilding a profile from it.
- Conflicts.ClassifyIsSymmetric: compares 5 times the intersection with 3 times the union instead of dividing floats, which agrees with the comparison to 0.6 for token sets of any practical size; the lower-casing, regular expressions and phrase search that read a summary are an arbitrary function.
- IoLocations.LocationPathIsThePattern: leaves the set of decimal digits open apart from what it needs, since `\d` accepts those of every script.
- ScriptJson.ScriptJsonRoundTrip: covers strings, arrays and objects, which is what the payload is made of, not numbers, booleans or null; characters are Unicode scalar values, so lone surrogates do not occur.
- Purpose.TruncateMeaning: has bounds and idempotence only; where the cut lies is `Purpose.TruncateIsTheCut`.
- Mermaid.MermaidRoundTripIff: stops at captions; paths, tables and modes are `GraphReaders.MermaidRecoversGraphIff`.
- Purpose.SafePurpose: assumes that the sub-analyzers return; the fallback for exceptions is not modelled. Reading prose, manifests and docstrings out of one file is an arbitrary function.
- SQLite itself: write-ahead log, locking, uncommitted reads on the shared connection.
- The connector: HTTP, paging, path collection and its file cap; enumeration and file contents are inputs.
- The scheduler's thread, clock and stop event; a tick is a job that starts at any time.
- Server, templates, HTML and JavaScript around the two embedded texts, and the MCP dispatch.
- The detectors that feed the aggregators: Go tokenizer and recognizers, Python syntax trees, SQL and URL patterns, and the schema-preserving table extractor; their detections are arbitrary lists.
- Configuration, logging and the error classes' messages.
