/** A run in which a single-project refresh commits over a stale parent and shows a profile outside
    the catalog. The scope check reads the pointer a second time, so it can pass against a snapshot
    newer than the one that is copied. */
module StaleParent {
  import opened Base
  import opened StoreModel
  import opened Protocol
  import opened ProtocolTheorems

  function Last(trace: seq<System>): System
    requires trace != []
  {
    trace[|trace| - 1]
  }

  /** One more step of a run. */
  lemma Then(trace: seq<System>, a: Action) returns (longer: seq<System>)
    requires Run(trace) && Next(Last(trace), a).Some?
    ensures Run(longer) && longer[0] == trace[0] && Last(longer) == Next(Last(trace), a).value
  {
    longer := trace + [Next(Last(trace), a).value];
    assert CanStep(Last(trace), Last(longer));
    forall i | 0 <= i < |longer| - 1 ensures CanStep(longer[i], longer[i + 1]) {
      if i < |trace| - 1 { assert CanStep(trace[i], trace[i + 1]); }
    }
  }

  const LATE := EnumeratedProject(7, "group/late", "main", None)
  const LATE_WITH_BRANCH := EnumeratedProject(7, "group/late", "main", Some("abc"))

  /** An earlier process committed an empty enumeration. */
  const OLD := Snapshot(Completed, Full, None, map[], map[], [])
  const OLD_STORE := Store(map[1 := OLD], 1, Some(1))

  function SingleJob(pc: Pc, scope: Option<SnapshotId>, sid: SnapshotId): Job {
    Job(SingleRefresh(7), pc, Some(1), scope, sid, [], 0, false, None, map[])
  }

  function FullJob(pc: Pc, next: nat, checked: bool): Job {
    Job(FullRefresh, pc, None, None, 2, [LATE], next, checked, None, map[])
  }

  /** Job 1 wants project 7 refreshed; it reads the pointer, 1, and is overtaken. */
  lemma SingleReadsPointer() returns (trace: seq<System>)
    ensures Run(trace) && ViewCovered(trace[0].store)
    ensures var s := Last(trace);
            s.store == OLD_STORE && s.running.None? && s.jobs == map[1 := SingleJob(ScopePointer, None, 0)]
  {
    trace := [System(OLD_STORE, None, map[], {})];
    trace := Then(trace, Spawn(1, SingleRefresh(7)));
    trace := Then(trace, Step(1, Nothing));
    assert Last(trace).jobs[1] == SingleJob(ScopePointer, None, 0);
  }

  /** Job 2, a full refresh, finds project 7, still without its branch. */
  lemma FullEnumerates(before: seq<System>) returns (trace: seq<System>)
    requires Run(before)
    requires var s := Last(before);
             s.store == OLD_STORE && s.running.None? && s.jobs == map[1 := SingleJob(ScopePointer, None, 0)]
    ensures Run(trace) && trace[0] == before[0]
    ensures var s := Last(trace);
            && s.store == Store(map[1 := OLD, 2 := Snapshot(InProgress, Full, None, map[], map[], [])], 2, Some(1))
            && s.running == Some(Handle(2, 2))
            && s.jobs == map[1 := SingleJob(ScopePointer, None, 0), 2 := FullJob(Populate, 0, false)]
  {
    trace := Then(before, Spawn(2, FullRefresh));
    trace := Then(trace, Step(2, Nothing));
    assert Last(trace).jobs[2].pc.TryStart? && Last(trace).running.None?;
    trace := Then(trace, Step(2, Nothing));
    trace := Then(trace, Step(2, Enumerated([LATE])));
    assert Last(trace).jobs[2] == FullJob(Populate, 0, false);
  }

  /** It writes its catalog row and its skip, */
  lemma FullWrites(before: seq<System>) returns (trace: seq<System>)
    requires Run(before)
    requires var s := Last(before);
             && s.store == Store(map[1 := OLD, 2 := Snapshot(InProgress, Full, None, map[], map[], [])], 2, Some(1))
             && s.running == Some(Handle(2, 2))
             && s.jobs == map[1 := SingleJob(ScopePointer, None, 0), 2 := FullJob(Populate, 0, false)]
    ensures Run(trace) && trace[0] == before[0]
    ensures var s := Last(trace);
            && s.store.snapshots.Keys == {1, 2} && s.store.snapshots[1] == OLD && 7 in s.store.snapshots[2].catalog
            && s.store.snapshots[2].status == InProgress && s.store.lastId == 2
            && s.running == Some(Handle(2, 2))
            && s.jobs == map[1 := SingleJob(ScopePointer, None, 0), 2 := FullJob(Analyze, 1, false)]
  {
    trace := Then(before, Step(2, Nothing));
    trace := Then(trace, Step(2, Nothing));
    assert Last(trace).jobs[2] == FullJob(Analyze, 0, false);
    assert CatalogRows([LATE]) == map[7 := "group/late"] by { assert [LATE][..0] == []; }
    assert 7 in Last(trace).store.snapshots[2].catalog;
    trace := Then(trace, Step(2, Nothing));
    trace := Then(trace, Step(2, Nothing));
    assert Last(trace).jobs[2] == FullJob(Analyze, 1, false);
  }

  /** and commits snapshot 2. */
  lemma FullCommits(before: seq<System>) returns (trace: seq<System>)
    requires Run(before)
    requires var s := Last(before);
             && s.store.snapshots.Keys == {1, 2} && s.store.snapshots[1] == OLD && 7 in s.store.snapshots[2].catalog
             && s.store.snapshots[2].status == InProgress && s.store.lastId == 2
             && s.running == Some(Handle(2, 2))
             && s.jobs == map[1 := SingleJob(ScopePointer, None, 0), 2 := FullJob(Analyze, 1, false)]
    ensures Run(trace) && trace[0] == before[0]
    ensures var s := Last(trace);
            && s.store.snapshots.Keys == {1, 2} && s.store.snapshots[1] == OLD && 7 in s.store.snapshots[2].catalog
            && s.store.lastId == 2 && s.store.current == Some(2)
            && s.running.None? && 1 in s.jobs && s.jobs[1] == SingleJob(ScopePointer, None, 0)
  {
    trace := Then(before, Step(2, Nothing));
    trace := Then(trace, Step(2, Nothing));
    assert Last(trace).jobs[2] == FullJob(Commit, 1, true);
    trace := Then(trace, Step(2, Nothing));
    trace := Then(trace, Step(2, Nothing));
  }

  /** Job 1 goes on: project 7 is in scope now, but the copy is taken from snapshot 1. */
  lemma SingleStarts(before: seq<System>) returns (trace: seq<System>)
    requires Run(before)
    requires var s := Last(before);
             && s.store.snapshots.Keys == {1, 2} && s.store.snapshots[1] == OLD && 7 in s.store.snapshots[2].catalog
             && s.store.lastId == 2 && s.store.current == Some(2)
             && s.running.None? && 1 in s.jobs && s.jobs[1] == SingleJob(ScopePointer, None, 0)
    ensures Run(trace) && trace[0] == before[0]
    ensures var s := Last(trace);
            && 3 in s.store.snapshots
            && s.store.snapshots[3] == Snapshot(InProgress, SingleProject, Some(1), map[], map[], [])
            && 1 in s.jobs && s.jobs[1] == SingleJob(Analyze, Some(2), 3).(enumerated := [LATE_WITH_BRANCH])
  {
    trace := Then(before, Step(1, Nothing));
    trace := Then(trace, Step(1, Nothing));
    assert Last(trace).jobs[1] == SingleJob(BeginSnapshot, Some(2), 0);
    trace := Then(trace, Step(1, Nothing));
    trace := Then(trace, Step(1, Nothing));
    assert Last(trace).jobs[1] == SingleJob(Enumerate, Some(2), 3);
    trace := Then(trace, Step(1, Enumerated([LATE_WITH_BRANCH])));
  }

  /** It analyses project 7, writes the profile and commits snapshot 3. */
  lemma SingleCommits(before: seq<System>) returns (trace: seq<System>)
    requires Run(before)
    requires var s := Last(before);
             && 3 in s.store.snapshots
             && s.store.snapshots[3] == Snapshot(InProgress, SingleProject, Some(1), map[], map[], [])
             && 1 in s.jobs && s.jobs[1] == SingleJob(Analyze, Some(2), 3).(enumerated := [LATE_WITH_BRANCH])
    ensures Run(trace) && trace[0] == before[0]
    ensures !ViewCovered(Last(trace).store)
  {
    trace := Then(before, Step(1, AnalysedAs("{}")));
    trace := Then(trace, Step(1, Nothing));
    trace := Then(trace, Step(1, Nothing));
    assert Last(trace).jobs[1].next == 1 && Last(trace).jobs[1].pc.Analyze?;
    assert Last(trace).store.snapshots[3].profiles.Keys == {7} && Last(trace).store.snapshots[3].catalog == map[];
    trace := Then(trace, Step(1, Nothing));
    trace := Then(trace, Step(1, Nothing));
    trace := Then(trace, Step(1, Nothing));
    assert 7 in View(Last(trace).store).value.profiles;
  }

  /** "Every profile shown belongs to a catalogued project" is not kept by every run. */
  lemma StaleParentUncoversView()
    ensures exists trace: seq<System> :: Run(trace) && ViewCovered(trace[0].store) && !ViewCovered(Last(trace).store)
  {
    var trace := SingleReadsPointer();
    trace := FullEnumerates(trace);
    trace := FullWrites(trace);
    trace := FullCommits(trace);
    trace := SingleStarts(trace);
    trace := SingleCommits(trace);
  }
}
