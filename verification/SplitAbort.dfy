/** The shutdown's `abort_snapshot` taken apart: its status check and its update, which has no guard of its
    own, as two steps with other actors free to act in between. */
module SplitAbort {
  import opened Base
  import opened StoreModel
  import opened Protocol
  import opened ProtocolInvariant

  /** `passed` holds the snapshots whose check a shutdown has passed and which it has yet to mark. */
  datatype SplitSystem = SplitSystem(base: System, passed: set<SnapshotId>)

  /** `Whole` is any action of the system but a shutdown's abort in one step. */
  datatype SplitAction =
    | Whole(a: Action)
    | Check(sid: SnapshotId)
    | Mark(sid: SnapshotId)

  function SplitNext(s: SplitSystem, x: SplitAction): Option<SplitSystem> {
    match x
    case Whole(a) =>
      if a.ShutdownAbort? || Next(s.base, a).None? then None else Some(s.(base := Next(s.base, a).value))
    case Check(sid) =>
      if sid !in s.base.captured then None
      else Some(if InProgressIn(s.base.store, sid) then s.(passed := s.passed + {sid}) else s)
    case Mark(sid) =>
      if sid !in s.passed || sid !in s.base.captured || sid !in s.base.store.snapshots then None
      else
        Some(SplitSystem(s.base.(store := MarkFailed(s.base.store, sid), captured := s.base.captured - {sid}),
                         s.passed - {sid}))
  }

  /** A run of the finer system and the actions that drive it. */
  ghost predicate SplitRun(trace: seq<SplitSystem>, actions: seq<SplitAction>) {
    && |trace| == |actions| + 1
    && Init(trace[0].base) && trace[0].passed == {}
    && forall i :: 0 <= i < |actions| ==> SplitNext(trace[i], actions[i]) == Some(trace[i + 1])
  }

  /** A shutdown marks a snapshot that has been committed since its check. */
  predicate HitsCompleted(s: SplitSystem, x: SplitAction) {
    x.Mark? && CompletedIn(s.base.store, x.sid)
  }

  ghost predicate Clean(trace: seq<SplitSystem>, actions: seq<SplitAction>)
    requires |trace| == |actions| + 1
  {
    forall i :: 0 <= i < |actions| ==> !HitsCompleted(trace[i], actions[i])
  }

  /** In every state the current pointer is null or refers to a completed snapshot, and what is completed
      never changes again. */
  ghost predicate KeepsPromises(trace: seq<SplitSystem>) {
    && (forall i :: 0 <= i < |trace| ==>
          var st := trace[i].base.store; st.current.Some? ==> CompletedIn(st, st.current.value))
    && (forall i, j, sid :: 0 <= i <= j < |trace| && CompletedIn(trace[i].base.store, sid) ==>
          sid in trace[j].base.store.snapshots
          && trace[j].base.store.snapshots[sid] == trace[i].base.store.snapshots[sid])
  }

  /** Any other step is a step of the coarse system, or leaves it where it is. */
  lemma CleanStepIsCoarse(s: SplitSystem, x: SplitAction, t: SplitSystem)
    requires SplitNext(s, x) == Some(t) && !HitsCompleted(s, x)
    ensures t.base == s.base || exists a :: Next(s.base, a) == Some(t.base)
  {
    match x
    case Whole(a) =>
    case Check(sid) =>
    case Mark(sid) =>
      var st := s.base.store;
      if FailedIn(st, sid) {
        assert st.snapshots[sid := st.snapshots[sid].(status := Failed)] == st.snapshots;
      }
      assert Next(s.base, ShutdownAbort(sid)) == Some(t.base);
  }

  lemma CleanStepKeeps(s: SplitSystem, x: SplitAction, t: SplitSystem)
    requires Inv(s.base) && SplitNext(s, x) == Some(t) && !HitsCompleted(s, x)
    ensures Inv(t.base) && Evolves(s.base.store, t.base.store)
  {
    CleanStepIsCoarse(s, x, t);
    if t.base == s.base {
      EvolvesReflexive(s.base.store);
    } else {
      var a :| Next(s.base, a) == Some(t.base);
      NextKeepsInv(s.base, a, t.base);
    }
  }

  lemma {:induction false} CleanRunInv(trace: seq<SplitSystem>, actions: seq<SplitAction>, i: nat)
    requires SplitRun(trace, actions) && Clean(trace, actions) && i < |trace|
    ensures Inv(trace[i].base)
  {
    if i == 0 {
      InitInv(trace[0].base);
    } else {
      CleanRunInv(trace, actions, i - 1);
      CleanStepKeeps(trace[i - 1], actions[i - 1], trace[i - 1 + 1]);
    }
  }

  lemma CleanRunEvolves(trace: seq<SplitSystem>, actions: seq<SplitAction>, i: nat, j: nat)
    requires SplitRun(trace, actions) && Clean(trace, actions) && i <= j < |trace|
    ensures StoreOk(trace[i].base.store) && Evolves(trace[i].base.store, trace[j].base.store)
  {
    var stores := seq(|trace|, k requires 0 <= k < |trace| => trace[k].base.store);
    forall k | 0 <= k < |trace| ensures StoreOk(stores[k]) { CleanRunInv(trace, actions, k); }
    forall k | 0 <= k < |trace| - 1 ensures Evolves(stores[k], stores[k + 1]) {
      CleanRunInv(trace, actions, k);
      CleanStepKeeps(trace[k], actions[k], trace[k + 1]);
    }
    ChainEvolves(stores, i, j);
  }

  /** A run keeps the promises readers rely on exactly when no shutdown marks a snapshot committed since
      its check. The two steps of a job's own abort need no such condition. */
  lemma PromisesKeptIff(trace: seq<SplitSystem>, actions: seq<SplitAction>)
    requires SplitRun(trace, actions)
    ensures KeepsPromises(trace) <==> Clean(trace, actions)
  {
    if Clean(trace, actions) {
      forall i, j, sid | 0 <= i <= j < |trace| && CompletedIn(trace[i].base.store, sid)
        ensures sid in trace[j].base.store.snapshots
        ensures trace[j].base.store.snapshots[sid] == trace[i].base.store.snapshots[sid]
      {
        CleanRunEvolves(trace, actions, i, j);
      }
      forall i | 0 <= i < |trace| ensures StoreOk(trace[i].base.store) { CleanRunEvolves(trace, actions, i, i); }
    } else {
      var i :| 0 <= i < |actions| && HitsCompleted(trace[i], actions[i]);
      assert SplitNext(trace[i], actions[i]) == Some(trace[i + 1]);
      assert FailedIn(trace[i + 1].base.store, actions[i].sid);
    }
  }

  // ---------------------------------------------------------------- a run that breaks them

  const EMPTY := SplitSystem(System(Store(map[], 0, None), None, map[], {}), {})

  function Now(trace: seq<SplitSystem>): SplitSystem
    requires trace != []
  {
    trace[|trace| - 1]
  }

  lemma Extend(trace: seq<SplitSystem>, actions: seq<SplitAction>, x: SplitAction)
    returns (trace': seq<SplitSystem>, actions': seq<SplitAction>)
    requires SplitRun(trace, actions) && SplitNext(Now(trace), x).Some?
    ensures SplitRun(trace', actions') && Now(trace') == SplitNext(Now(trace), x).value
  {
    trace', actions' := trace + [SplitNext(Now(trace), x).value], actions + [x];
  }

  /** The refresh of an empty group, with snapshot 1, at `pc`. */
  function Refresh(pc: Pc, checked: bool): map<JobId, Job> {
    map[1 := Job(FullRefresh, pc, None, None, 1, [], 0, checked, None, map[])]
  }

  function OpenStore(status: Status, current: Option<SnapshotId>): Store {
    Store(map[1 := Snapshot(status, Full, None, map[], map[], [])], 1, current)
  }

  /** A full refresh takes the slot. */
  lemma RefreshStarts() returns (trace: seq<SplitSystem>, actions: seq<SplitAction>)
    ensures SplitRun(trace, actions)
    ensures Now(trace) ==
            SplitSystem(System(OpenStore(InProgress, None), Some(Handle(1, 1)), Refresh(Enumerate, false), {}), {})
  {
    trace, actions := [EMPTY], [];
    trace, actions := Extend(trace, actions, Whole(Spawn(1, FullRefresh)));
    trace, actions := Extend(trace, actions, Whole(Step(1, Nothing)));
    assert Now(trace).base.jobs == Refresh(TryStart, false);
    assert Now(trace).base.store == OpenStore(InProgress, None);
    trace, actions := Extend(trace, actions, Whole(Step(1, Nothing)));
  }

  /** A shutdown checks its snapshot and is overtaken. */
  lemma ShutdownChecks() returns (trace: seq<SplitSystem>, actions: seq<SplitAction>)
    ensures SplitRun(trace, actions)
    ensures Now(trace) ==
            SplitSystem(System(OpenStore(InProgress, None), Some(Handle(1, 1)), Refresh(Enumerate, false), {1}), {1})
  {
    trace, actions := RefreshStarts();
    trace, actions := Extend(trace, actions, Whole(CaptureRunning));
    trace, actions := Extend(trace, actions, Check(1));
  }

  /** The group is empty: nothing to list, nothing to analyse. */
  lemma RefreshWorks() returns (trace: seq<SplitSystem>, actions: seq<SplitAction>)
    ensures SplitRun(trace, actions)
    ensures Now(trace) ==
            SplitSystem(System(OpenStore(InProgress, None), Some(Handle(1, 1)), Refresh(Analyze, false), {1}), {1})
  {
    trace, actions := ShutdownChecks();
    trace, actions := Extend(trace, actions, Whole(Step(1, Enumerated([]))));
    assert Now(trace).base.jobs == Refresh(Populate, false);
    trace, actions := Extend(trace, actions, Whole(Step(1, Nothing)));
    assert Now(trace).base.jobs == Refresh(Populate, true);
    assert map[] + CatalogRows([]) == map[];
    trace, actions := Extend(trace, actions, Whole(Step(1, Nothing)));
  }

  lemma RefreshCommits() returns (trace: seq<SplitSystem>, actions: seq<SplitAction>)
    ensures SplitRun(trace, actions)
    ensures Now(trace) ==
            SplitSystem(System(OpenStore(Completed, Some(1)), Some(Handle(1, 1)), Refresh(Complete, false), {1}), {1})
  {
    trace, actions := RefreshWorks();
    trace, actions := Extend(trace, actions, Whole(Step(1, Nothing)));
    assert Now(trace).base.jobs == Refresh(Commit, false);
    trace, actions := Extend(trace, actions, Whole(Step(1, Nothing)));
    assert Now(trace).base.jobs == Refresh(Commit, true);
    trace, actions := Extend(trace, actions, Whole(Step(1, Nothing)));
  }

  /** Check, commit, mark: the current snapshot is failed. */
  lemma MarkHitsTheCurrentSnapshot()
    ensures exists trace: seq<SplitSystem>, actions: seq<SplitAction> ::
              SplitRun(trace, actions) && Now(trace).base.store.current == Some(1) && FailedIn(Now(trace).base.store, 1)
  {
    var trace, actions := RefreshCommits();
    trace, actions := Extend(trace, actions, Mark(1));
  }
}
