/** What the ingestion protocol guarantees, for every run and every interleaving. */
module ProtocolTheorems {
  import opened Base
  import opened StoreModel
  import opened Protocol
  import opened ProtocolInvariant
  import Readers

  // ---------------------------------------------------------------- what readers see

  /** The snapshot behind the pointer: everything any reader can observe. */
  function View(st: Store): Option<Snapshot> {
    Readers.At(st, st.current)
  }

  /** `a` is the step of `commit_snapshot`'s transaction that takes effect. */
  predicate IsCommit(s: System, a: Action) {
    && a.Step? && a.id in s.jobs
    && s.jobs[a.id].pc.Commit? && s.jobs[a.id].checked && InProgressIn(s.store, s.jobs[a.id].sid)
  }

  lemma PointerNamesCompleted(trace: seq<System>, i: nat)
    requires Run(trace) && i < |trace|
    ensures var st := trace[i].store; st.current.Some? ==> CompletedIn(st, st.current.value)
  {
    RunInv(trace, i);
  }

  /** A completed snapshot keeps its status and every profile, catalog and skip row for good. */
  lemma CompletedIsFrozen(trace: seq<System>, i: nat, j: nat, sid: SnapshotId)
    requires Run(trace) && i <= j < |trace| && CompletedIn(trace[i].store, sid)
    ensures sid in trace[j].store.snapshots && trace[j].store.snapshots[sid] == trace[i].store.snapshots[sid]
  {
    RunEvolves(trace, i, j);
  }

  /** A failed snapshot, whoever failed it, never completes and never becomes current. */
  lemma FailedIsFinal(trace: seq<System>, i: nat, j: nat, sid: SnapshotId)
    requires Run(trace) && i <= j < |trace| && FailedIn(trace[i].store, sid)
    ensures FailedIn(trace[j].store, sid) && trace[j].store.current != Some(sid)
  {
    RunEvolves(trace, i, j);
  }

  /** A shutdown's abort settles an open snapshot: it is failed in every continuation. */
  lemma ShutdownAbortIsFinal(trace: seq<System>, i: nat, j: nat, sid: SnapshotId)
    requires Run(trace) && i + 1 <= j < |trace|
    requires Next(trace[i], ShutdownAbort(sid)) == Some(trace[i + 1]) && InProgressIn(trace[i].store, sid)
    ensures FailedIn(trace[j].store, sid) && trace[j].store.current != Some(sid)
  {
    FailedIsFinal(trace, i + 1, j, sid);
  }

  /** Once the pointer leaves a snapshot it never returns to it. */
  lemma PointerNeverReturns(trace: seq<System>, i: nat, j: nat, k: nat, sid: SnapshotId)
    requires Run(trace) && i <= j <= k < |trace|
    requires trace[i].store.current == Some(sid) && trace[j].store.current != Some(sid)
    ensures trace[k].store.current != Some(sid)
  {
    RunEvolves(trace, i, j);
    RunEvolves(trace, j, k);
  }

  /** Two equal readings of the pointer mean that no commit happened in between. */
  lemma EqualPointersMeanNoCommitBetween(trace: seq<System>, i: nat, j: nat, k: nat)
    requires Run(trace) && i <= j <= k < |trace|
    requires trace[i].store.current.Some? && trace[i].store.current == trace[k].store.current
    ensures trace[j].store.current == trace[i].store.current
  {
    if trace[j].store.current != trace[i].store.current {
      PointerNeverReturns(trace, i, j, k, trace[i].store.current.value);
    }
  }

  /** The pointer moves at commits and nowhere else, to the committed snapshot; without a commit the
      reader view stays as it is. */
  lemma ViewChangesOnlyAtCommits(s: System, a: Action, t: System)
    requires Inv(s) && Next(s, a) == Some(t)
    ensures IsCommit(s, a) ==> t.store.current == Some(s.jobs[a.id].sid) && t.store.current != s.store.current
    ensures !IsCommit(s, a) ==> t.store.current == s.store.current && View(t.store) == View(s.store)
  {
    NextKeepsInv(s, a, t);
    if a.Step? {
      assert JobOk(s.store, s.running, s.captured, a.id, s.jobs[a.id]);
      if !IsCommit(s, a) {
        NonCommitKeepsPointer(s.store, s.running, a.id, s.jobs[a.id], a.input);
      }
    } else if a.ShutdownAbort? {
      ShutdownKeepsInv(s, a.sid, t);
    }
  }

  lemma NonCommitKeepsPointer(st: Store, running: Option<Handle>, id: JobId, job: Job, input: Input)
    requires !(job.pc.Commit? && job.checked && InProgressIn(st, job.sid))
    ensures var e := Act(st, running, id, job, input); e.Some? ==> e.value.store.current == st.current
  {}

  // ---------------------------------------------------------------- mutual exclusion and ownership

  /** At most one job is between `try_start` and the release of the slot. */
  lemma AtMostOneJobHolds(s: System, i: JobId, k: JobId)
    requires Inv(s) && i in s.jobs && k in s.jobs
    requires Holding(s.jobs[i].pc) && Holding(s.jobs[k].pc)
    ensures i == k
  {
    assert JobOk(s.store, s.running, s.captured, i, s.jobs[i]);
    assert JobOk(s.store, s.running, s.captured, k, s.jobs[k]);
  }

  /** Who may change the store: a job opening its own new snapshot, a rejected job failing its own,
      a shutdown failing one, or the job whose handle occupies the slot, and that one only inside its
      own snapshot. */
  lemma OnlyTheSlotHolderWrites(s: System, a: Action, t: System)
    requires Inv(s) && Next(s, a) == Some(t) && t.store != s.store
    ensures || a.ShutdownAbort?
            || (a.Step? && s.jobs[a.id].pc.BeginSnapshot? && OnlyTouches(s.store, t.store, s.store.lastId + 1))
            || (a.Step? && s.jobs[a.id].pc.RejectAbort? && OnlyTouches(s.store, t.store, s.jobs[a.id].sid))
            || (a.Step? && s.running == Some(Handle(a.id, s.jobs[a.id].sid))
                && OnlyTouches(s.store, t.store, s.jobs[a.id].sid))
  {
    if a.Step? {
      var job := s.jobs[a.id];
      var e := Act(s.store, s.running, a.id, job, a.input).value;
      ActKeeps(s.store, s.running, s.captured, a.id, job, a.input, e);
      WritingActs(s.store, s.running, s.captured, a.id, job, a.input, e);
      if job.pc.BeginSnapshot? {
        BeginEvolves(s.store, TriggerOf(job.kind), job.parent);
      }
    }
  }

  /** Where a job stands when its step changes the store. */
  lemma WritingActs(st: Store, running: Option<Handle>, captured: set<SnapshotId>, id: JobId, job: Job, input: Input,
        e: Effect)
    requires JobOk(st, running, captured, id, job) && Act(st, running, id, job, input) == Some(e) && e.store != st
    ensures || job.pc.BeginSnapshot?
            || (job.pc.RejectAbort? && e.job.sid == job.sid)
            || (running == Some(Handle(id, job.sid)) && e.job.sid == job.sid)
  {
    assert job.pc.BeginSnapshot? || job.pc.RejectAbort? || Holding(job.pc);
  }

  /** `try_start` succeeds exactly on an idle coordinator, that is, unless some job still runs inside the
      region that ends by a release or the last occupant leaked the slot; a refusal leaves slot and
      store alone. */
  lemma TryStartIsSingleFlight(s: System, id: JobId, input: Input, t: System)
    requires Inv(s) && id in s.jobs && s.jobs[id].pc.TryStart? && Next(s, Step(id, input)) == Some(t)
    ensures t.jobs[id].pc.Enumerate? <==> s.running.None?
    ensures t.jobs[id].pc.RejectAbort? <==> Leaked(s) || exists k :: k in s.jobs && Holding(s.jobs[k].pc)
    ensures s.running.None? ==> t.running == Some(Handle(id, s.jobs[id].sid))
    ensures s.running.Some? ==> t.running == s.running && t.jobs[id].pc.RejectAbort?
    ensures t.store == s.store
  {
    forall k | k in s.jobs && Holding(s.jobs[k].pc) ensures s.running.Some? {
      assert JobOk(s.store, s.running, s.captured, k, s.jobs[k]);
    }
    if s.running.Some? {
      OccupantRunsOrLeaked(s);
      assert Leaked(s) || Holding(s.jobs[s.running.value.job].pc);
    }
  }

  /** The refused job's own `abort_snapshot` never raises, whatever shutdowns run beside it. */
  lemma RejectionAlwaysEndsRejected(s: System, id: JobId, input: Input, t: System)
    requires Inv(s) && id in s.jobs && s.jobs[id].pc.RejectAbort? && Next(s, Step(id, input)) == Some(t)
    ensures t.jobs[id].pc.RejectAbort? || (t.jobs[id].pc == Done(Rejected) && FailedIn(t.store, s.jobs[id].sid))
    ensures t.running == s.running && View(t.store) == View(s.store)
  {
    assert JobOk(s.store, s.running, s.captured, id, s.jobs[id]);
  }

  /** The slot is given back by its occupant only: while job `id` occupies it, no step of anybody else
      frees it or hands it on. */
  lemma OnlyTheHolderReleases(s: System, a: Action, t: System)
    requires Inv(s) && Next(s, a) == Some(t) && s.running.Some? && t.running != s.running
    ensures a.Step? && a.id == s.running.value.job && t.running.None?
    ensures s.jobs[a.id].pc.Complete? || s.jobs[a.id].pc.Unwind?
  {
    if a.Step? {
      assert JobOk(s.store, s.running, s.captured, a.id, s.jobs[a.id]);
      StepKeepsInv(s, a.id, a.input, t);
    } else if a.EndAgain? {
      EndAgainIsNoOp(s, a.id, t);
    }
  }

  // ---------------------------------------------------------------- how jobs end

  /** Every ended job but a crashed one holds no slot; unless it committed, its snapshot (if it opened
      one) is failed and not current. A crashed job's snapshot is never the current one. */
  lemma EndingsAreClean(s: System, id: JobId)
    requires Inv(s) && id in s.jobs && s.jobs[id].pc.Done?
    ensures var job := s.jobs[id]; var how := job.pc.how;
            && (how.Committed? <==> job.sid != 0 && CompletedIn(s.store, job.sid))
            && (how.Rejected? || how.GitLabFailure? || how.AbortRaised? ==> job.sid != 0)
            && (!how.Committed? && !how.Crashed? && job.sid != 0 ==> FailedIn(s.store, job.sid))
            && (!how.Committed? && job.sid != 0 ==> s.store.current != Some(job.sid))
            && (!how.Crashed? ==> !(s.running.Some? && s.running.value.job == id))
  {
    assert JobOk(s.store, s.running, s.captured, id, s.jobs[id]);
  }

  /** The slot is leaked: its occupant ended by an exception no handler names. */
  predicate Leaked(s: System) {
    s.running.Some? && s.running.value.job in s.jobs && s.jobs[s.running.value.job].pc == Done(Crashed)
  }

  /** A job occupying the slot either still runs, inside the region that ends by a release, or has
      leaked it. */
  lemma OccupantRunsOrLeaked(s: System)
    requires Inv(s) && s.running.Some?
    ensures Leaked(s) <==> !Holding(s.jobs[s.running.value.job].pc)
  {
    var id := s.running.value.job;
    assert JobOk(s.store, s.running, s.captured, id, s.jobs[id]);
  }

  lemma LeakPersists(s: System, a: Action, t: System)
    requires Inv(s) && Leaked(s) && Next(s, a) == Some(t)
    ensures Leaked(t) && t.running == s.running && View(t.store) == View(s.store)
  {
    if t.running != s.running {
      OnlyTheHolderReleases(s, a, t);
    }
    if a.Step? {
      assert JobOk(s.store, s.running, s.captured, a.id, s.jobs[a.id]);
    }
    assert !IsCommit(s, a);
    ViewChangesOnlyAtCommits(s, a, t);
  }

  /** A leaked slot is never given back in this process, and readers keep the view they had. */
  lemma {:induction false} LeakFreezesTheView(trace: seq<System>, i: nat, j: nat)
    requires Run(trace) && i <= j < |trace| && Leaked(trace[i])
    ensures Leaked(trace[j]) && trace[j].running == trace[i].running && View(trace[j].store) == View(trace[i].store)
    decreases j
  {
    if i < j {
      LeakFreezesTheView(trace, i, j - 1);
      RunInv(trace, j - 1);
      assert CanStep(trace[j - 1], trace[j - 1 + 1]);
      var a :| Next(trace[j - 1], a) == Some(trace[j]);
      LeakPersists(trace[j - 1], a, trace[j]);
    }
  }

  // ---------------------------------------------------------------- jobs terminate

  /** An upper bound on the steps a job has left, when no enumeration lists more than `n` projects. */
  function StepsLeft(job: Job, n: nat): nat {
    var rest := if job.next < |job.enumerated| then |job.enumerated| - job.next else 0;
    var c, f := if job.checked then 1 else 0, if job.fetched.Some? then 1 else 0;
    match job.pc
    case ReadPointer => 3 * n + 13
    case ScopePointer => 3 * n + 12
    case ScopeRow => 3 * n + 11
    case BeginSnapshot => 3 * n + 10
    case TryStart => 3 * n + 9
    case Enumerate => 3 * n + 8
    case Populate => 3 * |job.enumerated| + 7 - c
    case Analyze => if rest == 0 then 5 else 5 + 3 * rest - c - f
    case Commit => 4 - c
    case Abort(_) => 3 - c
    case RejectAbort => 2 - c
    case Complete | Unwind(_) => 1
    case Done(_) => 0
  }

  lemma AnalyzeStepsDecrease(st: Store, job: Job, input: Input, n: nat)
    requires job.pc.Analyze?
    ensures var r := AnalyzeStep(st, job, input); r.Some? ==> StepsLeft(r.value.0, n) < StepsLeft(job, n)
  {}

  lemma EnumerateStepsDecrease(job: Job, input: Input, n: nat)
    requires job.pc.Enumerate?
    requires input.Enumerated? ==> |input.projects| <= n
    ensures var r := EnumerateStep(job, input); r.Some? ==> StepsLeft(r.value, n) < StepsLeft(job, n)
  {}

  /** Every step a job takes brings it closer to its end. */
  lemma StepsDecrease(st: Store, running: Option<Handle>, id: JobId, job: Job, input: Input, n: nat)
    requires input.Enumerated? ==> |input.projects| <= n
    ensures var e := Act(st, running, id, job, input); e.Some? ==> StepsLeft(e.value.job, n) < StepsLeft(job, n)
  {
    match job.pc
    case Enumerate => EnumerateStepsDecrease(job, input, n);
    case Analyze => AnalyzeStepsDecrease(st, job, input, n);
    case _ =>
  }

  /** How many of the actions are steps of job `id`. */
  function StepsOf(actions: seq<Action>, id: JobId): nat {
    if actions == [] then 0
    else
      var a := actions[|actions| - 1];
      StepsOf(actions[..|actions| - 1], id) + (if a.Step? && a.id == id then 1 else 0)
  }

  /** A run together with the actions that drive it. */
  ghost predicate Drives(actions: seq<Action>, trace: seq<System>) {
    && |trace| == |actions| + 1
    && Init(trace[0])
    && forall i :: 0 <= i < |actions| ==> Next(trace[i], actions[i]) == Some(trace[i + 1])
  }

  /** Enumerations list at most `n` projects. */
  predicate Bounded(actions: seq<Action>, n: nat) {
    forall a :: a in actions && a.Step? && a.input.Enumerated? ==> |a.input.projects| <= n
  }

  lemma OthersKeepStepsLeft(s: System, a: Action, t: System, id: JobId, n: nat)
    requires Next(s, a) == Some(t) && id in s.jobs && !(a.Step? && a.id == id)
    ensures id in t.jobs && StepsLeft(t.jobs[id], n) <= StepsLeft(s.jobs[id], n)
  {}

  /** However it is interleaved, a job takes at most 3n + 13 steps. */
  lemma {:induction false} JobsTakeBoundedlyManySteps(actions: seq<Action>, trace: seq<System>, id: JobId, n: nat)
    requires Drives(actions, trace) && Bounded(actions, n)
    ensures StepsOf(actions, id) <= 3 * n + 13
    ensures id !in trace[|actions|].jobs ==> StepsOf(actions, id) == 0
    ensures id in trace[|actions|].jobs ==> StepsOf(actions, id) + StepsLeft(trace[|actions|].jobs[id], n) <= 3 * n + 13
  {
    if actions != [] {
      var m := |actions| - 1;
      var front, last := actions[..m], actions[m];
      JobsTakeBoundedlyManySteps(front, trace[..|trace| - 1], id, n);
      assert last in actions;
      var s, t := trace[m], trace[m + 1];
      if id in s.jobs {
        if last.Step? && last.id == id {
          StepsDecrease(s.store, s.running, id, s.jobs[id], last.input, n);
        } else {
          OthersKeepStepsLeft(s, last, t, id, n);
        }
      } else if last.Spawn? {
      }
    }
  }

  /** A job that has not ended always has a step for some answer of the environment. */
  lemma NeverStuck(s: System, id: JobId)
    requires Inv(s) && id in s.jobs && !s.jobs[id].pc.Done?
    ensures exists input :: Next(s, Step(id, input)).Some?
  {
    var job := s.jobs[id];
    assert JobOk(s.store, s.running, s.captured, id, job);
    var input := if job.pc.Enumerate? then Enumerated([]) else AnalysedAs("");
    assert Next(s, Step(id, input)).Some?;
  }

  // ---------------------------------------------------------------- what a committed snapshot means

  /** A committed full refresh shows the enumeration: its catalog, profiles of exactly the projects
      with a commit SHA, skips for exactly the others. */
  lemma CommittedFullRefreshMeansEnumeration(s: System, id: JobId)
    requires Inv(s) && id in s.jobs && s.jobs[id].kind.FullRefresh? && HasCommitted(s.jobs[id].pc)
    ensures var job := s.jobs[id]; var es := job.enumerated;
            && CompletedIn(s.store, job.sid)
            && var snap := s.store.snapshots[job.sid];
            && snap.catalog == CatalogRows(es)
            && snap.catalog.Keys == Ids(es)
            && Identities(snap.profiles) == Analysed(es)
            && snap.skips == SkipRows(es)
            && snap.profiles.Keys + SkippedIds(es) == snap.catalog.Keys
            && (DistinctIds(es) ==> snap.profiles.Keys !! SkippedIds(es))
  {
    var job := s.jobs[id];
    var es := job.enumerated;
    assert JobOk(s.store, s.running, s.captured, id, job);
    var snap := s.store.snapshots[job.sid];
    assert es[..job.next] == es;
    assert snap.profiles == job.written by {
      assert BaseSnapshot(s.store, job).profiles == map[];
      assert map[] + job.written == job.written;
    }
    CatalogRowsMeaning(es);
    ProfilesAndSkipsCoverCatalog(es);
    assert Identities(snap.profiles).Keys == snap.profiles.Keys;
  }

  /** A committed single-project refresh shows its recorded parent, overridden at most at the
      refreshed project, and not even there when its branch is missing. */
  lemma CommittedSingleRefreshMeansParent(s: System, id: JobId)
    requires Inv(s) && id in s.jobs && s.jobs[id].kind.SingleRefresh? && HasCommitted(s.jobs[id].pc)
    ensures var job := s.jobs[id];
            && |job.enumerated| == 1
            && var e := job.enumerated[0];
            && e.id == job.kind.project
            && job.parent.Some? && CompletedIn(s.store, job.parent.value) && CompletedIn(s.store, job.sid)
            && var parent, snap := s.store.snapshots[job.parent.value], s.store.snapshots[job.sid];
            && snap.parent == job.parent
            && snap.catalog == parent.catalog
            && (e.sha.None? ==> snap.profiles == parent.profiles && snap.skips == [MissingBranchSkip(e)])
            && (e.sha.Some? ==>
                  && snap.skips == []
                  && snap.profiles.Keys == parent.profiles.Keys + {e.id}
                  && IdentityOf(snap.profiles[e.id]) == Identity(e.path, e.branch, e.sha.value)
                  && forall p :: p in parent.profiles && p != e.id ==> snap.profiles[p] == parent.profiles[p])
  {
    var job := s.jobs[id];
    assert JobOk(s.store, s.running, s.captured, id, job);
    var es := job.enumerated;
    var e := es[0];
    assert e in es;
    assert es[..job.next] == es == [e];
    assert es[..0] == [];
    assert SkipRows(es) == (if e.sha.None? then [MissingBranchSkip(e)] else []);
    var identities := if e.sha.None? then map[] else map[e.id := Identity(e.path, e.branch, e.sha.value)];
    assert Analysed(es) == identities;
    assert job.written.Keys == Identities(job.written).Keys;
    if e.sha.Some? {
      assert job.written.Keys == {e.id};
      assert IdentityOf(job.written[e.id]) == Identities(job.written)[e.id];
    }
  }

  // ---------------------------------------------------------------- every profile is in the catalog

  predicate Covered(snap: Snapshot) {
    snap.profiles.Keys <= snap.catalog.Keys
  }

  predicate ViewCovered(st: Store) {
    View(st).Some? ==> Covered(View(st).value)
  }

  /** Exactly when a committed single-project refresh keeps "every profile id is in the catalog": the
      branch is missing, or the recorded parent's catalog lists the project. */
  lemma SingleRefreshCoveredIff(s: System, id: JobId)
    requires Inv(s) && id in s.jobs && s.jobs[id].kind.SingleRefresh? && HasCommitted(s.jobs[id].pc)
    requires s.jobs[id].parent.Some? && s.jobs[id].parent.value in s.store.snapshots
    requires Covered(s.store.snapshots[s.jobs[id].parent.value])
    requires s.jobs[id].sid in s.store.snapshots && |s.jobs[id].enumerated| == 1
    ensures Covered(s.store.snapshots[s.jobs[id].sid]) <==>
              || s.jobs[id].enumerated[0].sha.None?
              || s.jobs[id].kind.project in s.store.snapshots[s.jobs[id].parent.value].catalog
  {
    CommittedSingleRefreshMeansParent(s, id);
  }

  /** The recorded parent is still current when the job commits. */
  predicate CommitsFresh(s: System, a: Action)
    requires IsCommit(s, a)
  {
    s.jobs[a.id].kind.FullRefresh? || s.store.current == s.jobs[a.id].parent
  }

  /** A full refresh, or a single-project refresh whose parent is still current, keeps the view
      covered. */
  lemma FreshCommitKeepsCovered(s: System, a: Action, t: System)
    requires Inv(s) && IsCommit(s, a) && CommitsFresh(s, a) && ViewCovered(s.store) && Next(s, a) == Some(t)
    ensures ViewCovered(t.store)
  {
    var job, job' := s.jobs[a.id], t.jobs[a.id];
    NextKeepsInv(s, a, t);
    assert JobOk(s.store, s.running, s.captured, a.id, job);
    assert job' == job.(checked := false, pc := Complete) && t.store.current == Some(job.sid);
    if job.kind.FullRefresh? {
      CommittedFullRefreshMeansEnumeration(t, a.id);
    } else {
      assert job.scope == job.parent;
      CommittedSingleRefreshMeansParent(t, a.id);
      assert t.store.snapshots[job.parent.value] == s.store.snapshots[job.parent.value];
      SingleRefreshCoveredIff(t, a.id);
    }
  }

  /** Every commit of the run is a full refresh or finds its recorded parent still current. */
  ghost predicate AllCommitsFresh(trace: seq<System>) {
    forall i, a :: 0 <= i < |trace| - 1 && Next(trace[i], a) == Some(trace[i + 1]) && IsCommit(trace[i], a)
      ==> CommitsFresh(trace[i], a)
  }

  /** Along the whole chain of snapshots, as long as no stale parent is committed, every profile shown
      belongs to a project in the catalog shown with it. */
  lemma {:induction false} ViewStaysCovered(trace: seq<System>, i: nat)
    requires Run(trace) && i < |trace| && AllCommitsFresh(trace) && ViewCovered(trace[0].store)
    ensures ViewCovered(trace[i].store)
  {
    if i > 0 {
      ViewStaysCovered(trace, i - 1);
      RunInv(trace, i - 1);
      assert CanStep(trace[i - 1], trace[i - 1 + 1]);
      var a :| Next(trace[i - 1], a) == Some(trace[i - 1 + 1]);
      if IsCommit(trace[i - 1], a) {
        FreshCommitKeepsCovered(trace[i - 1], a, trace[i]);
      } else {
        ViewChangesOnlyAtCommits(trace[i - 1], a, trace[i]);
      }
    }
  }

  // ---------------------------------------------------------------- coverage along a whole run

  /** Every committed snapshot, current or not, shows profiles of catalogued projects only. */
  ghost predicate AllCovered(st: Store) {
    forall sid :: CompletedIn(st, sid) ==> Covered(st.snapshots[sid])
  }

  /** The commit is a full refresh, records a missing branch, or has a parent that lists its project. */
  predicate CommitsListed(s: System, a: Action)
    requires IsCommit(s, a)
  {
    var job := s.jobs[a.id];
    || job.kind.FullRefresh?
    || (job.enumerated != [] && job.enumerated[0].sha.None?)
    || (job.parent.Some? && job.parent.value in s.store.snapshots
        && job.kind.project in s.store.snapshots[job.parent.value].catalog)
  }

  /** The step from state `m` to the next is such a commit, or none. */
  ghost predicate ListedAt(trace: seq<System>, m: nat)
    requires m + 1 < |trace|
  {
    forall a :: IsCommit(trace[m], a) && Next(trace[m], a) == Some(trace[m + 1]) ==> CommitsListed(trace[m], a)
  }

  /** What a commit step completes is covered exactly when it is listed. */
  lemma CommitCoveredIff(s: System, a: Action, t: System)
    requires Inv(s) && IsCommit(s, a) && AllCovered(s.store) && Next(s, a) == Some(t)
    ensures AllCovered(t.store) <==> CommitsListed(s, a)
  {
    var job, job' := s.jobs[a.id], t.jobs[a.id];
    NextKeepsInv(s, a, t);
    assert JobOk(s.store, s.running, s.captured, a.id, job);
    assert job' == job.(checked := false, pc := Complete) && CompletedIn(t.store, job.sid);
    if job.kind.FullRefresh? {
      CommittedFullRefreshMeansEnumeration(t, a.id);
    } else {
      CommittedSingleRefreshMeansParent(t, a.id);
      assert CompletedIn(s.store, job.parent.value);
      assert t.store.snapshots[job.parent.value] == s.store.snapshots[job.parent.value];
      SingleRefreshCoveredIff(t, a.id);
    }
    CommitCompletesOne(s, a, t);
  }

  lemma CommitCompletesOne(s: System, a: Action, t: System)
    requires IsCommit(s, a) && Next(s, a) == Some(t)
    ensures forall sid :: CompletedIn(t.store, sid) && sid != s.jobs[a.id].sid ==>
              CompletedIn(s.store, sid) && t.store.snapshots[sid] == s.store.snapshots[sid]
  {}

  /** Any other step completes nothing. */
  lemma NonCommitCompletesNothing(s: System, a: Action, t: System)
    requires Inv(s) && !IsCommit(s, a) && Next(s, a) == Some(t)
    ensures forall sid :: CompletedIn(t.store, sid) ==>
              CompletedIn(s.store, sid) && t.store.snapshots[sid] == s.store.snapshots[sid]
  {
    NextKeepsInv(s, a, t);
    if a.Step? {
      forall sid | CompletedIn(t.store, sid) ensures CompletedIn(s.store, sid) {
        StepCompletesNothing(s.store, s.running, a.id, s.jobs[a.id], a.input, sid);
      }
    }
  }

  lemma StepCompletesNothing(st: Store, running: Option<Handle>, id: JobId, job: Job, input: Input, sid: SnapshotId)
    requires StoreOk(st) && !(job.pc.Commit? && job.checked && InProgressIn(st, job.sid))
    ensures var e := Act(st, running, id, job, input);
            e.Some? && CompletedIn(e.value.store, sid) ==> CompletedIn(st, sid)
  {}

  lemma StepCoveredIff(trace: seq<System>, m: nat)
    requires Run(trace) && m + 1 < |trace| && AllCovered(trace[m].store)
    ensures AllCovered(trace[m + 1].store) <==> ListedAt(trace, m)
  {
    RunInv(trace, m);
    forall a | IsCommit(trace[m], a) && Next(trace[m], a) == Some(trace[m + 1])
      ensures AllCovered(trace[m + 1].store) <==> CommitsListed(trace[m], a)
    {
      CommitCoveredIff(trace[m], a, trace[m + 1]);
    }
    assert CanStep(trace[m], trace[m + 1]);
    var a :| Next(trace[m], a) == Some(trace[m + 1]);
    if !IsCommit(trace[m], a) {
      NonCommitCompletesNothing(trace[m], a, trace[m + 1]);
      ViewChangesOnlyAtCommits(trace[m], a, trace[m + 1]);
      forall b | IsCommit(trace[m], b) && Next(trace[m], b) == Some(trace[m + 1]) ensures CommitsListed(trace[m], b) {
        ViewChangesOnlyAtCommits(trace[m], b, trace[m + 1]);
      }
    }
  }

  /** What is uncovered stays so: a completed snapshot never changes. */
  lemma UncoveredStays(trace: seq<System>, m: nat, n: nat)
    requires Run(trace) && m <= n < |trace| && AllCovered(trace[n].store)
    ensures AllCovered(trace[m].store)
  {
    forall sid | CompletedIn(trace[m].store, sid) ensures Covered(trace[m].store.snapshots[sid]) {
      CompletedIsFrozen(trace, m, n, sid);
    }
  }

  lemma CoveredStepIff(trace: seq<System>, m: nat)
    requires Run(trace) && m + 1 < |trace|
    ensures AllCovered(trace[m + 1].store) <==> AllCovered(trace[m].store) && ListedAt(trace, m)
  {
    if AllCovered(trace[m].store) {
      StepCoveredIff(trace, m);
    } else if AllCovered(trace[m + 1].store) {
      UncoveredStays(trace, m, m + 1);
    }
  }

  /** Along any run over covered snapshots, everything committed so far shows profiles of catalogued
      projects only exactly when every commit so far was listed: the first one that is not breaks it,
      for good. */
  lemma {:induction false} RunCoveredIff(trace: seq<System>, n: nat)
    requires Run(trace) && n < |trace| && AllCovered(trace[0].store)
    ensures AllCovered(trace[n].store) <==> forall m :: 0 <= m < n ==> ListedAt(trace, m)
  {
    if n > 0 {
      RunCoveredIff(trace, n - 1);
      CoveredStepIff(trace, n - 1);
      assert (forall m :: 0 <= m < n ==> ListedAt(trace, m)) <==>
             (forall m :: 0 <= m < n - 1 ==> ListedAt(trace, m)) && ListedAt(trace, n - 1);
    }
  }

  /** A commit over a parent that is still current is listed. */
  lemma FreshCommitIsListed(s: System, a: Action)
    requires Inv(s) && IsCommit(s, a) && CommitsFresh(s, a)
    ensures CommitsListed(s, a)
  {
    assert JobOk(s.store, s.running, s.captured, a.id, s.jobs[a.id]);
  }
}
