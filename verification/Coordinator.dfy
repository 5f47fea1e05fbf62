/** The single-flight gate and the two refresh procedures as objects and methods, run start to end by
    one caller. What each procedure leaves behind is a function on stores, `FullRefresh` and
    `SingleRefresh`. */
module Coordinator {
  import opened Base
  import opened StoreModel
  import opened Readers
  import opened KnowledgeTables
  import Protocol

  /** An exception out of the connector, the analyzer or the store: one the procedures handle, or any
      other. */
  datatype JobError = GitLab(error: Protocol.GitLabError) | Other

  /** How a procedure returns or raises. */
  datatype Result =
    | Completes
    | RaisesInProgress
    | RaisesGitLab(error: Protocol.GitLabError)
    | RaisesNotInScope
    | RaisesOther

  // ---------------------------------------------------------------- specification functions

  /** `_analyze_enumerated_projects` from position `i` on; `answers[i]` is what fetching and analysing
      project `i` yields. Stops at the first exception. */
  function AnalyzeFrom(st: Store, sid: SnapshotId, es: seq<EnumeratedProject>,
        answers: seq<Outcome<string, JobError>>, i: nat)
    : (Store, Option<JobError>)
    requires i <= |es| == |answers|
    decreases |es| - i
  {
    if i == |es| then (st, None)
    else if es[i].sha.None? then
      var (st', r) := RecordSkip(st, sid, MissingBranchSkip(es[i]));
      if r.Raised? then (st', Some(Other)) else AnalyzeFrom(st', sid, es, answers, i + 1)
    else if answers[i].Raised? then (st, Some(answers[i].error))
    else
      var (st', r) := WriteProfile(st, sid, es[i].id, Protocol.RowFor(es[i], answers[i].value));
      if r.Raised? then (st', Some(Other)) else AnalyzeFrom(st', sid, es, answers, i + 1)
  }

  /** What a procedure leaves behind: the store, how it ends, and whether its handle still occupies
      the slot. */
  datatype Aftermath = Aftermath(store: Store, result: Result, leaked: bool)

  /** The error path: fail the snapshot, release the slot and raise `why`, unless failing raises. */
  function FailWith(st: Store, sid: SnapshotId, why: Result): Aftermath {
    var (st', r) := Abort(st, sid);
    Aftermath(st', if r.Ok? then why else RaisesOther, false)
  }

  /** The tail of both procedures: analyse, then commit or go down the matching error path. */
  function AnalyzeAndCommit(st: Store, sid: SnapshotId, es: seq<EnumeratedProject>,
        answers: seq<Outcome<string, JobError>>): Aftermath
    requires |es| == |answers|
  {
    var (st', failure) := AnalyzeFrom(st, sid, es, answers, 0);
    match failure
    case None =>
      var (committed, r) := Commit(st', sid);
      if r.Ok? then Aftermath(committed, Completes, false) else Aftermath(committed, RaisesOther, true)
    case Some(GitLab(e)) => FailWith(st', sid, RaisesGitLab(e))
    case Some(Other) => Aftermath(st', RaisesOther, true)
  }

  /** A full refresh from `try_start` on. */
  function FullFrom(st: Store, sid: SnapshotId, enumeration: Outcome<seq<EnumeratedProject>, JobError>,
                    answers: seq<Outcome<string, JobError>>): Aftermath
    requires enumeration.Ok? ==> |answers| == |enumeration.value|
  {
    match enumeration
    case Raised(GitLab(e)) => FailWith(st, sid, RaisesGitLab(e))
    case Raised(Other) => Aftermath(st, RaisesOther, true)
    case Ok(es) =>
      var (st', r) := Populate(st, sid, es);
      if r.Raised? then Aftermath(st', RaisesOther, true) else AnalyzeAndCommit(st', sid, es, answers)
  }

  /** A single-project refresh from `try_start` on; `answer` is what analysing the project yields. */
  function SingleFrom(st: Store, sid: SnapshotId, project: ProjectId,
        enumeration: Outcome<seq<EnumeratedProject>, JobError>,
                      answer: Outcome<string, JobError>): Aftermath
  {
    match enumeration
    case Raised(GitLab(e)) => FailWith(st, sid, RaisesGitLab(e))
    case Raised(Other) => Aftermath(st, RaisesOther, true)
    case Ok(es) =>
      var m := Protocol.Matching(es, project);
      if m == [] then FailWith(st, sid, RaisesNotInScope) else AnalyzeAndCommit(st, sid, m, [answer])
  }

  /** `start_full_refresh` on a store, with the slot busy or idle. */
  function FullRefresh(st: Store, busy: bool, enumeration: Outcome<seq<EnumeratedProject>, JobError>,
                       answers: seq<Outcome<string, JobError>>): Aftermath
    requires enumeration.Ok? ==> |answers| == |enumeration.value|
  {
    var begun := Begin(st, Full, None).0;
    if busy then FailWith(begun, st.lastId + 1, RaisesInProgress)
    else FullFrom(begun, st.lastId + 1, enumeration, answers)
  }

  /** A single-project refresh once its snapshot `sid` is open. */
  function StartSingleFrom(st: Store, sid: SnapshotId, busy: bool, project: ProjectId,
                           enumeration: Outcome<seq<EnumeratedProject>, JobError>,
                           answer: Outcome<string, JobError>): Aftermath
  {
    if busy then FailWith(st, sid, RaisesInProgress) else SingleFrom(st, sid, project, enumeration, answer)
  }

  /** The parent of a new single-project refresh: the current snapshot if it lists the project. */
  function ScopedParent(st: Store, project: ProjectId): (parent: Option<SnapshotId>)
    ensures parent.Some? ==> parent == st.current && parent.value in st.snapshots
  {
    if st.current.Some? && InScopeAt(st, st.current, project) then st.current else None
  }

  /** `start_single_project_refresh` on a store. */
  function SingleRefresh(st: Store, busy: bool, project: ProjectId,
        enumeration: Outcome<seq<EnumeratedProject>, JobError>,
                         answer: Outcome<string, JobError>): Aftermath
  {
    var parent := ScopedParent(st, project);
    if parent.None? then Aftermath(st, RaisesNotInScope, false)
    else StartSingleFrom(Begin(st, SingleProject, parent).0, st.lastId + 1, busy, project, enumeration, answer)
  }

  // ---------------------------------------------------------------- the objects

  class JobHandle {
    const coordinator: IngestionCoordinator
    const snapshotId: SnapshotId
    const trigger: Trigger
    var ended: bool

    constructor (coordinator: IngestionCoordinator, snapshotId: SnapshotId, trigger: Trigger)
      ensures this.coordinator == coordinator && this.snapshotId == snapshotId && this.trigger == trigger && !ended
    {
      this.coordinator, this.snapshotId, this.trigger, this.ended := coordinator, snapshotId, trigger, false;
    }

    /** `complete` and `abort`: ends the handle once, and frees the slot only if this handle occupies
        it. */
    method End()
      modifies this`ended, coordinator`running
      ensures ended
      ensures coordinator.running ==
              if !old(ended) && old(coordinator.running) == this then null else old(coordinator.running)
    {
      if ended { return; }
      ended := true;
      coordinator.Release(this);
    }
  }

  class IngestionCoordinator {
    const store: KnowledgeStore
    const catalog: ProjectCatalog
    var running: JobHandle?

    constructor (store: KnowledgeStore, catalog: ProjectCatalog)
      requires catalog.store == store
      ensures this.store == store && this.catalog == catalog && running == null
    {
      this.store, this.catalog, running := store, catalog, null;
    }

    /** The gate is idle, or occupied by a handle of its own that has not ended. */
    ghost predicate Valid()
      reads this, store, catalog, running
    {
      && catalog.store == store
      && store.Valid()
      && (running != null ==> running.coordinator == this && !running.ended)
    }

    method TryStart(trigger: Trigger, snapshotId: SnapshotId) returns (handle: JobHandle?)
      modifies this`running
      ensures old(running) != null ==> handle == null && running == old(running)
      ensures old(running) == null ==>
                && handle != null && fresh(handle) && running == handle
                && handle.coordinator == this && handle.snapshotId == snapshotId && handle.trigger == trigger
                && !handle.ended
    {
      if running != null { return null; }
      handle := new JobHandle(this, snapshotId, trigger);
      running := handle;
    }

    method Release(handle: JobHandle)
      modifies this`running
      ensures running == if old(running) == handle then null else old(running)
    {
      if running == handle { running := null; }
    }

    method AnalyzeEnumeratedProjects(sid: SnapshotId, es: seq<EnumeratedProject>,
          answers: seq<Outcome<string, JobError>>)
      returns (failure: Option<JobError>)
      requires store.Valid() && |es| == |answers|
      modifies store
      ensures store.Valid()
      ensures (store.View(), failure) == AnalyzeFrom(old(store.View()), sid, es, answers, 0)
    {
      for i := 0 to |es|
        invariant store.Valid()
        invariant AnalyzeFrom(store.View(), sid, es, answers, i) == AnalyzeFrom(old(store.View()), sid, es, answers, 0)
      {
        var e := es[i];
        if e.sha == None {
          var r := store.RecordSkip(sid, MissingBranchSkip(e));
          if r.Raised? { return Some(Other); }
        } else {
          if answers[i].Raised? { return Some(answers[i].error); }
          var r := store.WriteProfile(sid, e.id, Protocol.RowFor(e, answers[i].value));
          if r.Raised? { return Some(Other); }
        }
      }
      return None;
    }

    /** The error path shared by both procedures: `abort_snapshot`, then `handle.abort()` in any case. */
    method FailAndRelease(sid: SnapshotId, handle: JobHandle, why: Result) returns (r: Result)
      requires Valid() && running == handle
      modifies store`snapshots, this`running, handle`ended
      ensures Valid()
      ensures Aftermath(store.View(), r, running == handle) == FailWith(old(store.View()), sid, why)
      ensures running == null || running == handle
    {
      var aborted := store.AbortSnapshot(sid);
      handle.End();
      r := if aborted.Ok? then why else RaisesOther;
    }

    method AnalyzeCommitAndRelease(sid: SnapshotId, handle: JobHandle, es: seq<EnumeratedProject>,
                                   answers: seq<Outcome<string, JobError>>) returns (r: Result)
      requires Valid() && running == handle && |es| == |answers|
      modifies store, this`running, handle`ended
      ensures Valid()
      ensures Aftermath(store.View(), r, running == handle) == AnalyzeAndCommit(old(store.View()), sid, es, answers)
      ensures running == null || running == handle
    {
      var failure := AnalyzeEnumeratedProjects(sid, es, answers);
      match failure {
        case None =>
          var committed := store.CommitSnapshot(sid);
          if committed.Raised? { return RaisesOther; }
          handle.End();
          return Completes;
        case Some(GitLab(e)) =>
          r := FailAndRelease(sid, handle, RaisesGitLab(e));
        case Some(Other) =>
          return RaisesOther;
      }
    }

    /** The body of `start_full_refresh` under the running slot. */
    method RunFull(sid: SnapshotId, handle: JobHandle, enumeration: Outcome<seq<EnumeratedProject>, JobError>,
                   answers: seq<Outcome<string, JobError>>) returns (r: Result)
      requires Valid() && running == handle
      requires enumeration.Ok? ==> |answers| == |enumeration.value|
      modifies store, this`running, handle`ended
      ensures Valid()
      ensures Aftermath(store.View(), r, running == handle) == FullFrom(old(store.View()), sid, enumeration, answers)
      ensures running == null || running == handle
    {
      match enumeration {
        case Raised(GitLab(e)) => r := FailAndRelease(sid, handle, RaisesGitLab(e));
        case Raised(Other) => return RaisesOther;
        case Ok(es) =>
          var populated := catalog.PopulateInScope(sid, es);
          if populated.Raised? { return RaisesOther; }
          r := AnalyzeCommitAndRelease(sid, handle, es, answers);
      }
    }

    /** The body of `start_single_project_refresh` under the running slot. */
    method RunSingle(sid: SnapshotId, handle: JobHandle, project: ProjectId,
                     enumeration: Outcome<seq<EnumeratedProject>, JobError>, answer: Outcome<string, JobError>)
                   returns (r: Result)
      requires Valid() && running == handle
      modifies store, this`running, handle`ended
      ensures Valid()
      ensures Aftermath(store.View(), r, running == handle) ==
              SingleFrom(old(store.View()), sid, project, enumeration, answer)
      ensures running == null || running == handle
    {
      match enumeration {
        case Raised(GitLab(e)) => r := FailAndRelease(sid, handle, RaisesGitLab(e));
        case Raised(Other) => return RaisesOther;
        case Ok(es) =>
          var matching := Protocol.Matching(es, project);
          if matching == [] {
            r := FailAndRelease(sid, handle, RaisesNotInScope);
          } else {
            r := AnalyzeCommitAndRelease(sid, handle, matching, [answer]);
          }
      }
    }

    method StartFullRefresh(enumeration: Outcome<seq<EnumeratedProject>, JobError>,
          answers: seq<Outcome<string, JobError>>)
      returns (r: Result)
      requires Valid()
      requires enumeration.Ok? ==> |answers| == |enumeration.value|
      modifies this`running, store
      ensures Valid()
      ensures var after := FullRefresh(old(store.View()), old(running) != null, enumeration, answers);
              && store.View() == after.store && r == after.result
              && (old(running) != null ==> running == old(running))
              && (old(running) == null ==> (running != null <==> after.leaked))
      ensures old(running) == null && running != null ==> running.snapshotId == old(store.View()).lastId + 1
    {
      var begun := store.BeginSnapshot(Full, None);
      var handle := TryStart(Full, begun.value);
      if handle == null {
        var aborted := store.AbortSnapshot(begun.value);
        return if aborted.Ok? then RaisesInProgress else RaisesOther;
      }
      r := RunFull(begun.value, handle, enumeration, answers);
    }

    /** A single-project refresh once its snapshot is open. */
    method StartAndRunSingle(sid: SnapshotId, project: ProjectId,
                             enumeration: Outcome<seq<EnumeratedProject>, JobError>,
                             answer: Outcome<string, JobError>) returns (r: Result)
      requires Valid()
      modifies this`running, store
      ensures Valid()
      ensures var after := StartSingleFrom(old(store.View()), sid, old(running) != null, project, enumeration, answer);
              && store.View() == after.store && r == after.result
              && (old(running) != null ==> running == old(running))
              && (old(running) == null ==> (running != null <==> after.leaked))
      ensures old(running) == null && running != null ==> running.snapshotId == sid
    {
      var handle := TryStart(SingleProject, sid);
      if handle == null {
        var aborted := store.AbortSnapshot(sid);
        return if aborted.Ok? then RaisesInProgress else RaisesOther;
      }
      r := RunSingle(sid, handle, project, enumeration, answer);
    }

    /** The pointer read and the scope check that open a single-project refresh. */
    method CheckScope(project: ProjectId) returns (parent: Option<SnapshotId>)
      requires Valid()
      ensures parent == ScopedParent(store.View(), project)
    {
      parent := store.GetCurrentSnapshotId();
      if parent == None { return None; }
      var inScope := catalog.IsInScope(project);
      if !inScope { return None; }
    }

    /** `begin_snapshot` on a parent that exists. */
    method OpenSingle(parent: SnapshotId) returns (sid: SnapshotId)
      requires Valid() && parent in store.View().snapshots
      modifies store
      ensures Valid()
      ensures store.View() == Begin(old(store.View()), SingleProject, Some(parent)).0
      ensures sid == old(store.View()).lastId + 1
    {
      var begun := store.BeginSnapshot(SingleProject, Some(parent));
      sid := begun.value;
    }

    method StartSingleProjectRefresh(project: ProjectId, enumeration: Outcome<seq<EnumeratedProject>, JobError>,
                                     answer: Outcome<string, JobError>) returns (r: Result)
      requires Valid()
      modifies this`running, store
      ensures Valid()
      ensures var after := SingleRefresh(old(store.View()), old(running) != null, project, enumeration, answer);
              && store.View() == after.store && r == after.result
              && (old(running) != null ==> running == old(running))
              && (old(running) == null ==> (running != null <==> after.leaked))
      ensures old(running) == null && running != null ==> running.snapshotId == old(store.View()).lastId + 1
    {
      var parent := CheckScope(project);
      if parent == None { return RaisesNotInScope; }
      var sid := OpenSingle(parent.value);
      r := StartAndRunSingle(sid, project, enumeration, answer);
    }
  }
}
