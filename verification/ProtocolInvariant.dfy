/** The inductive invariant of the ingestion protocol and the proof that every step keeps it. */
module ProtocolInvariant {
  import opened Base
  import opened StoreModel
  import opened Protocol

  // ---------------------------------------------------------------- the invariant

  /** Program points between a successful `try_start` and the release of the slot. */
  predicate Holding(pc: Pc) {
    pc.Enumerate? || pc.Populate? || pc.Analyze? || pc.Commit? || pc.Complete? || pc.Abort? || pc.Unwind?
  }

  /** Program points before `begin_snapshot` returns. */
  predicate BeforeBegin(pc: Pc) {
    pc.ReadPointer? || pc.ScopePointer? || pc.ScopeRow? || pc.BeginSnapshot?
  }

  /** Program points between `begin_snapshot` and the slot. */
  predicate BeforeSlot(pc: Pc) {
    pc.TryStart? || pc.RejectAbort?
  }

  /** The job's snapshot has been committed. */
  predicate HasCommitted(pc: Pc) {
    pc.Complete? || pc == Done(Committed)
  }

  /** The job is on its way to a commit, or has reached it. */
  predicate OnCourse(pc: Pc) {
    BeforeSlot(pc) || pc.Enumerate? || pc.Populate? || pc.Analyze? || pc.Commit? || HasCommitted(pc)
  }

  /** Errors a job's error path can end with. */
  predicate Handled(why: Ending) {
    why.GitLabFailure? || why.NotInScope? || why.AbortRaised? || why.Crashed?
  }

  ghost predicate SlotOk(running: Option<Handle>, id: JobId, job: Job) {
    && (Holding(job.pc) ==> running == Some(Handle(id, job.sid)))
    && (running.Some? && running.value.job == id ==>
          running.value.sid == job.sid && job.sid != 0 && (Holding(job.pc) || job.pc == Done(Crashed)))
  }

  ghost predicate StatusOk(st: Store, captured: set<SnapshotId>, job: Job) {
    && (BeforeBegin(job.pc) ==> job.sid == 0 && job.enumerated == [] && job.next == 0 && job.written == map[])
    && (job.sid == 0 ==> BeforeBegin(job.pc) || job.pc == Done(NotInScope) || job.pc == Done(Crashed))
    && (job.sid != 0 ==>
          && job.sid in st.snapshots
          && st.snapshots[job.sid].trigger == TriggerOf(job.kind)
          && st.snapshots[job.sid].parent == job.parent)
    && (BeforeSlot(job.pc) ==> InProgressIn(st, job.sid) && job.sid !in captured)
    && (HasCommitted(job.pc) ==> CompletedIn(st, job.sid))
    && (job.sid != 0 && !HasCommitted(job.pc) ==> !CompletedIn(st, job.sid))
    && (job.pc.Abort? ==> Handled(job.pc.why))
    && (job.pc.Unwind? ==> Handled(job.pc.why) && (!job.pc.why.Crashed? ==> FailedIn(st, job.sid)))
    && (job.pc.Done? && job.sid != 0 && !job.pc.how.Committed? && !job.pc.how.Crashed? ==> FailedIn(st, job.sid))
    && (job.pc == Done(Rejected) ==> job.sid != 0 && job.sid !in captured)
  }

  ghost predicate ParentOk(st: Store, job: Job) {
    && (job.kind.FullRefresh? ==>
          job.parent.None? && job.scope.None? && !job.pc.ReadPointer? && !job.pc.ScopePointer? && !job.pc.ScopeRow?)
    && (job.parent.Some? ==> CompletedIn(st, job.parent.value))
    && (job.scope.Some? ==> job.parent.Some? && CompletedIn(st, job.scope.value))
    && (job.pc.ReadPointer? ==> job.parent.None? && job.scope.None?)
    && (job.kind.SingleRefresh? && job.pc.ScopePointer? ==> job.parent.Some? && job.scope.None?)
    && (job.kind.SingleRefresh? && job.pc.ScopeRow? ==> job.parent.Some? && job.scope.Some?)
    && (job.kind.SingleRefresh? && (job.pc.BeginSnapshot? || job.sid != 0) ==>
          && job.parent.Some? && job.scope.Some?
          && job.kind.project in st.snapshots[job.scope.value].catalog)
    && (job.scope.Some? && st.current == job.parent ==> job.scope == job.parent)
  }

  /** What the job's snapshot starts from: its parent's rows, or nothing. */
  function BaseSnapshot(st: Store, job: Job): Snapshot {
    if job.parent.Some? && job.parent.value in st.snapshots then st.snapshots[job.parent.value]
    else Snapshot(InProgress, Full, None, map[], map[], [])
  }

  /** What the job's snapshot contains, while the job is on course. */
  ghost predicate ContentOk(snap: Snapshot, base: Snapshot, job: Job) {
    && job.next <= |job.enumerated|
    && Identities(job.written) == Analysed(job.enumerated[..job.next])
    && snap.profiles == base.profiles + job.written
    && snap.skips == SkipRows(job.enumerated[..job.next])
    && (BeforeSlot(job.pc) || job.pc.Enumerate? ==> job.enumerated == [])
    && (job.pc.Populate? ==> job.next == 0 && job.kind.FullRefresh?)
    && (job.kind.SingleRefresh? ==>
          && snap.catalog == base.catalog
          && |job.enumerated| <= 1
          && (forall e :: e in job.enumerated ==> e.id == job.kind.project)
          && (job.pc.Analyze? || job.pc.Commit? || HasCommitted(job.pc) ==> |job.enumerated| == 1))
    && (job.kind.FullRefresh? ==>
          snap.catalog == if BeforeSlot(job.pc) || job.pc.Enumerate? || job.pc.Populate? then map[]
                          else CatalogRows(job.enumerated))
    && (job.pc.Commit? || HasCommitted(job.pc) ==> job.next == |job.enumerated|)
  }

  /** The job stands where it should with respect to slot, statuses and parent. */
  ghost predicate Standing(st: Store, running: Option<Handle>, captured: set<SnapshotId>, id: JobId, job: Job) {
    SlotOk(running, id, job) && StatusOk(st, captured, job) && ParentOk(st, job)
  }

  ghost predicate JobOk(st: Store, running: Option<Handle>, captured: set<SnapshotId>, id: JobId, job: Job) {
    && Standing(st, running, captured, id, job)
    && (OnCourse(job.pc) ==> ContentOk(st.snapshots[job.sid], BaseSnapshot(st, job), job))
  }

  ghost predicate Inv(s: System) {
    && StoreOk(s.store)
    && (s.running.Some? ==> s.running.value.job in s.jobs)
    && (forall sid :: sid in s.captured ==> sid in s.store.snapshots)
    && (forall id :: id in s.jobs ==> JobOk(s.store, s.running, s.captured, id, s.jobs[id]))
    && (forall i, k :: i in s.jobs && k in s.jobs && i != k && s.jobs[i].sid != 0 ==> s.jobs[i].sid != s.jobs[k].sid)
  }

  // ---------------------------------------------------------------- a job's own step

  /** What one step of job `id` may do to the shared state. */
  ghost predicate Framed(st: Store, running: Option<Handle>, id: JobId, job: Job, e: Effect) {
    && StoreOk(e.store)
    && Evolves(st, e.store)
    && OnlyTouches(st, e.store, e.job.sid)
    && e.job.kind == job.kind
    && (e.job.sid == job.sid || (job.sid == 0 && e.job.sid == st.lastId + 1 && e.job.sid !in st.snapshots))
    && (job.sid == 0 && e.job.sid == 0 ==> e.store == st)
    && (e.store.current == st.current || (e.job.sid != 0 && e.store.current == Some(e.job.sid)))
    && (|| e.running == running
        || (running.None? && e.running == Some(Handle(id, e.job.sid)))
        || (running.Some? && running.value.job == id && e.running.None?))
  }

  /** Program points at which a job writes rows into its snapshot. */
  predicate Writing(pc: Pc) {
    pc.Populate? || pc.Analyze? || pc.Commit?
  }

  /** Writing rows into its own snapshot moves a job's standing nowhere. */
  lemma RowWriteKeepsStanding(st: Store, running: Option<Handle>, captured: set<SnapshotId>, id: JobId,
                              job: Job, job': Job, snap: Snapshot)
    requires StoreOk(st) && Standing(st, running, captured, id, job)
    requires Writing(job.pc) && Writing(job'.pc)
    requires job'.kind == job.kind && job'.sid == job.sid && job'.parent == job.parent && job'.scope == job.scope
    requires job.sid in st.snapshots
    requires var before := st.snapshots[job.sid];
             snap == before.(profiles := snap.profiles, catalog := snap.catalog, skips := snap.skips)
    ensures var st' := st.(snapshots := st.snapshots[job.sid := snap]);
            && Framed(st, running, id, job, Effect(job', st', running))
            && Standing(st', running, captured, id, job')
            && BaseSnapshot(st', job') == BaseSnapshot(st, job)
  {
    RowWritesEvolve(st, job.sid, snap);
  }

  /** A step that leaves store and slot alone and stays between `try_start` and the commit. */
  lemma LocalStepKeepsStanding(st: Store, running: Option<Handle>, captured: set<SnapshotId>, id: JobId, job: Job,
        job': Job)
    requires StoreOk(st) && Standing(st, running, captured, id, job)
    requires job.pc.Enumerate? || Writing(job.pc)
    requires || job'.pc.Enumerate? || Writing(job'.pc) || job'.pc == Done(Crashed)
             || (job'.pc.Abort? && Handled(job'.pc.why))
    requires job'.kind == job.kind && job'.sid == job.sid && job'.parent == job.parent && job'.scope == job.scope
    ensures Framed(st, running, id, job, Effect(job', st, running))
    ensures Standing(st, running, captured, id, job')
  {}

  lemma ScopeStepKeeps(st: Store, running: Option<Handle>, captured: set<SnapshotId>, id: JobId, job: Job, job': Job)
    requires StoreOk(st) && JobOk(st, running, captured, id, job)
    requires job.kind.SingleRefresh? && ScopeStep(st, job) == Some(job')
    ensures Framed(st, running, id, job, Effect(job', st, running))
    ensures JobOk(st, running, captured, id, job')
  {
    ScopeStepKeepsParent(st, job, job');
    ScopeStepKeepsStatus(st, captured, job, job');
    EvolvesReflexive(st);
  }

  lemma ScopeStepKeepsStatus(st: Store, captured: set<SnapshotId>, job: Job, job': Job)
    requires StatusOk(st, captured, job) && BeforeBegin(job.pc)
    requires job.kind.SingleRefresh? && ScopeStep(st, job) == Some(job')
    ensures StatusOk(st, captured, job') && job'.sid == job.sid == 0 && job'.kind == job.kind
    ensures !OnCourse(job'.pc) && !Holding(job'.pc) && job'.pc != Done(Crashed)
  {}

  lemma ScopeStepKeepsParent(st: Store, job: Job, job': Job)
    requires StoreOk(st) && ParentOk(st, job)
    requires job.kind.SingleRefresh? && ScopeStep(st, job) == Some(job')
    ensures ParentOk(st, job')
  {}

  lemma BeginStepKeeps(st: Store, running: Option<Handle>, captured: set<SnapshotId>, id: JobId, job: Job, e: Effect)
    requires StoreOk(st) && JobOk(st, running, captured, id, job)
    requires forall sid :: sid in captured ==> sid in st.snapshots
    requires job.pc.BeginSnapshot? && StartStep(st, running, id, job) == Some(e)
    ensures Framed(st, running, id, job, e)
    ensures JobOk(e.store, e.running, captured, id, e.job)
  {
    BeginEvolves(st, TriggerOf(job.kind), job.parent);
    if e.job.pc.TryStart? {
      BegunContent(st, job, e);
    }
  }

  lemma BegunContent(st: Store, job: Job, e: Effect)
    requires StoreOk(st) && ParentOk(st, job) && job.pc.BeginSnapshot? && job.enumerated == [] && job.next == 0
    requires job.written == map[]
    requires var (st', r) := Begin(st, TriggerOf(job.kind), job.parent);
             r.Ok? && e.store == st' && e.job == job.(sid := r.value, pc := TryStart)
    ensures ContentOk(e.store.snapshots[e.job.sid], BaseSnapshot(e.store, e.job), e.job)
  {
    assert job.enumerated[..job.next] == [];
    var base := BaseSnapshot(e.store, e.job);
    assert base.profiles + map[] == base.profiles;
  }

  lemma TryStepKeeps(st: Store, running: Option<Handle>, captured: set<SnapshotId>, id: JobId, job: Job, e: Effect)
    requires StoreOk(st) && JobOk(st, running, captured, id, job)
    requires job.pc.TryStart? && StartStep(st, running, id, job) == Some(e)
    ensures Framed(st, running, id, job, e)
    ensures JobOk(e.store, e.running, captured, id, e.job)
  {}

  /** Failing its own snapshot leaves what a job knows about its parent alone. */
  lemma FailKeepsParent(st: Store, job: Job, job': Job)
    requires StoreOk(st) && ParentOk(st, job) && job.sid in st.snapshots && !CompletedIn(st, job.sid) && job.sid != 0
    requires job'.kind == job.kind && job'.sid == job.sid && job'.parent == job.parent && job'.scope == job.scope
    requires job'.pc.Done? || job'.pc.Unwind?
    ensures var st' := MarkFailed(st, job.sid);
            && StoreOk(st') && Evolves(st, st') && OnlyTouches(st, st', job.sid) && st'.current == st.current
            && ParentOk(st', job')
  {
    RowWritesEvolve(st, job.sid, st.snapshots[job.sid].(status := Failed));
  }

  /** The update of a job's own `abort_snapshot`. Only the job itself commits its snapshot, so the
      missing guard does no harm: at worst a shutdown has failed it since the check. */
  lemma OwnFailKeeps(st: Store, running: Option<Handle>, captured: set<SnapshotId>, id: JobId, job: Job, job': Job)
    requires StoreOk(st) && JobOk(st, running, captured, id, job)
    requires job.pc.Abort? && job' == job.(checked := false, pc := Unwind(job.pc.why))
    ensures job.sid in st.snapshots && Framed(st, running, id, job, Effect(job', MarkFailed(st, job.sid), running))
    ensures JobOk(MarkFailed(st, job.sid), running, captured, id, job')
  {
    FailKeepsParent(st, job, job');
    assert StatusOk(MarkFailed(st, job.sid), captured, job');
  }

  /** The check in front of it: passed, or raising because a shutdown has failed the snapshot. */
  lemma OwnFailCheckKeeps(st: Store, running: Option<Handle>, captured: set<SnapshotId>, id: JobId, job: Job, job': Job)
    requires StoreOk(st) && JobOk(st, running, captured, id, job) && job.pc.Abort?
    requires || (InProgressIn(st, job.sid) && job' == job.(checked := true))
             || (!InProgressIn(st, job.sid) && job' == job.(pc := Unwind(AbortRaised)))
    ensures Framed(st, running, id, job, Effect(job', st, running))
    ensures JobOk(st, running, captured, id, job')
  {}

  lemma AbortStepKeeps(st: Store, running: Option<Handle>, captured: set<SnapshotId>, id: JobId, job: Job, e: Effect)
    requires StoreOk(st) && JobOk(st, running, captured, id, job)
    requires job.pc.Abort? && EndStep(st, running, id, job) == Some(e)
    ensures Framed(st, running, id, job, e)
    ensures JobOk(e.store, e.running, captured, id, e.job)
  {
    if job.checked {
      OwnFailKeeps(st, running, captured, id, job, e.job);
    } else {
      OwnFailCheckKeeps(st, running, captured, id, job, e.job);
    }
  }

  /** A rejected start fails its own snapshot; nothing else can have failed it before. */
  lemma RejectMarkKeeps(st: Store, running: Option<Handle>, captured: set<SnapshotId>, id: JobId, job: Job, job': Job)
    requires StoreOk(st) && JobOk(st, running, captured, id, job)
    requires job.pc.RejectAbort? && job' == job.(checked := false, pc := Done(Rejected))
    ensures job.sid in st.snapshots && Framed(st, running, id, job, Effect(job', MarkFailed(st, job.sid), running))
    ensures JobOk(MarkFailed(st, job.sid), running, captured, id, job')
  {
    FailKeepsParent(st, job, job');
    assert StatusOk(MarkFailed(st, job.sid), captured, job');
  }

  lemma RejectStepKeeps(st: Store, running: Option<Handle>, captured: set<SnapshotId>, id: JobId, job: Job, e: Effect)
    requires StoreOk(st) && JobOk(st, running, captured, id, job)
    requires job.pc.RejectAbort? && StartStep(st, running, id, job) == Some(e)
    ensures Framed(st, running, id, job, e)
    ensures JobOk(e.store, e.running, captured, id, e.job)
  {
    if job.checked {
      RejectMarkKeeps(st, running, captured, id, job, e.job);
    } else {
      assert e == Effect(job.(checked := true), st, running);
    }
  }

  lemma EnumerateStepKeeps(st: Store, running: Option<Handle>, captured: set<SnapshotId>, id: JobId, job: Job,
        input: Input, job': Job)
    requires StoreOk(st) && JobOk(st, running, captured, id, job)
    requires job.pc.Enumerate? && EnumerateStep(job, input) == Some(job')
    ensures Framed(st, running, id, job, Effect(job', st, running))
    ensures JobOk(st, running, captured, id, job')
  {
    LocalStepKeepsStanding(st, running, captured, id, job, job');
    assert job'.enumerated[..job'.next] == job.enumerated[..job.next];
  }

  lemma CheckKeeps(st: Store, running: Option<Handle>, captured: set<SnapshotId>, id: JobId, job: Job)
    requires StoreOk(st) && JobOk(st, running, captured, id, job)
    requires Writing(job.pc)
    ensures Framed(st, running, id, job, Effect(Check(st, job), st, running))
    ensures JobOk(st, running, captured, id, Check(st, job))
  {
    LocalStepKeepsStanding(st, running, captured, id, job, Check(st, job));
  }

  lemma PopulateStepKeeps(st: Store, running: Option<Handle>, captured: set<SnapshotId>, id: JobId, job: Job, e: Effect)
    requires StoreOk(st) && JobOk(st, running, captured, id, job)
    requires job.pc.Populate?
    requires PopulateStep(st, job) == (e.job, e.store) && e.running == running
    ensures Framed(st, running, id, job, e)
    ensures JobOk(e.store, e.running, captured, id, e.job)
  {
    if !job.checked {
      CheckKeeps(st, running, captured, id, job);
    } else {
      var snap := st.snapshots[job.sid];
      var rows := CatalogRows(job.enumerated);
      assert map[] + rows == rows;
      RowWriteKeepsStanding(st, running, captured, id, job, e.job, snap.(catalog := snap.catalog + rows));
    }
  }

  lemma SkipContent(snap: Snapshot, base: Snapshot, job: Job)
    requires job.pc.Analyze? && ContentOk(snap, base, job)
    requires job.next < |job.enumerated| && job.enumerated[job.next].sha.None?
    ensures ContentOk(snap.(skips := snap.skips + [MissingBranchSkip(job.enumerated[job.next])]), base,
                      job.(checked := false, next := job.next + 1))
  {
    assert job.enumerated[..job.next + 1][..job.next] == job.enumerated[..job.next];
  }

  lemma WriteContent(snap: Snapshot, base: Snapshot, job: Job, row: ProfileRow)
    requires job.pc.Analyze? && ContentOk(snap, base, job)
    requires job.next < |job.enumerated| && job.enumerated[job.next].sha.Some?
    requires IdentityOf(row) == IdentityOf(RowFor(job.enumerated[job.next], row.body))
    ensures var p := job.enumerated[job.next].id;
            ContentOk(snap.(profiles := snap.profiles[p := row]), base,
                      job.(checked := false, fetched := None, next := job.next + 1, written := job.written[p := row]))
  {
    var p := job.enumerated[job.next].id;
    assert job.enumerated[..job.next + 1][..job.next] == job.enumerated[..job.next];
    assert Identities(job.written[p := row]) == Identities(job.written)[p := IdentityOf(row)];
    assert (base.profiles + job.written)[p := row] == base.profiles + job.written[p := row];
  }

  lemma SkipWriteKeeps(st: Store, running: Option<Handle>, captured: set<SnapshotId>, id: JobId, job: Job, e: Effect)
    requires StoreOk(st) && JobOk(st, running, captured, id, job)
    requires job.pc.Analyze? && job.next < |job.enumerated| && job.enumerated[job.next].sha.None?
    requires e == Effect(job.(checked := false, next := job.next + 1),
                         PutSkip(st, job.sid, MissingBranchSkip(job.enumerated[job.next])), running)
    ensures Framed(st, running, id, job, e)
    ensures JobOk(e.store, e.running, captured, id, e.job)
  {
    var snap, row := st.snapshots[job.sid], MissingBranchSkip(job.enumerated[job.next]);
    SkipContent(snap, BaseSnapshot(st, job), job);
    RowWriteKeepsStanding(st, running, captured, id, job, e.job, snap.(skips := snap.skips + [row]));
  }

  lemma ProfileWriteKeeps(st: Store, running: Option<Handle>, captured: set<SnapshotId>, id: JobId, job: Job,
        row: ProfileRow, e: Effect)
    requires StoreOk(st) && JobOk(st, running, captured, id, job)
    requires job.pc.Analyze? && job.next < |job.enumerated| && job.enumerated[job.next].sha.Some?
    requires row == RowFor(job.enumerated[job.next], row.body)
    requires var p := job.enumerated[job.next].id;
             e == Effect(job.(checked := false, fetched := None, next := job.next + 1,
                          written := job.written[p := row]),
                         PutProfile(st, job.sid, p, row), running)
    ensures Framed(st, running, id, job, e)
    ensures JobOk(e.store, e.running, captured, id, e.job)
  {
    var snap, p := st.snapshots[job.sid], job.enumerated[job.next].id;
    WriteContent(snap, BaseSnapshot(st, job), job, row);
    RowWriteKeepsStanding(st, running, captured, id, job, e.job, snap.(profiles := snap.profiles[p := row]));
  }

  /** A step of the loop that writes nothing. */
  lemma FetchKeeps(st: Store, running: Option<Handle>, captured: set<SnapshotId>, id: JobId, job: Job, job': Job)
    requires StoreOk(st) && JobOk(st, running, captured, id, job) && job.pc.Analyze?
    requires || (exists body :: job' == job.(fetched := Some(body)))
             || (exists why :: Handled(why) && job' == job.(pc := Pc.Abort(why), checked := false))
             || (job' == job.(pc := Commit) && job.next == |job.enumerated|)
             || job' == job.(pc := Done(Crashed))
    ensures Framed(st, running, id, job, Effect(job', st, running))
    ensures JobOk(st, running, captured, id, job')
  {
    LocalStepKeepsStanding(st, running, captured, id, job, job');
  }

  lemma AnalyzeStepKeeps(st: Store, running: Option<Handle>, captured: set<SnapshotId>, id: JobId, job: Job,
        input: Input, e: Effect)
    requires StoreOk(st) && JobOk(st, running, captured, id, job)
    requires job.pc.Analyze?
    requires AnalyzeStep(st, job, input) == Some((e.job, e.store)) && e.running == running
    ensures Framed(st, running, id, job, e)
    ensures JobOk(e.store, e.running, captured, id, e.job)
  {
    if job.next < |job.enumerated| && job.enumerated[job.next].sha.None? && job.checked {
      SkipWriteKeeps(st, running, captured, id, job, e);
    } else if job.next < |job.enumerated| && job.enumerated[job.next].sha.Some? && job.fetched.Some? && job.checked {
      ProfileWriteKeeps(st, running, captured, id, job, RowFor(job.enumerated[job.next], job.fetched.value), e);
    } else if e.job == Check(st, job) {
      CheckKeeps(st, running, captured, id, job);
    } else {
      if job.next < |job.enumerated| && input.GitLabFails? { assert Handled(GitLabFailure(input.error)); }
      FetchKeeps(st, running, captured, id, job, e.job);
    }
  }

  lemma CommitStepKeeps(st: Store, running: Option<Handle>, captured: set<SnapshotId>, id: JobId, job: Job, e: Effect)
    requires StoreOk(st) && JobOk(st, running, captured, id, job)
    requires job.pc.Commit?
    requires CommitStep(st, job) == (e.job, e.store) && e.running == running
    ensures Framed(st, running, id, job, e)
    ensures JobOk(e.store, e.running, captured, id, e.job)
  {
    if !job.checked {
      CheckKeeps(st, running, captured, id, job);
    } else {
      PromoteEvolves(st, job.sid);
      assert BaseSnapshot(e.store, e.job) == BaseSnapshot(st, job);
    }
  }

  lemma ReleaseStepKeeps(st: Store, running: Option<Handle>, captured: set<SnapshotId>, id: JobId, job: Job, e: Effect)
    requires StoreOk(st) && JobOk(st, running, captured, id, job)
    requires (job.pc.Complete? || job.pc.Unwind?) && EndStep(st, running, id, job) == Some(e)
    ensures Framed(st, running, id, job, e)
    ensures JobOk(e.store, e.running, captured, id, e.job)
  {
    var how := if job.pc.Complete? then Committed else job.pc.why;
    assert e == Effect(job.(pc := Done(how)), st, None);
    ReleasedJobOk(st, running, captured, id, job, how);
  }

  lemma ReleasedJobOk(st: Store, running: Option<Handle>, captured: set<SnapshotId>, id: JobId, job: Job, how: Ending)
    requires JobOk(st, running, captured, id, job)
    requires (job.pc.Complete? && how == Committed) || job.pc == Unwind(how)
    ensures JobOk(st, None, captured, id, job.(pc := Done(how)))
  {
    var job' := job.(pc := Done(how));
    assert SlotOk(None, id, job') && StatusOk(st, captured, job') && ParentOk(st, job');
  }

  lemma ActKeeps(st: Store, running: Option<Handle>, captured: set<SnapshotId>, id: JobId, job: Job, input: Input,
        e: Effect)
    requires StoreOk(st) && JobOk(st, running, captured, id, job)
    requires forall sid :: sid in captured ==> sid in st.snapshots
    requires Act(st, running, id, job, input) == Some(e)
    ensures Framed(st, running, id, job, e)
    ensures JobOk(e.store, e.running, captured, id, e.job)
  {
    match job.pc
    case ReadPointer | ScopePointer | ScopeRow => ScopeStepKeeps(st, running, captured, id, job, e.job);
    case BeginSnapshot => BeginStepKeeps(st, running, captured, id, job, e);
    case TryStart => TryStepKeeps(st, running, captured, id, job, e);
    case RejectAbort => RejectStepKeeps(st, running, captured, id, job, e);
    case Enumerate => EnumerateStepKeeps(st, running, captured, id, job, input, e.job);
    case Populate => PopulateStepKeeps(st, running, captured, id, job, e);
    case Analyze => AnalyzeStepKeeps(st, running, captured, id, job, input, e);
    case Commit => CommitStepKeeps(st, running, captured, id, job, e);
    case Abort(_) => AbortStepKeeps(st, running, captured, id, job, e);
    case Complete | Unwind(_) => ReleaseStepKeeps(st, running, captured, id, job, e);
    case Done(_) =>
  }

  // ---------------------------------------------------------------- everybody else

  /** A store that evolves without touching a job's own snapshot leaves the job's guarantees alone. */
  lemma OthersKeep(a: Store, b: Store, captured: set<SnapshotId>, captured': set<SnapshotId>, sid: SnapshotId, job: Job)
    requires StoreOk(a) && StoreOk(b) && Evolves(a, b) && OnlyTouches(a, b, sid)
    requires StatusOk(a, captured, job) && ParentOk(a, job)
    requires job.sid != 0 ==> job.sid != sid
    requires job.sid in captured' ==> job.sid in captured || !(BeforeSlot(job.pc) || job.pc == Done(Rejected))
    ensures StatusOk(b, captured', job) && ParentOk(b, job)
    ensures BaseSnapshot(b, job) == BaseSnapshot(a, job)
    ensures job.sid != 0 ==> b.snapshots[job.sid] == a.snapshots[job.sid]
  {
    if job.parent.Some? {
      assert b.snapshots[job.parent.value] == a.snapshots[job.parent.value];
    }
    if job.scope.Some? {
      assert b.snapshots[job.scope.value] == a.snapshots[job.scope.value];
    }
  }

  /** A job's guarantees survive a step of another job. */
  lemma OtherJobKeeps(s: System, id: JobId, e: Effect, k: JobId)
    requires Inv(s) && id in s.jobs && k in s.jobs && k != id
    requires Framed(s.store, s.running, id, s.jobs[id], e)
    requires SlotOk(e.running, id, e.job)
    ensures JobOk(e.store, e.running, s.captured, k, s.jobs[k])
    ensures e.job.sid != 0 ==> e.job.sid != s.jobs[k].sid
  {
    var job := s.jobs[k];
    if job.sid != 0 { assert job.sid in s.store.snapshots; }
    OthersKeep(s.store, e.store, s.captured, s.captured, e.job.sid, job);
  }

  lemma StepKeepsInv(s: System, id: JobId, input: Input, t: System)
    requires Inv(s) && Next(s, Step(id, input)) == Some(t)
    ensures Inv(t) && Evolves(s.store, t.store)
    ensures Framed(s.store, s.running, id, s.jobs[id], Effect(t.jobs[id], t.store, t.running))
  {
    var e := Act(s.store, s.running, id, s.jobs[id], input).value;
    assert t == s.(store := e.store, running := e.running, jobs := s.jobs[id := e.job]);
    ActKeeps(s.store, s.running, s.captured, id, s.jobs[id], input, e);
    forall k | k in s.jobs && k != id
      ensures JobOk(t.store, t.running, t.captured, k, t.jobs[k])
      ensures e.job.sid != 0 ==> e.job.sid != s.jobs[k].sid
    {
      OtherJobKeeps(s, id, e, k);
    }
  }

  lemma ShutdownKeepsInv(s: System, sid: SnapshotId, t: System)
    requires Inv(s) && Next(s, ShutdownAbort(sid)) == Some(t)
    ensures Inv(t) && Evolves(s.store, t.store) && t.store.current == s.store.current
  {
    if InProgressIn(s.store, sid) {
      RowWritesEvolve(s.store, sid, s.store.snapshots[sid].(status := Failed));
      forall k | k in s.jobs ensures JobOk(t.store, t.running, t.captured, k, s.jobs[k]) {
        var job := s.jobs[k];
        if job.sid == sid && sid != 0 {
          ShutdownKeepsOwner(s, sid, t, k);
        } else {
          OthersKeep(s.store, t.store, s.captured, t.captured, sid, job);
        }
      }
    } else {
      assert t.store == s.store;
    }
  }

  /** The job whose snapshot a shutdown fails stays consistent: it was past `try_start` and short of
      its commit. */
  lemma ShutdownKeepsOwner(s: System, sid: SnapshotId, t: System, k: JobId)
    requires Inv(s) && k in s.jobs && s.jobs[k].sid == sid && sid != 0
    requires sid in s.captured && InProgressIn(s.store, sid)
    requires t.store == MarkFailed(s.store, sid) && t.running == s.running && t.captured == s.captured - {sid}
    ensures JobOk(t.store, t.running, t.captured, k, s.jobs[k])
  {
    var job := s.jobs[k];
    RowWritesEvolve(s.store, sid, s.store.snapshots[sid].(status := Failed));
    assert BaseSnapshot(t.store, job) == BaseSnapshot(s.store, job);
    assert ParentOk(t.store, job);
    assert StatusOk(t.store, t.captured, job);
  }

  /** Putting a job in place, without touching store or slot, needs only that job to be in order. */
  lemma PutJobKeepsInv(s: System, id: JobId, job: Job)
    requires Inv(s) && JobOk(s.store, s.running, s.captured, id, job)
    requires job.sid == 0 || (id in s.jobs && job.sid == s.jobs[id].sid)
    ensures Inv(s.(jobs := s.jobs[id := job]))
  {
    var jobs := s.jobs[id := job];
    forall k | k in jobs ensures JobOk(s.store, s.running, s.captured, k, jobs[k]) {
      if k != id { assert JobOk(s.store, s.running, s.captured, k, s.jobs[k]); }
    }
  }

  /** An exception leaves a job standing. */
  lemma CrashedJobOk(st: Store, running: Option<Handle>, captured: set<SnapshotId>, id: JobId, job: Job)
    requires JobOk(st, running, captured, id, job) && CrashJob(job).Some?
    ensures JobOk(st, running, captured, id, CrashJob(job).value)
  {
    var job' := CrashJob(job).value;
    assert job' == job.(pc := job'.pc, checked := job'.checked);
    assert SlotOk(running, id, job') && StatusOk(st, captured, job') && ParentOk(st, job');
  }

  lemma CrashKeepsInv(s: System, id: JobId, t: System)
    requires Inv(s) && Next(s, Crash(id)) == Some(t)
    ensures Inv(t) && t.store == s.store && t.running == s.running
  {
    CrashedJobOk(s.store, s.running, s.captured, id, s.jobs[id]);
    PutJobKeepsInv(s, id, CrashJob(s.jobs[id]).value);
  }

  lemma SpawnKeepsInv(s: System, id: JobId, kind: Kind, t: System)
    requires Inv(s) && Next(s, Spawn(id, kind)) == Some(t)
    ensures Inv(t) && t.store == s.store && t.running == s.running
  {
    assert JobOk(s.store, s.running, s.captured, id, NewJob(kind));
    PutJobKeepsInv(s, id, NewJob(kind));
  }

  /** The occupant of the slot is past its start, so a shutdown may fail its snapshot. */
  lemma CaptureKeepsJob(s: System, captured: set<SnapshotId>, k: JobId)
    requires Inv(s) && k in s.jobs && s.running.Some? && captured == s.captured + {s.running.value.sid}
    ensures JobOk(s.store, s.running, captured, k, s.jobs[k])
  {
    var job, j := s.jobs[k], s.running.value.job;
    assert JobOk(s.store, s.running, s.captured, k, job);
    assert JobOk(s.store, s.running, s.captured, j, s.jobs[j]);
    assert job.sid == s.running.value.sid && job.sid != 0 ==> k == j;
    assert StatusOk(s.store, captured, job);
  }

  lemma CaptureKeepsInv(s: System, t: System)
    requires Inv(s) && Next(s, CaptureRunning) == Some(t)
    ensures Inv(t) && t.store == s.store && t.running == s.running && t.jobs == s.jobs
  {
    if s.running.Some? {
      var j := s.running.value.job;
      assert JobOk(s.store, s.running, s.captured, j, s.jobs[j]);
      forall k | k in s.jobs ensures JobOk(t.store, t.running, t.captured, k, t.jobs[k]) {
        CaptureKeepsJob(s, t.captured, k);
      }
    }
  }

  /** Ending an already ended handle changes nothing, whoever occupies the slot by then. */
  lemma EndAgainIsNoOp(s: System, id: JobId, t: System)
    requires Inv(s) && Next(s, EndAgain(id)) == Some(t)
    ensures t == s
  {
    assert JobOk(s.store, s.running, s.captured, id, s.jobs[id]);
  }

  lemma NextKeepsInv(s: System, a: Action, t: System)
    requires Inv(s) && Next(s, a) == Some(t)
    ensures Inv(t) && Evolves(s.store, t.store)
  {
    EvolvesReflexive(s.store);
    match a
    case Spawn(id, kind) => SpawnKeepsInv(s, id, kind, t);
    case Step(id, input) => StepKeepsInv(s, id, input, t);
    case Crash(id) => CrashKeepsInv(s, id, t);
    case CaptureRunning => CaptureKeepsInv(s, t);
    case ShutdownAbort(sid) => ShutdownKeepsInv(s, sid, t);
    case EndAgain(id) => EndAgainIsNoOp(s, id, t);
  }

  lemma InitInv(s: System)
    requires Init(s)
    ensures Inv(s)
  {}

  /** Every state of every run satisfies the invariant. */
  lemma {:induction false} RunInv(trace: seq<System>, i: nat)
    requires Run(trace) && i < |trace|
    ensures Inv(trace[i])
  {
    if i == 0 {
      InitInv(trace[0]);
    } else {
      RunInv(trace, i - 1);
      assert CanStep(trace[i - 1], trace[i - 1 + 1]);
      var a :| Next(trace[i - 1], a) == Some(trace[i]);
      NextKeepsInv(trace[i - 1], a, trace[i]);
    }
  }

  lemma RunStepEvolves(trace: seq<System>, i: nat)
    requires Run(trace) && i + 1 < |trace|
    ensures StoreOk(trace[i].store) && StoreOk(trace[i + 1].store) && Evolves(trace[i].store, trace[i + 1].store)
  {
    RunInv(trace, i);
    RunInv(trace, i + 1);
    assert CanStep(trace[i], trace[i + 1]);
    var a :| Next(trace[i], a) == Some(trace[i + 1]);
    NextKeepsInv(trace[i], a, trace[i + 1]);
  }

  lemma {:induction false} ChainEvolves(stores: seq<Store>, i: nat, j: nat)
    requires i <= j < |stores|
    requires forall k :: 0 <= k < |stores| ==> StoreOk(stores[k])
    requires forall k :: 0 <= k < |stores| - 1 ==> Evolves(stores[k], stores[k + 1])
    ensures Evolves(stores[i], stores[j])
    decreases j
  {
    if i == j {
      EvolvesReflexive(stores[i]);
    } else {
      ChainEvolves(stores, i, j - 1);
      assert Evolves(stores[j - 1], stores[j - 1 + 1]);
      EvolvesTransitive(stores[i], stores[j - 1], stores[j]);
    }
  }

  /** Along every run the store evolves: nothing committed is ever rewritten or reopened. */
  lemma RunEvolves(trace: seq<System>, i: nat, j: nat)
    requires Run(trace) && i <= j < |trace|
    ensures StoreOk(trace[i].store) && StoreOk(trace[j].store)
    ensures Evolves(trace[i].store, trace[j].store)
  {
    var stores := seq(|trace|, k requires 0 <= k < |trace| => trace[k].store);
    forall k | 0 <= k < |trace| ensures StoreOk(stores[k]) { RunInv(trace, k); }
    forall k | 0 <= k < |trace| - 1 ensures Evolves(stores[k], stores[k + 1]) { RunStepEvolves(trace, k); }
    ChainEvolves(stores, i, j);
  }
}
