/** Ingestion as a transition system. Any number of jobs, shutdown aborts and stray handle calls
    interleave; the steps are finer than the store's methods: a job's guarded write is two steps, the
    status check and the statement itself, with other actors free to run in between. */
module Protocol {
  import opened Base
  import opened StoreModel

  type JobId = nat

  datatype GitLabError = AuthError | GroupNotFound

  /** How a job ends: normally, by a refusal, by an error it handles, by its own `abort_snapshot`
      raising, or by any other exception. */
  datatype Ending =
    | Committed
    | Rejected
    | GitLabFailure(error: GitLabError)
    | NotInScope
    | AbortRaised
    | Crashed

  datatype Kind = FullRefresh | SingleRefresh(project: ProjectId)

  /** Where a job stands. `Abort` and `Unwind` are the two halves of an error path that ends the job
      as `why`: failing the snapshot, then giving the slot back. */
  datatype Pc =
    | ReadPointer
    | ScopePointer
    | ScopeRow
    | BeginSnapshot
    | TryStart
    | RejectAbort
    | Enumerate
    | Populate
    | Analyze
    | Commit
    | Complete
    | Abort(why: Ending)
    | Unwind(why: Ending)
    | Done(how: Ending)

  /** A job's local state. `sid` is 0 until `begin_snapshot` returns; `checked` says the status check
      of the pending write has passed; `fetched` is the analysed payload about to be written;
      `written` remembers the profile rows this job has written. */
  datatype Job = Job(
    kind: Kind,
    pc: Pc,
    parent: Option<SnapshotId>,
    scope: Option<SnapshotId>,
    sid: SnapshotId,
    enumerated: seq<EnumeratedProject>,
    next: nat,
    checked: bool,
    fetched: Option<string>,
    written: map<ProjectId, ProfileRow>)

  /** The occupant of the coordinator's running slot. */
  datatype Handle = Handle(job: JobId, sid: SnapshotId)

  /** `captured` holds the snapshot ids that shutdowns have read from the running slot and not yet
      aborted. */
  datatype System = System(
    store: Store,
    running: Option<Handle>,
    jobs: map<JobId, Job>,
    captured: set<SnapshotId>)

  /** What the environment answers to one step of a job. */
  datatype Input =
    | Nothing
    | Enumerated(projects: seq<EnumeratedProject>)
    | AnalysedAs(body: string)
    | GitLabFails(error: GitLabError)

  datatype Action =
    | Spawn(id: JobId, kind: Kind)
    | Step(id: JobId, input: Input)
    | Crash(id: JobId)
    | CaptureRunning
    | ShutdownAbort(sid: SnapshotId)
    | EndAgain(id: JobId)  // a late `complete` or `abort` on a job's old handle

  // ---------------------------------------------------------------- one step of one job

  /** A job's own next state together with the shared state it leaves behind. */
  datatype Effect = Effect(job: Job, store: Store, running: Option<Handle>)

  function NewJob(kind: Kind): Job {
    Job(kind, if kind.FullRefresh? then BeginSnapshot else ReadPointer,
        None, None, 0, [], 0, false, None, map[])
  }

  function TriggerOf(kind: Kind): Trigger {
    if kind.FullRefresh? then Full else SingleProject
  }

  /** `JobHandle._end` followed by `_release`: the slot is freed only when this job occupies it. */
  function Release(running: Option<Handle>, id: JobId): Option<Handle> {
    if running.Some? && running.value.job == id then None else running
  }

  /** The first listed project with id `p`, as a list of at most one. */
  function Matching(es: seq<EnumeratedProject>, p: ProjectId): (m: seq<EnumeratedProject>)
    ensures |m| <= 1 && |m| <= |es|
    ensures m != [] ==> m[0] in es && m[0].id == p
    ensures m == [] ==> forall e :: e in es ==> e.id != p
  {
    if es == [] then [] else if es[0].id == p then [es[0]] else Matching(es[1..], p)
  }

  function RowFor(e: EnumeratedProject, body: string): ProfileRow
    requires e.sha.Some?
  {
    ProfileRow(e.path, e.branch, e.sha.value, body)
  }

  function ScopeStep(st: Store, job: Job): Option<Job>
    requires job.kind.SingleRefresh?
  {
    match job.pc
    case ReadPointer =>
      Some(if st.current.None? then job.(pc := Done(NotInScope))
           else job.(parent := st.current, pc := ScopePointer))
    case ScopePointer =>
      Some(if st.current.None? then job.(pc := Done(NotInScope))
           else job.(scope := st.current, pc := ScopeRow))
    case ScopeRow =>
      Some(if job.scope.Some? && job.scope.value in st.snapshots
              && job.kind.project in st.snapshots[job.scope.value].catalog
           then job.(pc := BeginSnapshot) else job.(pc := Done(NotInScope)))
    case _ => None
  }

  /** One step of a job's own `abort_snapshot`: the status check, or the update, which has no guard. The
      job goes on at `done`, or at `raised` when the check fails. */
  function FailStep(st: Store, job: Job, done: Pc, raised: Pc): (Job, Store) {
    if !job.checked then
      (if RequireInProgress(st, job.sid).Ok? then job.(checked := true) else job.(pc := raised), st)
    else if job.sid !in st.snapshots then (job.(checked := false, pc := raised), st)
    else (job.(checked := false, pc := done), MarkFailed(st, job.sid))
  }

  function StartStep(st: Store, running: Option<Handle>, id: JobId, job: Job): Option<Effect> {
    match job.pc
    case BeginSnapshot =>
      var (st', r) := Begin(st, TriggerOf(job.kind), job.parent);
      Some(match r
           case Ok(sid) => Effect(job.(sid := sid, pc := TryStart), st', running)
           case Raised(_) => Effect(job.(pc := Done(Crashed)), st', running))
    case TryStart =>
      Some(if running.Some? then Effect(job.(pc := RejectAbort, checked := false), st, running)
           else Effect(job.(pc := Enumerate), st, Some(Handle(id, job.sid))))
    case RejectAbort =>
      var (job', st') := FailStep(st, job, Done(Rejected), Done(AbortRaised));
      Some(Effect(job', st', running))
    case _ => None
  }

  function EnumerateStep(job: Job, input: Input): Option<Job>
    requires job.pc.Enumerate?
  {
    match input
    case GitLabFails(e) => Some(job.(pc := Abort(GitLabFailure(e)), checked := false))
    case Enumerated(es) =>
      Some(match job.kind
           case FullRefresh => job.(enumerated := es, pc := Populate)
           case SingleRefresh(p) =>
             var m := Matching(es, p);
             if m == [] then job.(pc := Abort(NotInScope), checked := false)
             else job.(enumerated := m, pc := Analyze))
    case _ => None
  }

  /** The status check in front of a guarded write. */
  function Check(st: Store, job: Job): Job {
    if RequireInProgress(st, job.sid).Ok? then job.(checked := true) else job.(pc := Done(Crashed))
  }

  function PopulateStep(st: Store, job: Job): (Job, Store) {
    if !job.checked then (Check(st, job), st)
    else if job.sid !in st.snapshots then (job.(pc := Done(Crashed)), st)
    else
      (job.(checked := false, pc := Analyze), PutCatalog(st, job.sid, CatalogRows(job.enumerated)))
  }

  /** One step of the analysis loop: record a skip, or fetch and analyse, then write the profile. */
  function AnalyzeStep(st: Store, job: Job, input: Input): Option<(Job, Store)> {
    if job.next >= |job.enumerated| then Some((job.(pc := Commit), st))
    else
      var e := job.enumerated[job.next];
      if e.sha.None? then
        if !job.checked then Some((Check(st, job), st))
        else if job.sid !in st.snapshots then Some((job.(pc := Done(Crashed)), st))
        else
          Some((job.(checked := false, next := job.next + 1), PutSkip(st, job.sid, MissingBranchSkip(e))))
      else if job.fetched.None? then
        match input
        case AnalysedAs(body) => Some((job.(fetched := Some(body)), st))
        case GitLabFails(err) => Some((job.(pc := Abort(GitLabFailure(err)), checked := false), st))
        case _ => None
      else if !job.checked then
        Some((if e.sha.value == "" then job.(pc := Done(Crashed)) else Check(st, job), st))
      else if job.sid !in st.snapshots then Some((job.(pc := Done(Crashed)), st))
      else
        var row := RowFor(e, job.fetched.value);
        Some((job.(checked := false, fetched := None, next := job.next + 1,
                   written := job.written[e.id := row]),
              PutProfile(st, job.sid, e.id, row)))
  }

  function CommitStep(st: Store, job: Job): (Job, Store) {
    if !job.checked then (Check(st, job), st)
    else
      var (st', r) := Promote(st, job.sid);
      (job.(checked := false, pc := if r.Ok? then Complete else Done(Crashed)), st')
  }

  function EndStep(st: Store, running: Option<Handle>, id: JobId, job: Job): Option<Effect> {
    match job.pc
    case Complete => Some(Effect(job.(pc := Done(Committed)), st, Release(running, id)))
    case Abort(why) =>
      var (job', st') := FailStep(st, job, Unwind(why), Unwind(AbortRaised));
      Some(Effect(job', st', running))
    case Unwind(why) => Some(Effect(job.(pc := Done(why)), st, Release(running, id)))
    case _ => None
  }

  function Act(st: Store, running: Option<Handle>, id: JobId, job: Job, input: Input): Option<Effect> {
    match job.pc
    case ReadPointer | ScopePointer | ScopeRow =>
      if job.kind.FullRefresh? then None
      else
        var r := ScopeStep(st, job);
        if r.None? then None else Some(Effect(r.value, st, running))
    case BeginSnapshot | TryStart | RejectAbort => StartStep(st, running, id, job)
    case Enumerate =>
      var r := EnumerateStep(job, input);
      if r.None? then None else Some(Effect(r.value, st, running))
    case Populate =>
      var (job', st') := PopulateStep(st, job);
      Some(Effect(job', st', running))
    case Analyze =>
      var r := AnalyzeStep(st, job, input);
      if r.None? then None else Some(Effect(r.value.0, r.value.1, running))
    case Commit =>
      var (job', st') := CommitStep(st, job);
      Some(Effect(job', st', running))
    case Complete | Abort(_) | Unwind(_) => EndStep(st, running, id, job)
    case Done(_) => None
  }

  /** An exception no handler names: it ends the job where it stands and leaves the slot as it is,
      except inside the error path, whose `finally` still gives the slot back. Releasing the slot
      cannot raise. */
  function CrashJob(job: Job): Option<Job> {
    match job.pc
    case Done(_) | Complete | Unwind(_) => None
    case Abort(_) => Some(job.(pc := Unwind(Crashed), checked := false))
    case _ => Some(job.(pc := Done(Crashed)))
  }

  // ---------------------------------------------------------------- the whole system

  function Next(s: System, a: Action): Option<System> {
    match a
    case Spawn(id, kind) =>
      if id in s.jobs then None else Some(s.(jobs := s.jobs[id := NewJob(kind)]))
    case Step(id, input) =>
      if id !in s.jobs then None
      else
        var r := Act(s.store, s.running, id, s.jobs[id], input);
        if r.None? then None
        else Some(s.(store := r.value.store, running := r.value.running, jobs := s.jobs[id := r.value.job]))
    case Crash(id) =>
      if id !in s.jobs then None
      else
        var r := CrashJob(s.jobs[id]);
        if r.None? then None else Some(s.(jobs := s.jobs[id := r.value]))
    case CaptureRunning =>
      Some(if s.running.None? then s else s.(captured := s.captured + {s.running.value.sid}))
    case ShutdownAbort(sid) =>
      if sid !in s.captured then None
      else Some(s.(store := StoreModel.Abort(s.store, sid).0, captured := s.captured - {sid}))
    case EndAgain(id) =>
      if id in s.jobs && Ended(s.jobs[id]) then Some(s.(running := Release(s.running, id))) else None
  }

  /** The job is over and its handle, if it ever had one, has been ended. */
  predicate Ended(job: Job) {
    job.pc.Done? && !job.pc.how.Crashed?
  }

  ghost predicate CanStep(s: System, t: System) {
    exists a :: Next(s, a) == Some(t)
  }

  /** A process start: any well-formed store an earlier process left, and nothing running. */
  ghost predicate Init(s: System) {
    StoreOk(s.store) && s.running.None? && s.jobs == map[] && s.captured == {}
  }

  /** A finite run of the system. */
  ghost predicate Run(trace: seq<System>) {
    && trace != []
    && Init(trace[0])
    && forall i :: 0 <= i < |trace| - 1 ==> CanStep(trace[i], trace[i + 1])
  }
}
