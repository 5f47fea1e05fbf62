/** The Knowledge_Store on values: the tables, grouped by the `snapshot_id` that keys each of
    them, and every writer as a function from one store to the next. */
module StoreModel {
  import opened Base

  /** `snapshot_id`; row ids start at 1, so 0 stands for "no snapshot opened yet". */
  type SnapshotId = nat
  type ProjectId = int

  datatype Status = InProgress | Completed | Failed
  datatype Trigger = Full | SingleProject | Scheduled | StartupLoad

  /** One `project_profiles` row without its key; `body` is the `profile_json` payload. */
  datatype ProfileRow = ProfileRow(fullPath: string, branch: string, sha: string, body: string)

  /** One `ingestion_skips` row without its snapshot. */
  datatype SkipRow = SkipRow(project: ProjectId, reason: string, detail: Option<string>)

  /** A `snapshots` row together with the rows of the three tables keyed by it. */
  datatype Snapshot = Snapshot(
    status: Status,
    trigger: Trigger,
    parent: Option<SnapshotId>,
    profiles: map<ProjectId, ProfileRow>,
    catalog: map<ProjectId, string>,
    skips: seq<SkipRow>)

  /** `lastId` is the largest row id handed out; `current` is the `current_snapshot` pointer. */
  datatype Store = Store(
    snapshots: map<SnapshotId, Snapshot>,
    lastId: nat,
    current: Option<SnapshotId>)

  datatype StoreError =
    | ParentRequired
    | ParentNotAllowed
    | NoSuchParent
    | NoSuchSnapshot
    | NotInProgress(status: Status)
    | EmptySha
    | EmptyReason
    | FlipFailed

  /** What GitLab enumeration yields for one project. */
  datatype EnumeratedProject = EnumeratedProject(
    id: ProjectId, path: string, branch: string, sha: Option<string>)

  const ANALYSIS_BRANCH_MISSING_REASON := "analysis_branch_missing"

  // ---------------------------------------------------------------- writers

  predicate InProgressIn(st: Store, sid: SnapshotId) {
    sid in st.snapshots && st.snapshots[sid].status.InProgress?
  }

  predicate CompletedIn(st: Store, sid: SnapshotId) {
    sid in st.snapshots && st.snapshots[sid].status.Completed?
  }

  predicate FailedIn(st: Store, sid: SnapshotId) {
    sid in st.snapshots && st.snapshots[sid].status.Failed?
  }

  /** `_require_in_progress`: the guard every writer runs first. */
  function RequireInProgress(st: Store, sid: SnapshotId): Outcome<Unit, StoreError> {
    if sid !in st.snapshots then Raised(NoSuchSnapshot)
    else if !st.snapshots[sid].status.InProgress? then Raised(NotInProgress(st.snapshots[sid].status))
    else Ok(Unit)
  }

  /** `begin_snapshot`. The foreign key on the parent also admits the new row's own id. */
  function Begin(st: Store, trigger: Trigger, parent: Option<SnapshotId>)
    : (Store, Outcome<SnapshotId, StoreError>)
  {
    var newId := st.lastId + 1;
    if trigger.SingleProject? && parent.None? then (st, Raised(ParentRequired))
    else if !trigger.SingleProject? && parent.Some? then (st, Raised(ParentNotAllowed))
    else if parent.Some? && parent.value !in st.snapshots && parent.value != newId then
      (st, Raised(NoSuchParent))
    else
      var newRow :=
        if parent.Some? && parent.value in st.snapshots then
          var p := st.snapshots[parent.value];
          Snapshot(InProgress, trigger, parent, p.profiles, p.catalog, [])
        else
          Snapshot(InProgress, trigger, parent, map[], map[], []);
      (st.(snapshots := st.snapshots[newId := newRow], lastId := newId), Ok(newId))
  }

  /** The upsert inside `write_profile`, without its guard. */
  function PutProfile(st: Store, sid: SnapshotId, project: ProjectId, row: ProfileRow): Store
    requires sid in st.snapshots
  {
    var snap := st.snapshots[sid];
    st.(snapshots := st.snapshots[sid := snap.(profiles := snap.profiles[project := row])])
  }

  /** The insert inside `record_skip`, without its guard. */
  function PutSkip(st: Store, sid: SnapshotId, row: SkipRow): Store
    requires sid in st.snapshots
  {
    var snap := st.snapshots[sid];
    st.(snapshots := st.snapshots[sid := snap.(skips := snap.skips + [row])])
  }

  /** The transaction inside `populate_in_scope`, without its guard. */
  function PutCatalog(st: Store, sid: SnapshotId, rows: map<ProjectId, string>): Store
    requires sid in st.snapshots
  {
    var snap := st.snapshots[sid];
    st.(snapshots := st.snapshots[sid := snap.(catalog := snap.catalog + rows)])
  }

  /** The unguarded update inside `abort_snapshot`. */
  function MarkFailed(st: Store, sid: SnapshotId): Store
    requires sid in st.snapshots
  {
    st.(snapshots := st.snapshots[sid := st.snapshots[sid].(status := Failed)])
  }

  /** The guarded transaction inside `commit_snapshot`: flip the row, then move the pointer. */
  function Promote(st: Store, sid: SnapshotId): (Store, Outcome<Unit, StoreError>) {
    if !InProgressIn(st, sid) then (st, Raised(FlipFailed))
    else
      (st.(snapshots := st.snapshots[sid := st.snapshots[sid].(status := Completed)],
           current := Some(sid)),
       Ok(Unit))
  }

  function WriteProfile(st: Store, sid: SnapshotId, project: ProjectId, row: ProfileRow)
    : (Store, Outcome<Unit, StoreError>)
  {
    if row.sha == "" then (st, Raised(EmptySha))
    else
      var guard := RequireInProgress(st, sid);
      if guard.Raised? then (st, guard) else (PutProfile(st, sid, project, row), Ok(Unit))
  }

  function RecordSkip(st: Store, sid: SnapshotId, row: SkipRow): (Store, Outcome<Unit, StoreError>) {
    if row.reason == "" then (st, Raised(EmptyReason))
    else
      var guard := RequireInProgress(st, sid);
      if guard.Raised? then (st, guard) else (PutSkip(st, sid, row), Ok(Unit))
  }

  function Populate(st: Store, sid: SnapshotId, enumerated: seq<EnumeratedProject>)
    : (Store, Outcome<Unit, StoreError>)
  {
    var guard := RequireInProgress(st, sid);
    if guard.Raised? then (st, guard) else (PutCatalog(st, sid, CatalogRows(enumerated)), Ok(Unit))
  }

  function Abort(st: Store, sid: SnapshotId): (Store, Outcome<Unit, StoreError>) {
    var guard := RequireInProgress(st, sid);
    if guard.Raised? then (st, guard) else (MarkFailed(st, sid), Ok(Unit))
  }

  function Commit(st: Store, sid: SnapshotId): (Store, Outcome<Unit, StoreError>) {
    var guard := RequireInProgress(st, sid);
    if guard.Raised? then (st, guard) else Promote(st, sid)
  }

  // ---------------------------------------------------------------- what an enumeration writes

  /** Catalog rows after upserting `es` in order: the last path wins for a repeated id. */
  function CatalogRows(es: seq<EnumeratedProject>): map<ProjectId, string> {
    if es == [] then map[]
    else
      var e := es[|es| - 1];
      CatalogRows(es[..|es| - 1])[e.id := e.path]
  }

  function MissingBranchSkip(e: EnumeratedProject): SkipRow {
    SkipRow(e.id, ANALYSIS_BRANCH_MISSING_REASON,
            Some("branch '" + e.branch + "' missing on project " + Decimal(e.id)))
  }

  /** Skip rows for the projects of `es` whose analysis branch is missing, in order. */
  function SkipRows(es: seq<EnumeratedProject>): seq<SkipRow> {
    if es == [] then []
    else
      var e := es[|es| - 1];
      SkipRows(es[..|es| - 1]) + (if e.sha.None? then [MissingBranchSkip(e)] else [])
  }

  /** The part of a profile row that the enumeration alone determines. */
  datatype Identity = Identity(fullPath: string, branch: string, sha: string)

  function IdentityOf(row: ProfileRow): Identity {
    Identity(row.fullPath, row.branch, row.sha)
  }

  function Identities(rows: map<ProjectId, ProfileRow>): map<ProjectId, Identity> {
    map p | p in rows :: IdentityOf(rows[p])
  }

  /** Identities of the profile rows that analysing `es` in order leaves behind. */
  function Analysed(es: seq<EnumeratedProject>): map<ProjectId, Identity> {
    if es == [] then map[]
    else
      var e := es[|es| - 1];
      var before := Analysed(es[..|es| - 1]);
      if e.sha.None? then before else before[e.id := Identity(e.path, e.branch, e.sha.value)]
  }

  /** The project ids an enumeration lists. */
  function Ids(es: seq<EnumeratedProject>): set<ProjectId> {
    set i | 0 <= i < |es| :: es[i].id
  }

  ghost predicate DistinctIds(es: seq<EnumeratedProject>) {
    forall i, k :: 0 <= i < k < |es| ==> es[i].id != es[k].id
  }

  /** Position `i` holds the last project of `es` with id `p`. */
  predicate LastWithId(es: seq<EnumeratedProject>, i: nat, p: ProjectId) {
    i < |es| && es[i].id == p && forall k :: i < k < |es| ==> es[k].id != p
  }

  lemma IdsSnoc(es: seq<EnumeratedProject>)
    requires es != []
    ensures Ids(es) == Ids(es[..|es| - 1]) + {es[|es| - 1].id}
  {
    var front := es[..|es| - 1];
    assert forall i :: 0 <= i < |front| ==> front[i] == es[i];
    forall p | p in Ids(front) ensures p in Ids(es) {
      var i :| 0 <= i < |front| && front[i].id == p;
      assert es[i].id == p;
    }
    assert es[|es| - 1].id in Ids(es);
  }

  /** The catalog lists exactly the enumerated ids, each with the path of its last occurrence. */
  lemma {:induction false} CatalogRowsMeaning(es: seq<EnumeratedProject>)
    ensures CatalogRows(es).Keys == Ids(es)
    ensures forall i: nat, p :: LastWithId(es, i, p) ==> p in CatalogRows(es) && CatalogRows(es)[p] == es[i].path
  {
    if es != [] {
      var front, e := es[..|es| - 1], es[|es| - 1];
      CatalogRowsMeaning(front);
      IdsSnoc(es);
      forall i: nat, p | LastWithId(es, i, p)
        ensures p in CatalogRows(es) && CatalogRows(es)[p] == es[i].path
      {
        if i < |front| {
          assert es[|es| - 1].id != p;
          assert LastWithId(front, i, p);
        }
      }
    }
  }

  /** Analysis leaves a row exactly for the ids that some listed project carries a SHA for, and the
      row comes from the last such project. */
  lemma {:induction false} AnalysedMeaning(es: seq<EnumeratedProject>, p: ProjectId)
    ensures p in Analysed(es) <==> exists i :: 0 <= i < |es| && es[i].id == p && es[i].sha.Some?
    ensures p in Analysed(es) ==>
              exists i :: 0 <= i < |es| && es[i].id == p && es[i].sha.Some?
                && Analysed(es)[p] == Identity(es[i].path, es[i].branch, es[i].sha.value)
                && forall k :: i < k < |es| && es[k].id == p ==> es[k].sha.None?
  {
    if es != [] {
      var n := |es| - 1;
      var front := es[..n];
      AnalysedMeaning(front, p);
      if es[n].id == p && es[n].sha.Some? {
        assert Analysed(es)[p] == Identity(es[n].path, es[n].branch, es[n].sha.value);
      } else if p in Analysed(es) {
        var i :| 0 <= i < |front| && front[i].id == p && front[i].sha.Some?
          && Analysed(front)[p] == Identity(front[i].path, front[i].branch, front[i].sha.value)
          && forall k :: i < k < |front| && front[k].id == p ==> front[k].sha.None?;
        assert es[i] == front[i];
        forall k | i < k < |es| && es[k].id == p ensures es[k].sha.None? {
          if k < n { assert front[k] == es[k]; }
        }
      }
      if i :| 0 <= i < |front| && es[i].id == p && es[i].sha.Some? {
        assert front[i] == es[i];
      }
    }
  }

  predicate SkippedAt(es: seq<EnumeratedProject>, i: nat, row: SkipRow) {
    i < |es| && es[i].sha.None? && row == MissingBranchSkip(es[i])
  }

  lemma SkippedInFront(es: seq<EnumeratedProject>, front: seq<EnumeratedProject>, row: SkipRow)
    requires es != [] && front == es[..|es| - 1]
    ensures (exists i: nat :: SkippedAt(es, i, row)) <==>
            (exists i: nat :: SkippedAt(front, i, row)) || SkippedAt(es, |front|, row)
  {
    if i: nat :| SkippedAt(es, i, row) {
      if i < |front| { assert SkippedAt(front, i, row); }
    }
    if i: nat :| SkippedAt(front, i, row) {
      assert SkippedAt(es, i, row);
    }
  }

  /** The skip table names exactly the listed projects without a SHA. */
  lemma {:induction false} SkipRowsMeaning(es: seq<EnumeratedProject>, row: SkipRow)
    ensures row in SkipRows(es) <==> exists i: nat :: SkippedAt(es, i, row)
  {
    if es != [] {
      var front := es[..|es| - 1];
      SkipRowsMeaning(front, row);
      SkippedInFront(es, front, row);
    }
  }

  /** The row names the project, the missing branch and why. */
  ghost predicate ReportsMissingBranch(row: SkipRow, e: EnumeratedProject) {
    && row.project == e.id && row.reason == "analysis_branch_missing"
    && row.detail == Some("branch '" + e.branch + "' missing on project " + Decimal(e.id))
  }

  lemma SkipReports(e: EnumeratedProject)
    ensures ReportsMissingBranch(MissingBranchSkip(e), e)
  {}

  /** The positions of the projects without a SHA, ascending. */
  function BranchlessAt(es: seq<EnumeratedProject>): (at: seq<nat>)
    ensures forall i :: 0 <= i < |at| ==> at[i] < |es| && es[at[i]].sha.None?
    ensures forall i, j :: 0 <= i < j < |at| ==> at[i] < at[j]
  {
    if es == [] then []
    else
      var n := |es| - 1;
      if es[n].sha.None? then BranchlessAt(es[..n]) + [n] else BranchlessAt(es[..n])
  }

  lemma {:induction false} BranchlessListed(es: seq<EnumeratedProject>, k: nat)
    requires k < |es| && es[k].sha.None?
    ensures k in BranchlessAt(es)
  {
    if k < |es| - 1 { BranchlessListed(es[..|es| - 1], k); }
  }

  lemma {:induction false} SkipRowsAt(es: seq<EnumeratedProject>)
    ensures |SkipRows(es)| == |BranchlessAt(es)|
    ensures forall i :: 0 <= i < |SkipRows(es)| ==> SkipRows(es)[i] == MissingBranchSkip(es[BranchlessAt(es)[i]])
  {
    if es != [] { SkipRowsAt(es[..|es| - 1]); }
  }

  /** One row per listed project without a SHA, in the order of the list. */
  lemma SkipRowsInOrder(es: seq<EnumeratedProject>)
    ensures var at := BranchlessAt(es);
            && |at| == |SkipRows(es)|
            && (forall k: nat :: k in at <==> k < |es| && es[k].sha.None?)
            && (forall i :: 0 <= i < |at| ==> ReportsMissingBranch(SkipRows(es)[i], es[at[i]]))
  {
    var at := BranchlessAt(es);
    SkipRowsAt(es);
    forall i | 0 <= i < |at| ensures ReportsMissingBranch(SkipRows(es)[i], es[at[i]]) {
      SkipReports(es[at[i]]);
    }
    forall k: nat | k < |es| && es[k].sha.None? ensures k in at { BranchlessListed(es, k); }
  }

  function SkippedIds(es: seq<EnumeratedProject>): set<ProjectId> {
    set row | row in SkipRows(es) :: row.project
  }

  lemma SkippedIdsMeaning(es: seq<EnumeratedProject>, p: ProjectId)
    ensures p in SkippedIds(es) <==> exists i :: 0 <= i < |es| && es[i].id == p && es[i].sha.None?
  {
    if p in SkippedIds(es) {
      var row :| row in SkipRows(es) && row.project == p;
      SkipRowsMeaning(es, row);
      var i: nat :| SkippedAt(es, i, row);
      assert es[i].id == p;
    }
    if i :| 0 <= i < |es| && es[i].id == p && es[i].sha.None? {
      SkipRowsMeaning(es, MissingBranchSkip(es[i]));
      assert SkippedAt(es, i, MissingBranchSkip(es[i]));
      assert MissingBranchSkip(es[i]).project == p;
    }
  }

  /** Profiles and skips together always cover the catalog; with distinct ids they partition it. */
  lemma ProfilesAndSkipsCoverCatalog(es: seq<EnumeratedProject>)
    ensures Analysed(es).Keys + SkippedIds(es) == CatalogRows(es).Keys
    ensures DistinctIds(es) ==> Analysed(es).Keys !! SkippedIds(es)
  {
    CatalogRowsMeaning(es);
    forall p
      ensures p in Analysed(es) || p in SkippedIds(es) <==> p in Ids(es)
      ensures DistinctIds(es) ==> !(p in Analysed(es) && p in SkippedIds(es))
    {
      AnalysedMeaning(es, p);
      SkippedIdsMeaning(es, p);
      if i :| 0 <= i < |es| && es[i].id == p {
        assert es[i].sha.None? || es[i].sha.Some?;
      }
    }
  }

  // ---------------------------------------------------------------- store invariant and evolution

  /** Row ids never exceed the allocator, and the pointer is null or names a completed snapshot. */
  ghost predicate StoreOk(st: Store) {
    && (forall s :: s in st.snapshots ==> 1 <= s <= st.lastId)
    && (st.current.Some? ==> CompletedIn(st, st.current.value))
  }

  /** What may happen to one snapshot over time: completed ones are frozen whole, failed ones stay
      failed, and trigger and parent never change. */
  ghost predicate SnapshotEvolves(a: Snapshot, b: Snapshot) {
    && a.trigger == b.trigger
    && a.parent == b.parent
    && (a.status.Completed? ==> b == a)
    && (a.status.Failed? ==> b.status.Failed?)
  }

  /** What may happen to a whole store over time. */
  ghost predicate Evolves(a: Store, b: Store) {
    && a.lastId <= b.lastId
    && (forall s :: s in a.snapshots ==> s in b.snapshots && SnapshotEvolves(a.snapshots[s], b.snapshots[s]))
    && (forall s :: s in b.snapshots && s !in a.snapshots ==> a.lastId < s)
    && (b.current == a.current || (b.current.Some? && !CompletedIn(a, b.current.value)))
  }

  /** `b` differs from `a` in snapshot `sid` and the pointer at most. */
  ghost predicate OnlyTouches(a: Store, b: Store, sid: SnapshotId) {
    && a.snapshots.Keys <= b.snapshots.Keys <= a.snapshots.Keys + {sid}
    && (forall s :: s in a.snapshots && s != sid ==> b.snapshots[s] == a.snapshots[s])
  }

  lemma EvolvesReflexive(a: Store)
    ensures Evolves(a, a)
  {}

  lemma EvolvesTransitive(a: Store, b: Store, c: Store)
    requires StoreOk(a) && StoreOk(b) && StoreOk(c)
    requires Evolves(a, b) && Evolves(b, c)
    ensures Evolves(a, c)
  {
    forall s | s in c.snapshots && s !in a.snapshots ensures a.lastId < s {
      if s in b.snapshots {} else {}
    }
    if c.current != a.current {
      if c.current == b.current {} else {
        assert !CompletedIn(b, c.current.value);
      }
    }
  }

  lemma BeginEvolves(st: Store, trigger: Trigger, parent: Option<SnapshotId>)
    requires StoreOk(st)
    ensures var (st', r) := Begin(st, trigger, parent);
            && StoreOk(st') && Evolves(st, st') && st'.current == st.current
            && OnlyTouches(st, st', st.lastId + 1)
            && (r.Raised? ==> st' == st)
            && (r.Ok? ==> r.value == st.lastId + 1 && r.value !in st.snapshots && InProgressIn(st', r.value))
  {}

  /** Writing rows into a snapshot that is not completed keeps every promise readers rely on. */
  lemma RowWritesEvolve(st: Store, sid: SnapshotId, snap: Snapshot)
    requires StoreOk(st)
    requires sid in st.snapshots && !CompletedIn(st, sid)
    requires snap.trigger == st.snapshots[sid].trigger && snap.parent == st.snapshots[sid].parent
    requires snap.status == st.snapshots[sid].status || snap.status.Failed?
    ensures var st' := st.(snapshots := st.snapshots[sid := snap]);
            StoreOk(st') && Evolves(st, st') && OnlyTouches(st, st', sid) && st'.current == st.current
  {}

  lemma PromoteEvolves(st: Store, sid: SnapshotId)
    requires StoreOk(st)
    ensures var (st', r) := Promote(st, sid);
            && StoreOk(st') && Evolves(st, st') && OnlyTouches(st, st', sid)
            && (r.Ok? <==> InProgressIn(st, sid))
            && (r.Ok? ==> st'.current == Some(sid) && st'.snapshots[sid] == st.snapshots[sid].(status := Completed))
            && (r.Raised? ==> st' == st)
  {}

  /** The status update of `abort_snapshot` has no status guard of its own. Run on its own it keeps the
      promises on snapshots exactly when it does not hit a completed one; the promise on the current
      pointer alone needs only that it does not hit the current one. */
  lemma UnguardedFailIsSafeIff(st: Store, sid: SnapshotId)
    requires StoreOk(st) && sid in st.snapshots
    ensures StoreOk(MarkFailed(st, sid)) && Evolves(st, MarkFailed(st, sid)) <==> !CompletedIn(st, sid)
    ensures StoreOk(MarkFailed(st, sid)) <==> st.current != Some(sid)
  {
    var st' := MarkFailed(st, sid);
    assert st'.current == st.current && FailedIn(st', sid);
    if CompletedIn(st, sid) {
      assert !SnapshotEvolves(st.snapshots[sid], st'.snapshots[sid]);
    } else {
      RowWritesEvolve(st, sid, st.snapshots[sid].(status := Failed));
    }
  }

  const BRANCHLESS := EnumeratedProject(7, "g/p", "main", None)

  /** What a full refresh leaves that finds one project, without its branch, */
  const LISTED := Snapshot(Completed, Full, None, map[], map[7 := "g/p"], [MissingBranchSkip(BRANCHLESS)])

  /** and what a refresh of that project leaves on top of it. */
  const REFRESHED := Store(map[1 := LISTED, 2 := LISTED.(trigger := SingleProject, parent := Some(1))], 2, Some(2))

  /** It can hit a completed snapshot that is not current any more, here a recorded parent. */
  lemma UnguardedFailRewritesParent()
    ensures StoreOk(REFRESHED) && StoreOk(MarkFailed(REFRESHED, 1)) && !Evolves(REFRESHED, MarkFailed(REFRESHED, 1))
  {
    UnguardedFailIsSafeIff(REFRESHED, 1);
  }

  // ---------------------------------------------------------------- when writers refuse

  /** A snapshot is opened unless a single project comes without a parent, anything else with one, or the
      parent does not exist; each has its own error. */
  lemma BeginRefusesIff(st: Store, trigger: Trigger, parent: Option<SnapshotId>)
    ensures var r := Begin(st, trigger, parent).1;
            var unknown := parent.Some? && parent.value !in st.snapshots && parent.value != st.lastId + 1;
            && (r.Ok? <==> (trigger == SingleProject <==> parent.Some?) && !unknown)
            && (r == Raised(ParentRequired) <==> trigger == SingleProject && parent.None?)
            && (r == Raised(ParentNotAllowed) <==> trigger != SingleProject && parent.Some?)
            && (r == Raised(NoSuchParent) <==> trigger == SingleProject && unknown)
  {}

  /** Every other writer gives way to the status of its snapshot, after its own argument check, and writes
      nothing when it refuses. */
  lemma WritersRefuseIff(st: Store, sid: SnapshotId, p: ProjectId, row: ProfileRow, skip: SkipRow,
        es: seq<EnumeratedProject>)
    ensures var open := InProgressIn(st, sid);
            var refusal := if sid in st.snapshots then NotInProgress(st.snapshots[sid].status) else NoSuchSnapshot;
            && WriteProfile(st, sid, p, row).1 ==
               (if row.sha == "" then Raised(EmptySha) else if open then Ok(Unit) else Raised(refusal))
            && RecordSkip(st, sid, skip).1 ==
               (if skip.reason == "" then Raised(EmptyReason) else if open then Ok(Unit) else Raised(refusal))
            && Populate(st, sid, es).1 == (if open then Ok(Unit) else Raised(refusal))
            && Abort(st, sid).1 == (if open then Ok(Unit) else Raised(refusal))
            && Commit(st, sid).1 == (if open then Ok(Unit) else Raised(refusal))
    ensures WriteProfile(st, sid, p, row).1.Raised? ==> WriteProfile(st, sid, p, row).0 == st
    ensures RecordSkip(st, sid, skip).1.Raised? ==> RecordSkip(st, sid, skip).0 == st
    ensures !InProgressIn(st, sid) ==>
              Populate(st, sid, es).0 == st && Abort(st, sid).0 == st && Commit(st, sid).0 == st
  {}
}
