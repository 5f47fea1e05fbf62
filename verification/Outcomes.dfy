/** When the two refresh procedures complete, when they leak the slot, and what they leave behind, in
    terms of what a caller can see: the store, the enumeration and the answers per project. */
module Outcomes {
  import opened Base
  import opened StoreModel
  import opened Coordinator
  import Protocol

  type Answer = Outcome<string, JobError>

  // ---------------------------------------------------------------- one project

  /** Nothing goes wrong at position `k`: its branch is missing, or it is analysed and its SHA is
      non-empty. */
  predicate Fine(es: seq<EnumeratedProject>, answers: seq<Answer>, k: nat)
    requires k < |es| == |answers|
  {
    es[k].sha.None? || (answers[k].Ok? && es[k].sha.value != "")
  }

  /** What goes wrong at a position that is not fine: the exception of the fetch or the analysis, or
      `write_profile` refusing the empty SHA. */
  function ErrorAt(es: seq<EnumeratedProject>, answers: seq<Answer>, k: nat): JobError
    requires k < |es| == |answers|
  {
    if answers[k].Raised? then answers[k].error else Other
  }

  /** `k` is the first position from `i` on that is not fine. */
  ghost predicate FirstBad(es: seq<EnumeratedProject>, answers: seq<Answer>, i: nat, k: nat)
    requires |es| == |answers|
  {
    i <= k < |es| && !Fine(es, answers, k) && forall j :: i <= j < k ==> Fine(es, answers, j)
  }

  ghost predicate AllFine(es: seq<EnumeratedProject>, answers: seq<Answer>, i: nat)
    requires |es| == |answers|
  {
    forall k :: i <= k < |es| ==> Fine(es, answers, k)
  }

  /** The first project that goes wrong does so with an exception no handler names. */
  ghost predicate GoesUnhandled(es: seq<EnumeratedProject>, answers: seq<Answer>)
    requires |es| == |answers|
  {
    exists k: nat :: FirstBad(es, answers, 0, k) && ErrorAt(es, answers, k) == Other
  }

  // ---------------------------------------------------------------- the loop

  /** `st` after analysing the first `i` projects into `sid`, leaving the rows `written`. */
  function AfterLoop(st: Store, sid: SnapshotId, es: seq<EnumeratedProject>, i: nat,
        written: map<ProjectId, ProfileRow>): Store
    requires sid in st.snapshots && i <= |es|
  {
    var snap := st.snapshots[sid];
    st.(snapshots :=
      st.snapshots[sid := snap.(profiles := snap.profiles + written, skips := snap.skips + SkipRows(es[..i]))])
  }

  lemma SkipStep(st: Store, sid: SnapshotId, es: seq<EnumeratedProject>, i: nat, written: map<ProjectId, ProfileRow>)
    requires sid in st.snapshots && i < |es| && es[i].sha.None?
    ensures PutSkip(AfterLoop(st, sid, es, i, written), sid, MissingBranchSkip(es[i])) ==
            AfterLoop(st, sid, es, i + 1, written)
    ensures Analysed(es[..i + 1]) == Analysed(es[..i])
  {
    assert es[..i + 1][..i] == es[..i];
    var snap := st.snapshots[sid];
    assert snap.skips + SkipRows(es[..i + 1]) == snap.skips + SkipRows(es[..i]) + [MissingBranchSkip(es[i])];
  }

  lemma WriteStep(st: Store, sid: SnapshotId, es: seq<EnumeratedProject>, i: nat, written: map<ProjectId, ProfileRow>,
        body: string)
    requires sid in st.snapshots && i < |es| && es[i].sha.Some? && Identities(written) == Analysed(es[..i])
    ensures var row := Protocol.RowFor(es[i], body);
            && PutProfile(AfterLoop(st, sid, es, i, written), sid, es[i].id, row) ==
               AfterLoop(st, sid, es, i + 1, written[es[i].id := row])
            && Identities(written[es[i].id := row]) == Analysed(es[..i + 1])
  {
    var row := Protocol.RowFor(es[i], body);
    assert es[..i + 1][..i] == es[..i];
    assert SkipRows(es[..i + 1]) == SkipRows(es[..i]);
    assert Identities(written[es[i].id := row]) == Identities(written)[es[i].id := IdentityOf(row)];
    var snap := st.snapshots[sid];
    assert (snap.profiles + written)[es[i].id := row] == snap.profiles + written[es[i].id := row];
  }

  /** Of the first `n` positions, `i` holds the last project of its id that carries a SHA. */
  ghost predicate LastAnalysed(es: seq<EnumeratedProject>, n: nat, i: nat) {
    i < n <= |es| && es[i].sha.Some? && forall k :: i < k < n && es[k].id == es[i].id ==> es[k].sha.None?
  }

  /** `rows` are what the first `n` answers were for: one row per id some project carries a SHA for, made
      of the last such project and the answer for it. */
  ghost predicate RowsAre(rows: map<ProjectId, ProfileRow>, es: seq<EnumeratedProject>, answers: seq<Answer>, n: nat)
    requires n <= |es| == |answers|
  {
    && (forall p :: p in rows <==> exists i: nat :: LastAnalysed(es, n, i) && es[i].id == p)
    && (forall i: nat :: LastAnalysed(es, n, i) ==>
          && answers[i].Ok? && es[i].id in rows
          && rows[es[i].id] == ProfileRow(es[i].path, es[i].branch, es[i].sha.value, answers[i].value))
  }

  lemma RowsAfterSkip(rows: map<ProjectId, ProfileRow>, es: seq<EnumeratedProject>, answers: seq<Answer>, n: nat)
    requires n < |es| == |answers| && RowsAre(rows, es, answers, n) && es[n].sha.None?
    ensures RowsAre(rows, es, answers, n + 1)
  {
    assert forall i: nat :: LastAnalysed(es, n + 1, i) <==> LastAnalysed(es, n, i);
  }

  lemma RowsAfterWrite(rows: map<ProjectId, ProfileRow>, es: seq<EnumeratedProject>, answers: seq<Answer>, n: nat)
    requires n < |es| == |answers| && RowsAre(rows, es, answers, n) && es[n].sha.Some? && answers[n].Ok?
    ensures var row := ProfileRow(es[n].path, es[n].branch, es[n].sha.value, answers[n].value);
            RowsAre(rows[es[n].id := row], es, answers, n + 1)
  {
    assert LastAnalysed(es, n + 1, n);
    assert forall i: nat :: i < n ==> (LastAnalysed(es, n + 1, i) <==> LastAnalysed(es, n, i) && es[i].id != es[n].id);
    var more := rows[es[n].id := ProfileRow(es[n].path, es[n].branch, es[n].sha.value, answers[n].value)];
    forall p ensures p in more <==> exists i: nat :: LastAnalysed(es, n + 1, i) && es[i].id == p {
      if p != es[n].id && p in rows {
        var i: nat :| LastAnalysed(es, n, i) && es[i].id == p;
        assert LastAnalysed(es, n + 1, i);
      }
    }
  }

  lemma SkipUnfolds(st: Store, sid: SnapshotId, es: seq<EnumeratedProject>, answers: seq<Answer>, i: nat,
        written: map<ProjectId, ProfileRow>)
    requires InProgressIn(st, sid) && i < |es| == |answers| && es[i].sha.None?
    ensures AnalyzeFrom(AfterLoop(st, sid, es, i, written), sid, es, answers, i) ==
            AnalyzeFrom(AfterLoop(st, sid, es, i + 1, written), sid, es, answers, i + 1)
    ensures Analysed(es[..i + 1]) == Analysed(es[..i])
  {
    SkipStep(st, sid, es, i, written);
  }

  lemma WriteUnfolds(st: Store, sid: SnapshotId, es: seq<EnumeratedProject>, answers: seq<Answer>, i: nat,
        written: map<ProjectId, ProfileRow>)
    requires InProgressIn(st, sid) && i < |es| == |answers| && es[i].sha.Some? && Fine(es, answers, i)
    requires Identities(written) == Analysed(es[..i])
    ensures var more := written[es[i].id := Protocol.RowFor(es[i], answers[i].value)];
            && AnalyzeFrom(AfterLoop(st, sid, es, i, written), sid, es, answers, i) ==
               AnalyzeFrom(AfterLoop(st, sid, es, i + 1, more), sid, es, answers, i + 1)
            && Identities(more) == Analysed(es[..i + 1])
  {
    WriteStep(st, sid, es, i, written, answers[i].value);
  }

  lemma BadStops(st: Store, sid: SnapshotId, es: seq<EnumeratedProject>, answers: seq<Answer>, i: nat)
    requires i < |es| == |answers| && !Fine(es, answers, i)
    ensures AnalyzeFrom(st, sid, es, answers, i) == (st, Some(ErrorAt(es, answers, i)))
    ensures FirstBad(es, answers, i, i) && !AllFine(es, answers, i)
  {}

  lemma FineGoesOn(es: seq<EnumeratedProject>, answers: seq<Answer>, i: nat, j: nat)
    requires i < |es| == |answers| && Fine(es, answers, i)
    ensures AllFine(es, answers, i) <==> AllFine(es, answers, i + 1)
    ensures FirstBad(es, answers, i + 1, j) ==> FirstBad(es, answers, i, j)
  {}

  /** The loop on a snapshot in progress: it ends well exactly when every project is fine, else with the
      error of the first that is not, and the snapshot is still in progress. */
  lemma {:induction false} LoopOutcome(st: Store, sid: SnapshotId, es: seq<EnumeratedProject>, answers: seq<Answer>,
        i: nat, written: map<ProjectId, ProfileRow>) returns (j: nat, rows: map<ProjectId, ProfileRow>)
    requires InProgressIn(st, sid) && i <= |es| == |answers|
    requires Identities(written) == Analysed(es[..i]) && RowsAre(written, es, answers, i)
    ensures i <= j <= |es| && Identities(rows) == Analysed(es[..j]) && RowsAre(rows, es, answers, j)
    ensures var (st', failure) := AnalyzeFrom(AfterLoop(st, sid, es, i, written), sid, es, answers, i);
            && st' == AfterLoop(st, sid, es, j, rows)
            && (failure.None? <==> j == |es|)
            && (failure.None? <==> AllFine(es, answers, i))
            && (failure.Some? ==> FirstBad(es, answers, i, j) && failure.value == ErrorAt(es, answers, j))
    decreases |es| - i
  {
    j, rows := i, written;
    if i < |es| && !Fine(es, answers, i) {
      BadStops(AfterLoop(st, sid, es, i, written), sid, es, answers, i);
    } else if i < |es| {
      var more := written;
      if es[i].sha.None? {
        SkipUnfolds(st, sid, es, answers, i, written);
        RowsAfterSkip(written, es, answers, i);
      } else {
        WriteUnfolds(st, sid, es, answers, i, written);
        RowsAfterWrite(written, es, answers, i);
        more := written[es[i].id := Protocol.RowFor(es[i], answers[i].value)];
      }
      j, rows := LoopOutcome(st, sid, es, answers, i + 1, more);
      FineGoesOn(es, answers, i, j);
    }
  }

  // ---------------------------------------------------------------- from an open snapshot on

  /** The rows analysing `es` leaves: identities as enumerated, payloads as analysed. */
  ghost predicate AnalysedRows(rows: map<ProjectId, ProfileRow>, es: seq<EnumeratedProject>, answers: seq<Answer>)
    requires |es| == |answers|
  {
    Identities(rows) == Analysed(es) && RowsAre(rows, es, answers, |es|)
  }

  /** `after` is `before`, completed, with the rows of `es` put over its profiles and its skips appended. */
  ghost predicate Shows(before: Snapshot, after: Snapshot, es: seq<EnumeratedProject>, answers: seq<Answer>)
    requires |es| == |answers|
  {
    && after == before.(status := Completed, profiles := after.profiles, skips := before.skips + SkipRows(es))
    && exists rows :: AnalysedRows(rows, es, answers) && after.profiles == before.profiles + rows
  }

  /** Readers keep what they saw: no other snapshot and no pointer changed, and `sid` has this status. */
  ghost predicate Unseen(st: Store, st': Store, sid: SnapshotId, status: Status) {
    && st'.current == st.current && OnlyTouches(st, st', sid)
    && sid in st'.snapshots && st'.snapshots[sid].status == status
  }

  /** How a call that is not refused ends, once its snapshot is open in `st`. */
  ghost predicate EndsAs(st: Store, sid: SnapshotId, a: Aftermath, completes: bool, leaks: bool)
  {
    && (a.result.Completes? <==> completes)
    && (a.leaked <==> leaks)
    && (completes ==> a.store.current == Some(sid) && OnlyTouches(st, a.store, sid))
    && (!completes ==> Unseen(st, a.store, sid, if leaks then InProgress else Failed))
  }

  lemma FailEnds(st: Store, sid: SnapshotId, why: Result)
    requires InProgressIn(st, sid) && !why.Completes?
    ensures EndsAs(st, sid, FailWith(st, sid, why), false, false)
    ensures FailWith(st, sid, why).result == why
  {}

  lemma NothingYet(st: Store, sid: SnapshotId, es: seq<EnumeratedProject>)
    requires sid in st.snapshots
    ensures AfterLoop(st, sid, es, 0, map[]) == st
  {
    var snap := st.snapshots[sid];
    assert es[..0] == [];
    assert snap.(profiles := snap.profiles + map[], skips := snap.skips + []) == snap;
    assert st.snapshots[sid := snap] == st.snapshots;
  }

  lemma TailEnds(st: Store, sid: SnapshotId, es: seq<EnumeratedProject>, answers: seq<Answer>)
    requires InProgressIn(st, sid) && |es| == |answers|
    ensures var a := AnalyzeAndCommit(st, sid, es, answers);
            && EndsAs(st, sid, a, AllFine(es, answers, 0), GoesUnhandled(es, answers))
            && (AllFine(es, answers, 0) ==> Shows(st.snapshots[sid], a.store.snapshots[sid], es, answers))
  {
    assert es[..0] == [] && es[..|es|] == es;
    NothingYet(st, sid, es);
    var j, rows := LoopOutcome(st, sid, es, answers, 0, map[]);
    var (st', failure) := AnalyzeFrom(st, sid, es, answers, 0);
    if failure.None? {
      assert AnalysedRows(rows, es, answers);
    } else {
      OneFirstBad(es, answers, j);
    }
  }

  /** There is one first position that goes wrong. */
  lemma OneFirstBad(es: seq<EnumeratedProject>, answers: seq<Answer>, j: nat)
    requires |es| == |answers| && FirstBad(es, answers, 0, j)
    ensures GoesUnhandled(es, answers) <==> ErrorAt(es, answers, j) == Other
    ensures !AllFine(es, answers, 0)
  {
    if k: nat :| FirstBad(es, answers, 0, k) && ErrorAt(es, answers, k) == Other {
      assert k == j;
    }
  }

  // ---------------------------------------------------------------- whole calls

  /** What decides a full refresh: the slot is idle, the enumeration arrives, every project is fine. */
  ghost predicate FullCompletes(busy: bool, enumeration: Outcome<seq<EnumeratedProject>, JobError>,
        answers: seq<Answer>)
    requires enumeration.Ok? ==> |answers| == |enumeration.value|
  {
    !busy && enumeration.Ok? && AllFine(enumeration.value, answers, 0)
  }

  /** It leaks the slot when it got it and an exception no handler names comes first. */
  ghost predicate FullLeaks(busy: bool, enumeration: Outcome<seq<EnumeratedProject>, JobError>, answers: seq<Answer>)
    requires enumeration.Ok? ==> |answers| == |enumeration.value|
  {
    !busy && (enumeration == Raised(Other) || (enumeration.Ok? && GoesUnhandled(enumeration.value, answers)))
  }

  /** Opening the snapshot is not seen either. */
  lemma EndsFromTheStart(st: Store, trigger: Trigger, parent: Option<SnapshotId>, a: Aftermath, completes: bool,
        leaks: bool)
    requires StoreOk(st) && Begin(st, trigger, parent).1 == Ok(st.lastId + 1)
    requires EndsAs(Begin(st, trigger, parent).0, st.lastId + 1, a, completes, leaks)
    ensures EndsAs(st, st.lastId + 1, a, completes, leaks)
  {}

  lemma FullFromEnds(st: Store, sid: SnapshotId, enumeration: Outcome<seq<EnumeratedProject>, JobError>,
        answers: seq<Answer>)
    requires InProgressIn(st, sid) && (enumeration.Ok? ==> |answers| == |enumeration.value|)
    ensures EndsAs(st, sid, FullFrom(st, sid, enumeration, answers),
                   FullCompletes(false, enumeration, answers), FullLeaks(false, enumeration, answers))
  {
    match enumeration
    case Raised(GitLab(e)) => FailEnds(st, sid, RaisesGitLab(e));
    case Raised(Other) =>
    case Ok(es) => TailEnds(PutCatalog(st, sid, CatalogRows(es)), sid, es, answers);
  }

  /** A full refresh completes, and leaks, exactly when these say so; otherwise readers keep their view
      and the new snapshot is failed, or for ever in progress if the slot leaks. */
  lemma FullRefreshOutcome(st: Store, busy: bool, enumeration: Outcome<seq<EnumeratedProject>, JobError>,
        answers: seq<Answer>)
    requires StoreOk(st) && (enumeration.Ok? ==> |answers| == |enumeration.value|)
    ensures EndsAs(st, st.lastId + 1, FullRefresh(st, busy, enumeration, answers),
                   FullCompletes(busy, enumeration, answers), FullLeaks(busy, enumeration, answers))
  {
    var sid, begun := st.lastId + 1, Begin(st, Full, None).0;
    if busy {
      FailEnds(begun, sid, RaisesInProgress);
    } else {
      FullFromEnds(begun, sid, enumeration, answers);
    }
    EndsFromTheStart(st, Full, None, FullRefresh(st, busy, enumeration, answers),
                     FullCompletes(busy, enumeration, answers), FullLeaks(busy, enumeration, answers));
  }

  lemma ShownOnNothing(before: Snapshot, after: Snapshot, es: seq<EnumeratedProject>, answers: seq<Answer>)
    requires |es| == |answers|
    requires Shows(before, after, es, answers) && before.profiles == map[] && before.skips == []
    ensures after == before.(status := Completed, profiles := after.profiles, skips := SkipRows(es))
    ensures Identities(after.profiles) == Analysed(es) && RowsAre(after.profiles, es, answers, |es|)
  {
    var rows :| AnalysedRows(rows, es, answers) && after.profiles == before.profiles + rows;
    assert map[] + rows == rows && [] + SkipRows(es) == SkipRows(es);
  }

  /** A completed full refresh shows the enumeration and nothing else. */
  lemma FullRefreshShowsEnumeration(st: Store, es: seq<EnumeratedProject>, answers: seq<Answer>)
    requires StoreOk(st) && |es| == |answers| && AllFine(es, answers, 0)
    ensures var st' := FullRefresh(st, false, Ok(es), answers).store;
            && st'.current == Some(st.lastId + 1) && st.lastId + 1 in st'.snapshots
            && var snap := st'.snapshots[st.lastId + 1];
            && snap == Snapshot(Completed, Full, None, snap.profiles, CatalogRows(es), SkipRows(es))
            && Identities(snap.profiles) == Analysed(es)
            && RowsAre(snap.profiles, es, answers, |es|)
  {
    var sid := st.lastId + 1;
    var populated := PutCatalog(Begin(st, Full, None).0, sid, CatalogRows(es));
    var before := Snapshot(InProgress, Full, None, map[], CatalogRows(es), []);
    assert map[] + CatalogRows(es) == CatalogRows(es);
    assert populated.snapshots[sid] == before;
    TailEnds(populated, sid, es, answers);
    var a := AnalyzeAndCommit(populated, sid, es, answers);
    assert FullRefresh(st, false, Ok(es), answers) == a;
    ShownOnNothing(before, a.store.snapshots[sid], es, answers);
  }

  /** What decides a single-project refresh that is in scope: the project is still enumerated and fine. */
  ghost predicate SingleCompletes(busy: bool, project: ProjectId,
        enumeration: Outcome<seq<EnumeratedProject>, JobError>, answer: Answer)
  {
    && !busy && enumeration.Ok?
    && var m := Protocol.Matching(enumeration.value, project);
    m != [] && Fine(m, [answer], 0)
  }

  ghost predicate SingleLeaks(busy: bool, project: ProjectId,
        enumeration: Outcome<seq<EnumeratedProject>, JobError>, answer: Answer)
  {
    && !busy
    && (|| enumeration == Raised(Other)
        || (&& enumeration.Ok?
            && var m := Protocol.Matching(enumeration.value, project);
            m != [] && !Fine(m, [answer], 0) && ErrorAt(m, [answer], 0) == Other))
  }

  lemma SingleFromEnds(st: Store, sid: SnapshotId, project: ProjectId,
        enumeration: Outcome<seq<EnumeratedProject>, JobError>, answer: Answer)
    requires InProgressIn(st, sid)
    ensures EndsAs(st, sid, SingleFrom(st, sid, project, enumeration, answer),
                   SingleCompletes(false, project, enumeration, answer),
                   SingleLeaks(false, project, enumeration, answer))
  {
    match enumeration
    case Raised(GitLab(e)) => FailEnds(st, sid, RaisesGitLab(e));
    case Raised(Other) =>
    case Ok(es) =>
      var m := Protocol.Matching(es, project);
      if m == [] {
        FailEnds(st, sid, RaisesNotInScope);
      } else {
        TailEnds(st, sid, m, [answer]);
        OneProject(m, [answer]);
      }
  }

  /** A single-project refresh: refused for scope it changes nothing; otherwise it completes, and leaks,
      exactly when these say so. */
  lemma SingleRefreshOutcome(st: Store, busy: bool, project: ProjectId,
        enumeration: Outcome<seq<EnumeratedProject>, JobError>, answer: Answer)
    requires StoreOk(st)
    ensures var a := SingleRefresh(st, busy, project, enumeration, answer);
            if ScopedParent(st, project).None? then a == Aftermath(st, RaisesNotInScope, false)
            else EndsAs(st, st.lastId + 1, a, SingleCompletes(busy, project, enumeration, answer),
                        SingleLeaks(busy, project, enumeration, answer))
  {
    var sid, parent := st.lastId + 1, ScopedParent(st, project);
    if parent.Some? {
      var begun := Begin(st, SingleProject, parent).0;
      if busy {
        FailEnds(begun, sid, RaisesInProgress);
      } else {
        SingleFromEnds(begun, sid, project, enumeration, answer);
      }
      EndsFromTheStart(st, SingleProject, parent, SingleRefresh(st, busy, project, enumeration, answer),
                       SingleCompletes(busy, project, enumeration, answer),
                       SingleLeaks(busy, project, enumeration, answer));
    }
  }

  lemma OneProject(m: seq<EnumeratedProject>, answers: seq<Answer>)
    requires |m| == |answers| == 1
    ensures AllFine(m, answers, 0) <==> Fine(m, answers, 0)
    ensures GoesUnhandled(m, answers) <==> !Fine(m, answers, 0) && ErrorAt(m, answers, 0) == Other
  {
    if !Fine(m, answers, 0) { OneFirstBad(m, answers, 0); }
  }

  /** `after` is `before`, completed, with the one project `e` put over it: its row, made of the
      enumeration and the answer, or its skip. */
  ghost predicate ShowsOne(before: Snapshot, after: Snapshot, e: EnumeratedProject, answer: Answer) {
    && after == before.(status := Completed, profiles := after.profiles, skips := after.skips)
    && (e.sha.None? ==> after.profiles == before.profiles && after.skips == before.skips + [MissingBranchSkip(e)])
    && (e.sha.Some? ==>
          && after.skips == before.skips && answer.Ok?
          && after.profiles == before.profiles[e.id := ProfileRow(e.path, e.branch, e.sha.value, answer.value)])
  }

  lemma OneProjectRows(e: EnumeratedProject)
    ensures Analysed([e]) == if e.sha.None? then map[] else map[e.id := Identity(e.path, e.branch, e.sha.value)]
    ensures SkipRows([e]) == if e.sha.None? then [MissingBranchSkip(e)] else []
  {
    var es := [e];
    assert es[..|es| - 1] == [];
  }

  lemma ShowsSingle(before: Snapshot, after: Snapshot, e: EnumeratedProject, answer: Answer)
    requires Shows(before, after, [e], [answer])
    ensures ShowsOne(before, after, e, answer)
  {
    var rows :| AnalysedRows(rows, [e], [answer]) && after.profiles == before.profiles + rows;
    OneProjectRows(e);
    assert Identities(rows).Keys == rows.Keys;
    if e.sha.None? {
      assert rows == map[];
      assert before.profiles + rows == before.profiles;
    } else {
      assert LastAnalysed([e], 1, 0);
      assert rows.Keys == {e.id} && answer.Ok?;
      assert rows[e.id] == ProfileRow(e.path, e.branch, e.sha.value, answer.value);
      assert before.profiles + rows == before.profiles[e.id := rows[e.id]];
      assert before.skips + [] == before.skips;
    }
  }

  /** A completed single-project refresh shows its parent with the one project put over it. */
  lemma SingleRefreshShowsParent(st: Store, project: ProjectId, es: seq<EnumeratedProject>, answer: Answer)
    requires StoreOk(st) && ScopedParent(st, project).Some? && SingleCompletes(false, project, Ok(es), answer)
    ensures var parent, st' := st.snapshots[st.current.value], SingleRefresh(st, false, project, Ok(es), answer).store;
            && st'.current == Some(st.lastId + 1) && st.lastId + 1 in st'.snapshots
            && ShowsOne(Snapshot(InProgress, SingleProject, st.current, parent.profiles, parent.catalog, []),
                        st'.snapshots[st.lastId + 1], Protocol.Matching(es, project)[0], answer)
  {
    var sid, m := st.lastId + 1, Protocol.Matching(es, project);
    var begun := Begin(st, SingleProject, st.current).0;
    OneProject(m, [answer]);
    TailEnds(begun, sid, m, [answer]);
    var a := AnalyzeAndCommit(begun, sid, m, [answer]);
    assert SingleRefresh(st, false, project, Ok(es), answer) == a;
    assert m == [m[0]];
    ShowsSingle(begun.snapshots[sid], a.store.snapshots[sid], m[0], answer);
  }

  /** A call that leaks: the connector raises an error no handler names while fetching the one project.
      The slot stays occupied, the new snapshot stays in progress, and readers see nothing of it. */
  lemma UnhandledFetchLeaks(st: Store, e: EnumeratedProject)
    requires StoreOk(st) && e.sha.Some?
    ensures var a := FullRefresh(st, false, Ok([e]), [Raised(Other)]);
            a.leaked && a.result == RaisesOther && a.store.current == st.current && InProgressIn(a.store, st.lastId + 1)
  {
    assert FirstBad([e], [Raised(Other)], 0, 0);
    OneFirstBad([e], [Raised(Other)], 0);
    FullRefreshOutcome(st, false, Ok([e]), [Raised(Other)]);
  }

  lemma FirstLeavesListed(answer: Answer)
    ensures FullRefresh(Store(map[], 0, None), false, Ok([BRANCHLESS]), [answer]) ==
            Aftermath(Store(map[1 := LISTED], 1, Some(1)), Completes, false)
  {
    var es, empty := [BRANCHLESS], Store(map[], 0, None);
    OneProjectRows(BRANCHLESS);
    assert es[..0] == [];
    assert map[] + CatalogRows(es) == CatalogRows(es) == LISTED.catalog;
    var open := Store(map[1 := LISTED.(status := InProgress, skips := [])], 1, None);
    assert PutCatalog(Begin(empty, Full, None).0, 1, CatalogRows(es)) == open;
    SkippedAlone(open, 1, es, answer);
  }

  lemma SecondLeavesRefreshed(answer: Answer)
    ensures SingleRefresh(Store(map[1 := LISTED], 1, Some(1)), false, 7, Ok([BRANCHLESS]), answer) ==
            Aftermath(REFRESHED, Completes, false)
  {
    var es, first := [BRANCHLESS], Store(map[1 := LISTED], 1, Some(1));
    var begun := Begin(first, SingleProject, Some(1)).0;
    SkippedAlone(begun, 2, es, answer);
    assert Protocol.Matching(es, 7) == es && ScopedParent(first, 7) == Some(1);
    assert begun.snapshots[2] == Snapshot(InProgress, SingleProject, Some(1), map[], LISTED.catalog, []);
    var last := Promote(PutSkip(begun, 2, MissingBranchSkip(BRANCHLESS)), 2).0;
    assert [] + LISTED.skips == LISTED.skips;
    assert last.snapshots[2] == REFRESHED.snapshots[2] && last.snapshots[1] == LISTED;
    assert last.snapshots.Keys == {1, 2} == REFRESHED.snapshots.Keys;
    assert last.snapshots == REFRESHED.snapshots;
  }

  /** The store of `UnguardedFailRewritesParent` is one the coordinator leaves: a full refresh of an empty
      store, then a refresh of the one project. */
  lemma TwoRefreshesLeave(answer: Answer)
    ensures var first := FullRefresh(Store(map[], 0, None), false, Ok([BRANCHLESS]), [answer]);
            && first == Aftermath(Store(map[1 := LISTED], 1, Some(1)), Completes, false)
            && SingleRefresh(first.store, false, 7, Ok([BRANCHLESS]), answer) == Aftermath(REFRESHED, Completes, false)
  {
    FirstLeavesListed(answer);
    SecondLeavesRefreshed(answer);
  }

  lemma SkippedAlone(st: Store, sid: SnapshotId, es: seq<EnumeratedProject>, answer: Answer)
    requires es == [BRANCHLESS] && InProgressIn(st, sid) && st.snapshots[sid].skips == []
    ensures var skipped := PutSkip(st, sid, MissingBranchSkip(BRANCHLESS));
            AnalyzeAndCommit(st, sid, es, [answer]) == Aftermath(Promote(skipped, sid).0, Completes, false)
  {
    var skipped := PutSkip(st, sid, MissingBranchSkip(BRANCHLESS));
    assert AnalyzeFrom(skipped, sid, es, [answer], 1) == (skipped, None);
  }

  // ---------------------------------------------------------------- what the caller is told

  /** The exception a procedure raises for what went wrong. */
  function Raises(error: JobError): Result {
    match error
    case GitLab(e) => RaisesGitLab(e)
    case Other => RaisesOther
  }

  lemma FirstBadIsUnique(es: seq<EnumeratedProject>, answers: seq<Answer>, j: nat, k: nat)
    requires |es| == |answers| && FirstBad(es, answers, 0, j) && FirstBad(es, answers, 0, k)
    ensures j == k
  {}

  lemma LoopRaises(st: Store, sid: SnapshotId, es: seq<EnumeratedProject>, answers: seq<Answer>, k: nat)
    requires InProgressIn(st, sid) && |es| == |answers| && FirstBad(es, answers, 0, k)
    ensures var (st', failure) := AnalyzeFrom(st, sid, es, answers, 0);
            failure == Some(ErrorAt(es, answers, k)) && InProgressIn(st', sid)
  {
    assert es[..0] == [];
    NothingYet(st, sid, es);
    var j, rows := LoopOutcome(st, sid, es, answers, 0, map[]);
    var (st', failure) := AnalyzeFrom(st, sid, es, answers, 0);
    OneFirstBad(es, answers, k);
    if failure.Some? {
      FirstBadIsUnique(es, answers, j, k);
    }
  }

  lemma TailRaises(st: Store, sid: SnapshotId, es: seq<EnumeratedProject>, answers: seq<Answer>, k: nat)
    requires InProgressIn(st, sid) && |es| == |answers| && FirstBad(es, answers, 0, k)
    ensures AnalyzeAndCommit(st, sid, es, answers).result == Raises(ErrorAt(es, answers, k))
  {
    LoopRaises(st, sid, es, answers, k);
    var (st', failure) := AnalyzeFrom(st, sid, es, answers, 0);
    match failure.value
    case GitLab(e) => FailEnds(st', sid, RaisesGitLab(e));
    case Other =>
  }

  /** What a full refresh raises: that one is running, what the enumeration raised, or what the first
      project to go wrong raised. */
  lemma FullRefreshRaises(st: Store, busy: bool, enumeration: Outcome<seq<EnumeratedProject>, JobError>,
        answers: seq<Answer>)
    requires StoreOk(st) && (enumeration.Ok? ==> |answers| == |enumeration.value|)
    ensures var r := FullRefresh(st, busy, enumeration, answers).result;
            && (busy ==> r == RaisesInProgress)
            && (!busy && enumeration.Raised? ==> r == Raises(enumeration.error))
            && (!busy && enumeration.Ok? ==>
                  forall k: nat :: FirstBad(enumeration.value, answers, 0, k) ==>
                    r == Raises(ErrorAt(enumeration.value, answers, k)))
  {
    if !busy && enumeration.Ok? {
      var es, sid := enumeration.value, st.lastId + 1;
      forall k: nat | FirstBad(es, answers, 0, k)
        ensures FullRefresh(st, busy, enumeration, answers).result == Raises(ErrorAt(es, answers, k))
      {
        TailRaises(PutCatalog(Begin(st, Full, None).0, sid, CatalogRows(es)), sid, es, answers, k);
      }
    }
  }

  /** What a single-project refresh raises, scope first: out of scope means no current snapshot, or one
      whose catalog does not list the project, or an enumeration that lists it no more. */
  lemma SingleRefreshRaises(st: Store, busy: bool, project: ProjectId,
        enumeration: Outcome<seq<EnumeratedProject>, JobError>, answer: Answer)
    requires StoreOk(st)
    ensures var r := SingleRefresh(st, busy, project, enumeration, answer).result;
            var scoped := st.current.Some? && project in st.snapshots[st.current.value].catalog;
            && (!scoped ==> r == RaisesNotInScope)
            && (scoped && busy ==> r == RaisesInProgress)
            && (scoped && !busy && enumeration.Raised? ==> r == Raises(enumeration.error))
            && (scoped && !busy && enumeration.Ok? ==>
                  && ((forall e :: e in enumeration.value ==> e.id != project) ==> r == RaisesNotInScope)
                  && (forall k: nat :: FirstWithId(enumeration.value, k, project) &&
                                       !Fine([enumeration.value[k]], [answer], 0) ==>
                        r == Raises(ErrorAt([enumeration.value[k]], [answer], 0))))
  {
    var scoped := st.current.Some? && project in st.snapshots[st.current.value].catalog;
    if scoped && !busy && enumeration.Ok? {
      var es, m := enumeration.value, Protocol.Matching(enumeration.value, project);
      if m != [] && !Fine(m, [answer], 0) {
        TailRaises(Begin(st, SingleProject, st.current).0, st.lastId + 1, m, [answer], 0);
      }
      forall k: nat | FirstWithId(es, k, project) ensures m == [es[k]] {
        MatchingIsFirst(es, project, k);
      }
    }
  }

  /** Position `k` holds the first project listed with id `p`. */
  ghost predicate FirstWithId(es: seq<EnumeratedProject>, k: nat, p: ProjectId) {
    k < |es| && es[k].id == p && forall j :: 0 <= j < k ==> es[j].id != p
  }

  lemma {:induction false} MatchingIsFirst(es: seq<EnumeratedProject>, p: ProjectId, k: nat)
    requires FirstWithId(es, k, p)
    ensures Protocol.Matching(es, p) == [es[k]]
  {
    if k > 0 {
      assert es[0].id != p;
      MatchingIsFirst(es[1..], p, k - 1);
    }
  }
}
