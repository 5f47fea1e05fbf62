/** The dependency page under concurrent ingestion: it lists the catalog and then the profiles, each
    behind its own reading of the pointer. */
module PageGraph {
  import opened Base
  import opened Models
  import opened StoreModel
  import opened Protocol
  import opened ProtocolInvariant
  import opened ProtocolTheorems
  import opened Readers
  import G = DependencyGraph
  import Coordinator
  import Outcomes
  import SoloRuns

  /** The table dependencies a profile payload lists. */
  type Tables = string -> seq<TableDependency>

  function ScopeList(rows: seq<(ProjectId, string)>): (r: seq<G.InScopeProject>)
    ensures |r| == |rows| && forall i :: 0 <= i < |r| ==> r[i] == G.InScopeProject(rows[i].0, rows[i].1)
  {
    seq(|rows|, i requires 0 <= i < |rows| => G.InScopeProject(rows[i].0, rows[i].1))
  }

  function ProfileOf(tables: Tables, row: (ProjectId, ProfileRow)): G.Profile {
    G.Profile(row.0, tables(row.1.body))
  }

  function ProfileList(tables: Tables, rows: seq<(ProjectId, ProfileRow)>): (r: seq<G.Profile>)
    ensures |r| == |rows| && forall i :: 0 <= i < |r| ==> r[i] == ProfileOf(tables, rows[i])
  {
    seq(|rows|, i requires 0 <= i < |rows| => ProfileOf(tables, rows[i]))
  }

  /** What the page draws from two listings. */
  ghost function Drawn(tables: Tables, catalog: seq<(ProjectId, string)>,
        profiles: seq<(ProjectId, ProfileRow)>): G.Graph
  {
    G.RenderedGraph(ScopeList(catalog), ProfileList(tables, profiles))
  }

  /** The page of a run: the catalog is read at `j'` behind the pointer of `j`, then the profiles at
      `k'` behind the pointer of `k`. */
  ghost function Page(tables: Tables, trace: seq<System>, j: nat, j': nat, k: nat, k': nat): G.Graph
    requires j <= j' <= k <= k' < |trace|
  {
    Drawn(tables, CatalogAt(trace[j'].store, trace[j].store.current),
          ProfilesAt(trace[k'].store, trace[k].store.current))
  }

  /** The graph of some rows of the two tables. */
  ghost function RowsGraph(tables: Tables, catalog: map<ProjectId, string>,
        profiles: map<ProjectId, ProfileRow>): G.Graph
  {
    Drawn(tables, ByAscendingId(catalog), ByAscendingId(profiles))
  }

  ghost function SnapshotGraph(tables: Tables, snap: Snapshot): G.Graph {
    RowsGraph(tables, snap.catalog, snap.profiles)
  }

  // ---------------------------------------------------------------- when one snapshot is shown

  /** The step from state `m` to the next commits a snapshot. */
  ghost predicate CommitsAt(trace: seq<System>, m: nat)
    requires m + 1 < |trace|
  {
    exists a :: IsCommit(trace[m], a) && Next(trace[m], a) == Some(trace[m + 1])
  }

  lemma PointerMovesIffCommits(trace: seq<System>, m: nat)
    requires Run(trace) && m + 1 < |trace|
    ensures trace[m + 1].store.current != trace[m].store.current <==> CommitsAt(trace, m)
  {
    RunInv(trace, m);
    if a :| IsCommit(trace[m], a) && Next(trace[m], a) == Some(trace[m + 1]) {
      ViewChangesOnlyAtCommits(trace[m], a, trace[m + 1]);
    }
    assert CanStep(trace[m], trace[m + 1]);
    var a :| Next(trace[m], a) == Some(trace[m + 1]);
    ViewChangesOnlyAtCommits(trace[m], a, trace[m + 1]);
  }

  lemma {:induction false} NoCommitNoMove(trace: seq<System>, j: nat, k: nat)
    requires Run(trace) && j <= k < |trace| && forall m :: j <= m < k ==> !CommitsAt(trace, m)
    ensures trace[j].store.current == trace[k].store.current
    decreases k
  {
    if j < k {
      NoCommitNoMove(trace, j, k - 1);
      PointerMovesIffCommits(trace, k - 1);
    }
  }

  /** The two listings are of one snapshot exactly when no commit takes effect between the two
      readings of the pointer. */
  lemma OneSnapshotReadIff(trace: seq<System>, j: nat, k: nat)
    requires Run(trace) && j <= k < |trace|
    ensures trace[j].store.current == trace[k].store.current <==> forall m :: j <= m < k ==> !CommitsAt(trace, m)
  {
    if forall m :: j <= m < k ==> !CommitsAt(trace, m) {
      NoCommitNoMove(trace, j, k);
    } else {
      var m :| j <= m < k && CommitsAt(trace, m);
      PointerMovesIffCommits(trace, m);
      RunEvolves(trace, j, m);
      RunEvolves(trace, m, m + 1);
      RunEvolves(trace, m + 1, k);
      if trace[j].store.current.Some? && trace[j].store.current == trace[k].store.current {
        EqualPointersMeanNoCommitBetween(trace, j, m, k);
        EqualPointersMeanNoCommitBetween(trace, j, m + 1, k);
      }
    }
  }

  /** Without a commit between them the page draws what the snapshot current at the first reading
      shows, whatever else happens meanwhile. */
  lemma PageShowsOneSnapshot(tables: Tables, trace: seq<System>, j: nat, j': nat, k: nat, k': nat)
    requires Run(trace) && j <= j' <= k <= k' < |trace| && trace[j].store.current.Some?
    requires forall m :: j <= m < k ==> !CommitsAt(trace, m)
    ensures View(trace[j].store).Some?
    ensures Page(tables, trace, j, j', k, k') == SnapshotGraph(tables, View(trace[j].store).value)
  {
    OneSnapshotReadIff(trace, j, k);
    PointerNamesCompleted(trace, j);
    RunEvolves(trace, j, j');
    RunEvolves(trace, j, k');
  }

  // ---------------------------------------------------------------- what the graph of rows says

  /** Two projects of the catalog, the smaller id first, whose profile rows both list `e.table`. */
  ghost predicate SharedIn(tables: Tables, catalog: map<ProjectId, string>, profiles: map<ProjectId, ProfileRow>,
        e: G.Edge)
  {
    && e.source < e.target && e.source in catalog && e.target in catalog && e.source in profiles && e.target in profiles
    && exists s, t :: s in tables(profiles[e.source].body) && t in tables(profiles[e.target].body)
                      && s.name == e.table && t.name == e.table && e.unknown == (s.mode.Unknown? || t.mode.Unknown?)
  }

  lemma ScopeListMeaning(catalog: map<ProjectId, string>)
    ensures var list := ScopeList(ByAscendingId(catalog));
            && G.DistinctProjects(list)
            && (forall p :: p in list <==> p.id in catalog && catalog[p.id] == p.path)
            && G.ScopeIds(list) == catalog.Keys
  {
    var rows := ByAscendingId(catalog);
    var list := ScopeList(rows);
    ByAscendingIdMeaning(catalog);
    forall p: G.InScopeProject ensures p in list <==> p.id in catalog && catalog[p.id] == p.path {
      if p.id in catalog && catalog[p.id] == p.path {
        assert (p.id, p.path) in rows;
        var i :| 0 <= i < |rows| && rows[i] == (p.id, p.path);
        assert list[i] == p;
      }
      if p in list {
        var i :| 0 <= i < |list| && list[i] == p;
        assert (p.id, p.path) == rows[i];
        assert (p.id, p.path) in rows;
      }
    }
    forall id | id in catalog ensures id in G.ScopeIds(list) {
      assert G.InScopeProject(id, catalog[id]) in list;
    }
  }

  lemma ProfileListMeaning(tables: Tables, profiles: map<ProjectId, ProfileRow>)
    ensures var list := ProfileList(tables, ByAscendingId(profiles));
            && G.DistinctProfiles(list)
            && (forall p :: p in list <==> p.id in profiles && p.tables == tables(profiles[p.id].body))
  {
    var rows := ByAscendingId(profiles);
    var list := ProfileList(tables, rows);
    ByAscendingIdMeaning(profiles);
    forall p: G.Profile ensures p in list <==> p.id in profiles && p.tables == tables(profiles[p.id].body) {
      if p.id in profiles && p.tables == tables(profiles[p.id].body) {
        assert (p.id, profiles[p.id]) in rows;
        var i :| 0 <= i < |rows| && rows[i] == (p.id, profiles[p.id]);
        assert list[i] == p;
      }
      if p in list {
        var i :| 0 <= i < |list| && list[i] == p;
        assert rows[i] in rows && rows[i] == (rows[i].0, rows[i].1);
      }
    }
  }

  /** The edges are the tables that two catalogued projects share in these rows; the nodes are the
      catalogued projects at their ends, under the paths of these rows. */
  lemma RowsGraphMeaning(tables: Tables, catalog: map<ProjectId, string>, profiles: map<ProjectId, ProfileRow>)
    requires forall body :: UniqueTableNames(tables(body))
    ensures var g := RowsGraph(tables, catalog, profiles);
            && (forall e :: e in g.edges <==> SharedIn(tables, catalog, profiles, e))
            && (forall p :: p in g.nodes <==>
                  && p.id in catalog && catalog[p.id] == p.path
                  && exists e :: e in g.edges && (e.source == p.id || e.target == p.id))
  {
    var scope, list := ScopeList(ByAscendingId(catalog)), ProfileList(tables, ByAscendingId(profiles));
    ScopeListMeaning(catalog);
    ProfileListMeaning(tables, profiles);
    G.EdgesAreTheSharedTables(scope, list);
    G.NodesAreTheEndpoints(scope, list);
    forall e ensures G.Shares(scope, list, e) <==> SharedIn(tables, catalog, profiles, e) {
      SharesIsSharedIn(tables, catalog, profiles, e);
    }
  }

  lemma SharesIsSharedIn(tables: Tables, catalog: map<ProjectId, string>, profiles: map<ProjectId, ProfileRow>,
        e: G.Edge)
    ensures G.Shares(ScopeList(ByAscendingId(catalog)), ProfileList(tables, ByAscendingId(profiles)), e) <==>
            SharedIn(tables, catalog, profiles, e)
  {
    var scope, list := ScopeList(ByAscendingId(catalog)), ProfileList(tables, ByAscendingId(profiles));
    ScopeListMeaning(catalog);
    ProfileListMeaning(tables, profiles);
    if SharedIn(tables, catalog, profiles, e) {
      var a, b := profiles[e.source], profiles[e.target];
      var s, t :| s in tables(a.body) && t in tables(b.body)
        && s.name == e.table && t.name == e.table && e.unknown == (s.mode.Unknown? || t.mode.Unknown?);
      var x, y := G.Profile(e.source, tables(a.body)), G.Profile(e.target, tables(b.body));
      assert x in list && y in list;
      assert G.Names(x, e.source, s, e.table) && G.Names(y, e.target, t, e.table);
    }
  }

  // ---------------------------------------------------------------- a page of no snapshot

  lemma {:induction false} ChainExtends(trace: seq<System>, id: JobId, t: System, n: nat) returns (longer: seq<System>)
    requires Run(trace) && SoloRuns.Chain(SoloRuns.MovesOf(id), trace[|trace| - 1], t, n)
    ensures Run(longer) && trace <= longer && longer[|longer| - 1] == t
    decreases n
  {
    if n == 0 { return trace; }
    var s := trace[|trace| - 1];
    var m :| SoloRuns.MovesOf(id)(s, m) && SoloRuns.Chain(SoloRuns.MovesOf(id), m, t, n - 1);
    assert SoloRuns.Moves(id, s, m);
    StepExtends(trace, m);
    longer := ChainExtends(trace + [m], id, t, n - 1);
  }

  lemma StepExtends(trace: seq<System>, t: System)
    requires Run(trace) && CanStep(trace[|trace| - 1], t)
    ensures Run(trace + [t])
  {
    var longer := trace + [t];
    forall i | 0 <= i < |longer| - 1 ensures CanStep(longer[i], longer[i + 1]) {
      if i < |trace| - 1 { assert CanStep(trace[i], trace[i + 1]); }
    }
  }

  /** `t` is `s` after an uninterrupted full refresh by job `id`. */
  ghost predicate Refreshed(id: JobId, s: System, es: seq<EnumeratedProject>,
        answers: seq<Outcome<string, Coordinator.JobError>>, t: System)
    requires |es| == |answers|
  {
    var a := Coordinator.FullRefresh(s.store, s.running.Some?, Ok(es), answers);
    && t.store == a.store && t.jobs.Keys == s.jobs.Keys + {id}
    && t.running == SoloRuns.SlotAfter(s.running, id, s.store.lastId + 1, a)
  }

  lemma RefreshReaches(id: JobId, s: System, es: seq<EnumeratedProject>,
        answers: seq<Outcome<string, Coordinator.JobError>>)
    returns (t: System, n: nat)
    requires id in s.jobs && s.jobs[id] == NewJob(FullRefresh) && |es| == |answers|
    ensures SoloRuns.Chain(SoloRuns.MovesOf(id), s, t, n) && Refreshed(id, s, es, answers, t)
  {
    SoloRuns.FullRefreshIsASoloRun(id, s, Ok(es), answers);
    var a := Coordinator.FullRefresh(s.store, s.running.Some?, Ok(es), answers);
    var slot := SoloRuns.SlotAfter(s.running, id, s.store.lastId + 1, a);
    var job :| SoloRuns.ArrivesAs(id, s, job, s.store.lastId + 1, Done(SoloRuns.EndingOf(a)), a.store, slot);
    t := SoloRuns.Moved(s, id, job, a.store, slot);
    n :| SoloRuns.Chain(SoloRuns.MovesOf(id), s, t, n);
  }

  /** Any run can go on with an uninterrupted full refresh. */
  lemma RefreshExtends(trace: seq<System>, id: JobId, es: seq<EnumeratedProject>,
        answers: seq<Outcome<string, Coordinator.JobError>>)
    returns (longer: seq<System>)
    requires Run(trace) && id !in trace[|trace| - 1].jobs && |es| == |answers|
    ensures Run(longer) && trace <= longer
    ensures Refreshed(id, trace[|trace| - 1], es, answers, longer[|longer| - 1])
  {
    var last := trace[|trace| - 1];
    var s := last.(jobs := last.jobs[id := NewJob(FullRefresh)]);
    assert Next(last, Spawn(id, FullRefresh)) == Some(s);
    StepExtends(trace, s);
    var t, n := RefreshReaches(id, s, es, answers);
    longer := ChainExtends(trace + [s], id, t, n);
  }

  const EMPTY := Store(map[], 0, None)
  const BARE := [EnumeratedProject(1, "old/a", "main", None), EnumeratedProject(2, "old/b", "main", None)]
  const BEFORE := Snapshot(Completed, Full, None, map[], map[1 := "old/a", 2 := "old/b"],
                           [MissingBranchSkip(BARE[0]), MissingBranchSkip(BARE[1])])
  const MOVED := [EnumeratedProject(1, "new/a", "main", Some("x")), EnumeratedProject(2, "new/b", "main", Some("y"))]
  const BODIES: seq<Outcome<string, Coordinator.JobError>> := [Ok("{}"), Ok("{}")]

  /** Every payload lists the one table `t`. */
  function OneTable(): Tables {
    body => [TableDependency("t", Read, [])]
  }

  /** A first refresh finds two projects, still without their branches. */
  lemma FirstRefresh()
    ensures Coordinator.FullRefresh(EMPTY, false, Ok(BARE), BODIES) ==
            Coordinator.Aftermath(Store(map[1 := BEFORE], 1, Some(1)), Coordinator.Completes, false)
  {
    assert BARE[..1] == [BARE[0]] && BARE[..1][..0] == [];
    assert map[] + CatalogRows(BARE) == CatalogRows(BARE) == BEFORE.catalog;
    var open := Store(map[1 := BEFORE.(status := InProgress, skips := [])], 1, None);
    var one := PutSkip(open, 1, MissingBranchSkip(BARE[0]));
    var two := PutSkip(one, 1, MissingBranchSkip(BARE[1]));
    assert PutCatalog(Begin(EMPTY, Full, None).0, 1, CatalogRows(BARE)) == open;
    assert one.snapshots[1].skips == [MissingBranchSkip(BARE[0])];
    assert two.snapshots[1].skips == BEFORE.skips;
    assert two.snapshots == map[1 := BEFORE.(status := InProgress)];
    assert two == Store(map[1 := BEFORE.(status := InProgress)], 1, None);
    assert Coordinator.AnalyzeFrom(two, 1, BARE, BODIES, 2) == (two, None);
    assert Coordinator.AnalyzeFrom(one, 1, BARE, BODIES, 1) == (two, None);
    assert Coordinator.AnalyzeFrom(open, 1, BARE, BODIES, 0) == (two, None);
    assert Promote(two, 1).0 == Store(map[1 := BEFORE], 1, Some(1));
  }

  /** A second one renames them and finds them sharing a table. */
  lemma RefreshRenames(st: Store)
    requires st == Store(map[1 := BEFORE], 1, Some(1))
    ensures var st' := Coordinator.FullRefresh(st, false, Ok(MOVED), BODIES).store;
            && st'.current == Some(2) && st'.snapshots.Keys == {1, 2} && st'.snapshots[1] == BEFORE
            && st'.snapshots[2].catalog == map[1 := "new/a", 2 := "new/b"] && st'.snapshots[2].profiles.Keys == {1, 2}
  {
    assert MOVED[..1] == [MOVED[0]] && MOVED[..1][..0] == [];
    assert Outcomes.AllFine(MOVED, BODIES, 0);
    Outcomes.FullRefreshShowsEnumeration(st, MOVED, BODIES);
    Outcomes.FullRefreshOutcome(st, false, Ok(MOVED), BODIES);
    var snap := Coordinator.FullRefresh(st, false, Ok(MOVED), BODIES).store.snapshots[2];
    assert Identities(snap.profiles).Keys == snap.profiles.Keys;
  }

  const SHARED := G.Edge(1, 2, "t", false)
  const OLD_NODE := G.InScopeProject(1, "old/a")

  lemma OneTableEach()
    ensures forall body :: UniqueTableNames(OneTable()(body))
  {}

  /** The old catalog with the new profiles gives old names and new edges; */
  lemma OldNamesNewEdges(profiles: map<ProjectId, ProfileRow>)
    requires profiles.Keys == {1, 2}
    ensures var g := RowsGraph(OneTable(), BEFORE.catalog, profiles);
            SHARED in g.edges && OLD_NODE in g.nodes
  {
    var d := TableDependency("t", Read, []);
    OneTableEach();
    RowsGraphMeaning(OneTable(), BEFORE.catalog, profiles);
    assert d in OneTable()(profiles[1].body) && d in OneTable()(profiles[2].body);
    assert SharedIn(OneTable(), BEFORE.catalog, profiles, SHARED);
  }

  /** the old snapshot has no edge, */
  lemma OldEdges()
    ensures SHARED !in SnapshotGraph(OneTable(), BEFORE).edges
  {
    OneTableEach();
    RowsGraphMeaning(OneTable(), BEFORE.catalog, BEFORE.profiles);
  }

  /** and the new one has new names. */
  lemma NewNames(snap: Snapshot)
    requires snap.catalog == map[1 := "new/a", 2 := "new/b"]
    ensures OLD_NODE !in SnapshotGraph(OneTable(), snap).nodes
  {
    OneTableEach();
    RowsGraphMeaning(OneTable(), snap.catalog, snap.profiles);
  }

  /** Snapshot 1 is current, and then a refresh commits snapshot 2. */
  ghost predicate Renamed(before: Store, after: Store) {
    && before.current == Some(1) && 1 in before.snapshots && before.snapshots[1] == BEFORE
    && after.current == Some(2) && after.snapshots.Keys == {1, 2} && after.snapshots[1] == BEFORE
    && after.snapshots[2].catalog == map[1 := "new/a", 2 := "new/b"] && after.snapshots[2].profiles.Keys == {1, 2}
  }

  lemma RenamingRun() returns (trace: seq<System>, j: nat)
    ensures Run(trace) && trace[0].store == EMPTY && j < |trace|
    ensures Renamed(trace[j].store, trace[|trace| - 1].store)
  {
    var start := System(EMPTY, None, map[], {});
    assert Run([start]);
    var first := RefreshExtends([start], 1, BARE, BODIES);
    j := |first| - 1;
    FirstRefresh();
    RefreshRenames(first[j].store);
    trace := RefreshExtends(first, 2, MOVED, BODIES);
    assert trace[j] == first[j] && trace[0] == first[0] == start;
  }

  lemma RenamedPage(tables: Tables, before: Store, after: Store, sid: SnapshotId)
    requires Renamed(before, after) && sid in after.snapshots && tables == OneTable()
    ensures Drawn(tables, CatalogAt(before, before.current), ProfilesAt(after, after.current)) !=
            SnapshotGraph(tables, after.snapshots[sid])
  {
    OldNamesNewEdges(after.snapshots[2].profiles);
    OldEdges();
    NewNames(after.snapshots[2]);
  }

  /** From an empty store, a run in which a refresh commits between the two readings: the page draws a
      graph that no snapshot in the store shows. */
  lemma PageMixesTwoSnapshots()
    ensures exists trace: seq<System>, j: nat, k: nat ::
              && Run(trace) && trace[0].store == EMPTY && j <= k < |trace|
              && forall sid :: sid in trace[k].store.snapshots ==>
                   Page(OneTable(), trace, j, j, k, k) != SnapshotGraph(OneTable(), trace[k].store.snapshots[sid])
  {
    var trace, j := RenamingRun();
    var k := |trace| - 1;
    forall sid | sid in trace[k].store.snapshots
      ensures Page(OneTable(), trace, j, j, k, k) != SnapshotGraph(OneTable(), trace[k].store.snapshots[sid])
    {
      RenamedPage(OneTable(), trace[j].store, trace[k].store, sid);
    }
  }
}
