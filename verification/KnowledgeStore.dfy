/** The Knowledge_Store and the Project_Catalog as objects over flat SQL tables, each method proved
    against the corresponding function on grouped stores. */
module KnowledgeTables {
  import opened Base
  import opened Ordering
  import opened StoreModel
  import opened Readers

  /** The key of `project_profiles` and of `project_catalog`. */
  type RowKey = (SnapshotId, ProjectId)

  datatype SnapshotRow = SnapshotRow(status: Status, trigger: Trigger, parent: Option<SnapshotId>)

  /** `m` holds the rows `WHERE snapshot_id = s`, keyed by project. */
  ghost predicate AreRows<V>(m: map<ProjectId, V>, table: map<RowKey, V>, s: SnapshotId) {
    && (forall p :: p in m <==> (s, p) in table)
    && (forall p :: p in m ==> m[p] == table[(s, p)])
  }

  function SelectRows<V>(table: map<RowKey, V>, s: SnapshotId): (m: map<ProjectId, V>)
    ensures AreRows(m, table, s)
  {
    var m := map k | k in table && k.0 == s :: k.1 := table[k];
    assert forall p :: (s, p) in table ==> p in m by {
      forall p | (s, p) in table ensures p in m {
        var k := (s, p);
        assert k in table && k.0 == s;
      }
    }
    m
  }

  ghost function RowsOf<V>(table: map<RowKey, V>, s: SnapshotId): (m: map<ProjectId, V>)
    ensures AreRows(m, table, s)
  {
    assert AreRows(SelectRows(table, s), table, s);
    var m :| AreRows(m, table, s);
    m
  }

  lemma RowsUnique<V>(m: map<ProjectId, V>, table: map<RowKey, V>, s: SnapshotId)
    requires AreRows(m, table, s)
    ensures m == RowsOf(table, s)
  {
    var r := RowsOf(table, s);
    assert m.Keys == r.Keys by { assert forall p :: p in m <==> p in r; }
    forall p | p in m ensures m[p] == r[p] {
      assert p in r;
    }
  }

  function SkipsOf(table: seq<(SnapshotId, SkipRow)>, s: SnapshotId): seq<SkipRow> {
    if table == [] then []
    else
      var r := table[|table| - 1];
      SkipsOf(table[..|table| - 1], s) + (if r.0 == s then [r.1] else [])
  }

  lemma UpsertRow<V>(table: map<RowKey, V>, s: SnapshotId, p: ProjectId, v: V, other: SnapshotId)
    ensures RowsOf(table[(s, p) := v], other) == if other == s then RowsOf(table, s)[p := v] else RowsOf(table, other)
  {
    var m := if other == s then RowsOf(table, s)[p := v] else RowsOf(table, other);
    assert AreRows(m, table[(s, p) := v], other);
    RowsUnique(m, table[(s, p) := v], other);
  }

  /** `copy` is `table` after `INSERT ... SELECT` of the rows of `from` under the unused id `to`. */
  ghost predicate IsCopy<V>(copy: map<RowKey, V>, table: map<RowKey, V>, from: SnapshotId, to: SnapshotId) {
    && (forall k :: k in copy ==> k.0 == to || k in table)
    && RowsOf(copy, to) == RowsOf(table, from)
    && (forall o :: o != to ==> RowsOf(copy, o) == RowsOf(table, o))
  }

  method InsertSelect<V>(table: map<RowKey, V>, from: SnapshotId, to: SnapshotId) returns (copy: map<RowKey, V>)
    requires from != to && forall k :: k in table ==> k.0 != to
    ensures IsCopy(copy, table, from, to)
  {
    copy := table + map k | k in table && k.0 == from :: (to, k.1) := table[k];
    forall q ensures (to, q) in copy <==> (from, q) in table {
      if (from, q) in table {
        var k := (from, q);
        assert k in table && k.0 == from;
      }
    }
    assert AreRows(RowsOf(table, from), copy, to);
    RowsUnique(RowsOf(table, from), copy, to);
    forall o | o != to ensures RowsOf(copy, o) == RowsOf(table, o) {
      assert AreRows(RowsOf(table, o), copy, o);
      RowsUnique(RowsOf(table, o), copy, o);
    }
  }

  lemma AppendSkip(table: seq<(SnapshotId, SkipRow)>, s: SnapshotId, row: SkipRow, other: SnapshotId)
    ensures SkipsOf(table + [(s, row)], other) == SkipsOf(table, other) + (if other == s then [row] else [])
  {
    assert (table + [(s, row)])[..|table|] == table;
  }

  lemma {:induction false} NoSkips(table: seq<(SnapshotId, SkipRow)>, s: SnapshotId)
    requires forall r :: r in table ==> r.0 != s
    ensures SkipsOf(table, s) == []
  {
    if table != [] { NoSkips(table[..|table| - 1], s); }
  }

  /** The flat tables of one moment. */
  datatype Tables = Tables(
    snapshots: map<SnapshotId, SnapshotRow>,
    profiles: map<RowKey, ProfileRow>,
    skips: seq<(SnapshotId, SkipRow)>,
    catalog: map<RowKey, string>,
    current: Option<SnapshotId>,
    lastRowId: nat)

  ghost function GroupAt(t: Tables, s: SnapshotId): Snapshot
    requires s in t.snapshots
  {
    var row := t.snapshots[s];
    Snapshot(row.status, row.trigger, row.parent, RowsOf(t.profiles, s), RowsOf(t.catalog, s), SkipsOf(t.skips, s))
  }

  ghost predicate Groups(g: Store, t: Tables) {
    && g.snapshots.Keys == t.snapshots.Keys
    && (forall s :: s in t.snapshots ==> g.snapshots[s] == GroupAt(t, s))
    && g.lastId == t.lastRowId && g.current == t.current
  }

  /** The tables grouped by snapshot. */
  ghost function Grouped(t: Tables): (g: Store)
    ensures Groups(g, t)
  {
    assert Groups(Store(map s | s in t.snapshots :: GroupAt(t, s), t.lastRowId, t.current), t);
    var g :| Groups(g, t);
    g
  }

  /** Foreign keys hold, and the row id allocator is ahead of every id in use. */
  ghost predicate TablesOk(t: Tables) {
    && (forall s :: s in t.snapshots ==> 1 <= s <= t.lastRowId)
    && (forall k :: k in t.profiles ==> k.0 in t.snapshots)
    && (forall k :: k in t.catalog ==> k.0 in t.snapshots)
    && (forall r :: r in t.skips ==> r.0 in t.snapshots)
  }

  lemma SameGroups(a: Store, t: Tables)
    requires Groups(a, t)
    ensures a == Grouped(t)
  {
    assert a.snapshots == Grouped(t).snapshots;
  }

  lemma GroupedUpsertProfile(t: Tables, s: SnapshotId, p: ProjectId, row: ProfileRow)
    requires s in t.snapshots
    ensures Grouped(t.(profiles := t.profiles[(s, p) := row])) == PutProfile(Grouped(t), s, p, row)
  {
    var t' := t.(profiles := t.profiles[(s, p) := row]);
    forall o | o in t.snapshots ensures PutProfile(Grouped(t), s, p, row).snapshots[o] == GroupAt(t', o) {
      UpsertRow(t.profiles, s, p, row, o);
    }
    SameGroups(PutProfile(Grouped(t), s, p, row), t');
  }

  lemma GroupedInsertSkip(t: Tables, s: SnapshotId, row: SkipRow)
    requires s in t.snapshots
    ensures Grouped(t.(skips := t.skips + [(s, row)])) == PutSkip(Grouped(t), s, row)
  {
    var t' := t.(skips := t.skips + [(s, row)]);
    forall o | o in t.snapshots ensures PutSkip(Grouped(t), s, row).snapshots[o] == GroupAt(t', o) {
      AppendSkip(t.skips, s, row, o);
    }
    SameGroups(PutSkip(Grouped(t), s, row), t');
  }

  lemma GroupedCatalog(t: Tables, s: SnapshotId, rows: map<ProjectId, string>, catalog: map<RowKey, string>)
    requires s in t.snapshots
    requires RowsOf(catalog, s) == RowsOf(t.catalog, s) + rows
    requires forall o :: o != s ==> RowsOf(catalog, o) == RowsOf(t.catalog, o)
    ensures Grouped(t.(catalog := catalog)) == PutCatalog(Grouped(t), s, rows)
  {
    SameGroups(PutCatalog(Grouped(t), s, rows), t.(catalog := catalog));
  }

  lemma GroupedStatus(t: Tables, s: SnapshotId, status: Status, current: Option<SnapshotId>)
    requires s in t.snapshots
    ensures var g := Grouped(t);
            Grouped(t.(snapshots := t.snapshots[s := t.snapshots[s].(status := status)], current := current)) ==
            g.(snapshots := g.snapshots[s := g.snapshots[s].(status := status)], current := current)
  {
    var g := Grouped(t);
    SameGroups(g.(snapshots := g.snapshots[s := g.snapshots[s].(status := status)], current := current),
               t.(snapshots := t.snapshots[s := t.snapshots[s].(status := status)], current := current));
  }

  /** The tables after `begin_snapshot`, with the copied rows already in place. */
  function Opened(t: Tables, trigger: Trigger, parent: Option<SnapshotId>,
                  profiles: map<RowKey, ProfileRow>, catalog: map<RowKey, string>): Tables
  {
    var newId := t.lastRowId + 1;
    t.(snapshots := t.snapshots[newId := SnapshotRow(InProgress, trigger, parent)],
       lastRowId := newId, profiles := profiles, catalog := catalog)
  }

  lemma NoRows<V>(table: map<RowKey, V>, s: SnapshotId)
    requires forall k :: k in table ==> k.0 != s
    ensures RowsOf(table, s) == map[]
  {
    assert forall p: ProjectId :: (s, p).0 == s;
    assert AreRows(map[], table, s);
    RowsUnique(map[], table, s);
  }

  lemma FreshIdHasNoRows(t: Tables)
    requires TablesOk(t)
    ensures var newId := t.lastRowId + 1;
            RowsOf(t.profiles, newId) == map[] && RowsOf(t.catalog, newId) == map[] && SkipsOf(t.skips, newId) == []
  {
    var newId := t.lastRowId + 1;
    NoSkips(t.skips, newId);
    NoRows(t.profiles, newId);
    NoRows(t.catalog, newId);
  }

  lemma FreshIdIsUnused(t: Tables, parent: SnapshotId)
    requires TablesOk(t) && parent in t.snapshots
    ensures parent != t.lastRowId + 1
    ensures forall k :: k in t.profiles ==> k.0 != t.lastRowId + 1
    ensures forall k :: k in t.catalog ==> k.0 != t.lastRowId + 1
  {}

  lemma OpenedIsGrouped(t: Tables, g: Store, trigger: Trigger, parent: Option<SnapshotId>)
    requires g == Grouped(t) && t.lastRowId + 1 !in t.snapshots
    requires var newId := t.lastRowId + 1;
             RowsOf(t.profiles, newId) == map[] && RowsOf(t.catalog, newId) == map[] && SkipsOf(t.skips, newId) == []
    ensures Groups(g.(snapshots := g.snapshots[t.lastRowId + 1 :=
                                                 Snapshot(InProgress, trigger, parent, map[], map[], [])],
                      lastId := t.lastRowId + 1),
                   Opened(t, trigger, parent, t.profiles, t.catalog))
  {
    var t' := Opened(t, trigger, parent, t.profiles, t.catalog);
    forall o | o in t.snapshots ensures GroupAt(t', o) == GroupAt(t, o) {}
  }

  lemma GroupedBegin(t: Tables, trigger: Trigger, parent: Option<SnapshotId>)
    requires TablesOk(t)
    requires trigger.SingleProject? <==> parent.Some?
    requires parent.Some? ==> parent.value == t.lastRowId + 1
    ensures var t' := Opened(t, trigger, parent, t.profiles, t.catalog);
            TablesOk(t') && (Grouped(t'), Ok(t.lastRowId + 1)) == Begin(Grouped(t), trigger, parent)
  {
    FreshIdHasNoRows(t);
    OpenedIsGrouped(t, Grouped(t), trigger, parent);
    SameGroups(Begin(Grouped(t), trigger, parent).0, Opened(t, trigger, parent, t.profiles, t.catalog));
  }

  lemma OpenedTablesOk(t: Tables, parent: SnapshotId, profiles: map<RowKey, ProfileRow>, catalog: map<RowKey, string>)
    requires TablesOk(t)
    requires forall k :: k in profiles ==> k.0 == t.lastRowId + 1 || k in t.profiles
    requires forall k :: k in catalog ==> k.0 == t.lastRowId + 1 || k in t.catalog
    ensures TablesOk(Opened(t, SingleProject, Some(parent), profiles, catalog))
  {}

  lemma GroupedBeginCopy(t: Tables, g: Store, parent: SnapshotId, profiles: map<RowKey, ProfileRow>,
        catalog: map<RowKey, string>)
    requires g == Grouped(t) && parent in t.snapshots && t.lastRowId + 1 !in t.snapshots
    requires SkipsOf(t.skips, t.lastRowId + 1) == []
    requires IsCopy(profiles, t.profiles, parent, t.lastRowId + 1)
             && IsCopy(catalog, t.catalog, parent, t.lastRowId + 1)
    ensures Grouped(Opened(t, SingleProject, Some(parent), profiles, catalog)) ==
            Begin(g, SingleProject, Some(parent)).0
    ensures Begin(g, SingleProject, Some(parent)).1 == Ok(t.lastRowId + 1)
  {
    var newId := t.lastRowId + 1;
    var t' := Opened(t, SingleProject, Some(parent), profiles, catalog);
    var b := Begin(g, SingleProject, Some(parent)).0;
    assert b.snapshots[newId] == GroupAt(t', newId);
    forall o | o in t.snapshots ensures b.snapshots[o] == GroupAt(t', o) {
      assert o != newId;
      assert GroupAt(t', o) == GroupAt(t, o);
    }
    SameGroups(b, t');
  }

  /** `begin_snapshot` with a parent: row, copied profiles and copied catalog together. */
  lemma BeginCopyOnTables(t: Tables, parent: SnapshotId, profiles: map<RowKey, ProfileRow>,
        catalog: map<RowKey, string>)
    requires TablesOk(t) && parent in t.snapshots
    requires IsCopy(profiles, t.profiles, parent, t.lastRowId + 1)
             && IsCopy(catalog, t.catalog, parent, t.lastRowId + 1)
    ensures var t' := Opened(t, SingleProject, Some(parent), profiles, catalog);
            TablesOk(t') && (Grouped(t'), Ok(t.lastRowId + 1)) == Begin(Grouped(t), SingleProject, Some(parent))
  {
    FreshIdHasNoRows(t);
    OpenedTablesOk(t, parent, profiles, catalog);
    GroupedBeginCopy(t, Grouped(t), parent, profiles, catalog);
  }

  /** The two copies `begin_snapshot` makes for a single-project refresh. */
  method CopyParentRows(profiles: map<RowKey, ProfileRow>, catalog: map<RowKey, string>, newId: SnapshotId,
        parent: SnapshotId, ghost t: Tables)
    returns (profiles': map<RowKey, ProfileRow>, catalog': map<RowKey, string>)
    requires TablesOk(t) && parent in t.snapshots
    requires profiles == t.profiles && catalog == t.catalog && newId == t.lastRowId + 1
    ensures var t' := Opened(t, SingleProject, Some(parent), profiles', catalog');
            TablesOk(t') && (Grouped(t'), Ok(newId)) == Begin(Grouped(t), SingleProject, Some(parent))
  {
    FreshIdIsUnused(t, parent);
    profiles' := InsertSelect(profiles, parent, newId);
    catalog' := InsertSelect(catalog, parent, newId);
    BeginCopyOnTables(t, parent, profiles', catalog');
  }

  /** `table` is `before` with the catalog rows of `es` upserted under `s`. */
  ghost predicate Upserted(table: map<RowKey, string>, before: map<RowKey, string>, s: SnapshotId,
        es: seq<EnumeratedProject>) {
    && RowsOf(table, s) == RowsOf(before, s) + CatalogRows(es)
    && (forall o :: o != s ==> RowsOf(table, o) == RowsOf(before, o))
    && (forall k :: k in table ==> k in before || k.0 == s)
  }

  lemma UpsertedNext(table: map<RowKey, string>, before: map<RowKey, string>, s: SnapshotId,
        es: seq<EnumeratedProject>, i: nat)
    requires i < |es| && Upserted(table, before, s, es[..i])
    ensures Upserted(table[(s, es[i].id) := es[i].path], before, s, es[..i + 1])
  {
    var e := es[i];
    assert es[..i + 1][..i] == es[..i];
    forall o
      ensures RowsOf(table[(s, e.id) := e.path], o) ==
              if o == s then RowsOf(table, s)[e.id := e.path] else RowsOf(table, o)
    {
      UpsertRow(table, s, e.id, e.path, o);
    }
    assert (RowsOf(before, s) + CatalogRows(es[..i]))[e.id := e.path] == RowsOf(before, s) + CatalogRows(es[..i + 1]);
  }

  class KnowledgeStore {
    var snapshots: map<SnapshotId, SnapshotRow>
    var projectProfiles: map<RowKey, ProfileRow>
    var ingestionSkips: seq<(SnapshotId, SkipRow)>
    var projectCatalog: map<RowKey, string>
    var currentSnapshot: Option<SnapshotId>
    var lastRowId: nat

    ghost function AllTables(): Tables
      reads this
    {
      Tables(snapshots, projectProfiles, ingestionSkips, projectCatalog, currentSnapshot, lastRowId)
    }

    ghost predicate Valid()
      reads this
    {
      TablesOk(AllTables())
    }

    /** What the tables say, grouped by snapshot. */
    ghost function View(): Store
      reads this
    {
      Grouped(AllTables())
    }

    constructor ()
      ensures Valid() && View() == Store(map[], 0, None)
    {
      snapshots, projectProfiles, ingestionSkips, projectCatalog := map[], map[], [], map[];
      currentSnapshot, lastRowId := None, 0;
    }

    method RequireInProgress(sid: SnapshotId) returns (r: Outcome<Unit, StoreError>)
      ensures r == StoreModel.RequireInProgress(View(), sid)
    {
      if sid !in snapshots {
        return Raised(NoSuchSnapshot);
      }
      if snapshots[sid].status != InProgress {
        return Raised(NotInProgress(snapshots[sid].status));
      }
      return Ok(Unit);
    }

    method BeginSnapshot(trigger: Trigger, parent: Option<SnapshotId>) returns (r: Outcome<SnapshotId, StoreError>)
      requires Valid()
      modifies this
      ensures Valid()
      ensures (View(), r) == Begin(old(View()), trigger, parent)
    {
      if trigger == SingleProject {
        if parent == None { return Raised(ParentRequired); }
      } else if parent != None {
        return Raised(ParentNotAllowed);
      }
      var newId := lastRowId + 1;
      if parent != None && parent.value !in snapshots && parent.value != newId {
        return Raised(NoSuchParent);
      }
      ghost var was := AllTables();
      var profiles, catalog := projectProfiles, projectCatalog;
      if trigger == SingleProject && parent.value != newId {
        profiles, catalog := CopyParentRows(projectProfiles, projectCatalog, newId, parent.value, was);
      } else {
        GroupedBegin(was, trigger, parent);
      }
      ghost var next := Opened(was, trigger, parent, profiles, catalog);
      assert TablesOk(next) && (Grouped(next), Ok(newId)) == Begin(Grouped(was), trigger, parent);
      projectProfiles, projectCatalog := profiles, catalog;
      snapshots := snapshots[newId := SnapshotRow(InProgress, trigger, parent)];
      lastRowId := newId;
      assert AllTables() == next;
      return Ok(newId);
    }

    method WriteProfile(sid: SnapshotId, project: ProjectId, row: ProfileRow) returns (r: Outcome<Unit, StoreError>)
      requires Valid()
      modifies this`projectProfiles
      ensures Valid()
      ensures (View(), r) == StoreModel.WriteProfile(old(View()), sid, project, row)
    {
      if row.sha == "" {
        return Raised(EmptySha);
      }
      r := RequireInProgress(sid);
      if r.Ok? {
        GroupedUpsertProfile(AllTables(), sid, project, row);
        projectProfiles := projectProfiles[(sid, project) := row];
      }
    }

    method RecordSkip(sid: SnapshotId, row: SkipRow) returns (r: Outcome<Unit, StoreError>)
      requires Valid()
      modifies this`ingestionSkips
      ensures Valid()
      ensures (View(), r) == StoreModel.RecordSkip(old(View()), sid, row)
    {
      if row.reason == "" {
        return Raised(EmptyReason);
      }
      r := RequireInProgress(sid);
      if r.Ok? {
        GroupedInsertSkip(AllTables(), sid, row);
        ingestionSkips := ingestionSkips + [(sid, row)];
      }
    }

    method AbortSnapshot(sid: SnapshotId) returns (r: Outcome<Unit, StoreError>)
      requires Valid()
      modifies this`snapshots
      ensures Valid()
      ensures (View(), r) == Abort(old(View()), sid)
    {
      r := RequireInProgress(sid);
      if r.Ok? {
        GroupedStatus(AllTables(), sid, Failed, currentSnapshot);
        snapshots := snapshots[sid := snapshots[sid].(status := Failed)];
      }
    }

    method CommitSnapshot(sid: SnapshotId) returns (r: Outcome<Unit, StoreError>)
      requires Valid()
      modifies this`snapshots, this`currentSnapshot
      ensures Valid()
      ensures (View(), r) == Commit(old(View()), sid)
    {
      r := RequireInProgress(sid);
      if r.Ok? {
        GroupedStatus(AllTables(), sid, Completed, Some(sid));
        snapshots := snapshots[sid := snapshots[sid].(status := Completed)];
        currentSnapshot := Some(sid);
      }
    }

    // -------------------------------------------------------------- readers

    method GetCurrentSnapshotId() returns (r: Option<SnapshotId>)
      ensures r == View().current
    {
      r := currentSnapshot;
    }

    method GetProfile(project: ProjectId) returns (r: Option<ProfileRow>)
      requires Valid()
      ensures r == ProfileAt(View(), View().current, project)
    {
      var sid := GetCurrentSnapshotId();
      if sid == None { return None; }
      if (sid.value, project) !in projectProfiles { return None; }
      r := Some(projectProfiles[(sid.value, project)]);
    }

    method ListProfiles() returns (r: seq<(ProjectId, ProfileRow)>)
      requires Valid()
      ensures r == ProfilesAt(View(), View().current)
    {
      var sid := GetCurrentSnapshotId();
      if sid == None { return []; }
      IntLeTotal();
      var rows := SelectRows(projectProfiles, sid.value);
      RowsUnique(rows, projectProfiles, sid.value);
      var ids := SortedList(rows.Keys, IntLe);
      r := seq(|ids|, i requires 0 <= i < |ids| => assert ids[i] in Elements(ids); (ids[i], rows[ids[i]]));
      if sid.value !in snapshots {
        assert rows == map[];
        EmptyElements(ids);
      }
    }

    method GetSnapshotMetadata() returns (trigger: Option<Trigger>, shas: map<ProjectId, string>)
      requires Valid()
      ensures trigger == TriggerAt(View(), View().current) && shas == ShasAt(View(), View().current)
    {
      var sid := GetCurrentSnapshotId();
      if sid == None || sid.value !in snapshots { return None, map[]; }
      trigger := Some(snapshots[sid.value].trigger);
      var rows := SelectRows(projectProfiles, sid.value);
      RowsUnique(rows, projectProfiles, sid.value);
      shas := Shas(rows);
    }
  }

  /** The catalog borrows the store's tables. */
  class ProjectCatalog {
    const store: KnowledgeStore

    constructor (store: KnowledgeStore)
      ensures this.store == store
    {
      this.store := store;
    }

    /** Upserts one row per enumerated project, in order. */
    method PopulateInScope(sid: SnapshotId, enumerated: seq<EnumeratedProject>) returns (r: Outcome<Unit, StoreError>)
      requires store.Valid()
      modifies store`projectCatalog
      ensures store.Valid()
      ensures (store.View(), r) == Populate(old(store.View()), sid, enumerated)
    {
      r := store.RequireInProgress(sid);
      if r.Raised? { return; }
      ghost var was := store.AllTables();
      assert RowsOf(was.catalog, sid) + map[] == RowsOf(was.catalog, sid);
      for i := 0 to |enumerated|
        invariant store.AllTables() == was.(catalog := store.projectCatalog)
        invariant Upserted(store.projectCatalog, was.catalog, sid, enumerated[..i])
      {
        UpsertedNext(store.projectCatalog, was.catalog, sid, enumerated, i);
        store.projectCatalog := store.projectCatalog[(sid, enumerated[i].id) := enumerated[i].path];
      }
      assert enumerated[..|enumerated|] == enumerated;
      GroupedCatalog(was, sid, CatalogRows(enumerated), store.projectCatalog);
    }

    method ListInScope() returns (r: seq<(ProjectId, string)>)
      requires store.Valid()
      ensures r == CatalogAt(store.View(), store.View().current)
    {
      var sid := store.GetCurrentSnapshotId();
      if sid == None { return []; }
      IntLeTotal();
      var rows := SelectRows(store.projectCatalog, sid.value);
      RowsUnique(rows, store.projectCatalog, sid.value);
      var ids := SortedList(rows.Keys, IntLe);
      r := seq(|ids|, i requires 0 <= i < |ids| => assert ids[i] in Elements(ids); (ids[i], rows[ids[i]]));
      if sid.value !in store.snapshots {
        assert rows == map[];
        EmptyElements(ids);
      }
    }

    method IsInScope(project: ProjectId) returns (r: bool)
      requires store.Valid()
      ensures r == InScopeAt(store.View(), store.View().current, project)
    {
      var sid := store.GetCurrentSnapshotId();
      if sid == None { return false; }
      r := (sid.value, project) in store.projectCatalog;
    }
  }
}
