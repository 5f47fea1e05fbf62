/** The reader interface of the Knowledge_Store and the Project_Catalog. Every reader first reads the
    pointer; each function below is what its later queries return for a given pointer value. */
module Readers {
  import opened Base
  import opened Ordering
  import opened StoreModel

  /** The rows behind a pointer value. */
  function At(st: Store, pointer: Option<SnapshotId>): Option<Snapshot> {
    if pointer.Some? && pointer.value in st.snapshots then Some(st.snapshots[pointer.value]) else None
  }

  function ProfileAt(st: Store, pointer: Option<SnapshotId>, p: ProjectId): Option<ProfileRow> {
    var snap := At(st, pointer);
    if snap.Some? && p in snap.value.profiles then Some(snap.value.profiles[p]) else None
  }

  function InScopeAt(st: Store, pointer: Option<SnapshotId>, p: ProjectId): bool {
    var snap := At(st, pointer);
    snap.Some? && p in snap.value.catalog
  }

  ghost function AscendingIds(ids: set<ProjectId>): (xs: seq<ProjectId>)
    ensures IsSortedSet(xs, ids, IntLe)
  {
    IntLeTotal();
    SortedSet(ids, IntLe)
  }

  /** The rows of a map in ascending key order. */
  ghost function ByAscendingId<V>(rows: map<ProjectId, V>): seq<(ProjectId, V)> {
    var ids := AscendingIds(rows.Keys);
    seq(|ids|, i requires 0 <= i < |ids| =>
      assert ids[i] in Elements(ids); (ids[i], rows[ids[i]]))
  }

  ghost function ProfilesAt(st: Store, pointer: Option<SnapshotId>): seq<(ProjectId, ProfileRow)> {
    var snap := At(st, pointer);
    if snap.None? then [] else ByAscendingId(snap.value.profiles)
  }

  ghost function CatalogAt(st: Store, pointer: Option<SnapshotId>): seq<(ProjectId, string)> {
    var snap := At(st, pointer);
    if snap.None? then [] else ByAscendingId(snap.value.catalog)
  }

  /** The `snapshots` row behind the pointer, as far as metadata shows it. */
  function TriggerAt(st: Store, pointer: Option<SnapshotId>): Option<Trigger> {
    var snap := At(st, pointer);
    if snap.None? then None else Some(snap.value.trigger)
  }

  function Shas(rows: map<ProjectId, ProfileRow>): map<ProjectId, string> {
    map p | p in rows :: rows[p].sha
  }

  /** The commit SHA per project behind the pointer. */
  function ShasAt(st: Store, pointer: Option<SnapshotId>): map<ProjectId, string> {
    var snap := At(st, pointer);
    if snap.None? then map[] else Shas(snap.value.profiles)
  }

  /** Listings are complete, in order, and faithful to the rows. */
  lemma ByAscendingIdMeaning<V>(rows: map<ProjectId, V>)
    ensures var xs := ByAscendingId(rows);
            && (forall i, j :: 0 <= i < j < |xs| ==> xs[i].0 < xs[j].0)
            && (forall p, v :: (p, v) in xs <==> p in rows && rows[p] == v)
  {
    var ids, xs := AscendingIds(rows.Keys), ByAscendingId(rows);
    forall p, v ensures (p, v) in xs <==> p in rows && rows[p] == v {
      if (p, v) in xs {
        var i :| 0 <= i < |xs| && xs[i] == (p, v);
        assert ids[i] in Elements(ids);
      }
      if p in rows && rows[p] == v {
        assert p in Elements(ids);
        var i :| 0 <= i < |ids| && ids[i] == p;
        assert xs[i] == (p, v);
      }
    }
  }
}
