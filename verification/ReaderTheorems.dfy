/** Multi-query readers under concurrent ingestion. */
module ReaderTheorems {
  import opened StoreModel
  import opened Protocol
  import opened ProtocolInvariant
  import opened Readers

  /** Whatever commits, aborts and writes happen after the pointer was read at `i`, queries issued at
      `j` and `k` with that pointer return what they would have returned at `i`. */
  lemma ReadersLinearizeAtPointerRead(trace: seq<System>, i: nat, j: nat, k: nat, p: ProjectId)
    requires Run(trace) && i <= j <= k < |trace|
    ensures var first, row, later := trace[i].store, trace[j].store, trace[k].store;
            var pointer := first.current;
            && ProfileAt(later, pointer, p) == ProfileAt(first, pointer, p)
            && ProfilesAt(later, pointer) == ProfilesAt(first, pointer)
            && CatalogAt(later, pointer) == CatalogAt(first, pointer)
            && InScopeAt(later, pointer, p) == InScopeAt(first, pointer, p)
            && TriggerAt(row, pointer) == TriggerAt(first, pointer)
            && ShasAt(later, pointer) == ShasAt(first, pointer)
            && (pointer.Some? ==> TriggerAt(row, pointer).Some?)
  {
    var pointer := trace[i].store.current;
    RunEvolves(trace, i, j);
    RunEvolves(trace, i, k);
    assert At(trace[j].store, pointer) == At(trace[i].store, pointer);
    assert At(trace[k].store, pointer) == At(trace[i].store, pointer);
  }
}
