/** What the readers answer after a refresh: the enumeration and the answers go in, and come back out. */
module AfterRefresh {
  import opened Base
  import opened StoreModel
  import opened Readers
  import opened Coordinator
  import opened Outcomes

  /** Every reader shows the same rows: one profile read alone is the one listed, the SHA shown for a
      project is that of its listed profile, and a project is in scope exactly when the catalog lists
      it. */
  lemma ReadersAgree(st: Store, pointer: Option<SnapshotId>, p: ProjectId)
    ensures forall row :: ProfileAt(st, pointer, p) == Some(row) <==> (p, row) in ProfilesAt(st, pointer)
    ensures p in ShasAt(st, pointer) <==> exists row :: (p, row) in ProfilesAt(st, pointer)
    ensures forall row :: (p, row) in ProfilesAt(st, pointer) ==>
              p in ShasAt(st, pointer) && ShasAt(st, pointer)[p] == row.sha
    ensures InScopeAt(st, pointer, p) <==> exists path :: (p, path) in CatalogAt(st, pointer)
  {
    var snap := At(st, pointer);
    if snap.Some? {
      ByAscendingIdMeaning(snap.value.profiles);
      ByAscendingIdMeaning(snap.value.catalog);
      if p in snap.value.profiles { assert (p, snap.value.profiles[p]) in ProfilesAt(st, pointer); }
      if p in snap.value.catalog { assert (p, snap.value.catalog[p]) in CatalogAt(st, pointer); }
    }
  }

  /** After a completed full refresh the metadata shows a full trigger and, for exactly the projects
      analysed, the SHA of the last of them listed; the profiles are those projects with the analysed
      payloads; the catalog is what was listed, under the last path. */
  lemma AfterFullRefresh(st: Store, es: seq<EnumeratedProject>, answers: seq<Answer>, p: ProjectId)
    requires StoreOk(st) && |es| == |answers| && AllFine(es, answers, 0)
    ensures var st' := FullRefresh(st, false, Ok(es), answers).store;
            var shas := ShasAt(st', st'.current);
            && TriggerAt(st', st'.current) == Some(Full)
            && (p in shas <==> exists i: nat :: LastAnalysed(es, |es|, i) && es[i].id == p)
            && (ProfileAt(st', st'.current, p).Some? <==> p in shas)
            && (forall i: nat :: LastAnalysed(es, |es|, i) && es[i].id == p ==>
                  && p in shas && shas[p] == es[i].sha.value && answers[i].Ok?
                  && ProfileAt(st', st'.current, p) ==
                     Some(ProfileRow(es[i].path, es[i].branch, es[i].sha.value, answers[i].value)))
            && (InScopeAt(st', st'.current, p) <==> exists i :: 0 <= i < |es| && es[i].id == p)
            && (forall i: nat :: LastWithId(es, i, p) ==> (p, es[i].path) in CatalogAt(st', st'.current))
  {
    FullRefreshShowsEnumeration(st, es, answers);
    CatalogRowsMeaning(es);
    var st' := FullRefresh(st, false, Ok(es), answers).store;
    var snap := st'.snapshots[st.lastId + 1];
    assert RowsAre(snap.profiles, es, answers, |es|);
    ByAscendingIdMeaning(snap.catalog);
  }

  /** After a completed single-project refresh the trigger is that of a single project, the catalog is
      the one before, and profiles and SHAs are those before, overridden at the project refreshed with
      what was listed and analysed, and not even there when its branch is missing. */
  lemma AfterSingleRefresh(st: Store, project: ProjectId, es: seq<EnumeratedProject>, answer: Answer, k: nat,
        p: ProjectId)
    requires StoreOk(st) && st.current.Some? && project in st.snapshots[st.current.value].catalog
    requires FirstWithId(es, k, project) && Fine([es[k]], [answer], 0)
    ensures var st', e := SingleRefresh(st, false, project, Ok(es), answer).store, es[k];
            && TriggerAt(st', st'.current) == Some(SingleProject)
            && CatalogAt(st', st'.current) == CatalogAt(st, st.current)
            && ShasAt(st', st'.current) ==
               (if e.sha.None? then ShasAt(st, st.current) else ShasAt(st, st.current)[project := e.sha.value])
            && (e.sha.Some? ==> answer.Ok?)
            && ProfileAt(st', st'.current, p) ==
               (if e.sha.Some? && p == project then Some(ProfileRow(e.path, e.branch, e.sha.value, answer.value))
                else ProfileAt(st, st.current, p))
  {
    MatchingIsFirst(es, project, k);
    SingleRefreshShowsParent(st, project, es, answer);
    var st', e := SingleRefresh(st, false, project, Ok(es), answer).store, es[k];
    var parent, snap := st.snapshots[st.current.value], st'.snapshots[st.lastId + 1];
    if e.sha.None? {
      assert snap.profiles == parent.profiles;
    } else {
      var row := ProfileRow(e.path, e.branch, e.sha.value, answer.value);
      assert snap.profiles == parent.profiles[project := row];
      assert Shas(snap.profiles) == Shas(parent.profiles)[project := e.sha.value];
    }
  }
}
