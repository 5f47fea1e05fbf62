/** Purpose conflicts: classifying a pair of profiles, and the sorted list of all conflicting pairs. */
module Conflicts {
  import opened Ordering
  import opened FirstOccurrences

  datatype Stance = Owner | Delegator | NoClaim

  /** What the text heuristics read out of a purpose summary. */
  datatype Reading = Reading(tokens: seq<string>, stance: Stance, excerpt: string)

  datatype Profile = Profile(id: int, path: string, summary: string)

  datatype ConflictKind = Conflict | NoConflict | Indeterminate

  datatype ConflictResult = ConflictResult(kind: ConflictKind, justification: string)

  datatype ConflictPair = ConflictPair(a: int, b: int, justification: string)

  const UNKNOWN_SUMMARY := "unknown"

  // ---------------------------------------------------------------- key tokens

  const MARKER_TOKENS := ["controls", "delegates", "handles", "manages", "owner", "owns", "responsible"]

  /** Strip a trailing `s` from words of four letters or more. */
  function Singular(word: string): string {
    if |word| >= 4 && word[|word| - 1] == 's' then word[..|word| - 1] else word
  }

  function Singulars(words: seq<string>): seq<string> {
    seq(|words|, i requires 0 <= i < |words| => Singular(words[i]))
  }

  /** The tokens for the responsibility key: stop words out, then singular, then marker tokens out. */
  function KeyTokens(words: seq<string>, stopwords: set<string>): seq<string> {
    Filter(t => t !in MARKER_TOKENS, Singulars(Filter(w => w !in stopwords, words)))
  }

  lemma SingularsMeaning(words: seq<string>, t: string)
    ensures t in Singulars(words) <==> exists w :: w in words && Singular(w) == t
  {
    if t in Singulars(words) {
      var i :| 0 <= i < |words| && Singulars(words)[i] == t;
      assert words[i] in words;
    }
    if w :| w in words && Singular(w) == t {
      var i :| 0 <= i < |words| && words[i] == w;
      assert Singulars(words)[i] == t;
    }
  }

  /** A word reaches the key, in the singular, exactly when it is no stop word and its singular is no
      marker token. Marker verbs in the third person do reach it: `owns` stays, as `own`. */
  lemma KeyTokensMeaning(words: seq<string>, stopwords: set<string>, t: string)
    ensures t in KeyTokens(words, stopwords) <==>
            t !in MARKER_TOKENS && exists w :: w in words && w !in stopwords && Singular(w) == t
    ensures "owns" in words && "owns" !in stopwords ==> "own" in KeyTokens(words, stopwords)
  {
    var kept := Filter(w => w !in stopwords, words);
    FilterElements(w => w !in stopwords, words);
    FilterElements(x => x !in MARKER_TOKENS, Singulars(kept));
    SingularsMeaning(kept, t);
    SingularsMeaning(kept, "own");
    assert Singular("owns") == "own";
    assert "own" !in MARKER_TOKENS by {
      assert forall m :: m in MARKER_TOKENS ==> |m| > 3;
    }
  }

  /** What one more word adds to the key words: nothing, if it is a stop word, or if without its plural it
      is a marker; else the word without its plural. */
  lemma KeyTokensSnoc(words: seq<string>, stopwords: set<string>, w: string)
    ensures KeyTokens([], stopwords) == []
    ensures var t := if |w| >= 4 && w[|w| - 1] == 's' then w[..|w| - 1] else w;
            KeyTokens(words + [w], stopwords) ==
            if w in stopwords || t == "controls" || t == "delegates" || t == "handles" || t == "manages"
               || t == "owner" || t == "owns" || t == "responsible"
            then KeyTokens(words, stopwords) else KeyTokens(words, stopwords) + [t]
  {
    var kept := Filter(v => v !in stopwords, words);
    FilterSnoc(v => v !in stopwords, words, w);
    if w !in stopwords {
      assert Singulars(kept + [w]) == Singulars(kept) + [Singular(w)];
      FilterSnoc(t => t !in MARKER_TOKENS, Singulars(kept), Singular(w));
    }
  }

  // ---------------------------------------------------------------- one pair

  /** The first two tokens, the only one, or none. */
  function KeyOf(tokens: seq<string>): seq<string> {
    if |tokens| <= 2 then tokens else tokens[..2]
  }

  /** Jaccard similarity of at least 0.6; two empty sets are not similar. */
  predicate Overlap(a: set<string>, b: set<string>) {
    a + b != {} && 5 * |a * b| >= 3 * |a + b|
  }

  function Phrase(key: seq<string>): string {
    if key == [] then "(no content tokens)" else if |key| == 1 then key[0] else key[0] + " " + key[1]
  }

  function Versus(a: Reading, b: Reading): string {
    "\"" + a.excerpt + "\" vs \"" + b.excerpt + "\""
  }

  function UnknownJustification(a: Profile, b: Profile): string {
    if a.summary == UNKNOWN_SUMMARY && b.summary == UNKNOWN_SUMMARY then
      "purpose summary is unknown for projects '" + a.path + "' and '" + b.path + "'"
    else
      "purpose summary is unknown for project '" + (if a.summary == UNKNOWN_SUMMARY then a.path else b.path) + "'"
  }

  /** Why two known summaries conflict, or that they do not. */
  datatype Verdict = SameResponsibility | ContradictoryOwnership | Different

  function Compare(a: Reading, b: Reading): Verdict {
    var keysMatch := KeyOf(a.tokens) == KeyOf(b.tokens) && KeyOf(a.tokens) != [];
    if keysMatch && Overlap(Elements(a.tokens), Elements(b.tokens)) then SameResponsibility
    else if keysMatch && {a.stance, b.stance} == {Owner, Delegator} then ContradictoryOwnership
    else Different
  }

  function Ground(verdict: Verdict, a: Reading, b: Reading): string {
    match verdict
    case SameResponsibility =>
      "both purpose summaries describe substantially the same primary responsibility '"
      + Phrase(KeyOf(a.tokens)) + "': "
    case ContradictoryOwnership =>
      "purpose summaries assert contradictory ownership of '" + Phrase(KeyOf(a.tokens)) + "': "
    case Different =>
      "purpose summaries describe different primary responsibilities ('" + Phrase(KeyOf(a.tokens)) + "' vs '"
      + Phrase(KeyOf(b.tokens)) + "'): "
  }

  function Justify(verdict: Verdict, a: Reading, b: Reading): string {
    Ground(verdict, a, b) + Versus(a, b)
  }

  /** `classify_pair`; `read` stands for the text heuristics. */
  function Classify(read: string -> Reading, a: Profile, b: Profile): ConflictResult {
    if a.summary == UNKNOWN_SUMMARY || b.summary == UNKNOWN_SUMMARY then
      ConflictResult(Indeterminate, UnknownJustification(a, b))
    else
      var ra, rb := read(a.summary), read(b.summary);
      var verdict := Compare(ra, rb);
      ConflictResult(if verdict.Different? then NoConflict else Conflict, Justify(verdict, ra, rb))
  }

  lemma CompareIsSymmetric(a: Reading, b: Reading)
    ensures Compare(a, b) == Compare(b, a)
  {
    var x, y := Elements(a.tokens), Elements(b.tokens);
    assert x + y == y + x && x * y == y * x;
    assert {a.stance, b.stance} == {b.stance, a.stance};
  }

  /** The kind does not depend on which profile comes first. */
  lemma ClassifyIsSymmetric(read: string -> Reading, a: Profile, b: Profile)
    ensures Classify(read, a, b).kind == Classify(read, b, a).kind
  {
    CompareIsSymmetric(read(a.summary), read(b.summary));
  }

  lemma CompareMeaning(a: Reading, b: Reading)
    ensures Compare(a, b) != Different <==>
            && a.tokens != [] && b.tokens != [] && KeyOf(a.tokens) == KeyOf(b.tokens)
            && (Overlap(Elements(a.tokens), Elements(b.tokens))
                || (a.stance == Owner && b.stance == Delegator) || (a.stance == Delegator && b.stance == Owner))
  {
    if {a.stance, b.stance} == {Owner, Delegator} {
      assert Owner in {a.stance, b.stance} && Delegator in {a.stance, b.stance};
    }
    assert |KeyOf(a.tokens)| == if |a.tokens| <= 2 then |a.tokens| else 2;
    assert |KeyOf(b.tokens)| == if |b.tokens| <= 2 then |b.tokens| else 2;
  }

  /** What the three kinds mean. */
  lemma ClassifyMeaning(read: string -> Reading, a: Profile, b: Profile)
    ensures var kind := Classify(read, a, b).kind;
            var ra, rb := read(a.summary), read(b.summary);
            && (kind == Indeterminate <==> a.summary == UNKNOWN_SUMMARY || b.summary == UNKNOWN_SUMMARY)
            && (kind == Conflict <==>
                  && a.summary != UNKNOWN_SUMMARY && b.summary != UNKNOWN_SUMMARY
                  && ra.tokens != [] && rb.tokens != [] && KeyOf(ra.tokens) == KeyOf(rb.tokens)
                  && (Overlap(Elements(ra.tokens), Elements(rb.tokens))
                      || (ra.stance == Owner && rb.stance == Delegator)
                      || (ra.stance == Delegator && rb.stance == Owner)))
  {
    CompareMeaning(read(a.summary), read(b.summary));
  }

  /** An indeterminate classification names the projects whose summary is unknown. */
  lemma UnknownIsNamed(read: string -> Reading, a: Profile, b: Profile)
    requires a.summary == UNKNOWN_SUMMARY || b.summary == UNKNOWN_SUMMARY
    ensures var text := Classify(read, a, b).justification;
            if a.summary == b.summary then exists pre: string :: text == pre + a.path + "' and '" + b.path + "'"
            else if a.summary == UNKNOWN_SUMMARY then exists pre: string :: text == pre + a.path + "'"
            else exists pre: string :: text == pre + b.path + "'"
  {
    var text, pre := Classify(read, a, b).justification, "purpose summary is unknown for project '";
    if a.summary == b.summary {
      assert text == "purpose summary is unknown for projects '" + a.path + "' and '" + b.path + "'";
    } else {
      assert text == pre + (if a.summary == UNKNOWN_SUMMARY then a.path else b.path) + "'";
    }
  }

  /** The classification of pairs by this reading of summaries. */
  function Classifier(read: string -> Reading): (Profile, Profile) -> ConflictResult {
    (a, b) => Classify(read, a, b)
  }

  // ---------------------------------------------------------------- all pairs

  /** Any classification of pairs. */
  type Classification = (Profile, Profile) -> ConflictResult

  type Pairs = map<(int, int), ConflictPair>

  /** Of two profiles, the one with the smaller id, and the other one. */
  function Lower(a: Profile, b: Profile): Profile {
    if a.id < b.id then a else b
  }

  function Higher(a: Profile, b: Profile): Profile {
    if a.id < b.id then b else a
  }

  function PairFor(classify: Classification, a: Profile, b: Profile): ConflictPair {
    var first, second := Lower(a, b), Higher(a, b);
    ConflictPair(first.id, second.id, classify(first, second).justification)
  }

  function KeyFor(a: Profile, b: Profile): (int, int) {
    (Lower(a, b).id, Higher(a, b).id)
  }

  /** Two profiles of different projects that conflict, classified with the smaller id first. */
  predicate Conflicting(classify: Classification, a: Profile, b: Profile) {
    a.id != b.id && classify(Lower(a, b), Higher(a, b)).kind == Conflict
  }

  /** The dictionary after looking at `a` and `b`. */
  function Consider(classify: Classification, a: Profile, b: Profile, m: Pairs): Pairs {
    if !Conflicting(classify, a, b) || KeyFor(a, b) in m then m else m[KeyFor(a, b) := PairFor(classify, a, b)]
  }

  /** The dictionary after pairing position `i` with the positions after it and before `j`. */
  function RowPairs(classify: Classification, ps: seq<Profile>, i: nat, j: nat, m: Pairs): Pairs
    requires i < |ps| && j <= |ps|
    decreases j
  {
    if j <= i + 1 then m else Consider(classify, ps[i], ps[j - 1], RowPairs(classify, ps, i, j - 1, m))
  }

  function PairsUpTo(classify: Classification, ps: seq<Profile>, i: nat): Pairs
    requires i <= |ps|
  {
    if i == 0 then map[] else RowPairs(classify, ps, i - 1, |ps|, PairsUpTo(classify, ps, i - 1))
  }

  ghost function SortedKeys(m: Pairs): (keys: seq<(int, int)>)
    ensures IsSortedSet(keys, m.Keys, PairLe)
  {
    PairLeTotal();
    SortedSet(m.Keys, PairLe)
  }

  /** `[m[key] for key in keys]`. */
  function Listed(m: Pairs, keys: seq<(int, int)>): (r: seq<ConflictPair>)
    requires forall k :: k in keys ==> k in m
    ensures |r| == |keys|
    ensures forall i :: 0 <= i < |r| ==> r[i] == m[keys[i]]
  {
    if keys == [] then [] else Listed(m, keys[..|keys| - 1]) + [m[keys[|keys| - 1]]]
  }

  ghost function AllConflicts(classify: Classification, ps: seq<Profile>): seq<ConflictPair> {
    var m := PairsUpTo(classify, ps, |ps|);
    assert forall k :: k in SortedKeys(m) ==> k in Elements(SortedKeys(m));
    Listed(m, SortedKeys(m))
  }

  method FindAllConflicts(classify: Classification, ps: seq<Profile>) returns (r: seq<ConflictPair>)
    ensures r == AllConflicts(classify, ps)
  {
    var pairsByKey: Pairs := map[];
    for i := 0 to |ps|
      invariant pairsByKey == PairsUpTo(classify, ps, i)
    {
      ghost var before := pairsByKey;
      for j := i + 1 to |ps|
        invariant pairsByKey == RowPairs(classify, ps, i, j, before)
      {
        if ps[i].id == ps[j].id { continue; }
        var first, second := ps[i], ps[j];
        if ps[j].id < ps[i].id { first, second := ps[j], ps[i]; }
        var key := (first.id, second.id);
        if key in pairsByKey { continue; }
        var result := classify(first, second);
        if result.kind == Conflict {
          pairsByKey := pairsByKey[key := ConflictPair(key.0, key.1, result.justification)];
        }
      }
    }
    PairLeTotal();
    var keys := SortedList(pairsByKey.Keys, PairLe);
    SortedSetUnique(keys, SortedKeys(pairsByKey), PairLe);
    r := [];
    for i := 0 to |keys|
      invariant forall k :: k in keys ==> k in pairsByKey
      invariant r == Listed(pairsByKey, keys[..i])
    {
      assert keys[..i + 1][..i] == keys[..i];
      r := r + [pairsByKey[keys[i]]];
    }
    assert keys[..|keys|] == keys;
  }

  // ---------------------------------------------------------------- what the list means

  /** Positions `i` and `k` hold conflicting profiles with the ids of `key`. */
  ghost predicate OffersAt(classify: Classification, ps: seq<Profile>, i: nat, k: nat, key: (int, int)) {
    i < k < |ps| && Conflicting(classify, ps[i], ps[k]) && KeyFor(ps[i], ps[k]) == key
  }

  /** Every entry comes from a conflicting pair of positions, and carries its justification. */
  ghost predicate Sound(classify: Classification, ps: seq<Profile>, m: Pairs) {
    forall key :: key in m ==>
      exists i: nat, k: nat :: OffersAt(classify, ps, i, k, key) && m[key] == PairFor(classify, ps[i], ps[k])
  }

  /** Every conflicting pair of a position before `n` has an entry. */
  ghost predicate Complete(classify: Classification, ps: seq<Profile>, m: Pairs, n: nat) {
    forall i: nat, k: nat, key :: i < n && OffersAt(classify, ps, i, k, key) ==> key in m
  }

  lemma ConsiderMeaning(classify: Classification, ps: seq<Profile>, i: nat, k: nat, m: Pairs)
    requires i < k < |ps| && Sound(classify, ps, m)
    ensures var after := Consider(classify, ps[i], ps[k], m);
            && Sound(classify, ps, after)
            && (forall key :: key in m ==> key in after)
            && (forall key :: OffersAt(classify, ps, i, k, key) ==> key in after)
  {
    var key, after := KeyFor(ps[i], ps[k]), Consider(classify, ps[i], ps[k], m);
    if Conflicting(classify, ps[i], ps[k]) && key !in m {
      assert OffersAt(classify, ps, i, k, key) && after[key] == PairFor(classify, ps[i], ps[k]);
      forall other | other in after && other != key
        ensures exists x: nat, y: nat ::
                OffersAt(classify, ps, x, y, other) && after[other] == PairFor(classify, ps[x], ps[y])
      {
        assert other in m && after[other] == m[other];
      }
    }
  }

  lemma {:induction false} RowPairsMeaning(classify: Classification, ps: seq<Profile>, i: nat, j: nat, m: Pairs,
        r: Pairs)
    requires i < |ps| && j <= |ps| && Sound(classify, ps, m) && r == RowPairs(classify, ps, i, j, m)
    ensures Sound(classify, ps, r)
    ensures forall key :: key in m ==> key in r
    ensures forall k: nat, key :: k < j && OffersAt(classify, ps, i, k, key) ==> key in r
    decreases j
  {
    if j > i + 1 {
      var before := RowPairs(classify, ps, i, j - 1, m);
      RowPairsMeaning(classify, ps, i, j - 1, m, before);
      ConsiderMeaning(classify, ps, i, j - 1, before);
    }
  }

  lemma CompleteStep(classify: Classification, ps: seq<Profile>, before: Pairs, after: Pairs, n: nat)
    requires Complete(classify, ps, before, n) && forall key :: key in before ==> key in after
    requires forall k: nat, key :: k < |ps| && OffersAt(classify, ps, n, k, key) ==> key in after
    ensures Complete(classify, ps, after, n + 1)
  {
    forall i: nat, k: nat, key | i < n + 1 && OffersAt(classify, ps, i, k, key) ensures key in after {
      if i < n { assert key in before; }
    }
  }

  lemma PairsStep(classify: Classification, ps: seq<Profile>, n: nat, before: Pairs, after: Pairs)
    requires n < |ps| && Sound(classify, ps, before) && Complete(classify, ps, before, n)
    requires after == RowPairs(classify, ps, n, |ps|, before)
    ensures Sound(classify, ps, after) && Complete(classify, ps, after, n + 1)
  {
    RowPairsMeaning(classify, ps, n, |ps|, before, after);
    CompleteStep(classify, ps, before, after, n);
  }

  lemma {:induction false} PairsMeaning(classify: Classification, ps: seq<Profile>, n: nat, m: Pairs)
    requires n <= |ps| && m == PairsUpTo(classify, ps, n)
    ensures Sound(classify, ps, m) && Complete(classify, ps, m, n)
  {
    if n > 0 {
      var before := PairsUpTo(classify, ps, n - 1);
      PairsMeaning(classify, ps, n - 1, before);
      PairsStep(classify, ps, n - 1, before, m);
    }
  }

  /** Two profiles of the list, in either order of position, that conflict and whose ids are `a < b`. */
  ghost predicate ConflictIn(classify: Classification, ps: seq<Profile>, p: Profile, q: Profile, a: int, b: int) {
    p in ps && q in ps && p.id == a && q.id == b && a < b && classify(p, q).kind == Conflict
  }

  ghost predicate Holds(r: seq<ConflictPair>, a: int, b: int) {
    exists c :: c in r && c.a == a && c.b == b
  }

  /** The list is strictly sorted by id pair and holds a pair exactly when some profiles with those ids
      conflict; its justification is that of such a pair. Profiles of one project are never paired. */
  lemma ConflictsAreTheClosure(classify: Classification, ps: seq<Profile>)
    ensures var r := AllConflicts(classify, ps);
            && (forall i, k :: 0 <= i < k < |r| ==> r[i].a < r[k].a || (r[i].a == r[k].a && r[i].b < r[k].b))
            && (forall a, b :: Holds(r, a, b) <==> (exists p, q :: ConflictIn(classify, ps, p, q, a, b)))
            && (forall c :: c in r ==> Justified(classify, ps, c))
  {
    var r := AllConflicts(classify, ps);
    forall i | 0 <= i < |r| ensures Justified(classify, ps, r[i]) { ListedAt(classify, ps, i); }
    forall i, k | 0 <= i < k < |r| ensures r[i].a < r[k].a || (r[i].a == r[k].a && r[i].b < r[k].b) {
      ListedAt(classify, ps, i);
      ListedAt(classify, ps, k);
    }
    forall a, b, p, q | ConflictIn(classify, ps, p, q, a, b) ensures Holds(r, a, b) {
      ConflictIsListed(classify, ps, p, q, a, b);
    }
  }

  /** The justification of `c` is that of two conflicting profiles with its ids. */
  ghost predicate Justified(classify: Classification, ps: seq<Profile>, c: ConflictPair) {
    exists p, q :: ConflictIn(classify, ps, p, q, c.a, c.b) && c.justification == classify(p, q).justification
  }

  lemma ListedAt(classify: Classification, ps: seq<Profile>, i: nat)
    requires i < |AllConflicts(classify, ps)|
    ensures var keys, c := SortedKeys(PairsUpTo(classify, ps, |ps|)), AllConflicts(classify, ps)[i];
            |keys| == |AllConflicts(classify, ps)| && (c.a, c.b) == keys[i] && Justified(classify, ps, c)
  {
    var m := PairsUpTo(classify, ps, |ps|);
    var keys := SortedKeys(m);
    assert keys[i] in Elements(keys);
    PairsMeaning(classify, ps, |ps|, m);
    EntryHasItsKey(classify, ps, m, keys[i]);
  }

  lemma ConflictIsListed(classify: Classification, ps: seq<Profile>, p: Profile, q: Profile, a: int, b: int)
    requires ConflictIn(classify, ps, p, q, a, b)
    ensures Holds(AllConflicts(classify, ps), a, b)
  {
    var m := PairsUpTo(classify, ps, |ps|);
    var keys, r := SortedKeys(m), AllConflicts(classify, ps);
    PairsMeaning(classify, ps, |ps|, m);
    ConflictHasEntry(classify, ps, m, p, q, a, b);
    assert (a, b) in Elements(keys);
    var i :| 0 <= i < |keys| && keys[i] == (a, b);
    ListedAt(classify, ps, i);
    assert r[i] in r;
  }

  lemma EntryHasItsKey(classify: Classification, ps: seq<Profile>, m: Pairs, key: (int, int))
    requires Sound(classify, ps, m) && key in m
    ensures m[key].a == key.0 && m[key].b == key.1
    ensures Justified(classify, ps, m[key])
  {
    var i: nat, k: nat :| OffersAt(classify, ps, i, k, key) && m[key] == PairFor(classify, ps[i], ps[k]);
    assert ConflictIn(classify, ps, Lower(ps[i], ps[k]), Higher(ps[i], ps[k]), key.0, key.1);
  }

  lemma ConflictHasEntry(classify: Classification, ps: seq<Profile>, m: Pairs, p: Profile, q: Profile, a: int, b: int)
    requires Complete(classify, ps, m, |ps|) && ConflictIn(classify, ps, p, q, a, b)
    ensures (a, b) in m
  {
    var i: nat :| i < |ps| && ps[i] == p;
    var k: nat :| k < |ps| && ps[k] == q;
    if i < k {
      assert OffersAt(classify, ps, i, k, (a, b));
    } else {
      assert OffersAt(classify, ps, k, i, (a, b));
    }
  }

  ghost predicate DistinctIds(ps: seq<Profile>) {
    forall i, k :: 0 <= i < k < |ps| ==> ps[i].id != ps[k].id
  }

  /** For distinct ids the whole list, justifications included, does not depend on the order of the
      profiles. */
  lemma ConflictsIgnoreOrder(classify: Classification, ps: seq<Profile>, qs: seq<Profile>)
    requires multiset(ps) == multiset(qs) && DistinctIds(ps)
    ensures AllConflicts(classify, ps) == AllConflicts(classify, qs)
  {
    PermutedDistinctIds(ps, qs);
    var m, m' := PairsUpTo(classify, ps, |ps|), PairsUpTo(classify, qs, |qs|);
    EntriesIncluded(classify, ps, qs);
    EntriesIncluded(classify, qs, ps);
    IncludedBothWays(m, m');
  }

  ghost predicate Included(m: Pairs, m': Pairs) {
    forall key: (int, int) :: key in m ==> key in m' && m'[key] == m[key]
  }

  lemma IncludedBothWays(m: Pairs, m': Pairs)
    requires Included(m, m') && Included(m', m)
    ensures m == m'
  {}

  lemma PermutedDistinctIds(ps: seq<Profile>, qs: seq<Profile>)
    requires multiset(ps) == multiset(qs) && DistinctIds(ps)
    ensures DistinctIds(qs)
  {
    assert Distinct(ps);
    DistinctByMultiset(ps);
    DistinctByMultiset(qs);
    SameMultisetSameElements(ps, qs);
    forall i, j | 0 <= i < j < |qs| ensures qs[i].id != qs[j].id {
      assert qs[i] in Elements(ps) && qs[j] in Elements(ps);
    }
  }

  lemma EntriesIncluded(classify: Classification, ps: seq<Profile>, qs: seq<Profile>)
    requires multiset(ps) == multiset(qs) && DistinctIds(ps) && DistinctIds(qs)
    ensures Included(PairsUpTo(classify, ps, |ps|), PairsUpTo(classify, qs, |qs|))
  {
    var m, m' := PairsUpTo(classify, ps, |ps|), PairsUpTo(classify, qs, |qs|);
    PairsMeaning(classify, ps, |ps|, m);
    PairsMeaning(classify, qs, |qs|, m');
    forall key: (int, int) | key in m ensures key in m' && m'[key] == m[key] {
      var p, q := ConflictOf(classify, ps, m, key);
      assert p in multiset(qs) && q in multiset(qs);
      ConflictHasEntry(classify, qs, m', p, q, key.0, key.1);
      var p', q' := ConflictOf(classify, qs, m', key);
      SameId(qs, p, p');
      SameId(qs, q, q');
    }
  }

  lemma ConflictOf(classify: Classification, ps: seq<Profile>, m: Pairs, key: (int, int)) returns (p: Profile,
        q: Profile)
    requires Sound(classify, ps, m) && key in m
    ensures ConflictIn(classify, ps, p, q, key.0, key.1)
            && m[key] == ConflictPair(key.0, key.1, classify(p, q).justification)
  {
    var i: nat, k: nat :| OffersAt(classify, ps, i, k, key) && m[key] == PairFor(classify, ps[i], ps[k]);
    p, q := Lower(ps[i], ps[k]), Higher(ps[i], ps[k]);
  }

  lemma SameId(ps: seq<Profile>, p: Profile, q: Profile)
    requires DistinctIds(ps) && p in ps && q in ps && p.id == q.id
    ensures p == q
  {
    var i :| 0 <= i < |ps| && ps[i] == p;
    var k :| 0 <= k < |ps| && ps[k] == q;
  }

  /** With the heuristics' own classification: the list names `a < b` exactly when two of the profiles
      have these ids, in whichever order, and conflict. */
  lemma PurposeConflictsAreTheClosure(read: string -> Reading, ps: seq<Profile>, a: int, b: int)
    ensures Holds(AllConflicts(Classifier(read), ps), a, b) <==>
            a < b && exists p, q :: p in ps && q in ps && ((p.id == a && q.id == b) || (p.id == b && q.id == a))
                                    && Classify(read, p, q).kind == Conflict
  {
    var classify := Classifier(read);
    ConflictsAreTheClosure(classify, ps);
    if Holds(AllConflicts(classify, ps), a, b) {
      var p, q :| ConflictIn(classify, ps, p, q, a, b);
      assert classify(p, q) == Classify(read, p, q);
    }
    if p, q :| a < b && p in ps && q in ps && ((p.id == a && q.id == b) || (p.id == b && q.id == a))
               && Classify(read, p, q).kind == Conflict {
      ClassifyIsSymmetric(read, p, q);
      var first, second := if p.id == a then p else q, if p.id == a then q else p;
      assert ConflictIn(classify, ps, first, second, a, b);
    }
  }

  /** With distinct ids, a pair is listed exactly when its two profiles conflict. */
  lemma PairIsListedIff(read: string -> Reading, ps: seq<Profile>, p: Profile, q: Profile)
    requires DistinctIds(ps) && p in ps && q in ps && p.id < q.id
    ensures Holds(AllConflicts(Classifier(read), ps), p.id, q.id) <==> Classify(read, p, q).kind == Conflict
  {
    PurposeConflictsAreTheClosure(read, ps, p.id, q.id);
    ClassifyIsSymmetric(read, p, q);
    forall x | x in ps && (x.id == p.id || x.id == q.id) ensures x == if x.id == p.id then p else q {
      SameId(ps, x, if x.id == p.id then p else q);
    }
  }

  lemma TwinsConflictIff(read: string -> Reading, a: Profile, b: Profile)
    requires a.summary == b.summary
    ensures Classify(read, a, b).kind == Conflict <==> a.summary != UNKNOWN_SUMMARY && read(a.summary).tokens != []
  {
    var tokens := read(a.summary).tokens;
    var words := Elements(tokens);
    assert words + words == words && words * words == words;
    if tokens != [] { assert tokens[0] in words; }
    ClassifyMeaning(read, a, b);
  }

  /** Two projects with one summary are listed exactly when it is known and has a content word: neither
      the overlap threshold nor ownership ever hides a duplicate. */
  lemma TwinsAreListedIff(read: string -> Reading, ps: seq<Profile>, p: Profile, q: Profile)
    requires DistinctIds(ps) && p in ps && q in ps && p.id < q.id && p.summary == q.summary
    ensures Holds(AllConflicts(Classifier(read), ps), p.id, q.id) <==>
            p.summary != UNKNOWN_SUMMARY && read(p.summary).tokens != []
  {
    PairIsListedIff(read, ps, p, q);
    TwinsConflictIff(read, p, q);
  }

  /** A listed pair has its first content word in common, so summaries without a common word are never
      listed, however their ownership claims contradict. */
  lemma ListedShareTheirFirstWord(read: string -> Reading, ps: seq<Profile>, p: Profile, q: Profile)
    requires DistinctIds(ps) && p in ps && q in ps && p.id < q.id
    requires Holds(AllConflicts(Classifier(read), ps), p.id, q.id)
    ensures var x, y := read(p.summary).tokens, read(q.summary).tokens;
            x != [] && y != [] && x[0] == y[0] && Elements(x) * Elements(y) != {}
  {
    ListedIff(read, ps, p, q);
    var x, y := read(p.summary).tokens, read(q.summary).tokens;
    assert x[0] in Elements(x) * Elements(y);
  }

  // ---------------------------------------------------------------- the threshold, word by word

  /** The two lists of content words start alike: with the same word, and the same second word if there
      is one. */
  predicate SameKey(x: seq<string>, y: seq<string>) {
    && x != [] && y != [] && x[0] == y[0]
    && (|x| == 1 <==> |y| == 1)
    && (|x| > 1 ==> x[1] == y[1])
  }

  lemma SameKeyIff(x: seq<string>, y: seq<string>)
    ensures SameKey(x, y) <==> x != [] && y != [] && KeyOf(x) == KeyOf(y)
  {
    if x != [] && y != [] && KeyOf(x) == KeyOf(y) {
      assert |KeyOf(x)| == |KeyOf(y)|;
      assert KeyOf(x)[0] == KeyOf(y)[0];
      if |x| > 1 { assert KeyOf(x)[1] == KeyOf(y)[1]; }
    }
  }

  /** At least one and a half times as many words shared as not. */
  predicate MostlyShared(x: set<string>, y: set<string>) {
    2 * |x * y| >= 3 * |(x - y) + (y - x)|
  }

  lemma OverlapIffMostlyShared(x: set<string>, y: set<string>)
    requires x != {} || y != {}
    ensures Overlap(x, y) <==> MostlyShared(x, y)
  {
    var shared, other := x * y, (x - y) + (y - x);
    assert x + y == shared + other && shared * other == {};
    assert |x + y| == |shared| + |other|;
    if w :| w in x { assert w in x + y; }
    if w :| w in y { assert w in x + y; }
  }

  predicate OneOwnsOneDelegates(a: Reading, b: Reading) {
    (a.stance == Owner && b.stance == Delegator) || (a.stance == Delegator && b.stance == Owner)
  }

  /** Two projects are listed exactly when both summaries are known, start with the same key, and either
      share at least one and a half times as many words as they do not, or claim and delegate. */
  lemma ListedIff(read: string -> Reading, ps: seq<Profile>, p: Profile, q: Profile)
    requires DistinctIds(ps) && p in ps && q in ps && p.id < q.id
    ensures var a, b := read(p.summary), read(q.summary);
            Holds(AllConflicts(Classifier(read), ps), p.id, q.id) <==>
              && p.summary != UNKNOWN_SUMMARY && q.summary != UNKNOWN_SUMMARY
              && SameKey(a.tokens, b.tokens)
              && (MostlyShared(Elements(a.tokens), Elements(b.tokens)) || OneOwnsOneDelegates(a, b))
  {
    var a, b := read(p.summary), read(q.summary);
    PairIsListedIff(read, ps, p, q);
    ClassifyMeaning(read, p, q);
    SameKeyIff(a.tokens, b.tokens);
    if a.tokens != [] {
      assert a.tokens[0] in Elements(a.tokens);
      OverlapIffMostlyShared(Elements(a.tokens), Elements(b.tokens));
    }
  }

  /** The key as it is quoted. */
  function KeyWords(x: seq<string>): string
    requires x != []
  {
    if |x| == 1 then x[0] else x[0] + " " + x[1]
  }

  /** What a listed pair is justified by: the shared responsibility where the words overlap enough,
      contradictory ownership of it otherwise, and both excerpts, that of the smaller id first. */
  lemma ListedJustification(read: string -> Reading, ps: seq<Profile>, c: ConflictPair)
    requires c in AllConflicts(Classifier(read), ps)
    ensures exists p, q ::
              && p in ps && q in ps && p.id == c.a && q.id == c.b && c.a < c.b
              && SameKey(read(p.summary).tokens, read(q.summary).tokens)
              && c.justification == Reason(read(p.summary), read(q.summary))
  {
    ConflictsAreTheClosure(Classifier(read), ps);
    var p, q :| ConflictIn(Classifier(read), ps, p, q, c.a, c.b)
      && c.justification == Classifier(read)(p, q).justification;
    var a, b := read(p.summary), read(q.summary);
    ClassifyMeaning(read, p, q);
    SameKeyIff(a.tokens, b.tokens);
    assert a.tokens[0] in Elements(a.tokens);
    OverlapIffMostlyShared(Elements(a.tokens), Elements(b.tokens));
    ReasonIsJustification(a, b);
  }

  function Reason(a: Reading, b: Reading): string
    requires a.tokens != []
  {
    (if MostlyShared(Elements(a.tokens), Elements(b.tokens)) then
       "both purpose summaries describe substantially the same primary responsibility '" + KeyWords(a.tokens) + "': "
     else
       "purpose summaries assert contradictory ownership of '" + KeyWords(a.tokens) + "': ")
    + ("\"" + a.excerpt + "\" vs \"" + b.excerpt + "\"")
  }

  lemma ReasonIsJustification(a: Reading, b: Reading)
    requires a.tokens != [] && b.tokens != [] && KeyOf(a.tokens) == KeyOf(b.tokens)
    requires Compare(a, b) != Different
    requires Overlap(Elements(a.tokens), Elements(b.tokens)) <==> MostlyShared(Elements(a.tokens), Elements(b.tokens))
    ensures Justify(Compare(a, b), a, b) == Reason(a, b)
  {
    assert Phrase(KeyOf(a.tokens)) == KeyWords(a.tokens);
  }
}
