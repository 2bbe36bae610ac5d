/** What "no difference" means: structural equality when order counts, equality up to
    recursive permutation of arrays when it does not. */
module JsonEquivalence {
  import opened Matching
  import opened KeyOrder
  import opened JsonDiff

  // ----- the reference relation -----

  /** Equal up to reordering the elements of arrays, at every depth. */
  ghost predicate PermEq(e: Json, a: Json)
    decreases e
  {
    if e.Array? && a.Array? then
      && |e.items| == |a.items|
      && exists p :: IsPermutation(p, |e.items|) && forall i :: 0 <= i < |e.items| ==> PermEq(e.items[i], a.items[p[i]])
    else if e.Object? && a.Object? then
      && e.fields.Keys == a.fields.Keys
      && forall k :: k in e.fields ==> PermEq(e.fields[k], a.fields[k])
    else e == a
  }

  lemma {:induction false} PermEqReflexive(e: Json)
    ensures PermEq(e, e)
    decreases e
  {
    if e.Array? {
      var p := Identity(|e.items|);
      forall i | 0 <= i < |e.items| ensures PermEq(e.items[i], e.items[p[i]]) {
        PermEqReflexive(e.items[i]);
      }
      assert IsPermutation(p, |e.items|);
    } else if e.Object? {
      forall k | k in e.fields ensures PermEq(e.fields[k], e.fields[k]) {
        PermEqReflexive(e.fields[k]);
      }
    }
  }

  lemma {:induction false} PermEqSymmetric(e: Json, a: Json)
    requires PermEq(e, a)
    ensures PermEq(a, e)
    decreases e
  {
    if e.Array? && a.Array? {
      var p :| IsPermutation(p, |e.items|) && forall i :: 0 <= i < |e.items| ==> PermEq(e.items[i], a.items[p[i]]);
      var q := Inverse(p);
      forall j | 0 <= j < |a.items| ensures PermEq(a.items[j], e.items[q[j]]) {
        assert p[q[j]] == j;
        PermEqSymmetric(e.items[q[j]], a.items[j]);
      }
      assert IsPermutation(q, |a.items|);
    } else if e.Object? && a.Object? {
      forall k | k in a.fields ensures PermEq(a.fields[k], e.fields[k]) {
        PermEqSymmetric(e.fields[k], a.fields[k]);
      }
    }
  }

  lemma {:induction false} PermEqTransitive(e: Json, b: Json, a: Json)
    requires PermEq(e, b) && PermEq(b, a)
    ensures PermEq(e, a)
    decreases e
  {
    if e.Array? && b.Array? {
      var p :| IsPermutation(p, |e.items|) && forall i :: 0 <= i < |e.items| ==> PermEq(e.items[i], b.items[p[i]]);
      var q :| IsPermutation(q, |b.items|) && forall i :: 0 <= i < |b.items| ==> PermEq(b.items[i], a.items[q[i]]);
      var r := Compose(p, q);
      forall i | 0 <= i < |e.items| ensures PermEq(e.items[i], a.items[r[i]]) {
        PermEqTransitive(e.items[i], b.items[p[i]], a.items[q[p[i]]]);
      }
      assert IsPermutation(r, |e.items|);
    } else if e.Object? && b.Object? {
      forall k | k in e.fields ensures PermEq(e.fields[k], a.fields[k]) {
        PermEqTransitive(e.fields[k], b.fields[k], a.fields[k]);
      }
    }
  }

  // ----- counting what the unordered comparison reports -----

  ghost function From(s: set<nat>, i: nat): set<nat> {
    set x | x in s && i <= x
  }

  lemma {:induction false} NotFoundCount(path: Path, items: seq<Json>, i: nat, paired: set<nat>)
    requires i <= |items|
    requires forall x :: x in paired ==> x < |items|
    ensures |NotFound(path, items, i, paired)| == |items| - i - |From(paired, i)|
    decreases |items| - i
  {
    if i == |items| {
      assert From(paired, i) == {};
    } else {
      NotFoundCount(path, items, i + 1, paired);
      assert From(paired, i) == From(paired, i + 1) + if i in paired then {i} else {};
    }
  }

  lemma {:induction false} ExtrasCount(path: Path, items: seq<Json>, j: nat, used: set<nat>)
    requires j <= |items|
    requires forall x :: x in used ==> x < |items|
    ensures |Extras(path, items, j, used)| == |items| - j - |From(used, j)|
    decreases |items| - j
  {
    if j == |items| {
      assert From(used, j) == {};
    } else {
      ExtrasCount(path, items, j + 1, used);
      assert From(used, j) == From(used, j + 1) + if j in used then {j} else {};
    }
  }

  /** As many elements are reported missing, and extra, as the pairing leaves out. */
  lemma UnorderedCounts(path: Path, e: Json, a: Json)
    requires e.Array? && a.Array?
    ensures var m := Pairing(path, e, a);
      && |NotFound(path, e.items, 0, m.Keys)| == |e.items| - |m|
      && |Extras(path, a.items, 0, m.Values)| == |a.items| - |m|
  {
    var R := ZeroTable(path, e, a);
    var m := Pairing(path, e, a);
    GreedyIsMatching(R, 0, |e.items|, |a.items|, {});
    MatchingSizes(R, |e.items|, |a.items|, m);
    assert |m| == |m.Keys|;
    NotFoundCount(path, e.items, 0, m.Keys);
    ExtrasCount(path, a.items, 0, m.Values);
    assert From(m.Keys, 0) == m.Keys;
    assert From(m.Values, 0) == m.Values;
  }

  // ----- no difference, ignoring order -----

  ghost function PermTable(es: seq<Json>, bs: seq<Json>): (R: Relation)
    ensures IsTable(R, |es|, |bs|)
  {
    seq(|es|, i requires 0 <= i < |es| => seq(|bs|, j requires 0 <= j < |bs| => PermEq(es[i], bs[j])))
  }

  lemma SameTable(R: Relation, S: Relation, n: nat, size: nat)
    requires IsTable(R, n, size) && IsTable(S, n, size)
    requires forall i, j :: 0 <= i < n && 0 <= j < size ==> R[i][j] == S[i][j]
    ensures R == S
  {
    forall i | 0 <= i < n ensures R[i] == S[i] {
      assert forall j :: 0 <= j < size ==> R[i][j] == S[i][j];
    }
  }

  lemma PermTableIsRectangular(es: seq<Json>, bs: seq<Json>)
    ensures Rectangular(PermTable(es, bs))
  {
    var R := PermTable(es, bs);
    forall i: nat, i': nat, j: nat | ShareColumn(R, i, i', j) ensures R[i] == R[i'] {
      PermEqSymmetric(es[i], bs[j]);
      PermEqTransitive(es[i'], bs[j], es[i]);
      PermEqSymmetric(es[i'], es[i]);
      forall k | 0 <= k < |bs| ensures R[i][k] == R[i'][k] {
        if R[i][k] { PermEqTransitive(es[i'], es[i], bs[k]); }
        if R[i'][k] { PermEqTransitive(es[i], es[i'], bs[k]); }
      }
    }
  }

  /** With order ignored, nothing is reported exactly for values equal up to recursive
      permutation of arrays. */
  lemma {:induction false} UnorderedZeroIffPermEq(path: Path, e: Json, a: Json)
    ensures Diffs(true, path, e, a) == [] <==> PermEq(e, a)
    decreases e
  {
    if e.Array? && a.Array? {
      forall i, j | 0 <= i < |e.items| && 0 <= j < |a.items|
        ensures ZeroTable(path, e, a)[i][j] == PermTable(e.items, a.items)[i][j]
      {
        UnorderedZeroIffPermEq(path + [Index(i)], e.items[i], a.items[j]);
      }
      SameTable(ZeroTable(path, e, a), PermTable(e.items, a.items), |e.items|, |a.items|);
      ArrayZero(path, e, a);
    } else if e.Object? && a.Object? {
      forall k | k in e.fields && k in a.fields
        ensures Diffs(true, path + [Field(k)], e.fields[k], a.fields[k]) == [] <==> PermEq(e.fields[k], a.fields[k])
      {
        UnorderedZeroIffPermEq(path + [Field(k)], e.fields[k], a.fields[k]);
      }
      ObjectZero(true, path, e, a);
    }
  }

  lemma ArrayZero(path: Path, e: Json, a: Json)
    requires e.Array? && a.Array?
    requires ZeroTable(path, e, a) == PermTable(e.items, a.items)
    ensures Diffs(true, path, e, a) == [] <==> PermEq(e, a)
  {
    var R := PermTable(e.items, a.items);
    UnorderedCounts(path, e, a);
    if |e.items| == |a.items| {
      PermTableIsRectangular(e.items, a.items);
      GreedyPerfectIffPermutation(R, |e.items|);
      PairsIffPaired(e.items, a.items);
    }
  }

  lemma PairsIffPaired(es: seq<Json>, bs: seq<Json>)
    requires |es| == |bs|
    ensures (exists p :: Pairs(PermTable(es, bs), p, |es|)) <==> PermEq(Array(es), Array(bs))
  {
    var R := PermTable(es, bs);
    if p :| Pairs(R, p, |es|) {
      forall i | 0 <= i < |es| ensures PermEq(es[i], bs[p[i]]) { assert R[i][p[i]]; }
    }
    if PermEq(Array(es), Array(bs)) {
      var p :| IsPermutation(p, |es|) && forall i :: 0 <= i < |es| ==> PermEq(es[i], bs[p[i]]);
      assert Pairs(R, p, |es|);
    }
  }

  lemma ObjectZero(ignoreOrder: bool, path: Path, e: Json, a: Json)
    requires e.Object? && a.Object?
    ensures Diffs(ignoreOrder, path, e, a) == [] <==>
      && e.fields.Keys == a.fields.Keys
      && forall k :: k in e.fields ==>
           k in a.fields && Diffs(ignoreOrder, path + [Field(k)], e.fields[k], a.fields[k]) == []
  {
    var keys := SortedKeys(e.fields.Keys + a.fields.Keys);
    FieldsZero(ignoreOrder, path, e, a, keys);
    assert forall k :: k in keys <==> k in e.fields || k in a.fields;
    if Diffs(ignoreOrder, path, e, a) == [] {
      forall k ensures k in e.fields <==> k in a.fields {
        if k in e.fields || k in a.fields { assert k in keys; }
      }
    }
  }

  lemma {:induction false} FieldsZero(ignoreOrder: bool, path: Path, e: Json, a: Json, keys: seq<string>)
    requires e.Object? && a.Object?
    requires forall k :: k in keys ==> k in e.fields || k in a.fields
    ensures FieldDiffs(ignoreOrder, path, e, a, keys) == [] <==>
      forall k :: k in keys ==>
        k in e.fields && k in a.fields && Diffs(ignoreOrder, path + [Field(k)], e.fields[k], a.fields[k]) == []
    decreases |keys|
  {
    if keys != [] {
      FieldsZero(ignoreOrder, path, e, a, keys[1..]);
      assert forall k :: k in keys <==> k == keys[0] || k in keys[1..];
    }
  }

  // ----- no difference, in order -----

  lemma {:induction false} ItemsZero(path: Path, e: Json, a: Json, i: nat)
    requires e.Array? && a.Array? && |e.items| == |a.items|
    ensures ItemDiffs(path, e, a, i) == [] <==>
      forall x: nat :: i <= x < |e.items| ==> Diffs(false, path + [Index(x)], e.items[x], a.items[x]) == []
    decreases |e.items| - i
  {
    if i < |e.items| {
      ItemsZero(path, e, a, i + 1);
      NoneOfEither(Diffs(false, path + [Index(i)], e.items[i], a.items[i]), ItemDiffs(path, e, a, i + 1));
    }
  }

  lemma NoneOfEither(xs: seq<Difference>, ys: seq<Difference>)
    ensures xs + ys == [] <==> xs == [] && ys == []
  {
  }

  /** With order kept, nothing is reported exactly for equal values. */
  lemma {:induction false} OrderedZeroIffEqual(path: Path, e: Json, a: Json)
    ensures Diffs(false, path, e, a) == [] <==> e == a
    decreases e
  {
    if e.Array? && a.Array? {
      if |e.items| == |a.items| {
        ItemsZero(path, e, a, 0);
        forall x: nat | x < |e.items|
          ensures Diffs(false, path + [Index(x)], e.items[x], a.items[x]) == [] <==> e.items[x] == a.items[x]
        {
          OrderedZeroIffEqual(path + [Index(x)], e.items[x], a.items[x]);
        }
        if Diffs(false, path, e, a) == [] {
          assert forall x: nat :: x < |e.items| ==> e.items[x] == a.items[x];
          assert e.items == a.items;
        }
      }
    } else if e.Object? && a.Object? {
      ObjectZero(false, path, e, a);
      forall k | k in e.fields && k in a.fields
        ensures Diffs(false, path + [Field(k)], e.fields[k], a.fields[k]) == [] <==> e.fields[k] == a.fields[k]
      {
        OrderedZeroIffEqual(path + [Field(k)], e.fields[k], a.fields[k]);
      }
      if Diffs(false, path, e, a) == [] {
        assert e.fields == a.fields;
      }
    }
  }

  // ----- the greedy pairing is optimal -----

  lemma PairingTable(path: Path, e: Json, a: Json)
    requires e.Array? && a.Array?
    ensures ZeroTable(path, e, a) == PermTable(e.items, a.items)
  {
    forall i, j | 0 <= i < |e.items| && 0 <= j < |a.items|
      ensures ZeroTable(path, e, a)[i][j] == PermEq(e.items[i], a.items[j])
    {
      UnorderedZeroIffPermEq(path + [Index(i)], e.items[i], a.items[j]);
    }
    SameTable(ZeroTable(path, e, a), PermTable(e.items, a.items), |e.items|, |a.items|);
  }

  /** m pairs expected elements with actual elements they compare equal to, one to one. */
  ghost predicate IsElementMatching(es: seq<Json>, bs: seq<Json>, m: map<nat, nat>) {
    && (forall i :: i in m ==> i < |es| && m[i] < |bs| && PermEq(es[i], bs[m[i]]))
    && (forall i, j :: i in m && j in m && i != j ==> m[i] != m[j])
  }

  /** No pairing of equal elements could report fewer elements missing or extra. */
  lemma UnorderedReportIsMinimal(path: Path, e: Json, a: Json, rival: map<nat, nat>)
    requires e.Array? && a.Array?
    requires IsElementMatching(e.items, a.items, rival)
    ensures var m := Pairing(path, e, a);
      && IsElementMatching(e.items, a.items, m)
      && |rival| <= |m|
      && |NotFound(path, e.items, 0, m.Keys)| == |e.items| - |m| <= |e.items| - |rival|
      && |Extras(path, a.items, 0, m.Values)| == |a.items| - |m| <= |a.items| - |rival|
  {
    var R := PermTable(e.items, a.items);
    PairingTable(path, e, a);
    PermTableIsRectangular(e.items, a.items);
    assert IsMatching(R, 0, |e.items|, |a.items|, {}, rival) by {
      forall i | i in rival ensures R[i][rival[i]] { }
    }
    GreedyIsMaximum(R, |e.items|, |a.items|, rival);
    UnorderedCounts(path, e, a);
    var m := Pairing(path, e, a);
    forall i | i in m ensures PermEq(e.items[i], a.items[m[i]]) { assert R[i][m[i]]; }
  }

  /** The two counts do not change when either array is reordered. */
  lemma UnorderedReportIgnoresOrder(path: Path, e: Json, a: Json, p: seq<nat>, q: seq<nat>)
    requires e.Array? && a.Array?
    requires IsPermutation(p, |e.items|) && IsPermutation(q, |a.items|)
    ensures var m := Pairing(path, e, a);
      var e', a' := Array(Permuted(e.items, p)), Array(Permuted(a.items, q));
      var m' := Pairing(path, e', a');
      && |NotFound(path, e'.items, 0, m'.Keys)| == |NotFound(path, e.items, 0, m.Keys)|
      && |Extras(path, a'.items, 0, m'.Values)| == |Extras(path, a.items, 0, m.Values)|
  {
    var e', a' := Array(Permuted(e.items, p)), Array(Permuted(a.items, q));
    var R, S := PermTable(e.items, a.items), PermTable(e'.items, a'.items);
    PairingTable(path, e, a);
    PairingTable(path, e', a');
    PermTableIsRectangular(e.items, a.items);
    assert Reorders(R, S, |e.items|, |a.items|, p, q);
    GreedySizeIgnoresOrder(R, S, |e.items|, |a.items|, p, q);
    UnorderedCounts(path, e, a);
    UnorderedCounts(path, e', a');
  }
}
