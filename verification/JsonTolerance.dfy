/** What a report says of two values when some of its entries are tolerated: those in which two
    values differ as a whole, at certain paths and for certain values. */
module JsonTolerance {
  import opened KeyOrder
  import opened JsonDiff
  import opened JsonEquivalence

  type Tolerance = (Path, Json, Json) -> bool

  predicate Tolerated(tol: Tolerance, d: Difference) {
    (d.change.ValueDiffers? || d.change.TypeDiffers?) && tol(d.path, d.change.expected, d.change.actual)
  }

  ghost predicate AllTolerated(tol: Tolerance, ds: seq<Difference>) {
    forall d :: d in ds ==> Tolerated(tol, d)
  }

  /** Equal but for tolerated values; when order is ignored, the tolerance does not reach into
      arrays, which must be equal up to reordering. */
  ghost predicate Alike(ignoreOrder: bool, tol: Tolerance, path: Path, e: Json, a: Json)
    decreases e
  {
    if e.Array? && a.Array? then
      if ignoreOrder then PermEq(e, a)
      else
        && |e.items| == |a.items|
        && forall i: nat :: i < |e.items| ==> Alike(false, tol, path + [Index(i)], e.items[i], a.items[i])
    else if e.Object? && a.Object? then
      && e.fields.Keys == a.fields.Keys
      && forall k :: k in e.fields ==> Alike(ignoreOrder, tol, path + [Field(k)], e.fields[k], a.fields[k])
    else e == a || tol(path, e, a)
  }

  lemma BothTolerated(tol: Tolerance, xs: seq<Difference>, ys: seq<Difference>)
    ensures AllTolerated(tol, xs + ys) <==> AllTolerated(tol, xs) && AllTolerated(tol, ys)
  {
    if AllTolerated(tol, xs + ys) {
      forall d | d in xs || d in ys ensures Tolerated(tol, d) { assert d in xs + ys; }
    }
  }

  lemma OneTolerated(tol: Tolerance, d: Difference)
    ensures AllTolerated(tol, [d]) <==> Tolerated(tol, d)
  {
    assert d in [d];
  }

  /** Nothing about a field but a tolerated difference of its two values. */
  ghost predicate FieldTolerated(ignoreOrder: bool, tol: Tolerance, path: Path, e: Json, a: Json, k: string)
    requires e.Object? && a.Object?
  {
    && k in e.fields && k in a.fields
    && AllTolerated(tol, Diffs(ignoreOrder, path + [Field(k)], e.fields[k], a.fields[k]))
  }

  lemma {:induction false} FieldsTolerated(
    ignoreOrder: bool, tol: Tolerance, path: Path, e: Json, a: Json, keys: seq<string>)
    requires e.Object? && a.Object?
    requires forall k :: k in keys ==> k in e.fields || k in a.fields
    ensures AllTolerated(tol, FieldDiffs(ignoreOrder, path, e, a, keys))
      <==> forall k :: k in keys ==> FieldTolerated(ignoreOrder, tol, path, e, a, k)
    decreases |keys|
  {
    if keys != [] {
      var k, rest := keys[0], keys[1..];
      FieldsTolerated(ignoreOrder, tol, path, e, a, rest);
      var one := OneField(ignoreOrder, path, e, a, k);
      BothTolerated(tol, one, FieldDiffs(ignoreOrder, path, e, a, rest));
      assert AllTolerated(tol, one) <==> FieldTolerated(ignoreOrder, tol, path, e, a, k) by {
        if k !in a.fields || k !in e.fields { OneTolerated(tol, one[0]); }
      }
      assert forall x :: x in keys <==> x == k || x in rest;
    }
  }

  lemma {:induction false} ItemsTolerated(tol: Tolerance, path: Path, e: Json, a: Json, i: nat)
    requires e.Array? && a.Array? && |e.items| == |a.items|
    ensures AllTolerated(tol, ItemDiffs(path, e, a, i)) <==>
      forall x: nat :: i <= x < |e.items| ==>
        AllTolerated(tol, Diffs(false, path + [Index(x)], e.items[x], a.items[x]))
    decreases |e.items| - i
  {
    if i < |e.items| {
      ItemsTolerated(tol, path, e, a, i + 1);
      BothTolerated(tol, Diffs(false, path + [Index(i)], e.items[i], a.items[i]), ItemDiffs(path, e, a, i + 1));
    }
  }

  lemma {:induction false} NotFoundIsNotTolerated(
    tol: Tolerance, path: Path, items: seq<Json>, i: nat, paired: set<nat>)
    ensures AllTolerated(tol, NotFound(path, items, i, paired)) <==> NotFound(path, items, i, paired) == []
    decreases |items| - i
  {
    if i < |items| {
      NotFoundIsNotTolerated(tol, path, items, i + 1, paired);
      var d := Difference(path + [Index(i)], ElementNotFound(items[i]));
      OneTolerated(tol, d);
      BothTolerated(tol, if i in paired then [] else [d], NotFound(path, items, i + 1, paired));
    }
  }

  lemma {:induction false} ExtrasAreNotTolerated(
    tol: Tolerance, path: Path, items: seq<Json>, j: nat, used: set<nat>)
    ensures AllTolerated(tol, Extras(path, items, j, used)) <==> Extras(path, items, j, used) == []
    decreases |items| - j
  {
    if j < |items| {
      ExtrasAreNotTolerated(tol, path, items, j + 1, used);
      var d := Difference(path + [Extra], ExtraElement(items[j]));
      OneTolerated(tol, d);
      BothTolerated(tol, if j in used then [] else [d], Extras(path, items, j + 1, used));
    }
  }

  /** The report on two arrays whose order is ignored has no entry that could be tolerated. */
  lemma UnorderedIsNotTolerated(tol: Tolerance, path: Path, e: Json, a: Json)
    requires e.Array? && a.Array?
    ensures AllTolerated(tol, Diffs(true, path, e, a)) <==> PermEq(e, a)
  {
    var length, pairing := LengthDiffs(path, |e.items|, |a.items|), Pairing(path, e, a);
    var missing, extra := NotFound(path, e.items, 0, pairing.Keys), Extras(path, a.items, 0, pairing.Values);
    UnorderedZeroIffPermEq(path, e, a);
    BothTolerated(tol, length, UnorderedDiffs(path, e, a));
    BothTolerated(tol, missing, extra);
    NotFoundIsNotTolerated(tol, path, e.items, 0, pairing.Keys);
    ExtrasAreNotTolerated(tol, path, a.items, 0, pairing.Values);
    if length != [] { OneTolerated(tol, length[0]); }
  }

  lemma {:induction false} ObjectTolerated(ignoreOrder: bool, tol: Tolerance, path: Path, e: Json, a: Json)
    requires e.Object? && a.Object?
    ensures AllTolerated(tol, Diffs(ignoreOrder, path, e, a)) <==>
      && e.fields.Keys == a.fields.Keys
      && forall k :: k in e.fields ==> FieldTolerated(ignoreOrder, tol, path, e, a, k)
  {
    var keys := SortedKeys(e.fields.Keys + a.fields.Keys);
    FieldsTolerated(ignoreOrder, tol, path, e, a, keys);
    assert forall k :: k in keys <==> k in e.fields || k in a.fields;
    if AllTolerated(tol, Diffs(ignoreOrder, path, e, a)) {
      forall k ensures k in e.fields <==> k in a.fields {
        if k in e.fields || k in a.fields { assert FieldTolerated(ignoreOrder, tol, path, e, a, k); }
      }
    }
  }

  /** Everything reported is tolerated exactly when the two values are alike. */
  lemma {:induction false} ToleratedIffAlike(ignoreOrder: bool, tol: Tolerance, path: Path, e: Json, a: Json)
    ensures AllTolerated(tol, Diffs(ignoreOrder, path, e, a)) <==> Alike(ignoreOrder, tol, path, e, a)
    decreases e
  {
    if e.Array? && a.Array? {
      if ignoreOrder {
        UnorderedIsNotTolerated(tol, path, e, a);
      } else {
        BothTolerated(tol, LengthDiffs(path, |e.items|, |a.items|), ItemDiffs(path, e, a, 0));
        if |e.items| != |a.items| {
          OneTolerated(tol, LengthDiffs(path, |e.items|, |a.items|)[0]);
        } else {
          ItemsTolerated(tol, path, e, a, 0);
          forall i: nat | i < |e.items|
            ensures AllTolerated(tol, Diffs(false, path + [Index(i)], e.items[i], a.items[i]))
              <==> Alike(false, tol, path + [Index(i)], e.items[i], a.items[i])
          {
            ToleratedIffAlike(false, tol, path + [Index(i)], e.items[i], a.items[i]);
          }
        }
      }
    } else if e.Object? && a.Object? {
      ObjectTolerated(ignoreOrder, tol, path, e, a);
      forall k | k in e.fields && k in a.fields
        ensures FieldTolerated(ignoreOrder, tol, path, e, a, k)
          <==> Alike(ignoreOrder, tol, path + [Field(k)], e.fields[k], a.fields[k])
      {
        ToleratedIffAlike(ignoreOrder, tol, path + [Field(k)], e.fields[k], a.fields[k]);
      }
    } else if Diffs(ignoreOrder, path, e, a) != [] {
      OneTolerated(tol, Diffs(ignoreOrder, path, e, a)[0]);
    }
  }
}
