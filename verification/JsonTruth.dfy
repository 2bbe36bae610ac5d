/** Every reported difference is true of the two values, which are looked up by the steps of its
    path; and for arrays whose order is ignored, what is not reported has been paired. */
module JsonTruth {
  import opened Effects
  import opened KeyOrder
  import opened Matching
  import opened JsonDiff
  import opened JsonEquivalence

  /** The value that some steps lead to. */
  function At(v: Json, steps: Path): Option<Json> {
    if steps == [] then Some(v)
    else
      match steps[0]
      case Field(k) => if v.Object? && k in v.fields then At(v.fields[k], steps[1..]) else None
      case Index(i) => if v.Array? && i < |v.items| then At(v.items[i], steps[1..]) else None
      case Extra => None
  }

  /** What the change at these steps says of the values e and a. */
  ghost predicate IsTrue(e: Json, a: Json, steps: Path, change: Change) {
    match change
    case TypeDiffers(x, y) => At(e, steps) == Some(x) && At(a, steps) == Some(y) && !SameType(x, y)
    case ValueDiffers(x, y) => At(e, steps) == Some(x) && At(a, steps) == Some(y) && SameType(x, y) && x != y
    case FieldMissing(x) => At(e, steps) == Some(x) && At(a, steps) == None && IsField(steps)
    case ExtraField(y) => At(e, steps) == None && At(a, steps) == Some(y) && IsField(steps)
    case LengthDiffers(n, m) =>
      && n != m && IsArrayOf(At(e, steps), n) && IsArrayOf(At(a, steps), m)
    case ElementNotFound(x) => At(e, steps) == Some(x) && IsItem(steps)
    case ExtraElement(y) => IsExtra(steps) && HasItem(At(a, steps[..|steps| - 1]), y)
  }

  ghost predicate IsArrayOf(v: Option<Json>, n: nat) {
    v.Some? && v.value.Array? && |v.value.items| == n
  }

  ghost predicate HasItem(v: Option<Json>, y: Json) {
    v.Some? && v.value.Array? && y in v.value.items
  }

  predicate IsField(steps: Path) {
    steps != [] && steps[|steps| - 1].Field?
  }

  predicate IsItem(steps: Path) {
    steps != [] && steps[|steps| - 1].Index?
  }

  predicate IsExtra(steps: Path) {
    steps != [] && steps[|steps| - 1] == Extra
  }

  ghost predicate TrueBelow(path: Path, e: Json, a: Json, d: Difference) {
    path <= d.path && IsTrue(e, a, d.path[|path|..], d.change)
  }

  ghost predicate AllTrue(path: Path, e: Json, a: Json, ds: seq<Difference>) {
    forall d :: d in ds ==> TrueBelow(path, e, a, d)
  }

  /** The values that e and a have at the same field or index. */
  ghost predicate Inside(e: Json, a: Json, step: Step, x: Json, y: Json) {
    At(e, [step]) == Some(x) && At(a, [step]) == Some(y)
  }

  lemma AtStep(v: Json, step: Step, x: Json, steps: Path)
    requires At(v, [step]) == Some(x)
    ensures At(v, [step] + steps) == At(x, steps)
  {
    assert ([step] + steps)[1..] == steps;
  }

  lemma TrueInside(e: Json, a: Json, step: Step, x: Json, y: Json, steps: Path, change: Change)
    requires Inside(e, a, step, x, y) && IsTrue(x, y, steps, change)
    ensures IsTrue(e, a, [step] + steps, change)
  {
    AtStep(e, step, x, steps);
    AtStep(a, step, y, steps);
    if change.ExtraElement? {
      AtStep(a, step, y, steps[..|steps| - 1]);
      assert ([step] + steps)[..|steps|] == [step] + steps[..|steps| - 1];
    }
  }

  lemma AllTrueInside(path: Path, e: Json, a: Json, step: Step, x: Json, y: Json, ds: seq<Difference>)
    requires Inside(e, a, step, x, y) && AllTrue(path + [step], x, y, ds)
    ensures AllTrue(path, e, a, ds)
  {
    forall d | d in ds ensures TrueBelow(path, e, a, d) {
      assert TrueBelow(path + [step], x, y, d);
      assert d.path[|path|..] == [step] + d.path[|path| + 1..];
      TrueInside(e, a, step, x, y, d.path[|path| + 1..], d.change);
    }
  }

  lemma AllTrueBoth(path: Path, e: Json, a: Json, xs: seq<Difference>, ys: seq<Difference>)
    requires AllTrue(path, e, a, xs) && AllTrue(path, e, a, ys)
    ensures AllTrue(path, e, a, xs + ys)
  {
  }

  lemma OneTrue(path: Path, e: Json, a: Json, steps: Path, change: Change)
    requires IsTrue(e, a, steps, change)
    ensures AllTrue(path, e, a, [Difference(path + steps, change)])
  {
    assert (path + steps)[|path|..] == steps;
  }

  lemma {:induction false} FieldsTrue(ignoreOrder: bool, path: Path, e: Json, a: Json, keys: seq<string>)
    requires e.Object? && a.Object?
    requires forall k :: k in keys ==> k in e.fields || k in a.fields
    ensures AllTrue(path, e, a, FieldDiffs(ignoreOrder, path, e, a, keys))
    decreases e, 0, |keys| + 1
  {
    if keys != [] {
      var k := keys[0];
      assert k in keys;
      FieldTrue(ignoreOrder, path, e, a, k);
      FieldsTrue(ignoreOrder, path, e, a, keys[1..]);
      AllTrueBoth(path, e, a, OneField(ignoreOrder, path, e, a, k), FieldDiffs(ignoreOrder, path, e, a, keys[1..]));
    }
  }

  lemma {:induction false} FieldTrue(ignoreOrder: bool, path: Path, e: Json, a: Json, k: string)
    requires e.Object? && a.Object? && (k in e.fields || k in a.fields)
    ensures AllTrue(path, e, a, OneField(ignoreOrder, path, e, a, k))
    decreases e, 0, 0
  {
    if k !in a.fields {
      OneTrue(path, e, a, [Field(k)], FieldMissing(e.fields[k]));
    } else if k !in e.fields {
      OneTrue(path, e, a, [Field(k)], ExtraField(a.fields[k]));
    } else {
      DiffsAreTrue(ignoreOrder, path + [Field(k)], e.fields[k], a.fields[k]);
      AllTrueInside(path, e, a, Field(k), e.fields[k], a.fields[k], OneField(ignoreOrder, path, e, a, k));
    }
  }

  lemma {:induction false} ItemsTrue(path: Path, e: Json, a: Json, i: nat)
    requires e.Array? && a.Array?
    ensures AllTrue(path, e, a, ItemDiffs(path, e, a, i))
    decreases e, 0, |e.items| - i
  {
    if i < |e.items| && i < |a.items| {
      DiffsAreTrue(false, path + [Index(i)], e.items[i], a.items[i]);
      var item := Diffs(false, path + [Index(i)], e.items[i], a.items[i]);
      AllTrueInside(path, e, a, Index(i), e.items[i], a.items[i], item);
      ItemsTrue(path, e, a, i + 1);
      AllTrueBoth(path, e, a, item, ItemDiffs(path, e, a, i + 1));
    }
  }

  lemma {:induction false} NotFoundTrue(path: Path, e: Json, a: Json, i: nat, paired: set<nat>)
    requires e.Array? && a.Array?
    ensures AllTrue(path, e, a, NotFound(path, e.items, i, paired))
    decreases |e.items| - i
  {
    if i < |e.items| {
      NotFoundTrue(path, e, a, i + 1, paired);
      OneTrue(path, e, a, [Index(i)], ElementNotFound(e.items[i]));
      AllTrueBoth(path, e, a, if i in paired then [] else [Difference(path + [Index(i)], ElementNotFound(e.items[i]))],
        NotFound(path, e.items, i + 1, paired));
    }
  }

  lemma {:induction false} ExtrasTrue(path: Path, e: Json, a: Json, j: nat, used: set<nat>)
    requires e.Array? && a.Array?
    ensures AllTrue(path, e, a, Extras(path, a.items, j, used))
    decreases |a.items| - j
  {
    if j < |a.items| {
      ExtrasTrue(path, e, a, j + 1, used);
      assert [Extra][..0] == [];
      OneTrue(path, e, a, [Extra], ExtraElement(a.items[j]));
      AllTrueBoth(path, e, a, if j in used then [] else [Difference(path + [Extra], ExtraElement(a.items[j]))],
        Extras(path, a.items, j + 1, used));
    }
  }

  /** Whatever is reported: the values it names are those of e and a at its path, or are missing
      there, and the lengths are those of the arrays there. */
  lemma {:induction false} DiffsAreTrue(ignoreOrder: bool, path: Path, e: Json, a: Json)
    ensures AllTrue(path, e, a, Diffs(ignoreOrder, path, e, a))
    decreases e, 2
  {
    if !SameType(e, a) {
      assert path + [] == path;
      OneTrue(path, e, a, [], TypeDiffers(e, a));
    } else if e.Object? {
      FieldsTrue(ignoreOrder, path, e, a, SortedKeys(e.fields.Keys + a.fields.Keys));
    } else if e.Array? {
      assert path + [] == path;
      if |e.items| != |a.items| { OneTrue(path, e, a, [], LengthDiffers(|e.items|, |a.items|)); }
      if ignoreOrder {
        var m := Pairing(path, e, a);
        NotFoundTrue(path, e, a, 0, m.Keys);
        ExtrasTrue(path, e, a, 0, m.Values);
        AllTrueBoth(path, e, a, NotFound(path, e.items, 0, m.Keys), Extras(path, a.items, 0, m.Values));
        AllTrueBoth(path, e, a, LengthDiffs(path, |e.items|, |a.items|), UnorderedDiffs(path, e, a));
      } else {
        ItemsTrue(path, e, a, 0);
        AllTrueBoth(path, e, a, LengthDiffs(path, |e.items|, |a.items|), ItemDiffs(path, e, a, 0));
      }
    } else if e != a {
      assert path + [] == path;
      OneTrue(path, e, a, [], ValueDiffers(e, a));
    }
  }

  // ----- what is paired is not reported -----

  /** The values reported as not found, and as extra, in the order of the report. */
  function Missing(ds: seq<Difference>): seq<Json> {
    if ds == [] then []
    else if ds[0].change.ElementNotFound? then [ds[0].change.expected] + Missing(ds[1..])
    else Missing(ds[1..])
  }

  function Superfluous(ds: seq<Difference>): seq<Json> {
    if ds == [] then []
    else if ds[0].change.ExtraElement? then [ds[0].change.actual] + Superfluous(ds[1..])
    else Superfluous(ds[1..])
  }

  lemma {:induction false} MissingSplit(xs: seq<Difference>, ys: seq<Difference>)
    ensures Missing(xs + ys) == Missing(xs) + Missing(ys)
    ensures Superfluous(xs + ys) == Superfluous(xs) + Superfluous(ys)
    decreases |xs|
  {
    if xs == [] {
      assert xs + ys == ys;
    } else {
      assert (xs + ys)[0] == xs[0] && (xs + ys)[1..] == xs[1..] + ys;
      MissingSplit(xs[1..], ys);
    }
  }

  /** The items from i on whose index is not in a set. */
  function Others(items: seq<Json>, i: nat, indices: set<nat>): seq<Json>
    decreases |items| - i
  {
    if i >= |items| then []
    else if i in indices then Others(items, i + 1, indices)
    else [items[i]] + Others(items, i + 1, indices)
  }

  lemma {:induction false} NotFoundIsOthers(path: Path, items: seq<Json>, i: nat, paired: set<nat>)
    ensures Missing(NotFound(path, items, i, paired)) == Others(items, i, paired)
    ensures Superfluous(NotFound(path, items, i, paired)) == []
    decreases |items| - i
  {
    if i < |items| {
      NotFoundIsOthers(path, items, i + 1, paired);
      var d := Difference(path + [Index(i)], ElementNotFound(items[i]));
      MissingSplit(if i in paired then [] else [d], NotFound(path, items, i + 1, paired));
      assert [d][1..] == [];
    }
  }

  lemma {:induction false} ExtrasAreOthers(path: Path, items: seq<Json>, j: nat, used: set<nat>)
    ensures Superfluous(Extras(path, items, j, used)) == Others(items, j, used)
    ensures Missing(Extras(path, items, j, used)) == []
    decreases |items| - j
  {
    if j < |items| {
      ExtrasAreOthers(path, items, j + 1, used);
      var d := Difference(path + [Extra], ExtraElement(items[j]));
      MissingSplit(if j in used then [] else [d], Extras(path, items, j + 1, used));
      assert [d][1..] == [];
    }
  }

  lemma {:induction false} OthersOfNone(items: seq<Json>, i: nat)
    requires i <= |items|
    ensures Others(items, i, {}) == items[i..]
    decreases |items| - i
  {
    if i < |items| {
      OthersOfNone(items, i + 1);
      assert items[i..] == [items[i]] + items[i + 1..];
    }
  }

  lemma {:induction false} OthersLocal(items: seq<Json>, i: nat, indices: set<nat>, k: nat)
    requires k < i
    ensures Others(items, i, indices + {k}) == Others(items, i, indices)
    decreases |items| - i
  {
    if i < |items| { OthersLocal(items, i + 1, indices, k); }
  }

  /** One more index leaves out one more item. */
  lemma {:induction false} OthersLoseOne(items: seq<Json>, i: nat, indices: set<nat>, more: set<nat>, k: nat)
    returns (p: seq<Json>, q: seq<Json>)
    requires i <= k < |items| && k !in indices && more == indices + {k}
    ensures Others(items, i, indices) == p + [items[k]] + q && Others(items, i, more) == p + q
    decreases |items| - i
  {
    if i == k {
      OthersLocal(items, i + 1, indices, k);
      p, q := [], Others(items, i + 1, indices);
    } else {
      p, q := OthersLoseOne(items, i + 1, indices, more, k);
      if i !in indices {
        assert [items[i]] + (p + [items[k]] + q) == [items[i]] + p + [items[k]] + q;
        assert [items[i]] + (p + q) == [items[i]] + p + q;
        p := [items[i]] + p;
      }
    }
  }

  /** The items on either side of the pairs whose left index is below n. */
  function Lefts(items: seq<Json>, m: map<nat, nat>, n: nat): seq<Json>
    requires forall i :: i in m ==> i < |items|
  {
    if n == 0 then [] else if n - 1 in m then Lefts(items, m, n - 1) + [items[n - 1]] else Lefts(items, m, n - 1)
  }

  function Rights(items: seq<Json>, m: map<nat, nat>, n: nat): seq<Json>
    requires forall i :: i in m ==> m[i] < |items|
  {
    if n == 0 then [] else if n - 1 in m then Rights(items, m, n - 1) + [items[m[n - 1]]] else Rights(items, m, n - 1)
  }

  ghost function LeftIndices(m: map<nat, nat>, n: nat): set<nat> {
    set i | i in m && i < n
  }

  ghost function RightIndices(m: map<nat, nat>, n: nat): set<nat> {
    set i | i in m && i < n :: m[i]
  }

  lemma MovedOne(items: seq<Json>, p: seq<Json>, q: seq<Json>, own: seq<Json>, x: Json)
    requires multiset(items) == multiset(p + [x] + q) + multiset(own)
    ensures multiset(items) == multiset(p + q) + multiset(own + [x])
  {
  }

  lemma {:induction false} LeftsAndOthers(items: seq<Json>, m: map<nat, nat>, n: nat)
    requires forall i :: i in m ==> i < |items|
    ensures multiset(items) == multiset(Others(items, 0, LeftIndices(m, n))) + multiset(Lefts(items, m, n))
    decreases n
  {
    if n == 0 {
      OthersOfNone(items, 0);
      assert LeftIndices(m, 0) == {} && items[0..] == items;
    } else {
      LeftsAndOthers(items, m, n - 1);
      var before, after := LeftIndices(m, n - 1), LeftIndices(m, n);
      if n - 1 in m {
        assert after == before + {n - 1};
        OneMoreOut(items, before, n - 1, Lefts(items, m, n - 1));
      } else {
        assert after == before;
      }
    }
  }

  lemma {:induction false} RightsAndOthers(items: seq<Json>, m: map<nat, nat>, n: nat)
    requires forall i :: i in m ==> m[i] < |items|
    requires forall i, j :: i in m && j in m && i != j ==> m[i] != m[j]
    ensures multiset(items) == multiset(Others(items, 0, RightIndices(m, n))) + multiset(Rights(items, m, n))
    decreases n
  {
    if n == 0 {
      OthersOfNone(items, 0);
      assert RightIndices(m, 0) == {} && items[0..] == items;
    } else {
      RightsAndOthers(items, m, n - 1);
      var before, after := RightIndices(m, n - 1), RightIndices(m, n);
      if n - 1 in m {
        assert after == before + {m[n - 1]};
        OneMoreOut(items, before, m[n - 1], Rights(items, m, n - 1));
      } else {
        assert after == before;
      }
    }
  }

  lemma OneMoreOut(items: seq<Json>, indices: set<nat>, k: nat, own: seq<Json>)
    requires k < |items| && k !in indices
    requires multiset(items) == multiset(Others(items, 0, indices)) + multiset(own)
    ensures multiset(items) == multiset(Others(items, 0, indices + {k})) + multiset(own + [items[k]])
  {
    var p, q := OthersLoseOne(items, 0, indices, indices + {k}, k);
    MovedOne(items, p, q, own, items[k]);
  }

  lemma {:induction false} PairsAreEqual(es: seq<Json>, bs: seq<Json>, m: map<nat, nat>, n: nat)
    requires IsElementMatching(es, bs, m)
    ensures |Lefts(es, m, n)| == |Rights(bs, m, n)|
    ensures forall p :: 0 <= p < |Lefts(es, m, n)| ==> PermEq(Lefts(es, m, n)[p], Rights(bs, m, n)[p])
    decreases n
  {
    if n > 0 { PairsAreEqual(es, bs, m, n - 1); }
  }

  /** For two arrays whose order is ignored, the expected elements are those reported as not
      found and the ones on the left of some pairs of equals, and the actual elements are those
      reported as extra and the ones on the right. */
  lemma UnreportedIsPaired(path: Path, e: Json, a: Json) returns (lefts: seq<Json>, rights: seq<Json>)
    requires e.Array? && a.Array?
    ensures |lefts| == |rights| && forall p :: 0 <= p < |lefts| ==> PermEq(lefts[p], rights[p])
    ensures multiset(e.items) == multiset(Missing(Diffs(true, path, e, a))) + multiset(lefts)
    ensures multiset(a.items) == multiset(Superfluous(Diffs(true, path, e, a))) + multiset(rights)
  {
    var m, n := Pairing(path, e, a), |e.items|;
    UnorderedReportIsMinimal(path, e, a, map[]);
    lefts, rights := Lefts(e.items, m, n), Rights(a.items, m, n);
    PairsAreEqual(e.items, a.items, m, n);
    LeftsAndOthers(e.items, m, n);
    RightsAndOthers(a.items, m, n);
    assert LeftIndices(m, n) == m.Keys && RightIndices(m, n) == m.Values;
    ReportedValues(path, e, a);
  }

  lemma ReportedValues(path: Path, e: Json, a: Json)
    requires e.Array? && a.Array?
    ensures Missing(Diffs(true, path, e, a)) == Others(e.items, 0, Pairing(path, e, a).Keys)
    ensures Superfluous(Diffs(true, path, e, a)) == Others(a.items, 0, Pairing(path, e, a).Values)
  {
    var m := Pairing(path, e, a);
    var missing, extra := NotFound(path, e.items, 0, m.Keys), Extras(path, a.items, 0, m.Values);
    NotFoundIsOthers(path, e.items, 0, m.Keys);
    ExtrasAreOthers(path, a.items, 0, m.Values);
    MissingSplit(missing, extra);
    MissingSplit(LengthDiffs(path, |e.items|, |a.items|), missing + extra);
  }

  // ----- the order of the report -----

  /** All entries lie at fields of the object at this path, which are among the keys. */
  ghost predicate AtFields(path: Path, keys: seq<string>, ds: seq<Difference>) {
    forall d :: d in ds ==> |path| < |d.path| && d.path[|path|].Field? && d.path[|path|].name in keys
  }

  ghost predicate InNameOrder(path: Path, ds: seq<Difference>) {
    forall p, q :: 0 <= p < q < |ds| ==>
      && |path| < |ds[p].path| && ds[p].path[|path|].Field?
      && |path| < |ds[q].path| && ds[q].path[|path|].Field?
      && (ds[p].path[|path|].name == ds[q].path[|path|].name
          || Less(ds[p].path[|path|].name, ds[q].path[|path|].name))
  }

  lemma OneFieldAt(ignoreOrder: bool, path: Path, e: Json, a: Json, k: string)
    requires e.Object? && a.Object? && (k in e.fields || k in a.fields)
    ensures AtFields(path, [k], OneField(ignoreOrder, path, e, a, k))
  {
    if k in e.fields && k in a.fields {
      DiffsAreTrue(ignoreOrder, path + [Field(k)], e.fields[k], a.fields[k]);
      forall d | d in OneField(ignoreOrder, path, e, a, k) ensures |path| < |d.path| && d.path[|path|] == Field(k) {
        assert TrueBelow(path + [Field(k)], e.fields[k], a.fields[k], d);
        assert d.path[|path|] == (path + [Field(k)])[|path|];
      }
    }
  }

  lemma {:induction false} FieldsInOrder(ignoreOrder: bool, path: Path, e: Json, a: Json, keys: seq<string>)
    requires e.Object? && a.Object? && Sorted(keys)
    requires forall k :: k in keys ==> k in e.fields || k in a.fields
    ensures AtFields(path, keys, FieldDiffs(ignoreOrder, path, e, a, keys))
    ensures InNameOrder(path, FieldDiffs(ignoreOrder, path, e, a, keys))
    decreases |keys|
  {
    if keys != [] {
      var k, rest := keys[0], keys[1..];
      assert k in keys;
      var xs, ys := OneField(ignoreOrder, path, e, a, k), FieldDiffs(ignoreOrder, path, e, a, rest);
      OneFieldAt(ignoreOrder, path, e, a, k);
      FieldsInOrder(ignoreOrder, path, e, a, rest);
      assert FieldDiffs(ignoreOrder, path, e, a, keys) == xs + ys;
      JoinInOrder(path, k, rest, xs, ys);
      forall d: Difference | d in xs + ys
        ensures |path| < |d.path| && d.path[|path|].Field? && d.path[|path|].name in keys
      {
        if d in xs { assert d.path[|path|].name in [k]; }
      }
    }
  }

  lemma JoinInOrder(path: Path, k: string, rest: seq<string>, xs: seq<Difference>, ys: seq<Difference>)
    requires Sorted([k] + rest) && AtFields(path, [k], xs) && AtFields(path, rest, ys) && InNameOrder(path, ys)
    ensures InNameOrder(path, xs + ys)
  {
    var ds := xs + ys;
    forall name | name in rest ensures Less(k, name) {
      var i :| 0 <= i < |rest| && rest[i] == name;
      assert ([k] + rest)[0] == k && ([k] + rest)[i + 1] == name;
    }
    forall p, q | 0 <= p < q < |ds|
      ensures |path| < |ds[p].path| && ds[p].path[|path|].Field?
      ensures |path| < |ds[q].path| && ds[q].path[|path|].Field?
      ensures ds[p].path[|path|].name == ds[q].path[|path|].name
        || Less(ds[p].path[|path|].name, ds[q].path[|path|].name)
    {
      if p < |xs| {
        assert ds[p] in xs;
        if q < |xs| { assert ds[q] in xs; } else { assert ds[q] in ys; }
      } else {
        assert ds[p] == ys[p - |xs|] && ds[q] == ys[q - |xs|];
      }
    }
  }

  /** The differences of two objects come in the order of their field names. */
  lemma ObjectReportIsOrdered(ignoreOrder: bool, path: Path, e: Json, a: Json)
    requires e.Object? && a.Object?
    ensures InNameOrder(path, Diffs(ignoreOrder, path, e, a))
  {
    FieldsInOrder(ignoreOrder, path, e, a, SortedKeys(e.fields.Keys + a.fields.Keys));
  }

  ghost predicate InIndexOrder(path: Path, i: nat, ds: seq<Difference>) {
    && (forall p :: 0 <= p < |ds| ==> |path| < |ds[p].path| && ds[p].path[|path|].Index? && i <= ds[p].path[|path|].i)
    && (forall p, q :: 0 <= p < q < |ds| && ds[p].path[|path|].Index? && ds[q].path[|path|].Index? ==>
          ds[p].path[|path|].i <= ds[q].path[|path|].i)
  }

  lemma {:induction false} ItemsInOrder(path: Path, e: Json, a: Json, i: nat)
    requires e.Array? && a.Array?
    ensures forall d :: d in ItemDiffs(path, e, a, i) ==> |path| < |d.path|
    ensures InIndexOrder(path, i, ItemDiffs(path, e, a, i))
    decreases |e.items| - i
  {
    if i < |e.items| && i < |a.items| {
      var xs, ys := Diffs(false, path + [Index(i)], e.items[i], a.items[i]), ItemDiffs(path, e, a, i + 1);
      DiffsAreTrue(false, path + [Index(i)], e.items[i], a.items[i]);
      ItemsInOrder(path, e, a, i + 1);
      forall p | 0 <= p < |xs| ensures |path| < |xs[p].path| && xs[p].path[|path|] == Index(i) {
        assert TrueBelow(path + [Index(i)], e.items[i], a.items[i], xs[p]);
        assert xs[p].path[|path|] == (path + [Index(i)])[|path|];
      }
      var ds := xs + ys;
      assert forall p :: 0 <= p < |ds| ==> ds[p] == if p < |xs| then xs[p] else ys[p - |xs|];
    }
  }

  /** Those of two arrays come after the one about their length, in the order of the indices. */
  lemma ArrayReportIsOrdered(path: Path, e: Json, a: Json)
    requires e.Array? && a.Array?
    ensures var ds := Diffs(false, path, e, a);
      if |e.items| == |a.items| then InIndexOrder(path, 0, ds)
      else ds != [] && ds[0] == Difference(path, LengthDiffers(|e.items|, |a.items|)) && InIndexOrder(path, 0, ds[1..])
  {
    ItemsInOrder(path, e, a, 0);
    var items := ItemDiffs(path, e, a, 0);
    assert [] + items == items;
    if |e.items| != |a.items| {
      assert Diffs(false, path, e, a)[1..] == items;
    }
  }
}
