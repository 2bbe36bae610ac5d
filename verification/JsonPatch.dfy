/** The ordered report read as a patch: applying it to the expected value gives the actual
    value, exactly when arrays at corresponding positions have equal length. */
module JsonPatch {
  import opened KeyOrder
  import opened JsonDiff
  import opened JsonEquivalence

  // ----- applying a reported difference -----

  ghost function Put(v: Json, steps: Path, c: Change): Json
    decreases |steps|
  {
    if steps == [] then
      if c.TypeDiffers? || c.ValueDiffers? then c.actual else v
    else match steps[0]
      case Field(k) =>
        if !v.Object? then v
        else if |steps| == 1 && c.FieldMissing? then Object(v.fields - {k})
        else if |steps| == 1 && c.ExtraField? then Object(v.fields[k := c.actual])
        else if k in v.fields then Object(v.fields[k := Put(v.fields[k], steps[1..], c)])
        else v
      case Index(i) =>
        if v.Array? && i < |v.items| then Array(v.items[i := Put(v.items[i], steps[1..], c)]) else v
      case Extra => v
  }

  /** Applies the differences in order to the part of the document below their common path. */
  ghost function PutAll(v: Json, depth: nat, ds: seq<Difference>): Json
    requires forall d :: d in ds ==> depth <= |d.path|
    decreases |ds|
  {
    if ds == [] then v else PutAll(Put(v, ds[0].path[depth..], ds[0].change), depth, ds[1..])
  }

  lemma {:induction false} PutAllAppend(v: Json, depth: nat, xs: seq<Difference>, ys: seq<Difference>)
    requires forall d :: d in xs || d in ys ==> depth <= |d.path|
    ensures forall d :: d in xs + ys ==> depth <= |d.path|
    ensures PutAll(v, depth, xs + ys) == PutAll(PutAll(v, depth, xs), depth, ys)
    decreases |xs|
  {
    if xs == [] {
      assert xs + ys == ys;
    } else {
      assert (xs + ys)[0] == xs[0] && (xs + ys)[1..] == xs[1..] + ys;
      PutAllAppend(Put(v, xs[0].path[depth..], xs[0].change), depth, xs[1..], ys);
    }
  }

  // ----- where reported paths lie -----

  /** The differences lie below path, and those at path itself change a value in place. */
  ghost predicate Below(path: Path, ds: seq<Difference>) {
    forall d :: d in ds ==>
      path <= d.path && (d.path == path ==> d.change.TypeDiffers? || d.change.ValueDiffers? || d.change.LengthDiffers?)
  }

  lemma {:induction false} DiffsBelow(path: Path, e: Json, a: Json)
    ensures Below(path, Diffs(false, path, e, a))
    decreases e, 1
  {
    if e.Object? && a.Object? {
      FieldsBelow(path, e, a, SortedKeys(e.fields.Keys + a.fields.Keys));
    } else if e.Array? && a.Array? {
      ItemsBelow(path, e, a, 0);
    }
  }

  lemma {:induction false} OneFieldBelow(path: Path, e: Json, a: Json, k: string)
    requires e.Object? && a.Object? && (k in e.fields || k in a.fields)
    ensures forall d :: d in OneField(false, path, e, a, k) ==> path + [Field(k)] <= d.path
    ensures k in e.fields && k in a.fields ==> Below(path + [Field(k)], OneField(false, path, e, a, k))
    decreases e, 0, 0
  {
    if k in e.fields && k in a.fields {
      DiffsBelow(path + [Field(k)], e.fields[k], a.fields[k]);
    }
  }

  lemma {:induction false} FieldsBelow(path: Path, e: Json, a: Json, keys: seq<string>)
    requires e.Object? && a.Object?
    requires forall k :: k in keys ==> k in e.fields || k in a.fields
    ensures Below(path, FieldDiffs(false, path, e, a, keys))
    ensures forall d :: d in FieldDiffs(false, path, e, a, keys) ==>
      |path| < |d.path| && d.path[|path|].Field? && d.path[|path|].name in keys
    decreases e, 0, |keys| + 1
  {
    if keys != [] {
      assert keys[0] in keys;
      OneFieldBelow(path, e, a, keys[0]);
      FieldsBelow(path, e, a, keys[1..]);
      forall d | d in OneField(false, path, e, a, keys[0])
        ensures path <= d.path && |path| < |d.path| && d.path[|path|] == Field(keys[0])
      {
        assert d.path[|path|] == (path + [Field(keys[0])])[|path|];
      }
    }
  }

  lemma {:induction false} ItemsBelow(path: Path, e: Json, a: Json, i: nat)
    requires e.Array? && a.Array?
    ensures Below(path, ItemDiffs(path, e, a, i))
    ensures forall d :: d in ItemDiffs(path, e, a, i) ==>
      |path| < |d.path| && d.path[|path|].Index? && i <= d.path[|path|].i
    decreases e, 0, |e.items| - i
  {
    if i < |e.items| && i < |a.items| {
      DiffsBelow(path + [Index(i)], e.items[i], a.items[i]);
      ItemsBelow(path, e, a, i + 1);
      forall d | d in Diffs(false, path + [Index(i)], e.items[i], a.items[i])
        ensures path <= d.path && |path| < |d.path| && d.path[|path|] == Index(i)
      {
        assert d.path[|path|] == (path + [Index(i)])[|path|];
      }
    }
  }

  // ----- differences below one field or item change nothing else -----

  lemma {:induction false} FieldFocus(m: map<string, Json>, path: Path, k: string, ds: seq<Difference>)
    requires k in m && Below(path + [Field(k)], ds)
    ensures PutAll(Object(m), |path|, ds) == Object(m[k := PutAll(m[k], |path| + 1, ds)])
    decreases |ds|
  {
    if ds != [] {
      var d := ds[0];
      assert d in ds;
      var steps := d.path[|path|..];
      assert d.path[|path|] == (path + [Field(k)])[|path|] == Field(k);
      assert steps[1..] == d.path[|path| + 1..];
      var v := Put(m[k], steps[1..], d.change);
      assert |steps| == 1 ==> d.path == path + [Field(k)];
      assert Put(Object(m), steps, d.change) == Object(m[k := v]);
      FieldFocus(m[k := v], path, k, ds[1..]);
      assert m[k := v][k := PutAll(v, |path| + 1, ds[1..])] == m[k := PutAll(v, |path| + 1, ds[1..])];
    } else {
      assert m[k := m[k]] == m;
    }
  }

  lemma {:induction false} ItemFocus(items: seq<Json>, path: Path, i: nat, ds: seq<Difference>)
    requires i < |items| && Below(path + [Index(i)], ds)
    ensures PutAll(Array(items), |path|, ds) == Array(items[i := PutAll(items[i], |path| + 1, ds)])
    decreases |ds|
  {
    if ds != [] {
      var d := ds[0];
      assert d in ds;
      var steps := d.path[|path|..];
      assert d.path[|path|] == (path + [Index(i)])[|path|] == Index(i);
      assert steps[1..] == d.path[|path| + 1..];
      var v := Put(items[i], steps[1..], d.change);
      ItemFocus(items[i := v], path, i, ds[1..]);
      assert items[i := v][i := PutAll(v, |path| + 1, ds[1..])] == items[i := PutAll(v, |path| + 1, ds[1..])];
    } else {
      assert items[i := items[i]] == items;
    }
  }

  // ----- the patched value in closed form -----

  /** The actual value, but with the array lengths of the expected one. */
  ghost function Merge(e: Json, a: Json): Json
    decreases e
  {
    if e.Object? && a.Object? then
      Object(map k | k in a.fields :: if k in e.fields then Merge(e.fields[k], a.fields[k]) else a.fields[k])
    else if e.Array? && a.Array? then
      Array(seq(|e.items|, i requires 0 <= i < |e.items| =>
        if i < |a.items| then Merge(e.items[i], a.items[i]) else e.items[i]))
    else a
  }

  ghost predicate Aligned(e: Json, a: Json)
    decreases e
  {
    if e.Object? && a.Object? then
      forall k :: k in e.fields && k in a.fields ==> Aligned(e.fields[k], a.fields[k])
    else if e.Array? && a.Array? then
      |e.items| == |a.items| && forall i :: 0 <= i < |e.items| ==> Aligned(e.items[i], a.items[i])
    else true
  }

  lemma {:induction false} PatchIsMerge(path: Path, e: Json, a: Json)
    ensures Below(path, Diffs(false, path, e, a))
    ensures PutAll(e, |path|, Diffs(false, path, e, a)) == Merge(e, a)
    decreases e, 1
  {
    DiffsBelow(path, e, a);
    if e.Object? && a.Object? {
      var keys := SortedKeys(e.fields.Keys + a.fields.Keys);
      SortedIsDistinct(keys);
      FieldsBelow(path, e, a, keys);
      PatchFields(path, e, a, keys, e.fields);
      MergedAll(e, a, keys);
    } else if e.Array? && a.Array? {
      PatchArray(path, e, a);
    } else if Diffs(false, path, e, a) != [] {
      var d := Diffs(false, path, e, a)[0];
      assert d.path[|path|..] == [];
      assert PutAll(a, |path|, Diffs(false, path, e, a)[1..]) == a;
    }
  }

  lemma {:induction false} PatchArray(path: Path, e: Json, a: Json)
    requires e.Array? && a.Array?
    requires Below(path, Diffs(false, path, e, a))
    ensures PutAll(e, |path|, Diffs(false, path, e, a)) == Merge(e, a)
    decreases e, 0, |e.items| + 1
  {
    ItemsBelow(path, e, a, 0);
    var ld := LengthDiffs(path, |e.items|, |a.items|);
    LengthIsNotPatched(path, e, ld);
    PutAllAppend(e, |path|, ld, ItemDiffs(path, e, a, 0));
    PatchItems(path, e, a, 0, e.items);
    assert Array(e.items) == e;
    assert Array(MergedItems(e, a, 0, e.items)) == Merge(e, a) by { AllItemsMerged(e, a); }
  }

  lemma AllItemsMerged(e: Json, a: Json)
    requires e.Array? && a.Array?
    ensures MergedItems(e, a, 0, e.items) == Merge(e, a).items
  {
  }

  lemma LengthIsNotPatched(path: Path, e: Json, ld: seq<Difference>)
    requires e.Array? && |ld| <= 1 && forall d :: d in ld ==> d.path == path && d.change.LengthDiffers?
    ensures (forall d :: d in ld ==> |path| <= |d.path|) && PutAll(e, |path|, ld) == e
  {
    if ld != [] {
      assert ld[0].path[|path|..] == [];
      assert PutAll(e, |path|, ld) == PutAll(e, |path|, ld[1..]) == e;
    }
  }

  /** m with the fields named in keys brought to what the patch makes of them. */
  ghost function Merged(e: Json, a: Json, keys: seq<string>, m: map<string, Json>): map<string, Json>
    requires e.Object? && a.Object?
  {
    map k | k in m.Keys + a.fields.Keys && (if k in keys then k in a.fields else k in m) ::
      if k in keys then (if k in e.fields then Merge(e.fields[k], a.fields[k]) else a.fields[k]) else m[k]
  }

  ghost function FieldPut(e: Json, a: Json, k: string, m: map<string, Json>): map<string, Json>
    requires e.Object? && a.Object?
  {
    if k !in a.fields then m - {k}
    else m[k := if k in e.fields then Merge(e.fields[k], a.fields[k]) else a.fields[k]]
  }

  lemma MergedStep(e: Json, a: Json, keys: seq<string>, m: map<string, Json>, m': map<string, Json>)
    requires e.Object? && a.Object? && keys != [] && keys[0] !in keys[1..]
    requires m' == FieldPut(e, a, keys[0], m)
    ensures Merged(e, a, keys[1..], m') == Merged(e, a, keys, m)
  {
    var k := keys[0];
    forall x ensures x in keys <==> x == k || x in keys[1..] { }
    var l, r := Merged(e, a, keys[1..], m'), Merged(e, a, keys, m);
    assert l.Keys == r.Keys;
    forall x | x in l ensures l[x] == r[x] { }
  }

  lemma MergedAll(e: Json, a: Json, keys: seq<string>)
    requires e.Object? && a.Object?
    requires forall k :: k in keys <==> k in e.fields || k in a.fields
    ensures Merged(e, a, keys, e.fields) == Merge(e, a).fields
  {
  }

  lemma {:induction false} PatchFields(path: Path, e: Json, a: Json, keys: seq<string>, m: map<string, Json>)
    requires e.Object? && a.Object?
    requires forall k :: k in keys ==> k in e.fields || k in a.fields
    requires forall i, j :: 0 <= i < j < |keys| ==> keys[i] != keys[j]
    requires forall k :: k in keys ==> (k in m <==> k in e.fields)
    requires forall k :: k in keys && k in m ==> m[k] == e.fields[k]
    requires Below(path, FieldDiffs(false, path, e, a, keys))
    ensures PutAll(Object(m), |path|, FieldDiffs(false, path, e, a, keys)) == Object(Merged(e, a, keys, m))
    decreases e, 0, |keys|
  {
    if keys == [] {
      assert Merged(e, a, keys, m) == m;
    } else {
      var k := keys[0];
      assert k in keys;
      FieldsBelow(path, e, a, keys[1..]);
      OneFieldBelow(path, e, a, k);
      var ds := OneField(false, path, e, a, k);
      PutAllAppend(Object(m), |path|, ds, FieldDiffs(false, path, e, a, keys[1..]));
      var m' := PatchOneField(path, e, a, k, m);
      assert k !in keys[1..];
      PatchFields(path, e, a, keys[1..], m');
      MergedStep(e, a, keys, m, m');
    }
  }

  lemma {:induction false} PatchOneField(path: Path, e: Json, a: Json, k: string, m: map<string, Json>)
    returns (m': map<string, Json>)
    requires e.Object? && a.Object? && (k in e.fields || k in a.fields)
    requires k in m <==> k in e.fields
    requires k in m ==> m[k] == e.fields[k]
    ensures forall d :: d in OneField(false, path, e, a, k) ==> |path| <= |d.path|
    ensures PutAll(Object(m), |path|, OneField(false, path, e, a, k)) == Object(m')
    ensures m' == FieldPut(e, a, k, m)
    decreases e, 0, 0
  {
    OneFieldBelow(path, e, a, k);
    var ds := OneField(false, path, e, a, k);
    if k in e.fields && k in a.fields {
      PatchIsMerge(path + [Field(k)], e.fields[k], a.fields[k]);
      FieldFocus(m, path, k, ds);
      m' := m[k := Merge(e.fields[k], a.fields[k])];
    } else {
      assert ds[0].path[|path|..] == [Field(k)];
      m' := if k in a.fields then m[k := a.fields[k]] else m - {k};
      assert PutAll(Object(m'), |path|, ds[1..]) == Object(m');
    }
  }

  ghost function MergedItems(e: Json, a: Json, i: nat, items: seq<Json>): seq<Json>
    requires e.Array? && a.Array? && |items| == |e.items|
  {
    seq(|items|, x requires 0 <= x < |items| =>
      if i <= x < |a.items| then Merge(e.items[x], a.items[x]) else items[x])
  }

  lemma {:induction false} PatchItems(path: Path, e: Json, a: Json, i: nat, items: seq<Json>)
    requires e.Array? && a.Array? && |items| == |e.items|
    requires forall x :: i <= x < |items| ==> items[x] == e.items[x]
    requires Below(path, ItemDiffs(path, e, a, i))
    ensures PutAll(Array(items), |path|, ItemDiffs(path, e, a, i)) == Array(MergedItems(e, a, i, items))
    decreases e, 0, |items| - i
  {
    if i >= |items| || i >= |a.items| {
      assert MergedItems(e, a, i, items) == items;
    } else {
      var ds := Diffs(false, path + [Index(i)], e.items[i], a.items[i]);
      PatchIsMerge(path + [Index(i)], e.items[i], a.items[i]);
      ItemsBelow(path, e, a, i + 1);
      ItemFocus(items, path, i, ds);
      PutAllAppend(Array(items), |path|, ds, ItemDiffs(path, e, a, i + 1));
      var items' := items[i := Merge(e.items[i], a.items[i])];
      PatchItems(path, e, a, i + 1, items');
      assert MergedItems(e, a, i + 1, items') == MergedItems(e, a, i, items);
    }
  }

  lemma {:induction false} MergeIsActualIffAligned(e: Json, a: Json)
    ensures Merge(e, a) == a <==> Aligned(e, a)
    decreases e
  {
    if e.Object? && a.Object? {
      forall k | k in e.fields && k in a.fields
        ensures Merge(e.fields[k], a.fields[k]) == a.fields[k] <==> Aligned(e.fields[k], a.fields[k])
      {
        MergeIsActualIffAligned(e.fields[k], a.fields[k]);
      }
      var m := Merge(e, a).fields;
      assert Aligned(e, a) ==> m == a.fields;
      assert m == a.fields ==> forall k :: k in e.fields && k in a.fields ==> m[k] == a.fields[k];
    } else if e.Array? && a.Array? {
      forall i | 0 <= i < |e.items| && i < |a.items|
        ensures Merge(e.items[i], a.items[i]) == a.items[i] <==> Aligned(e.items[i], a.items[i])
      {
        MergeIsActualIffAligned(e.items[i], a.items[i]);
      }
      var m := Merge(e, a).items;
      assert Aligned(e, a) ==> m == a.items;
      assert m == a.items ==> |e.items| == |a.items| && forall i :: 0 <= i < |m| ==> m[i] == a.items[i];
    }
  }

  /** The ordered report is a patch from expected to actual exactly when the arrays at
      corresponding positions have equal length. */
  lemma OrderedReportIsPatch(path: Path, e: Json, a: Json)
    ensures Below(path, Diffs(false, path, e, a))
    ensures PutAll(e, |path|, Diffs(false, path, e, a)) == a <==> Aligned(e, a)
  {
    PatchIsMerge(path, e, a);
    MergeIsActualIffAligned(e, a);
  }

  // ----- no reported path is a prefix of another -----

  ghost predicate PrefixFree(ds: seq<Difference>) {
    forall i, j :: 0 <= i < |ds| && 0 <= j < |ds| && i != j ==> !(ds[i].path <= ds[j].path)
  }

  ghost predicate Apart(xs: seq<Difference>, ys: seq<Difference>) {
    forall x, y :: x in xs && y in ys ==> !(x.path <= y.path) && !(y.path <= x.path)
  }

  lemma PrefixFreeAppend(xs: seq<Difference>, ys: seq<Difference>)
    requires PrefixFree(xs) && PrefixFree(ys) && Apart(xs, ys)
    ensures PrefixFree(xs + ys)
  {
    var s := xs + ys;
    forall i, j | 0 <= i < |s| && 0 <= j < |s| && i != j ensures !(s[i].path <= s[j].path) {
      if i < |xs| && j >= |xs| { assert xs[i] in xs && ys[j - |xs|] in ys; }
      if j < |xs| && i >= |xs| { assert xs[j] in xs && ys[i - |xs|] in ys; }
    }
  }

  lemma DivergingPaths(path: Path, x: Path, y: Path)
    requires |path| < |x| && |path| < |y| && x[|path|] != y[|path|]
    ensures !(x <= y) && !(y <= x)
  {
  }

  lemma {:induction false} AlignedReportIsPrefixFree(path: Path, e: Json, a: Json)
    requires Aligned(e, a)
    ensures PrefixFree(Diffs(false, path, e, a))
    decreases e, 1
  {
    if e.Object? && a.Object? {
      var keys := SortedKeys(e.fields.Keys + a.fields.Keys);
      SortedIsDistinct(keys);
      FieldsPrefixFree(path, e, a, keys);
    } else if e.Array? && a.Array? {
      ItemsPrefixFree(path, e, a, 0);
      assert Diffs(false, path, e, a) == ItemDiffs(path, e, a, 0);
    }
  }

  lemma {:induction false} FieldsPrefixFree(path: Path, e: Json, a: Json, keys: seq<string>)
    requires e.Object? && a.Object? && Aligned(e, a)
    requires forall k :: k in keys ==> k in e.fields || k in a.fields
    requires forall i, j :: 0 <= i < j < |keys| ==> keys[i] != keys[j]
    ensures PrefixFree(FieldDiffs(false, path, e, a, keys))
    decreases e, 0, |keys|
  {
    if keys != [] {
      var k := keys[0];
      assert k in keys;
      var xs, ys := OneField(false, path, e, a, k), FieldDiffs(false, path, e, a, keys[1..]);
      if k in e.fields && k in a.fields {
        AlignedReportIsPrefixFree(path + [Field(k)], e.fields[k], a.fields[k]);
      }
      FieldsPrefixFree(path, e, a, keys[1..]);
      OneFieldBelow(path, e, a, k);
      FieldsBelow(path, e, a, keys[1..]);
      forall x, y | x in xs && y in ys ensures !(x.path <= y.path) && !(y.path <= x.path) {
        assert x.path[|path|] == (path + [Field(k)])[|path|] == Field(k);
        DivergingPaths(path, x.path, y.path);
      }
      PrefixFreeAppend(xs, ys);
    }
  }

  lemma {:induction false} ItemsPrefixFree(path: Path, e: Json, a: Json, i: nat)
    requires e.Array? && a.Array? && Aligned(e, a)
    ensures PrefixFree(ItemDiffs(path, e, a, i))
    decreases e, 0, |e.items| - i
  {
    if i < |e.items| {
      var xs, ys := Diffs(false, path + [Index(i)], e.items[i], a.items[i]), ItemDiffs(path, e, a, i + 1);
      AlignedReportIsPrefixFree(path + [Index(i)], e.items[i], a.items[i]);
      ItemsPrefixFree(path, e, a, i + 1);
      DiffsBelow(path + [Index(i)], e.items[i], a.items[i]);
      ItemsBelow(path, e, a, i + 1);
      forall x, y | x in xs && y in ys ensures !(x.path <= y.path) && !(y.path <= x.path) {
        assert x.path[|path|] == (path + [Index(i)])[|path|] == Index(i);
        DivergingPaths(path, x.path, y.path);
      }
      PrefixFreeAppend(xs, ys);
    }
  }

  // ----- what an error-free report means -----

  /** The actual value is the expected one with, possibly, further object fields. */
  ghost predicate Extends(e: Json, a: Json)
    decreases e
  {
    if e.Object? && a.Object? then
      forall k :: k in e.fields ==> k in a.fields && Extends(e.fields[k], a.fields[k])
    else if e.Array? && a.Array? then
      |e.items| == |a.items| && forall i :: 0 <= i < |e.items| ==> Extends(e.items[i], a.items[i])
    else e == a
  }

  ghost predicate NoErrors(ds: seq<Difference>) {
    forall d :: d in ds ==> SeverityOf(d.change) != Error
  }

  lemma NoErrorsAppend(xs: seq<Difference>, ys: seq<Difference>)
    ensures NoErrors(xs + ys) <==> NoErrors(xs) && NoErrors(ys)
  {
    assert forall d :: d in xs + ys <==> d in xs || d in ys;
  }

  /** The ordered report has no error exactly when actual extends expected. */
  lemma {:induction false} NoErrorsIffExtends(path: Path, e: Json, a: Json)
    ensures NoErrors(Diffs(false, path, e, a)) <==> Extends(e, a)
    decreases e, 1
  {
    if e.Object? && a.Object? {
      var keys := SortedKeys(e.fields.Keys + a.fields.Keys);
      FieldsNoErrors(path, e, a, keys);
      assert forall k :: k in keys <==> k in e.fields || k in a.fields;
    } else if e.Array? && a.Array? {
      NoErrorsAppend(LengthDiffs(path, |e.items|, |a.items|), ItemDiffs(path, e, a, 0));
      if |e.items| == |a.items| {
        ItemsNoErrors(path, e, a, 0);
      } else {
        assert LengthDiffs(path, |e.items|, |a.items|)[0] in LengthDiffs(path, |e.items|, |a.items|);
      }
    } else if Diffs(false, path, e, a) != [] {
      assert Diffs(false, path, e, a)[0] in Diffs(false, path, e, a);
    }
  }

  lemma {:induction false} FieldsNoErrors(path: Path, e: Json, a: Json, keys: seq<string>)
    requires e.Object? && a.Object?
    requires forall k :: k in keys ==> k in e.fields || k in a.fields
    ensures NoErrors(FieldDiffs(false, path, e, a, keys)) <==>
      forall k :: k in keys && k in e.fields ==> k in a.fields && Extends(e.fields[k], a.fields[k])
    decreases e, 0, |keys|
  {
    if keys != [] {
      var k := keys[0];
      assert k in keys;
      var xs := OneField(false, path, e, a, k);
      if k in e.fields && k in a.fields {
        NoErrorsIffExtends(path + [Field(k)], e.fields[k], a.fields[k]);
      } else {
        assert xs == [xs[0]];
        assert xs[0] in xs;
      }
      FieldsNoErrors(path, e, a, keys[1..]);
      NoErrorsAppend(xs, FieldDiffs(false, path, e, a, keys[1..]));
      assert forall x :: x in keys <==> x == k || x in keys[1..];
    }
  }

  lemma {:induction false} ItemsNoErrors(path: Path, e: Json, a: Json, i: nat)
    requires e.Array? && a.Array? && |e.items| == |a.items|
    ensures NoErrors(ItemDiffs(path, e, a, i)) <==> forall x :: i <= x < |e.items| ==> Extends(e.items[x], a.items[x])
    decreases e, 0, |e.items| - i
  {
    if i < |e.items| {
      NoErrorsIffExtends(path + [Index(i)], e.items[i], a.items[i]);
      ItemsNoErrors(path, e, a, i + 1);
      NoErrorsAppend(Diffs(false, path + [Index(i)], e.items[i], a.items[i]), ItemDiffs(path, e, a, i + 1));
    }
  }

  // ----- and when order is ignored -----

  /** Objects may gain fields; arrays are equal up to reordering, since one more element is also
      another length. */
  ghost predicate ExtendsUnordered(e: Json, a: Json)
    decreases e
  {
    if e.Object? && a.Object? then
      forall k :: k in e.fields ==> k in a.fields && ExtendsUnordered(e.fields[k], a.fields[k])
    else if e.Array? && a.Array? then PermEq(e, a)
    else e == a
  }

  /** The unordered report has no error exactly when actual extends expected in this sense. */
  lemma {:induction false} NoErrorsIffExtendsUnordered(path: Path, e: Json, a: Json)
    ensures NoErrors(Diffs(true, path, e, a)) <==> ExtendsUnordered(e, a)
    decreases e, 1
  {
    if e.Object? && a.Object? {
      var keys := SortedKeys(e.fields.Keys + a.fields.Keys);
      FieldsNoErrorsUnordered(path, e, a, keys);
      assert forall k :: k in keys <==> k in e.fields || k in a.fields;
    } else if e.Array? && a.Array? {
      ArraysNoErrors(path, e, a);
    } else if Diffs(true, path, e, a) != [] {
      assert Diffs(true, path, e, a)[0] in Diffs(true, path, e, a);
    }
  }

  lemma {:induction false} FieldsNoErrorsUnordered(path: Path, e: Json, a: Json, keys: seq<string>)
    requires e.Object? && a.Object?
    requires forall k :: k in keys ==> k in e.fields || k in a.fields
    ensures NoErrors(FieldDiffs(true, path, e, a, keys)) <==>
      forall k :: k in keys && k in e.fields ==> k in a.fields && ExtendsUnordered(e.fields[k], a.fields[k])
    decreases e, 0, |keys|
  {
    if keys != [] {
      var k := keys[0];
      assert k in keys;
      var xs := OneField(true, path, e, a, k);
      if k in e.fields && k in a.fields {
        NoErrorsIffExtendsUnordered(path + [Field(k)], e.fields[k], a.fields[k]);
      } else {
        assert xs == [xs[0]];
        assert xs[0] in xs;
      }
      FieldsNoErrorsUnordered(path, e, a, keys[1..]);
      NoErrorsAppend(xs, FieldDiffs(true, path, e, a, keys[1..]));
      assert forall x :: x in keys <==> x == k || x in keys[1..];
    }
  }

  /** With order ignored, two arrays are reported without an error exactly when they are equal up
      to permutation: another length is an error, and so is an element that is not found. */
  lemma ArraysNoErrors(path: Path, e: Json, a: Json)
    requires e.Array? && a.Array?
    ensures NoErrors(Diffs(true, path, e, a)) <==> PermEq(e, a)
  {
    var m := Pairing(path, e, a);
    var length, missing := LengthDiffs(path, |e.items|, |a.items|), NotFound(path, e.items, 0, m.Keys);
    var extra := Extras(path, a.items, 0, m.Values);
    UnorderedZeroIffPermEq(path, e, a);
    UnorderedCounts(path, e, a);
    NoErrorsAppend(length, missing + extra);
    NoErrorsAppend(missing, extra);
    NotFoundAreErrors(path, e.items, 0, m.Keys);
    if length != [] { assert length[0] in length; }
    if NoErrors(Diffs(true, path, e, a)) {
      assert length == [] && missing == [] && |extra| == 0;
    }
  }

  /** In the report of any two arrays a missing element is an error, an extra one a warning. */
  lemma ElementSeverities(path: Path, e: Json, a: Json, d: Difference)
    requires e.Array? && a.Array? && d in Diffs(true, path, e, a)
    ensures d.change.ElementNotFound? ==> SeverityOf(d.change) == Error
    ensures d.change.ExtraElement? ==> SeverityOf(d.change) == Warning
  {
  }

  lemma {:induction false} NotFoundAreErrors(path: Path, items: seq<Json>, i: nat, paired: set<nat>)
    ensures NoErrors(NotFound(path, items, i, paired)) <==> NotFound(path, items, i, paired) == []
    decreases |items| - i
  {
    if i < |items| {
      NotFoundAreErrors(path, items, i + 1, paired);
      var ds := NotFound(path, items, i, paired);
      if i !in paired { assert ds[0] in ds; }
    }
  }
}
