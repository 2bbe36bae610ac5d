/** The comparison as it runs: loops that append to a local list and mark used elements
    in an array, each proved to compute the specified list of differences. */
module JsonDiffer {
  import opened Matching
  import opened KeyOrder
  import opened JsonDiff

  method CompareValues(ignoreOrder: bool, path: Path, expected: Json, actual: Json)
    returns (diffs: seq<Difference>)
    ensures diffs == Diffs(ignoreOrder, path, expected, actual)
    decreases expected, 3
  {
    if !SameType(expected, actual) {
      return [Difference(path, TypeDiffers(expected, actual))];
    }
    match expected
    case Object(_) => diffs := CompareObjects(ignoreOrder, path, expected, actual);
    case Array(_) => diffs := CompareArrays(ignoreOrder, path, expected, actual);
    case _ => diffs := if expected != actual then [Difference(path, ValueDiffers(expected, actual))] else [];
  }

  method CompareObjects(ignoreOrder: bool, path: Path, expected: Json, actual: Json)
    returns (diffs: seq<Difference>)
    requires expected.Object? && actual.Object?
    ensures diffs == Diffs(ignoreOrder, path, expected, actual)
    decreases expected, 2
  {
    diffs := [];
    var allKeys := expected.fields.Keys + actual.fields.Keys;
    var keys := SortStrings(allKeys);
    var n := 0;
    while n < |keys|
      invariant 0 <= n <= |keys|
      invariant forall k :: k in keys[n..] ==> k in allKeys
      invariant diffs + FieldDiffs(ignoreOrder, path, expected, actual, keys[n..])
             == FieldDiffs(ignoreOrder, path, expected, actual, keys)
    {
      var k := keys[n];
      assert k in keys[n..];
      var found := CompareField(ignoreOrder, path, expected, actual, k);
      FieldDiffsStep(ignoreOrder, path, expected, actual, keys[n..], diffs);
      assert keys[n..][1..] == keys[n + 1..];
      diffs := diffs + found;
      n := n + 1;
    }
  }

  lemma FieldDiffsStep(ignoreOrder: bool, path: Path, e: Json, a: Json, keys: seq<string>, diffs: seq<Difference>)
    requires e.Object? && a.Object? && keys != []
    requires forall k :: k in keys ==> k in e.fields || k in a.fields
    ensures diffs + FieldDiffs(ignoreOrder, path, e, a, keys)
         == (diffs + OneField(ignoreOrder, path, e, a, keys[0])) + FieldDiffs(ignoreOrder, path, e, a, keys[1..])
  {
    assert keys[0] in keys;
  }

  /** The three-way branch of the loop over the keys. */
  method CompareField(ignoreOrder: bool, path: Path, expected: Json, actual: Json, k: string)
    returns (found: seq<Difference>)
    requires expected.Object? && actual.Object?
    requires k in expected.fields || k in actual.fields
    ensures found == OneField(ignoreOrder, path, expected, actual, k)
    decreases expected, 1
  {
    var fieldPath := path + [Field(k)];
    if k in expected.fields && k !in actual.fields {
      found := [Difference(fieldPath, FieldMissing(expected.fields[k]))];
    } else if k !in expected.fields && k in actual.fields {
      found := [Difference(fieldPath, ExtraField(actual.fields[k]))];
    } else {
      found := CompareValues(ignoreOrder, fieldPath, expected.fields[k], actual.fields[k]);
    }
  }

  method CompareArrays(ignoreOrder: bool, path: Path, expected: Json, actual: Json)
    returns (diffs: seq<Difference>)
    requires expected.Array? && actual.Array?
    ensures diffs == Diffs(ignoreOrder, path, expected, actual)
    decreases expected, 2
  {
    diffs := [];
    if |expected.items| != |actual.items| {
      diffs := diffs + [Difference(path, LengthDiffers(|expected.items|, |actual.items|))];
    }
    ghost var head := diffs;
    if ignoreOrder {
      var more := CompareArraysUnordered(path, expected, actual);
      diffs := diffs + more;
    } else {
      var minLen := |expected.items|;
      if |actual.items| < minLen {
        minLen := |actual.items|;
      }
      var i := 0;
      while i < minLen
        invariant 0 <= i <= minLen
        invariant diffs + ItemDiffs(path, expected, actual, i) == head + ItemDiffs(path, expected, actual, 0)
      {
        var found := CompareValues(ignoreOrder, path + [Index(i)], expected.items[i], actual.items[i]);
        assert (diffs + found) + ItemDiffs(path, expected, actual, i + 1)
            == diffs + (found + ItemDiffs(path, expected, actual, i + 1));
        diffs := diffs + found;
        i := i + 1;
      }
      assert ItemDiffs(path, expected, actual, minLen) == [];
      assert diffs == head + ItemDiffs(path, expected, actual, 0);
    }
  }

  /** The marked indices are exactly those in taken. */
  ghost predicate Marks(used: seq<bool>, taken: set<nat>) {
    forall j: nat :: j < |used| ==> (used[j] <==> j in taken)
  }

  ghost function ZeroRow(itemPath: Path, ev: Json, items: seq<Json>): seq<bool> {
    seq(|items|, j requires 0 <= j < |items| => Diffs(true, itemPath, ev, items[j]) == [])
  }

  ghost function Pair(path: Path, e: Json, a: Json, i: nat, used: set<nat>): map<nat, nat>
    requires e.Array? && a.Array? && i <= |e.items|
  {
    Greedy(ZeroTable(path, e, a), i, |e.items|, |a.items|, used)
  }

  /** What is left of the report when the expected elements from i on are still to be paired. */
  ghost function Rest(path: Path, e: Json, a: Json, i: nat, used: set<nat>): seq<Difference>
    requires e.Array? && a.Array? && i <= |e.items|
  {
    var pairing := Pair(path, e, a, i, used);
    NotFound(path, e.items, i, pairing.Keys) + Extras(path, a.items, 0, used + pairing.Values)
  }

  lemma NotFoundLocal(path: Path, items: seq<Json>, i: nat, paired: set<nat>, paired': set<nat>)
    requires forall k :: k >= i ==> (k in paired <==> k in paired')
    ensures NotFound(path, items, i, paired) == NotFound(path, items, i, paired')
    decreases |items| - i
  {
  }

  lemma RestStep(path: Path, e: Json, a: Json, i: nat, used: set<nat>, k: nat)
    requires e.Array? && a.Array? && i < |e.items|
    requires k == FirstFit(ZeroRow(path + [Index(i)], e.items[i], a.items), 0, used)
    ensures Rest(path, e, a, i, used) ==
      if k < |a.items| then Rest(path, e, a, i + 1, used + {k})
      else [Difference(path + [Index(i)], ElementNotFound(e.items[i]))] + Rest(path, e, a, i + 1, used)
  {
    assert ZeroTable(path, e, a)[i] == ZeroRow(path + [Index(i)], e.items[i], a.items);
    var pairing := Pair(path, e, a, i, used);
    if k < |a.items| {
      var rest := Pair(path, e, a, i + 1, used + {k});
      assert pairing == rest[i := k];
      NotFoundLocal(path, e.items, i + 1, pairing.Keys, rest.Keys);
      UpdateValues(rest, i, k);
      assert used + pairing.Values == used + {k} + rest.Values;
    } else {
      var rest := Pair(path, e, a, i + 1, used);
      assert pairing == rest;
    }
  }

  lemma UpdateValues(m: map<nat, nat>, i: nat, k: nat)
    requires i !in m
    ensures m[i := k].Values == m.Values + {k}
  {
    forall v | v in m.Values + {k} ensures v in m[i := k].Values {
      if v in m.Values {
        var x :| x in m && m[x] == v;
        assert m[i := k][x] == v;
      } else {
        assert m[i := k][i] == v;
      }
    }
  }

  lemma RestAtStart(path: Path, e: Json, a: Json)
    requires e.Array? && a.Array?
    ensures Rest(path, e, a, 0, {}) == UnorderedDiffs(path, e, a)
  {
    assert {} + Pairing(path, e, a).Values == Pairing(path, e, a).Values;
  }

  lemma RestAtEnd(path: Path, e: Json, a: Json, taken: set<nat>)
    requires e.Array? && a.Array?
    ensures Rest(path, e, a, |e.items|, taken) == Extras(path, a.items, 0, taken)
  {
    var none: map<nat, nat> := map[];
    assert Pair(path, e, a, |e.items|, taken) == none;
    assert taken + none.Values == taken;
  }

  /** The inner loop: the first actual element that is unused and compares without difference. */
  method FindUnused(itemPath: Path, ev: Json, items: seq<Json>, used: array<bool>, ghost taken: set<nat>)
    returns (j: nat)
    requires used.Length == |items| && Marks(used[..], taken)
    ensures j == FirstFit(ZeroRow(itemPath, ev, items), 0, taken)
    decreases ev, 4
  {
    ghost var row := ZeroRow(itemPath, ev, items);
    j := 0;
    while j < |items|
      invariant 0 <= j <= |items|
      invariant FirstFit(row, 0, taken) == FirstFit(row, j, taken)
    {
      if !used[j] {
        var subDiffs := CompareValues(true, itemPath, ev, items[j]);
        if |subDiffs| == 0 {
          return;
        }
      }
      j := j + 1;
    }
  }

  /** The second loop: every actual element that stayed unused is reported. */
  method ReportExtras(path: Path, items: seq<Json>, used: array<bool>, ghost taken: set<nat>)
    returns (diffs: seq<Difference>)
    requires used.Length == |items| && Marks(used[..], taken)
    ensures diffs == Extras(path, items, 0, taken)
  {
    diffs := [];
    var j := 0;
    while j < |items|
      invariant 0 <= j <= |items|
      invariant diffs + Extras(path, items, j, taken) == Extras(path, items, 0, taken)
    {
      if !used[j] {
        diffs := diffs + [Difference(path + [Extra], ExtraElement(items[j]))];
      }
      j := j + 1;
    }
  }

  method CompareArraysUnordered(path: Path, expected: Json, actual: Json)
    returns (diffs: seq<Difference>)
    requires expected.Array? && actual.Array?
    ensures diffs == UnorderedDiffs(path, expected, actual)
    decreases expected, 1
  {
    diffs := [];
    var used := new bool[|actual.items|](_ => false);
    ghost var taken: set<nat> := {};
    RestAtStart(path, expected, actual);
    var i := 0;
    while i < |expected.items|
      invariant 0 <= i <= |expected.items|
      invariant Marks(used[..], taken)
      invariant diffs + Rest(path, expected, actual, i, taken) == UnorderedDiffs(path, expected, actual)
    {
      var j := FindUnused(path + [Index(i)], expected.items[i], actual.items, used, taken);
      RestStep(path, expected, actual, i, taken, j);
      if j < |actual.items| {
        MarkOne(used[..], taken, j);
        used[j] := true;
        taken := taken + {j};
      } else {
        var missing := [Difference(path + [Index(i)], ElementNotFound(expected.items[i]))];
        Regroup(diffs, missing, Rest(path, expected, actual, i + 1, taken));
        diffs := diffs + missing;
      }
      i := i + 1;
    }
    RestAtEnd(path, expected, actual, taken);
    var extras := ReportExtras(path, actual.items, used, taken);
    diffs := diffs + extras;
  }

  lemma MarkOne(used: seq<bool>, taken: set<nat>, j: nat)
    requires Marks(used, taken) && j < |used|
    ensures Marks(used[j := true], taken + {j})
  {
  }

  lemma Regroup(a: seq<Difference>, b: seq<Difference>, c: seq<Difference>)
    ensures (a + b) + c == a + (b + c)
  {
  }
}
