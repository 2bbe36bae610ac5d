/** The semantic JSON comparison: typed dispatch, key-sorted objects, and arrays compared
    either by index or, when order is ignored, by greedy pairing of equal elements. */
module JsonDiff {
  import opened Matching
  import opened KeyOrder

  datatype Json =
    | Null
    | Bool(b: bool)
    | Number(n: real)
    | Text(s: string)
    | Array(items: seq<Json>)
    | Object(fields: map<string, Json>)

  datatype Step = Field(name: string) | Index(i: nat) | Extra

  type Path = seq<Step>

  /** What one reported difference says; the message of the original determines the case. */
  datatype Change =
    | TypeDiffers(expected: Json, actual: Json)
    | ValueDiffers(expected: Json, actual: Json)
    | FieldMissing(expected: Json)
    | ExtraField(actual: Json)
    | LengthDiffers(expectedLength: nat, actualLength: nat)
    | ElementNotFound(expected: Json)
    | ExtraElement(actual: Json)

  datatype Difference = Difference(path: Path, change: Change)

  datatype Severity = Error | Warning

  function SeverityOf(c: Change): Severity {
    if c.ExtraField? || c.ExtraElement? then Warning else Error
  }

  predicate SameType(e: Json, a: Json) {
    match e
    case Null => a.Null?
    case Bool(_) => a.Bool?
    case Number(_) => a.Number?
    case Text(_) => a.Text?
    case Array(_) => a.Array?
    case Object(_) => a.Object?
  }

  // ----- specification of the comparison -----

  ghost function Diffs(ignoreOrder: bool, path: Path, e: Json, a: Json): seq<Difference>
    decreases e, 2
  {
    if !SameType(e, a) then [Difference(path, TypeDiffers(e, a))]
    else if e.Object? then FieldDiffs(ignoreOrder, path, e, a, SortedKeys(e.fields.Keys + a.fields.Keys))
    else if e.Array? then
      LengthDiffs(path, |e.items|, |a.items|) +
      if ignoreOrder then UnorderedDiffs(path, e, a) else ItemDiffs(path, e, a, 0)
    else if e == a then [] else [Difference(path, ValueDiffers(e, a))]
  }

  ghost function FieldDiffs(ignoreOrder: bool, path: Path, e: Json, a: Json, keys: seq<string>): seq<Difference>
    requires e.Object? && a.Object?
    requires forall k :: k in keys ==> k in e.fields || k in a.fields
    decreases e, 0, |keys|
  {
    if keys == [] then [] else
      OneField(ignoreOrder, path, e, a, keys[0]) + FieldDiffs(ignoreOrder, path, e, a, keys[1..])
  }

  ghost function OneField(ignoreOrder: bool, path: Path, e: Json, a: Json, k: string): seq<Difference>
    requires e.Object? && a.Object?
    requires k in e.fields || k in a.fields
    decreases e, 0, 0
  {
    if k !in a.fields then [Difference(path + [Field(k)], FieldMissing(e.fields[k]))]
    else if k !in e.fields then [Difference(path + [Field(k)], ExtraField(a.fields[k]))]
    else Diffs(ignoreOrder, path + [Field(k)], e.fields[k], a.fields[k])
  }

  ghost function LengthDiffs(path: Path, n: nat, m: nat): seq<Difference> {
    if n == m then [] else [Difference(path, LengthDiffers(n, m))]
  }

  ghost function ItemDiffs(path: Path, e: Json, a: Json, i: nat): seq<Difference>
    requires e.Array? && a.Array?
    decreases e, 0, |e.items| - i
  {
    if i >= |e.items| || i >= |a.items| then [] else
      Diffs(false, path + [Index(i)], e.items[i], a.items[i]) + ItemDiffs(path, e, a, i + 1)
  }

  /** Which expected element compares without difference to which actual element. */
  ghost function ZeroTable(path: Path, e: Json, a: Json): (R: Relation)
    requires e.Array? && a.Array?
    decreases e, 0, 0
  {
    seq(|e.items|, i requires 0 <= i < |e.items| =>
      seq(|a.items|, j requires 0 <= j < |a.items| =>
        Diffs(true, path + [Index(i)], e.items[i], a.items[j]) == []))
  }

  ghost function Pairing(path: Path, e: Json, a: Json): map<nat, nat>
    requires e.Array? && a.Array?
    decreases e, 0, 1
  {
    Greedy(ZeroTable(path, e, a), 0, |e.items|, |a.items|, {})
  }

  ghost function UnorderedDiffs(path: Path, e: Json, a: Json): seq<Difference>
    requires e.Array? && a.Array?
    decreases e, 1, 0
  {
    var pairing := Pairing(path, e, a);
    NotFound(path, e.items, 0, pairing.Keys) + Extras(path, a.items, 0, pairing.Values)
  }

  ghost function NotFound(path: Path, items: seq<Json>, i: nat, paired: set<nat>): seq<Difference>
    decreases |items| - i
  {
    if i >= |items| then [] else
      (if i in paired then [] else [Difference(path + [Index(i)], ElementNotFound(items[i]))]) +
      NotFound(path, items, i + 1, paired)
  }

  ghost function Extras(path: Path, items: seq<Json>, j: nat, used: set<nat>): seq<Difference>
    decreases |items| - j
  {
    if j >= |items| then [] else
      (if j in used then [] else [Difference(path + [Extra], ExtraElement(items[j]))]) +
      Extras(path, items, j + 1, used)
  }
}
