/** Comparing a recorded request with its replay: status, headers, body and side effects are
    collected into one list, on which the rules and the verdict work. */
module RecordComparison {
  import opened Effects
  import opened JsonDiff
  import opened JsonEquivalence
  import opened Records
  import opened DiffEngine
  import AsciiText
  import opened HeaderText
  import JsonDiffer
  import S = SideEffectDiff

  /** parse is what a text means as JSON, if anything; order is the order in which the headers
      of a record are walked. */
  datatype Config = Config(
    ignoreOrder: bool, ignoreHeaders: set<string>, parse: string -> Option<Json>, order: Record -> seq<string>)

  ghost predicate WalksHeaders(order: Record -> seq<string>) {
    forall r :: WalksAll(order(r), r.response.headers.Keys)
  }

  /** Each key once, in some order. */
  ghost predicate WalksAll(ks: seq<string>, keys: set<string>) {
    (forall k :: k in ks <==> k in keys) && forall i, j :: 0 <= i < j < |ks| ==> ks[i] != ks[j]
  }

  // ----- text of paths and values -----

  function Digits(n: nat): string {
    if n < 10 then [('0' as int + n) as char] else Digits(n / 10) + [('0' as int + n % 10) as char]
  }

  function PathText(path: Path): string {
    if path == [] then "body"
    else
      var before := PathText(path[..|path| - 1]);
      match path[|path| - 1]
      case Field(name) => before + "." + name
      case Index(i) => before + "[" + Digits(i) + "]"
      case Extra => before + "[extra]"
  }

  function Texts(values: seq<string>): Json {
    Array(seq(|values|, i requires 0 <= i < |values| => Text(values[i])))
  }

  function CharsOf(text: AsciiText.Text): string {
    seq(|text|, i requires 0 <= i < |text| => text[i] as char)
  }

  // ----- raw differences -----

  function Raw(path: string, expected: Json, actual: Json, severity: Level): Entry {
    Entry(path, expected, actual, severity, false, "")
  }

  function StatusDiffs(o: Response, r: Response): seq<Entry> {
    if o.status == r.status then []
    else [Raw("statusCode", Number(o.status as real), Number(r.status as real), LevelError)]
  }

  function HeaderDiff(k: string, o: seq<string>, r: Headers): seq<Entry> {
    if k !in r then [Raw("headers." + k, Texts(o), Null, LevelWarning)]
    else if Printed(o) != Printed(r[k]) then [Raw("headers." + k, Texts(o), Texts(r[k]), LevelWarning)]
    else []
  }

  /** The expected headers named by the first n keys that are not ignored. */
  function HeaderDiffs(
    ignored: set<string>, o: Headers, r: Headers, keys: seq<string>, n: nat): seq<Entry>
    requires n <= |keys|
  {
    if n == 0 then []
    else
      var before, k := HeaderDiffs(ignored, o, r, keys, n - 1), keys[n - 1];
      if k in ignored || k !in o then before else before + HeaderDiff(k, o[k], r)
  }

  function BodyEntry(d: Difference): Entry {
    var path := PathText(d.path);
    var severity := if SeverityOf(d.change) == Warning then LevelWarning else LevelError;
    match d.change
    case TypeDiffers(e, a) => Raw(path, e, a, severity)
    case ValueDiffers(e, a) => Raw(path, e, a, severity)
    case FieldMissing(e) => Raw(path, e, Null, severity)
    case ExtraField(a) => Raw(path, Null, a, severity)
    case LengthDiffers(n, m) => Raw(path, Number(n as real), Number(m as real), severity)
    case ElementNotFound(e) => Raw(path, e, Null, severity)
    case ExtraElement(a) => Raw(path, Null, a, severity)
  }

  function BodyEntries(ds: seq<Difference>): seq<Entry> {
    seq(|ds|, i requires 0 <= i < |ds| => BodyEntry(ds[i]))
  }

  ghost function BodyDiffs(c: Config, o: string, r: string): seq<Entry> {
    if o == "" && r == "" then []
    else
      match c.parse(o)
      case None => if o == r then [] else [Raw("body", Text(o), Text(r), LevelError)]
      case Some(e) =>
        match c.parse(r)
        case None => [Raw("body", Text(o), Text(r), LevelError)]
        case Some(a) => BodyEntries(Diffs(c.ignoreOrder, [], e, a))
  }

  function SideEntry(d: S.SideDiff): Entry {
    match d
    case SqlCount(e, a) => Raw("sideEffects.db", Number(e as real), Number(a as real), LevelError)
    case SqlDiffers(i, e, a) =>
      Raw("sideEffects.db[" + Digits(i) + "].query", Text(CharsOf(e)), Text(CharsOf(a)), LevelError)
    case MongoCount(e, a) => Raw("sideEffects.mongo", Number(e as real), Number(a as real), LevelError)
    case RedisCount(e, a) => Raw("sideEffects.redis", Number(e as real), Number(a as real), LevelError)
    case AspectDiffers(i, aspect, e, a) =>
      var severity := if aspect.Database? then LevelWarning else LevelError;
      Raw(AspectPath(i, aspect), Text(CharsOf(e)), Text(CharsOf(a)), severity)
    case ArgsDiffer(i, e, a) =>
      Raw("sideEffects.redis[" + Digits(i) + "].args", ArgTexts(e), ArgTexts(a), LevelError)
    case ResidualCount(e, a) => Raw("sideEffects", Number(e as real), Number(a as real), LevelError)
  }

  function AspectPath(i: nat, aspect: S.Aspect): string {
    match aspect
    case Collection => "sideEffects.mongo[" + Digits(i) + "].collection"
    case Operation => "sideEffects.mongo[" + Digits(i) + "].operation"
    case Database => "sideEffects.mongo[" + Digits(i) + "].database"
    case Command => "sideEffects.redis[" + Digits(i) + "].command"
    case Key => "sideEffects.redis[" + Digits(i) + "].key"
  }

  function ArgTexts(args: seq<AsciiText.Text>): Json {
    Array(seq(|args|, i requires 0 <= i < |args| => Text(CharsOf(args[i]))))
  }

  function SideEntries(ds: seq<S.SideDiff>): seq<Entry> {
    seq(|ds|, i requires 0 <= i < |ds| => SideEntry(ds[i]))
  }

  /** All differences of a pair, before any rule. */
  ghost function RawDiffs(c: Config, o: Record, r: Record): seq<Entry> {
    var keys := c.order(o);
    StatusDiffs(o.response, r.response)
    + HeaderDiffs(c.ignoreHeaders, o.response.headers, r.response.headers, keys, |keys|)
    + BodyDiffs(c, o.response.body, r.response.body)
    + SideEntries(S.SideEffectDiffs(o.sideEffects, r.sideEffects))
  }

  // ----- collecting them -----

  method CompareHeaders(
    ignored: set<string>, expected: Headers, actual: Headers, keys: seq<string>)
    returns (diffs: seq<Entry>)
    requires forall k :: k in keys ==> k in expected
    ensures diffs == HeaderDiffs(ignored, expected, actual, keys, |keys|)
  {
    diffs := [];
    for i := 0 to |keys|
      invariant diffs == HeaderDiffs(ignored, expected, actual, keys, i)
    {
      var k := keys[i];
      assert k in keys;
      if k in ignored {
        continue;
      }
      var ev := expected[k];
      assert diffs + [] == diffs;
      if k !in actual {
        diffs := diffs + [Raw("headers." + k, Texts(ev), Null, LevelWarning)];
      } else if Printed(ev) != Printed(actual[k]) {
        diffs := diffs + [Raw("headers." + k, Texts(ev), Texts(actual[k]), LevelWarning)];
      }
    }
  }

  method CompareBodies(c: Config, expected: string, actual: string) returns (diffs: seq<Entry>)
    ensures diffs == BodyDiffs(c, expected, actual)
  {
    if |expected| == 0 && |actual| == 0 {
      return [];
    }
    var ev := c.parse(expected);
    if ev == None {
      if expected != actual {
        return [Raw("body", Text(expected), Text(actual), LevelError)];
      }
      return [];
    }
    var av := c.parse(actual);
    if av == None {
      return [Raw("body", Text(expected), Text(actual), LevelError)];
    }
    var ds := JsonDiffer.CompareValues(c.ignoreOrder, [], ev.value, av.value);
    return BodyEntries(ds);
  }

  method CompareRecords(rs: RuleSet, maxDiffs: nat, c: Config, original: Record, replay: Record)
    returns (result: DiffResult)
    requires WalksHeaders(c.order)
    ensures result == Compared(rs, maxDiffs, original, replay, RawDiffs(c, original, replay))
  {
    if replay.error != "" {
      return DiffResult(original.sequence, false, [Failure("replay failed")]);
    }
    var diffs: seq<Entry> := [];
    if original.response.status != replay.response.status {
      var os, rs' := original.response.status as real, replay.response.status as real;
      diffs := [Raw("statusCode", Number(os), Number(rs'), LevelError)];
    }
    assert WalksAll(c.order(original), original.response.headers.Keys);
    var headers :=
      CompareHeaders(c.ignoreHeaders, original.response.headers, replay.response.headers, c.order(original));
    var body := CompareBodies(c, original.response.body, replay.response.body);
    var side := S.CompareSideEffects(original.sideEffects, replay.sideEffects);
    diffs := diffs + headers + body + SideEntries(side);
    RawIsUnmarked(c, original, replay);
    result := Judge(rs, maxDiffs, original, replay, diffs);
  }

  lemma {:induction false} HeadersUnmarked(
    ignored: set<string>, o: Headers, r: Headers, keys: seq<string>, n: nat)
    requires n <= |keys|
    ensures forall d :: d in HeaderDiffs(ignored, o, r, keys, n) ==> !d.ignored
    decreases n
  {
    if n > 0 { HeadersUnmarked(ignored, o, r, keys, n - 1); }
  }

  lemma BodyUnmarked(c: Config, o: string, r: string)
    ensures forall d :: d in BodyDiffs(c, o, r) ==> !d.ignored
  {}

  lemma SideUnmarked(ds: seq<S.SideDiff>)
    ensures forall d :: d in SideEntries(ds) ==> !d.ignored
  {}

  lemma RawIsUnmarked(c: Config, o: Record, r: Record)
    ensures forall d :: d in RawDiffs(c, o, r) ==> !d.ignored
  {
    var status := StatusDiffs(o.response, r.response);
    var headers :=
      HeaderDiffs(c.ignoreHeaders, o.response.headers, r.response.headers, c.order(o), |c.order(o)|);
    var body := BodyDiffs(c, o.response.body, r.response.body);
    var side := SideEntries(S.SideEffectDiffs(o.sideEffects, r.sideEffects));
    HeadersUnmarked(c.ignoreHeaders, o.response.headers, r.response.headers, c.order(o), |c.order(o)|);
    BodyUnmarked(c, o.response.body, r.response.body);
    SideUnmarked(S.SideEffectDiffs(o.sideEffects, r.sideEffects));
    JoinUnmarked(status, headers, body, side);
  }

  lemma JoinUnmarked(status: seq<Entry>, headers: seq<Entry>, body: seq<Entry>, side: seq<Entry>)
    requires forall d :: d in status || d in headers || d in body || d in side ==> !d.ignored
    ensures forall d :: d in status + headers + body + side ==> !d.ignored
  {}

  datatype Outcome = LoadFailed | NoOriginals | NoReplays | Results(results: seq<DiffResult>)

  /** originals and replays are the records the store holds, unless it cannot be read. */
  method Run(
    rs: RuleSet, maxDiffs: nat, c: Config, originals: Option<seq<Record>>, replays: Option<seq<Record>>)
    returns (outcome: Outcome)
    requires WalksHeaders(c.order)
    ensures outcome ==
      if originals == None || replays == None then LoadFailed
      else if originals.value == [] then NoOriginals
      else if replays.value == [] then NoReplays
      else Results(ResultsFor(rs, maxDiffs, Compare(c), originals.value, replays.value))
  {
    if originals == None || replays == None {
      return LoadFailed;
    }
    var os, rps := originals.value, replays.value;
    if |os| == 0 {
      return NoOriginals;
    }
    if |rps| == 0 {
      return NoReplays;
    }
    ghost var compare := Compare(c);
    var index := IndexBySequence(rps);
    var results: seq<DiffResult> := [];
    for i := 0 to |os|
      invariant |results| == i
      invariant forall k :: 0 <= k < i ==> results[k] == ResultsFor(rs, maxDiffs, compare, os, rps)[k]
    {
      var original := os[i];
      assert Lookup(index, original.sequence) == Latest(rps, original.sequence);
      if original.sequence !in index {
        results := results + [DiffResult(original.sequence, false, [Failure("replay record missing")])];
        continue;
      }
      var result := CompareRecords(rs, maxDiffs, c, original, index[original.sequence]);
      results := results + [result];
    }
    return Results(results);
  }

  // ----- what agreement of a pair means -----

  /** Every expected header that is not ignored is there and prints alike. */
  ghost predicate HeadersAgree(ignored: set<string>, o: Headers, r: Headers) {
    forall k :: k in o && k !in ignored ==> k in r && Printed(o[k]) == Printed(r[k])
  }

  /** Every expected header that is not ignored is there with the same values. */
  ghost predicate HeadersEqual(ignored: set<string>, o: Headers, r: Headers) {
    forall k :: k in o && k !in ignored ==> k in r && o[k] == r[k]
  }

  ghost predicate SpaceFreeBoth(ignored: set<string>, o: Headers, r: Headers) {
    forall k :: k in o && k !in ignored ==> SpaceFree(o[k]) && (k in r ==> SpaceFree(r[k]))
  }

  ghost predicate AllPlain(ignored: set<string>, o: Headers) {
    forall k :: k in o && k !in ignored ==> Plain(o[k])
  }

  /** For headers without spaces in their values, agreeing is being equal. */
  lemma SpaceFreeHeadersAgreeIffEqual(ignored: set<string>, o: Headers, r: Headers)
    requires SpaceFreeBoth(ignored, o, r)
    ensures HeadersAgree(ignored, o, r) <==> HeadersEqual(ignored, o, r)
  {
    forall k | k in o && k !in ignored && k in r ensures Printed(o[k]) == Printed(r[k]) <==> o[k] == r[k] {
      SpaceFreePrintsApart(o[k], r[k]);
    }
  }

  /** For given expected headers, agreeing is being equal whatever the replay's headers are,
      exactly when each that is not ignored is a single value that is not empty and has no space. */
  lemma AgreeingIsEqualIffPlain(ignored: set<string>, o: Headers)
    ensures (forall r :: HeadersAgree(ignored, o, r) <==> HeadersEqual(ignored, o, r)) <==> AllPlain(ignored, o)
  {
    if AllPlain(ignored, o) {
      forall r ensures HeadersAgree(ignored, o, r) <==> HeadersEqual(ignored, o, r) {
        forall k | k in o && k !in ignored && k in r ensures Printed(o[k]) == Printed(r[k]) <==> o[k] == r[k] {
          EveryChangeShowsIffPlain(o[k]);
        }
      }
    } else {
      var k :| k in o && k !in ignored && !Plain(o[k]);
      EveryChangeShowsIffPlain(o[k]);
      var other :| Printed(other) == Printed(o[k]) && other != o[k];
      var r := o[k := other];
      assert HeadersAgree(ignored, o, r) && !HeadersEqual(ignored, o, r);
    }
  }

  /** Equal as JSON values, up to the order of array elements if it is ignored; or both the same
      text, when the recorded one is not JSON. */
  ghost predicate BodiesAgree(c: Config, o: string, r: string) {
    match c.parse(o)
    case None => o == r
    case Some(e) =>
      c.parse(r).Some? && if c.ignoreOrder then PermEq(e, c.parse(r).value) else e == c.parse(r).value
  }

  ghost predicate PairAgrees(c: Config, o: Record, r: Record) {
    && o.response.status == r.response.status
    && HeadersAgree(c.ignoreHeaders, o.response.headers, r.response.headers)
    && BodiesAgree(c, o.response.body, r.response.body)
    && S.Agree(o.sideEffects, r.sideEffects)
  }

  lemma {:induction false} HeadersSilent(
    ignored: set<string>, o: Headers, r: Headers, keys: seq<string>, n: nat)
    requires n <= |keys|
    ensures HeaderDiffs(ignored, o, r, keys, n) == [] <==>
      forall i :: 0 <= i < n && keys[i] in o && keys[i] !in ignored ==>
        keys[i] in r && Printed(o[keys[i]]) == Printed(r[keys[i]])
    decreases n
  {
    if n > 0 {
      HeadersSilent(ignored, o, r, keys, n - 1);
    }
  }

  lemma HeadersSilentIff(ignored: set<string>, o: Headers, r: Headers, keys: seq<string>)
    requires WalksAll(keys, o.Keys)
    ensures HeaderDiffs(ignored, o, r, keys, |keys|) == [] <==> HeadersAgree(ignored, o, r)
  {
    HeadersSilent(ignored, o, r, keys, |keys|);
    if HeaderDiffs(ignored, o, r, keys, |keys|) == [] {
      forall k | k in o && k !in ignored ensures k in r && Printed(o[k]) == Printed(r[k]) {
        assert k in keys;
        var i :| 0 <= i < |keys| && keys[i] == k;
      }
    }
  }

  lemma BodySilentIff(c: Config, o: string, r: string)
    ensures BodyDiffs(c, o, r) == [] <==> BodiesAgree(c, o, r)
  {
    if c.parse(o).Some? && c.parse(r).Some? {
      var e, a := c.parse(o).value, c.parse(r).value;
      if c.ignoreOrder {
        UnorderedZeroIffPermEq([], e, a);
        PermEqReflexive(e);
      } else {
        OrderedZeroIffEqual([], e, a);
      }
    }
  }

  /** Nothing at all is reported for a pair exactly when status, headers, bodies and side
      effects agree. */
  lemma RawEmptyIffAgree(c: Config, o: Record, r: Record)
    requires WalksHeaders(c.order)
    ensures RawDiffs(c, o, r) == [] <==> PairAgrees(c, o, r)
  {
    assert WalksAll(c.order(o), o.response.headers.Keys);
    HeadersSilentIff(c.ignoreHeaders, o.response.headers, r.response.headers, c.order(o));
    BodySilentIff(c, o.response.body, r.response.body);
    S.SideEffectsSilentIff(o.sideEffects, r.sideEffects);
  }

  /** When no rule covers any of its differences, a pair matches exactly when the replay did
      not fail and status, headers, bodies and side effects agree. */
  lemma UncoveredMatchesIffAgree(rs: RuleSet, maxDiffs: nat, c: Config, o: Record, r: Record)
    requires WalksHeaders(c.order) && forall d :: d in RawDiffs(c, o, r) ==> !Covered(rs, d)
    ensures Compared(rs, maxDiffs, o, r, RawDiffs(c, o, r)).matches <==> r.error == "" && PairAgrees(c, o, r)
  {
    RawIsUnmarked(c, o, r);
    MarkedAllIgnored(rs, RawDiffs(c, o, r));
    RawEmptyIffAgree(c, o, r);
    var raw := RawDiffs(c, o, r);
    if raw != [] { assert raw[0] in raw; }
  }

  /** Whatever the rules: a pair whose status, headers, bodies and side effects agree matches,
      and one that does not agree matches only if rules cover all its differences. */
  lemma MatchesIffAgreeOrCovered(rs: RuleSet, maxDiffs: nat, c: Config, o: Record, r: Record)
    requires WalksHeaders(c.order)
    ensures Compared(rs, maxDiffs, o, r, RawDiffs(c, o, r)).matches <==>
      r.error == "" && (PairAgrees(c, o, r) || forall d :: d in RawDiffs(c, o, r) ==> Covered(rs, d))
  {
    RawIsUnmarked(c, o, r);
    MarkedAllIgnored(rs, RawDiffs(c, o, r));
    RawEmptyIffAgree(c, o, r);
  }

  // ----- the session -----

  ghost function Compare(c: Config): Comparer {
    (o, r) => RawDiffs(c, o, r)
  }

  ghost predicate Reproduced(c: Config, original: Record, replay: Option<Record>) {
    replay.Some? && replay.value.error == "" && PairAgrees(c, original, replay.value)
  }

  /** The original has a successful replay, and all differences from it are covered. */
  ghost predicate Excused(rs: RuleSet, c: Config, original: Record, replay: Option<Record>) {
    && replay.Some? && replay.value.error == ""
    && forall d :: d in RawDiffs(c, original, replay.value) ==> Covered(rs, d)
  }

  /** Whatever the rules and the number of differences kept, failing on differences passes exactly
      when every original has a successful replay that agrees with it, or whose differences from
      it are all covered. */
  lemma PassesIffReproducedOrExcused(
    rs: RuleSet, maxDiffs: nat, c: Config, originals: seq<Record>, replays: seq<Record>)
    requires WalksHeaders(c.order)
    ensures !Fails(FailOnDiff, SummaryOf(ResultsFor(rs, maxDiffs, Compare(c), originals, replays))) <==>
      forall i :: 0 <= i < |originals| ==>
        var replay := Latest(replays, originals[i].sequence);
        Reproduced(c, originals[i], replay) || Excused(rs, c, originals[i], replay)
  {
    var results := ResultsFor(rs, maxDiffs, Compare(c), originals, replays);
    SummaryCounts(results);
    forall i | 0 <= i < |originals|
      ensures var replay := Latest(replays, originals[i].sequence);
        results[i].matches <==> Reproduced(c, originals[i], replay) || Excused(rs, c, originals[i], replay)
    {
      var replay := Latest(replays, originals[i].sequence);
      if replay.Some? { MatchesIffAgreeOrCovered(rs, maxDiffs, c, originals[i], replay.value); }
    }
  }

  const LOST_HEADER: Entry := Raw("headers." + "A", Texts(["v"]), Null, LevelWarning)
  const OTHER_BODY: Entry := Raw("body", Text("x"), Text("y"), LevelError)

  lemma UncoveredIsUnmarked(rs: RuleSet, n: nat, d: Entry)
    requires n <= |rs.rules| && !Covered(rs, d)
    ensures MarkedBy(rs, n, d) == d
    decreases n
  {
    if n > 0 { UncoveredIsUnmarked(rs, n - 1, d); }
  }

  /** A session of one record whose replay lacks a header and has another body, neither of which
      any rule covers: failing on errors fails when two or more differences are kept, and
      passes when one is. */
  lemma TruncationFlipsErrorVerdict(rs: RuleSet, n: nat, c: Config)
    requires n > 1 && !Covered(rs, LOST_HEADER) && !Covered(rs, OTHER_BODY)
    requires WalksHeaders(c.order) && "A" !in c.ignoreHeaders && c.parse("x") == None
    ensures
      var original := Record("r", 1, "", Response(200, map["A" := ["v"]], "x"), []);
      var replay := Record("r", 1, "", Response(200, map[], "y"), []);
      && Fails(FailOnError, SummaryOf(ResultsFor(rs, n, Compare(c), [original], [replay])))
      && !Fails(FailOnError, SummaryOf(ResultsFor(rs, 1, Compare(c), [original], [replay])))
  {
    var original := Record("r", 1, "", Response(200, map["A" := ["v"]], "x"), []);
    var replay := Record("r", 1, "", Response(200, map[], "y"), []);
    OneHeader(c, original, "A");
    assert HeaderDiffs(c.ignoreHeaders, original.response.headers, map[], ["A"], 1) == [LOST_HEADER];
    S.SideEffectsSilentIff([], []);
    UncoveredIsUnmarked(rs, |rs.rules|, LOST_HEADER);
    UncoveredIsUnmarked(rs, |rs.rules|, OTHER_BODY);
    var ds := MarkedAll(rs, RawDiffs(c, original, replay));
    assert ds == [LOST_HEADER, OTHER_BODY];
    assert ds[1..] == [OTHER_BODY] && FirstError(ds) == 1;
    assert Latest([replay], 1) == Some(replay) && [original][0] == original;
    ErrorVerdictIff(rs, n, Compare(c), [original], [replay]);
    ErrorVerdictIff(rs, 1, Compare(c), [original], [replay]);
    assert ErrorWithin(rs, n, Compare(c), original, Some(replay));
    assert !ErrorWithin(rs, 1, Compare(c), original, Some(replay));
  }

  /** Two responses that differ in a header's values, and are reported to match. */
  lemma UnequalHeadersMatch(rs: RuleSet, maxDiffs: nat, c: Config)
    requires WalksHeaders(c.order) && "A" !in c.ignoreHeaders
    ensures
      var original := Record("r", 1, "", Response(200, map["A" := ["a b"]], ""), []);
      var replay := Record("r", 1, "", Response(200, map["A" := ["a", "b"]], ""), []);
      && !HeadersEqual(c.ignoreHeaders, original.response.headers, replay.response.headers)
      && RawDiffs(c, original, replay) == []
      && Compared(rs, maxDiffs, original, replay, RawDiffs(c, original, replay)).matches
  {
    var original := Record("r", 1, "", Response(200, map["A" := ["a b"]], ""), []);
    var replay := Record("r", 1, "", Response(200, map["A" := ["a", "b"]], ""), []);
    var oh, rh := original.response.headers, replay.response.headers;
    assert ["a", "b"][1..] == ["b"];
    assert oh["A"] == ["a b"] && |oh["A"]| == 1 && |rh["A"]| == 2;
    assert Printed(oh["A"]) == Printed(rh["A"]);
    S.SideEffectsSilentIff([], []);
    assert WalksAll(c.order(original), oh.Keys);
    HeadersSilentIff(c.ignoreHeaders, oh, rh, c.order(original));
    MatchesIffAgreeOrCovered(rs, maxDiffs, c, original, replay);
  }

  lemma OneHeader(c: Config, r: Record, k: string)
    requires WalksHeaders(c.order) && r.response.headers.Keys == {k}
    ensures c.order(r) == [k]
  {
    var ks := c.order(r);
    assert WalksAll(ks, {k});
    assert k in ks && (|ks| > 1 ==> ks[0] != ks[1]);
    forall i | 0 <= i < |ks| ensures ks[i] == k { assert ks[i] in ks; }
  }
}
