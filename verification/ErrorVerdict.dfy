/** What the differences of a pair say of the two records, and what it means for the records of a
    session that failing on errors passes. */
module ErrorVerdict {
  import opened Effects
  import opened JsonDiff
  import opened JsonEquivalence
  import opened JsonPatch
  import opened Records
  import opened DiffEngine
  import opened HeaderText
  import opened RecordComparison
  import AsciiText
  import ReportText
  import T = JsonTruth
  import S = SideEffectDiff

  // ----- the entries are true -----

  /** One about the status says both of them, and is an error. */
  lemma StatusEntryIsTrue(o: Response, r: Response, d: Entry)
    ensures d in StatusDiffs(o, r) <==>
      && o.status != r.status
      && d == Entry("statusCode", Number(o.status as real), Number(r.status as real), LevelError, false, "")
  {
  }

  /** One about a header is a warning; it says the recorded values, and the replayed ones, if any. */
  ghost predicate HeaderEntry(ignored: set<string>, o: Headers, r: Headers, k: string, d: Entry) {
    && k in o && k !in ignored && d.path == "headers." + k && d.severity == LevelWarning && !d.ignored
    && d.expected == Texts(o[k])
    && (if k in r then d.actual == Texts(r[k]) && Printed(o[k]) != Printed(r[k]) else d.actual == Null)
  }

  lemma {:induction false} HeaderEntryIsTrue(
    ignored: set<string>, o: Headers, r: Headers, keys: seq<string>, n: nat, d: Entry)
    requires n <= |keys| && d in HeaderDiffs(ignored, o, r, keys, n)
    ensures exists k :: HeaderEntry(ignored, o, r, k, d)
    decreases n
  {
    var k := keys[n - 1];
    if d in HeaderDiffs(ignored, o, r, keys, n - 1) {
      HeaderEntryIsTrue(ignored, o, r, keys, n - 1, d);
    } else {
      assert HeaderEntry(ignored, o, r, k, d);
    }
  }

  /** One about bodies that are not both JSON says both texts; if the recorded one is not JSON, it
      is there exactly when they differ, and if only the replayed one is not, unless both are empty. */
  lemma TextEntryIsTrue(c: Config, o: string, r: string, d: Entry)
    requires c.parse(o) == None || c.parse(r) == None
    ensures d in BodyDiffs(c, o, r) <==>
      && (o != r || (c.parse(o).Some? && o != ""))
      && d == Entry("body", Text(o), Text(r), LevelError, false, "")
  {
  }

  /** The value at some steps, or null. */
  function ValueAt(v: Json, steps: Path): Json {
    match T.At(v, steps)
    case Some(x) => x
    case None => Null
  }

  /** One about a body of JSON says what the two values have at its path, but for two lengths. */
  lemma BodyEntryIsTrue(ignoreOrder: bool, e: Json, a: Json, d: Difference)
    requires d in Diffs(ignoreOrder, [], e, a)
    ensures var entry := BodyEntry(d);
      match d.change
      case LengthDiffers(_, _) =>
        && T.At(e, d.path).Some? && T.At(e, d.path).value.Array?
        && T.At(a, d.path).Some? && T.At(a, d.path).value.Array?
        && entry.expected == Number(|T.At(e, d.path).value.items| as real)
        && entry.actual == Number(|T.At(a, d.path).value.items| as real)
      case ElementNotFound(_) => entry.expected == ValueAt(e, d.path) && entry.actual == Null
      case ExtraElement(y) => entry.expected == Null && entry.actual == y
      case _ => entry.expected == ValueAt(e, d.path) && entry.actual == ValueAt(a, d.path)
  {
    T.DiffsAreTrue(ignoreOrder, [], e, a);
    assert T.TrueBelow([], e, a, d);
    assert d.path[0..] == d.path;
  }

  /** One about a side effect names its place, and says what the records have there. */
  lemma SideEntryIsTrue(o: seq<S.SideEffect>, r: seq<S.SideEffect>, d: S.SideDiff)
    requires d in S.SideEffectDiffs(o, r) && !d.AspectDiffers?
    ensures var os, rs := S.Sqls(o, {S.MySql, S.Postgres}), S.Sqls(r, {S.MySql, S.Postgres});
      var oc, rc := S.Redises(o), S.Redises(r);
      var entry := SideEntry(d);
      match d
      case SqlCount(_, _) => SaysCounts(entry, "sideEffects.db", |os|, |rs|)
      case MongoCount(_, _) => SaysCounts(entry, "sideEffects.mongo", |S.Mongos(o)|, |S.Mongos(r)|)
      case RedisCount(_, _) => SaysCounts(entry, "sideEffects.redis", |oc|, |rc|)
      case ResidualCount(_, _) =>
        var handled := {S.MySql, S.Postgres, S.MongoDb, S.RedisDb};
        SaysCounts(entry, "sideEffects", S.Residuals(o, handled), S.Residuals(r, handled))
      case SqlDiffers(i, _, _) =>
        && i < |os| && i < |rs|
        && entry.path == "sideEffects.db[" + Digits(i) + "].query" && entry.severity == LevelError
        && entry.expected == Text(CharsOf(os[i])) && entry.actual == Text(CharsOf(rs[i]))
      case ArgsDiffer(i, _, _) =>
        && i < |oc| && i < |rc|
        && entry.path == "sideEffects.redis[" + Digits(i) + "].args" && entry.severity == LevelError
        && entry.expected == ArgTexts(oc[i].args) && entry.actual == ArgTexts(rc[i].args)
      case _ => true
  {
    S.ReportedIffTrue(o, r, d);
  }

  /** One about a single aspect too; a Mongo database name alone is no error. */
  lemma AspectEntryIsTrue(o: seq<S.SideEffect>, r: seq<S.SideEffect>, d: S.SideDiff)
    requires d in S.SideEffectDiffs(o, r) && d.AspectDiffers?
    ensures var (om, rm, oc, rc, i) := (S.Mongos(o), S.Mongos(r), S.Redises(o), S.Redises(r), d.index);
      var entry := SideEntry(d);
      match d.aspect
      case Collection =>
        && i < |om| && i < |rm|
        && SaysTexts(entry, "mongo", i, "collection", om[i].collection, rm[i].collection, LevelError)
      case Operation =>
        && i < |om| && i < |rm|
        && SaysTexts(entry, "mongo", i, "operation", om[i].operation, rm[i].operation, LevelError)
      case Database =>
        && i < |om| && i < |rm|
        && SaysTexts(entry, "mongo", i, "database", om[i].database, rm[i].database, LevelWarning)
      case Command =>
        && i < |oc| && i < |rc|
        && SaysTexts(entry, "redis", i, "command", oc[i].command, rc[i].command, LevelError)
      case Key =>
        && i < |oc| && i < |rc|
        && SaysTexts(entry, "redis", i, "key", oc[i].key, rc[i].key, LevelError)
  {
    S.ReportedIffTrue(o, r, d);
    AspectPathIs(d.index, d.aspect);
  }

  lemma AspectPathIs(i: nat, aspect: S.Aspect)
    ensures AspectPath(i, aspect) ==
      match aspect
      case Collection => AspectText("mongo", i, "collection")
      case Operation => AspectText("mongo", i, "operation")
      case Database => AspectText("mongo", i, "database")
      case Command => AspectText("redis", i, "command")
      case Key => AspectText("redis", i, "key")
  {
    assert "sideEffects." + "mongo" + "[" == "sideEffects.mongo[";
    assert "sideEffects." + "redis" + "[" == "sideEffects.redis[";
    assert "]." + "collection" == "].collection" && "]." + "operation" == "].operation";
    assert "]." + "database" == "].database" && "]." + "command" == "].command" && "]." + "key" == "].key";
  }

  predicate SaysCounts(d: Entry, path: string, n: nat, m: nat) {
    d == Entry(path, Number(n as real), Number(m as real), LevelError, false, "")
  }

  predicate SaysTexts(
    d: Entry, kind: string, i: nat, aspect: string, x: AsciiText.Text, y: AsciiText.Text, level: Level)
  {
    d == Entry(AspectText(kind, i, aspect), Text(CharsOf(x)), Text(CharsOf(y)), level, false, "")
  }

  function AspectText(kind: string, i: nat, aspect: string): string {
    ("sideEffects." + kind + "[") + Digits(i) + ("]." + aspect)
  }

  // ----- their order -----

  /** The status ahead of the headers, these ahead of the body, and that ahead of side effects. */
  function Place(d: Entry): int {
    if d.path == "statusCode" then 1
    else if d.path != "" && d.path[0] == 'h' then 2
    else if d.path != "" && d.path[0] == 'b' then 3
    else 4
  }

  ghost predicate AllAt(ds: seq<Entry>, place: int) {
    forall d :: d in ds ==> Place(d) == place
  }

  lemma {:induction false} HeadersAreSecond(ignored: set<string>, o: Headers, r: Headers, keys: seq<string>)
    ensures AllAt(HeaderDiffs(ignored, o, r, keys, |keys|), 2)
  {
    forall d | d in HeaderDiffs(ignored, o, r, keys, |keys|) ensures Place(d) == 2 {
      HeaderEntryIsTrue(ignored, o, r, keys, |keys|, d);
      var k :| HeaderEntry(ignored, o, r, k, d);
      assert d.path[0] == 'h';
    }
  }

  lemma BodyIsThird(c: Config, o: string, r: string)
    ensures AllAt(BodyDiffs(c, o, r), 3)
  {
    if c.parse(o).Some? && c.parse(r).Some? {
      var ds := Diffs(c.ignoreOrder, [], c.parse(o).value, c.parse(r).value);
      forall d | d in BodyEntries(ds) ensures Place(d) == 3 {
        var i :| 0 <= i < |ds| && d == BodyEntry(ds[i]);
        ReportText.PathTextStart(ds[i].path);
      }
    }
  }

  lemma SideIsLast(ds: seq<S.SideDiff>)
    ensures AllAt(SideEntries(ds), 4)
  {
    forall i | 0 <= i < |ds| ensures Place(SideEntry(ds[i])) == 4 {
      var path := SideEntry(ds[i]).path;
      assert path[0] == 's' && path[1] == 'i';
    }
  }

  /** This order decides which differences are kept when some are cut off. */
  lemma ReportIsInOrder(c: Config, o: Record, r: Record, i: nat, j: nat)
    requires i < j < |RawDiffs(c, o, r)|
    ensures Place(RawDiffs(c, o, r)[i]) <= Place(RawDiffs(c, o, r)[j])
  {
    var status, keys := StatusDiffs(o.response, r.response), c.order(o);
    HeadersAreSecond(c.ignoreHeaders, o.response.headers, r.response.headers, keys);
    BodyIsThird(c, o.response.body, r.response.body);
    SideIsLast(S.SideEffectDiffs(o.sideEffects, r.sideEffects));
    InFourParts(status, HeaderDiffs(c.ignoreHeaders, o.response.headers, r.response.headers, keys, |keys|),
      BodyDiffs(c, o.response.body, r.response.body),
      SideEntries(S.SideEffectDiffs(o.sideEffects, r.sideEffects)), i, j);
  }

  lemma InFourParts(a: seq<Entry>, b: seq<Entry>, c: seq<Entry>, d: seq<Entry>, i: nat, j: nat)
    requires AllAt(a, 1) && AllAt(b, 2) && AllAt(c, 3) && AllAt(d, 4)
    requires i < j < |a + b + c + d|
    ensures Place((a + b + c + d)[i]) <= Place((a + b + c + d)[j])
  {
  }

  // ----- entries that are errors -----

  ghost predicate NoErrorIn(ds: seq<Entry>) {
    forall d :: d in ds ==> d.severity != LevelError
  }

  lemma FourWithoutError(status: seq<Entry>, headers: seq<Entry>, body: seq<Entry>, side: seq<Entry>)
    ensures NoErrorIn(status + headers + body + side)
      <==> NoErrorIn(status) && NoErrorIn(headers) && NoErrorIn(body) && NoErrorIn(side)
  {
    if NoErrorIn(status + headers + body + side) {
      forall d | d in status || d in headers || d in body || d in side ensures d.severity != LevelError {
        assert d in status + headers + body + side;
      }
    }
  }

  lemma HeadersWithoutError(ignored: set<string>, o: Headers, r: Headers, keys: seq<string>)
    ensures NoErrorIn(HeaderDiffs(ignored, o, r, keys, |keys|))
  {
    forall d | d in HeaderDiffs(ignored, o, r, keys, |keys|) ensures d.severity != LevelError {
      HeaderEntryIsTrue(ignored, o, r, keys, |keys|, d);
    }
  }

  /** Equal as texts when the recorded body is not JSON; else both JSON, and the replayed value
      extends the recorded one. */
  ghost predicate BodyHolds(c: Config, o: string, r: string) {
    match c.parse(o)
    case None => o == r
    case Some(e) =>
      && c.parse(r).Some?
      && if c.ignoreOrder then ExtendsUnordered(e, c.parse(r).value) else Extends(e, c.parse(r).value)
  }

  lemma EntriesWithoutError(ds: seq<Difference>)
    ensures NoErrorIn(BodyEntries(ds)) <==> NoErrors(ds)
  {
    forall i | 0 <= i < |ds|
      ensures BodyEntries(ds)[i].severity == LevelError <==> SeverityOf(ds[i].change) == Error {}
    if NoErrorIn(BodyEntries(ds)) {
      forall d | d in ds ensures SeverityOf(d.change) != Error {
        var i :| 0 <= i < |ds| && ds[i] == d;
        assert BodyEntries(ds)[i] in BodyEntries(ds);
      }
    }
  }

  lemma BodyWithoutError(c: Config, o: string, r: string)
    ensures NoErrorIn(BodyDiffs(c, o, r)) <==> BodyHolds(c, o, r)
  {
    if c.parse(o).Some? && c.parse(r).Some? {
      var e, a := c.parse(o).value, c.parse(r).value;
      NoErrorsIffExtends([], e, a);
      NoErrorsIffExtendsUnordered([], e, a);
      if o == "" && r == "" {
        OrderedZeroIffEqual([], e, a);
        PermEqReflexive(e);
        UnorderedZeroIffPermEq([], e, a);
      }
      EntriesWithoutError(Diffs(c.ignoreOrder, [], e, a));
    } else {
      var d := Raw("body", Text(o), Text(r), LevelError);
      assert d in [d] && d.severity == LevelError;
    }
  }

  /** SQL statements of the same words up to case, Mongo collections and operations, and Redis
      commands, keys and arguments, all in the same number and order; and as many other effects.
      Mongo database names are free. */
  ghost predicate SideHolds(o: seq<S.SideEffect>, r: seq<S.SideEffect>) {
    && S.SameStatements(S.Sqls(o, S.SQL_TYPES), S.Sqls(r, S.SQL_TYPES))
    && SameOperations(S.Mongos(o), S.Mongos(r))
    && S.Redises(o) == S.Redises(r)
    && S.Residuals(o, S.HANDLED) == S.Residuals(r, S.HANDLED)
  }

  ghost predicate SameOperations(o: seq<S.Mongo>, r: seq<S.Mongo>) {
    |o| == |r| && forall i :: 0 <= i < |o| ==> o[i].collection == r[i].collection && o[i].operation == r[i].operation
  }

  predicate IsSideError(d: S.SideDiff) {
    !(d.AspectDiffers? && d.aspect.Database?)
  }

  lemma SideEntriesWithoutError(ds: seq<S.SideDiff>)
    ensures NoErrorIn(SideEntries(ds)) <==> forall d :: d in ds ==> !IsSideError(d)
  {
    forall i | 0 <= i < |ds| ensures SideEntries(ds)[i].severity == LevelError <==> IsSideError(ds[i]) {}
    if NoErrorIn(SideEntries(ds)) {
      forall d | d in ds ensures !IsSideError(d) {
        var i :| 0 <= i < |ds| && ds[i] == d;
        assert SideEntries(ds)[i] in SideEntries(ds);
      }
    }
  }

  lemma SideWithoutError(o: seq<S.SideEffect>, r: seq<S.SideEffect>)
    ensures NoErrorIn(SideEntries(S.SideEffectDiffs(o, r))) <==> SideHolds(o, r)
  {
    SideEntriesWithoutError(S.SideEffectDiffs(o, r));
    forall d ensures d in S.SideEffectDiffs(o, r) <==> S.IsTrue(o, r, d) { S.ReportedIffTrue(o, r, d); }
    if SideHolds(o, r) {
      HoldsWithoutError(o, r);
    } else if forall d :: IsSideError(d) ==> !S.IsTrue(o, r, d) {
      NoTrueErrorHolds(o, r);
    }
  }

  lemma HoldsWithoutError(o: seq<S.SideEffect>, r: seq<S.SideEffect>)
    requires SideHolds(o, r)
    ensures forall d :: IsSideError(d) ==> !S.IsTrue(o, r, d)
  {
  }

  lemma NoTrueErrorHolds(o: seq<S.SideEffect>, r: seq<S.SideEffect>)
    requires forall d :: IsSideError(d) ==> !S.IsTrue(o, r, d)
    ensures SideHolds(o, r)
  {
    var os, rs := S.Sqls(o, S.SQL_TYPES), S.Sqls(r, S.SQL_TYPES);
    var om, rm := S.Mongos(o), S.Mongos(r);
    var oc, rc := S.Redises(o), S.Redises(r);
    assert !S.IsTrue(o, r, S.SqlCount(|os|, |rs|));
    forall i | 0 <= i < |os| ensures S.SameStatement(os[i], rs[i]) {
      assert !S.IsTrue(o, r, S.SqlDiffers(i, os[i], rs[i]));
    }
    assert !S.IsTrue(o, r, S.MongoCount(|om|, |rm|));
    forall i | 0 <= i < |om| ensures om[i].collection == rm[i].collection && om[i].operation == rm[i].operation {
      assert !S.IsTrue(o, r, S.AspectDiffers(i, S.Collection, om[i].collection, rm[i].collection));
      assert !S.IsTrue(o, r, S.AspectDiffers(i, S.Operation, om[i].operation, rm[i].operation));
    }
    assert !S.IsTrue(o, r, S.RedisCount(|oc|, |rc|));
    forall i | 0 <= i < |oc| ensures oc[i] == rc[i] {
      assert !S.IsTrue(o, r, S.AspectDiffers(i, S.Command, oc[i].command, rc[i].command));
      assert !S.IsTrue(o, r, S.AspectDiffers(i, S.Key, oc[i].key, rc[i].key));
      assert !S.IsTrue(o, r, S.ArgsDiffer(i, oc[i].args, rc[i].args));
    }
    assert !S.IsTrue(o, r, S.ResidualCount(S.Residuals(o, S.HANDLED), S.Residuals(r, S.HANDLED)));
  }

  // ----- the pair and the session -----

  /** What a replay must have kept for no difference to be an error; headers are free. */
  ghost predicate Holds(c: Config, o: Record, r: Record) {
    && o.response.status == r.response.status
    && BodyHolds(c, o.response.body, r.response.body)
    && SideHolds(o.sideEffects, r.sideEffects)
  }

  lemma PairWithoutError(c: Config, o: Record, r: Record)
    ensures NoErrorIn(RawDiffs(c, o, r)) <==> Holds(c, o, r)
  {
    var status, keys := StatusDiffs(o.response, r.response), c.order(o);
    if status != [] { assert status[0] in status; }
    HeadersWithoutError(c.ignoreHeaders, o.response.headers, r.response.headers, keys);
    BodyWithoutError(c, o.response.body, r.response.body);
    SideWithoutError(o.sideEffects, r.sideEffects);
    FourWithoutError(status, HeaderDiffs(c.ignoreHeaders, o.response.headers, r.response.headers, keys, |keys|),
      BodyDiffs(c, o.response.body, r.response.body), SideEntries(S.SideEffectDiffs(o.sideEffects, r.sideEffects)));
  }

  /** Every error among the differences of a pair is covered by a rule. */
  ghost predicate ErrorsCovered(rs: RuleSet, c: Config, o: Record, r: Record) {
    forall d :: d in RawDiffs(c, o, r) && d.severity == LevelError ==> Covered(rs, d)
  }

  /** A successful replay whose errors are all covered. */
  ghost predicate Forgiven(rs: RuleSet, c: Config, o: Record, replay: Option<Record>) {
    replay.Some? && replay.value.error == "" && ErrorsCovered(rs, c, o, replay.value)
  }

  lemma PairError(rs: RuleSet, m: nat, c: Config, o: Record, replay: Option<Record>)
    requires PairFits(m, Compare(c), o, replay)
    ensures ErrorWithin(rs, m, Compare(c), o, replay)
      <==> !Forgiven(rs, c, o, replay)
  {
    if replay.Some? && replay.value.error == "" {
      var raw := RawDiffs(c, o, replay.value);
      var ds := MarkedAll(rs, raw);
      RawIsUnmarked(c, o, replay.value);
      FirstErrorIsFirst(ds);
      forall i | 0 <= i < |raw| ensures IsError(ds[i]) <==> raw[i].severity == LevelError && !Covered(rs, raw[i]) {
        assert raw[i] in raw;
        IgnoredIffCovered(rs, |rs.rules|, raw[i]);
        MarkingKeepsRest(rs, |rs.rules|, raw[i]);
      }
      if ErrorsCovered(rs, c, o, replay.value) {
        assert forall i :: 0 <= i < |raw| ==> raw[i] in raw;
      } else {
        var d :| d in raw && d.severity == LevelError && !Covered(rs, d);
        var i :| 0 <= i < |raw| && raw[i] == d;
        assert IsError(ds[i]);
      }
    }
  }

  /** With nothing truncated and whatever the rules, failing on errors passes exactly when every
      original has a successful replay all of whose errors are covered. */
  lemma PassesOnErrorsIff(rs: RuleSet, m: nat, c: Config, originals: seq<Record>, replays: seq<Record>)
    requires NothingTruncated(m, Compare(c), originals, replays)
    ensures !Fails(FailOnError, SummaryOf(ResultsFor(rs, m, Compare(c), originals, replays))) <==>
      forall i :: 0 <= i < |originals| ==> Forgiven(rs, c, originals[i], Latest(replays, originals[i].sequence))
  {
    ErrorVerdictIff(rs, m, Compare(c), originals, replays);
    forall i | 0 <= i < |originals|
      ensures var replay := Latest(replays, originals[i].sequence);
        ErrorWithin(rs, m, Compare(c), originals[i], replay) <==> !Forgiven(rs, c, originals[i], replay)
    {
      var replay := Latest(replays, originals[i].sequence);
      assert PairFits(m, Compare(c), originals[i], replay);
      PairError(rs, m, c, originals[i], replay);
    }
  }

  /** No rule covers any difference of the replay. */
  ghost predicate NoneCovered(rs: RuleSet, c: Config, o: Record, replay: Option<Record>) {
    replay.Some? ==> forall d :: d in RawDiffs(c, o, replay.value) ==> !Covered(rs, d)
  }

  ghost predicate HeldBy(c: Config, o: Record, replay: Option<Record>) {
    replay.Some? && replay.value.error == "" && Holds(c, o, replay.value)
  }

  /** When also no rule covers a difference: exactly when every original has a successful replay
      with the same status, a body that extends the recorded one, and the same side effects but
      for Mongo database names. */
  lemma PassesOnErrorsIffHeld(rs: RuleSet, m: nat, c: Config, originals: seq<Record>, replays: seq<Record>)
    requires NothingTruncated(m, Compare(c), originals, replays)
    requires forall i :: 0 <= i < |originals| ==>
      NoneCovered(rs, c, originals[i], Latest(replays, originals[i].sequence))
    ensures !Fails(FailOnError, SummaryOf(ResultsFor(rs, m, Compare(c), originals, replays))) <==>
      forall i :: 0 <= i < |originals| ==> HeldBy(c, originals[i], Latest(replays, originals[i].sequence))
  {
    PassesOnErrorsIff(rs, m, c, originals, replays);
    forall i | 0 <= i < |originals|
      ensures var replay := Latest(replays, originals[i].sequence);
        Forgiven(rs, c, originals[i], replay) <==> HeldBy(c, originals[i], replay)
    {
      var replay := Latest(replays, originals[i].sequence);
      assert NoneCovered(rs, c, originals[i], replay);
      if replay.Some? { PairWithoutError(c, originals[i], replay.value); }
    }
  }
}
