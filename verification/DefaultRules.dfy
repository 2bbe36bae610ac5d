/** The engine as it is configured without rules of the user's own: the default rules, matchers
    and ignored headers, and what they make of the verdict. */
module DefaultRules {
  import opened Effects
  import opened JsonDiff
  import opened JsonEquivalence
  import opened JsonTolerance
  import opened Records
  import opened DiffEngine
  import opened RecordComparison
  import opened PathPatterns
  import ReportText
  import S = SideEffectDiff

  // ----- matchers -----

  predicate Digit(c: char) { '0' <= c <= '9' }

  predicate HexDigit(c: char) { Digit(c) || 'a' <= c <= 'f' || 'A' <= c <= 'F' }

  /** Each character of the form stands for a digit (d), a blank or T (t), a hexadecimal digit (h),
      or itself. */
  predicate HasForm(form: string, s: string)
    requires |form| <= |s|
  {
    forall i :: 0 <= i < |form| ==>
      match form[i]
      case 'd' => Digit(s[i])
      case 't' => s[i] == 'T' || s[i] == ' '
      case 'h' => HexDigit(s[i])
      case c => s[i] == c
  }

  const TIMESTAMP: string := "dddd-dd-ddtdd:dd"
  const UUID: string := "hhhhhhhh-hhhh-hhhh-hhhh-hhhhhhhhhhhh"

  predicate LooksLikeTimestamp(s: string) {
    |TIMESTAMP| <= |s| && HasForm(TIMESTAMP, s)
  }

  predicate LooksLikeUuid(s: string) {
    |UUID| == |s| && HasForm(UUID, s)
  }

  predicate TimestampMatcher(path: string, e: Json, a: Json) {
    e.Text? && a.Text? && LooksLikeTimestamp(e.s) && LooksLikeTimestamp(a.s)
  }

  predicate UuidMatcher(path: string, e: Json, a: Json) {
    e.Text? && a.Text? && LooksLikeUuid(e.s) && LooksLikeUuid(a.s)
  }

  predicate NumericToleranceMatcher(path: string, e: Json, a: Json) {
    e.Number? && a.Number? && -0.001 <= e.n - a.n <= 0.001
  }

  const MATCHERS: map<string, (string, Json, Json) -> bool> :=
    map["timestamp" := TimestampMatcher, "uuid" := UuidMatcher, "numeric_tolerance" := NumericToleranceMatcher]

  // ----- configuration -----

  const TIMESTAMP_ENDS: seq<string> := [".createdAt", ".updatedAt", ".created_at", ".updated_at", ".timestamp"]
  const REQUEST_IDS: seq<string> := ["X-Request-Id", "X-Trace-Id", "Date", "Server"]

  /** At any depth. */
  function Anywhere(ends: seq<string>): seq<string> {
    seq(|ends|, i requires 0 <= i < |ends| => "**" + ends[i])
  }

  function HeaderPaths(names: seq<string>): seq<string> {
    seq(|names|, i requires 0 <= i < |names| => "headers." + names[i])
  }

  const IGNORE_TIMESTAMPS: Rule := Rule("ignore_timestamps", Custom("timestamp"), Anywhere(TIMESTAMP_ENDS))
  const IGNORE_REQUEST_IDS: Rule := Rule("ignore_request_ids", Ignore, HeaderPaths(REQUEST_IDS))

  const DEFAULT_IGNORE_HEADERS: set<string> := {"Date", "X-Request-Id", "X-Trace-Id", "Server", "Content-Length"}
  const DEFAULT_MAX_DIFFS := 1000

  /** What NewEngine makes of the rules, the headers and the limit it is given. */
  function EngineRules(custom: seq<Rule>): RuleSet {
    RuleSet([IGNORE_TIMESTAMPS, IGNORE_REQUEST_IDS] + custom, Compile, MATCHERS)
  }

  function EngineConfig(c: Config): Config {
    c.(ignoreHeaders := DEFAULT_IGNORE_HEADERS + c.ignoreHeaders)
  }

  function EngineLimit(maxDiffs: int): nat {
    if maxDiffs <= 0 then DEFAULT_MAX_DIFFS else maxDiffs
  }

  const DEFAULT: RuleSet := EngineRules([])

  // ----- what the default rules cover -----

  /** With one of the endings, and on one line before it. */
  predicate EndsWithSome(ends: seq<string>, path: string) {
    exists i :: 0 <= i < |ends| && EndsWith(path, ends[i]) && '\n' !in path[..|path| - |ends[i]|]
  }

  predicate TimestampPath(path: string) {
    EndsWithSome(TIMESTAMP_ENDS, path)
  }

  predicate TimestampEntry(d: Entry) {
    TimestampPath(d.path) && TimestampMatcher(d.path, d.expected, d.actual)
  }

  predicate NoStars(texts: seq<string>) {
    forall i :: 0 <= i < |texts| ==> '*' !in texts[i]
  }

  lemma AnywhereMatchIff(rs: RuleSet, ends: seq<string>, path: string)
    requires rs.compile == Compile && NoStars(ends)
    ensures MatchesSome(rs, Anywhere(ends), path) <==> EndsWithSome(ends, path)
  {
    forall i | 0 <= i < |ends|
      ensures Compile(Anywhere(ends)[i])(path) <==>
        EndsWith(path, ends[i]) && '\n' !in path[..|path| - |ends[i]|]
    {
      SuffixPatternIff(ends[i], path);
    }
  }

  lemma PlainMatchIff(rs: RuleSet, paths: seq<string>, path: string)
    requires rs.compile == Compile && NoStars(paths)
    ensures MatchesSome(rs, paths, path) <==> path in paths
  {
    forall i | 0 <= i < |paths| ensures Compile(paths[i])(path) <==> path == paths[i] {
      PlainPatternFitsItself(paths[i], path);
    }
  }

  lemma NoStarsInEnds()
    ensures NoStars(TIMESTAMP_ENDS)
  {
  }

  lemma NoStarsInIds()
    ensures NoStars(HeaderPaths(REQUEST_IDS))
  {
    assert '*' !in "headers." && NoStars(REQUEST_IDS);
  }

  /** A difference is covered exactly when it is between two timestamps at a path with one of the
      five names, or at one of the four header paths. */
  lemma DefaultCoversIff(d: Entry)
    ensures Covered(DEFAULT, d) <==> TimestampEntry(d) || d.path in HeaderPaths(REQUEST_IDS)
  {
    NoStarsInEnds();
    NoStarsInIds();
    AnywhereMatchIff(DEFAULT, TIMESTAMP_ENDS, d.path);
    PlainMatchIff(DEFAULT, HeaderPaths(REQUEST_IDS), d.path);
    var rules := DEFAULT.rules;
    assert rules[0] == IGNORE_TIMESTAMPS && rules[1] == IGNORE_REQUEST_IDS && |rules| == 2;
    assert Covers(DEFAULT, rules[0], d) <==> TimestampEntry(d);
    assert Covers(DEFAULT, rules[1], d) <==> d.path in HeaderPaths(REQUEST_IDS);
  }

  // ----- the defaults, written out -----

  predicate AreDigits(s: string) {
    forall c :: c in s ==> c in "0123456789"
  }

  predicate AreHex(s: string) {
    forall c :: c in s ==> c in "0123456789abcdefABCDEF"
  }

  /** Year, month, day, hour and minute, and anything behind them. */
  lemma TimestampsStart(s: string)
    ensures LooksLikeTimestamp(s) <==>
      && |s| >= 16
      && AreDigits(s[0..4]) && s[4] == '-' && AreDigits(s[5..7]) && s[7] == '-' && AreDigits(s[8..10])
      && (s[10] == 'T' || s[10] == ' ')
      && AreDigits(s[11..13]) && s[13] == ':' && AreDigits(s[14..16])
  {
    DigitsAre();
    if |s| >= 16 {
      RunOf(s, 0, 4);
      RunOf(s, 5, 7);
      RunOf(s, 8, 10);
      RunOf(s, 11, 13);
      RunOf(s, 14, 16);
      assert forall i :: 0 <= i < 16 ==> TIMESTAMP[i] == "dddd-dd-ddtdd:dd"[i];
    }
  }

  /** Five groups of hexadecimal digits, and nothing else. */
  lemma UuidsAre(s: string)
    ensures LooksLikeUuid(s) <==>
      && |s| == 36
      && AreHex(s[0..8]) && s[8] == '-' && AreHex(s[9..13]) && s[13] == '-' && AreHex(s[14..18])
      && s[18] == '-' && AreHex(s[19..23]) && s[23] == '-' && AreHex(s[24..36])
  {
    if |s| == 36 {
      UuidForm(s);
      HexRunOf(s, 0, 8);
      HexRunOf(s, 9, 13);
      HexRunOf(s, 14, 18);
      HexRunOf(s, 19, 23);
      HexRunOf(s, 24, 36);
    }
  }

  predicate HexFromTo(s: string, i: nat, j: nat)
    requires i <= j <= |s|
  {
    forall k :: i <= k < j ==> HexDigit(s[k])
  }

  predicate Hyphen(i: nat) {
    i == 8 || i == 13 || i == 18 || i == 23
  }

  lemma UuidForm(s: string)
    requires |s| == 36
    ensures HasForm(UUID, s) <==>
      && HexFromTo(s, 0, 8) && HexFromTo(s, 9, 13) && HexFromTo(s, 14, 18) && HexFromTo(s, 19, 23)
      && HexFromTo(s, 24, 36) && s[8] == '-' && s[13] == '-' && s[18] == '-' && s[23] == '-'
  {
    assert forall i: nat :: i < 36 ==> UUID[i] == if Hyphen(i) then '-' else 'h';
    assert HasForm(UUID, s) <==> forall i: nat :: i < 36 ==> if Hyphen(i) then s[i] == '-' else HexDigit(s[i]);
    assert Hyphen(8) && Hyphen(13) && Hyphen(18) && Hyphen(23);
  }

  lemma DigitsAre()
    ensures forall c :: c in "0123456789" <==> Digit(c)
    ensures forall c :: c in "0123456789abcdefABCDEF" <==> HexDigit(c)
  {
  }

  lemma RunOf(s: string, i: nat, j: nat)
    requires i <= j <= |s|
    ensures AreDigits(s[i..j]) <==> forall k :: i <= k < j ==> Digit(s[k])
  {
    DigitsAre();
    if AreDigits(s[i..j]) {
      forall k | i <= k < j ensures Digit(s[k]) { assert s[i..j][k - i] == s[k]; }
    }
  }

  lemma HexRunOf(s: string, i: nat, j: nat)
    requires i <= j <= |s|
    ensures AreHex(s[i..j]) <==> HexFromTo(s, i, j)
  {
    DigitsAre();
    if AreHex(s[i..j]) {
      forall k | i <= k < j ensures HexDigit(s[k]) { assert s[i..j][k - i] == s[k]; }
    }
  }

  /** The path ends so, and there is no line break ahead of that. */
  predicate Under(path: string, end: string) {
    |end| <= |path| && path[|path| - |end|..] == end && '\n' !in path[..|path| - |end|]
  }

  lemma TimestampPathsAre(path: string)
    ensures TimestampPath(path) <==>
      || Under(path, ".createdAt")
      || Under(path, ".updatedAt")
      || Under(path, ".created_at")
      || Under(path, ".updated_at")
      || Under(path, ".timestamp")
  {
    var ends := TIMESTAMP_ENDS;
    assert ends[0] == ".createdAt" && ends[1] == ".updatedAt" && ends[2] == ".created_at"
        && ends[3] == ".updated_at" && ends[4] == ".timestamp" && |ends| == 5;
    assert forall i :: 0 <= i < 5 ==>
      (Under(path, ends[i]) <==> EndsWith(path, ends[i]) && '\n' !in path[..|path| - |ends[i]|]);
    assert TimestampPath(path) <==> exists i :: 0 <= i < 5 && Under(path, ends[i]);
  }

  lemma HeaderPathsAre(path: string)
    ensures path in HeaderPaths(REQUEST_IDS) <==>
      path in ["headers.X-Request-Id", "headers.X-Trace-Id", "headers.Date", "headers.Server"]
  {
    var paths := HeaderPaths(REQUEST_IDS);
    assert |paths| == 4;
    assert "headers." + "X-Request-Id" == "headers.X-Request-Id" && "headers." + "Date" == "headers.Date";
    assert "headers." + "X-Trace-Id" == "headers.X-Trace-Id" && "headers." + "Server" == "headers.Server";
    assert paths == [paths[0], paths[1], paths[2], paths[3]];
  }

  /** What the default rules cover, in terms of the difference alone: two texts that both start
      like timestamps, under one of five names on one line, or one of four headers. */
  lemma DefaultsCover(d: Entry)
    ensures Covered(DEFAULT, d) <==>
      || d.path in ["headers.X-Request-Id", "headers.X-Trace-Id", "headers.Date", "headers.Server"]
      || (
           && d.expected.Text? && LooksLikeTimestamp(d.expected.s)
           && d.actual.Text? && LooksLikeTimestamp(d.actual.s)
           && (
                || Under(d.path, ".createdAt")
                || Under(d.path, ".updatedAt")
                || Under(d.path, ".created_at")
                || Under(d.path, ".updated_at")
                || Under(d.path, ".timestamp")
              )
         )
  {
    DefaultCoversIff(d);
    TimestampPathsAre(d.path);
    HeaderPathsAre(d.path);
  }

  // ----- which differences the default rules can cover -----

  /** The end of a path that no timestamp is expected at. */
  predicate OtherEnd(path: string) {
    path != "" && path[|path| - 1] !in "tp"
  }

  lemma NoTimestampThere(path: string)
    requires OtherEnd(path)
    ensures !TimestampPath(path)
  {
    forall i | 0 <= i < |TIMESTAMP_ENDS| ensures !EndsWith(path, TIMESTAMP_ENDS[i]) {
      var end := TIMESTAMP_ENDS[i];
      assert end[|end| - 1] in "tp";
      if |end| <= |path| { assert path[|path| - |end|..][|end| - 1] == path[|path| - 1]; }
    }
  }

  lemma NotAHeaderPath(names: seq<string>, path: string)
    requires path != "" && path[0] != 'h'
    ensures path !in HeaderPaths(names)
  {
  }

  lemma HeaderPathOf(names: seq<string>, k: string)
    requires "headers." + k in HeaderPaths(names)
    ensures k in names
  {
    var i :| 0 <= i < |names| && "headers." + names[i] == "headers." + k;
    assert ("headers." + k)[8..] == k && ("headers." + names[i])[8..] == names[i];
  }

  /** An entry about a header that is not ignored. */
  ghost predicate AboutHeader(ignored: set<string>, d: Entry) {
    d.expected.Array? && exists k :: k !in ignored && d.path == "headers." + k
  }

  lemma {:induction false} HeaderEntries(ignored: set<string>, o: Headers, r: Headers, keys: seq<string>, n: nat)
    requires n <= |keys|
    ensures forall d :: d in HeaderDiffs(ignored, o, r, keys, n) ==> AboutHeader(ignored, d)
    decreases n
  {
    if n > 0 {
      HeaderEntries(ignored, o, r, keys, n - 1);
      var k := keys[n - 1];
      if k !in ignored && k in o {
        forall d | d in HeaderDiff(k, o[k], r) ensures AboutHeader(ignored, d) { assert d.path == "headers." + k; }
      }
    }
  }

  ghost function HeadersReported(c: Config, o: Record, r: Record): seq<Entry> {
    var keys := c.order(o);
    HeaderDiffs(EngineConfig(c).ignoreHeaders, o.response.headers, r.response.headers, keys, |keys|)
  }

  /** The rule about request IDs never covers anything: the headers it names are ignored before. */
  lemma RequestIdsAreNeverReported(c: Config, o: Record, r: Record, d: Entry)
    requires d in HeadersReported(c, o, r)
    ensures d.path !in HeaderPaths(REQUEST_IDS) && !Covered(DEFAULT, d)
  {
    var ignored := EngineConfig(c).ignoreHeaders;
    HeaderEntries(ignored, o.response.headers, r.response.headers, c.order(o), |c.order(o)|);
    assert AboutHeader(ignored, d);
    var k :| k !in ignored && d.path == "headers." + k;
    assert forall name :: name in REQUEST_IDS ==> name in DEFAULT_IGNORE_HEADERS;
    if d.path in HeaderPaths(REQUEST_IDS) { HeaderPathOf(REQUEST_IDS, k); }
    DefaultCoversIff(d);
  }

  lemma SideEntryUncovered(d: S.SideDiff)
    ensures !Covered(DEFAULT, SideEntry(d))
  {
    var entry := SideEntry(d);
    assert entry.path[0] == 's' && (entry.expected.Text? ==> OtherEnd(entry.path));
    NotAHeaderPath(REQUEST_IDS, entry.path);
    if entry.expected.Text? { NoTimestampThere(entry.path); }
    DefaultCoversIff(entry);
  }

  /** Two texts that both look like timestamps, at a path with one of the five names. */
  predicate BothTimestamps(path: Path, e: Json, a: Json) {
    TimestampPath(PathText(path)) && TimestampMatcher(PathText(path), e, a)
  }

  lemma BodyEntryCoveredIff(d: Difference)
    ensures Covered(DEFAULT, BodyEntry(d)) <==> Tolerated(BothTimestamps, d)
  {
    ReportText.PathTextStart(d.path);
    NotAHeaderPath(REQUEST_IDS, PathText(d.path));
    DefaultCoversIff(BodyEntry(d));
  }

  // ----- what the verdict means -----

  ghost predicate AllCovered(ds: seq<Entry>) {
    forall d :: d in ds ==> Covered(DEFAULT, d)
  }

  lemma FourCovered(status: seq<Entry>, headers: seq<Entry>, body: seq<Entry>, side: seq<Entry>)
    ensures AllCovered(status + headers + body + side)
      <==> AllCovered(status) && AllCovered(headers) && AllCovered(body) && AllCovered(side)
  {
    if AllCovered(status + headers + body + side) {
      forall d | d in status || d in headers || d in body || d in side ensures Covered(DEFAULT, d) {
        assert d in status + headers + body + side;
      }
    }
  }

  /** Equal as texts when the recorded body is not JSON; else both JSON, and alike but for
      timestamps at paths with one of the five names. */
  ghost predicate BodiesAlike(c: Config, o: string, r: string) {
    match c.parse(o)
    case None => o == r
    case Some(e) => c.parse(r).Some? && Alike(c.ignoreOrder, BothTimestamps, [], e, c.parse(r).value)
  }

  lemma StatusCoveredIff(o: Response, r: Response)
    ensures AllCovered(StatusDiffs(o, r)) <==> o.status == r.status
  {
    if o.status != r.status {
      var d := StatusDiffs(o, r)[0];
      NotAHeaderPath(REQUEST_IDS, d.path);
      DefaultCoversIff(d);
      assert d in StatusDiffs(o, r);
    }
  }

  lemma HeadersCoveredIff(c: Config, o: Record, r: Record)
    requires WalksHeaders(c.order)
    ensures AllCovered(HeadersReported(c, o, r))
      <==> HeadersAgree(EngineConfig(c).ignoreHeaders, o.response.headers, r.response.headers)
  {
    var ds := HeadersReported(c, o, r);
    assert WalksAll(c.order(o), o.response.headers.Keys);
    HeadersSilentIff(EngineConfig(c).ignoreHeaders, o.response.headers, r.response.headers, c.order(o));
    if ds != [] {
      RequestIdsAreNeverReported(c, o, r, ds[0]);
      assert ds[0] in ds;
    }
  }

  lemma EntriesCoveredIff(ds: seq<Difference>)
    ensures AllCovered(BodyEntries(ds)) <==> AllTolerated(BothTimestamps, ds)
  {
    forall i | 0 <= i < |ds| ensures Covered(DEFAULT, BodyEntries(ds)[i]) <==> Tolerated(BothTimestamps, ds[i]) {
      BodyEntryCoveredIff(ds[i]);
    }
    if AllCovered(BodyEntries(ds)) {
      forall d | d in ds ensures Tolerated(BothTimestamps, d) {
        var i :| 0 <= i < |ds| && ds[i] == d;
        assert BodyEntries(ds)[i] in BodyEntries(ds);
      }
    }
  }

  lemma TextUncovered(o: string, r: string)
    ensures !AllCovered([Raw("body", Text(o), Text(r), LevelError)])
  {
    var d := Raw("body", Text(o), Text(r), LevelError);
    NotAHeaderPath(REQUEST_IDS, "body");
    NoTimestampThere("body");
    DefaultCoversIff(d);
    assert d in [d];
  }

  lemma AlikeItself(ignoreOrder: bool, tol: Tolerance, e: Json)
    ensures Alike(ignoreOrder, tol, [], e, e)
  {
    if ignoreOrder {
      UnorderedZeroIffPermEq([], e, e);
      PermEqReflexive(e);
    } else {
      OrderedZeroIffEqual([], e, e);
    }
    ToleratedIffAlike(ignoreOrder, tol, [], e, e);
  }

  lemma BodyCoveredIff(c: Config, o: string, r: string)
    ensures AllCovered(BodyDiffs(c, o, r)) <==> BodiesAlike(c, o, r)
  {
    if c.parse(o).Some? && c.parse(r).Some? {
      var e, a := c.parse(o).value, c.parse(r).value;
      if o == "" && r == "" {
        AlikeItself(c.ignoreOrder, BothTimestamps, e);
      } else {
        EntriesCoveredIff(Diffs(c.ignoreOrder, [], e, a));
        ToleratedIffAlike(c.ignoreOrder, BothTimestamps, [], e, a);
      }
    } else {
      TextUncovered(o, r);
    }
  }

  lemma SideCoveredIff(o: seq<S.SideEffect>, r: seq<S.SideEffect>)
    ensures AllCovered(SideEntries(S.SideEffectDiffs(o, r))) <==> S.Agree(o, r)
  {
    var ds := S.SideEffectDiffs(o, r);
    S.SideEffectsSilentIff(o, r);
    if ds != [] {
      SideEntryUncovered(ds[0]);
      assert SideEntries(ds)[0] in SideEntries(ds);
    }
  }

  ghost predicate AgreesByDefault(c: Config, o: Record, r: Record) {
    && o.response.status == r.response.status
    && HeadersAgree(EngineConfig(c).ignoreHeaders, o.response.headers, r.response.headers)
    && BodiesAlike(c, o.response.body, r.response.body)
    && S.Agree(o.sideEffects, r.sideEffects)
  }

  lemma RawCoveredIff(c: Config, o: Record, r: Record)
    requires WalksHeaders(c.order)
    ensures AllCovered(RawDiffs(EngineConfig(c), o, r)) <==> AgreesByDefault(c, o, r)
  {
    StatusCoveredIff(o.response, r.response);
    HeadersCoveredIff(c, o, r);
    BodyCoveredIff(c, o.response.body, r.response.body);
    SideCoveredIff(o.sideEffects, r.sideEffects);
    FourCovered(StatusDiffs(o.response, r.response), HeadersReported(c, o, r),
      BodyDiffs(EngineConfig(c), o.response.body, r.response.body),
      SideEntries(S.SideEffectDiffs(o.sideEffects, r.sideEffects)));
  }

  /** The verdict on a pair by the engine as it is without the user's own rules. */
  lemma DefaultMatchIff(maxDiffs: int, c: Config, o: Record, r: Record)
    requires WalksHeaders(c.order)
    ensures Compared(DEFAULT, EngineLimit(maxDiffs), o, r, RawDiffs(EngineConfig(c), o, r)).matches
      <==> r.error == "" && AgreesByDefault(c, o, r)
  {
    RawCoveredIff(c, o, r);
    RawIsUnmarked(EngineConfig(c), o, r);
    MarkedAllIgnored(DEFAULT, RawDiffs(EngineConfig(c), o, r));
  }

  ghost predicate ReproducedByDefault(c: Config, original: Record, replay: Option<Record>) {
    replay.Some? && replay.value.error == "" && AgreesByDefault(c, original, replay.value)
  }

  /** That engine passes a session exactly when every original has a successful replay with the
      same status, headers that print alike, side effects that agree, and a body that is alike
      but for timestamps where they are expected. */
  lemma DefaultPassesIff(maxDiffs: int, c: Config, originals: seq<Record>, replays: seq<Record>)
    requires WalksHeaders(c.order)
    ensures !Fails(FailOnDiff,
        SummaryOf(ResultsFor(DEFAULT, EngineLimit(maxDiffs), Compare(EngineConfig(c)), originals, replays))) <==>
      forall i :: 0 <= i < |originals| ==>
        ReproducedByDefault(c, originals[i], Latest(replays, originals[i].sequence))
  {
    var results := ResultsFor(DEFAULT, EngineLimit(maxDiffs), Compare(EngineConfig(c)), originals, replays);
    SummaryCounts(results);
    forall i | 0 <= i < |originals|
      ensures results[i].matches <==> ReproducedByDefault(c, originals[i], Latest(replays, originals[i].sequence))
    {
      var replay := Latest(replays, originals[i].sequence);
      if replay.Some? { DefaultMatchIff(maxDiffs, c, originals[i], replay.value); }
    }
  }

  /** Truncation flips the verdict of that engine too. */
  lemma DefaultVerdictFlips(c: Config)
    requires WalksHeaders(c.order) && "A" !in c.ignoreHeaders && c.parse("x") == None
    ensures
      var original := Record("r", 1, "", Response(200, map["A" := ["v"]], "x"), []);
      var replay := Record("r", 1, "", Response(200, map[], "y"), []);
      var compare := Compare(EngineConfig(c));
      && Fails(FailOnError, SummaryOf(ResultsFor(DEFAULT, EngineLimit(0), compare, [original], [replay])))
      && !Fails(FailOnError, SummaryOf(ResultsFor(DEFAULT, EngineLimit(1), compare, [original], [replay])))
  {
    DefaultCoversIff(LOST_HEADER);
    if LOST_HEADER.path in HeaderPaths(REQUEST_IDS) { HeaderPathOf(REQUEST_IDS, "A"); }
    NotAHeaderPath(REQUEST_IDS, OTHER_BODY.path);
    DefaultCoversIff(OTHER_BODY);
    TruncationFlipsErrorVerdict(DEFAULT, EngineLimit(0), EngineConfig(c));
  }
}
