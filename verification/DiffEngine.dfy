/** The verdict on a session: originals are paired with their latest replays, rules mark
    differences as ignored, long lists are truncated, and the summary decides the outcome. */
module DiffEngine {
  import opened Effects
  import opened JsonDiff
  import opened Records
  import opened WorkerPool

  // ----- pairing -----

  /** A replay record and whether appending it to the session's file succeeded. */
  datatype Append = Append(replayed: Record, ok: bool)

  function Stored(run: seq<Append>): seq<Record> {
    if run == [] then []
    else
      var before := Stored(run[..|run| - 1]);
      if run[|run| - 1].ok then before + [run[|run| - 1].replayed] else before
  }

  function StoredRuns(runs: seq<seq<Append>>): seq<Record> {
    if runs == [] then [] else StoredRuns(runs[..|runs| - 1]) + Stored(runs[|runs| - 1])
  }

  /** The last replay with a sequence number. */
  function Latest(replays: seq<Record>, sequence: int): Option<Record> {
    if replays == [] then None
    else if replays[|replays| - 1].sequence == sequence then Some(replays[|replays| - 1])
    else Latest(replays[..|replays| - 1], sequence)
  }

  function Lookup(index: map<int, Record>, sequence: int): Option<Record> {
    if sequence in index then Some(index[sequence]) else None
  }

  /** It is at the greatest place at which there is one. */
  lemma {:induction false} LatestIsLast(replays: seq<Record>, sequence: int, i: nat)
    requires i < |replays| && replays[i].sequence == sequence
    requires forall j :: i < j < |replays| ==> replays[j].sequence != sequence
    ensures Latest(replays, sequence) == Some(replays[i])
    decreases |replays|
  {
    if i < |replays| - 1 {
      assert replays[|replays| - 1].sequence != sequence;
      LatestIsLast(replays[..|replays| - 1], sequence, i);
    }
  }

  lemma {:induction false} LatestOfNone(replays: seq<Record>, sequence: int)
    requires forall j :: 0 <= j < |replays| ==> replays[j].sequence != sequence
    ensures Latest(replays, sequence) == None
    decreases |replays|
  {
    if replays != [] { LatestOfNone(replays[..|replays| - 1], sequence); }
  }

  method IndexBySequence(replays: seq<Record>) returns (index: map<int, Record>)
    ensures forall sequence :: Lookup(index, sequence) == Latest(replays, sequence)
  {
    index := map[];
    for i := 0 to |replays|
      invariant forall sequence :: Lookup(index, sequence) == Latest(replays[..i], sequence)
    {
      assert replays[..i + 1][..i] == replays[..i];
      index := index[replays[i].sequence := replays[i]];
    }
    assert replays[..|replays|] == replays;
  }

  ghost predicate Distinct(records: seq<Record>) {
    forall i, j :: 0 <= i < j < |records| ==> records[i].sequence != records[j].sequence
  }

  /** A run replays the records in order, each under its own sequence number. */
  ghost predicate Replays(run: seq<Append>, records: seq<Record>) {
    |run| == |records| && forall i :: 0 <= i < |records| ==> run[i].replayed.sequence == records[i].sequence
  }

  /** What Run appends for the results of a pool, when oks says which appends succeed. */
  function Appends(results: seq<Option<Result>>, oks: seq<bool>): seq<Append>
    requires |oks| == |results| && forall i :: 0 <= i < |results| ==> results[i].Some?
  {
    seq(|results|, i requires 0 <= i < |results| => Append(results[i].value.replayed, oks[i]))
  }

  /** The results of any pool, under any schedule, make such a run. */
  lemma PoolRunReplays(
    records: seq<Record>, concurrency: nat, states: seq<WorkerPool.State>, steps: seq<WorkerPool.Step>, k: nat,
    oks: seq<bool>)
    requires IsRun(records, concurrency, states, steps) && k < |states|
    requires states[k].main == Returned && concurrency > 0 && |oks| == |records|
    ensures |states[k].results| == |records| && forall i :: 0 <= i < |records| ==> states[k].results[i].Some?
    ensures Replays(Appends(states[k].results, oks), records)
  {
    EachRecordReplayedOnce(records, concurrency, states, steps, k);
    var results := states[k].results;
    forall i | 0 <= i < |records|
      ensures results[i].Some? && results[i].value.replayed.sequence == records[i].sequence
    {
      assert ResultOf(records, results, i);
    }
  }

  /** The replay of record i from the latest run that stored one. */
  function LatestStored(runs: seq<seq<Append>>, i: nat): Option<Record>
    requires forall r :: 0 <= r < |runs| ==> i < |runs[r]|
  {
    if runs == [] then None
    else
      var last := runs[|runs| - 1][i];
      if last.ok then Some(last.replayed) else LatestStored(runs[..|runs| - 1], i)
  }

  /** That is the last of the runs in which appending it succeeded. */
  lemma {:induction false} LatestStoredIsLast(runs: seq<seq<Append>>, i: nat, r: nat)
    requires forall k :: 0 <= k < |runs| ==> i < |runs[k]|
    requires r < |runs| && runs[r][i].ok && forall k :: r < k < |runs| ==> !runs[k][i].ok
    ensures LatestStored(runs, i) == Some(runs[r][i].replayed)
    decreases |runs|
  {
    if r < |runs| - 1 { LatestStoredIsLast(runs[..|runs| - 1], i, r); }
  }

  lemma {:induction false} LatestSplit(a: seq<Record>, b: seq<Record>, sequence: int)
    ensures Latest(a + b, sequence) == if Latest(b, sequence).Some? then Latest(b, sequence) else Latest(a, sequence)
    decreases |b|
  {
    if b == [] {
      assert a + b == a;
    } else {
      assert (a + b)[..|a + b| - 1] == a + b[..|b| - 1];
      LatestSplit(a, b[..|b| - 1], sequence);
    }
  }

  lemma {:induction false} LatestInRun(run: seq<Append>, n: nat, i: nat)
    requires n <= |run| && i < |run|
    requires forall k :: 0 <= k < |run| && k != i ==> run[k].replayed.sequence != run[i].replayed.sequence
    ensures Latest(Stored(run[..n]), run[i].replayed.sequence)
      == if i < n && run[i].ok then Some(run[i].replayed) else None
    decreases n
  {
    if n > 0 {
      assert run[..n][..n - 1] == run[..n - 1];
      LatestInRun(run, n - 1, i);
      var before := Stored(run[..n - 1]);
      assert (before + [run[n - 1].replayed])[..|before|] == before;
    }
  }

  /** With distinct sequence numbers, over any number of replay runs, each original is paired
      with its replay from the latest run that stored it, and with none if no run did. */
  lemma {:induction false} PairedWithLatestRun(records: seq<Record>, runs: seq<seq<Append>>, i: nat)
    requires Distinct(records) && i < |records|
    requires forall r :: 0 <= r < |runs| ==> i < |runs[r]| && Replays(runs[r], records)
    ensures Latest(StoredRuns(runs), records[i].sequence) == LatestStored(runs, i)
    decreases |runs|
  {
    if runs != [] {
      var last := runs[|runs| - 1];
      PairedWithLatestRun(records, runs[..|runs| - 1], i);
      LatestSplit(StoredRuns(runs[..|runs| - 1]), Stored(last), records[i].sequence);
      assert Replays(last, records);
      forall k | 0 <= k < |last| && k != i ensures last[k].replayed.sequence != last[i].replayed.sequence {
        assert k < i || i < k;
      }
      assert last[..|last|] == last;
      LatestInRun(last, |last|, i);
    }
  }

  // ----- rules -----

  datatype Level = LevelError | LevelWarning | LevelInfo

  datatype Entry = Entry(path: string, expected: Json, actual: Json, severity: Level, ignored: bool, rule: string)

  datatype Kind = Ignore | Custom(matcher: string) | Unknown

  datatype Rule = Rule(name: string, kind: Kind, paths: seq<string>)

  /** compile gives what a path pattern matches; matchers are the custom value matchers. */
  datatype RuleSet = RuleSet(
    rules: seq<Rule>, compile: string -> string -> bool, matchers: map<string, (string, Json, Json) -> bool>)

  predicate MatchesSome(rs: RuleSet, patterns: seq<string>, path: string) {
    exists i :: 0 <= i < |patterns| && rs.compile(patterns[i])(path)
  }

  /** The rule marks the difference. */
  predicate Covers(rs: RuleSet, rule: Rule, d: Entry) {
    && MatchesSome(rs, rule.paths, d.path)
    && match rule.kind {
      case Ignore => true
      case Custom(matcher) => matcher in rs.matchers && rs.matchers[matcher](d.path, d.expected, d.actual)
      case Unknown => false
    }
  }

  predicate Covered(rs: RuleSet, d: Entry) {
    exists i :: 0 <= i < |rs.rules| && Covers(rs, rs.rules[i], d)
  }

  /** A set of one rule with one pattern: it covers what the pattern matches, with a matcher only
      what that says matches too; a matcher nobody registered and a kind nobody knows cover nothing. */
  lemma OneRuleCovers(rs: RuleSet, name: string, pattern: string, matcher: string, d: Entry)
    ensures Covered(rs.(rules := [Rule(name, Ignore, [pattern])]), d) <==> rs.compile(pattern)(d.path)
    ensures Covered(rs.(rules := [Rule(name, Custom(matcher), [pattern])]), d) <==>
      rs.compile(pattern)(d.path) && matcher in rs.matchers && rs.matchers[matcher](d.path, d.expected, d.actual)
    ensures !Covered(rs.(rules := [Rule(name, Unknown, [pattern])]), d)
  {
    assert MatchesSome(rs, [pattern], d.path) <==> rs.compile([pattern][0])(d.path);
    var ignoring := rs.(rules := [Rule(name, Ignore, [pattern])]);
    var matching := rs.(rules := [Rule(name, Custom(matcher), [pattern])]);
    assert Covered(ignoring, d) <==> Covers(ignoring, ignoring.rules[0], d);
    assert Covered(matching, d) <==> Covers(matching, matching.rules[0], d);
  }

  /** The difference as the first n rules leave it: the last one that covers it is named. */
  function MarkedBy(rs: RuleSet, n: nat, d: Entry): Entry
    requires n <= |rs.rules|
  {
    if n == 0 then d
    else if Covers(rs, rs.rules[n - 1], d) then MarkedBy(rs, n - 1, d).(ignored := true, rule := rs.rules[n - 1].name)
    else MarkedBy(rs, n - 1, d)
  }

  function Marked(rs: RuleSet, d: Entry): Entry {
    MarkedBy(rs, |rs.rules|, d)
  }

  function MarkedAll(rs: RuleSet, ds: seq<Entry>): seq<Entry> {
    seq(|ds|, i requires 0 <= i < |ds| => Marked(rs, ds[i]))
  }

  method MatchesPath(rs: RuleSet, rule: Rule, path: string) returns (matches: bool)
    ensures matches == MatchesSome(rs, rule.paths, path)
  {
    for i := 0 to |rule.paths|
      invariant forall k :: 0 <= k < i ==> !rs.compile(rule.paths[k])(path)
    {
      if rs.compile(rule.paths[i])(path) {
        return true;
      }
    }
    return false;
  }

  method Apply(rs: RuleSet, diffs: array<Entry>)
    modifies diffs
    ensures diffs[..] == MarkedAll(rs, old(diffs[..]))
  {
    for i := 0 to diffs.Length
      invariant forall k :: 0 <= k < i ==> diffs[k] == Marked(rs, old(diffs[k]))
      invariant forall k :: i <= k < diffs.Length ==> diffs[k] == old(diffs[k])
    {
      for j := 0 to |rs.rules|
        invariant forall k :: 0 <= k < i ==> diffs[k] == Marked(rs, old(diffs[k]))
        invariant forall k :: i < k < diffs.Length ==> diffs[k] == old(diffs[k])
        invariant diffs[i] == MarkedBy(rs, j, old(diffs[i]))
      {
        var rule := rs.rules[j];
        MarkingKeepsRest(rs, j, old(diffs[i]));
        var matches := MatchesPath(rs, rule, diffs[i].path);
        if matches {
          match rule.kind {
            case Ignore =>
              diffs[i] := diffs[i].(ignored := true, rule := rule.name);
            case Custom(matcher) =>
              if matcher in rs.matchers && rs.matchers[matcher](diffs[i].path, diffs[i].expected, diffs[i].actual) {
                diffs[i] := diffs[i].(ignored := true, rule := rule.name);
              }
            case Unknown =>
          }
        }
      }
    }
  }

  lemma {:induction false} MarkingKeepsRest(rs: RuleSet, n: nat, d: Entry)
    requires n <= |rs.rules|
    ensures var m := MarkedBy(rs, n, d);
      m.path == d.path && m.expected == d.expected && m.actual == d.actual && m.severity == d.severity
    decreases n
  {
    if n > 0 { MarkingKeepsRest(rs, n - 1, d); }
  }

  /** The rule named is the last of the first n that cover the difference. */
  lemma {:induction false} LastCoveringIsNamed(rs: RuleSet, n: nat, d: Entry, i: nat)
    requires i < n <= |rs.rules| && Covers(rs, rs.rules[i], d)
    requires forall k :: i < k < n ==> !Covers(rs, rs.rules[k], d)
    ensures MarkedBy(rs, n, d) == d.(ignored := true, rule := rs.rules[i].name)
    decreases n
  {
    if i == n - 1 {
      MarkingKeepsRest(rs, n - 1, d);
    } else {
      LastCoveringIsNamed(rs, n - 1, d, i);
    }
  }

  /** A difference is ignored after the rules exactly when it was before or a rule covers it. */
  lemma {:induction false} IgnoredIffCovered(rs: RuleSet, n: nat, d: Entry)
    requires n <= |rs.rules|
    ensures MarkedBy(rs, n, d).ignored
      <==> d.ignored || exists i :: 0 <= i < n && Covers(rs, rs.rules[i], d)
    decreases n
  {
    if n > 0 { IgnoredIffCovered(rs, n - 1, d); }
  }

  // ----- the verdict on one pair -----

  datatype DiffResult = DiffResult(sequence: int, matches: bool, differences: seq<Entry>)

  predicate AllIgnored(ds: seq<Entry>) {
    forall d :: d in ds ==> d.ignored
  }

  function Failure(message: string): Entry {
    Entry(message, Null, Null, LevelError, false, "")
  }

  /** maxDiffs entries, and one that says the others were left out. */
  function Limited(maxDiffs: nat, ds: seq<Entry>, matches: bool): seq<Entry> {
    if |ds| <= maxDiffs then ds
    else ds[..maxDiffs] + [Entry("truncated", Null, Null, LevelInfo, matches, "")]
  }

  function Compared(rs: RuleSet, maxDiffs: nat, original: Record, replay: Record, raw: seq<Entry>): DiffResult {
    if replay.error != "" then DiffResult(original.sequence, false, [Failure("replay failed")])
    else
      var ds := MarkedAll(rs, raw);
      DiffResult(original.sequence, AllIgnored(ds), Limited(maxDiffs, ds, AllIgnored(ds)))
  }

  /** The part of the comparison of a pair that follows the collection of the raw differences. */
  method Judge(rs: RuleSet, maxDiffs: nat, original: Record, replay: Record, raw: seq<Entry>)
    returns (result: DiffResult)
    requires replay.error == "" && forall d :: d in raw ==> !d.ignored
    ensures result == Compared(rs, maxDiffs, original, replay, raw)
    ensures result.matches <==> forall d :: d in raw ==> Covered(rs, d)
    ensures result.matches <==> AllIgnored(result.differences)
  {
    var diffs := new Entry[|raw|](i requires 0 <= i < |raw| => raw[i]);
    assert diffs[..] == raw;
    Apply(rs, diffs);
    var matches := true;
    assert AllIgnored(diffs[..]) <==> forall k :: 0 <= k < diffs.Length ==> diffs[k].ignored by {
      assert forall k :: 0 <= k < diffs.Length ==> diffs[..][k] == diffs[k];
    }
    for i := 0 to diffs.Length
      invariant matches && forall k :: 0 <= k < i ==> diffs[k].ignored
    {
      if !diffs[i].ignored {
        matches := false;
        break;
      }
    }
    MarkedAllIgnored(rs, raw);
    LimitKeepsVerdict(maxDiffs, diffs[..], matches);
    return DiffResult(original.sequence, matches, Limited(maxDiffs, diffs[..], matches));
  }

  lemma MarkedAllIgnored(rs: RuleSet, raw: seq<Entry>)
    requires forall d :: d in raw ==> !d.ignored
    ensures AllIgnored(MarkedAll(rs, raw)) <==> forall d :: d in raw ==> Covered(rs, d)
  {
    forall i | 0 <= i < |raw| ensures MarkedAll(rs, raw)[i].ignored <==> Covered(rs, raw[i]) {
      IgnoredIffCovered(rs, |rs.rules|, raw[i]);
    }
    if AllIgnored(MarkedAll(rs, raw)) {
      forall d | d in raw ensures Covered(rs, d) {
        var i :| 0 <= i < |raw| && raw[i] == d;
        assert MarkedAll(rs, raw)[i] in MarkedAll(rs, raw);
      }
    } else {
      var m :| m in MarkedAll(rs, raw) && !m.ignored;
      var i :| 0 <= i < |raw| && MarkedAll(rs, raw)[i] == m;
      assert raw[i] in raw;
    }
  }

  /** Truncation never hides the verdict: the entry that stands for the rest carries it. */
  lemma LimitKeepsVerdict(maxDiffs: nat, ds: seq<Entry>, matches: bool)
    requires matches <==> AllIgnored(ds)
    ensures matches <==> AllIgnored(Limited(maxDiffs, ds, matches))
  {
    if |ds| > maxDiffs {
      var limited := Limited(maxDiffs, ds, matches);
      if matches {
        forall d | d in limited ensures d.ignored { if d in ds[..maxDiffs] { assert d in ds; } }
      } else {
        assert limited[maxDiffs] in limited;
      }
    }
  }

  /** What a comparison lists: the differences in their order, none of them changed but in being
      marked as ignored exactly when a rule covers it; of more than maxDiffs of them the first
      maxDiffs, and behind these one for information that is ignored when all of them are. A
      failed replay is listed as one error and nothing else. */
  lemma ListedDifferences(rs: RuleSet, maxDiffs: nat, original: Record, replay: Record, raw: seq<Entry>)
    requires forall d :: d in raw ==> !d.ignored
    ensures var result := Compared(rs, maxDiffs, original, replay, raw);
      var ds := result.differences;
      if replay.error != "" then !result.matches && |ds| == 1 && ds[0].severity == LevelError && !ds[0].ignored
      else
        && |ds| == (if |raw| > maxDiffs then maxDiffs + 1 else |raw|)
        && (forall i :: 0 <= i < |raw| && i < maxDiffs ==>
              && ds[i].path == raw[i].path && ds[i].expected == raw[i].expected && ds[i].actual == raw[i].actual
              && ds[i].severity == raw[i].severity
              && (ds[i].ignored <==> Covered(rs, raw[i])))
        && (|raw| > maxDiffs ==> ds[maxDiffs].severity == LevelInfo && ds[maxDiffs].ignored == result.matches)
  {
    forall i | 0 <= i < |raw|
      ensures MarkedAll(rs, raw)[i].(ignored := false, rule := "") == raw[i].(rule := "")
      ensures MarkedAll(rs, raw)[i].ignored <==> Covered(rs, raw[i])
    {
      MarkingKeepsRest(rs, |rs.rules|, raw[i]);
      IgnoredIffCovered(rs, |rs.rules|, raw[i]);
    }
  }

  // ----- the whole session -----

  /** The raw differences of a pair, before any rule is applied. */
  type Comparer = (Record, Record) -> seq<Entry>

  ghost predicate FindsUnmarked(compare: Comparer) {
    forall original, replay :: forall d :: d in compare(original, replay) ==> !d.ignored
  }

  function ResultFor(
    rs: RuleSet, maxDiffs: nat, compare: Comparer, original: Record, replay: Option<Record>): DiffResult
  {
    match replay
    case None => DiffResult(original.sequence, false, [Failure("replay record missing")])
    case Some(r) => Compared(rs, maxDiffs, original, r, compare(original, r))
  }

  function ResultsFor(
    rs: RuleSet, maxDiffs: nat, compare: Comparer, originals: seq<Record>, replays: seq<Record>): seq<DiffResult>
  {
    seq(|originals|, i requires 0 <= i < |originals| =>
      ResultFor(rs, maxDiffs, compare, originals[i], Latest(replays, originals[i].sequence)))
  }

  ghost predicate IsCovered(rs: RuleSet, compare: Comparer, original: Record, replay: Option<Record>) {
    replay.Some? && replay.value.error == "" && forall d :: d in compare(original, replay.value) ==> Covered(rs, d)
  }

  /** Over any number of replay runs, the diff compares each original with its replay from the
      latest run that stored one. */
  lemma ComparesLatestRun(
    rs: RuleSet, maxDiffs: nat, compare: Comparer, records: seq<Record>, runs: seq<seq<Append>>, i: nat)
    requires Distinct(records) && i < |records|
    requires forall r :: 0 <= r < |runs| ==> i < |runs[r]| && Replays(runs[r], records)
    ensures ResultsFor(rs, maxDiffs, compare, records, StoredRuns(runs))[i]
      == ResultFor(rs, maxDiffs, compare, records[i], LatestStored(runs, i))
  {
    PairedWithLatestRun(records, runs, i);
  }

  /** Every result matches exactly when each of its listed differences is ignored, and exactly
      when there is a successful replay all of whose raw differences are covered by a rule. */
  lemma MatchMeaning(rs: RuleSet, maxDiffs: nat, compare: Comparer, original: Record, replay: Option<Record>)
    requires FindsUnmarked(compare)
    ensures var result := ResultFor(rs, maxDiffs, compare, original, replay);
      && result.sequence == original.sequence
      && (result.matches <==> AllIgnored(result.differences))
      && (result.matches <==> IsCovered(rs, compare, original, replay))
  {
    var result := ResultFor(rs, maxDiffs, compare, original, replay);
    if replay.Some? && replay.value.error == "" {
      var raw := compare(original, replay.value);
      MarkedAllIgnored(rs, raw);
      LimitKeepsVerdict(maxDiffs, MarkedAll(rs, raw), result.matches);
    } else {
      assert result.differences[0] in result.differences;
    }
  }

  // ----- the summary -----

  datatype Summary = Summary(total: nat, matches: nat, differing: nat, errors: nat, ignored: nat)

  predicate IsError(d: Entry) {
    !d.ignored && d.severity == LevelError
  }

  function ErrorsIn(ds: seq<Entry>): nat {
    if ds == [] then 0 else ErrorsIn(ds[..|ds| - 1]) + if IsError(ds[|ds| - 1]) then 1 else 0
  }

  function IgnoredIn(ds: seq<Entry>): nat {
    if ds == [] then 0 else IgnoredIn(ds[..|ds| - 1]) + if ds[|ds| - 1].ignored then 1 else 0
  }

  function SummaryOf(results: seq<DiffResult>): Summary {
    if results == [] then Summary(0, 0, 0, 0, 0)
    else
      var s := SummaryOf(results[..|results| - 1]);
      var r := results[|results| - 1];
      Summary(s.total + 1,
        s.matches + if r.matches then 1 else 0,
        s.differing + if r.matches then 0 else 1,
        s.errors + ErrorsIn(r.differences),
        s.ignored + IgnoredIn(r.differences))
  }

  method FormatDiffSummary(results: seq<DiffResult>) returns (summary: Summary)
    ensures summary == SummaryOf(results)
  {
    var matchCount, diffCount, errorCount, ignoreCount := 0, 0, 0, 0;
    for i := 0 to |results|
      invariant Summary(i, matchCount, diffCount, errorCount, ignoreCount) == SummaryOf(results[..i])
    {
      assert results[..i + 1][..i] == results[..i];
      var r := results[i];
      if r.matches {
        matchCount := matchCount + 1;
      } else {
        diffCount := diffCount + 1;
      }
      ghost var errors, ignored := errorCount, ignoreCount;
      for j := 0 to |r.differences|
        invariant errorCount == errors + ErrorsIn(r.differences[..j])
        invariant ignoreCount == ignored + IgnoredIn(r.differences[..j])
      {
        assert r.differences[..j + 1][..j] == r.differences[..j];
        var d := r.differences[j];
        if d.ignored {
          ignoreCount := ignoreCount + 1;
        } else if d.severity == LevelError {
          errorCount := errorCount + 1;
        }
      }
      assert r.differences[..|r.differences|] == r.differences;
    }
    assert results[..|results|] == results;
    return Summary(|results|, matchCount, diffCount, errorCount, ignoreCount);
  }

  /** Every record matches or differs, and some differ exactly when some do not match. */
  lemma {:induction false} SummaryCounts(results: seq<DiffResult>)
    ensures var s := SummaryOf(results);
      && s.matches + s.differing == s.total == |results|
      && (s.differing > 0 <==> exists i :: 0 <= i < |results| && !results[i].matches)
      && (s.errors > 0 <==> exists i :: 0 <= i < |results| && ErrorsIn(results[i].differences) > 0)
    decreases |results|
  {
    if results != [] {
      SummaryCounts(results[..|results| - 1]);
    }
  }

  // ----- the counters are exact -----

  ghost function ErrorPlaces(ds: seq<Entry>): set<nat> {
    set j | 0 <= j < |ds| && !ds[j].ignored && ds[j].severity == LevelError
  }

  ghost function IgnoredPlaces(ds: seq<Entry>): set<nat> {
    set j | 0 <= j < |ds| && ds[j].ignored
  }

  lemma {:induction false} CountsInList(ds: seq<Entry>)
    ensures ErrorsIn(ds) == |ErrorPlaces(ds)| && IgnoredIn(ds) == |IgnoredPlaces(ds)|
    decreases |ds|
  {
    if ds != [] {
      var last := |ds| - 1;
      var init := ds[..last];
      CountsInList(init);
      ErrorPlacesSnoc(ds);
      if ds[last].ignored {
        assert IgnoredPlaces(ds) == IgnoredPlaces(init) + {last};
      } else {
        assert IgnoredPlaces(ds) == IgnoredPlaces(init);
      }
    }
  }

  lemma ErrorPlacesSnoc(ds: seq<Entry>)
    requires ds != []
    ensures var last := |ds| - 1;
      |ErrorPlaces(ds)| == |ErrorPlaces(ds[..last])| + if IsError(ds[last]) then 1 else 0
  {
    var last := |ds| - 1;
    var init := ds[..last];
    if IsError(ds[last]) {
      assert ErrorPlaces(ds) == ErrorPlaces(init) + {last};
    } else {
      assert ErrorPlaces(ds) == ErrorPlaces(init);
    }
  }

  /** The results of either kind, and the entries of either kind, by result and place. */
  ghost function WithVerdict(results: seq<DiffResult>, matches: bool): set<nat> {
    set i | 0 <= i < |results| && results[i].matches == matches
  }

  /** Places of the entries of all results, given the places in the list of one. */
  ghost function AllPlaces(places: seq<Entry> -> set<nat>, results: seq<DiffResult>): set<(nat, nat)> {
    set i: nat, j: nat | i < |results| && j in places(results[i].differences) :: (i, j)
  }

  ghost function At(i: nat, js: set<nat>): set<(nat, nat)> {
    set j | j in js :: (i, j)
  }

  lemma {:induction false} AtKeepsSize(i: nat, js: set<nat>)
    ensures |At(i, js)| == |js|
    decreases |js|
  {
    if j :| j in js {
      AtKeepsSize(i, js - {j});
      assert At(i, js) == At(i, js - {j}) + {(i, j)};
    } else {
      assert At(i, js) == {};
    }
  }

  lemma PlacesSnoc(places: seq<Entry> -> set<nat>, results: seq<DiffResult>)
    requires results != []
    ensures var last := |results| - 1;
      |AllPlaces(places, results)| == |AllPlaces(places, results[..last])| + |places(results[last].differences)|
  {
    var last := |results| - 1;
    var own := places(results[last].differences);
    assert AllPlaces(places, results) == AllPlaces(places, results[..last]) + At(last, own);
    assert AllPlaces(places, results[..last]) !! At(last, own);
    AtKeepsSize(last, own);
  }

  /** The summary counts the results that match and that differ, and the entries of all results
      that are ignored, and that are errors and not ignored. */
  lemma {:induction false} SummaryIsExact(results: seq<DiffResult>)
    ensures SummaryOf(results) == Summary(
      total := |results|,
      matches := |WithVerdict(results, true)|,
      differing := |WithVerdict(results, false)|,
      errors := |AllPlaces(ErrorPlaces, results)|,
      ignored := |AllPlaces(IgnoredPlaces, results)|)
    decreases |results|
  {
    if results == [] {
      assert AllPlaces(ErrorPlaces, results) == {} && AllPlaces(IgnoredPlaces, results) == {};
    } else {
      var last := |results| - 1;
      SummaryIsExact(results[..last]);
      CountsInList(results[last].differences);
      PlacesSnoc(ErrorPlaces, results);
      PlacesSnoc(IgnoredPlaces, results);
      WithVerdictSnoc(results);
    }
  }

  lemma WithVerdictSnoc(results: seq<DiffResult>)
    requires results != []
    ensures var last := |results| - 1;
      && |WithVerdict(results, true)| ==
        |WithVerdict(results[..last], true)| + (if results[last].matches then 1 else 0)
      && |WithVerdict(results, false)| ==
        |WithVerdict(results[..last], false)| + (if results[last].matches then 0 else 1)
  {
    var last := |results| - 1;
    var init, r := results[..last], results[last];
    assert WithVerdict(results, r.matches) == WithVerdict(init, r.matches) + {last};
    assert WithVerdict(results, !r.matches) == WithVerdict(init, !r.matches);
  }

  // ----- the failure policy -----

  datatype Policy = FailOnNone | FailOnDiff | FailOnError

  predicate Fails(policy: Policy, summary: Summary) {
    match policy
    case FailOnNone => false
    case FailOnDiff => summary.differing > 0
    case FailOnError => summary.errors > 0
  }

  /** The outcome of failing on differences does not depend on the number of differences kept. */
  lemma LimitDoesNotChangeVerdict(
    rs: RuleSet, m: nat, n: nat, compare: Comparer, originals: seq<Record>, replays: seq<Record>)
    ensures Fails(FailOnDiff, SummaryOf(ResultsFor(rs, m, compare, originals, replays)))
      <==> Fails(FailOnDiff, SummaryOf(ResultsFor(rs, n, compare, originals, replays)))
  {
    var a := ResultsFor(rs, m, compare, originals, replays);
    var b := ResultsFor(rs, n, compare, originals, replays);
    SummaryCounts(a);
    SummaryCounts(b);
    assert forall i :: 0 <= i < |originals| ==> a[i].matches == b[i].matches;
  }

  /** The position of the first error that counts, or the length. */
  function FirstError(ds: seq<Entry>): (i: nat)
    ensures i <= |ds|
  {
    if ds == [] || IsError(ds[0]) then 0 else 1 + FirstError(ds[1..])
  }

  lemma {:induction false} ErrorsIffFirst(ds: seq<Entry>)
    ensures ErrorsIn(ds) > 0 <==> exists i :: 0 <= i < |ds| && IsError(ds[i])
    decreases |ds|
  {
    if ds != [] { ErrorsIffFirst(ds[..|ds| - 1]); }
  }

  lemma {:induction false} FirstErrorIsFirst(ds: seq<Entry>)
    ensures var i := FirstError(ds); i < |ds| ==> IsError(ds[i])
    ensures forall k :: 0 <= k < FirstError(ds) ==> !IsError(ds[k])
    decreases |ds|
  {
    if ds != [] { FirstErrorIsFirst(ds[1..]); }
  }

  lemma HasErrorIffFirst(ds: seq<Entry>)
    ensures ErrorsIn(ds) > 0 <==> FirstError(ds) < |ds|
  {
    ErrorsIffFirst(ds);
    FirstErrorIsFirst(ds);
  }

  lemma LimitedErrors(maxDiffs: nat, ds: seq<Entry>, matches: bool)
    ensures ErrorsIn(Limited(maxDiffs, ds, matches)) > 0 <==> FirstError(ds) < |ds| && FirstError(ds) < maxDiffs
  {
    if |ds| <= maxDiffs {
      HasErrorIffFirst(ds);
    } else {
      var kept := ds[..maxDiffs];
      var limited := Limited(maxDiffs, ds, matches);
      assert limited[..|limited| - 1] == kept && !IsError(limited[|limited| - 1]);
      ErrorsIffFirst(kept);
      FirstErrorIsFirst(ds);
      if FirstError(ds) < maxDiffs { assert IsError(kept[FirstError(ds)]); }
    }
  }

  // ----- failing on errors -----

  /** The original has no replay, or a failed one, or its full list of marked differences has
      its first counted error before position m. */
  ghost predicate ErrorWithin(rs: RuleSet, m: nat, compare: Comparer, original: Record, replay: Option<Record>) {
    match replay
    case None => true
    case Some(r) =>
      r.error != "" ||
      var ds := MarkedAll(rs, compare(original, r));
      FirstError(ds) < |ds| && FirstError(ds) < m
  }

  ghost predicate SomeErrorWithin(
    rs: RuleSet, m: nat, compare: Comparer, originals: seq<Record>, replays: seq<Record>)
  {
    exists i :: 0 <= i < |originals| &&
      ErrorWithin(rs, m, compare, originals[i], Latest(replays, originals[i].sequence))
  }

  lemma ResultErrors(rs: RuleSet, m: nat, compare: Comparer, original: Record, replay: Option<Record>)
    ensures ErrorsIn(ResultFor(rs, m, compare, original, replay).differences) > 0
      <==> ErrorWithin(rs, m, compare, original, replay)
  {
    if replay.Some? && replay.value.error == "" {
      var ds := MarkedAll(rs, compare(original, replay.value));
      LimitedErrors(m, ds, AllIgnored(ds));
    } else {
      var ds := ResultFor(rs, m, compare, original, replay).differences;
      assert ds[..0] == [] && IsError(ds[0]);
    }
  }

  /** The outcome of failing on errors, for every rule set, comparison and session: it fails
      exactly when some original has no successful replay, or a counted error among its first
      m differences. */
  lemma ErrorVerdictIff(rs: RuleSet, m: nat, compare: Comparer, originals: seq<Record>, replays: seq<Record>)
    ensures Fails(FailOnError, SummaryOf(ResultsFor(rs, m, compare, originals, replays)))
      <==> SomeErrorWithin(rs, m, compare, originals, replays)
  {
    var results := ResultsFor(rs, m, compare, originals, replays);
    SummaryCounts(results);
    forall i | 0 <= i < |originals|
      ensures ErrorsIn(results[i].differences) > 0
        <==> ErrorWithin(rs, m, compare, originals[i], Latest(replays, originals[i].sequence))
    {
      ResultErrors(rs, m, compare, originals[i], Latest(replays, originals[i].sequence));
    }
  }

  /** No pair has more than n differences: nothing is truncated. */
  ghost predicate NothingTruncated(n: nat, compare: Comparer, originals: seq<Record>, replays: seq<Record>) {
    forall i :: 0 <= i < |originals| ==> PairFits(n, compare, originals[i], Latest(replays, originals[i].sequence))
  }

  ghost predicate PairFits(n: nat, compare: Comparer, original: Record, replay: Option<Record>) {
    replay.Some? ==> |compare(original, replay.value)| <= n
  }

  /** The original's first counted error, if it has one, is cut off at m. */
  ghost predicate ErrorCutOff(rs: RuleSet, m: nat, compare: Comparer, original: Record, replay: Option<Record>) {
    replay.Some? && replay.value.error == "" &&
    var ds := MarkedAll(rs, compare(original, replay.value));
    m <= FirstError(ds) < |ds|
  }

  /** Truncating at m leaves the session's outcome as it is without truncation exactly when no
      original's first error is cut off, or some original keeps an error all the same. */
  lemma ErrorVerdictKeptIff(
    rs: RuleSet, m: nat, n: nat, compare: Comparer, originals: seq<Record>, replays: seq<Record>)
    requires NothingTruncated(n, compare, originals, replays)
    ensures (Fails(FailOnError, SummaryOf(ResultsFor(rs, m, compare, originals, replays)))
        <==> Fails(FailOnError, SummaryOf(ResultsFor(rs, n, compare, originals, replays))))
      <==> (SomeErrorWithin(rs, m, compare, originals, replays)
        || forall i :: 0 <= i < |originals| ==>
             !ErrorCutOff(rs, m, compare, originals[i], Latest(replays, originals[i].sequence)))
  {
    ErrorVerdictIff(rs, m, compare, originals, replays);
    ErrorVerdictIff(rs, n, compare, originals, replays);
    forall i | 0 <= i < |originals|
      ensures var replay := Latest(replays, originals[i].sequence);
        (ErrorWithin(rs, n, compare, originals[i], replay) <==>
          ErrorWithin(rs, m, compare, originals[i], replay) || ErrorCutOff(rs, m, compare, originals[i], replay))
    {
      var replay := Latest(replays, originals[i].sequence);
      assert PairFits(n, compare, originals[i], replay);
    }
  }
}
