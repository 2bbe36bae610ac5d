/** How the places of a JSON body are written in a report. */
module ReportText {
  import opened JsonDiff
  import opened RecordComparison

  // ----- decimal digits -----

  predicate AllDigits(s: string) {
    forall i :: 0 <= i < |s| ==> '0' <= s[i] <= '9'
  }

  /** What some digits stand for, the most significant first. */
  function NumberOf(s: string): int {
    if s == "" then 0 else 10 * NumberOf(s[..|s| - 1]) + (s[|s| - 1] as int - '0' as int)
  }

  /** The decimal digits of a number, with no zero ahead of them. */
  lemma {:induction false} DigitsMean(n: nat)
    ensures AllDigits(Digits(n)) && Digits(n) != "" && NumberOf(Digits(n)) == n
    ensures |Digits(n)| > 1 ==> Digits(n)[0] != '0'
    decreases n
  {
    var s := Digits(n);
    if n < 10 {
      assert s[..0] == "" && NumberOf("") == 0;
    } else {
      DigitsMean(n / 10);
      assert s[..|s| - 1] == Digits(n / 10);
      if |Digits(n / 10)| == 1 { OneDigit(Digits(n / 10)); }
    }
  }

  lemma OneDigit(s: string)
    requires |s| == 1
    ensures NumberOf(s) == s[0] as int - '0' as int
  {
    assert s[..0] == "" && NumberOf("") == 0;
  }

  // ----- paths -----

  /** One step as it is written: a dot and the name, or brackets around the index. */
  function StepText(step: Step): string {
    match step
    case Field(name) => "." + name
    case Index(i) => "[" + Digits(i) + "]"
    case Extra => "[extra]"
  }

  /** The steps are written behind "body", each behind the one before. */
  lemma PathTextSteps(path: Path, step: Step)
    ensures PathText([]) == "body"
    ensures PathText(path + [step]) == PathText(path) + StepText(step)
  {
    assert (path + [step])[..|path|] == path;
  }

  lemma {:induction false} PathTextStart(path: Path)
    ensures PathText(path) != "" && PathText(path)[0] == 'b'
    decreases |path|
  {
    if path != [] { PathTextStart(path[..|path| - 1]); }
  }

  predicate Separator(c: char) {
    c == '.' || c == '['
  }

  /** A separator first, and none behind it. */
  predicate OneStep(s: string) {
    s != "" && Separator(s[0]) && forall i :: 0 < i < |s| ==> !Separator(s[i])
  }

  /** None of the names of the fields holds a dot or an opening bracket. */
  predicate Plain(path: Path) {
    forall i :: 0 <= i < |path| && path[i].Field? ==> PlainName(path[i].name)
  }

  predicate PlainName(name: string) {
    forall i :: 0 <= i < |name| ==> !Separator(name[i])
  }

  lemma StepTextIsOneStep(step: Step)
    requires step.Field? ==> PlainName(step.name)
    ensures OneStep(StepText(step))
  {
    match step
    case Field(name) =>
    case Index(i) =>
      DigitsMean(i);
      assert forall k :: 0 <= k < |Digits(i)| ==> !Separator(Digits(i)[k]);
    case Extra =>
  }

  lemma IndexTextIsRead(i: nat, s: string)
    requires s == StepText(Index(i))
    ensures |s| > 2 && s[0] == '[' && '0' <= s[1] <= '9' && i == NumberOf(s[1..|s| - 1])
  {
    DigitsMean(i);
    assert s[1..|s| - 1] == Digits(i) && s[1] == Digits(i)[0];
  }

  lemma StepStart(step: Step)
    ensures StepText(step) != "" && StepText(step)[0] == (if step.Field? then '.' else '[')
    ensures step.Extra? ==> |StepText(step)| > 1 && StepText(step)[1] == 'e'
  {
  }

  lemma StepTextIsInjective(x: Step, y: Step)
    requires StepText(x) == StepText(y)
    ensures x == y
  {
    var s := StepText(x);
    if x.Index? { IndexTextIsRead(x.i, s); }
    if y.Index? { IndexTextIsRead(y.i, s); }
    StepStart(x);
    StepStart(y);
    if x.Field? { assert s[1..] == x.name && s[1..] == y.name; }
  }

  /** Where the last step begins can be read off the text. */
  lemma LastStepIsFound(a: string, x: string, b: string, y: string)
    requires a + x == b + y && OneStep(x) && OneStep(y)
    ensures a == b && x == y
  {
    LastSeparator(a, x);
    LastSeparator(b, y);
    assert (a + x)[..|a|] == a && (a + x)[|a|..] == x && (b + y)[..|b|] == b && (b + y)[|b|..] == y;
  }

  lemma LastSeparator(a: string, x: string)
    requires OneStep(x)
    ensures |a| < |a + x| && Separator((a + x)[|a|])
    ensures forall i :: |a| < i < |a + x| ==> !Separator((a + x)[i])
  {
  }

  lemma NoStepIsBody(a: string, x: string)
    requires OneStep(x)
    ensures a + x != "body"
  {
    assert (a + x)[|a|] == x[0];
  }

  /** Two places whose field names hold neither a dot nor an opening bracket are written alike
      only if they are the same place. */
  lemma {:induction false} PlainPlacesDiffer(p: Path, q: Path)
    requires Plain(p) && Plain(q)
    ensures PathText(p) == PathText(q) <==> p == q
    decreases |p|
  {
    if p != [] {
      var before, last := p[..|p| - 1], p[|p| - 1];
      assert p == before + [last];
      PathTextSteps(before, last);
      StepTextIsOneStep(last);
      NoStepIsBody(PathText(before), StepText(last));
      if q != [] && PathText(p) == PathText(q) {
        var before', last' := q[..|q| - 1], q[|q| - 1];
        assert q == before' + [last'];
        PathTextSteps(before', last');
        StepTextIsOneStep(last');
        LastStepIsFound(PathText(before), StepText(last), PathText(before'), StepText(last'));
        PlainPlacesDiffer(before, before');
        StepTextIsInjective(last, last');
      }
    } else if q != [] {
      var before, last := q[..|q| - 1], q[|q| - 1];
      assert q == before + [last];
      PathTextSteps(before, last);
      StepTextIsOneStep(last);
      NoStepIsBody(PathText(before), StepText(last));
    }
  }

  /** Other names do not tell: a field with a dot in its name, and a field within a field. */
  lemma OtherPlacesMayNotDiffer()
    ensures PathText([Field("a.b")]) == PathText([Field("a"), Field("b")]) == "body.a.b"
  {
    PathTextSteps([], Field("a.b"));
    PathTextSteps([], Field("a"));
    PathTextSteps([Field("a")], Field("b"));
    assert [] + [Field("a.b")] == [Field("a.b")] && [] + [Field("a")] == [Field("a")];
  }
}
