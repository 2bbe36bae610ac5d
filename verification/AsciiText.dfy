/** Blanks, words and case in ASCII text. */
module AsciiText {
  import opened Framing

  type Text = seq<Byte>

  const SPACE: Byte := 32

  predicate IsBlank(b: Byte) {
    9 <= b <= 13 || b == SPACE
  }

  predicate IsWord(w: Text) {
    w != [] && forall b :: b in w ==> !IsBlank(b)
  }

  function TrimLeft(s: Text): Text {
    if s != [] && IsBlank(s[0]) then TrimLeft(s[1..]) else s
  }

  function TrimRight(s: Text): Text {
    if s != [] && IsBlank(s[|s| - 1]) then TrimRight(s[..|s| - 1]) else s
  }

  function TrimSpace(s: Text): Text {
    TrimRight(TrimLeft(s))
  }

  /** The length of the blank-free prefix. */
  function WordLength(s: Text): (n: nat)
    ensures n <= |s|
    ensures s != [] && !IsBlank(s[0]) ==> n > 0
  {
    if s == [] || IsBlank(s[0]) then 0 else 1 + WordLength(s[1..])
  }

  /** The words of a text, in order. */
  function Fields(s: Text): seq<Text>
    decreases |s|
  {
    if s == [] then []
    else if IsBlank(s[0]) then Fields(s[1..])
    else [s[..WordLength(s)]] + Fields(s[WordLength(s)..])
  }

  /** The words with one space between neighbours. */
  function Join(words: seq<Text>): Text {
    if words == [] then []
    else if |words| == 1 then words[0]
    else words[0] + [SPACE] + Join(words[1..])
  }

  function UpperByte(b: Byte): Byte {
    if 97 <= b <= 122 then b - 32 else b
  }

  function ToUpper(s: Text): (r: Text)
    ensures |r| == |s|
    ensures forall i :: 0 <= i < |s| ==> r[i] == if 97 <= s[i] <= 122 then s[i] - 32 else s[i]
  {
    seq(|s|, i requires 0 <= i < |s| => UpperByte(s[i]))
  }

  function UpperWords(words: seq<Text>): seq<Text> {
    seq(|words|, i requires 0 <= i < |words| => ToUpper(words[i]))
  }

  ghost predicate AllWords(words: seq<Text>) {
    forall i :: 0 <= i < |words| ==> IsWord(words[i])
  }

  lemma {:induction false} WordPrefix(s: Text)
    ensures var n := WordLength(s);
      (forall b :: b in s[..n] ==> !IsBlank(b)) && (n < |s| ==> IsBlank(s[n]))
    decreases |s|
  {
    if s != [] && !IsBlank(s[0]) {
      WordPrefix(s[1..]);
      var n := WordLength(s[1..]);
      assert s[..1 + n] == [s[0]] + s[1..][..n];
    }
  }

  lemma {:induction false} WordThen(w: Text, rest: Text)
    requires IsWord(w) && (rest == [] || IsBlank(rest[0]))
    ensures WordLength(w + rest) == |w|
    decreases |w|
  {
    assert (w + rest)[1..] == w[1..] + rest;
    if |w| > 1 {
      WordThen(w[1..], rest);
    } else {
      assert w[1..] + rest == rest;
    }
  }

  lemma {:induction false} FieldsAreWords(s: Text)
    ensures AllWords(Fields(s))
    decreases |s|
  {
    if s != [] {
      if IsBlank(s[0]) {
        FieldsAreWords(s[1..]);
      } else {
        WordPrefix(s);
        FieldsAreWords(s[WordLength(s)..]);
      }
    }
  }

  /** Splitting undoes joining. */
  lemma {:induction false} FieldsOfJoin(words: seq<Text>)
    requires AllWords(words)
    ensures Fields(Join(words)) == words
    decreases |words|
  {
    if |words| == 1 {
      assert words[0] + [] == words[0];
      WordThen(words[0], []);
      assert words[0][..|words[0]|] == words[0] && words == [words[0]];
    } else if words != [] {
      var rest := [SPACE] + Join(words[1..]);
      assert Join(words) == words[0] + rest;
      WordThen(words[0], rest);
      assert rest[1..] == Join(words[1..]);
      FieldsOfJoin(words[1..]);
      assert words == [words[0]] + words[1..];
    }
  }

  /** Joining blank-free words is injective. */
  lemma JoinIsInjective(xs: seq<Text>, ys: seq<Text>)
    requires AllWords(xs) && AllWords(ys) && Join(xs) == Join(ys)
    ensures xs == ys
  {
    FieldsOfJoin(xs);
    FieldsOfJoin(ys);
  }

  lemma {:induction false} FieldsOfTrimLeft(s: Text)
    ensures Fields(TrimLeft(s)) == Fields(s)
    decreases |s|
  {
    if s != [] && IsBlank(s[0]) {
      FieldsOfTrimLeft(s[1..]);
    }
  }

  lemma {:induction false} BlankAtEnd(s: Text, blank: Byte)
    requires IsBlank(blank)
    ensures Fields(s + [blank]) == Fields(s)
    decreases |s|
  {
    if s == [] {
      assert s + [blank] == [blank] && [blank][1..] == [];
    } else if IsBlank(s[0]) {
      assert (s + [blank])[1..] == s[1..] + [blank];
      BlankAtEnd(s[1..], blank);
    } else {
      var n := WordLength(s);
      WordPrefix(s);
      var rest := s[n..] + [blank];
      assert s + [blank] == s[..n] + rest;
      WordThen(s[..n], rest);
      assert (s + [blank])[n..] == rest && (s + [blank])[..n] == s[..n];
      BlankAtEnd(s[n..], blank);
    }
  }

  lemma {:induction false} FieldsOfTrimRight(s: Text)
    ensures Fields(TrimRight(s)) == Fields(s)
    decreases |s|
  {
    if s != [] && IsBlank(s[|s| - 1]) {
      var init := s[..|s| - 1];
      assert s == init + [s[|s| - 1]];
      BlankAtEnd(init, s[|s| - 1]);
      FieldsOfTrimRight(init);
    }
  }

  lemma FieldsOfTrimSpace(s: Text)
    ensures Fields(TrimSpace(s)) == Fields(s)
  {
    FieldsOfTrimLeft(s);
    FieldsOfTrimRight(TrimLeft(s));
  }

  /** A text trims to nothing exactly when it has no word. */
  lemma TrimmedEmptyIffNoFields(s: Text)
    ensures TrimSpace(s) == [] <==> Fields(s) == []
  {
    FieldsOfTrimSpace(s);
    var t := TrimSpace(s);
    if t != [] { TrimRightStart(TrimLeft(s)); TrimLeftStart(s); }
  }

  lemma {:induction false} TrimLeftStart(s: Text)
    ensures TrimLeft(s) != [] ==> !IsBlank(TrimLeft(s)[0])
    decreases |s|
  {
    if s != [] && IsBlank(s[0]) { TrimLeftStart(s[1..]); }
  }

  lemma {:induction false} TrimRightStart(s: Text)
    ensures TrimRight(s) <= s
    decreases |s|
  {
    if s != [] && IsBlank(s[|s| - 1]) { TrimRightStart(s[..|s| - 1]); }
  }

  lemma UpperKeepsWords(words: seq<Text>)
    requires AllWords(words)
    ensures AllWords(UpperWords(words))
  {
    forall i | 0 <= i < |words| ensures IsWord(UpperWords(words)[i]) {
      var w := words[i];
      assert IsWord(w);
      forall j | 0 <= j < |w| ensures !IsBlank(ToUpper(w)[j]) { assert w[j] in w; }
    }
  }

  lemma {:induction false} UpperOfJoin(words: seq<Text>)
    ensures ToUpper(Join(words)) == Join(UpperWords(words))
    decreases |words|
  {
    if |words| > 1 {
      UpperOfJoin(words[1..]);
      assert UpperWords(words)[1..] == UpperWords(words[1..]);
      var tail := Join(words[1..]);
      assert ToUpper(words[0] + [SPACE] + tail) == ToUpper(words[0]) + [SPACE] + ToUpper(tail);
    }
  }

  // ----- words among blanks, letter by letter -----

  /** Words with gaps before, between and behind them. */
  function Spread(gaps: seq<Text>, words: seq<Text>): Text
    requires |gaps| == |words| + 1
    decreases |words|
  {
    if words == [] then gaps[0] else gaps[0] + (words[0] + Spread(gaps[1..], words[1..]))
  }

  /** Tab, line feed, vertical tab, form feed, carriage return and space are blanks: gaps are
      made of them, those between words are not empty, and words are not empty and have none. */
  ghost predicate WellSpread(gaps: seq<Text>, words: seq<Text>) {
    && |gaps| == |words| + 1
    && (forall i :: 0 <= i < |gaps| ==> forall b :: b in gaps[i] ==> b in {9, 10, 11, 12, 13, 32})
    && (forall i :: 0 < i < |words| ==> gaps[i] != [])
    && (forall i :: 0 <= i < |words| ==>
          words[i] != [] && forall b :: b in words[i] ==> b !in {9, 10, 11, 12, 13, 32})
  }

  lemma {:induction false} GapIsSkipped(gap: Text, s: Text)
    requires forall b :: b in gap ==> IsBlank(b)
    ensures Fields(gap + s) == Fields(s)
    decreases |gap|
  {
    if gap == [] {
      assert gap + s == s;
    } else {
      assert gap[0] in gap && (gap + s)[1..] == gap[1..] + s;
      GapIsSkipped(gap[1..], s);
    }
  }

  lemma WordIsFirst(w: Text, rest: Text)
    requires IsWord(w) && (rest == [] || IsBlank(rest[0]))
    ensures Fields(w + rest) == [w] + Fields(rest)
  {
    WordThen(w, rest);
    assert w[0] in w && (w + rest)[..|w|] == w && (w + rest)[|w|..] == rest;
  }

  /** The words of such a text are its fields, in order. */
  lemma {:induction false} FieldsOfSpread(gaps: seq<Text>, words: seq<Text>)
    requires WellSpread(gaps, words)
    ensures Fields(Spread(gaps, words)) == words
    decreases |words|
  {
    assert forall b :: b in gaps[0] ==> IsBlank(b);
    if words == [] {
      assert gaps[0] + [] == gaps[0];
      GapIsSkipped(gaps[0], []);
    } else {
      var rest := Spread(gaps[1..], words[1..]);
      SpreadStartsBlank(gaps, words);
      FieldsOfSpread(gaps[1..], words[1..]);
      WordIsFirst(words[0], rest);
      GapIsSkipped(gaps[0], words[0] + rest);
      assert words == [words[0]] + words[1..];
    }
  }

  lemma SpreadStartsBlank(gaps: seq<Text>, words: seq<Text>)
    requires WellSpread(gaps, words) && words != []
    ensures var rest := Spread(gaps[1..], words[1..]); rest == [] || IsBlank(rest[0])
    ensures IsWord(words[0]) && WellSpread(gaps[1..], words[1..])
  {
    var next := gaps[1];
    assert forall b :: b in next ==> b in {9, 10, 11, 12, 13, 32};
    if next != [] { assert next[0] in next; }
  }

  /** The text without the blanks at its ends. */
  function Ink(s: Text): Text {
    if s == [] then []
    else if s[0] in {9, 10, 11, 12, 13, 32} then Ink(s[1..])
    else if s[|s| - 1] in {9, 10, 11, 12, 13, 32} then Ink(s[..|s| - 1])
    else s
  }

  lemma {:induction false} TrimSpaceIsInk(s: Text)
    ensures TrimSpace(s) == Ink(s)
    decreases |s|
  {
    if s != [] {
      if IsBlank(s[0]) {
        TrimSpaceIsInk(s[1..]);
      } else if IsBlank(s[|s| - 1]) {
        TrimSpaceIsInk(s[..|s| - 1]);
      }
    }
  }

  /** Two texts with the same letters, whatever their case, and otherwise the same bytes. */
  predicate SameLetters(a: Text, b: Text) {
    |a| == |b| && forall i :: 0 <= i < |a| ==>
      a[i] == b[i] || (65 <= a[i] <= 90 && b[i] == a[i] + 32) || (65 <= b[i] <= 90 && a[i] == b[i] + 32)
  }

  lemma UpperEqualIffSameLetters(a: Text, b: Text)
    ensures ToUpper(a) == ToUpper(b) <==> SameLetters(a, b)
  {
    if ToUpper(a) == ToUpper(b) {
      forall i | 0 <= i < |a|
        ensures a[i] == b[i] || (65 <= a[i] <= 90 && b[i] == a[i] + 32) || (65 <= b[i] <= 90 && a[i] == b[i] + 32)
      {
        assert ToUpper(a)[i] == ToUpper(b)[i];
      }
    }
  }
}
