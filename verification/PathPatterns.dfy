/** The path patterns of rules: how a pattern is rewritten to a regular expression, and which
    paths the result matches. */
module PathPatterns {

  // ----- rewriting -----

  const SPECIAL: string := "\\.+*?()|[]{}^$"

  function Quote(c: char): string {
    if c in SPECIAL then ['\\', c] else [c]
  }

  function QuoteMeta(s: string): string {
    if s == "" then "" else Quote(s[0]) + QuoteMeta(s[1..])
  }

  function ReplaceAll(s: string, find: string, put: string): string
    requires find != ""
  {
    if s == "" then ""
    else if find <= s then put + ReplaceAll(s[|find|..], find, put)
    else [s[0]] + ReplaceAll(s[1..], find, put)
  }

  const PAIR: string := "\\*\\*"
  const ANYTHING: string := ".*"
  const NO_DOTS: string := "[^.]*"

  function PathToRegexp(pattern: string): string {
    var escaped := QuoteMeta(pattern);
    var doubles := ReplaceAll(escaped, PAIR, ANYTHING);
    var singles := ReplaceAll(doubles, "\\*", NO_DOTS);
    "^" + ReplaceAll(singles, "\\[\\*\\]", "\\[\\d+\\]") + "$"
  }

  /** What a pattern asks for, from left to right. */
  datatype Piece = Exactly(c: char) | Anything | NoDots

  function Pieces(pattern: string): seq<Piece> {
    if pattern == "" then []
    else if pattern[0] != '*' then [Exactly(pattern[0])] + Pieces(pattern[1..])
    else if |pattern| > 1 && pattern[1] == '*' then [Anything] + Pieces(pattern[2..])
    else [NoDots] + Pieces(pattern[1..])
  }

  function Render(piece: Piece): string {
    match piece
    case Exactly(c) => Quote(c)
    case Anything => ANYTHING
    case NoDots => NO_DOTS
  }

  function RenderAll(pieces: seq<Piece>): string {
    if pieces == [] then "" else Render(pieces[0]) + RenderAll(pieces[1..])
  }

  /** With the pairs of stars replaced. */
  function Doubled(pattern: string): string {
    if pattern == "" then ""
    else if |pattern| > 1 && pattern[0] == '*' && pattern[1] == '*' then ANYTHING + Doubled(pattern[2..])
    else Quote(pattern[0]) + Doubled(pattern[1..])
  }

  ghost predicate StartsWithStar(s: string) {
    s != "" && s[0] == '*'
  }

  lemma KeepOne(s: string, find: string, put: string)
    requires find != "" && s != "" && !(find <= s)
    ensures ReplaceAll(s, find, put) == [s[0]] + ReplaceAll(s[1..], find, put)
  {
  }

  lemma ReplaceFirst(s: string, find: string, put: string)
    requires find != ""
    ensures ReplaceAll(find + s, find, put) == put + ReplaceAll(s, find, put)
  {
    assert (find + s)[|find|..] == s;
  }

  /** A quoted character other than a star is kept, when what follows does not begin with a star. */
  lemma KeepQuoted(c: char, s: string, find: string, put: string)
    requires c != '*' && !StartsWithStar(s) && "\\*" <= find
    ensures ReplaceAll(Quote(c) + s, find, put) == Quote(c) + ReplaceAll(s, find, put)
  {
    var all := Quote(c) + s;
    if c in SPECIAL {
      assert all[1..] == [c] + s && all[1..][1..] == s;
      assert all[1] == c && find[1] == '*';
      KeepOne(all, find, put);
      assert s != "" ==> all[1..][1] == s[0];
      KeepOne(all[1..], find, put);
    } else {
      assert all[1..] == s && all[0] == c && find[0] == '\\';
      KeepOne(all, find, put);
    }
  }

  lemma QuotedStart(s: string)
    ensures !StartsWithStar(QuoteMeta(s)) && !StartsWithStar(Doubled(s)) && !StartsWithStar(RenderAll(Pieces(s)))
  {
  }

  lemma PrefixTail(find: string, s: string, n: nat)
    requires n <= |find| <= |s|
    ensures find <= s ==> find[n..] <= s[n..]
  {
  }

  lemma QuotedNoStar(s: string)
    requires s != "" ==> s[0] != '*'
    ensures !("\\*" <= QuoteMeta(s))
  {
    if s != "" {
      assert SPECIAL[0] == '\\';
      assert if s[0] in SPECIAL then QuoteMeta(s)[1] == s[0] else QuoteMeta(s)[0] == s[0];
    }
  }

  /** A single quoted star is no pair. */
  lemma KeepSingleStar(s: string)
    requires s != "" ==> s[0] != '*'
    ensures ReplaceAll("\\*" + QuoteMeta(s), PAIR, ANYTHING) == "\\*" + ReplaceAll(QuoteMeta(s), PAIR, ANYTHING)
  {
    var rest := QuoteMeta(s);
    var all := "\\*" + rest;
    QuotedNoStar(s);
    assert all[2..] == rest && PAIR[2..] == "\\*";
    if |PAIR| <= |all| { PrefixTail(PAIR, all, 2); }
    KeepOne(all, PAIR, ANYTHING);
    assert all[1..] == "*" + rest && all[1..][1..] == rest && all[1..][0] == '*' && PAIR[0] == '\\';
    KeepOne(all[1..], PAIR, ANYTHING);
  }

  lemma {:induction false} DoublesReplaced(pattern: string)
    ensures ReplaceAll(QuoteMeta(pattern), PAIR, ANYTHING) == Doubled(pattern)
    decreases |pattern|
  {
    if pattern != "" {
      var rest := pattern[1..];
      if pattern[0] != '*' {
        QuotedStart(rest);
        KeepQuoted(pattern[0], QuoteMeta(rest), PAIR, ANYTHING);
        DoublesReplaced(rest);
      } else if |pattern| > 1 && pattern[1] == '*' {
        assert rest[1..] == pattern[2..];
        assert QuoteMeta(pattern) == "\\*" + ("\\*" + QuoteMeta(pattern[2..]));
        assert QuoteMeta(pattern) == PAIR + QuoteMeta(pattern[2..]);
        ReplaceFirst(QuoteMeta(pattern[2..]), PAIR, ANYTHING);
        DoublesReplaced(pattern[2..]);
      } else {
        assert QuoteMeta(pattern) == "\\*" + QuoteMeta(rest);
        KeepSingleStar(rest);
        DoublesReplaced(rest);
      }
    }
  }

  lemma KeepAnything(s: string)
    ensures ReplaceAll(ANYTHING + s, "\\*", NO_DOTS) == ANYTHING + ReplaceAll(s, "\\*", NO_DOTS)
  {
    var all := ANYTHING + s;
    assert all[1..] == "*" + s && all[1..][1..] == s && all[0] == '.' && all[1] == '*';
    KeepOne(all, "\\*", NO_DOTS);
    KeepOne(all[1..], "\\*", NO_DOTS);
  }

  lemma {:induction false} SinglesReplaced(pattern: string)
    ensures ReplaceAll(Doubled(pattern), "\\*", NO_DOTS) == RenderAll(Pieces(pattern))
    decreases |pattern|
  {
    if pattern != "" {
      var rest := pattern[1..];
      if pattern[0] != '*' {
        QuotedStart(rest);
        KeepQuoted(pattern[0], Doubled(rest), "\\*", NO_DOTS);
        SinglesReplaced(rest);
        assert Pieces(pattern)[1..] == Pieces(rest);
      } else if |pattern| > 1 && pattern[1] == '*' {
        KeepAnything(Doubled(pattern[2..]));
        SinglesReplaced(pattern[2..]);
        assert Pieces(pattern)[1..] == Pieces(pattern[2..]);
      } else {
        assert Doubled(pattern) == "\\*" + Doubled(rest);
        ReplaceFirst(Doubled(rest), "\\*", NO_DOTS);
        SinglesReplaced(rest);
        assert Pieces(pattern)[1..] == Pieces(rest);
      }
    }
  }

  // ----- the last replacement does nothing -----

  /** No backslash is followed by a star. */
  ghost predicate NoQuotedStar(s: string) {
    forall i :: 0 <= i < |s| - 1 && s[i] == '\\' ==> s[i + 1] != '*'
  }

  lemma NoQuotedStarJoin(a: string, b: string)
    requires NoQuotedStar(a) && NoQuotedStar(b) && !StartsWithStar(b)
    ensures NoQuotedStar(a + b)
  {
  }

  lemma {:induction false} RenderedWithoutQuotedStar(pattern: string)
    ensures NoQuotedStar(RenderAll(Pieces(pattern)))
    decreases |pattern|
  {
    if pattern != "" {
      var step := if Pieces(pattern)[0] == Anything then 2 else 1;
      var rest := pattern[step..];
      assert Pieces(pattern)[1..] == Pieces(rest);
      RenderedWithoutQuotedStar(rest);
      QuotedStart(rest);
      NoQuotedStarJoin(Render(Pieces(pattern)[0]), RenderAll(Pieces(rest)));
    }
  }

  lemma {:induction false} NothingToReplace(s: string)
    requires NoQuotedStar(s)
    ensures ReplaceAll(s, "\\[\\*\\]", "\\[\\d+\\]") == s
    decreases |s|
  {
    if s != "" {
      var find := "\\[\\*\\]";
      assert find[2] == '\\' && find[3] == '*' && (|s| > 3 && s[2] == '\\' ==> s[2 + 1] != '*');
      KeepOne(s, find, "\\[\\d+\\]");
      NothingToReplace(s[1..]);
    }
  }

  /** The expression that a pattern is rewritten to asks for its pieces, one by one. The last of
      the three replacements, which is to make [*] an array index, never finds anything. */
  lemma RegexpOfPattern(pattern: string)
    ensures PathToRegexp(pattern) == "^" + RenderAll(Pieces(pattern)) + "$"
  {
    DoublesReplaced(pattern);
    SinglesReplaced(pattern);
    RenderedWithoutQuotedStar(pattern);
    NothingToReplace(RenderAll(Pieces(pattern)));
  }

  // ----- matching -----

  /** As a regular expression matches, from the first to the last character. */
  predicate Fits(pieces: seq<Piece>, path: string)
    decreases |pieces|, |path|
  {
    if pieces == [] then path == ""
    else
      match pieces[0]
      case Exactly(c) => path != "" && path[0] == c && Fits(pieces[1..], path[1..])
      case Anything => Fits(pieces[1..], path) || (path != "" && path[0] != '\n' && Fits(pieces, path[1..]))
      case NoDots => Fits(pieces[1..], path) || (path != "" && path[0] != '.' && Fits(pieces, path[1..]))
  }

  function Compile(pattern: string): string -> bool {
    path => Fits(Pieces(pattern), path)
  }

  // ----- what matches -----

  /** What one piece stands for. */
  predicate Means(piece: Piece, text: string) {
    match piece
    case Exactly(c) => text == [c]
    case Anything => '\n' !in text
    case NoDots => '.' !in text
  }

  function Flat(parts: seq<string>): string {
    if parts == [] then "" else parts[0] + Flat(parts[1..])
  }

  /** The path falls into parts that are what the pieces stand for. */
  ghost predicate Cuts(pieces: seq<Piece>, parts: seq<string>, path: string) {
    && |parts| == |pieces| && Flat(parts) == path
    && forall i :: 0 <= i < |parts| ==> Means(pieces[i], parts[i])
  }

  lemma {:induction false} FitsHasCut(pieces: seq<Piece>, path: string) returns (parts: seq<string>)
    requires Fits(pieces, path)
    ensures Cuts(pieces, parts, path)
    decreases |pieces|, |path|
  {
    if pieces == [] {
      parts := [];
    } else if pieces[0].Exactly? {
      var rest := FitsHasCut(pieces[1..], path[1..]);
      parts := [[path[0]]] + rest;
      assert [path[0]] + path[1..] == path && parts[1..] == rest;
    } else if Fits(pieces[1..], path) {
      var rest := FitsHasCut(pieces[1..], path);
      parts := [""] + rest;
      assert parts[1..] == rest && "" + path == path;
    } else {
      var rest := FitsHasCut(pieces, path[1..]);
      parts := [[path[0]] + rest[0]] + rest[1..];
      assert parts[1..] == rest[1..] && [path[0]] + path[1..] == path;
      assert [path[0]] + rest[0] + Flat(rest[1..]) == [path[0]] + (rest[0] + Flat(rest[1..]));
    }
  }

  lemma {:induction false} CutFits(pieces: seq<Piece>, parts: seq<string>, path: string)
    requires Cuts(pieces, parts, path)
    ensures Fits(pieces, path)
    decreases |pieces|, |path|
  {
    if pieces != [] {
      var part, rest := parts[0], parts[1..];
      assert Means(pieces[0], part);
      if pieces[0].Exactly? {
        assert path == part + Flat(rest) && path[1..] == Flat(rest);
        CutFits(pieces[1..], rest, path[1..]);
      } else if part == "" {
        assert path == Flat(rest);
        CutFits(pieces[1..], rest, path);
      } else {
        var shorter := [part[1..]] + rest;
        assert shorter[1..] == rest && path == part + Flat(rest) && path[1..] == part[1..] + Flat(rest);
        assert path[0] == part[0] && Means(pieces[0], part[1..]);
        CutFits(pieces, shorter, path[1..]);
      }
    }
  }

  /** A path matches exactly when it can be cut into what the pieces stand for, in order. */
  lemma FitsIffCut(pieces: seq<Piece>, path: string)
    ensures Fits(pieces, path) <==> exists parts :: Cuts(pieces, parts, path)
  {
    if Fits(pieces, path) { var parts := FitsHasCut(pieces, path); }
    if parts :| Cuts(pieces, parts, path) { CutFits(pieces, parts, path); }
  }

  /** A text without a star asks for itself, in front of what follows. */
  lemma {:induction false} TextFitsItself(text: string, more: string, path: string)
    requires '*' !in text
    ensures Fits(Pieces(text + more), path) <==> text <= path && Fits(Pieces(more), path[|text|..])
    decreases |text|
  {
    if text == "" {
      assert text + more == more && path[0..] == path;
    } else {
      assert (text + more)[1..] == text[1..] + more;
      assert Pieces(text + more)[1..] == Pieces(text[1..] + more);
      if path != "" {
        TextFitsItself(text[1..], more, path[1..]);
        assert text <= path <==> text[0] == path[0] && text[1..] <= path[1..];
        if text <= path { assert path[1..][|text| - 1..] == path[|text|..]; }
      }
    }
  }

  lemma PlainPatternFitsItself(pattern: string, path: string)
    requires '*' !in pattern
    ensures Compile(pattern)(path) <==> path == pattern
  {
    TextFitsItself(pattern, "", path);
    assert pattern + "" == pattern && Pieces("") == [];
  }

  predicate EndsWith(s: string, end: string) {
    |end| <= |s| && s[|s| - |end|..] == end
  }

  /** A star, and then a text without one. */
  lemma {:induction false} StarThenText(star: Piece, text: string, path: string)
    requires !star.Exactly? && '*' !in text
    ensures Fits([star] + Pieces(text), path)
      <==> EndsWith(path, text) && Means(star, path[..|path| - |text|])
    decreases |path|
  {
    var pieces := [star] + Pieces(text);
    assert pieces[1..] == Pieces(text);
    PlainPatternFitsItself(text, path);
    if path != "" {
      StarThenText(star, text, path[1..]);
      if |path| > |text| {
        var front := path[..|path| - |text|];
        assert path[1..][..|path| - 1 - |text|] == front[1..] && front == [path[0]] + front[1..];
        assert path[1..][|path| - 1 - |text|..] == path[|path| - |text|..];
      }
    }
  }

  /** A pattern that begins with two stars: what ends with the rest, on one line before it. */
  lemma SuffixPatternIff(text: string, path: string)
    requires '*' !in text
    ensures Compile("**" + text)(path) <==> EndsWith(path, text) && '\n' !in path[..|path| - |text|]
  {
    assert ("**" + text)[2..] == text;
    StarThenText(Anything, text, path);
  }

  /** A pattern that ends with [*]: anything without a dot may stand between the brackets. */
  lemma IndexPatternIff(text: string, path: string)
    requires '*' !in text
    ensures Compile(text + "[*]")(path) <==>
      && |text| + 2 <= |path| && text + "[" <= path && path[|path| - 1] == ']'
      && '.' !in path[|text| + 1..|path| - 1]
  {
    var open := text + "[";
    assert text + "[*]" == open + "*]" && "*]"[1..] == "]";
    TextFitsItself(open, "*]", path);
    assert Pieces("*]") == [NoDots] + Pieces("]");
    if open <= path {
      var rest := path[|open|..];
      StarThenText(NoDots, "]", rest);
      if rest != "" { assert rest[..|rest| - 1] == path[|text| + 1..|path| - 1]; }
    }
  }

  /** Not only array indices: between the brackets anything is matched but a dot. */
  lemma BracketsMatchIff(text: string, inner: string)
    requires '*' !in text
    ensures Compile(text + "[*]")(text + "[" + inner + "]") <==> '.' !in inner
  {
    var path := text + "[" + inner + "]";
    assert path[..|text| + 1] == text + "[" && path[|text| + 1..|path| - 1] == inner;
    IndexPatternIff(text, path);
  }
}
