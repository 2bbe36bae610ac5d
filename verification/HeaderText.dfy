/** Header values as they are printed to be compared, and what printing alike says of them. */
module HeaderText {

  /** The values of a header as they are printed to be compared. */
  function Printed(values: seq<string>): string {
    "[" + Spaced(values) + "]"
  }

  function Spaced(values: seq<string>): string {
    if values == [] then ""
    else if |values| == 1 then values[0]
    else values[0] + " " + Spaced(values[1..])
  }

  /** What lies between the spaces of a text: one piece more than there are spaces. */
  function Split(s: string): (pieces: seq<string>)
    ensures pieces != []
  {
    if s == "" then [""]
    else Before(s[0], Split(s[1..]))
  }

  /** The pieces of all values; no values count as one empty value. */
  function Pieces(values: seq<string>): (pieces: seq<string>)
    ensures pieces != []
  {
    if values == [] then [""]
    else if |values| == 1 then Split(values[0])
    else Split(values[0]) + Pieces(values[1..])
  }

  /** A character in front of the pieces of a text. */
  function Before(c: char, pieces: seq<string>): seq<string>
    requires pieces != []
  {
    if c == ' ' then [""] + pieces else [[c] + pieces[0]] + pieces[1..]
  }

  lemma BeforeBoth(c: char, a: seq<string>, b: seq<string>)
    requires a != []
    ensures Before(c, a + b) == Before(c, a) + b
  {
    assert (a + b)[1..] == a[1..] + b;
  }

  lemma {:induction false} SplitAtSpace(a: string, b: string)
    ensures Split(a + " " + b) == Split(a) + Split(b)
    decreases |a|
  {
    if a == "" {
      assert a + " " + b == " " + b && (" " + b)[1..] == b;
    } else {
      assert (a + " " + b)[1..] == a[1..] + " " + b;
      SplitAtSpace(a[1..], b);
      BeforeBoth(a[0], Split(a[1..]), Split(b));
    }
  }

  lemma {:induction false} SpacedSplitsBack(pieces: seq<string>, s: string)
    requires pieces == Split(s)
    ensures Spaced(pieces) == s
    decreases |s|
  {
    if s != "" {
      var rest := Split(s[1..]);
      SpacedSplitsBack(rest, s[1..]);
      if s[0] == ' ' {
        assert pieces[1..] == rest;
        assert "" + " " + s[1..] == s;
      } else if |rest| == 1 {
        assert pieces == [[s[0]] + rest[0]];
        assert [s[0]] + s[1..] == s;
      } else {
        assert pieces[1..] == rest[1..];
        assert [s[0]] + rest[0] + " " + Spaced(rest[1..]) == [s[0]] + (rest[0] + " " + Spaced(rest[1..]));
        assert [s[0]] + s[1..] == s;
      }
    }
  }

  lemma {:induction false} SplitOfSpaced(values: seq<string>)
    ensures Split(Spaced(values)) == Pieces(values)
    decreases |values|
  {
    if |values| > 1 {
      SplitOfSpaced(values[1..]);
      SplitAtSpace(values[0], Spaced(values[1..]));
    }
  }

  /** Two lists of values print alike exactly when they have the same pieces. */
  lemma PrintedAlikeIff(a: seq<string>, b: seq<string>)
    ensures Printed(a) == Printed(b) <==> Pieces(a) == Pieces(b)
  {
    SplitOfSpaced(a);
    SplitOfSpaced(b);
    SpacedSplitsBack(Pieces(a), Spaced(a));
    SpacedSplitsBack(Pieces(b), Spaced(b));
    if Printed(a) == Printed(b) {
      assert Printed(a)[1..|Printed(a)| - 1] == Spaced(a) && Printed(b)[1..|Printed(b)| - 1] == Spaced(b);
    }
  }

  // ----- when printing alike is being equal -----

  /** At least one value, and no space in any. */
  predicate SpaceFree(values: seq<string>) {
    values != [] && forall i :: 0 <= i < |values| ==> ' ' !in values[i]
  }

  /** One value, not empty and without a space. */
  predicate Plain(values: seq<string>) {
    |values| == 1 && values[0] != "" && ' ' !in values[0]
  }

  lemma {:induction false} SplitWithoutSpace(s: string)
    ensures |Split(s)| == 1 <==> ' ' !in s
    ensures ' ' !in s ==> Split(s) == [s]
    decreases |s|
  {
    if s != "" {
      SplitWithoutSpace(s[1..]);
      assert s == [s[0]] + s[1..];
    }
  }

  lemma {:induction false} PiecesWithoutSpace(values: seq<string>)
    requires SpaceFree(values)
    ensures Pieces(values) == values
    decreases |values|
  {
    SplitWithoutSpace(values[0]);
    if |values| > 1 {
      PiecesWithoutSpace(values[1..]);
      assert values == [values[0]] + values[1..];
    } else {
      assert values == [values[0]];
    }
  }

  /** Lists of values without spaces print alike only when they are equal. */
  lemma SpaceFreePrintsApart(a: seq<string>, b: seq<string>)
    requires SpaceFree(a) && SpaceFree(b)
    ensures Printed(a) == Printed(b) <==> a == b
  {
    PrintedAlikeIff(a, b);
    PiecesWithoutSpace(a);
    PiecesWithoutSpace(b);
  }

  lemma AnotherPrintsAlike(values: seq<string>)
    requires !Plain(values)
    ensures exists other :: other != values && Printed(other) == Printed(values)
  {
    if values == [""] {
      assert Printed([]) == Printed(values) && [] != values;
    } else if |values| == 1 {
      SplitWithoutSpace(values[0]);
      SpacedSplitsBack(Split(values[0]), values[0]);
      assert Printed(Split(values[0])) == Printed(values) && Split(values[0]) != values;
    } else {
      assert Printed([Spaced(values)]) == Printed(values) && [Spaced(values)] != values;
    }
  }

  /** A header's change always shows exactly when the header is a single value that is not empty
      and holds no space; any other prints like some list that it does not equal. */
  lemma EveryChangeShowsIffPlain(values: seq<string>)
    ensures (forall other :: Printed(other) == Printed(values) ==> other == values) <==> Plain(values)
  {
    if Plain(values) {
      SplitWithoutSpace(values[0]);
      assert Pieces(values) == values == [values[0]];
      forall other | Printed(other) == Printed(values) ensures other == values {
        PrintedAlikeIff(other, values);
        OnePiece(other);
      }
    } else {
      AnotherPrintsAlike(values);
    }
  }

  lemma OnePiece(values: seq<string>)
    requires |Pieces(values)| == 1 && Pieces(values) != [""]
    ensures Pieces(values) == values
  {
    if |values| == 1 {
      SplitWithoutSpace(values[0]);
      assert values == [values[0]];
    }
  }
}
