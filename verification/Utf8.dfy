/** Which bytes are UTF-8 text (RFC 3629, section 4). */
module Utf8 {
  import opened Framing

  predicate Tail(b: Byte) {
    0x80 <= b <= 0xBF
  }

  /** The first two of three bytes, and the first two of four. */
  predicate Heads3(a: Byte, b: Byte) {
    || (a == 0xE0 && 0xA0 <= b <= 0xBF)
    || (0xE1 <= a <= 0xEF && a != 0xED && Tail(b))
    || (a == 0xED && 0x80 <= b <= 0x9F)
  }

  predicate Heads4(a: Byte, b: Byte) {
    || (a == 0xF0 && 0x90 <= b <= 0xBF)
    || (0xF1 <= a <= 0xF3 && Tail(b))
    || (a == 0xF4 && 0x80 <= b <= 0x8F)
  }

  /** The length of the character in front, or 0 if there is none. */
  function Width(s: seq<Byte>): (n: nat)
    ensures n <= |s|
  {
    if s == [] then 0
    else if s[0] < 0x80 then 1
    else if 0xC2 <= s[0] <= 0xDF && |s| >= 2 && Tail(s[1]) then 2
    else if |s| >= 3 && Heads3(s[0], s[1]) && Tail(s[2]) then 3
    else if |s| >= 4 && Heads4(s[0], s[1]) && Tail(s[2]) && Tail(s[3]) then 4
    else 0
  }

  predicate Valid(s: seq<Byte>) {
    s == [] || (Width(s) > 0 && Valid(s[Width(s)..]))
  }

  method IsValid(s: seq<Byte>) returns (valid: bool)
    ensures valid == Valid(s)
  {
    var i := 0;
    while i < |s|
      invariant 0 <= i <= |s| && Valid(s[i..]) == Valid(s)
    {
      var n := Width(s[i..]);
      if n == 0 {
        return false;
      }
      assert s[i..][n..] == s[i + n..];
      i := i + n;
    }
    return true;
  }

  // ----- the characters -----

  predicate IsScalar(c: int) {
    0 <= c <= 0x10FFFF && !(0xD800 <= c <= 0xDFFF)
  }

  type Scalar = c: int | 0 <= c <= 0x10FFFF && !(0xD800 <= c <= 0xDFFF)

  /** The lowest six bits of c, in a byte of their own. */
  function TailOf(c: nat): (b: Byte)
    ensures Tail(b)
  {
    0x80 + c % 64
  }

  function Encode(c: Scalar): seq<Byte> {
    if c < 0x80 then [c]
    else if c < 0x800 then [0xC0 + c / 64, TailOf(c)]
    else if c < 0x10000 then [0xE0 + c / 64 / 64, TailOf(c / 64), TailOf(c)]
    else [0xF0 + c / 64 / 64 / 64, TailOf(c / 64 / 64), TailOf(c / 64), TailOf(c)]
  }

  function EncodeAll(cs: seq<Scalar>): seq<Byte> {
    if cs == [] then [] else Encode(cs[0]) + EncodeAll(cs[1..])
  }

  /** Six more bits. */
  function Shifted(high: int, tail: Byte): int {
    high * 64 + (tail as int - 0x80)
  }

  /** The character that some valid front bytes encode. */
  function Decode(s: seq<Byte>): int
    requires Width(s) > 0
  {
    match Width(s)
    case 1 => s[0]
    case 2 => Shifted(s[0] as int - 0xC0, s[1])
    case 3 => Shifted(Shifted(s[0] as int - 0xE0, s[1]), s[2])
    case _ => Shifted(Shifted(Shifted(s[0] as int - 0xF0, s[1]), s[2]), s[3])
  }

  lemma EncodedWidth(c: Scalar, more: seq<Byte>)
    ensures Width(Encode(c) + more) == |Encode(c)|
  {
    var s := Encode(c) + more;
    if c < 0x80 {
    } else if c < 0x800 {
      assert s[0] == 0xC0 + c / 64 && s[1] == TailOf(c);
    } else if c < 0x10000 {
      assert s[0] == 0xE0 + c / 64 / 64 && s[1] == TailOf(c / 64) && s[2] == TailOf(c);
      assert Heads3(s[0], s[1]);
    } else {
      assert s[0] == 0xF0 + c / 64 / 64 / 64 && s[1] == TailOf(c / 64 / 64);
      assert s[2] == TailOf(c / 64) && s[3] == TailOf(c);
      assert Heads4(s[0], s[1]);
    }
  }

  lemma ShiftBack(high: nat, tail: Byte)
    requires Tail(tail)
    ensures Shifted(high, tail) / 64 == high && TailOf(Shifted(high, tail)) == tail
  {
  }

  lemma DecodedEncodes(s: seq<Byte>)
    requires Width(s) > 0
    ensures IsScalar(Decode(s)) && Encode(Decode(s)) == s[..Width(s)]
  {
    match Width(s)
    case 1 =>
    case 2 => ShiftBack(s[0] - 0xC0, s[1]);
    case 3 =>
      var high := s[0] - 0xE0;
      ShiftBack(high, s[1]);
      ShiftBack(Shifted(high, s[1]), s[2]);
    case _ =>
      var high := s[0] - 0xF0;
      ShiftBack(high, s[1]);
      ShiftBack(Shifted(high, s[1]), s[2]);
      ShiftBack(Shifted(Shifted(high, s[1]), s[2]), s[3]);
  }

  /** Bytes are valid exactly when they are the encoding of some characters. */
  lemma ValidIffEncoded(s: seq<Byte>)
    ensures Valid(s) <==> exists cs :: EncodeAll(cs) == s
  {
    if Valid(s) { var cs := Characters(s); }
    if cs :| EncodeAll(cs) == s { EncodedIsValid(cs); }
  }

  lemma {:induction false} EncodedIsValid(cs: seq<Scalar>)
    ensures Valid(EncodeAll(cs))
    decreases |cs|
  {
    if cs != [] {
      EncodedIsValid(cs[1..]);
      EncodedWidth(cs[0], EncodeAll(cs[1..]));
    }
  }

  lemma {:induction false} Characters(s: seq<Byte>) returns (cs: seq<Scalar>)
    requires Valid(s)
    ensures EncodeAll(cs) == s
    decreases |s|
  {
    if s == [] {
      cs := [];
    } else {
      var c := FirstCharacter(s);
      var rest := Characters(s[Width(s)..]);
      cs := [c] + rest;
      assert cs[1..] == rest;
      JoinAt(s, Width(s));
    }
  }

  lemma JoinAt(s: seq<Byte>, n: nat)
    requires n <= |s|
    ensures s[..n] + s[n..] == s
  {
  }

  lemma FirstCharacter(s: seq<Byte>) returns (c: Scalar)
    requires Width(s) > 0
    ensures Encode(c) == s[..Width(s)]
  {
    DecodedEncodes(s);
    c := Decode(s);
  }

  lemma {:induction false} AsciiIsValid(s: seq<Byte>)
    requires forall i :: 0 <= i < |s| ==> s[i] < 0x80
    ensures Valid(s)
    decreases |s|
  {
    if s != [] { AsciiIsValid(s[1..]); }
  }

  /** One to four bytes; and overlong, surrogate, too great, bare or cut off characters. */
  lemma Examples()
    ensures Valid([0x41]) && Valid([0xC3, 0xA9]) && Valid([0xE2, 0x82, 0xAC]) && Valid([0xF0, 0x9F, 0x98, 0x80])
    ensures !Valid([0xC0, 0x80]) && !Valid([0xE0, 0x80, 0x80]) && !Valid([0xF0, 0x80, 0x80, 0x80])
    ensures !Valid([0xED, 0xA0, 0x80]) && !Valid([0xF4, 0x90, 0x80, 0x80]) && !Valid([0x80]) && !Valid([0xE2, 0x82])
  {
    assert Width([0x41]) == 1 && Width([0xC3, 0xA9]) == 2;
    assert Width([0xE2, 0x82, 0xAC]) == 3 && Width([0xF0, 0x9F, 0x98, 0x80]) == 4;
    assert Width([0xC0, 0x80]) == 0 && Width([0xE0, 0x80, 0x80]) == 0 && Width([0xF0, 0x80, 0x80, 0x80]) == 0;
    assert Width([0xED, 0xA0, 0x80]) == 0 && Width([0xF4, 0x90, 0x80, 0x80]) == 0;
    assert Width([0x80]) == 0 && Width([0xE2, 0x82]) == 0;
  }
}
