/** How the arguments of Redis commands are reported: as text if they are text, otherwise in
    base64 behind a prefix. */
module RedisArgs {
  import opened Framing
  import Utf8

  // ----- base64 (RFC 4648, section 4) -----

  type Sextet = n: int | 0 <= n < 64

  const PAD: Byte := 61

  function Symbol(n: Sextet): (b: Byte)
    ensures b < 0x80 && b != PAD
  {
    if n < 26 then 65 + n
    else if n < 52 then 97 + (n - 26)
    else if n < 62 then 48 + (n - 52)
    else if n == 62 then 43
    else 47
  }

  function Value(b: Byte): Sextet {
    if 65 <= b <= 90 then b - 65
    else if 97 <= b <= 122 then b - 97 + 26
    else if 48 <= b <= 57 then b - 48 + 52
    else if b == 43 then 62
    else 63
  }

  lemma ValueOfSymbol(n: Sextet)
    ensures Value(Symbol(n)) == n
  {
  }

  /** The four symbols of up to three bytes. */
  function First(a: Byte): Byte { Symbol(a / 4) }

  function Second(a: Byte, b: Byte): Byte { Symbol(a % 4 * 16 + b / 16) }

  function Third(b: Byte, c: Byte): Byte { Symbol(b % 16 * 4 + c / 64) }

  function Fourth(c: Byte): Byte { Symbol(c % 64) }

  function Base64(s: seq<Byte>): seq<Byte> {
    if s == [] then []
    else if |s| == 1 then [First(s[0]), Second(s[0], 0), PAD, PAD]
    else if |s| == 2 then [First(s[0]), Second(s[0], s[1]), Third(s[1], 0), PAD]
    else [First(s[0]), Second(s[0], s[1]), Third(s[1], s[2]), Fourth(s[2])] + Base64(s[3..])
  }

  /** The bytes that two symbols in a row complete. */
  function FirstByte(p: Byte, q: Byte): Byte { Value(p) * 4 + Value(q) / 16 }

  function SecondByte(q: Byte, r: Byte): Byte { Value(q) % 16 * 16 + Value(r) / 4 }

  function ThirdByte(r: Byte, t: Byte): Byte { Value(r) % 4 * 64 + Value(t) }

  function Unbase64(t: seq<Byte>): seq<Byte> {
    if |t| < 4 then []
    else if t[2] == PAD then [FirstByte(t[0], t[1])]
    else if t[3] == PAD then [FirstByte(t[0], t[1]), SecondByte(t[1], t[2])]
    else [FirstByte(t[0], t[1]), SecondByte(t[1], t[2]), ThirdByte(t[2], t[3])] + Unbase64(t[4..])
  }

  lemma FirstBack(a: Byte, b: Byte)
    ensures FirstByte(First(a), Second(a, b)) == a
  {
    ValueOfSymbol(a / 4);
    ValueOfSymbol(a % 4 * 16 + b / 16);
  }

  lemma SecondBack(a: Byte, b: Byte, c: Byte)
    ensures SecondByte(Second(a, b), Third(b, c)) == b
  {
    var high, low := b / 16, b % 16;
    LowNibble(a % 4, high);
    HighPart(low, c / 64);
    ValueOfSymbol(a % 4 * 16 + high);
    ValueOfSymbol(low * 4 + c / 64);
  }

  lemma LowNibble(h: nat, l: nat)
    requires l < 16
    ensures (h * 16 + l) % 16 == l
  {
  }

  lemma HighPart(h: nat, l: nat)
    requires l < 4
    ensures (h * 4 + l) / 4 == h
  {
  }

  lemma ThirdBack(b: Byte, c: Byte)
    ensures ThirdByte(Third(b, c), Fourth(c)) == c
  {
    ValueOfSymbol(b % 16 * 4 + c / 64);
    ValueOfSymbol(c % 64);
  }

  lemma UnbaseFour(p: Byte, q: Byte, r: Byte, t: Byte, more: seq<Byte>)
    requires r != PAD && t != PAD
    ensures Unbase64([p, q, r, t] + more) == [FirstByte(p, q), SecondByte(q, r), ThirdByte(r, t)] + Unbase64(more)
  {
    assert ([p, q, r, t] + more)[4..] == more;
  }

  lemma UnbasePadded(p: Byte, q: Byte, r: Byte)
    ensures Unbase64([p, q, PAD, PAD]) == [FirstByte(p, q)]
    ensures r != PAD ==> Unbase64([p, q, r, PAD]) == [FirstByte(p, q), SecondByte(q, r)]
  {
  }

  lemma OneBack(a: Byte)
    ensures Unbase64(Base64([a])) == [a]
  {
    var p, q := First(a), Second(a, 0);
    FirstBack(a, 0);
    UnbasePadded(p, q, PAD);
    assert Base64([a]) == [p, q, PAD, PAD];
  }

  lemma TwoBack(a: Byte, b: Byte)
    ensures Unbase64(Base64([a, b])) == [a, b]
  {
    var p, q, r := First(a), Second(a, b), Third(b, 0);
    FirstBack(a, b);
    SecondBack(a, b, 0);
    UnbasePadded(p, q, r);
    assert Base64([a, b]) == [p, q, r, PAD];
  }

  lemma ThreeBack(a: Byte, b: Byte, c: Byte, more: seq<Byte>)
    ensures Unbase64(Base64([a, b, c] + more)) == [a, b, c] + Unbase64(Base64(more))
  {
    var p, q, r, t := First(a), Second(a, b), Third(b, c), Fourth(c);
    FirstBack(a, b);
    SecondBack(a, b, c);
    ThirdBack(b, c);
    UnbaseFour(p, q, r, t, Base64(more));
    assert ([a, b, c] + more)[3..] == more;
    assert Base64([a, b, c] + more) == [p, q, r, t] + Base64(more);
  }

  lemma {:induction false} Base64RoundTrip(s: seq<Byte>)
    ensures Unbase64(Base64(s)) == s
    decreases |s|
  {
    if |s| == 1 {
      OneBack(s[0]);
      assert s == [s[0]];
    } else if |s| == 2 {
      TwoBack(s[0], s[1]);
      assert s == [s[0], s[1]];
    } else if |s| > 2 {
      ThreeBack(s[0], s[1], s[2], s[3..]);
      Base64RoundTrip(s[3..]);
      assert s == [s[0], s[1], s[2]] + s[3..];
    }
  }

  lemma {:induction false} Base64IsAscii(s: seq<Byte>)
    ensures forall i :: 0 <= i < |Base64(s)| ==> Base64(s)[i] < 0x80
    decreases |s|
  {
    if |s| > 2 { Base64IsAscii(s[3..]); }
  }

  // ----- arguments -----

  const PREFIX: seq<Byte> := [98, 97, 115, 101, 54, 52, 58] // "base64:"

  function EncodeArg(arg: seq<Byte>): seq<Byte> {
    if Utf8.Valid(arg) then arg else PREFIX + Base64(arg)
  }

  /** One argument is no text, and the other is the text that it is reported as. */
  predicate Collides(a: seq<Byte>, b: seq<Byte>) {
    !Utf8.Valid(a) && b == PREFIX + Base64(a)
  }

  lemma ReportIsText(a: seq<Byte>)
    ensures Utf8.Valid(PREFIX + Base64(a))
  {
    Base64IsAscii(a);
    Utf8.AsciiIsValid(PREFIX + Base64(a));
  }

  /** Two arguments are reported alike exactly when they are equal, or one is not text and the
      other is what that one is reported as. */
  lemma ReportedAlikeIff(a: seq<Byte>, b: seq<Byte>)
    ensures EncodeArg(a) == EncodeArg(b) <==> a == b || Collides(a, b) || Collides(b, a)
  {
    ReportIsText(a);
    ReportIsText(b);
    if EncodeArg(a) == EncodeArg(b) && !Utf8.Valid(a) && !Utf8.Valid(b) {
      assert (PREFIX + Base64(a))[|PREFIX|..] == Base64(a) && (PREFIX + Base64(b))[|PREFIX|..] == Base64(b);
      Base64RoundTrip(a);
      Base64RoundTrip(b);
    }
  }

  /** So arguments are not always told apart: the byte 0x80, and the text base64:gA==. */
  lemma UnequalReportedAlike()
    ensures EncodeArg([0x80]) == EncodeArg([98, 97, 115, 101, 54, 52, 58, 103, 65, 61, 61])
  {
    var text: seq<Byte> := [98, 97, 115, 101, 54, 52, 58, 103, 65, 61, 61];
    assert Base64([0x80]) == [103, 65, 61, 61];
    assert PREFIX + [103, 65, 61, 61] == text;
    ReportIsText([0x80]);
  }

  function EncodeArgs(args: seq<seq<Byte>>): seq<seq<Byte>> {
    seq(|args|, i requires 0 <= i < |args| => EncodeArg(args[i]))
  }
}
