/** MySQL packets: a three-byte little-endian payload length, a sequence byte, the payload.
    COM_QUERY and COM_STMT_PREPARE payloads are captured. */
module MysqlParser {
  import opened Framing

  const COM_QUERY: Byte := 0x03
  const COM_STMT_PREPARE: Byte := 0x16
  const MAX_PACKET_SIZE := 16 * 1024 * 1024

  type Query = seq<Byte>

  function PayloadLength(buf: seq<Byte>): nat
    requires |buf| >= 4
  {
    (buf[0] as int) + 256 * (buf[1] as int) + 65536 * (buf[2] as int)
  }

  /** The statement in a payload, if its command byte carries one. */
  function Captured(payload: seq<Byte>): seq<Query> {
    if payload == [] then []
    else if payload[0] == COM_QUERY || payload[0] == COM_STMT_PREPARE then [payload[1..]] else []
  }

  function CutPacket(state: (), buf: seq<Byte>): Cut<(), Query> {
    if |buf| < 4 then More else
      var n := PayloadLength(buf);
      if n < 1 then Frame(4, (), [])
      else if n > MAX_PACKET_SIZE then Bad(())
      else if |buf| < 4 + n then More
      else Frame(4 + n, (), Captured(buf[4..4 + n]))
  }

  /** The same, rejecting headers that announce more than 2^24 - 3 bytes. */
  function CutBounded(state: (), buf: seq<Byte>): Cut<(), Query> {
    if |buf| >= 4 && PayloadLength(buf) > MAX_PACKET_SIZE - 3 then Bad(()) else CutPacket(state, buf)
  }

  /** What one look at the buffer decides, for a parse of which done has been emitted. */
  lemma LoopStep(done: seq<Query>, buf: seq<Byte>, goal: Parsed<(), Query>)
    requires Completes(CutPacket, done, (), buf, goal)
    ensures |buf| < 4 ==> goal.out == done && goal.rest == buf
    ensures |buf| >= 4 && PayloadLength(buf) == 0 ==> Completes(CutPacket, done, (), buf[4..], goal)
    ensures |buf| >= 4 && PayloadLength(buf) > |buf| - 4 ==> goal.out == done && goal.rest == buf
    ensures |buf| >= 4 && 1 <= PayloadLength(buf) <= |buf| - 4 ==>
      var n := 4 + PayloadLength(buf); Completes(CutPacket, done + Captured(buf[4..n]), (), buf[n..], goal)
  {
    assert done + [] == done;
    if CutPacket((), buf).Frame? {
      CutOne(CutPacket, done, (), buf, goal);
    } else {
      CutNone(CutPacket, done, (), buf, goal);
    }
  }

  class Parser {
    var buf: seq<Byte>

    constructor ()
      ensures buf == []
    {
      buf := [];
    }

    method Feed(data: seq<Byte>) returns (effects: seq<Query>)
      modifies this
      ensures var r := Framing.Feed(CutPacket, MAX_PACKET_SIZE, (), old(buf), data);
        effects == r.out && buf == r.rest
    {
      effects := [];
      buf := buf + data;
      ghost var goal := Run(CutPacket, (), buf);
      while |buf| >= 4
        invariant Completes(CutPacket, effects, (), buf, goal)
        decreases |buf|
      {
        var payloadLen := (buf[0] as int) + 256 * (buf[1] as int) + 65536 * (buf[2] as int);
        LoopStep(effects, buf, goal);
        if payloadLen < 1 {
          buf := buf[4..];
          continue;
        }
        if payloadLen > MAX_PACKET_SIZE {
          assert false; // three bytes announce at most 2^24 - 1
        }
        var packetLen := 4 + payloadLen;
        if |buf| < packetLen {
          break;
        }
        var commandByte := buf[4];
        var payload := buf[5..packetLen];
        assert payload == buf[4..packetLen][1..];
        assert effects + [] == effects;
        if commandByte == COM_QUERY || commandByte == COM_STMT_PREPARE {
          effects := effects + [payload];
        }
        buf := buf[packetLen..];
      }
      LoopStep(effects, buf, goal);
      if |buf| > MAX_PACKET_SIZE {
        buf := [];
      }
    }
  }

  lemma CutIsStable()
    ensures Stable(CutBounded) && Refines(CutBounded, CutPacket, MAX_PACKET_SIZE)
  {
    forall state, a, b ensures StableAt(CutBounded, state, a, b) {
      if |a| >= 4 {
        assert PayloadLength(a + b) == PayloadLength(a);
        var n := PayloadLength(a);
        if |a| >= 4 + n { assert (a + b)[4..4 + n] == a[4..4 + n]; }
      }
    }
    forall state, a ensures RefinesAt(CutBounded, CutPacket, MAX_PACKET_SIZE, state, a) { }
  }

  /** Over any byte stream whose headers announce at most 2^24 - 3 bytes, the calls of Feed
      together give the one-shot parse, for every way of splitting the stream. */
  lemma ChunkingIsIrrelevant(chunks: seq<seq<Byte>>)
    requires Run(CutBounded, (), Concat(chunks)).ok
    ensures FeedAll(CutPacket, MAX_PACKET_SIZE, (), [], chunks) == Run(CutPacket, (), Concat(chunks))
  {
    CutIsStable();
    assert [] + Concat(chunks) == Concat(chunks);
    Framing.ChunkingIsIrrelevant(CutPacket, CutBounded, MAX_PACKET_SIZE, (), [], chunks);
  }

  // ----- round trip -----

  datatype Packet = Packet(number: Byte, payload: seq<Byte>)

  function Encode(p: Packet): seq<Byte>
    requires |p.payload| < 0x100_0000
  {
    var n := |p.payload|;
    [n % 256, n / 256 % 256, n / 65536, p.number] + p.payload
  }

  /** The text of a query (command 3) or of a statement to prepare (command 22). */
  function Statement(p: Packet): seq<Query> {
    if p.payload != [] && (p.payload[0] == 3 || p.payload[0] == 22) then [p.payload[1..]] else []
  }

  ghost predicate Encodable(ps: seq<Packet>) {
    forall p :: p in ps ==> |p.payload| <= 0x100_0000 - 3
  }

  ghost function EncodeAll(ps: seq<Packet>): seq<Byte>
    requires Encodable(ps)
  {
    if ps == [] then [] else Encode(ps[0]) + EncodeAll(ps[1..])
  }

  ghost function CapturedAll(ps: seq<Packet>): seq<Query>
    requires Encodable(ps)
  {
    if ps == [] then [] else Statement(ps[0]) + CapturedAll(ps[1..])
  }

  lemma HeaderRoundTrip(p: Packet)
    requires |p.payload| < 0x100_0000
    ensures PayloadLength(Encode(p)) == |p.payload|
  {
    var n := |p.payload|;
    assert n == 256 * (n / 256) + n % 256;
    assert n / 256 == 256 * (n / 65536) + n / 256 % 256;
  }

  lemma CutEncoded(p: Packet, more: seq<Byte>)
    requires |p.payload| <= 0x100_0000 - 3
    ensures CutBounded((), Encode(p) + more) == Frame(|Encode(p)|, (), Statement(p))
    ensures (Encode(p) + more)[|Encode(p)|..] == more
  {
    HeaderRoundTrip(p);
    var buf := Encode(p) + more;
    assert PayloadLength(buf) == PayloadLength(Encode(p));
    assert buf[4..4 + |p.payload|] == p.payload;
  }

  lemma {:induction false} RunEncoded(ps: seq<Packet>)
    requires Encodable(ps)
    ensures Run(CutBounded, (), EncodeAll(ps)) == Parsed((), [], CapturedAll(ps), true)
    decreases |ps|
  {
    if ps != [] {
      CutEncoded(ps[0], EncodeAll(ps[1..]));
      RunEncoded(ps[1..]);
    }
  }

  /** Every way of fragmenting encoded packets yields exactly their statements, in order. */
  lemma FragmentedRoundTrip(ps: seq<Packet>, chunks: seq<seq<Byte>>)
    requires Encodable(ps) && Concat(chunks) == EncodeAll(ps)
    ensures FeedAll(CutPacket, MAX_PACKET_SIZE, (), [], chunks) == Parsed((), [], CapturedAll(ps), true)
  {
    RunEncoded(ps);
    CutIsStable();
    RunRefined(CutBounded, CutPacket, MAX_PACKET_SIZE, (), Concat(chunks));
    ChunkingIsIrrelevant(chunks);
  }

  // ----- the bound is exact -----

  lemma CutIsLocal()
    ensures Stable(CutPacket) && Local(CutPacket) && Slow(CutPacket)
  {
    forall state, a, b ensures StableAt(CutPacket, state, a, b) && LocalAt(CutPacket, state, a, b) {
      if |a| >= 4 {
        assert PayloadLength(a + b) == PayloadLength(a);
        var n := PayloadLength(a);
        if |a| >= 4 + n { assert (a + b)[4..4 + n] == a[4..4 + n]; }
      }
    }
  }

  /** A single packet survives every split exactly when its payload has at most 2^24 - 3
      bytes; a larger one is lost when its last byte arrives alone. */
  lemma SplittingSafeIffBounded(p: Packet)
    requires |p.payload| < 0x100_0000
    ensures (forall chunks :: SplitSafe(CutPacket, MAX_PACKET_SIZE, (), Encode(p), chunks))
      <==> |p.payload| <= 0x100_0000 - 3
  {
    var e := Encode(p);
    HeaderRoundTrip(p);
    CutIsLocal();
    if p.payload != [] {
      assert PayloadLength(e[..|e| - 1]) == |p.payload|;
    }
    OneFrameSplitSafeIffFits(CutPacket, MAX_PACKET_SIZE, (), e);
  }
}
