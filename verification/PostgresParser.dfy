/** PostgreSQL frontend messages: one untyped startup message, then typed messages, each
    announcing its own length in big-endian order. Simple Query and Parse are captured. */
module PostgresParser {
  import opened Framing
  import opened Endian

  const MAX_MESSAGE_LEN := 16 * 1024 * 1024
  const QUERY: Byte := 0x51
  const PARSE: Byte := 0x50

  type Query = seq<Byte>

  /** The position of the first NUL, or the length when there is none. */
  function FirstNul(data: seq<Byte>): (i: nat)
    ensures i <= |data| && 0 !in data[..i]
    ensures i < |data| ==> data[i] == 0
  {
    if data == [] || data[0] == 0 then 0 else 1 + FirstNul(data[1..])
  }

  function NonEmpty(query: Query): seq<Query> {
    if query == [] then [] else [query]
  }

  /** The statement a typed message carries, if any. */
  function Captured(kind: Byte, payload: seq<Byte>): seq<Query> {
    if kind == QUERY then NonEmpty(payload[..FirstNul(payload)])
    else if kind == PARSE then
      var i := FirstNul(payload);
      if i + 1 < |payload| then NonEmpty(payload[i + 1..][..FirstNul(payload[i + 1..])]) else []
    else []
  }

  function CutMessage(startup: bool, buf: seq<Byte>): Cut<bool, Query> {
    if startup then
      if |buf| < 4 then More
      else if Be32(buf) < 8 || Be32(buf) > MAX_MESSAGE_LEN then Bad(false)
      else if |buf| < Be32(buf) then More
      else Frame(Be32(buf), false, [])
    else
      if |buf| < 5 then More
      else if Be32(buf[1..5]) < 4 || Be32(buf[1..5]) > MAX_MESSAGE_LEN then Bad(false)
      else if |buf| < 1 + Be32(buf[1..5]) then More
      else Frame(1 + Be32(buf[1..5]), false, Captured(buf[0], buf[5..1 + Be32(buf[1..5])]))
  }

  method ExtractNullTermString(data: seq<Byte>) returns (text: seq<Byte>)
    ensures text == data[..FirstNul(data)]
  {
    for i := 0 to |data|
      invariant 0 !in data[..i]
    {
      if data[i] == 0 {
        FirstNulIs(data, i);
        return data[..i];
      }
    }
    FirstNulIs(data, |data|);
    return data;
  }

  method NullTermIndex(data: seq<Byte>) returns (index: int)
    ensures index == if FirstNul(data) == |data| then -1 else FirstNul(data)
  {
    for i := 0 to |data|
      invariant 0 !in data[..i]
    {
      if data[i] == 0 {
        FirstNulIs(data, i);
        return i;
      }
    }
    FirstNulIs(data, |data|);
    return -1;
  }

  lemma FirstNulIs(data: seq<Byte>, i: nat)
    requires i <= |data| && 0 !in data[..i] && (i < |data| ==> data[i] == 0)
    ensures FirstNul(data) == i
  {
    var j := FirstNul(data);
    assert forall k :: 0 <= k < i ==> data[k] == data[..i][k];
    assert forall k :: 0 <= k < j ==> data[k] == data[..j][k];
  }

  /** Nothing is left to cut off the buffer, and done is everything captured. */
  ghost predicate Finished(done: seq<Query>, startup: bool, buf: seq<Byte>, goal: Parsed<bool, Query>) {
    goal.out == done && goal.state == startup && goal.rest == buf
  }

  /** What one look at the buffer decides, for a parse of which done has been emitted. */
  lemma StartupStep(done: seq<Query>, buf: seq<Byte>, goal: Parsed<bool, Query>)
    requires Completes(CutMessage, done, true, buf, goal)
    ensures |buf| < 4 ==> Finished(done, true, buf, goal)
    ensures |buf| >= 4 && !(8 <= Be32(buf) <= MAX_MESSAGE_LEN) ==> Finished(done, false, [], goal)
    ensures |buf| >= 4 && 8 <= Be32(buf) <= MAX_MESSAGE_LEN ==>
      if |buf| < Be32(buf) then Finished(done, true, buf, goal)
      else Completes(CutMessage, done, false, buf[Be32(buf)..], goal)
  {
    assert done + [] == done;
    if CutMessage(true, buf).Frame? {
      CutOne(CutMessage, done, true, buf, goal);
    } else {
      CutNone(CutMessage, done, true, buf, goal);
    }
  }

  lemma TypedStep(done: seq<Query>, buf: seq<Byte>, goal: Parsed<bool, Query>)
    requires Completes(CutMessage, done, false, buf, goal)
    ensures |buf| < 5 ==> Finished(done, false, buf, goal)
    ensures |buf| >= 5 ==>
      var n := Be32(buf[1..5]);
      if !(4 <= n <= MAX_MESSAGE_LEN) then Finished(done, false, [], goal)
      else if |buf| < 1 + n then Finished(done, false, buf, goal)
      else Completes(CutMessage, done + Captured(buf[0], buf[5..1 + n]), false, buf[1 + n..], goal)
  {
    if CutMessage(false, buf).Frame? {
      CutOne(CutMessage, done, false, buf, goal);
    } else {
      CutNone(CutMessage, done, false, buf, goal);
    }
  }

  class Parser {
    var buf: seq<Byte>
    var startup: bool

    constructor ()
      ensures buf == [] && startup
    {
      buf, startup := [], true;
    }

    method Feed(data: seq<Byte>) returns (effects: seq<Query>)
      modifies this
      ensures var r := Framing.Feed(CutMessage, MAX_MESSAGE_LEN, old(startup), old(buf), data);
        effects == r.out && buf == r.rest && startup == r.state
    {
      effects := [];
      buf := buf + data;
      ghost var goal := Run(CutMessage, startup, buf);
      while true
        invariant Completes(CutMessage, effects, startup, buf, goal)
        decreases |buf|
      {
        if startup {
          StartupStep(effects, buf, goal);
          if |buf| < 4 {
            break;
          }
          var msgLen := Be32(buf);
          if msgLen < 8 || msgLen > MAX_MESSAGE_LEN {
            buf, startup := [], false;
            break;
          }
          if |buf| < msgLen {
            break;
          }
          buf, startup := buf[msgLen..], false;
          continue;
        }
        TypedStep(effects, buf, goal);
        if |buf| < 5 {
          break;
        }
        var msgType := buf[0];
        var msgLen := Be32(buf[1..5]);
        if msgLen < 4 || msgLen > MAX_MESSAGE_LEN {
          buf := [];
          break;
        }
        var fullLen := 1 + msgLen;
        if |buf| < fullLen {
          break;
        }
        var captured := CaptureFrom(msgType, buf[5..fullLen]);
        effects := effects + captured;
        buf := buf[fullLen..];
      }
      if |buf| > MAX_MESSAGE_LEN {
        assert false; // an incomplete message is never over the limit
      }
    }

    static method CaptureFrom(msgType: Byte, payload: seq<Byte>) returns (captured: seq<Query>)
      ensures captured == Captured(msgType, payload)
    {
      captured := [];
      if msgType == QUERY {
        var query := ExtractNullTermString(payload);
        if query != [] {
          captured := [query];
        }
      } else if msgType == PARSE {
        var index := NullTermIndex(payload);
        if index >= 0 && index + 1 < |payload| {
          var query := ExtractNullTermString(payload[index + 1..]);
          if query != [] {
            captured := [query];
          }
        }
      }
    }
  }

  lemma CutIsStable()
    ensures Stable(CutMessage) && Refines(CutMessage, CutMessage, MAX_MESSAGE_LEN) && Slow(CutMessage)
  {
    forall startup, a, b ensures StableAt(CutMessage, startup, a, b) {
      if startup && |a| >= 4 {
        assert Be32(a + b) == Be32(a);
      } else if !startup && |a| >= 5 {
        assert (a + b)[1..5] == a[1..5];
        var n := 1 + Be32(a[1..5]);
        if 5 <= n <= |a| { assert (a + b)[5..n] == a[5..n]; }
      }
    }
    forall startup, a ensures RefinesAt(CutMessage, CutMessage, MAX_MESSAGE_LEN, startup, a) { }
  }

  /** The over-limit discard at the end of Feed is unreachable. */
  lemma NothingOverLimit(startup: bool, buf: seq<Byte>, data: seq<Byte>)
    ensures Framing.Feed(CutMessage, MAX_MESSAGE_LEN, startup, buf, data) == Run(CutMessage, startup, buf + data)
  {
    CutIsStable();
    if Run(CutMessage, startup, buf + data).ok {
      RunRefined(CutMessage, CutMessage, MAX_MESSAGE_LEN, startup, buf + data);
    } else {
      BadKeepsOutput(CutMessage, startup, buf + data, []);
    }
  }

  /** Every split of a stream gives its one-shot parse exactly when no length field before the
      last byte is out of range. */
  lemma SplittingSafeIffWellFramed(startup: bool, stream: seq<Byte>)
    ensures (forall chunks :: SplitSafe(CutMessage, MAX_MESSAGE_LEN, startup, stream, chunks))
      <==> (stream == [] || Run(CutMessage, startup, stream[..|stream| - 1]).ok)
  {
    CutIsStable();
    assert CutMessage(startup, []).More?;
    SplitSafeIffNotRejectedEarly(CutMessage, CutMessage, MAX_MESSAGE_LEN, startup, stream);
  }

  /** A message of length 0 followed by one more byte is such a stream. */
  lemma MalformedDependsOnSplit()
    ensures exists chunks :: !SplitSafe(CutMessage, MAX_MESSAGE_LEN, false, [0x51, 0, 0, 0, 0, 0x51], chunks)
  {
    var stream: seq<Byte> := [0x51, 0, 0, 0, 0, 0x51];
    var head := stream[..|stream| - 1];
    assert head == [0x51, 0, 0, 0, 0];
    assert Be32(head[1..5]) == 0;
    SplittingSafeIffWellFramed(false, stream);
  }

  /** On any stream at all, every split captures first what the one-shot parse captures. */
  lemma OneShotIsPrefix(startup: bool, chunks: seq<seq<Byte>>)
    ensures Run(CutMessage, startup, Concat(chunks)).out
         <= FeedAll(CutMessage, MAX_MESSAGE_LEN, startup, [], chunks).out
  {
    CutIsStable();
    assert [] + Concat(chunks) == Concat(chunks) && CutMessage(startup, []).More?;
    Framing.OneShotIsPrefix(CutMessage, CutMessage, MAX_MESSAGE_LEN, startup, [], chunks);
  }

  // ----- round trip -----

  datatype Message =
    | SimpleQuery(sql: seq<Byte>)
    | Parse(name: seq<Byte>, sql: seq<Byte>, parameters: seq<Byte>)
    | Other(kind: Byte, body: seq<Byte>)
  {
    function Kind(): Byte {
      match this
      case SimpleQuery(_) => 0x51 // Q
      case Parse(_, _, _) => 0x50 // P
      case Other(kind, _) => kind
    }

    function Payload(): seq<Byte> {
      match this
      case SimpleQuery(sql) => sql + [0]
      case Parse(name, sql, parameters) => name + [0] + sql + [0] + parameters
      case Other(_, body) => body
    }

    /** Text is free of NULs, and the message is one the protocol's length field admits here. */
    ghost predicate Valid() {
      && |Payload()| <= 0x100_0000 - 4
      && match this {
        case SimpleQuery(sql) => 0 !in sql
        case Parse(name, sql, _) => 0 !in name && 0 !in sql
        case Other(kind, _) => kind != 0x51 && kind != 0x50
      }
    }

    function Statement(): seq<Query> {
      match this
      case Other(_, _) => []
      case _ => if sql == [] then [] else [sql]
    }
  }

  function Encode(m: Message): seq<Byte>
    requires |m.Payload()| <= 0x100_0000 - 4
  {
    [m.Kind()] + PutBe32(|m.Payload()| + 4) + m.Payload()
  }

  function EncodeStartup(body: seq<Byte>): seq<Byte>
    requires |body| <= 0x100_0000 - 4
  {
    PutBe32(|body| + 4) + body
  }

  ghost predicate Valid(ms: seq<Message>) {
    forall m :: m in ms ==> m.Valid()
  }

  ghost function EncodeAll(ms: seq<Message>): seq<Byte>
    requires Valid(ms)
  {
    if ms == [] then [] else
      assert ms[0].Valid();
      Encode(ms[0]) + EncodeAll(ms[1..])
  }

  ghost function Statements(ms: seq<Message>): seq<Query> {
    if ms == [] then [] else ms[0].Statement() + Statements(ms[1..])
  }

  lemma CapturedStatement(m: Message)
    requires m.Valid()
    ensures Captured(m.Kind(), m.Payload()) == m.Statement()
  {
    var p := m.Payload();
    match m
    case SimpleQuery(sql) =>
      assert p[..|sql|] == sql;
      FirstNulIs(p, |sql|);
    case Parse(name, sql, parameters) =>
      assert p[..|name|] == name;
      FirstNulIs(p, |name|);
      var q := p[|name| + 1..];
      assert q == sql + [0] + parameters;
      assert q[..|sql|] == sql;
      FirstNulIs(q, |sql|);
    case Other(_, _) =>
  }

  lemma CutEncoded(m: Message, more: seq<Byte>)
    requires m.Valid()
    ensures CutMessage(false, Encode(m) + more) == Frame(|Encode(m)|, false, m.Statement())
    ensures (Encode(m) + more)[|Encode(m)|..] == more
  {
    var n := |m.Payload()| + 4;
    var buf := Encode(m) + more;
    Be32RoundTrip(n);
    assert buf[1..5] == PutBe32(n);
    assert buf[5..1 + n] == m.Payload();
    CapturedStatement(m);
  }

  lemma {:induction false} RunEncoded(ms: seq<Message>)
    requires Valid(ms)
    ensures Run(CutMessage, false, EncodeAll(ms)) == Parsed(false, [], Statements(ms), true)
    decreases |ms|
  {
    if ms != [] {
      CutEncoded(ms[0], EncodeAll(ms[1..]));
      RunEncoded(ms[1..]);
    }
  }

  lemma RunStartup(body: seq<Byte>, ms: seq<Message>)
    requires 4 <= |body| <= 0x100_0000 - 4 && Valid(ms)
    ensures Run(CutMessage, true, EncodeStartup(body) + EncodeAll(ms)) == Parsed(false, [], Statements(ms), true)
  {
    var n := |body| + 4;
    var buf := EncodeStartup(body) + EncodeAll(ms);
    Be32RoundTrip(n);
    assert Be32(buf) == Be32(PutBe32(n));
    assert buf[n..] == EncodeAll(ms);
    RunEncoded(ms);
    assert [] + Statements(ms) == Statements(ms);
  }

  /** A startup message and then any messages, fragmented in any way, yield exactly the
      statements of the messages, in order. */
  lemma FragmentedRoundTrip(body: seq<Byte>, ms: seq<Message>, chunks: seq<seq<Byte>>)
    requires 4 <= |body| <= 0x100_0000 - 4 && Valid(ms)
    requires Concat(chunks) == EncodeStartup(body) + EncodeAll(ms)
    ensures FeedAll(CutMessage, MAX_MESSAGE_LEN, true, [], chunks) == Parsed(false, [], Statements(ms), true)
  {
    RunStartup(body, ms);
    CutIsStable();
    assert [] + Concat(chunks) == Concat(chunks) && CutMessage(true, []).More?;
    Framing.ChunkingIsIrrelevant(CutMessage, CutMessage, MAX_MESSAGE_LEN, true, [], chunks);
  }

  /** A typed message that announces less than 4 or more than 2^24 bytes is discarded with all
      that is buffered; so is a startup message that announces less than 8. */
  lemma OutOfRangeIsDiscarded(kind: Byte, n: Uint32, more: seq<Byte>)
    ensures n < 4 || n > 0x100_0000 ==>
      Run(CutMessage, false, [kind] + PutBe32(n) + more) == Parsed(false, [], [], false)
    ensures n < 8 || n > 0x100_0000 ==>
      Run(CutMessage, true, PutBe32(n) + more) == Parsed(false, [], [], false)
  {
    Be32RoundTrip(n);
    assert ([kind] + PutBe32(n) + more)[1..5] == PutBe32(n);
    assert Be32(PutBe32(n) + more) == Be32(PutBe32(n));
  }

  /** Text without its NUL is taken as it is; a Parse message needs the NUL behind its name. */
  lemma UnterminatedText(sql: seq<Byte>, name: seq<Byte>)
    requires 0 !in sql && 0 !in name && sql != []
    ensures Captured(0x51, sql) == [sql] && Captured(0x50, name + [0] + sql) == [sql] && Captured(0x50, name) == []
  {
    assert sql[..|sql|] == sql && name[..|name|] == name;
    FirstNulIs(sql, |sql|);
    FirstNulIs(name, |name|);
    var p := name + [0] + sql;
    assert p[..|name|] == name && p[|name| + 1..] == sql;
    FirstNulIs(p, |name|);
  }
}
