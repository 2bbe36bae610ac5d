/** MongoDB wire messages: a 16-byte header with the length and the operation, then the body.
    Commands are taken from the kind-0 sections of OP_MSG bodies. */
module MongoParser {
  import opened Framing
  import opened Effects
  import opened Endian
  import opened Bson

  const OP_MSG := 2013
  const MAX_MESSAGE_LEN := 16 * 1024 * 1024

  /** A captured command; Null is an absent filter, update or document list. */
  datatype Command = Command(
    operation: Bytes, collection: Bytes, database: Bytes, filter: Value, update: Value, documents: Value)

  function Ascii(s: string): Bytes {
    seq(|s|, i requires 0 <= i < |s| => s[i] as int % 256)
  }

  /** Looked for in this order. */
  function Operations(): seq<Bytes> {
    [Ascii("find"), Ascii("insert"), Ascii("update"), Ascii("delete"),
     Ascii("aggregate"), Ascii("count"), Ascii("distinct"), Ascii("findAndModify")]
  }

  function TextOf(doc: Map, key: Bytes): Bytes {
    if key in doc && doc[key].Str? then doc[key].text else []
  }

  function ValueOf(doc: Map, key: Bytes): Value {
    if key in doc then doc[key] else Null
  }

  /** The command a document holds under the first operation name it binds. */
  function CommandOf(doc: Map, operations: seq<Bytes>): Option<Command> {
    if operations == [] then None
    else if operations[0] !in doc then CommandOf(doc, operations[1..])
    else Some(Command(operations[0], TextOf(doc, operations[0]), TextOf(doc, Ascii("$db")),
      ValueOf(doc, Ascii("filter")), ValueOf(doc, Ascii("updates")), ValueOf(doc, Ascii("documents"))))
  }

  /** What one document of an OP_MSG body contributes. */
  function Extracted(bsonDoc: Bytes): seq<Command> {
    match Decode(bsonDoc)
    case None => []
    case Some(doc) => (match CommandOf(doc, Operations()) case None => [] case Some(c) => [c])
  }

  /** One section: the body ends there, or the section contributes commands and ends at next. */
  datatype Section = Unreadable | Section(next: nat, commands: seq<Command>)

  function SectionAt(body: Bytes, offset: nat): (section: Section)
    requires offset < |body|
    ensures section.Section? ==> offset < section.next <= |body|
  {
    var left := |body| - offset - 1;
    if body[offset] > 1 || left < 4 then Unreadable
    else
      var n := Le32(body[offset + 1..offset + 5]);
      if left < n || n < (if body[offset] == 0 then 5 else 4) then Unreadable
      else Section(offset + 1 + n, if body[offset] == 0 then Extracted(body[offset + 1..offset + 1 + n]) else [])
  }

  /** The commands of the sections from offset on; the first unreadable section ends them. */
  function Sections(body: Bytes, offset: nat): seq<Command>
    requires offset <= |body|
    decreases |body| - offset
  {
    if offset == |body| then []
    else
      match SectionAt(body, offset)
      case Unreadable => []
      case Section(next, commands) => commands + Sections(body, next)
  }

  function OpMsg(body: Bytes): seq<Command> {
    if |body| < 5 then [] else Sections(body, 4)
  }

  function CutMessage(state: (), buf: Bytes): Cut<(), Command> {
    if |buf| < 16 then More
    else if Le32(buf) < 16 || Le32(buf) > MAX_MESSAGE_LEN then Bad(())
    else if |buf| < Le32(buf) then More
    else Frame(Le32(buf), (), if Le32(buf[12..16]) == OP_MSG then OpMsg(buf[16..Le32(buf)]) else [])
  }

  method ExtractMongoCommand(bsonDoc: Bytes) returns (command: Option<Command>)
    ensures Extracted(bsonDoc) == match command case None => [] case Some(c) => [c]
  {
    var decoded := SimpleBsonToMap(bsonDoc);
    if decoded == None {
      return None;
    }
    var doc := decoded.value;
    var operation, collection := [], [];
    var operations := Operations();
    var i := 0;
    while i < |operations|
      invariant 0 <= i <= |operations| && operation == [] && collection == []
      invariant CommandOf(doc, operations) == CommandOf(doc, operations[i..])
    {
      if operations[i] in doc {
        operation, collection := operations[i], TextOf(doc, operations[i]);
        break;
      }
      i := i + 1;
    }
    if operation == [] {
      return None;
    }
    return Some(Command(operation, collection, TextOf(doc, Ascii("$db")),
      ValueOf(doc, Ascii("filter")), ValueOf(doc, Ascii("updates")), ValueOf(doc, Ascii("documents"))));
  }

  method ParseOpMsg(body: Bytes) returns (effects: seq<Command>)
    ensures effects == OpMsg(body)
  {
    effects := [];
    if |body| < 5 {
      return;
    }
    var offset := 4;
    while offset < |body|
      invariant 4 <= offset <= |body|
      invariant effects + Sections(body, offset) == OpMsg(body)
    {
      SectionStep(body, offset, effects);
      var section := ReadSection(body, offset);
      if section.Unreadable? {
        return;
      }
      effects := effects + section.commands;
      offset := section.next;
    }
  }

  lemma SectionStep(body: Bytes, offset: nat, done: seq<Command>)
    requires offset < |body|
    ensures match SectionAt(body, offset)
      case Unreadable => done + Sections(body, offset) == done
      case Section(next, commands) => done + Sections(body, offset) == done + commands + Sections(body, next)
  {
  }

  method ReadSection(body: Bytes, start: nat) returns (section: Section)
    requires start < |body|
    ensures section == SectionAt(body, start)
  {
    var kind := body[start];
    var offset := start + 1;
    if kind == 0 {
      if offset + 4 > |body| {
        return Unreadable;
      }
      var docLen := Le32(body[offset..offset + 4]);
      if docLen < 5 || offset + docLen > |body| {
        return Unreadable;
      }
      var effect := ExtractMongoCommand(body[offset..offset + docLen]);
      return Section(offset + docLen, match effect case None => [] case Some(c) => [c]);
    } else if kind == 1 {
      if offset + 4 > |body| {
        return Unreadable;
      }
      var secLen := Le32(body[offset..offset + 4]);
      if secLen < 4 || offset + secLen > |body| {
        return Unreadable;
      }
      return Section(offset + secLen, []);
    } else {
      return Unreadable;
    }
  }

  /** What one look at the buffer decides, for a parse of which done has been emitted. */
  lemma LoopStep(done: seq<Command>, buf: Bytes, goal: Parsed<(), Command>)
    requires Completes(CutMessage, done, (), buf, goal)
    ensures |buf| < 16 ==> goal.out == done && goal.rest == buf
    ensures |buf| >= 16 ==>
      var n := Le32(buf);
      if !(16 <= n <= MAX_MESSAGE_LEN) then goal.out == done && goal.rest == []
      else if |buf| < n then goal.out == done && goal.rest == buf
      else Completes(CutMessage,
        done + if Le32(buf[12..16]) == OP_MSG then OpMsg(buf[16..n]) else [], (), buf[n..], goal)
  {
    if CutMessage((), buf).Frame? {
      CutOne(CutMessage, done, (), buf, goal);
    } else {
      CutNone(CutMessage, done, (), buf, goal);
    }
  }

  class Parser {
    var buf: Bytes

    constructor ()
      ensures buf == []
    {
      buf := [];
    }

    method Feed(data: Bytes) returns (effects: seq<Command>)
      modifies this
      ensures var r := Framing.Feed(CutMessage, MAX_MESSAGE_LEN, (), old(buf), data);
        effects == r.out && buf == r.rest
    {
      effects := [];
      buf := buf + data;
      ghost var goal := Run(CutMessage, (), buf);
      while |buf| >= 16
        invariant Completes(CutMessage, effects, (), buf, goal)
        decreases |buf|
      {
        LoopStep(effects, buf, goal);
        var msgLen := Le32(buf);
        if msgLen < 16 || msgLen > MAX_MESSAGE_LEN {
          buf := [];
          return;
        }
        if |buf| < msgLen {
          break;
        }
        var opCode := Le32(buf[12..16]);
        assert effects + [] == effects;
        if opCode == OP_MSG {
          var parsed := ParseOpMsg(buf[16..msgLen]);
          effects := effects + parsed;
        }
        buf := buf[msgLen..];
      }
      LoopStep(effects, buf, goal);
      if |buf| > MAX_MESSAGE_LEN {
        assert false; // an incomplete message is never over the limit
      }
    }
  }
}
