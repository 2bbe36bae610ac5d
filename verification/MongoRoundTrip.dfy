/** Mongo streams: framing does not depend on how they are cut, and encoded OP_MSG messages
    yield the commands of their body documents. */
module MongoRoundTrip {
  import opened Framing
  import opened Effects
  import opened Endian
  import opened Bson
  import opened BsonRoundTrip
  import opened MongoParser

  // ----- framing -----

  lemma CutIsStable()
    ensures Stable(CutMessage) && Refines(CutMessage, CutMessage, MAX_MESSAGE_LEN) && Slow(CutMessage)
  {
    forall state, a, b ensures StableAt(CutMessage, state, a, b) {
      if |a| >= 16 {
        var n := Le32(a);
        assert Le32(a + b) == n && (a + b)[12..16] == a[12..16];
        if 16 <= n <= |a| { assert (a + b)[16..n] == a[16..n]; }
      }
    }
    forall state, a ensures RefinesAt(CutMessage, CutMessage, MAX_MESSAGE_LEN, state, a) { }
  }

  /** The over-limit discard at the end of Feed is unreachable. */
  lemma NothingOverLimit(buf: Bytes, data: Bytes)
    ensures Framing.Feed(CutMessage, MAX_MESSAGE_LEN, (), buf, data) == Run(CutMessage, (), buf + data)
  {
    CutIsStable();
    if Run(CutMessage, (), buf + data).ok {
      RunRefined(CutMessage, CutMessage, MAX_MESSAGE_LEN, (), buf + data);
    } else {
      BadKeepsOutput(CutMessage, (), buf + data, []);
    }
  }

  /** Every split of a stream gives its one-shot parse exactly when no length before the last
      byte is out of range. */
  lemma SplittingSafeIffWellFramed(stream: Bytes)
    ensures (forall chunks :: SplitSafe(CutMessage, MAX_MESSAGE_LEN, (), stream, chunks))
      <==> (stream == [] || Run(CutMessage, (), stream[..|stream| - 1]).ok)
  {
    CutIsStable();
    assert CutMessage((), []).More?;
    SplitSafeIffNotRejectedEarly(CutMessage, CutMessage, MAX_MESSAGE_LEN, (), stream);
  }

  /** Sixteen zero bytes announce a message of length 0; one more byte follows. */
  lemma MalformedDependsOnSplit()
    ensures exists chunks ::
      !SplitSafe(CutMessage, MAX_MESSAGE_LEN, (), [0, 0, 0, 0, 0, 0, 0, 0, 0, 0, 0, 0, 0, 0, 0, 0, 0], chunks)
  {
    SplittingSafeIffWellFramed([0, 0, 0, 0, 0, 0, 0, 0, 0, 0, 0, 0, 0, 0, 0, 0, 0]);
  }

  /** On any stream at all, every split captures first what the one-shot parse captures. */
  lemma OneShotIsPrefix(chunks: seq<Bytes>)
    ensures Run(CutMessage, (), Concat(chunks)).out <= FeedAll(CutMessage, MAX_MESSAGE_LEN, (), [], chunks).out
  {
    CutIsStable();
    assert [] + Concat(chunks) == Concat(chunks) && CutMessage((), []).More?;
    Framing.OneShotIsPrefix(CutMessage, CutMessage, MAX_MESSAGE_LEN, (), [], chunks);
  }

  // ----- OP_MSG bodies -----

  datatype BodySection =
    | Body(elements: seq<Element>)
    | DocumentSequence(content: Bytes)

  function EncodeSection(section: BodySection): Bytes {
    match section
    case Body(elements) => [0] + EncodeDocument(elements)
    case DocumentSequence(content) => [1] + (PutLe32((|content| + 4) % TWO_TO_32) + content)
  }

  ghost function EncodeSections(sections: seq<BodySection>): Bytes {
    Concat(seq(|sections|, i requires 0 <= i < |sections| => EncodeSection(sections[i])))
  }

  ghost function EncodeBody(flags: Uint32, sections: seq<BodySection>): Bytes {
    PutLe32(flags) + EncodeSections(sections)
  }

  ghost predicate ValidSections(sections: seq<BodySection>) {
    forall i :: 0 <= i < |sections| && sections[i].Body? ==> Valid(sections[i].elements)
  }

  /** What the documents of the kind-0 sections hold, in order. */
  ghost function CommandsOf(sections: seq<BodySection>): seq<Command> {
    Flatten(seq(|sections|, i requires 0 <= i < |sections| => SectionCommands(sections[i])))
  }

  ghost function Flatten(commands: seq<seq<Command>>): seq<Command> {
    if commands == [] then [] else commands[0] + Flatten(commands[1..])
  }

  function SectionCommands(section: BodySection): seq<Command> {
    match section
    case DocumentSequence(_) => []
    case Body(elements) => Stated(elements)
  }

  // ----- the command that the elements of a document state -----

  /** The value of the last element with this key, among those whose type is bound at all. */
  function LastBound(elements: seq<Element>, key: string): Option<Value> {
    if elements == [] then None
    else
      var last := elements[|elements| - 1];
      if last.key == Letters(key) && Meaning(last.value).Some? then Meaning(last.value)
      else LastBound(elements[..|elements| - 1], key)
  }

  function Letters(s: string): Bytes {
    seq(|s|, i requires 0 <= i < |s| => s[i] as int % 256)
  }

  function TextUnder(elements: seq<Element>, key: string): Bytes {
    match LastBound(elements, key)
    case Some(Str(text)) => text
    case _ => []
  }

  function ValueUnder(elements: seq<Element>, key: string): Value {
    match LastBound(elements, key)
    case Some(value) => value
    case None => Null
  }

  function CommandUnder(elements: seq<Element>, operation: string): Command {
    Command(
      operation := Letters(operation),
      collection := TextUnder(elements, operation),
      database := TextUnder(elements, "$db"),
      filter := ValueUnder(elements, "filter"),
      update := ValueUnder(elements, "updates"),
      documents := ValueUnder(elements, "documents"))
  }

  /** The first of these names that an element binds makes the command. */
  function Stated(elements: seq<Element>): seq<Command> {
    if LastBound(elements, "find").Some? then [CommandUnder(elements, "find")]
    else if LastBound(elements, "insert").Some? then [CommandUnder(elements, "insert")]
    else if LastBound(elements, "update").Some? then [CommandUnder(elements, "update")]
    else if LastBound(elements, "delete").Some? then [CommandUnder(elements, "delete")]
    else if LastBound(elements, "aggregate").Some? then [CommandUnder(elements, "aggregate")]
    else if LastBound(elements, "count").Some? then [CommandUnder(elements, "count")]
    else if LastBound(elements, "distinct").Some? then [CommandUnder(elements, "distinct")]
    else if LastBound(elements, "findAndModify").Some? then [CommandUnder(elements, "findAndModify")]
    else []
  }

  lemma {:induction false} MapOfSnoc(elements: seq<Element>, e: Element, before: Map)
    ensures MapOf(elements + [e], before) == Read(e, MapOf(elements, before))
    decreases |elements|
  {
    if elements == [] {
      assert elements + [e] == [e] && [e][1..] == [];
    } else {
      assert (elements + [e])[1..] == elements[1..] + [e];
      MapOfSnoc(elements[1..], e, Read(elements[0], before));
    }
  }

  /** The map of the elements binds each key as its last element does. */
  lemma {:induction false} MapBindsLast(elements: seq<Element>, key: string)
    ensures var m := MapOf(elements, map[]);
      if Letters(key) in m then LastBound(elements, key) == Some(m[Letters(key)]) else LastBound(elements, key) == None
    decreases |elements|
  {
    if elements != [] {
      var init, last := elements[..|elements| - 1], elements[|elements| - 1];
      assert elements == init + [last];
      MapOfSnoc(init, last, map[]);
      MapBindsLast(init, key);
    }
  }

  lemma CommandIsUnder(elements: seq<Element>, operation: string)
    requires LastBound(elements, operation).Some?
    ensures CommandOf(MapOf(elements, map[]), [Ascii(operation)]) == Some(CommandUnder(elements, operation))
  {
    MapBindsLast(elements, operation);
    MapBindsLast(elements, "$db");
    MapBindsLast(elements, "filter");
    MapBindsLast(elements, "updates");
    MapBindsLast(elements, "documents");
  }

  lemma NextOperation(doc: Map, operations: seq<Bytes>, operation: string)
    requires operations != [] && operations[0] == Ascii(operation)
    ensures CommandOf(doc, operations) ==
      if Ascii(operation) in doc then CommandOf(doc, [Ascii(operation)]) else CommandOf(doc, operations[1..])
  {
  }

  lemma ReadDocument(body: Bytes, offset: nat, doc: Bytes)
    requires |doc| >= 5 && Le32(doc[..4]) == |doc| && At(body, offset, [0] + doc)
    ensures offset < |body| && SectionAt(body, offset) == Section(offset + 1 + |doc|, Extracted(doc))
  {
    AtSplit(body, offset, [0], doc);
    assert body[offset] == [0][0];
    assert body[offset + 1..offset + 5] == doc[..4];
  }

  lemma ReadSequence(body: Bytes, offset: nat, content: Bytes)
    requires |content| + 4 < TWO_TO_32 && At(body, offset, [1] + (PutLe32(|content| + 4) + content))
    ensures offset < |body| && SectionAt(body, offset) == Section(offset + 5 + |content|, [])
  {
    var n := |content| + 4;
    AtSplit(body, offset, [1], PutLe32(n) + content);
    assert body[offset] == [1][0];
    AtSplit(body, offset + 1, PutLe32(n), content);
    Le32RoundTrip(n);
  }

  const NAMES: seq<string> := ["find", "insert", "update", "delete", "aggregate", "count", "distinct", "findAndModify"]

  /** The command under the first bound name from the n-th on. */
  function StatedFrom(elements: seq<Element>, n: nat): seq<Command>
    decreases 8 - n
  {
    if n >= 8 then []
    else if LastBound(elements, NAMES[n]).Some? then [CommandUnder(elements, NAMES[n])]
    else StatedFrom(elements, n + 1)
  }

  lemma {:induction false} OperationsFrom(elements: seq<Element>, n: nat)
    requires n <= 8
    ensures |Operations()| == 8
    ensures (match CommandOf(MapOf(elements, map[]), Operations()[n..]) case None => [] case Some(c) => [c])
      == StatedFrom(elements, n)
    decreases 8 - n
  {
    if n < 8 {
      var name := NAMES[n];
      assert Operations()[n] == Ascii(name);
      NextOperation(MapOf(elements, map[]), Operations()[n..], name);
      MapBindsLast(elements, name);
      if LastBound(elements, name).Some? {
        CommandIsUnder(elements, name);
      } else {
        OperationsFrom(elements, n + 1);
        assert Operations()[n..][1..] == Operations()[n + 1..];
      }
    }
  }

  lemma StatedIsFrom(elements: seq<Element>)
    ensures Stated(elements) == StatedFrom(elements, 0)
  {
    assert StatedFrom(elements, 8) == [];
    assert StatedFrom(elements, 6) ==
      if LastBound(elements, "distinct").Some? then [CommandUnder(elements, "distinct")] else StatedFrom(elements, 7);
    assert StatedFrom(elements, 4) ==
      if LastBound(elements, "aggregate").Some? then [CommandUnder(elements, "aggregate")] else StatedFrom(elements, 5);
    assert StatedFrom(elements, 2) ==
      if LastBound(elements, "update").Some? then [CommandUnder(elements, "update")] else StatedFrom(elements, 3);
  }

  /** What is extracted from a document is what its elements state. */
  lemma ExtractedFromEncoded(elements: seq<Element>)
    requires Valid(elements) && |EncodeDocument(elements)| < TWO_TO_32
    ensures Extracted(EncodeDocument(elements)) == Stated(elements)
  {
    DecodeEncoded(elements);
    OperationsFrom(elements, 0);
    assert Operations()[0..] == Operations();
    StatedIsFrom(elements);
  }

  lemma SectionReadBack(body: Bytes, offset: nat, section: BodySection)
    requires |body| < TWO_TO_32 && (section.Body? ==> Valid(section.elements))
    requires At(body, offset, EncodeSection(section))
    ensures offset < |body|
    ensures SectionAt(body, offset) == Section(offset + |EncodeSection(section)|, SectionCommands(section))
  {
    match section
    case Body(elements) =>
      WrapLength(EncodeElements(elements));
      ReadDocument(body, offset, EncodeDocument(elements));
      ExtractedFromEncoded(elements);
    case DocumentSequence(content) =>
      ReadSequence(body, offset, content);
  }

  /** Wherever in the body the piece lies, a reader (given as what it reads from each offset
      on) reads these commands and goes on behind the piece. */
  ghost predicate IsRead(reader: nat -> seq<Command>, body: Bytes, piece: Bytes, commands: seq<Command>) {
    forall offset: nat :: At(body, offset, piece) ==> reader(offset) == commands + reader(offset + |piece|)
  }

  lemma {:induction false} PiecesReadBack(
    reader: nat -> seq<Command>, body: Bytes, offset: nat, pieces: seq<Bytes>, commands: seq<seq<Command>>)
    requires |pieces| == |commands| && forall i :: 0 <= i < |pieces| ==> IsRead(reader, body, pieces[i], commands[i])
    requires At(body, offset, Concat(pieces)) && reader(offset + |Concat(pieces)|) == []
    ensures reader(offset) == Flatten(commands)
    decreases |pieces|
  {
    if pieces != [] {
      AtSplit(body, offset, pieces[0], Concat(pieces[1..]));
      assert IsRead(reader, body, pieces[0], commands[0]);
      PiecesReadBack(reader, body, offset + |pieces[0]|, pieces[1..], commands[1..]);
    }
  }

  ghost function SectionReader(body: Bytes): nat -> seq<Command> {
    (offset: nat) => if offset <= |body| then Sections(body, offset) else []
  }

  lemma ReaderStep(body: Bytes, offset: nat, piece: Bytes, commands: seq<Command>)
    requires offset < |body| && SectionAt(body, offset) == Section(offset + |piece|, commands)
    ensures SectionReader(body)(offset) == commands + SectionReader(body)(offset + |piece|)
  {
  }

  lemma SectionIsReadAt(body: Bytes, offset: nat, section: BodySection)
    requires |body| < TWO_TO_32 && (section.Body? ==> Valid(section.elements))
    requires At(body, offset, EncodeSection(section))
    ensures var reader := SectionReader(body);
      reader(offset) == SectionCommands(section) + reader(offset + |EncodeSection(section)|)
  {
    SectionReadBack(body, offset, section);
    ReaderStep(body, offset, EncodeSection(section), SectionCommands(section));
  }

  lemma SectionIsRead(body: Bytes, section: BodySection)
    requires |body| < TWO_TO_32 && (section.Body? ==> Valid(section.elements))
    ensures IsRead(SectionReader(body), body, EncodeSection(section), SectionCommands(section))
  {
    forall offset: nat | At(body, offset, EncodeSection(section))
      ensures var reader := SectionReader(body);
        reader(offset) == SectionCommands(section) + reader(offset + |EncodeSection(section)|)
    {
      SectionIsReadAt(body, offset, section);
    }
  }

  lemma SectionsReadBack(body: Bytes, offset: nat, sections: seq<BodySection>)
    requires |body| < TWO_TO_32 && ValidSections(sections)
    requires At(body, offset, EncodeSections(sections))
    requires SectionReader(body)(offset + |EncodeSections(sections)|) == []
    ensures Sections(body, offset) == CommandsOf(sections)
  {
    var pieces := seq(|sections|, i requires 0 <= i < |sections| => EncodeSection(sections[i]));
    var commands := seq(|sections|, i requires 0 <= i < |sections| => SectionCommands(sections[i]));
    forall i | 0 <= i < |sections| ensures IsRead(SectionReader(body), body, pieces[i], commands[i]) {
      SectionIsRead(body, sections[i]);
    }
    PiecesReadBack(SectionReader(body), body, offset, pieces, commands);
  }

  /** An OP_MSG body of any kind-0 and kind-1 sections yields the kind-0 commands in order. */
  lemma BodyRoundTrip(flags: Uint32, sections: seq<BodySection>)
    requires ValidSections(sections) && |EncodeBody(flags, sections)| < TWO_TO_32
    ensures OpMsg(EncodeBody(flags, sections)) == CommandsOf(sections)
  {
    var body := EncodeBody(flags, sections);
    assert body[4..] == EncodeSections(sections);
    assert body[4..|body|] == body[4..];
    SectionsReadBack(body, 4, sections);
  }

  /** No section can start with these bytes: the kind is neither 0 nor 1, or the four bytes of a
      length are cut off, or the length is less than the smallest or more than there is. */
  predicate NoSection(tail: Bytes) {
    && tail != []
    && (
         || tail[0] > 1
         || |tail| < 5
         || (var n: int := tail[1] as int + 256 * tail[2] as int + 65536 * tail[3] as int + 16777216 * tail[4] as int;
             n > |tail| - 1 || n < 4 || (tail[0] == 0 && n < 5))
       )
  }

  lemma NoSectionIsUnreadable(body: Bytes, offset: nat)
    requires offset < |body| && NoSection(body[offset..])
    ensures SectionAt(body, offset).Unreadable?
  {
    var tail := body[offset..];
    assert tail[0] == body[offset] && |tail| == |body| - offset;
    if |tail| >= 5 {
      var word := body[offset + 1..offset + 5];
      assert word[0] == tail[1] && word[1] == tail[2] && word[2] == tail[3] && word[3] == tail[4];
    }
  }

  /** The first section that cannot be read ends the body; the commands ahead of it are kept. */
  lemma UnreadableSectionEndsBody(flags: Uint32, sections: seq<BodySection>, tail: Bytes)
    requires ValidSections(sections) && |EncodeBody(flags, sections) + tail| < TWO_TO_32 && NoSection(tail)
    ensures OpMsg(EncodeBody(flags, sections) + tail) == CommandsOf(sections)
  {
    var body := EncodeBody(flags, sections) + tail;
    var end := 4 + |EncodeSections(sections)|;
    assert body[end..] == tail && body[4..end] == EncodeSections(sections);
    NoSectionIsUnreadable(body, end);
    assert Sections(body, end) == [];
    SectionsReadBack(body, 4, sections);
  }

  // ----- messages -----

  datatype Message =
    | OpMsgMessage(request: Uint32, response: Uint32, flags: Uint32, sections: seq<BodySection>)
    | OtherMessage(request: Uint32, response: Uint32, opCode: Uint32, content: Bytes)
  {
    function OpCode(): Uint32 {
      if OpMsgMessage? then 2013 else opCode
    }

    ghost function Payload(): Bytes {
      if OpMsgMessage? then EncodeBody(flags, sections) else content
    }

    ghost predicate Valid() {
      && 16 + |Payload()| <= 0x100_0000
      && (if OpMsgMessage? then ValidSections(sections) else opCode != 2013)
    }

    ghost function Commands(): seq<Command> {
      if OpMsgMessage? then CommandsOf(sections) else []
    }
  }

  ghost function Encode(m: Message): Bytes {
    PutLe32((16 + |m.Payload()|) % TWO_TO_32)
    + (PutLe32(m.request) + (PutLe32(m.response) + (PutLe32(m.OpCode()) + m.Payload())))
  }

  ghost predicate ValidAll(messages: seq<Message>) {
    forall i :: 0 <= i < |messages| ==> messages[i].Valid()
  }

  ghost function EncodeAll(messages: seq<Message>): Bytes {
    if messages == [] then [] else Encode(messages[0]) + EncodeAll(messages[1..])
  }

  ghost function AllCommands(messages: seq<Message>): seq<Command> {
    if messages == [] then [] else messages[0].Commands() + AllCommands(messages[1..])
  }

  lemma FourWords(buf: Bytes, a: Bytes, b: Bytes, c: Bytes, d: Bytes, payload: Bytes)
    requires |a| == |b| == |c| == |d| == 4 && At(buf, 0, a + (b + (c + (d + payload))))
    ensures buf[..4] == a && buf[12..16] == d && buf[16..16 + |payload|] == payload
  {
    AtSplit(buf, 0, a, b + (c + (d + payload)));
    AtSplit(buf, 4, b, c + (d + payload));
    AtSplit(buf, 8, c, d + payload);
    AtSplit(buf, 12, d, payload);
  }

  lemma HeaderLayout(m: Message, more: Bytes)
    requires 16 + |m.Payload()| < TWO_TO_32
    ensures var buf := Encode(m) + more; var n := 16 + |m.Payload()|;
      && |Encode(m)| == n && Le32(buf[..4]) == n && Le32(buf[12..16]) == m.OpCode()
      && buf[16..n] == m.Payload() && buf[n..] == more
  {
    var n: Uint32 := 16 + |m.Payload()|;
    var buf := Encode(m) + more;
    assert n % TWO_TO_32 == n;
    assert buf[..|Encode(m)|] == Encode(m);
    FourWords(buf, PutLe32(n), PutLe32(m.request), PutLe32(m.response), PutLe32(m.OpCode()), m.Payload());
    Le32RoundTrip(n);
    Le32RoundTrip(m.OpCode());
  }

  lemma CutEncoded(m: Message, more: Bytes)
    requires m.Valid()
    ensures CutMessage((), Encode(m) + more) == Frame(|Encode(m)|, (), m.Commands())
    ensures (Encode(m) + more)[|Encode(m)|..] == more
  {
    HeaderLayout(m, more);
    if m.OpMsgMessage? { BodyRoundTrip(m.flags, m.sections); }
  }

  lemma {:induction false} RunEncoded(messages: seq<Message>)
    requires ValidAll(messages)
    ensures Run(CutMessage, (), EncodeAll(messages)) == Parsed((), [], AllCommands(messages), true)
    decreases |messages|
  {
    if messages != [] {
      CutEncoded(messages[0], EncodeAll(messages[1..]));
      RunEncoded(messages[1..]);
    }
  }

  /** Messages fragmented in any way yield exactly the commands of their body documents. */
  lemma FragmentedRoundTrip(messages: seq<Message>, chunks: seq<Bytes>)
    requires ValidAll(messages) && Concat(chunks) == EncodeAll(messages)
    ensures FeedAll(CutMessage, MAX_MESSAGE_LEN, (), [], chunks) == Parsed((), [], AllCommands(messages), true)
  {
    RunEncoded(messages);
    CutIsStable();
    assert [] + Concat(chunks) == Concat(chunks) && CutMessage((), []).More?;
    Framing.ChunkingIsIrrelevant(CutMessage, CutMessage, MAX_MESSAGE_LEN, (), [], chunks);
  }

  /** A message that announces less than 16 or more than 2^24 bytes is discarded with all that is
      buffered. */
  lemma OutOfRangeIsDiscarded(n: Uint32, more: Bytes)
    requires n < 16 || n > 0x100_0000
    requires |more| >= 12
    ensures Run(CutMessage, (), PutLe32(n) + more) == Parsed((), [], [], false)
  {
    Le32RoundTrip(n);
    assert Le32(PutLe32(n) + more) == Le32(PutLe32(n));
  }
}
