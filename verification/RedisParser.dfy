/** Redis commands: RESP arrays of bulk strings, and inline commands of blank-separated words. */
module RedisParser {
  import opened Framing
  import opened AsciiText
  import opened RedisArgs
  import Utf8

  const BUFFER_LIMIT := 1024 * 1024
  const ARRAY: Byte := 0x2a
  const BULK: Byte := 0x24
  const CR: Byte := 13
  const LF: Byte := 10
  const MAX_INT: int := 0x7fff_ffff_ffff_ffff

  /** A slice of more 24-byte elements than fit 2^48 bytes cannot be made: the runtime panics. */
  const MAX_PARTS: int := 0x1_0000_0000_0000 / 24

  type Parts = seq<seq<Byte>>

  /** A reported command: its name in upper case, and its arguments as text. */
  datatype Command = Command(name: Text, args: Parts)

  /** A panic of the parser ends the whole process: nothing is parsed any more. */
  datatype Health = Alive | Panicked

  // ----- line ends and decimal numbers -----

  /** The position of the first CRLF, or -1. */
  function IndexCrlf(data: seq<Byte>): (i: int)
    ensures -1 <= i && (i >= 0 ==> CrlfAt(data, i))
  {
    if |data| < 2 then -1
    else if data[0] == CR && data[1] == LF then 0
    else
      var i := IndexCrlf(data[1..]);
      if i < 0 then -1 else i + 1
  }

  predicate CrlfAt(data: seq<Byte>, i: nat) {
    i + 1 < |data| && data[i] == CR && data[i + 1] == LF
  }

  lemma {:induction false} FirstCrlf(data: seq<Byte>, i: nat)
    requires CrlfAt(data, i)
    ensures 0 <= IndexCrlf(data) <= i
    decreases i
  {
    if i > 0 { FirstCrlf(data[1..], i - 1); }
  }

  lemma {:induction false} CrlfAfterPlain(line: seq<Byte>, rest: seq<Byte>)
    requires CR !in line
    ensures IndexCrlf(line + [CR, LF] + rest) == |line|
    decreases |line|
  {
    var data := line + [CR, LF] + rest;
    if line == [] {
      assert data[0] == CR && data[1] == LF;
    } else {
      assert data[1..] == line[1..] + [CR, LF] + rest;
      assert data[0] == line[0];
      CrlfAfterPlain(line[1..], rest);
    }
  }

  /** More bytes never move a line end that was there, nor complete one earlier. */
  lemma LineEndIsStable(a: seq<Byte>, b: seq<Byte>)
    ensures IndexCrlf(a) >= 0 ==> IndexCrlf(a + b) == IndexCrlf(a)
    ensures IndexCrlf(a) < 0 && IndexCrlf(a + b) >= 0 ==> IndexCrlf(a + b) + 2 > |a|
  {
    var i, j := IndexCrlf(a), IndexCrlf(a + b);
    if i >= 0 {
      assert CrlfAt(a + b, i);
      FirstCrlf(a + b, i);
      assert CrlfAt(a, j);
      FirstCrlf(a, j);
    } else if 0 <= j <= |a| - 2 {
      assert CrlfAt(a, j);
      FirstCrlf(a, j);
    }
  }

  datatype Number = NotANumber | Number(value: int)

  predicate IsDigit(b: Byte) {
    48 <= b <= 57
  }

  predicate Digits(s: seq<Byte>) {
    forall b :: b in s ==> IsDigit(b)
  }

  function DigitsValue(s: seq<Byte>): (n: nat)
    requires Digits(s)
  {
    if s == [] then 0 else
      assert s[|s| - 1] in s;
      10 * DigitsValue(s[..|s| - 1]) + (s[|s| - 1] as int - 48)
  }

  function Signed(negative: bool, n: int): int {
    if negative then -n else n
  }

  /** Decimal digits with an optional sign, within 64 bits. */
  function Atoi(s: seq<Byte>): Number {
    var negative := s != [] && s[0] == 0x2d;
    var digits := if s != [] && (s[0] == 0x2d || s[0] == 0x2b) then s[1..] else s;
    if digits == [] || !Digits(digits) then NotANumber
    else
      var n := Signed(negative, DigitsValue(digits));
      if -MAX_INT - 1 <= n <= MAX_INT then Number(n) else NotANumber
  }

  // ----- one command at the front of a buffer -----

  datatype Item = Partial | Broken | Overflow | Item(size: nat, part: seq<Byte>)

  /** One bulk string at pos: $length CRLF bytes CRLF. A length that takes the end of the item
      beyond 64 bits passes the length test, and the index behind it is out of range. */
  function ItemAt(data: seq<Byte>, pos: nat): Item
    requires pos <= |data|
  {
    if pos == |data| then Partial
    else if data[pos] != BULK then Broken
    else
      var end := IndexCrlf(data[pos..]);
      if end < 0 then Partial
      else
        assert CrlfAt(data[pos..], end);
        var length := Atoi(data[pos + 1..pos + end]);
        if length.NotANumber? || length.value < 0 then Broken
        else
          var start, stop := pos + end + 2, pos + end + 2 + length.value;
          if stop + 2 > MAX_INT then Overflow
          else if |data| < stop + 2 then Partial
          else if data[stop] != CR || data[stop + 1] != LF then Broken
          else Item(stop + 2 - pos, data[start..stop])
  }

  /** The item at the front of what lies at position base of the buffer. */
  function CutItem(rest: seq<Byte>, base: nat): (item: Item)
    ensures item.Item? ==> 0 < item.size <= |rest|
  {
    if rest == [] then Partial
    else if rest[0] != BULK then Broken
    else
      var end := IndexCrlf(rest);
      if end < 0 then Partial
      else
        assert CrlfAt(rest, end);
        var length := Atoi(rest[1..end]);
        if length.NotANumber? || length.value < 0 then Broken
        else
          var stop := end + 2 + length.value;
          if base + stop + 2 > MAX_INT then Overflow
          else if |rest| < stop + 2 then Partial
          else if rest[stop] != CR || rest[stop + 1] != LF then Broken
          else Item(stop + 2, rest[end + 2..stop])
  }

  datatype Items = PartialItems | BrokenItems | OverflowItems | Items(size: nat, parts: Parts)
  {
    /** The verdict on a longer input that starts with these items. */
    function After(before: nat, parts: Parts): Items {
      if Items? then Items(before + size, parts + this.parts) else this
    }

    /** The verdict on a command, after a header of the given size. */
    function AsVerdict(header: nat): Verdict {
      match this
      case PartialItems => Incomplete
      case BrokenItems => Malformed
      case OverflowItems => Panics
      case Items(size, parts) => Accepted(header + size, parts)
    }
  }

  function CutItems(rest: seq<Byte>, base: nat, count: nat): Items
    decreases count
  {
    if count == 0 then Items(0, [])
    else
      match CutItem(rest, base)
      case Partial => PartialItems
      case Broken => BrokenItems
      case Overflow => OverflowItems
      case Item(size, part) => CutItems(rest[size..], base + size, count - 1).After(size, [part])
  }

  /** What the front of a buffer is: not complete, the end of the process, malformed, a frame
      without a command, or a command. */
  datatype Verdict = Incomplete | Panics | Malformed | Skipped(size: nat) | Accepted(size: nat, parts: Parts)

  function InlineVerdict(data: seq<Byte>, end: nat): Verdict
    requires end <= |data|
  {
    var line := TrimSpace(data[..end]);
    if line == [] then Skipped(end + 2) else Accepted(end + 2, Fields(line))
  }

  function ArrayVerdict(data: seq<Byte>, end: nat): Verdict
    requires 1 <= end && end + 2 <= |data|
  {
    var count := Atoi(data[1..end]);
    if count.NotANumber? || count.value <= 0 then Skipped(end + 2)
    else if count.value > MAX_PARTS then Panics
    else CutItems(data[end + 2..], end + 2, count.value).AsVerdict(end + 2)
  }

  function VerdictOn(data: seq<Byte>): Verdict {
    var end := IndexCrlf(data);
    if data == [] || end < 0 then Incomplete
    else if data[0] != ARRAY then InlineVerdict(data, end)
    else
      assert CrlfAt(data, end);
      ArrayVerdict(data, end)
  }

  /** The command reported for some parts, unless its name is blank or no text. */
  function Built(parts: Parts): seq<Command> {
    if parts == [] || !Utf8.Valid(parts[0]) || TrimSpace(parts[0]) == [] then []
    else [Command(ToUpper(TrimSpace(parts[0])), EncodeArgs(parts[1..]))]
  }

  function CutCommand(health: Health, data: seq<Byte>): Cut<Health, Command> {
    if health.Panicked? then More
    else
      match VerdictOn(data)
      case Incomplete => More
      case Panics => Bad(Panicked)
      case Malformed => Bad(Alive)
      case Skipped(size) => Frame(size, Alive, [])
      case Accepted(size, parts) => Frame(size, Alive, Built(parts))
  }

  // ----- the parser -----

  /** The four results the parse functions return, for a verdict on n bytes of data; panics
      says that they do not return. */
  ghost predicate Reports(
    v: Verdict, n: nat, parts: Parts, consumed: nat, complete: bool, ok: bool, panics: bool)
  {
    (panics <==> v.Panics?) &&
    match v
    case Incomplete => parts == [] && consumed == 0 && !complete && ok
    case Panics => true
    case Malformed => parts == [] && consumed == n && complete && !ok
    case Skipped(size) => parts == [] && consumed == size && complete && !ok
    case Accepted(size, ps) => parts == ps && consumed == size && complete && ok
  }

  method ParseRedisCommand(data: seq<Byte>)
    returns (parts: Parts, consumed: nat, complete: bool, ok: bool, panics: bool)
    ensures Reports(VerdictOn(data), |data|, parts, consumed, complete, ok, panics)
  {
    if |data| == 0 {
      return [], 0, false, true, false;
    }
    if data[0] == ARRAY {
      parts, consumed, complete, ok, panics := ParseRedisArrayCommand(data);
    } else {
      parts, consumed, complete, ok := ParseRedisInlineCommand(data);
      panics := false;
    }
  }

  method ParseRedisArrayCommand(data: seq<Byte>)
    returns (parts: Parts, consumed: nat, complete: bool, ok: bool, panics: bool)
    requires data != [] && data[0] == ARRAY
    ensures Reports(VerdictOn(data), |data|, parts, consumed, complete, ok, panics)
  {
    var lineEnd := IndexCrlf(data);
    if lineEnd < 0 {
      return [], 0, false, true, false;
    }
    assert CrlfAt(data, lineEnd);
    var count := Atoi(data[1..lineEnd]);
    if count.NotANumber? || count.value <= 0 {
      return [], lineEnd + 2, true, false, false;
    }
    if count.value > MAX_PARTS {
      return [], 0, false, false, true;
    }
    ProgressStarts(data, lineEnd, count.value);
    ReadsItems(data);
    parts, consumed, complete, ok, panics :=
      ParseBulkStrings(data, lineEnd, count.value, VerdictOn(data), ItemsReader(data));
  }

  /** The items of an array whose verdict is v. */
  method ParseBulkStrings(
    data: seq<Byte>, lineEnd: nat, count: nat, ghost v: Verdict, ghost reader: (nat, nat) -> Items)
    returns (parts: Parts, consumed: nat, complete: bool, ok: bool, panics: bool)
    requires lineEnd + 2 <= |data| && IsReader(reader, data)
    requires Progress(v, reader, lineEnd, count, 0, lineEnd + 2, [])
    ensures Reports(v, |data|, parts, consumed, complete, ok, panics)
  {
    var pos := lineEnd + 2;
    parts := [];
    for i := 0 to count
      invariant lineEnd + 2 <= pos <= |data|
      invariant Progress(v, reader, lineEnd, count, i, pos, parts)
    {
      var item := ParseBulkString(data, pos);
      ItemStep(v, reader, data, lineEnd, count, i, pos, parts, item);
      match item {
        case Partial => return [], 0, false, true, false;
        case Broken => return [], |data|, true, false, false;
        case Overflow => return [], 0, false, false, true;
        case Item(_, _) =>
      }
      parts := parts + [item.part];
      pos := pos + item.size;
    }
    ProgressEnds(v, reader, data, lineEnd, count, pos, parts);
    return parts, pos, true, true, false;
  }

  method ParseBulkString(data: seq<Byte>, start: nat) returns (item: Item)
    requires start <= |data|
    ensures item == ItemAt(data, start)
  {
    var pos := start;
    if pos >= |data| {
      return Partial;
    }
    if data[pos] != BULK {
      return Broken;
    }
    var endRel := IndexCrlf(data[pos..]);
    if endRel < 0 {
      return Partial;
    }
    assert CrlfAt(data[pos..], endRel);
    var bulkLen := Atoi(data[pos + 1..pos + endRel]);
    if bulkLen.NotANumber? || bulkLen.value < 0 {
      return Broken;
    }
    pos := pos + endRel + 2;
    if pos + bulkLen.value + 2 > MAX_INT {
      return Overflow;
    }
    if |data| < pos + bulkLen.value + 2 {
      return Partial;
    }
    if data[pos + bulkLen.value] != CR || data[pos + bulkLen.value + 1] != LF {
      return Broken;
    }
    var part := data[pos..pos + bulkLen.value];
    pos := pos + bulkLen.value + 2;
    return Item(pos - start, part);
  }

  method ParseRedisInlineCommand(data: seq<Byte>)
    returns (parts: Parts, consumed: nat, complete: bool, ok: bool)
    requires data != [] && data[0] != ARRAY
    ensures Reports(VerdictOn(data), |data|, parts, consumed, complete, ok, false)
  {
    var lineEnd := IndexCrlf(data);
    if lineEnd < 0 {
      return [], 0, false, true;
    }
    var line := TrimSpace(data[..lineEnd]);
    if line == [] {
      return [], lineEnd + 2, true, false;
    }
    return Fields(line), lineEnd + 2, true, true;
  }

  method BuildRedisCommand(parts: Parts) returns (command: Command, valid: bool)
    ensures Built(parts) == if valid then [command] else []
  {
    if |parts| == 0 {
      return Command([], []), false;
    }
    var isText := Utf8.IsValid(parts[0]);
    if !isText {
      return Command([], []), false;
    }
    var name := ToUpper(TrimSpace(parts[0]));
    if name == [] {
      return Command([], []), false;
    }
    var args: Parts := [];
    for i := 1 to |parts|
      invariant args == EncodeArgs(parts[1..i])
    {
      assert parts[1..i + 1] == parts[1..i] + [parts[i]];
      args := args + [EncodeArg(parts[i])];
    }
    assert parts[1..|parts|] == parts[1..];
    return Command(name, args), true;
  }

  /** The verdict on the items from each position of data on, for each number of items. */
  ghost function ItemsReader(data: seq<Byte>): (nat, nat) -> Items {
    (pos: nat, count: nat) => if pos <= |data| then CutItems(data[pos..], pos, count) else PartialItems
  }

  /** How the items of an array depend on the first of them and the others. */
  ghost predicate Follows(items: Items, item: Item, others: Items) {
    match item
    case Partial => items == PartialItems
    case Broken => items == BrokenItems
    case Overflow => items == OverflowItems
    case Item(size, part) => items == others.After(size, [part])
  }

  ghost predicate ReadsAt(reader: (nat, nat) -> Items, data: seq<Byte>, pos: nat, count: nat)
    requires pos <= |data|
  {
    var item := ItemAt(data, pos);
    && reader(pos, 0) == Items(0, [])
    && (item.Item? ==> pos + item.size <= |data|)
    && Follows(reader(pos, count + 1), item, if item.Item? then reader(pos + item.size, count) else PartialItems)
  }

  ghost predicate IsReader(reader: (nat, nat) -> Items, data: seq<Byte>) {
    forall pos: nat, count: nat :: pos <= |data| ==> ReadsAt(reader, data, pos, count)
  }

  lemma ReadsItems(data: seq<Byte>)
    ensures IsReader(ItemsReader(data), data)
  {
    forall pos: nat, count: nat | pos <= |data| ensures ReadsAt(ItemsReader(data), data, pos, count) {
      ItemAtIsCutItem(data, pos);
      FirstItem(data, pos, count + 1);
    }
  }

  lemma FirstItem(data: seq<Byte>, pos: nat, count: nat)
    requires pos <= |data| && count > 0
    ensures var rest := data[pos..]; var item := CutItem(rest, pos);
      && (item.Item? ==> pos + item.size <= |data|)
      && Follows(CutItems(rest, pos, count), item,
           if item.Item? then CutItems(data[pos + item.size..], pos + item.size, count - 1) else PartialItems)
  {
    var rest := data[pos..];
    var item := CutItem(rest, pos);
    if item.Item? { assert rest[item.size..] == data[pos + item.size..]; }
  }

  /** Of the count items of an array whose verdict is v, i have been read up to pos. */
  ghost predicate Progress(
    v: Verdict, reader: (nat, nat) -> Items, lineEnd: nat, count: nat, i: nat, pos: nat, parts: Parts)
    requires lineEnd + 2 <= pos && i <= count
  {
    v == reader(pos, count - i).After(pos - (lineEnd + 2), parts).AsVerdict(lineEnd + 2)
  }

  lemma ProgressStarts(data: seq<Byte>, lineEnd: nat, count: int)
    requires data != [] && data[0] == ARRAY && lineEnd == IndexCrlf(data)
    requires Atoi(data[1..lineEnd]) == Number(count) && 0 < count <= MAX_PARTS
    ensures Progress(VerdictOn(data), ItemsReader(data), lineEnd, count, 0, lineEnd + 2, [])
  {
    var items := CutItems(data[lineEnd + 2..], lineEnd + 2, count);
    if items.Items? { assert [] + items.parts == items.parts; }
  }

  lemma ProgressEnds(
    v: Verdict, reader: (nat, nat) -> Items, data: seq<Byte>, lineEnd: nat, count: nat, pos: nat, parts: Parts)
    requires lineEnd + 2 <= pos <= |data| && IsReader(reader, data)
    requires Progress(v, reader, lineEnd, count, count, pos, parts)
    ensures Reports(v, |data|, parts, pos, true, true, false)
  {
    assert ReadsAt(reader, data, pos, 0);
    assert parts + [] == parts;
  }

  /** What one item decides about the verdict, when parts precede it. */
  lemma Advance(v: Verdict, header: nat, before: nat, parts: Parts, items: Items, item: Item, others: Items)
    requires v == items.After(before, parts).AsVerdict(header) && Follows(items, item, others)
    ensures item.Partial? ==> v == Incomplete
    ensures item.Broken? ==> v == Malformed
    ensures item.Overflow? ==> v == Panics
    ensures item.Item? ==> v == others.After(before + item.size, parts + [item.part]).AsVerdict(header)
  {
    if item.Item? { AfterTwice(others, before, parts, item.size, [item.part]); }
  }

  /** What the item at pos decides. */
  lemma ItemStep(
    v: Verdict, reader: (nat, nat) -> Items, data: seq<Byte>, lineEnd: nat, count: nat, i: nat, pos: nat,
    parts: Parts, item: Item)
    requires lineEnd + 2 <= pos <= |data| && i < count && item == ItemAt(data, pos)
    requires IsReader(reader, data) && Progress(v, reader, lineEnd, count, i, pos, parts)
    ensures item.Partial? ==> v == Incomplete
    ensures item.Broken? ==> v == Malformed
    ensures item.Overflow? ==> v == Panics
    ensures item.Item? ==> pos + item.size <= |data|
    ensures item.Item? ==> Progress(v, reader, lineEnd, count, i + 1, pos + item.size, parts + [item.part])
  {
    assert ReadsAt(reader, data, pos, count - i - 1);
    var others := if item.Item? then reader(pos + item.size, count - i - 1) else PartialItems;
    Advance(v, lineEnd + 2, pos - (lineEnd + 2), parts, reader(pos, count - i), item, others);
  }

  lemma ItemAtIsCutItem(data: seq<Byte>, pos: nat)
    requires pos <= |data|
    ensures ItemAt(data, pos) == CutItem(data[pos..], pos)
  {
    var rest := data[pos..];
    if rest != [] && rest[0] == BULK && IndexCrlf(rest) >= 0 {
      var end := IndexCrlf(rest);
      assert CrlfAt(rest, end);
      assert data[pos + 1..pos + end] == rest[1..end];
      if CutItem(rest, pos).Item? {
        assert CutItem(rest, pos).part == data[pos + end + 2..pos + CutItem(rest, pos).size - 2];
      }
    }
  }

  lemma AfterTwice(items: Items, b0: nat, p0: Parts, b1: nat, p1: Parts)
    ensures items.After(b1, p1).After(b0, p0) == items.After(b0 + b1, p0 + p1)
  {
    if items.Items? { assert p0 + (p1 + items.parts) == (p0 + p1) + items.parts; }
  }

  lemma {:induction false} ItemsWithinBuffer(rest: seq<Byte>, base: nat, count: nat)
    ensures var items := CutItems(rest, base, count); items.Items? ==> items.size <= |rest|
    decreases count
  {
    if count > 0 && CutItem(rest, base).Item? {
      var size, part := CutItem(rest, base).size, CutItem(rest, base).part;
      var others := CutItems(rest[size..], base + size, count - 1);
      assert CutItems(rest, base, count) == others.After(size, [part]);
      ItemsWithinBuffer(rest[size..], base + size, count - 1);
    }
  }

  lemma FrameWithinBuffer(data: seq<Byte>)
    ensures var v := VerdictOn(data); v.Skipped? || v.Accepted? ==> 1 <= v.size <= |data|
  {
    var end := IndexCrlf(data);
    if data != [] && end >= 0 && data[0] == ARRAY {
      assert CrlfAt(data, end);
      var count := Atoi(data[1..end]);
      if count.Number? && 0 < count.value <= MAX_PARTS {
        ItemsWithinBuffer(data[end + 2..], end + 2, count.value);
      }
    }
  }

  /** Whatever the parse functions report: a complete parse, malformed or not, consumes at least
      one byte and no more than there are, and an incomplete one consumes none. */
  lemma ConsumesWithinBuffer(data: seq<Byte>, parts: Parts, consumed: nat, complete: bool, ok: bool, panics: bool)
    requires Reports(VerdictOn(data), |data|, parts, consumed, complete, ok, panics) && !panics
    ensures if complete then 1 <= consumed <= |data| else consumed == 0
  {
    FrameWithinBuffer(data);
  }

  /** What one look at the buffer decides, for a parse of which done has been emitted. */
  lemma LoopStep(done: seq<Command>, buf: seq<Byte>, goal: Parsed<Health, Command>)
    requires Completes(CutCommand, done, Alive, buf, goal)
    ensures match VerdictOn(buf) {
        case Incomplete => goal.state == Alive && goal.out == done && goal.rest == buf
        case Panics => goal.state == Panicked
        case Malformed => Completes(CutCommand, done, Alive, buf[|buf|..], goal)
        case Skipped(size) => size <= |buf| && Completes(CutCommand, done, Alive, buf[size..], goal)
        case Accepted(size, parts) =>
          size <= |buf| && Completes(CutCommand, done + Built(parts), Alive, buf[size..], goal)
      }
  {
    FrameWithinBuffer(buf);
    assert done + [] == done;
    if CutCommand(Alive, buf).Frame? {
      CutOne(CutCommand, done, Alive, buf, goal);
    } else {
      CutNone(CutCommand, done, Alive, buf, goal);
      assert buf[|buf|..] == [] && CutCommand(Alive, []).More?;
    }
  }

  class Parser {
    var buf: seq<Byte>

    constructor ()
      ensures buf == []
    {
      buf := [];
    }

    /** panicked says that the call did not return: what it had parsed is lost. */
    method Feed(data: seq<Byte>) returns (commands: seq<Command>, panicked: bool)
      modifies this
      ensures var r := Framing.Feed(CutCommand, BUFFER_LIMIT, Alive, old(buf), data);
        && (panicked <==> r.state.Panicked?)
        && (!panicked ==> commands == r.out && buf == r.rest)
    {
      commands, panicked := [], false;
      buf := buf + data;
      ghost var goal := Run(CutCommand, Alive, buf);
      while |buf| > 0
        invariant Completes(CutCommand, commands, Alive, buf, goal)
        decreases |buf|
      {
        LoopStep(commands, buf, goal);
        var parts, consumed, complete, ok, panics := ParseRedisCommand(buf);
        if panics {
          return [], true;
        }
        ConsumesWithinBuffer(buf, parts, consumed, complete, ok, panics);
        if !complete {
          break;
        }
        if consumed <= 0 {
          assert false; // every complete parse consumes something
        }
        if ok {
          var command, valid := BuildRedisCommand(parts);
          assert commands + [] == commands;
          if valid {
            commands := commands + [command];
          }
        }
        buf := buf[consumed..];
      }
      LoopStep(commands, buf, goal);
      if |buf| > BUFFER_LIMIT {
        buf := [];
      }
    }
  }
}
