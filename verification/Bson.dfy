/** The simplified BSON reader: documents become maps from keys to plain values. */
module Bson {
  import opened Framing
  import opened Effects
  import opened Endian

  type Bytes = seq<Byte>

  /** What a key can be bound to. Null stands for a bound nil. */
  datatype Value =
    | Null
    | Bool(flag: bool)
    | Int(number: int)
    | Int64(wide: int)
    | Str(text: Bytes)
    | Doc(fields: Map)

  type Map = map<Bytes, Value>

  const DOUBLE: Byte := 0x01
  const STRING: Byte := 0x02
  const DOCUMENT: Byte := 0x03
  const ARRAY: Byte := 0x04
  const OBJECT_ID: Byte := 0x07
  const BOOLEAN: Byte := 0x08
  const NULL: Byte := 0x0A
  const INT32: Byte := 0x10
  const INT64: Byte := 0x12

  // ----- the reader -----

  /** The effect of one element: the reading stops, or goes on at next with or without a binding. */
  datatype Step = Stop | Skip(next: nat) | Bind(next: nat, value: Value)

  /** The position of the first NUL at or after offset, or the length. */
  function KeyEnd(data: Bytes, offset: nat): (end: nat)
    requires offset <= |data|
    ensures offset <= end <= |data|
    decreases |data| - offset
  {
    if offset == |data| || data[offset] == 0 then offset else KeyEnd(data, offset + 1)
  }

  /** The value of an element of the given type whose value starts at offset. */
  function ValueAt(data: Bytes, kind: Byte, offset: nat): (step: Step)
    requires 0 < offset <= |data|
    ensures !step.Stop? ==> offset <= step.next <= |data|
    decreases |data|, 0, 0
  {
    var left := |data| - offset;
    if kind == STRING then
      if left < 4 then Stop else
        var n := Le32(data[offset..offset + 4]);
        if left - 4 < n || n < 1 then Stop
        else Bind(offset + 4 + n, Str(data[offset + 4..offset + 4 + n - 1]))
    else if kind == DOCUMENT || kind == ARRAY then
      if left < 4 then Stop else
        var n := Le32(data[offset..offset + 4]);
        if left < n then Stop
        else
          match Decode(data[offset..offset + n])
          case None => Skip(offset + n)
          case Some(fields) => Bind(offset + n, Doc(fields))
    else if kind == INT32 then
      if left < 4 then Stop else Bind(offset + 4, Int(Le32(data[offset..offset + 4])))
    else if kind == INT64 then
      if left < 8 then Stop else Bind(offset + 8, Int64(Le64(data[offset..offset + 8])))
    else if kind == DOUBLE then
      if left < 8 then Stop else Skip(offset + 8)
    else if kind == BOOLEAN then
      if left < 1 then Stop else Bind(offset + 1, Bool(data[offset] != 0))
    else if kind == NULL then Bind(offset, Null)
    else if kind == OBJECT_ID then
      if left < 12 then Stop else Skip(offset + 12)
    else Stop
  }

  /** The element at offset: its key, and what its value does. */
  function ElementAt(data: Bytes, offset: nat): (r: (Bytes, Step))
    requires 0 < offset < |data|
    ensures !r.1.Stop? ==> offset < r.1.next <= |data|
    decreases |data|, 1, 0
  {
    var end := KeyEnd(data, offset + 1);
    if end == |data| then ([], Stop)
    else (data[offset + 1..end], ValueAt(data, data[offset], end + 1))
  }

  /** The elements from offset on, added to those already read. */
  function Elements(data: Bytes, docLen: nat, offset: nat, read: Map): Map
    requires docLen <= |data| && 0 < offset
    decreases |data|, 2, |data| - offset
  {
    if offset >= docLen - 1 then read else
      var (key, step) := ElementAt(data, offset);
      match step
      case Stop => read
      case Skip(next) => Elements(data, docLen, next, read)
      case Bind(next, value) => Elements(data, docLen, next, read[key := value])
  }

  function Decode(data: Bytes): Option<Map>
    decreases |data|, 3, 0
  {
    if |data| < 5 || Le32(data) > |data| then None else Some(Elements(data, Le32(data), 4, map[]))
  }

  method SimpleBsonToMap(data: Bytes) returns (result: Option<Map>)
    ensures result == Decode(data)
    decreases |data|, 2
  {
    if |data| < 5 {
      return None;
    }
    var fields: Map := map[];
    var docLen := Le32(data);
    if docLen > |data| {
      return None;
    }
    ghost var whole := Elements(data, docLen, 4, map[]);
    var offset := 4;
    while offset < docLen - 1
      invariant 4 <= offset
      invariant Elements(data, docLen, offset, fields) == whole
      decreases |data| - offset
    {
      var key, step := ReadElement(data, offset);
      match step {
        case Stop => return Some(fields);
        case Skip(next) => offset := next;
        case Bind(next, value) => fields, offset := fields[key := value], next;
      }
    }
    return Some(fields);
  }

  method ReadElement(data: Bytes, start: nat) returns (key: Bytes, step: Step)
    requires 0 < start < |data|
    ensures (key, step) == ElementAt(data, start)
    decreases |data|, 1
  {
    var elemType := data[start];
    var offset := start + 1;
    var keyEnd := ScanKey(data, offset);
    if keyEnd >= |data| {
      return [], Stop;
    }
    key := data[offset..keyEnd];
    offset := keyEnd + 1;
    step := ReadValue(data, elemType, offset);
  }

  method ScanKey(data: Bytes, offset: nat) returns (keyEnd: nat)
    requires offset <= |data|
    ensures keyEnd == KeyEnd(data, offset)
  {
    keyEnd := offset;
    while keyEnd < |data| && data[keyEnd] != 0
      invariant offset <= keyEnd <= |data|
      invariant KeyEnd(data, offset) == KeyEnd(data, keyEnd)
    {
      keyEnd := keyEnd + 1;
    }
  }

  method ReadValue(data: Bytes, elemType: Byte, start: nat) returns (step: Step)
    requires 0 < start <= |data|
    ensures step == ValueAt(data, elemType, start)
    decreases |data|, 0
  {
    var offset := start;
    if elemType == STRING {
      if offset + 4 > |data| { return Stop; }
      var strLen := Le32(data[offset..offset + 4]);
      offset := offset + 4;
      if offset + strLen > |data| || strLen < 1 { return Stop; }
      return Bind(offset + strLen, Str(data[offset..offset + strLen - 1]));
    } else if elemType == DOCUMENT || elemType == ARRAY {
      if offset + 4 > |data| { return Stop; }
      var subDocLen := Le32(data[offset..offset + 4]);
      if offset + subDocLen > |data| { return Stop; }
      var subMap := SimpleBsonToMap(data[offset..offset + subDocLen]);
      match subMap {
        case None => return Skip(offset + subDocLen);
        case Some(fields) => return Bind(offset + subDocLen, Doc(fields));
      }
    } else if elemType == INT32 {
      if offset + 4 > |data| { return Stop; }
      return Bind(offset + 4, Int(Le32(data[offset..offset + 4])));
    } else if elemType == INT64 {
      if offset + 8 > |data| { return Stop; }
      return Bind(offset + 8, Int64(Le64(data[offset..offset + 8])));
    } else if elemType == DOUBLE {
      if offset + 8 > |data| { return Stop; }
      return Skip(offset + 8);
    } else if elemType == BOOLEAN {
      if offset >= |data| { return Stop; }
      return Bind(offset + 1, Bool(data[offset] != 0));
    } else if elemType == NULL {
      return Bind(offset, Null);
    } else if elemType == OBJECT_ID {
      if offset + 12 > |data| { return Stop; }
      return Skip(offset + 12);
    } else {
      return Stop;
    }
  }
}
