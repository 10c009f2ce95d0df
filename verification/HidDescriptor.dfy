/** The HID report-descriptor parser: total Output bits per report ID, following
    section 6.2.2 of the USB Device Class Definition for HID 1.11. */
module HidDescriptor {
  import opened Common

  // ---------------------------------------------------------------- items as bytes

  /** A short item has a type, a tag and 0, 1, 2 or 4 data bytes; a long item has a
      tag byte and up to 255 data bytes. */
  datatype Item = Short(kind: nat, tag: nat, data: seq<u8>) | Long(longTag: u8, longData: seq<u8>)

  const LONG_PREFIX: u8 := 0xfe

  function SizeCode(n: nat): nat {
    if n == 4 then 3 else n
  }

  predicate IsItem(x: Item) {
    match x
    case Short(kind, tag, data) =>
      kind < 4 && tag < 16 && |data| in {0, 1, 2, 4} && 16 * tag + 4 * kind + SizeCode(|data|) != LONG_PREFIX
    case Long(_, data) => |data| < 0x100
  }

  function EncodeItem(x: Item): (b: seq<u8>)
    requires IsItem(x)
    ensures b != []
  {
    match x
    case Short(kind, tag, data) => [16 * tag + 4 * kind + SizeCode(|data|)] + data
    case Long(tag, data) => [LONG_PREFIX, |data|, tag] + data
  }

  predicate AreItems(items: seq<Item>) {
    forall i :: 0 <= i < |items| ==> IsItem(items[i])
  }

  function Encode(items: seq<Item>): seq<u8>
    requires AreItems(items)
  {
    if items == [] then [] else EncodeItem(items[0]) + Encode(items[1..])
  }

  // ---------------------------------------------------------------- what items do

  datatype Globals = Globals(size: u32, count: u32, id: u8)

  const NO_GLOBALS := Globals(0, 0, 0)

  datatype HidError =
    | TruncatedLongHeader
    | TruncatedLongData
    | TruncatedShortData
    | InvalidReportId(value: u32)
    | PopWithoutPush
    | PushWithoutPop
    | SizeOverflow

  datatype State = State(globals: Globals, stack: seq<Globals>, bits: map<u8, u64>)

  const START := State(NO_GLOBALS, [], map[])

  /** `read_unsigned_le`; the shifted bytes do not overlap, so the bitwise or is a sum. */
  function UnsignedLE(data: seq<u8>): (v: u32)
    requires |data| <= 4
    ensures |data| <= 1 ==> v < 0x100
    ensures |data| <= 2 ==> v < 0x1_0000
    ensures |data| <= 3 ==> v < 0x100_0000
  {
    if data == [] then 0 else data[0] + 0x100 * UnsignedLE(data[1..])
  }

  function ByteAt(data: seq<u8>, i: nat): u8 {
    if i < |data| then data[i] else 0
  }

  /** The bytes are the digits of the value to base 256, the lowest first. */
  lemma {:induction false} LittleEndian(data: seq<u8>)
    requires |data| <= 4
    ensures UnsignedLE(data)
         == ByteAt(data, 0) + 0x100 * ByteAt(data, 1) + 0x1_0000 * ByteAt(data, 2) + 0x100_0000 * ByteAt(data, 3)
  {
    if data != [] {
      LittleEndian(data[1..]);
      assert forall i: nat :: ByteAt(data[1..], i) == ByteAt(data, i + 1);
    }
  }

  function BitsOf(m: map<u8, u64>, id: u8): u64 {
    if id in m then m[id] else 0
  }

  predicate IsOutput(x: Item) { x.Short? && x.kind == 0 && x.tag == 9 }
  predicate IsSize(x: Item) { x.Short? && x.kind == 1 && x.tag == 7 }
  predicate IsId(x: Item) { x.Short? && x.kind == 1 && x.tag == 8 }
  predicate IsCount(x: Item) { x.Short? && x.kind == 1 && x.tag == 9 }
  predicate IsPush(x: Item) { x.Short? && x.kind == 1 && x.tag == 10 }
  predicate IsPop(x: Item) { x.Short? && x.kind == 1 && x.tag == 11 }

  /** Input, Feature, Collection, local, reserved and long items. */
  predicate IsNeutral(x: Item) {
    !IsOutput(x) && !IsSize(x) && !IsId(x) && !IsCount(x) && !IsPush(x) && !IsPop(x)
  }

  /** An Output item adds its fields to the report it belongs to. */
  function AddOutput(bits: map<u8, u64>, g: Globals): Result<map<u8, u64>, HidError> {
    var added := g.size * g.count;
    if added > U64_MAX || BitsOf(bits, g.id) + added > U64_MAX then Err(SizeOverflow)
    else Ok(bits[g.id := BitsOf(bits, g.id) + added])
  }

  /** The effect of a short item with the given type, tag and value. */
  function Interpret(s: State, kind: nat, tag: nat, value: u32): Result<State, HidError> {
    var g := s.globals;
    match (kind, tag)
    case (1, 7) => Ok(s.(globals := g.(size := value)))
    case (1, 8) =>
      if value == 0 || value > 0xFF then Err(InvalidReportId(value)) else Ok(s.(globals := g.(id := value)))
    case (1, 9) => Ok(s.(globals := g.(count := value)))
    case (1, 10) => Ok(s.(stack := s.stack + [g]))
    case (1, 11) =>
      if s.stack == [] then Err(PopWithoutPush)
      else Ok(s.(globals := s.stack[|s.stack| - 1], stack := s.stack[..|s.stack| - 1]))
    case (0, 9) =>
      (match AddOutput(s.bits, g)
       case Err(e) => Err(e)
       case Ok(bits) => Ok(s.(bits := bits)))
    case _ => Ok(s)
  }

  function Apply(s: State, x: Item): Result<State, HidError>
    requires IsItem(x)
  {
    if x.Long? then Ok(s) else Interpret(s, x.kind, x.tag, UnsignedLE(x.data))
  }

  function Run(items: seq<Item>, s: State): Result<State, HidError>
    requires AreItems(items)
  {
    if items == [] then Ok(s)
    else
      match Apply(s, items[0])
      case Err(e) => Err(e)
      case Ok(next) => Run(items[1..], next)
  }

  /** Bits rounded up to bytes, once nothing is left open. */
  function Finish(s: State): Result<map<u8, nat>, HidError> {
    if s.stack != [] then Err(PushWithoutPop)
    else if exists id | id in s.bits :: s.bits[id] + 7 > U64_MAX then Err(SizeOverflow)
    else Ok(map id | id in s.bits :: (s.bits[id] + 7) / 8)
  }

  // ---------------------------------------------------------------- the byte parser

  /** The item at the start of the bytes. */
  function ReadItem(b: seq<u8>): (r: Result<(Item, nat), HidError>)
    requires b != []
    ensures r.Ok? ==> 0 < r.value.1 <= |b| && IsItem(r.value.0)
  {
    var prefix := b[0];
    if prefix == LONG_PREFIX then
      if 3 > |b| then Err(TruncatedLongHeader)
      else
        var n := b[1];
        if 3 + n > |b| then Err(TruncatedLongData) else Ok((Long(b[2], b[3..3 + n]), 3 + n))
    else
      var n := if prefix % 4 == 3 then 4 else prefix % 4;
      if 1 + n > |b| then Err(TruncatedShortData)
      else Ok((Short(prefix / 4 % 4, prefix / 16, b[1..1 + n]), 1 + n))
  }

  function Scan(b: seq<u8>, s: State): Result<State, HidError>
    decreases |b|
  {
    if b == [] then Ok(s)
    else
      match ReadItem(b)
      case Err(e) => Err(e)
      case Ok((x, n)) =>
        match Apply(s, x)
        case Err(e) => Err(e)
        case Ok(next) => Scan(b[n..], next)
  }

  function Parse(b: seq<u8>): Result<map<u8, nat>, HidError> {
    match Scan(b, START)
    case Err(e) => Err(e)
    case Ok(s) => Finish(s)
  }

  datatype Fields = Fields(kind: nat, tag: nat, value: u32)

  /** What a short item says; long items say nothing. */
  function FieldsOf(x: Item): Option<Fields>
    requires IsItem(x)
  {
    if x.Long? then None else Some(Fields(x.kind, x.tag, UnsignedLE(x.data)))
  }

  lemma SliceOfSlice<T>(d: seq<T>, from: nat, i: nat, j: nat)
    requires i <= j && from + j <= |d|
    ensures d[from..][i..j] == d[from + i..from + j]
  {
  }

  /** Reads the item at `offset`: the offset after it and what it says. */
  method ReadAt(descriptor: seq<u8>, offset: nat) returns (r: Result<(nat, Option<Fields>), HidError>)
    requires offset < |descriptor|
    ensures var item := ReadItem(descriptor[offset..]);
      if r.Err? then item == Err(r.error)
      else item.Ok? && r.value == (offset + item.value.1, FieldsOf(item.value.0))
  {
    var prefix := descriptor[offset];
    var at := offset + 1;
    if prefix == 0xfe {
      if at + 2 > |descriptor| {
        return Err(TruncatedLongHeader);
      }
      var dataLen := descriptor[at];
      at := at + 2;
      if at + dataLen > |descriptor| {
        return Err(TruncatedLongData);
      }
      return Ok((at + dataLen, None));
    }
    var dataLen := match prefix % 4 case 0 => 0 case 1 => 1 case 2 => 2 case _ => 4;
    if at + dataLen > |descriptor| {
      return Err(TruncatedShortData);
    }
    SliceOfSlice(descriptor, offset, 1, 1 + dataLen);
    var value := UnsignedLE(descriptor[at..at + dataLen]);
    r := Ok((at + dataLen, Some(Fields(prefix / 4 % 4, prefix / 16, value))));
  }

  function Continue(r: Result<State, HidError>, rest: seq<u8>): Result<State, HidError> {
    if r.Err? then r else Scan(rest, r.value)
  }

  /** Where the scan stands after reading an item. */
  lemma ScanStep(d: seq<u8>, offset: nat, s: State)
    requires offset < |d|
    ensures var item := ReadItem(d[offset..]);
      Scan(d[offset..], s) ==
        if item.Err? then Err(item.error)
        else Continue(Apply(s, item.value.0), d[offset + item.value.1..])
  {
    var item := ReadItem(d[offset..]);
    if item.Ok? {
      assert d[offset..][item.value.1..] == d[offset + item.value.1..];
    }
  }

  method InterpretShort(globals: Globals, stack: seq<Globals>, outputBits: map<u8, u64>,
                        kind: nat, tag: nat, value: u32)
    returns (globals': Globals, stack': seq<Globals>, outputBits': map<u8, u64>, e: Option<HidError>)
    ensures Interpret(State(globals, stack, outputBits), kind, tag, value)
         == if e.Some? then Err(e.value) else Ok(State(globals', stack', outputBits'))
  {
    globals', stack', outputBits', e := globals, stack, outputBits, None;
    match (kind, tag) {
      case (1, 7) => globals' := globals.(size := value);
      case (1, 8) =>
        if value == 0 || value > 0xFF {
          e := Some(InvalidReportId(value));
          return;
        }
        globals' := globals.(id := value);
      case (1, 9) => globals' := globals.(count := value);
      case (1, 10) => stack' := stack + [globals];
      case (1, 11) =>
        if stack == [] {
          e := Some(PopWithoutPush);
          return;
        }
        globals', stack' := stack[|stack| - 1], stack[..|stack| - 1];
      case (0, 9) =>
        var bits := globals.size * globals.count;
        if bits > U64_MAX {
          e := Some(SizeOverflow);
          return;
        }
        var total := BitsOf(outputBits, globals.id);
        if total + bits > U64_MAX {
          e := Some(SizeOverflow);
          return;
        }
        outputBits' := outputBits[globals.id := total + bits];
      case _ =>
    }
  }

  method ParseOutputReportSizes(descriptor: seq<u8>) returns (r: Result<map<u8, nat>, HidError>)
    ensures r == Parse(descriptor)
  {
    hide ReadItem, Interpret, UnsignedLE;
    var globals := NO_GLOBALS;
    var stack: seq<Globals> := [];
    var outputBits: map<u8, u64> := map[];
    var offset := 0;
    while offset < |descriptor|
      invariant 0 <= offset <= |descriptor|
      invariant Scan(descriptor, START) == Scan(descriptor[offset..], State(globals, stack, outputBits))
    {
      ScanStep(descriptor, offset, State(globals, stack, outputBits));
      var read := ReadAt(descriptor, offset);
      if read.Err? {
        return Err(read.error);
      }
      offset := read.value.0;
      if read.value.1.Some? {
        var fields := read.value.1.value;
        var e;
        globals, stack, outputBits, e :=
          InterpretShort(globals, stack, outputBits, fields.kind, fields.tag, fields.value);
        if e.Some? {
          return Err(e.value);
        }
      }
    }
    if stack != [] {
      return Err(PushWithoutPop);
    }
    if exists id | id in outputBits :: outputBits[id] + 7 > U64_MAX {
      return Err(SizeOverflow);
    }
    r := Ok(map id | id in outputBits :: (outputBits[id] + 7) / 8);
  }
}
