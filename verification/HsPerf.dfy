/**
 * The reader of hsperfdata files in src/hsperfdata_parser.h, and the layout it reads: a header of 7
 * bytes, a prologue of 25 and a list of entries, each with a header of 20 bytes, a name and data at
 * the offsets its header gives.  Numbers are little-endian.
 */
module HsPerf {
  import opened Common

  /** A monitor's value: a long, or a text of given length. */
  datatype Value = Long(number: int) | Text(bytes: seq<Byte>)

  datatype Item = Item(name: seq<Byte>, value: Value)

  /** Why parsing stopped, with what it had read by then; `Undefined` is a read outside the buffer. */
  datatype Outcome =
    | Parsed(items: seq<Item>)
    | BadMagic | BadVersion | BadByteOrder
    | BadScalar(items: seq<Item>) | BadVector(items: seq<Item>)
    | Undefined

  const HEADER_SIZE := 7
  const PROLOGUE_SIZE := 25
  const ENTRY_HEADER_SIZE := 20

  const TYPE_LONG: Byte := 74
  const TYPE_BYTE: Byte := 66
  const UNITS_STRING: Byte := 5
  const CONSTANT: Byte := 1
  const VARIABLE: Byte := 3

  predicate Within(buf: seq<Byte>, off: int, n: int) { 0 <= off && 0 <= n && off + n <= |buf| }

  predicate Fits32(x: int) { -0x8000_0000 <= x < 0x8000_0000 }

  function Int32(buf: seq<Byte>, off: int): int
    requires Within(buf, off, 4)
  {
    Signed32(LittleEndian(buf[off..off + 4]))
  }

  function Int64(buf: seq<Byte>, off: int): int
    requires Within(buf, off, 8)
  {
    var u := LittleEndian(buf[off..off + 4]) + 0x1_0000_0000 * LittleEndian(buf[off + 4..off + 8]);
    if u < 0x8000_0000_0000_0000 then u else u - 0x1_0000_0000_0000_0000
  }

  // ----- what the reader computes

  /** The bytes from `n` up to the next zero or the end. */
  function NameAt(buf: seq<Byte>, n: int): seq<Byte>
    requires 0 <= n
    decreases |buf| - n
  {
    if n >= |buf| || buf[n] == 0 then [] else [buf[n]] + NameAt(buf, n + 1)
  }

  datatype Step = Stop(o: Outcome) | Next(item: Item, pos: int)

  /** The units and the variability of a text that the reader accepts. */
  predicate IsString(units: Byte, variability: Byte)
  {
    units == UNITS_STRING && (variability == CONSTANT || variability == VARIABLE)
  }

  /** One turn of the entry loop, with the entry at `pos`. */
  function ReadEntry(buf: seq<Byte>, pos: int, items: seq<Item>): Step
  {
    if !Within(buf, pos, ENTRY_HEADER_SIZE) then Stop(Undefined)
    else
      var nameStart, dataStart := pos + Int32(buf, pos + 4), pos + Int32(buf, pos + 16);
      var length, kind := Int32(buf, pos + 8), buf[pos + 12];
      if !Fits32(nameStart) || nameStart < 0 || !Fits32(dataStart) then Stop(Undefined)
      else if length == 0 then
        if kind != TYPE_LONG then Stop(BadScalar(items))
        else if !Within(buf, dataStart, 8) || !Fits32(pos + Int32(buf, pos)) then Stop(Undefined)
        else Next(Item(NameAt(buf, nameStart), Long(Int64(buf, dataStart))), pos + Int32(buf, pos))
      else if kind != TYPE_BYTE || !IsString(buf[pos + 14], buf[pos + 15]) then Stop(BadVector(items))
      else if !Within(buf, dataStart, length) || !Fits32(pos + Int32(buf, pos)) then Stop(Undefined)
      else Next(Item(NameAt(buf, nameStart), Text(buf[dataStart..dataStart + length])), pos + Int32(buf, pos))
  }

  function ReadEntries(buf: seq<Byte>, pos: int, n: nat, items: seq<Item>): Outcome
    decreases n
  {
    if n == 0 then Parsed(items)
    else match ReadEntry(buf, pos, items)
      case Stop(o) => o
      case Next(item, pos') => ReadEntries(buf, pos', n - 1, items + [item])
  }

  const MAGIC: seq<Byte> := [0xca, 0xfe, 0xc0, 0xc0]

  function ReadFile(buf: seq<Byte>): Outcome
  {
    if !Within(buf, 0, HEADER_SIZE) then Undefined
    else if buf[..4] != MAGIC then BadMagic
    else if !(buf[5] == 2 && buf[6] == 0) then BadVersion
    else if buf[4] != 1 then BadByteOrder
    else if !Within(buf, HEADER_SIZE, PROLOGUE_SIZE) then Undefined
    else
      var n := Int32(buf, 28);
      ReadEntries(buf, Int32(buf, 24), if n < 0 then 0 else n, [])
  }

  // ----- the reader

  /** The loop that measures a name. */
  method MeasureName(buf: seq<Byte>, start: nat) returns (nlen: nat)
    ensures start <= |buf| ==> start + nlen <= |buf| && buf[start..start + nlen] == NameAt(buf, start)
    ensures start > |buf| ==> nlen == 0 && NameAt(buf, start) == []
    ensures forall i :: start <= i < start + nlen && i < |buf| ==> buf[i] != 0
    ensures start + nlen < |buf| ==> buf[start + nlen] == 0
  {
    nlen := 0;
    var n := start;
    while n < |buf|
      invariant n == start + nlen && (start <= |buf| ==> n <= |buf|) && (start > |buf| ==> nlen == 0)
      invariant start <= |buf| ==> NameAt(buf, start) == buf[start..n] + NameAt(buf, n)
      invariant forall i :: start <= i < n && i < |buf| ==> buf[i] != 0
    {
      if buf[n] == 0 {
        break;
      }
      nlen := nlen + 1;
      n := n + 1;
    }
  }

  /**
   * The parser.  Its checks of the header are stated for every file: magic number, then version, then
   * byte order, and a file too short for header or prologue is read out of bounds.
   */
  method Parse(buf: seq<Byte>) returns (r: Outcome)
    ensures r == ReadFile(buf)
    ensures |buf| < 7 ==> r == Undefined
    ensures |buf| >= 7 ==>
              && (r.BadMagic? <==> LittleEndian(buf[..4]) != 0xc0c0_feca)
              && (r.BadVersion? <==> !r.BadMagic? && (buf[5] != 2 || buf[6] != 0))
              && (r.BadByteOrder? <==> !r.BadMagic? && !r.BadVersion? && buf[4] != 1)
              && (!IsHeaderError(r) && |buf| < 32 ==> r == Undefined)
  {
    hide LittleEndian;
    if |buf| >= 7 { HeaderChecks(buf); }
    if |buf| < HEADER_SIZE {
      return Undefined;
    }
    if buf[..4] != MAGIC {
      return BadMagic;
    }
    if !(buf[5] == 2 && buf[6] == 0) {
      return BadVersion;
    }
    if buf[4] != 1 {
      return BadByteOrder;
    }
    if |buf| < HEADER_SIZE + PROLOGUE_SIZE {
      return Undefined;
    }
    r := ParseEntries(buf, Int32(buf, 24), Int32(buf, 28));
  }

  /** The entry loop. */
  method ParseEntries(buf: seq<Byte>, start: int, count: int) returns (r: Outcome)
    ensures r == ReadEntries(buf, start, if count < 0 then 0 else count, [])
  {
    hide ReadEntry;
    var pos, items := start, [];
    var i := 0;
    while i < count
      invariant 0 <= i && (i <= count || i == 0)
      invariant ReadEntries(buf, start, if count < 0 then 0 else count, []) ==
                ReadEntries(buf, pos, if count < i then 0 else count - i, items)
    {
      var step := ParseEntry(buf, pos, items);
      if step.Stop? {
        return step.o;
      }
      items := items + [step.item];
      pos := step.pos;
      i := i + 1;
    }
    return Parsed(items);
  }

  /** The body of the entry loop. */
  method ParseEntry(buf: seq<Byte>, pos: int, items: seq<Item>) returns (step: Step)
    ensures step == ReadEntry(buf, pos, items)
  {
    hide Int32, Int64, NameAt;
    if !Within(buf, pos, ENTRY_HEADER_SIZE) {
      return Stop(Undefined);
    }
    var nameStart, dataStart, length := pos + Int32(buf, pos + 4), pos + Int32(buf, pos + 16), Int32(buf, pos + 8);
    if !Fits32(nameStart) || nameStart < 0 || !Fits32(dataStart) {
      return Stop(Undefined);
    }
    var nlen := MeasureName(buf, nameStart);
    var name := if nlen == 0 then [] else buf[nameStart..nameStart + nlen];
    var value: Value;
    if length == 0 {
      if buf[pos + 12] != TYPE_LONG {
        return Stop(BadScalar(items));
      }
      if !Within(buf, dataStart, 8) {
        return Stop(Undefined);
      }
      value := Long(Int64(buf, dataStart));
    } else {
      if buf[pos + 12] != TYPE_BYTE || !IsString(buf[pos + 14], buf[pos + 15]) {
        return Stop(BadVector(items));
      }
      if !Within(buf, dataStart, length) {
        return Stop(Undefined);
      }
      value := Text(buf[dataStart..dataStart + length]);
    }
    if !Fits32(pos + Int32(buf, pos)) {
      return Stop(Undefined);
    }
    return Next(Item(name, value), pos + Int32(buf, pos));
  }

  // ----- the layout, as a writer would produce it

  function Bytes64(x: int): (w: seq<Byte>)
    ensures |w| == 8
  {
    Bytes32(x) + Bytes32(x / 0x1_0000_0000)
  }

  /** An entry with the free parts of its layout: type, flags, units, variability and three gaps. */
  datatype Entry = Entry(
    item: Item, kind: Byte, flags: Byte, units: Byte, variability: Byte,
    beforeName: seq<Byte>, beforeData: seq<Byte>, afterData: seq<Byte>)

  /** A long, or a text that is not empty: an empty one would count as a long. */
  predicate Proper(v: Value) { v.Text? ==> v.bytes != [] }

  /**
   * The monitors that are supported: a long of type 'J', and a text of type 'B' with units 5 (string)
   * and variability 1 (constant) or 3 (variable).
   */
  predicate Supported(e: Entry)
  {
    match e.item.value
    case Long(_) => e.kind == 74
    case Text(_) => e.kind == 66 && e.units == 5 && (e.variability == 1 || e.variability == 3)
  }

  /** A supported entry that the format can express. */
  predicate Expressible(e: Entry)
  {
    && Supported(e) && Proper(e.item.value)
    && (forall i :: 0 <= i < |e.item.name| ==> e.item.name[i] != 0)
    && (e.item.value.Long? ==> -0x8000_0000_0000_0000 <= e.item.value.number < 0x8000_0000_0000_0000)
  }

  function Data(v: Value): seq<Byte> { match v case Long(x) => Bytes64(x) case Text(t) => t }

  function NameOffset(e: Entry): int { ENTRY_HEADER_SIZE + |e.beforeName| }

  function DataOffset(e: Entry): int { NameOffset(e) + |e.item.name| + 1 + |e.beforeData| }

  function EntryLength(e: Entry): int { DataOffset(e) + |Data(e.item.value)| + |e.afterData| }

  function VectorLength(v: Value): int { match v case Long(_) => 0 case Text(t) => |t| }

  function EntryHeader(e: Entry): (h: seq<Byte>)
    ensures |h| == ENTRY_HEADER_SIZE
  {
    Bytes32(EntryLength(e)) + Bytes32(NameOffset(e)) + Bytes32(VectorLength(e.item.value))
    + [e.kind, e.flags, e.units, e.variability] + Bytes32(DataOffset(e))
  }

  function Encode(e: Entry): (b: seq<Byte>)
    ensures |b| == EntryLength(e)
  {
    EntryHeader(e) + e.beforeName + e.item.name + [0] + e.beforeData + Data(e.item.value) + e.afterData
  }

  function TotalLength(es: seq<Entry>): int { if es == [] then 0 else EntryLength(es[0]) + TotalLength(es[1..]) }

  function EncodeAll(es: seq<Entry>): (b: seq<Byte>)
    ensures |b| == TotalLength(es)
  {
    if es == [] then [] else Encode(es[0]) + EncodeAll(es[1..])
  }

  function Items(es: seq<Entry>): seq<Item> { seq(|es|, i requires 0 <= i < |es| => es[i].item) }

  /**
   * A whole file: the prologue fields the reader ignores, the number of entries it claims to have, a
   * gap, the entries and what follows.
   */
  datatype File = File(
    accessible: Byte, used: int, overflow: int, modifyTime: int, count: int,
    gap: seq<Byte>, entries: seq<Entry>, rest: seq<Byte>)

  function FileFront(f: File): seq<Byte>
  {
    MAGIC + [1, 2, 0] + [f.accessible] + Bytes32(f.used) + Bytes32(f.overflow) + Bytes64(f.modifyTime)
    + Bytes32(HEADER_SIZE + PROLOGUE_SIZE + |f.gap|) + Bytes32(f.count) + f.gap
  }

  function EncodeFile(f: File): seq<Byte> { FileFront(f) + EncodeAll(f.entries) + f.rest }

  /** Every offset in the file is an `int32_t`. */
  predicate FitsInt32(f: File)
  {
    HEADER_SIZE + PROLOGUE_SIZE + |f.gap| + TotalLength(f.entries) + |f.rest| < 0x8000_0000 && Fits32(f.count)
  }

  // ----- reading inverts writing

  lemma Bytes32Back(x: int)
    requires Fits32(x)
    ensures Signed32(LittleEndian(Bytes32(x))) == x
  {
    Bytes32Unsigned(x);
  }

  lemma Bytes64Back(x: int)
    requires -0x8000_0000_0000_0000 <= x < 0x8000_0000_0000_0000
    ensures Int64(Bytes64(x), 0) == x
  {
    Bytes32Unsigned(x);
    Bytes32Unsigned(x / 0x1_0000_0000);
    assert Bytes64(x)[0..4] == Bytes32(x) && Bytes64(x)[4..8] == Bytes32(x / 0x1_0000_0000);
  }

  /** A number is read back from wherever its bytes stand. */
  lemma Int32Inside(pre: seq<Byte>, x: int, post: seq<Byte>)
    requires Fits32(x)
    ensures Int32(pre + Bytes32(x) + post, |pre|) == x
  {
    assert (pre + Bytes32(x) + post)[|pre|..|pre| + 4] == Bytes32(x);
    Bytes32Back(x);
  }

  lemma Int64Inside(pre: seq<Byte>, x: int, post: seq<Byte>)
    requires -0x8000_0000_0000_0000 <= x < 0x8000_0000_0000_0000
    ensures Int64(pre + Bytes64(x) + post, |pre|) == x
  {
    var buf := pre + Bytes64(x) + post;
    assert buf[|pre|..|pre| + 4] == Bytes64(x)[0..4] && buf[|pre| + 4..|pre| + 8] == Bytes64(x)[4..8];
    Bytes64Back(x);
  }

  lemma {:induction false} NameInside(pre: seq<Byte>, name: seq<Byte>, post: seq<Byte>)
    requires forall i :: 0 <= i < |name| ==> name[i] != 0
    ensures NameAt(pre + name + [0] + post, |pre|) == name
    decreases |name|
  {
    if name == [] {
      assert (pre + name + [0] + post)[|pre|] == 0;
    } else {
      NameInside(pre + [name[0]], name[1..], post);
      assert pre + [name[0]] + name[1..] + [0] + post == pre + name + [0] + post;
    }
  }

  lemma OffsetsFit(e: Entry)
    ensures 0 <= NameOffset(e) <= DataOffset(e) <= EntryLength(e)
    ensures 0 <= VectorLength(e.item.value) <= EntryLength(e)
  {
  }

  lemma HeaderInside(pre: seq<Byte>, e: Entry, post: seq<Byte>)
    requires |pre| + EntryLength(e) < 0x8000_0000
    ensures var buf := pre + EntryHeader(e) + post;
            && Int32(buf, |pre|) == EntryLength(e)
            && Int32(buf, |pre| + 4) == NameOffset(e)
            && Int32(buf, |pre| + 8) == VectorLength(e.item.value)
            && Int32(buf, |pre| + 16) == DataOffset(e)
            && buf[|pre| + 12..|pre| + 16] == [e.kind, e.flags, e.units, e.variability]
  {
    hide Bytes32, Int32, EntryLength, NameOffset, DataOffset, VectorLength;
    OffsetsFit(e);
    var buf := pre + EntryHeader(e) + post;
    var a, b := Bytes32(EntryLength(e)), Bytes32(NameOffset(e));
    var c, d := Bytes32(VectorLength(e.item.value)), Bytes32(DataOffset(e));
    var t := [e.kind, e.flags, e.units, e.variability];
    assert buf == pre + a + (b + c + t + d + post);
    assert buf == (pre + a) + b + (c + t + d + post);
    assert buf == (pre + a + b) + c + (t + d + post);
    assert buf == (pre + a + b + c + t) + d + post;
    Int32Inside(pre, EntryLength(e), b + c + t + d + post);
    Int32Inside(pre + a, NameOffset(e), c + t + d + post);
    Int32Inside(pre + a + b, VectorLength(e.item.value), t + d + post);
    Int32Inside(pre + a + b + c + t, DataOffset(e), post);
  }

  lemma NameOfEntry(pre: seq<Byte>, e: Entry, post: seq<Byte>)
    requires Expressible(e)
    ensures NameAt(pre + Encode(e) + post, |pre| + NameOffset(e)) == e.item.name
  {
    var front, back := pre + EntryHeader(e) + e.beforeName, e.beforeData + Data(e.item.value) + e.afterData + post;
    NameInside(front, e.item.name, back);
    assert pre + Encode(e) + post == front + e.item.name + [0] + back;
  }

  lemma DataOfEntry(pre: seq<Byte>, e: Entry, post: seq<Byte>)
    requires Expressible(e)
    ensures var buf, at := pre + Encode(e) + post, |pre| + DataOffset(e);
            match e.item.value case Long(x) => Int64(buf, at) == x case Text(t) => buf[at..at + |t|] == t
  {
    var front := pre + EntryHeader(e) + e.beforeName + e.item.name + [0] + e.beforeData;
    assert pre + Encode(e) + post == front + Data(e.item.value) + (e.afterData + post);
    match e.item.value
    case Long(x) => Int64Inside(front, x, e.afterData + post);
    case Text(t) =>
  }

  lemma HeaderOfEntry(pre: seq<Byte>, e: Entry, post: seq<Byte>)
    requires |pre| + EntryLength(e) < 0x8000_0000
    ensures var buf := pre + Encode(e) + post;
            && Int32(buf, |pre|) == EntryLength(e)
            && Int32(buf, |pre| + 4) == NameOffset(e)
            && Int32(buf, |pre| + 8) == VectorLength(e.item.value)
            && Int32(buf, |pre| + 16) == DataOffset(e)
            && buf[|pre| + 12] == e.kind && buf[|pre| + 14] == e.units && buf[|pre| + 15] == e.variability
  {
    hide Bytes32, Bytes64, Int32, EntryHeader, Data;
    var back := e.beforeName + e.item.name + [0] + e.beforeData + Data(e.item.value) + e.afterData + post;
    HeaderInside(pre, e, back);
    var buf := pre + EntryHeader(e) + back;
    assert pre + Encode(e) + post == buf;
    var kinds := buf[|pre| + 12..|pre| + 16];
    assert buf[|pre| + 12] == kinds[0] && buf[|pre| + 14] == kinds[2] && buf[|pre| + 15] == kinds[3];
  }

  /** The reader finds in an encoded entry what was put there, and moves on to the byte after it. */
  lemma EntryInside(pre: seq<Byte>, e: Entry, post: seq<Byte>, items: seq<Item>)
    requires Expressible(e) && |pre| + EntryLength(e) + |post| < 0x8000_0000
    ensures ReadEntry(pre + Encode(e) + post, |pre|, items) == Next(e.item, |pre| + EntryLength(e))
  {
    hide Encode, Int32, Int64, NameAt, Bytes32, Bytes64;
    HeaderOfEntry(pre, e, post);
    NameOfEntry(pre, e, post);
    DataOfEntry(pre, e, post);
  }

  lemma ReadOn(buf: seq<Byte>, pos: int, n: nat, items: seq<Item>)
    requires n > 0
    ensures var step := ReadEntry(buf, pos, items);
            ReadEntries(buf, pos, n, items) ==
            if step.Stop? then step.o else ReadEntries(buf, step.pos, n - 1, items + [step.item])
  {
    hide ReadEntry;
  }

  lemma {:induction false} EncodeAllSplit(es: seq<Entry>, i: nat)
    requires i < |es|
    ensures EncodeAll(es) == EncodeAll(es[..i]) + Encode(es[i]) + EncodeAll(es[i + 1..])
    ensures TotalLength(es) == TotalLength(es[..i]) + EntryLength(es[i]) + TotalLength(es[i + 1..])
    decreases i
  {
    hide Encode, EntryLength, TotalLength;
    if i == 0 {
      assert es[..0] == [];
    } else {
      assert EncodeAll(es) == Encode(es[0]) + EncodeAll(es[1..]);
      EncodeAllSplit(es[1..], i - 1);
      assert es[..i][1..] == es[1..][..i - 1] && es[1..][i..] == es[i + 1..];
      assert EncodeAll(es[..i]) == Encode(es[0]) + EncodeAll(es[1..][..i - 1]);
    }
  }

  lemma Regroup(a: seq<Byte>, b: seq<Byte>, c: seq<Byte>, d: seq<Byte>, e: seq<Byte>)
    ensures a + (b + c + d) + e == a + b + (c + (d + e))
  {
    assert a + (b + c + d) + e == a + b + (c + (d + e));
  }

  /** The fields of header and prologue, read back. */
  lemma FrontInside(f: File)
    requires FitsInt32(f)
    ensures var buf := EncodeFile(f);
            && |buf| >= 32 && buf[..4] == MAGIC && buf[4] == 1 && buf[5] == 2 && buf[6] == 0
            && Int32(buf, 24) == |FileFront(f)| && Int32(buf, 28) == f.count
  {
    hide Bytes32, Bytes64, Int32, EncodeAll;
    var start, count := HEADER_SIZE + PROLOGUE_SIZE + |f.gap|, f.count;
    var head := MAGIC + [1, 2, 0] + [f.accessible] + Bytes32(f.used) + Bytes32(f.overflow) + Bytes64(f.modifyTime);
    var back := f.gap + EncodeAll(f.entries) + f.rest;
    Int32Inside(head, start, Bytes32(count) + back);
    Int32Inside(head + Bytes32(start), count, back);
    assert EncodeFile(f) == head + Bytes32(start) + (Bytes32(count) + back);
    assert EncodeFile(f) == (head + Bytes32(start)) + Bytes32(count) + back;
  }

  // ----- where the reader stands

  /** Position and items of the entry loop after `i` turns, if it gets so far. */
  function After(buf: seq<Byte>, start: int, i: nat): Option<(int, seq<Item>)>
  {
    if i == 0 then Some((start, []))
    else
      match After(buf, start, i - 1)
      case None => None
      case Some((pos, items)) =>
        match ReadEntry(buf, pos, items)
        case Next(item, next) => Some((next, items + [item]))
        case Stop(_) => None
  }

  lemma {:induction false} AfterIsReader(buf: seq<Byte>, start: int, n: nat, i: nat)
    requires i <= n && After(buf, start, i).Some?
    ensures var (pos, items) := After(buf, start, i).value;
            ReadEntries(buf, start, n, []) == ReadEntries(buf, pos, n - i, items)
  {
    hide ReadEntry;
    if i == 0 {
    } else {
      AfterIsReader(buf, start, n, i - 1);
      var (pos, items) := After(buf, start, i - 1).value;
      ReadOn(buf, pos, n - i + 1, items);
    }
  }

  /** Adding up the lengths one entry further. */
  lemma NextLength(es: seq<Entry>, i: nat)
    requires i < |es|
    ensures TotalLength(es[..i + 1]) == TotalLength(es[..i]) + EntryLength(es[i])
    ensures Items(es[..i + 1]) == Items(es[..i]) + [es[i].item]
  {
    hide Encode, EntryLength, EncodeAll;
    EncodeAllSplit(es[..i + 1], i);
    assert es[..i + 1][..i] == es[..i] && es[..i + 1][i + 1..] == [];
  }

  /** The encoding of entry `i` stands after the lengths of the entries before it. */
  lemma EntryStandsAt(pre: seq<Byte>, es: seq<Entry>, post: seq<Byte>, i: nat)
    returns (front: seq<Byte>, back: seq<Byte>)
    requires i < |es|
    ensures pre + EncodeAll(es) + post == front + Encode(es[i]) + back
    ensures |front| == |pre| + TotalLength(es[..i]) && |back| == TotalLength(es[i + 1..]) + |post|
  {
    hide Encode, EntryLength, EncodeAll, TotalLength;
    EncodeAllSplit(es, i);
    front, back := pre + EncodeAll(es[..i]), EncodeAll(es[i + 1..]) + post;
    Regroup(pre, EncodeAll(es[..i]), Encode(es[i]), EncodeAll(es[i + 1..]), post);
  }

  lemma ReaderGoesOn(pre: seq<Byte>, es: seq<Entry>, post: seq<Byte>, i: nat, items: seq<Item>)
    requires i < |es| && Expressible(es[i]) && |pre| + TotalLength(es) + |post| < 0x8000_0000
    ensures ReadEntry(pre + EncodeAll(es) + post, |pre| + TotalLength(es[..i]), items) ==
            Next(es[i].item, |pre| + TotalLength(es[..i]) + EntryLength(es[i]))
  {
    hide ReadEntry, Encode, EntryLength, EncodeAll, TotalLength, Expressible;
    EncodeAllSplit(es, i);
    var front, back := EntryStandsAt(pre, es, post, i);
    EntryInside(front, es[i], back, items);
  }

  /** The encoding of entry `i` is at `pos` in the file. */
  predicate WrittenAt(f: File, i: nat, pos: int)
    requires i < |f.entries|
  {
    && 0 <= pos <= pos + EntryLength(f.entries[i]) <= |EncodeFile(f)|
    && EncodeFile(f)[pos..pos + EntryLength(f.entries[i])] == Encode(f.entries[i])
  }

  lemma EntryInFile(f: File, i: nat)
    requires i < |f.entries|
    ensures WrittenAt(f, i, |FileFront(f)| + TotalLength(f.entries[..i]))
  {
    hide Encode, EncodeAll, FileFront, TotalLength;
    var front, back := EntryStandsAt(FileFront(f), f.entries, f.rest, i);
    var e := Encode(f.entries[i]);
    assert (front + e + back)[|front|..|front| + |e|] == e;
  }

  /**
   * At its turn `i` the reader stands at the first offset plus the lengths of the entries before, which
   * is where entry `i` has been written, with the items of those entries in hand.
   */
  lemma {:induction false} ReaderStandsAt(f: File, i: nat)
    requires FitsInt32(f) && i <= |f.entries| && forall e :: e in f.entries[..i] ==> Expressible(e)
    ensures After(EncodeFile(f), |FileFront(f)|, i) ==
            Some((|FileFront(f)| + TotalLength(f.entries[..i]), Items(f.entries[..i])))
    ensures i < |f.entries| ==> WrittenAt(f, i, |FileFront(f)| + TotalLength(f.entries[..i]))
  {
    hide ReadEntry, Encode, EntryLength, EncodeAll, Expressible, WrittenAt;
    if i == 0 {
      assert f.entries[..0] == [] && Items([]) == [];
    } else {
      assert f.entries[..i] == f.entries[..i - 1] + [f.entries[i - 1]];
      ReaderStandsAt(f, i - 1);
      NextLength(f.entries, i - 1);
      ReaderGoesOn(FileFront(f), f.entries, f.rest, i - 1, Items(f.entries[..i - 1]));
    }
    if i < |f.entries| { EntryInFile(f, i); }
  }

  // ----- whole files

  /** What the parser makes of a file once it has read `i` entries. */
  lemma ParseFrom(f: File, i: nat)
    requires FitsInt32(f) && i <= |f.entries| && forall e :: e in f.entries[..i] ==> Expressible(e)
    requires i <= f.count
    ensures var pos := |FileFront(f)| + TotalLength(f.entries[..i]);
            ReadFile(EncodeFile(f)) == ReadEntries(EncodeFile(f), pos, f.count - i, Items(f.entries[..i]))
  {
    hide ReadEntry, ReadEntries, EncodeAll, Expressible, Int32, TotalLength, Items, After;
    FrontInside(f);
    ReaderStandsAt(f, i);
    AfterIsReader(EncodeFile(f), |FileFront(f)|, f.count, i);
  }

  /**
   * Parsing inverts the layout: of every file of that form, exactly the names and values of as many
   * entries as it claims, in order.
   */
  lemma ParseInvertsLayout(f: File)
    requires FitsInt32(f) && (forall e :: e in f.entries ==> Expressible(e)) && f.count <= |f.entries|
    ensures ReadFile(EncodeFile(f)) == Parsed(Items(f.entries[..if f.count < 0 then 0 else f.count]))
  {
    hide ReadEntry, EncodeFile, Expressible;
    if f.count < 0 { FrontInside(f); } else { ParseFrom(f, f.count); }
  }

  /** A file that claims more entries than it has is read beyond its end. */
  lemma TruncatedIsUndefined(f: File)
    requires FitsInt32(f) && (forall e :: e in f.entries ==> Expressible(e))
    requires f.count > |f.entries| && |f.rest| < 20
    ensures ReadFile(EncodeFile(f)) == Undefined
  {
    hide EncodeAll, Expressible, TotalLength, Items, Int32;
    var n := |f.entries|;
    assert f.entries[..n] == f.entries;
    ParseFrom(f, n);
    ReadOn(EncodeFile(f), |FileFront(f)| + TotalLength(f.entries), f.count - n, Items(f.entries));
  }

  lemma UnsupportedInside(pre: seq<Byte>, e: Entry, post: seq<Byte>, items: seq<Item>)
    requires Proper(e.item.value) && !Supported(e) && |pre| + EntryLength(e) + |post| < 0x8000_0000
    ensures ReadEntry(pre + Encode(e) + post, |pre|, items) ==
            Stop(if e.item.value.Long? then BadScalar(items) else BadVector(items))
  {
    hide Encode, Int32, Int64, NameAt, Bytes32, Bytes64;
    HeaderOfEntry(pre, e, post);
  }

  /** An unsupported entry stops the reader there, with all that came before it and nothing after. */
  lemma UnsupportedStopsParse(f: File, i: nat)
    requires FitsInt32(f) && i < |f.entries| && i < f.count
    requires Proper(f.entries[i].item.value) && !Supported(f.entries[i])
    requires forall e :: e in f.entries[..i] ==> Expressible(e)
    ensures ReadFile(EncodeFile(f)) ==
            if f.entries[i].item.value.Long? then BadScalar(Items(f.entries[..i])) else BadVector(Items(f.entries[..i]))
  {
    hide ReadFile, ReadEntry, ReadEntries, EncodeAll, Encode, EntryLength, Supported, Expressible, Items, TotalLength;
    ParseFrom(f, i);
    EncodeAllSplit(f.entries, i);
    var front, back := EntryStandsAt(FileFront(f), f.entries, f.rest, i);
    UnsupportedInside(front, f.entries[i], back, Items(f.entries[..i]));
    ReadOn(EncodeFile(f), |front|, f.count - i, Items(f.entries[..i]));
  }

  // ----- headers that are refused

  predicate IsHeaderError(o: Outcome) { o.BadMagic? || o.BadVersion? || o.BadByteOrder? }

  lemma EntryNeverBlamesHeader(buf: seq<Byte>, pos: int, items: seq<Item>)
    ensures ReadEntry(buf, pos, items).Stop? ==> !IsHeaderError(ReadEntry(buf, pos, items).o)
  {
    hide Int32, Int64, NameAt;
  }

  lemma {:induction false} EntriesNeverBlameHeader(buf: seq<Byte>, pos: int, n: nat, items: seq<Item>)
    ensures !IsHeaderError(ReadEntries(buf, pos, n, items))
    decreases n
  {
    hide ReadEntry;
    if n == 0 {
    } else {
      var step := ReadEntry(buf, pos, items);
      EntryNeverBlamesHeader(buf, pos, items);
      if step.Next? { EntriesNeverBlameHeader(buf, step.pos, n - 1, items + [step.item]); }
    }
  }

  /** The magic number is 0xc0c0feca when read least significant byte first. */
  lemma MagicNumber(buf: seq<Byte>)
    requires |buf| >= 4
    ensures buf[..4] == MAGIC <==> LittleEndian(buf[..4]) == 0xc0c0_feca
  {
    assert buf[..4] == [buf[0], buf[1], buf[2], buf[3]];
  }

  /** Whatever the file, which headers are refused, in the order of the checks, and that no other is. */
  lemma HeaderChecks(buf: seq<Byte>)
    requires |buf| >= 7
    ensures var r := ReadFile(buf);
            && (r.BadMagic? <==> LittleEndian(buf[..4]) != 0xc0c0_feca)
            && (r.BadVersion? <==> !r.BadMagic? && (buf[5] != 2 || buf[6] != 0))
            && (r.BadByteOrder? <==> !r.BadMagic? && !r.BadVersion? && buf[4] != 1)
            && (!IsHeaderError(r) && |buf| < 32 ==> r == Undefined)
  {
    hide ReadEntries, LittleEndian, Int32;
    MagicNumber(buf);
    if |buf| >= 32 {
      var n := Int32(buf, 28);
      EntriesNeverBlameHeader(buf, Int32(buf, 24), if n < 0 then 0 else n, []);
    }
  }
}
