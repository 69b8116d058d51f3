/** The kernel-device module of the library: reading messages into pool buffers and preparing
    messages for the driver, on a 64-bit machine. */
module StdModule {
  import opened CapiDescriptor
  import opened CapiWire
  import opened CapiCodec
  import opened CapiTable
  import opened CapiMessages
  import opened BufferPool

  const DISCONNECT := 0x04
  const DISCONNECT_B3 := 0x84
  const SEND_BUFSIZ := 128 + 2048

  // ---- byte accessors ----

  method GetU16(m: array<Byte>, off: nat) returns (r: nat)
    requires off + 2 <= m.Length
    ensures r == Num(m[off..off + 2]) < 0x1_0000
  {
    r := m[off + 1] as nat;
    r := r * 256;
    r := r + m[off] as nat;
    TwoBytes(m[off..off + 2]);
  }

  lemma TwoBytes(s: seq<Byte>)
    requires |s| == 2
    ensures Num(s) == s[0] as nat + 256 * s[1] as nat
  {
    assert s[1..] == [s[1]] && s[1..][1..] == [];
    assert Num(s[1..]) == s[1] as nat;
  }

  method GetU32(m: array<Byte>, off: nat) returns (r: nat)
    requires off + 4 <= m.Length
    ensures r == Num(m[off..off + 4]) < 0x1_0000_0000
  {
    r := 0;
    var i := 3;
    ghost var s := m[off..off + 4];
    while i > 0
      invariant 0 <= i <= 3 && r == 256 * Num(s[i + 1..])
      invariant s == m[off..off + 4]
    {
      r := r + m[off + i] as nat;
      assert s[i] == m[off + i] && s[i..][1..] == s[i + 1..];
      r := r * 256;
      i := i - 1;
    }
    r := r + m[off] as nat;
    assert s[0..] == s && s[0] == m[off];
    LeOfNum(s);
    assert Pow256(4) == 0x1_0000_0000;
  }

  /** `t` with `s` written over it at `off`. */
  ghost function Splice(t: seq<Byte>, off: nat, s: seq<Byte>): (r: seq<Byte>)
    requires off + |s| <= |t|
    ensures |r| == |t|
  {
    t[..off] + s + t[off + |s|..]
  }

  lemma SpliceSlice(t: seq<Byte>, off: nat, s: seq<Byte>, a: nat, b: nat)
    requires off + |s| <= |t| && a <= b <= |t|
    ensures b <= off || off + |s| <= a ==> Splice(t, off, s)[a..b] == t[a..b]
    ensures a == off && b == off + |s| ==> Splice(t, off, s)[a..b] == s
  {
    forall k | 0 <= k < |t|
      ensures Splice(t, off, s)[k] == if off <= k < off + |s| then s[k - off] else t[k]
    {
      SpliceAt(t, off, s, k);
    }
    hide Splice;
    if a == off && b == off + |s| {
      assert Splice(t, off, s)[a..b] == s;
    }
    if b <= off || off + |s| <= a {
      assert Splice(t, off, s)[a..b] == t[a..b];
    }
  }

  lemma SpliceAt(t: seq<Byte>, off: nat, s: seq<Byte>, k: nat)
    requires off + |s| <= |t| && k < |t|
    ensures Splice(t, off, s)[k] == if off <= k < off + |s| then s[k - off] else t[k]
  {
  }

  method SetBytes(m: array<Byte>, off: nat, s: seq<Byte>)
    requires off + |s| <= m.Length
    modifies m
    ensures m[..] == Splice(old(m[..]), off, s)
  {
    forall i | 0 <= i < |s| {
      m[off + i] := s[i];
    }
  }

  method SetU16(m: array<Byte>, off: nat, val: nat)
    requires off + 2 <= m.Length
    modifies m
    ensures m[..] == Splice(old(m[..]), off, Le(val, 2))
  {
    SetBytes(m, off, Le(val, 2));
  }

  /** memmove: the ranges may overlap. */
  method Move(m: array<Byte>, dst: nat, src: nat, n: nat)
    requires dst + n <= m.Length && src + n <= m.Length
    modifies m
    ensures m[..] == Splice(old(m[..]), dst, old(m[src..src + n]))
  {
    forall i | 0 <= i < n {
      m[dst + i] := m[src + i];
    }
  }

  // ---- data indications ----

  function HeaderLen(data: seq<Byte>): nat
    requires |data| >= 2
  {
    Num(data[0..2])
  }

  function PayloadLen(data: seq<Byte>): nat
    requires |data| >= 18
  {
    Num(data[16..18])
  }

  /** A data indication as the driver hands it out: a header of at least the 22 bytes the standard
      gives it, then the payload, with room in the buffer for a 30-byte header. */
  predicate DataIndication(data: seq<Byte>, size: nat) {
    && |data| >= 22 && data[4] as nat == DATA_B3 && data[5] as nat == IND
    && HeaderLen(data) >= 22
    && |data| == HeaderLen(data) + PayloadLen(data)
    && |data| <= size && 30 + PayloadLen(data) <= size
  }

  function LongHeaderLen(data: seq<Byte>): nat
    requires |data| >= 2
  {
    if HeaderLen(data) < 30 then 30 else HeaderLen(data)
  }

  /** What follows the 30 bytes that are patched. */
  function AfterHeader(data: seq<Byte>, size: nat): seq<Byte>
    requires DataIndication(data, size)
  {
    if HeaderLen(data) < 30 then data[HeaderLen(data)..] else data[30..]
  }

  /** The indication as the application gets it: its own application id, the buffer's number in
      place of the driver's handle, a 30-byte header, and the payload's address in it. */
  function Delivered(data: seq<Byte>, size: nat, applId: nat, slot: nat, address: nat): seq<Byte>
    requires DataIndication(data, size)
  {
    (Le(LongHeaderLen(data), 2) + (Le(applId, 2) + data[4..12]))
    + [0, 0, 0, 0]
    + (data[16..18] + Le(slot, 2) + data[20..22])
    + Le(address + LongHeaderLen(data), 8)
    + AfterHeader(data, size)
  }

  /** The buffer after reading: the driver's indication with the application's id in it. */
  ghost predicate ReadIn(t: seq<Byte>, applId: nat, data: seq<Byte>) {
    6 <= |data| <= |t| && t[..|data|] == data[..2] + Le(applId, 2) + data[4..]
  }

  /** After the handle is replaced: the parts in front of, around and behind the patched places. */
  ghost predicate HandleReplaced(t: seq<Byte>, applId: nat, slot: nat, data: seq<Byte>) {
    && |data| >= 22 && |data| <= |t|
    && t[0..2] == data[0..2] && t[2..12] == Le(applId, 2) + data[4..12]
    && t[16..22] == data[16..18] + Le(slot, 2) + data[20..22]
    && t[22..|data|] == data[22..]
  }

  lemma ReplaceHandle(t: seq<Byte>, applId: nat, slot: nat, data: seq<Byte>)
    requires ReadIn(t, applId, data) && |data| >= 22
    ensures HandleReplaced(Splice(t, 18, Le(slot, 2)), applId, slot, data)
  {
    hide Le, Splice;
    var h := t[..|data|];
    var r := Splice(t, 18, Le(slot, 2));
    SpliceSlice(t, 18, Le(slot, 2), 0, 2);
    SpliceSlice(t, 18, Le(slot, 2), 2, 12);
    SpliceSlice(t, 18, Le(slot, 2), 16, 18);
    SpliceSlice(t, 18, Le(slot, 2), 18, 20);
    SpliceSlice(t, 18, Le(slot, 2), 20, 22);
    SpliceSlice(t, 18, Le(slot, 2), 22, |data|);
    assert t[0..2] == h[0..2] && t[2..12] == h[2..12] && t[16..18] == h[16..18];
    assert t[20..22] == h[20..22] && t[22..|data|] == h[22..];
    assert r[16..22] == r[16..18] + r[18..20] + r[20..22];
  }

  /** After a short header is lengthened to 30 bytes. */
  ghost predicate Lengthened(t: seq<Byte>, applId: nat, slot: nat, data: seq<Byte>, size: nat)
    requires DataIndication(data, size)
  {
    && LongHeaderLen(data) + PayloadLen(data) == 30 + |AfterHeader(data, size)| <= |t|
    && t[0..2] == Le(LongHeaderLen(data), 2) && t[2..12] == Le(applId, 2) + data[4..12]
    && t[16..22] == data[16..18] + Le(slot, 2) + data[20..22]
    && t[30..30 + |AfterHeader(data, size)|] == AfterHeader(data, size)
  }

  lemma SameTail(t: seq<Byte>, data: seq<Byte>, from: nat)
    requires 22 <= from <= |data| <= |t| && t[22..|data|] == data[22..]
    ensures t[from..|data|] == data[from..]
  {
    assert t[from..|data|] == t[22..|data|][from - 22..];
  }

  lemma LongHeaderStays(t: seq<Byte>, applId: nat, slot: nat, data: seq<Byte>)
    requires DataIndication(data, |t|) && HeaderLen(data) >= 30
    requires HandleReplaced(t, applId, slot, data)
    ensures Lengthened(t, applId, slot, data, |t|)
  {
    hide Le, Num;
    LeOfNum(data[0..2]);
    SameTail(t, data, 30);
  }

  lemma ShortHeaderGrows(t: seq<Byte>, applId: nat, slot: nat, data: seq<Byte>)
    requires DataIndication(data, |t|) && HeaderLen(data) < 30
    requires HandleReplaced(t, applId, slot, data)
    ensures t[HeaderLen(data)..|data|] == data[HeaderLen(data)..]
    ensures Lengthened(Splice(Splice(t, 30, data[HeaderLen(data)..]), 0, [30, 0]), applId, slot, data, |t|)
  {
    var len := HeaderLen(data);
    assert Le(30, 2) == [30, 0];
    hide Le, Num, Splice;
    SameTail(t, data, len);
    Grown(t, data[len..]);
  }

  lemma Grown(t: seq<Byte>, payload: seq<Byte>)
    requires 30 + |payload| <= |t|
    ensures var r := Splice(Splice(t, 30, payload), 0, [30, 0]);
            && r[0..2] == [30, 0] && r[2..12] == t[2..12] && r[16..22] == t[16..22]
            && r[30..30 + |payload|] == payload
  {
    hide Splice;
    var r := Splice(t, 30, payload);
    SpliceSlice(t, 30, payload, 2, 12);
    SpliceSlice(t, 30, payload, 16, 22);
    SpliceSlice(t, 30, payload, 30, 30 + |payload|);
    SpliceSlice(r, 0, [30, 0], 0, 2);
    SpliceSlice(r, 0, [30, 0], 2, 12);
    SpliceSlice(r, 0, [30, 0], 16, 22);
    SpliceSlice(r, 0, [30, 0], 30, 30 + |payload|);
  }

  lemma PointerSet(t: seq<Byte>, applId: nat, slot: nat, address: nat, data: seq<Byte>)
    requires DataIndication(data, |t|) && Lengthened(t, applId, slot, data, |t|)
    ensures var total := LongHeaderLen(data) + PayloadLen(data);
            var pointer := Le(address + LongHeaderLen(data), 8);
            Splice(Splice(t, 12, [0, 0, 0, 0]), 22, pointer)[..total] == Delivered(data, |t|, applId, slot, address)
  {
    hide Le, Num, Splice, AfterHeader;
    var total := LongHeaderLen(data) + PayloadLen(data);
    var pointer := Le(address + LongHeaderLen(data), 8);
    var r := Splice(t, 12, [0, 0, 0, 0]);
    var q := Splice(r, 22, pointer);
    SpliceSlice(t, 12, [0, 0, 0, 0], 0, 2);
    SpliceSlice(t, 12, [0, 0, 0, 0], 2, 12);
    SpliceSlice(t, 12, [0, 0, 0, 0], 12, 16);
    SpliceSlice(t, 12, [0, 0, 0, 0], 16, 22);
    SpliceSlice(t, 12, [0, 0, 0, 0], 30, total);
    SpliceSlice(r, 22, pointer, 0, 2);
    SpliceSlice(r, 22, pointer, 2, 12);
    SpliceSlice(r, 22, pointer, 12, 16);
    SpliceSlice(r, 22, pointer, 16, 22);
    SpliceSlice(r, 22, pointer, 22, 30);
    SpliceSlice(r, 22, pointer, 30, total);
    Cut(q[..total], q);
  }

  lemma Cut(s: seq<Byte>, q: seq<Byte>)
    requires 30 <= |s| && s <= q
    ensures s == (q[0..2] + q[2..12]) + q[12..16] + q[16..22] + q[22..30] + q[30..|s|]
  {
  }

  /** Patches the indication in place: number for handle, long header, payload address. */
  method PatchDataInd(buf: array<Byte>, applId: nat, slot: nat, address: nat, ghost data: seq<Byte>)
    requires DataIndication(data, buf.Length) && ReadIn(buf[..], applId, data)
    modifies buf
    ensures LongHeaderLen(data) + PayloadLen(data) <= buf.Length
    ensures buf[..][..LongHeaderLen(data) + PayloadLen(data)] == Delivered(data, buf.Length, applId, slot, address)
  {
    hide Le, Num, Splice, AfterHeader, ReadIn, Lengthened, Delivered;
    ReplaceHandle(buf[..], applId, slot, data);
    SetU16(buf, 18, slot);
    ghost var t := buf[..];
    Lengths(t, applId, slot, data);
    var len := GetU16(buf, 0);
    var dataLen := GetU16(buf, 16);
    assert buf[0..2] == t[0..2] && buf[16..18] == t[16..18];
    if len < 30 {
      ShortHeaderGrows(t, applId, slot, data);
      assert buf[len..len + dataLen] == t[len..|data|];
      Move(buf, 30, len, dataLen);
      SetBytes(buf, 0, [30, 0]);
      len := 30;
    } else {
      LongHeaderStays(t, applId, slot, data);
    }
    PointerSet(buf[..], applId, slot, address, data);
    TotalFits(data, buf.Length);
    SetBytes(buf, 12, [0, 0, 0, 0]);
    SetBytes(buf, 22, Le(address + len, 8));
  }

  lemma Lengths(t: seq<Byte>, applId: nat, slot: nat, data: seq<Byte>)
    requires HandleReplaced(t, applId, slot, data)
    ensures t[0..2] == data[0..2] && t[16..18] == data[16..18]
  {
    hide Le;
    assert t[16..18] == t[16..22][..2];
  }

  lemma TotalFits(data: seq<Byte>, size: nat)
    requires DataIndication(data, size)
    ensures 30 <= LongHeaderLen(data) + PayloadLen(data) <= size
  {
  }

  // ---- what the application decodes ----

  function DataItems(): Items { Plains([0x03, DATA32, DATA_LENGTH, DATA_HANDLE, FLAGS, DATA64], Nil) }

  lemma PlainsStep(codes: seq<int>, rest: Items)
    requires codes != []
    ensures Plains(codes, rest) == Plain(codes[0], Plains(codes[1..], rest))
  {
  }

  lemma DataItemsList()
    ensures DataItems() ==
      Plain(0x03, Plain(DATA32, Plain(DATA_LENGTH, Plain(DATA_HANDLE, Plain(FLAGS, Plain(DATA64, Nil))))))
  {
    hide Plains;
    PlainsStep([0x03, DATA32, DATA_LENGTH, DATA_HANDLE, FLAGS, DATA64], Nil);
    PlainsStep([DATA32, DATA_LENGTH, DATA_HANDLE, FLAGS, DATA64], Nil);
    PlainsStep([DATA_LENGTH, DATA_HANDLE, FLAGS, DATA64], Nil);
    PlainsStep([DATA_HANDLE, FLAGS, DATA64], Nil);
    PlainsStep([FLAGS, DATA64], Nil);
    PlainsStep([DATA64], Nil);
    NoPlains();
    assert [0x03, DATA32, DATA_LENGTH, DATA_HANDLE, FLAGS, DATA64][1..]
        == [DATA32, DATA_LENGTH, DATA_HANDLE, FLAGS, DATA64];
    assert [DATA32, DATA_LENGTH, DATA_HANDLE, FLAGS, DATA64][1..] == [DATA_LENGTH, DATA_HANDLE, FLAGS, DATA64];
    assert [DATA_LENGTH, DATA_HANDLE, FLAGS, DATA64][1..] == [DATA_HANDLE, FLAGS, DATA64];
    assert [DATA_HANDLE, FLAGS, DATA64][1..] == [FLAGS, DATA64];
    assert [FLAGS, DATA64][1..] == [DATA64];
    assert [DATA64][1..] == [];
  }

  lemma NoPlains()
    ensures Plains([], Nil) == Nil
  {
  }

  /** One number is read and the reading goes on behind it. */
  lemma NumberStep(c: int, w: nat, rest: Items, buf: seq<Byte>, pos: nat, got: Fields)
    requires !TypOf(c).CStruct? && w == NumberSize(c) && pos + w <= |buf|
    ensures Parse(Plain(c, rest), buf, pos, got) == Parse(rest, buf, pos + w, got[c := Number(Num(buf[pos..pos + w]))])
  {
    hide TypOf, NumberSize, Num;
  }

  lemma DataSizes()
    ensures !TypOf(0x03).CStruct? && NumberSize(0x03) == 4
    ensures !TypOf(DATA32).CStruct? && NumberSize(DATA32) == 4
    ensures !TypOf(DATA_LENGTH).CStruct? && NumberSize(DATA_LENGTH) == 2
    ensures !TypOf(DATA_HANDLE).CStruct? && NumberSize(DATA_HANDLE) == 2
    ensures !TypOf(FLAGS).CStruct? && NumberSize(FLAGS) == 2
    ensures !TypOf(DATA64).CStruct? && NumberSize(DATA64) == 8
  {
  }

  function DataFields(buf: seq<Byte>, got: Fields): Fields
    requires |buf| >= 30
  {
    got[0x03 := Number(Num(buf[8..12]))][DATA32 := Number(Num(buf[12..16]))][DATA_LENGTH := Number(Num(buf[16..18]))]
       [DATA_HANDLE := Number(Num(buf[18..20]))][FLAGS := Number(Num(buf[20..22]))][DATA64 := Number(Num(buf[22..30]))]
  }

  lemma ParseData(buf: seq<Byte>, got: Fields)
    requires |buf| >= 30
    ensures Parse(DataItems(), buf, 8, got) == Done(DataFields(buf, got), 30)
  {
    hide Parse, TypOf, NumberSize, Num, DataItems;
    DataItemsList();
    DataSizes();
    var g1 := got[0x03 := Number(Num(buf[8..12]))];
    var g2 := g1[DATA32 := Number(Num(buf[12..16]))];
    var g3 := g2[DATA_LENGTH := Number(Num(buf[16..18]))];
    var g4 := g3[DATA_HANDLE := Number(Num(buf[18..20]))];
    var g5 := g4[FLAGS := Number(Num(buf[20..22]))];
    var t5 := Plain(DATA64, Nil);
    var t4 := Plain(FLAGS, t5);
    var t3 := Plain(DATA_HANDLE, t4);
    var t2 := Plain(DATA_LENGTH, t3);
    var t1 := Plain(DATA32, t2);
    NumberStep(0x03, 4, t1, buf, 8, got);
    NumberStep(DATA32, 4, t2, buf, 12, g1);
    NumberStep(DATA_LENGTH, 2, t3, buf, 16, g2);
    NumberStep(DATA_HANDLE, 2, t4, buf, 18, g3);
    NumberStep(FLAGS, 2, t5, buf, 20, g4);
    NumberStep(DATA64, 8, Nil, buf, 22, g5);
    ParseNil(Nil, buf, 30, DataFields(buf, got));
  }

  /** The parts of a delivered indication. */
  lemma DeliveredParts(data: seq<Byte>, size: nat, applId: nat, slot: nat, address: nat, buf: seq<Byte>)
    requires DataIndication(data, size) && Delivered(data, size, applId, slot, address) <= buf
    ensures |buf| >= 30
    ensures buf[0..2] == Le(LongHeaderLen(data), 2) && buf[4] == data[4] && buf[5] == data[5]
    ensures buf[8..12] == data[8..12] && buf[16..18] == data[16..18]
    ensures buf[18..20] == Le(slot, 2) && buf[20..22] == data[20..22]
    ensures buf[22..30] == Le(address + LongHeaderLen(data), 8)
    ensures LongHeaderLen(data) + PayloadLen(data) <= |buf|
    ensures buf[LongHeaderLen(data)..LongHeaderLen(data) + PayloadLen(data)] == data[HeaderLen(data)..]
  {
    hide Le, Num;
    var d := Delivered(data, size, applId, slot, address);
    var front := Le(applId, 2) + data[4..12];
    var middle := data[16..18] + Le(slot, 2) + data[20..22];
    var after := AfterHeader(data, size);
    Uncut(Le(LongHeaderLen(data), 2), front, [0, 0, 0, 0], middle, Le(address + LongHeaderLen(data), 8), after, d, buf);
    FrontParts(Le(applId, 2), data, buf);
    MiddleParts(data, Le(slot, 2), buf);
    if HeaderLen(data) >= 30 {
      assert buf[HeaderLen(data)..|d|] == buf[30..|d|][HeaderLen(data) - 30..] == data[HeaderLen(data)..];
    }
  }

  lemma Uncut(a: seq<Byte>, b: seq<Byte>, c: seq<Byte>, m: seq<Byte>, p: seq<Byte>, e: seq<Byte>,
              d: seq<Byte>, buf: seq<Byte>)
    requires |a| == 2 && |b| == 10 && |c| == 4 && |m| == 6 && |p| == 8
    requires d == (a + b) + c + m + p + e && d <= buf
    ensures |d| == 30 + |e|
    ensures buf[0..2] == a && buf[2..12] == b && buf[16..22] == m && buf[22..30] == p && buf[30..|d|] == e
  {
  }

  lemma FrontParts(id: seq<Byte>, data: seq<Byte>, buf: seq<Byte>)
    requires |id| == 2 && |data| >= 12 && |buf| >= 12 && buf[2..12] == id + data[4..12]
    ensures buf[4] == data[4] && buf[5] == data[5] && buf[8..12] == data[8..12]
  {
    assert buf[4] == buf[2..12][2] && buf[5] == buf[2..12][3];
    assert buf[8..12] == buf[2..12][6..10] == data[8..12];
  }

  lemma MiddleParts(data: seq<Byte>, handle: seq<Byte>, buf: seq<Byte>)
    requires |handle| == 2 && |data| >= 22 && |buf| >= 22
    requires buf[16..22] == data[16..18] + handle + data[20..22]
    ensures buf[16..18] == data[16..18] && buf[18..20] == handle && buf[20..22] == data[20..22]
  {
    var m := buf[16..22];
    assert buf[16..18] == m[0..2];
    assert buf[18..20] == m[2..4];
    assert buf[20..22] == m[4..6];
    assert m[0..2] == data[16..18];
    assert m[2..4] == handle;
  }

  /** Decoding a delivered indication: the connection, length and flags are the driver's, the handle
      is the buffer's number, and the data address designates exactly the payload that was read. */
  lemma IndicationArrives(data: seq<Byte>, size: nat, applId: nat, slot: nat, address: nat, buf: seq<Byte>)
    requires DataIndication(data, size) && Delivered(data, size, applId, slot, address) <= buf
    requires slot < 0x1_0000 && address + size < Pow256(8)
    ensures FromBytes(buf).Some?
    ensures var m := FromBytes(buf).value.msg;
            && {0x03, DATA_LENGTH, DATA_HANDLE, FLAGS} <= m.fields.Keys
            && m.fields[0x03] == Number(Num(data[8..12]))
            && m.fields[DATA_LENGTH] == Number(PayloadLen(data))
            && m.fields[DATA_HANDLE] == Number(slot)
            && m.fields[FLAGS] == Number(Num(data[20..22]))
            && address <= m.data && m.data - address + PayloadLen(data) <= |buf|
            && buf[m.data - address..m.data - address + PayloadLen(data)] == data[HeaderLen(data)..]
  {
    hide FromBytes, Zeroed, Num, Le, Delivered;
    DeliveredParts(data, size, applId, slot, address, buf);
    var pointer := address + LongHeaderLen(data);
    NumOfLe(slot, 2);
    assert Pow256(2) == 0x1_0000;
    NumOfLe(pointer, 8);
    Decoded(buf, pointer, slot);
    assert data[HeaderLen(data)..] == buf[LongHeaderLen(data)..LongHeaderLen(data) + PayloadLen(data)];
  }

  lemma Decoded(buf: seq<Byte>, pointer: nat, slot: nat)
    requires |buf| >= 30 && buf[4] as nat == DATA_B3 && buf[5] as nat == IND
    requires Num(buf[22..30]) == pointer && Num(buf[18..20]) == slot
    ensures FromBytes(buf).Some?
    ensures var m := FromBytes(buf).value.msg;
            m.fields == DataFields(buf, Zeroed()) && m.data == pointer
  {
    hide Tree, CommandIndex, Parse, Zeroed, Num, Le, Plains;
    DataTree(IND);
    ParseData(buf, Zeroed());
  }

  /** The answer carries the number of the indication where the driver module looks for it. */
  lemma AnswerCarriesNumber(msg: Message, slot: nat)
    requires Sendable(msg) && msg.command == DATA_B3 && msg.subcommand == RESP && slot < 0x1_0000
    requires DATA_HANDLE in msg.fields && msg.fields[DATA_HANDLE] == Number(slot)
    ensures |ToBytes(msg)| == 14 && Num(ToBytes(msg)[12..14]) == slot
    ensures ToBytes(msg)[4] as nat == DATA_B3 && ToBytes(msg)[5] as nat == RESP
  {
    RespTree();
    RespItems();
    DataSizes();
    var body := Written(TreeOf(msg.command, msg.subcommand).value, msg.fields);
    var adr := msg.fields[0x03];
    RespWritten(msg.fields, adr.n, slot);
    assert Pow256(2) == 0x1_0000;
    NumOfLe(slot, 2);
    assert ToBytes(msg)[12..14] == body[4..6] == Le(slot, 2);
  }

  lemma RespTree()
    ensures TreeOf(DATA_B3, RESP) == Some(Plains([0x03, DATA_HANDLE], Nil))
  {
    hide Plains;
  }

  lemma RespItems()
    ensures Plains([0x03, DATA_HANDLE], Nil) == Plain(0x03, Plain(DATA_HANDLE, Nil))
  {
    hide Plains;
    PlainsStep([0x03, DATA_HANDLE], Nil);
    PlainsStep([DATA_HANDLE], Nil);
    NoPlains();
    assert [0x03, DATA_HANDLE][1..] == [DATA_HANDLE];
    assert [DATA_HANDLE][1..] == [];
  }

  lemma RespWritten(fields: Fields, adr: nat, slot: nat)
    requires Covers(Plain(0x03, Plain(DATA_HANDLE, Nil)), fields)
    requires 0x03 in fields && fields[0x03] == Number(adr)
    requires DATA_HANDLE in fields && fields[DATA_HANDLE] == Number(slot)
    ensures Written(Plain(0x03, Plain(DATA_HANDLE, Nil)), fields) == Le(adr, 4) + Le(slot, 2)
  {
    hide Le;
    DataSizes();
    var last := Plain(DATA_HANDLE, Nil);
    assert Covers(last, fields);
    assert Written(last, fields) == Le(slot, 2) + Written(Nil, fields);
    assert Written(Nil, fields) == [];
  }
}
