/** Data on its way out: from the fields of a DATA_B3_REQ to the bytes the driver is given. */
module OutgoingData {
  import opened Buffers
  import opened CapiDescriptor
  import opened CapiWire
  import opened CapiCodec
  import opened CapiTable
  import opened CapiLayout
  import opened CapiMessages
  import opened BufferPool
  import opened StdModule
  import opened StdPort

  predicate IsDataRequest(m: Message) {
    m.command == 0x86 && m.subcommand == 0x80
  }

  /** A data request that can be sent has all its fields. */
  lemma RequestFields(m: Message)
    requires Sendable(m) && IsDataRequest(m)
    ensures m.applId < 0x1_0000 && m.number < 0x1_0000 && m.data < 0x1_0000_0000_0000_0000
    ensures HasNumber(m.fields, Controller, 0x1_0000_0000) && HasNumber(m.fields, DataLength, 0x1_0000)
    ensures HasNumber(m.fields, DataHandle, 0x1_0000) && HasNumber(m.fields, DataFlags, 0x1_0000)
  {
    hide Tree, CommandIndex, LayoutOf, Filled, Image, Code, Standard, ToBytes, MessageImage, HasNumber, HasLong;
    DataLayout(0x80);
    ImageIsSent(m);
    DataTransmits(SentFields(m));
    NumbersKept(m);
  }

  lemma NumbersKept(m: Message)
    requires IsDataRequest(m)
    ensures forall field, bound {:trigger HasNumber(m.fields, field, bound)} ::
              field in {Controller, DataLength, DataHandle, DataFlags} && HasNumber(SentFields(m), field, bound) ==>
                HasNumber(m.fields, field, bound)
    ensures HasNumber(SentFields(m), Data64, 0x1_0000_0000_0000_0000) ==> m.data < 0x1_0000_0000_0000_0000
  {
  }

  function DataLen(m: Message): nat
    requires HasNumber(m.fields, DataLength, 0x1_0000)
  {
    m.fields[Code(DataLength)].n
  }

  /** The thirty bytes of a data request. */
  function RequestBytes(m: Message): (s: seq<Byte>)
    requires HasNumber(m.fields, Controller, 0x1_0000_0000) && HasNumber(m.fields, DataLength, 0x1_0000)
    requires HasNumber(m.fields, DataHandle, 0x1_0000) && HasNumber(m.fields, DataFlags, 0x1_0000)
    ensures |s| == 30
  {
    [30, 0] + Bytes2(m.applId) + [0x86, 0x80] + Bytes2(m.number)
    + Bytes4(m.fields[Code(Controller)].n) + [0, 0, 0, 0]
    + Bytes2(DataLen(m)) + Bytes2(m.fields[Code(DataHandle)].n) + Bytes2(m.fields[Code(DataFlags)].n)
    + Bytes8(m.data)
  }

  lemma RequestIsThirtyBytes(m: Message)
    requires Sendable(m) && IsDataRequest(m)
    ensures HasNumber(m.fields, Controller, 0x1_0000_0000) && HasNumber(m.fields, DataLength, 0x1_0000)
    ensures HasNumber(m.fields, DataHandle, 0x1_0000) && HasNumber(m.fields, DataFlags, 0x1_0000)
    ensures ToBytes(m) == RequestBytes(m)
  {
    hide Tree, CommandIndex, LayoutOf, Sendable, ToBytes, Standard, Bytes2, Bytes4, Bytes8, Image, Filled, HasLong,
         Code;
    RequestFields(m);
    DataLayout(0x80);
    ImageIsSent(m);
    DataTransmits(SentFields(m));
    DataImage(SentFields(m));
    ZeroBytes();
    FieldsKept(m);
    ThirtyBytes(SentFields(m));
    var f := SentFields(m);
    Joined(HeadBytes(30, m.applId, 0x86, 0x80, m.number), Bytes4(f[Code(Controller)].n), Bytes4(f[Code(Data32)].n),
           Bytes2(f[Code(DataLength)].n), Bytes2(f[Code(DataHandle)].n), Bytes2(f[Code(DataFlags)].n),
           Bytes8(f[Code(Data64)].n));
  }

  lemma Joined(h: seq<Byte>, a: seq<Byte>, b: seq<Byte>, c: seq<Byte>, d: seq<Byte>, e: seq<Byte>, f: seq<Byte>)
    ensures h + (a + b + c + d + e + f) == h + a + b + c + d + e + f
  {
  }

  lemma ThirtyBytes(f: Fields)
    requires Filled(DataMessage(), f)
    ensures |Image(DataMessage(), f)| == 22
  {
    DataImage(f);
    hide Image, Filled, Code;
  }

  lemma ZeroBytes()
    ensures Bytes4(0) == [0, 0, 0, 0] && Bytes2(30) == [30, 0]
  {
  }

  /** What is patched in leaves the other fields alone. */
  lemma FieldsKept(m: Message)
    requires IsDataRequest(m)
    ensures
      var f := SentFields(m);
      && f[Code(Data32)] == Number(0) && f[Code(Data64)] == Number(m.data)
      && (forall field <- {Controller, DataLength, DataHandle, DataFlags} ::
            Code(field) in m.fields ==> Code(field) in f && f[Code(field)] == m.fields[Code(field)])
  {
  }

  lemma DataImage(f: Fields)
    requires Filled(DataMessage(), f)
    ensures HasNumber(f, Data64, 0x1_0000_0000_0000_0000) && HasNumber(f, DataLength, 0x1_0000)
    ensures HasNumber(f, Data32, 0x1_0000_0000) && HasNumber(f, Controller, 0x1_0000_0000)
    ensures HasNumber(f, DataHandle, 0x1_0000) && HasNumber(f, DataFlags, 0x1_0000)
    ensures
      Image(DataMessage(), f)
      == Bytes4(f[Code(Controller)].n) + Bytes4(f[Code(Data32)].n) + Bytes2(f[Code(DataLength)].n)
         + Bytes2(f[Code(DataHandle)].n) + Bytes2(f[Code(DataFlags)].n) + Bytes8(f[Code(Data64)].n)
    ensures !HasLong(DataMessage(), f)
  {
    hide Code, Bytes2, Bytes4, Bytes8;
    DataTransmits(f);
    var l1 := U64(Data64, End);
    var l2 := U16(DataFlags, l1);
    var l3 := U16(DataHandle, l2);
    var l4 := U16(DataLength, l3);
    var l5 := U32(Data32, l4);
    assert Filled(l5, f) && Filled(l4, f) && Filled(l3, f) && Filled(l2, f) && Filled(l1, f);
    assert Image(End, f) == [];
    assert Image(l1, f) == Bytes8(f[Code(Data64)].n) + Image(End, f);
    assert Image(l2, f) == Bytes2(f[Code(DataFlags)].n) + Image(l1, f);
    assert Image(l3, f) == Bytes2(f[Code(DataHandle)].n) + Image(l2, f);
    assert Image(l4, f) == Bytes2(f[Code(DataLength)].n) + Image(l3, f);
    assert Image(l5, f) == Bytes4(f[Code(Data32)].n) + Image(l4, f);
    assert !HasLong(l1, f) && !HasLong(l2, f) && !HasLong(l3, f) && !HasLong(l4, f) && !HasLong(l5, f);
  }

  /** Where the library looks into a data request. */
  lemma RequestParts(m: Message, buf: seq<Byte>)
    requires HasNumber(m.fields, Controller, 0x1_0000_0000) && HasNumber(m.fields, DataLength, 0x1_0000)
    requires HasNumber(m.fields, DataHandle, 0x1_0000) && HasNumber(m.fields, DataFlags, 0x1_0000)
    requires m.data < 0x1_0000_0000_0000_0000 && RequestBytes(m) <= buf
    ensures |buf| >= 30 && buf[4] == 0x86 && buf[5] == 0x80
    ensures Num(buf[0..2]) == 30 && Num(buf[16..18]) == DataLen(m)
    ensures Num(buf[22..30]) == m.data
  {
    hide Code, Bytes2, Bytes4, Bytes8, Num;
    var s := RequestBytes(m);
    Widths(m);
    assert s[0..2] == [30, 0] && s[4] == 0x86 && s[5] == 0x80;
    assert s[16..18] == Bytes2(DataLen(m));
    assert s[22..30] == Bytes8(m.data);
    assert buf[0..2] == s[0..2] && buf[16..18] == s[16..18] && buf[22..30] == s[22..30];
    ZeroBytes();
    Powers();
    NumbersAsBytes(30);
    NumbersAsBytes(DataLen(m));
    NumbersAsBytes(m.data);
    NumOfLe(30, 2);
    NumOfLe(DataLen(m), 2);
    NumOfLe(m.data, 8);
  }

  lemma Widths(m: Message)
    requires HasNumber(m.fields, Controller, 0x1_0000_0000) && HasNumber(m.fields, DataLength, 0x1_0000)
    requires HasNumber(m.fields, DataHandle, 0x1_0000) && HasNumber(m.fields, DataFlags, 0x1_0000)
    ensures |Bytes2(m.applId)| == 2 && |Bytes2(m.number)| == 2 && |Bytes4(m.fields[Code(Controller)].n)| == 4
    ensures |Bytes2(DataLen(m))| == 2 && |Bytes2(m.fields[Code(DataHandle)].n)| == 2
    ensures |Bytes2(m.fields[Code(DataFlags)].n)| == 2 && |Bytes8(m.data)| == 8
  {
  }

  // ---- the code ----

  /** A data request of the application, handed over: unless it is too long, the driver gets its thirty
      bytes and then the data: the block its address designates, or, without an address, what stands
      behind it already. */
  method PutRequest(port: Port, msg: array<Byte>, designated: seq<Byte>, ghost m: Message) returns (length: nat)
    requires port.Valid() && Sendable(m) && IsDataRequest(m)
    requires HasNumber(m.fields, DataLength, 0x1_0000)
    requires 30 <= msg.Length && msg[..][..30] == ToBytes(m)
    requires 30 + DataLen(m) <= 2176 ==> 30 + DataLen(m) <= msg.Length
    requires m.data != 0 ==> |designated| == DataLen(m)
    modifies port.app, port.app.buffers, msg
    ensures port.Valid() && port.app.View() == old(port.app.View())
    ensures 30 + DataLen(m) > 2176 ==> length == 0x1108 && msg[..] == old(msg[..])
    ensures 30 + DataLen(m) <= 2176 ==>
              && length == 30 + DataLen(m) <= msg.Length
              && msg[..][..30] == ToBytes(m)
              && msg[..][30..length] == if m.data != 0 then designated else old(msg[..])[30..length]
  {
    RequestReady(m, msg[..], designated, port.app.View());
    if 30 + DataLen(m) <= 2176 {
      RequestBytesSent(m, msg[..], designated, port.app.View());
    }
    hide *;
    length := port.ProcessMessage(msg, designated);
    SplitAtThirty(msg[..], length);
  }

  lemma SplitAtThirty(s: seq<Byte>, length: nat)
    ensures 30 <= length <= |s| ==> s[..length] == s[..30] + s[30..length]
  {
  }

  lemma RequestReady(m: Message, buf: seq<Byte>, designated: seq<Byte>, p: Pool)
    requires Sendable(m) && IsDataRequest(m) && HasNumber(m.fields, DataLength, 0x1_0000)
    requires 30 <= |buf| && buf[..30] == ToBytes(m)
    requires 30 + DataLen(m) <= 2176 ==> 30 + DataLen(m) <= |buf|
    requires m.data != 0 ==> |designated| == DataLen(m)
    ensures Outgoing(buf, designated, p) && !Answer(buf) && PutEvents(buf) == []
    ensures AfterPut(p, buf, 0) == p
    ensures Refused(buf) <==> 30 + DataLen(m) > 2176
  {
    RequestIsThirtyBytes(m);
    RequestFields(m);
    assert RequestBytes(m) <= buf;
    RequestParts(m, buf);
    hide Num, ToBytes, Sendable, RequestBytes, Code;
  }

  lemma RequestBytesSent(m: Message, buf: seq<Byte>, designated: seq<Byte>, p: Pool)
    requires Sendable(m) && IsDataRequest(m) && HasNumber(m.fields, DataLength, 0x1_0000)
    requires 30 <= |buf| && buf[..30] == ToBytes(m) && 30 + DataLen(m) <= 2176 && 30 + DataLen(m) <= |buf|
    requires m.data != 0 ==> |designated| == DataLen(m)
    ensures Outgoing(buf, designated, p) && !Refused(buf)
    ensures BytesSent(buf, designated, p) == ToBytes(m) + if m.data != 0 then designated else buf[30..30 + DataLen(m)]
  {
    RequestReady(m, buf, designated, p);
    RequestIsThirtyBytes(m);
    RequestFields(m);
    assert RequestBytes(m) <= buf;
    RequestParts(m, buf);
    hide Num, ToBytes, Sendable, RequestBytes, Code;
  }

  /** From the message structure to the driver: the request is encoded into `msg` and handed over.
      `behind` is what stands behind the encoded request. */
  method SendData(port: Port, cmsg: Cmsg, msg: array<Byte>, designated: seq<Byte>)
    returns (length: nat, ghost behind: seq<Byte>)
    requires port.Valid() && Sendable(MessageOf(cmsg)) && IsDataRequest(MessageOf(cmsg))
    requires HasNumber(cmsg.fields, DataLength, 0x1_0000)
    requires 32 <= msg.Length && (30 + DataLen(MessageOf(cmsg)) <= 2176 ==> 30 + DataLen(MessageOf(cmsg)) <= msg.Length)
    requires cmsg.data != 0 ==> |designated| == DataLen(MessageOf(cmsg))
    modifies port.app, port.app.buffers, msg, cmsg
    ensures port.Valid() && port.app.View() == old(port.app.View())
    ensures
      var m := old(MessageOf(cmsg));
      && HasNumber(m.fields, Controller, 0x1_0000_0000) && HasNumber(m.fields, DataHandle, 0x1_0000)
      && HasNumber(m.fields, DataFlags, 0x1_0000)
      && (30 + DataLen(m) > 2176 ==> length == 0x1108)
      && (30 + DataLen(m) <= 2176 ==>
            && length == 30 + DataLen(m) <= msg.Length && |behind| == msg.Length - 30
            && msg[..][..length]
               == RequestBytes(m) + if m.data != 0 then designated else behind[..DataLen(m)])
  {
    ghost var m := MessageOf(cmsg);
    RequestIsThirtyBytes(m);
    hide *;
    Cmsg2Message(cmsg, msg);
    behind := msg[..][30..];
    assert Held(msg, 30) == msg[..][..30];
    length := PutRequest(port, msg, designated, m);
    SplitAtThirty(msg[..], length);
  }
}
