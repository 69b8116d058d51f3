/** Whole CAPI 2.0 messages: the eight-byte header in front of the parameters, and the round trips
    between the message structure and the message bytes. */
module CapiMessages {
  import opened CapiDescriptor
  import opened CapiWire
  import opened Buffers
  import opened CapiReencode
  import opened CapiCodec
  import opened CapiTable
  import opened CapiLayout

  const DATA_B3 := 0x86
  const REQ := 0x80
  const IND := 0x82
  const RESP := 0x83

  const DATA32: int := 0x18
  const DATA_HANDLE: int := 0x19
  const DATA_LENGTH: int := 0x1a
  const FLAGS: int := 0x21

  /** A message as the application sees it.  `data` is the address of the data block, carried by
      data messages only. */
  datatype Message = Message(applId: nat, command: nat, subcommand: nat, number: nat, fields: Fields, data: nat)

  predicate CarriesData(command: nat, subcommand: nat) {
    command == DATA_B3 && (subcommand == REQ || subcommand == IND)
  }

  /** The parameters that are encoded: on a 64-bit machine the data address goes into Data64. */
  function Patched(msg: Message): Fields {
    if CarriesData(msg.command, msg.subcommand)
    then msg.fields[DATA32 := Number(0)][DATA64 := Number(msg.data)]
    else msg.fields
  }

  function TreeOf(command: nat, subcommand: nat): Option<Items> {
    Tree(CommandIndex(command, subcommand))
  }

  /** The structure holds a known command and a value for each parameter it transmits. */
  predicate Sendable(msg: Message) {
    && msg.applId < 0x1_0000 && msg.number < 0x1_0000 && msg.command < 0x100 && msg.subcommand < 0x100
    && TreeOf(msg.command, msg.subcommand).Some?
    && Covers(TreeOf(msg.command, msg.subcommand).value, Patched(msg))
  }

  function Header(length: nat, applId: nat, command: nat, subcommand: nat, number: nat): (s: seq<Byte>)
    requires command < 0x100 && subcommand < 0x100
    ensures |s| == 8
  {
    Le(length, 2) + Le(applId, 2) + [command as Byte, subcommand as Byte] + Le(number, 2)
  }

  /** The bytes the library builds for a message. */
  function ToBytes(msg: Message): seq<Byte>
    requires Sendable(msg)
  {
    var body := Written(TreeOf(msg.command, msg.subcommand).value, Patched(msg));
    Header(8 + |body|, msg.applId, msg.command, msg.subcommand, msg.number) + body
  }

  /** The bytes the standard asks for. */
  function Standard(msg: Message): seq<Byte>
    requires Sendable(msg)
  {
    var body := Encode(TreeOf(msg.command, msg.subcommand).value, Patched(msg));
    Header(8 + |body|, msg.applId, msg.command, msg.subcommand, msg.number) + body
  }

  predicate Fits(msg: Message)
    requires Sendable(msg)
  {
    8 + |Encode(TreeOf(msg.command, msg.subcommand).value, Patched(msg))| < 0x1_0000
  }

  predicate HasOversizeGroup(msg: Message)
    requires Sendable(msg)
  {
    Oversize(TreeOf(msg.command, msg.subcommand).value, Patched(msg))
  }

  /** What the decoder finds: the message, the length its header claims, and where reading stopped. */
  datatype Received = Received(msg: Message, length: nat, consumed: nat)

  /** A cleared structure. */
  function Zeroed(): Fields {
    map c: int | 0x03 <= c < 0x34 ::
      match TypOf(c)
      case CStruct => Struct([])
      case CMstruct => Mode(true)
      case _ => Number(0)
  }

  lemma Data64Read(command: nat, subcommand: nat, buf: seq<Byte>)
    requires TreeOf(command, subcommand).Some? && Parse(TreeOf(command, subcommand).value, buf, 8, Zeroed()).Done?
    ensures var f := Parse(TreeOf(command, subcommand).value, buf, 8, Zeroed()).fields;
            DATA64 in f && f[DATA64].Number?
  {
    hide Parse, Tree, CommandIndex, Distinct, GroupsStartPlain;
    TableWellFormed(CommandIndex(command, subcommand));
    NumbersStay(TreeOf(command, subcommand).value, buf, 8, Zeroed(), DATA64);
  }

  function FromBytes(buf: seq<Byte>): Option<Received> {
    if |buf| < 8 then None
    else
      var command, subcommand := buf[4] as nat, buf[5] as nat;
      match TreeOf(command, subcommand)
      case None => None
      case Some(tree) =>
        match Parse(tree, buf, 8, Zeroed())
        case Overrun => None
        case Done(fields, consumed) =>
          Data64Read(command, subcommand, buf);
          var data := if CarriesData(command, subcommand) then fields[DATA64].n else 0;
          Some(Received(Message(Num(buf[2..4]), command, subcommand, Num(buf[6..8]), fields, data),
                        Num(buf[0..2]), consumed))
  }

  // ---- round trips ----

  lemma HeaderParts(buf: seq<Byte>, length: nat, applId: nat, command: nat, subcommand: nat, number: nat)
    requires length < 0x1_0000 && applId < 0x1_0000 && number < 0x1_0000 && command < 0x100 && subcommand < 0x100
    requires 8 <= |buf| && buf[..8] == Header(length, applId, command, subcommand, number)
    ensures Num(buf[0..2]) == length && Num(buf[2..4]) == applId && Num(buf[6..8]) == number
    ensures buf[4] as nat == command && buf[5] as nat == subcommand
  {
    var h := buf[..8];
    assert Pow256(2) == 0x1_0000;
    NumOfLe(length, 2);
    NumOfLe(applId, 2);
    NumOfLe(number, 2);
    assert buf[0..2] == h[0..2] == Le(length, 2);
    assert buf[2..4] == h[2..4] == Le(applId, 2);
    assert buf[6..8] == h[6..8] == Le(number, 2);
    assert buf[4] == h[4] && buf[5] == h[5];
  }

  /** A message comes out as the standard asks exactly when no composed group reaches 255 bytes. */
  lemma LibraryMeetsStandard(msg: Message)
    requires Sendable(msg)
    ensures ToBytes(msg) == Standard(msg) <==> !HasOversizeGroup(msg)
    ensures HasOversizeGroup(msg) ==> |ToBytes(msg)| < |Standard(msg)|
  {
    hide TreeOf, Covers, Header, Patched;
    OversizeLosesBytes(TreeOf(msg.command, msg.subcommand).value, Patched(msg));
  }

  /** An ALERT_REQ with a keypad facility of 255 bytes in its additional information. */
  function LongAlert(): Message {
    Message(1, 0x01, REQ, 1, LongAlertFields(), 0)
  }

  function LongKeypad(): (s: seq<Byte>)
    ensures |s| == 255 && StructSize(s, 0) == Some(255)
  {
    [254] + seq(254, i => 0)
  }

  function LongAlertFields(): Fields {
    map[0x03 := Number(1), ADDITIONAL_INFO := Mode(true), 0x0c := Struct([]), 0x28 := Struct(LongKeypad()),
        0x30 := Struct([]), 0x1c := Struct([]), 0x32 := Struct([])]
  }

  /** A message the library does not send as the standard asks. */
  lemma LongAlertCut()
    ensures Sendable(LongAlert()) && HasOversizeGroup(LongAlert())
    ensures ToBytes(LongAlert()) != Standard(LongAlert())
  {
    var f := LongAlertFields();
    LongAlertValues();
    LongAlertTree();
    hide IsPlain, ValueOk, TypOf, EncodeValue, Covers, Encode, Oversize, LongAlertFields, TreeOf, ToBytes, Standard;
    var t4 := Plain(0x32, Nil);
    var t3 := Plain(0x1c, t4);
    var t2 := Plain(0x30, t3);
    var t1 := Plain(0x28, t2);
    var t0 := Plain(0x0c, t1);
    NilCovered(f);
    PlainCovered(0x32, Nil, f);
    PlainCovered(0x1c, t4, f);
    PlainCovered(0x30, t3, f);
    PlainCovered(0x28, t2, f);
    PlainCovered(0x0c, t1, f);
    GroupOversize(ADDITIONAL_INFO, t0, f);
    PlainCovered(0x03, Group(ADDITIONAL_INFO, t0, Nil), f);
    LibraryMeetsStandard(LongAlert());
  }

  lemma LongAlertValues()
    ensures
      var f := LongAlertFields();
      && (forall c <- {0x03, 0x0c, 0x28, 0x30, 0x1c, 0x32} :: IsPlain(c) && c in f && ValueOk(c, f[c]))
      && ADDITIONAL_INFO in f && f[ADDITIONAL_INFO] == Mode(true) && TypOf(ADDITIONAL_INFO).CMstruct?
      && |EncodeValue(0x28, f[0x28])| == 255
  {
    hide LongKeypad, StructSize;
  }

  lemma NilCovered(fields: Fields)
    ensures Covers(Nil, fields) && Encode(Nil, fields) == [] && !Oversize(Nil, fields)
  {
  }

  lemma PlainCovered(c: int, rest: Items, fields: Fields)
    requires IsPlain(c) && c in fields && ValueOk(c, fields[c]) && Covers(rest, fields)
    ensures Covers(Plain(c, rest), fields)
    ensures |Encode(Plain(c, rest), fields)| == |EncodeValue(c, fields[c])| + |Encode(rest, fields)|
    ensures Oversize(Plain(c, rest), fields) == Oversize(rest, fields)
  {
  }

  lemma GroupOversize(c: int, body: Items, fields: Fields)
    requires TypOf(c).CMstruct? && c in fields && fields[c] == Mode(true)
    requires Covers(body, fields) && |Encode(body, fields)| >= 255
    ensures Covers(Group(c, body, Nil), fields) && Oversize(Group(c, body, Nil), fields)
  {
  }

  lemma LongAlertTree()
    ensures
      var body := Plain(0x0c, Plain(0x28, Plain(0x30, Plain(0x1c, Plain(0x32, Nil)))));
      TreeOf(0x01, REQ) == Some(Plain(0x03, Group(ADDITIONAL_INFO, body, Nil)))
  {
    assert ADDITIONAL_PARAMETERS[1..][1..][1..][1..][1..] == [];
    assert [0x03][1..] == [];
  }

  /** The message the receiver of `msg` sees. */
  function Echo(msg: Message): Message
    requires Sendable(msg)
  {
    msg.(fields := Store(TreeOf(msg.command, msg.subcommand).value, Patched(msg), Zeroed()),
         data := if CarriesData(msg.command, msg.subcommand) then msg.data else 0)
  }

  /** Every transmitted parameter of the echo has the value that was sent. */
  lemma EchoFields(msg: Message, c: int)
    requires Sendable(msg) && c in Sent(TreeOf(msg.command, msg.subcommand).value, Patched(msg))
    ensures c in Echo(msg).fields && c in Patched(msg) && Echo(msg).fields[c] == Normal(Patched(msg)[c])
  {
    StoredFields(TreeOf(msg.command, msg.subcommand).value, Patched(msg), Zeroed(), c);
  }

  lemma {:induction false} PlainsSent(codes: seq<int>, rest: Items, fields: Fields, c: int)
    requires Covers(Plains(codes, rest), fields) && c in codes
    ensures c in Sent(Plains(codes, rest), fields)
  {
    hide TypOf, ValueOk, IsPlain;
    if c != codes[0] {
      PlainsSent(codes[1..], rest, fields, c);
    }
  }

  lemma DataTree(subcommand: nat)
    requires subcommand == REQ || subcommand == IND
    ensures TreeOf(DATA_B3, subcommand) == Some(Plains([0x03, 0x18, 0x1a, 0x19, 0x21, 0x31], Nil))
  {
    hide Plains;
  }

  lemma DataArrives(msg: Message)
    requires Sendable(msg) && CarriesData(msg.command, msg.subcommand)
    ensures DATA64 in Echo(msg).fields && Echo(msg).fields[DATA64] == Number(msg.data)
  {
    hide TypOf, ValueOk, IsPlain, Tree;
    DataTree(msg.subcommand);
    PlainsSent([0x03, 0x18, 0x1a, 0x19, 0x21, 0x31], Nil, Patched(msg), DATA64);
    EchoFields(msg, DATA64);
  }

  /** Encoding and then decoding gives back the message; reading stops where the header says the
      message ends, whatever follows it in the buffer. */
  lemma RoundTrip(msg: Message, tail: seq<Byte>)
    requires Sendable(msg) && Fits(msg) && !HasOversizeGroup(msg)
    ensures FromBytes(ToBytes(msg) + tail) == Some(Received(Echo(msg), |ToBytes(msg)|, |ToBytes(msg)|))
  {
    hide Covers, Parse, Encode, Written, Oversize, Store, Tree, CommandIndex, Header, Zeroed, Patched, CarriesData;
    var tree := TreeOf(msg.command, msg.subcommand).value;
    var body := Encode(tree, Patched(msg));
    var buf := ToBytes(msg) + tail;
    OversizeLosesBytes(tree, Patched(msg));
    assert buf[..8] == Header(8 + |body|, msg.applId, msg.command, msg.subcommand, msg.number);
    HeaderParts(buf, 8 + |body|, msg.applId, msg.command, msg.subcommand, msg.number);
    assert buf[8..8 + |body|] == body;
    TableWellFormed(CommandIndex(msg.command, msg.subcommand));
    ParseEncoded(tree, Patched(msg), buf, 8, Zeroed());
    if CarriesData(msg.command, msg.subcommand) {
      DataArrives(msg);
    }
  }

  /** The received bytes are laid out as the standard's encoder would lay them out: exact lengths
      everywhere, and no 32-bit data address. */
  predicate CanonicalBytes(buf: seq<Byte>)
    requires FromBytes(buf).Some?
  {
    var r := FromBytes(buf).value;
    && r.length == r.consumed
    && Canonical(TreeOf(r.msg.command, r.msg.subcommand).value, buf, 8, Zeroed())
    && (CarriesData(r.msg.command, r.msg.subcommand) ==> DATA32 in r.msg.fields && r.msg.fields[DATA32] == Number(0))
  }

  /** Everything the library sends that fits the standard is canonical when it is received. */
  lemma SentIsCanonical(msg: Message, tail: seq<Byte>)
    requires Sendable(msg) && Fits(msg) && !HasOversizeGroup(msg)
    ensures FromBytes(ToBytes(msg) + tail).Some? && CanonicalBytes(ToBytes(msg) + tail)
  {
    hide Covers, Parse, Encode, Written, Oversize, Store, Tree, CommandIndex, Header, Zeroed, Patched, CarriesData,
         Canonical, FromBytes;
    var tree := TreeOf(msg.command, msg.subcommand).value;
    var body := Encode(tree, Patched(msg));
    var buf := ToBytes(msg) + tail;
    OversizeLosesBytes(tree, Patched(msg));
    assert buf[8..8 + |body|] == body;
    TableWellFormed(CommandIndex(msg.command, msg.subcommand));
    RoundTrip(msg, tail);
    EncodedCanonical(tree, Patched(msg), buf, 8, Zeroed());
    if CarriesData(msg.command, msg.subcommand) {
      Data32Arrives(msg);
    }
  }

  lemma Data32Arrives(msg: Message)
    requires Sendable(msg) && CarriesData(msg.command, msg.subcommand)
    ensures DATA32 in Echo(msg).fields && Echo(msg).fields[DATA32] == Number(0)
  {
    hide TypOf, ValueOk, IsPlain, Tree;
    DataTree(msg.subcommand);
    PlainsSent([0x03, 0x18, 0x1a, 0x19, 0x21, 0x31], Nil, Patched(msg), DATA32);
    EchoFields(msg, DATA32);
  }

  lemma PatchChangesNothing(msg: Message)
    requires CarriesData(msg.command, msg.subcommand) ==>
               && DATA32 in msg.fields && msg.fields[DATA32] == Number(0)
               && DATA64 in msg.fields && msg.fields[DATA64] == Number(msg.data)
    ensures Patched(msg) == msg.fields
  {
  }

  lemma HeaderRestored(buf: seq<Byte>)
    requires |buf| >= 8
    ensures Num(buf[0..2]) < 0x1_0000 && Num(buf[2..4]) < 0x1_0000 && Num(buf[6..8]) < 0x1_0000
    ensures Header(Num(buf[0..2]), Num(buf[2..4]), buf[4] as nat, buf[5] as nat, Num(buf[6..8])) == buf[..8]
  {
    assert Pow256(2) == 0x1_0000;
    LeOfNum(buf[0..2]);
    LeOfNum(buf[2..4]);
    LeOfNum(buf[6..8]);
    assert buf[0..2] + buf[2..4] + [buf[4], buf[5]] + buf[6..8] == buf[..8];
  }

  /** Decoding a canonical message and encoding the result gives back its bytes. */
  lemma BytesRoundTrip(buf: seq<Byte>)
    requires FromBytes(buf).Some? && CanonicalBytes(buf)
    ensures var r := FromBytes(buf).value;
            && r.consumed <= |buf|
            && Sendable(r.msg)
            && Standard(r.msg) == buf[..r.consumed]
            && (!HasOversizeGroup(r.msg) ==> ToBytes(r.msg) == buf[..r.consumed])
  {
    hide Covers, Parse, Encode, Written, Oversize, Tree, CommandIndex, Header, Zeroed, Patched, CarriesData, Canonical,
         Distinct, GroupsStartPlain, TypOf;
    var r := FromBytes(buf).value;
    var tree := TreeOf(r.msg.command, r.msg.subcommand).value;
    TableWellFormed(CommandIndex(r.msg.command, r.msg.subcommand));
    Data64Read(r.msg.command, r.msg.subcommand, buf);
    PatchChangesNothing(r.msg);
    Reencode(tree, buf, 8, Zeroed(), r.msg.fields);
    HeaderRestored(buf);
    assert buf[..8] + buf[8..r.consumed] == buf[..r.consumed];
    LibraryMeetsStandard(r.msg);
  }

  // ---- messages as they lie in memory ----

  /** The fields a message is sent with: on a 64-bit machine a data message has its data's address in
      the last of them. */
  function SentFields(msg: Message): Fields {
    if msg.command == 0x86 && (msg.subcommand == 0x80 || msg.subcommand == 0x82)
    then msg.fields[Code(Data32) := Number(0)][Code(Data64) := Number(msg.data)]
    else msg.fields
  }

  /** The eight bytes in front of the parameters. */
  function HeadBytes(length: nat, applId: nat, command: nat, subcommand: nat, number: nat): seq<Byte>
    requires command < 0x100 && subcommand < 0x100
  {
    Bytes2(length) + Bytes2(applId) + [command as Byte, subcommand as Byte] + Bytes2(number)
  }

  /** A message of the protocol with a fitting value for each of its fields. */
  predicate WellFilled(msg: Message) {
    && msg.applId < 0x1_0000 && msg.number < 0x1_0000 && msg.command < 0x100 && msg.subcommand < 0x100
    && LayoutOf(msg.command, msg.subcommand).Some?
    && Filled(LayoutOf(msg.command, msg.subcommand).value, SentFields(msg))
  }

  /** The message, byte by byte. */
  function MessageImage(msg: Message): seq<Byte>
    requires WellFilled(msg)
  {
    var body := Image(LayoutOf(msg.command, msg.subcommand).value, SentFields(msg));
    HeadBytes(8 + |body|, msg.applId, msg.command, msg.subcommand, msg.number) + body
  }

  predicate HasLongStructure(msg: Message)
    requires WellFilled(msg)
  {
    HasLong(LayoutOf(msg.command, msg.subcommand).value, SentFields(msg))
  }

  /** Every message of the protocol that is well filled can be sent, and comes out with the fields of
      its layout, one after the other, unless a structure of its own is too long. */
  lemma ImageIsSent(msg: Message)
    requires LayoutOf(msg.command, msg.subcommand).Some?
    ensures Sendable(msg) <==> WellFilled(msg)
    ensures WellFilled(msg) ==> Standard(msg) == MessageImage(msg)
    ensures WellFilled(msg) ==> (ToBytes(msg) == MessageImage(msg) <==> !HasLongStructure(msg))
  {
    hide Tree, CommandIndex, LayoutOf, Image, Filled, Encode, Covers, Le, Bytes2, HasLong, Oversize, Written, Typed,
         ItemsOf;
    AllDescribed(msg.command, msg.subcommand);
    var layout := LayoutOf(msg.command, msg.subcommand).value;
    assert SentFields(msg) == Patched(msg);
    ImageIsEncoding(layout, SentFields(msg));
    if WellFilled(msg) {
      LongIsOversize(layout, SentFields(msg));
      NumbersAsBytes(msg.applId);
      NumbersAsBytes(msg.number);
      NumbersAsBytes(8 + |Encode(ItemsOf(layout), SentFields(msg))|);
      LibraryMeetsStandard(msg);
    }
  }

  /** `buf` holds a message of the protocol, laid out as `layout`, with these fields. */
  predicate LaidOut(buf: seq<Byte>, layout: Layout, fields: Fields) {
    && |buf| >= 8
    && LayoutOf(buf[4] as nat, buf[5] as nat) == Some(layout)
    && Filled(layout, fields)
    && 8 + |Image(layout, fields)| <= |buf|
    && buf[8..8 + |Image(layout, fields)|] == Image(layout, fields)
  }

  /** The value of a field that has arrived: an absent string as an empty one, all others as they are. */
  predicate ArrivedAs(got: Fields, fields: Fields, field: Field) {
    && Code(field) in got && Code(field) in fields
    && got[Code(field)] == if fields[Code(field)] == Struct([]) then Struct([0]) else fields[Code(field)]
  }

  ghost predicate Arrived(got: Fields, layout: Layout, fields: Fields)
    requires Filled(layout, fields)
  {
    forall field <- Transmits(layout, fields) :: ArrivedAs(got, fields, field)
  }

  lemma BodyArrives(layout: Layout, fields: Fields, buf: seq<Byte>)
    requires Typed(layout) && Filled(layout, fields) && GroupsStartPlain(ItemsOf(layout))
    requires 8 + |Image(layout, fields)| <= |buf| && buf[8..8 + |Image(layout, fields)|] == Image(layout, fields)
    ensures
      var parsed := Parse(ItemsOf(layout), buf, 8, Zeroed());
      parsed.Done? && parsed.pos == 8 + |Image(layout, fields)| && Arrived(parsed.fields, layout, fields)
  {
    hide Image, Filled, Encode, Covers, Store, Parse, Zeroed, Typed, ItemsOf, Transmits, Code, Sent, GroupsStartPlain;
    ImageIsEncoding(layout, fields);
    ParseEncoded(ItemsOf(layout), fields, buf, 8, Zeroed());
    var got := Store(ItemsOf(layout), fields, Zeroed());
    forall field | field in Transmits(layout, fields)
      ensures ArrivedAs(got, fields, field)
    {
      TransmittedIsSent(layout, fields, field);
      StoredFields(ItemsOf(layout), fields, Zeroed(), Code(field));
    }
  }

  /** Every transmitted field arrives, whatever follows the message. */
  lemma FieldsArrive(buf: seq<Byte>, layout: Layout, fields: Fields)
    requires LaidOut(buf, layout, fields)
    ensures FromBytes(buf).Some?
    ensures FromBytes(buf).value.consumed == 8 + |Image(layout, fields)|
    ensures Arrived(FromBytes(buf).value.msg.fields, layout, fields)
  {
    hide Tree, CommandIndex, LayoutOf, Image, Filled, Zeroed, Typed, ItemsOf, Arrived, Distinct, GroupsStartPlain,
         Parse, Num;
    AllDescribed(buf[4] as nat, buf[5] as nat);
    TableWellFormed(CommandIndex(buf[4] as nat, buf[5] as nat));
    BodyArrives(layout, fields, buf);
  }

  /** A data message tells the address in its last field. */
  lemma AddressArrives(buf: seq<Byte>, layout: Layout, fields: Fields)
    requires LaidOut(buf, layout, fields) && buf[4] == 0x86 && (buf[5] == 0x80 || buf[5] == 0x82)
    ensures FromBytes(buf).Some?
    ensures HasNumber(fields, Data64, 0x1_0000_0000_0000_0000)
    ensures FromBytes(buf).value.msg.data == fields[Code(Data64)].n
  {
    hide LayoutOf, Image, Filled, Transmits, FromBytes, Code;
    FieldsArrive(buf, layout, fields);
    DataLayout(buf[5] as nat);
    DataTransmits(fields);
    DataIsField(buf);
    assert ArrivedAs(FromBytes(buf).value.msg.fields, fields, Data64);
  }

  lemma DataIsField(buf: seq<Byte>)
    requires FromBytes(buf).Some? && buf[4] == 0x86 && (buf[5] == 0x80 || buf[5] == 0x82)
    ensures
      var m := FromBytes(buf).value.msg;
      Code(Data64) in m.fields && m.fields[Code(Data64)].Number? && m.data == m.fields[Code(Data64)].n
  {
    hide Tree, CommandIndex, Parse, Num, Zeroed;
    Data64Read(buf[4] as nat, buf[5] as nat, buf);
  }

  function DataMessage(): Layout {
    U32(Controller, U32(Data32, U16(DataLength, U16(DataHandle, U16(DataFlags, U64(Data64, End))))))
  }

  lemma DataLayout(subcommand: nat)
    requires subcommand == 0x80 || subcommand == 0x82
    ensures LayoutOf(0x86, subcommand) == Some(DataMessage())
  {
  }

  lemma DataTransmits(fields: Fields)
    requires Filled(DataMessage(), fields)
    ensures Data64 in Transmits(DataMessage(), fields)
    ensures HasNumber(fields, Data64, 0x1_0000_0000_0000_0000) && HasNumber(fields, DataLength, 0x1_0000)
    ensures HasNumber(fields, Controller, 0x1_0000_0000) && HasNumber(fields, DataHandle, 0x1_0000)
    ensures HasNumber(fields, DataFlags, 0x1_0000)
  {
    hide Code, HasNumber;
    var l1 := U64(Data64, End);
    var l2 := U16(DataFlags, l1);
    var l3 := U16(DataHandle, l2);
    var l4 := U16(DataLength, l3);
    var l5 := U32(Data32, l4);
    assert Filled(l5, fields) && Filled(l4, fields) && Filled(l3, fields) && Filled(l2, fields) && Filled(l1, fields);
    assert Data64 in Transmits(l1, fields);
    assert Data64 in Transmits(l2, fields);
    assert Data64 in Transmits(l3, fields);
    assert Data64 in Transmits(l4, fields);
    assert Data64 in Transmits(l5, fields);
  }

  /** A cleared structure has the number 0, no bytes, and structures that are not left out. */
  lemma Cleared(field: Field)
    ensures Code(field) in Zeroed()
    ensures
      Zeroed()[Code(field)] ==
        match KindOf(field)
        case CStruct => Struct([])
        case CMstruct => Mode(true)
        case _ => Number(0)
  {
    FieldTypes(field);
    hide TypOf, KindOf;
  }

  /** For example, the bytes of a CONNECT_REQ behind its header. */
  lemma ConnectRequest(layout: Layout, f: Fields)
    requires LayoutOf(0x02, 0x80) == Some(layout)
    requires HasNumber(f, Controller, 0x1_0000_0000) && HasNumber(f, CIPValue, 0x1_0000)
    requires HasOctets(f, CalledPartyNumber) && HasOctets(f, CallingPartyNumber)
    requires HasOctets(f, CalledPartySubaddress) && HasOctets(f, CallingPartySubaddress)
    requires Filled(BProtocolThen(End), f) && Filled(AdditionalInformation(), f)
    requires HasOctets(f, BC) && HasOctets(f, LLC) && HasOctets(f, HLC)
    ensures Filled(layout, f)
    ensures
      Image(layout, f)
      == Bytes4(f[Code(Controller)].n) + (Bytes2(f[Code(CIPValue)].n)
         + (Bytes(f, CalledPartyNumber) + (Bytes(f, CallingPartyNumber)
         + (Bytes(f, CalledPartySubaddress) + (Bytes(f, CallingPartySubaddress)
         + (Image(BProtocolThen(End), f)
         + (Bytes(f, BC) + (Bytes(f, LLC) + (Bytes(f, HLC) + Image(AdditionalInformation(), f))))))))))
  {
    hide *;
    var l0 := AdditionalInformation();
    var l1 := OctetsFirst(HLC, l0, f);
    var l2 := OctetsFirst(LLC, l1, f);
    var l3 := OctetsFirst(BC, l2, f);
    BProtocolFirst(l3, f);
    var l4 := OctetsFirst(CallingPartySubaddress, BProtocolThen(l3), f);
    var l5 := OctetsFirst(CalledPartySubaddress, l4, f);
    var l6 := OctetsFirst(CallingPartyNumber, l5, f);
    var l7 := OctetsFirst(CalledPartyNumber, l6, f);
    NumbersFirst(l7, f);
    ConnectLayout();
  }

  lemma ConnectLayout()
    ensures LayoutOf(0x02, 0x80)
         == Some(U32(Controller, U16(CIPValue, Octets(CalledPartyNumber, Octets(CallingPartyNumber,
              Octets(CalledPartySubaddress, Octets(CallingPartySubaddress, BProtocolThen(Octets(BC, Octets(LLC,
              Octets(HLC, AdditionalInformation())))))))))))
  {
  }

  /** A string of bytes in a message. */
  function Bytes(f: Fields, field: Field): seq<Byte>
    requires HasOctets(f, field)
  {
    OctetsImage(f[Code(field)].bytes)
  }

  lemma OctetsFirst(field: Field, rest: Layout, f: Fields) returns (layout: Layout)
    requires HasOctets(f, field) && Filled(rest, f)
    ensures layout == Octets(field, rest) && Filled(layout, f)
    ensures Image(layout, f) == Bytes(f, field) + Image(rest, f)
  {
    hide Code;
    layout := Octets(field, rest);
  }

  lemma NumbersFirst(rest: Layout, f: Fields)
    requires HasNumber(f, Controller, 0x1_0000_0000) && HasNumber(f, CIPValue, 0x1_0000) && Filled(rest, f)
    ensures Filled(U16(CIPValue, rest), f) && Filled(U32(Controller, U16(CIPValue, rest)), f)
    ensures Image(U32(Controller, U16(CIPValue, rest)), f)
         == Bytes4(f[Code(Controller)].n) + (Bytes2(f[Code(CIPValue)].n) + Image(rest, f))
  {
    hide Code;
  }

  lemma BProtocolFirst(rest: Layout, fields: Fields)
    requires Filled(BProtocolThen(End), fields) && Filled(rest, fields)
    ensures Filled(BProtocolThen(rest), fields)
    ensures Image(BProtocolThen(rest), fields) == Image(BProtocolThen(End), fields) + Image(rest, fields)
  {
    hide Prefixed;
    assert Image(End, fields) == [];
  }

  // ---- the code ----

  ghost function MessageOf(cmsg: Cmsg): Message
    reads cmsg
  {
    Message(cmsg.applId, cmsg.command, cmsg.subcommand, cmsg.messagenumber, cmsg.fields, cmsg.data)
  }

  /** Builds the bytes of the message in `msg`. */
  method Cmsg2Message(cmsg: Cmsg, msg: array<Byte>)
    requires Sendable(MessageOf(cmsg))
    requires |ToBytes(MessageOf(cmsg))| < 0x1_0000 && |ToBytes(MessageOf(cmsg))| + 2 <= msg.Length
    modifies cmsg, msg
    ensures cmsg.l == |ToBytes(old(MessageOf(cmsg)))|
    ensures cmsg.l <= msg.Length && Held(msg, cmsg.l) == ToBytes(old(MessageOf(cmsg)))
    ensures MessageOf(cmsg) == old(MessageOf(cmsg).(fields := Patched(MessageOf(cmsg))))
    ensures LayoutOf(cmsg.command, cmsg.subcommand).Some? ==> WellFilled(old(MessageOf(cmsg)))
    ensures LayoutOf(cmsg.command, cmsg.subcommand).Some? && !HasLongStructure(old(MessageOf(cmsg))) ==>
              msg[..][..cmsg.l] == MessageImage(old(MessageOf(cmsg)))
  {
    ghost var message := MessageOf(cmsg);
    if LayoutOf(cmsg.command, cmsg.subcommand).Some? {
      ImageIsSent(message);
    }
    BuildMessage(cmsg, msg);
    assert msg[..][..cmsg.l] == Held(msg, cmsg.l);
  }

  method BuildMessage(cmsg: Cmsg, msg: array<Byte>)
    requires Sendable(MessageOf(cmsg))
    requires |ToBytes(MessageOf(cmsg))| < 0x1_0000 && |ToBytes(MessageOf(cmsg))| + 2 <= msg.Length
    modifies cmsg, msg
    ensures cmsg.l == |ToBytes(old(MessageOf(cmsg)))|
    ensures cmsg.l <= msg.Length && Held(msg, cmsg.l) == ToBytes(old(MessageOf(cmsg)))
    ensures MessageOf(cmsg) == old(MessageOf(cmsg).(fields := Patched(MessageOf(cmsg))))
  {
    hide Covers, Written, Tree, CommandIndex, Header, Distinct, GroupsStartPlain, TypOf, Flatten;
    ghost var message := MessageOf(cmsg);
    ghost var tree := TreeOf(cmsg.command, cmsg.subcommand).value;
    cmsg.m := msg;
    cmsg.l := 8;
    cmsg.p := 0;
    cmsg.par := Descriptor(cmsg.command, cmsg.subcommand);
    if cmsg.command == DATA_B3 && (cmsg.subcommand == REQ || cmsg.subcommand == IND) {
      cmsg.fields := cmsg.fields[DATA32 := Number(0)];
      cmsg.fields := cmsg.fields[DATA64 := Number(cmsg.data)];
    }
    DescriptorReady(cmsg.command, cmsg.subcommand);
    cmsg.ParsToMessage(tree);
    ghost var body := Written(tree, Patched(message));
    PutHeader(msg, cmsg.l, cmsg.applId, cmsg.command, cmsg.subcommand, cmsg.messagenumber, body);
  }

  function Descriptor(command: nat, subcommand: nat): seq<int>
    requires TreeOf(command, subcommand).Some?
  {
    Flatten(TreeOf(command, subcommand).value)
  }

  lemma DescriptorReady(command: nat, subcommand: nat)
    requires TreeOf(command, subcommand).Some?
    ensures At(Descriptor(command, subcommand), 0, TreeOf(command, subcommand).value)
    ensures GroupsStartPlain(TreeOf(command, subcommand).value)
  {
    hide Tree, CommandIndex, TypOf, Flatten, Distinct, GroupsStartPlain;
    var items := TreeOf(command, subcommand).value;
    TableWellFormed(CommandIndex(command, subcommand));
    assert Occurs(Flatten(items), 0, Flatten(items));
    FlattenedAt(items, Flatten(items), 0);
  }

  /** Fills in the first eight bytes, once the length is known. */
  method PutHeader(buf: array<Byte>, length: nat, applId: nat, command: nat, subcommand: nat, number: nat,
                   ghost body: seq<Byte>)
    requires 8 <= length <= buf.Length && command < 0x100 && subcommand < 0x100
    requires |body| == length - 8 && Held(buf, length)[8..] == body
    modifies buf
    ensures Held(buf, length) == Header(length, applId, command, subcommand, number) + body
  {
    assert buf[8..length] == Held(buf, length)[8..];
    hide Le;
    PutWord(buf, 0, length);
    buf[4] := command as Byte;
    buf[5] := subcommand as Byte;
    PutWord(buf, 2, applId);
    PutWord(buf, 6, number);
    assert buf[0..2] == Le(length, 2) && buf[2..4] == Le(applId, 2) && buf[8..length] == body;
    assert Held(buf, length) == buf[0..2] + buf[2..4] + [buf[4], buf[5]] + buf[6..8] + buf[8..length];
  }

  method PutWord(buf: array<Byte>, at: nat, n: nat)
    requires at + 2 <= buf.Length
    modifies buf
    ensures buf[at..at + 2] == Le(n, 2)
    ensures forall i :: 0 <= i < buf.Length && (i < at || at + 2 <= i) ==> buf[i] == old(buf[i])
  {
    buf[at] := (n % 256) as Byte;
    buf[at + 1] := (n / 256 % 256) as Byte;
    assert Le(n, 2) == [(n % 256) as Byte, (n / 256 % 256) as Byte];
  }

  /** Takes the message in `msg` apart.  Returns where reading stopped. */
  method Message2Cmsg(cmsg: Cmsg, msg: array<Byte>) returns (ghost consumed: nat)
    requires FromBytes(msg[..]).Some? && FromBytes(msg[..]).value.consumed < 0x1_0000
    modifies cmsg
    ensures Received(MessageOf(cmsg), cmsg.l, consumed) == FromBytes(msg[..]).value
    ensures cmsg.command == msg[4] as nat && cmsg.subcommand == msg[5] as nat
    ensures cmsg.l == msg[0] as nat + 0x100 * msg[1] as nat
    ensures cmsg.applId == msg[2] as nat + 0x100 * msg[3] as nat
    ensures cmsg.messagenumber == msg[6] as nat + 0x100 * msg[7] as nat
    ensures forall layout: Layout, fields: Fields :: LaidOut(msg[..], layout, fields) ==>
              ReadBack(msg[..], layout, fields, MessageOf(cmsg), consumed)
  {
    consumed := TakeApart(cmsg, msg);
    ghost var buf := msg[..];
    HeadRead(buf);
    hide *;
    forall layout: Layout, fields: Fields | LaidOut(buf, layout, fields)
      ensures ReadBack(buf, layout, fields, MessageOf(cmsg), consumed)
    {
      AllReadBack(buf, layout, fields);
    }
  }

  /** What decoding makes of fields that were laid out in `buf`. */
  ghost predicate ReadBack(buf: seq<Byte>, layout: Layout, fields: Fields, m: Message, consumed: nat) {
    && Filled(layout, fields) && |buf| >= 8
    && consumed == 8 + |Image(layout, fields)|
    && Arrived(m.fields, layout, fields)
    && (buf[4] == 0x86 && (buf[5] == 0x80 || buf[5] == 0x82) ==>
          HasNumber(fields, Data64, 0x1_0000_0000_0000_0000) && m.data == fields[Code(Data64)].n)
  }

  lemma AllReadBack(buf: seq<Byte>, layout: Layout, fields: Fields)
    requires LaidOut(buf, layout, fields)
    ensures FromBytes(buf).Some?
    ensures ReadBack(buf, layout, fields, FromBytes(buf).value.msg, FromBytes(buf).value.consumed)
  {
    hide FromBytes, Arrived, Image, Filled, Code;
    FieldsArrive(buf, layout, fields);
    if buf[4] == 0x86 && (buf[5] == 0x80 || buf[5] == 0x82) {
      AddressArrives(buf, layout, fields);
    }
  }

  lemma HeadRead(buf: seq<Byte>)
    requires FromBytes(buf).Some?
    ensures |buf| >= 8
    ensures
      var r := FromBytes(buf).value;
      && r.msg.command == buf[4] as nat && r.msg.subcommand == buf[5] as nat
      && r.length == buf[0] as nat + 0x100 * buf[1] as nat
      && r.msg.applId == buf[2] as nat + 0x100 * buf[3] as nat
      && r.msg.number == buf[6] as nat + 0x100 * buf[7] as nat
  {
    hide Tree, CommandIndex, Parse, Zeroed, Num;
    NumOfTwo(buf[0..2]);
    NumOfTwo(buf[2..4]);
    NumOfTwo(buf[6..8]);
  }

  lemma NumOfTwo(s: seq<Byte>)
    requires |s| == 2
    ensures Num(s) == s[0] as nat + 0x100 * s[1] as nat
  {
    assert s[1..][1..] == [];
    assert Num(s[1..]) == s[1] as nat + 256 * Num([]);
  }

  /** Takes the message apart, and returns where the reading stopped. */
  method TakeApart(cmsg: Cmsg, msg: array<Byte>) returns (ghost consumed: nat)
    requires FromBytes(msg[..]).Some? && FromBytes(msg[..]).value.consumed < 0x1_0000
    modifies cmsg
    ensures Received(MessageOf(cmsg), cmsg.l, consumed) == FromBytes(msg[..]).value
  {
    hide Covers, Parse, Tree, CommandIndex, Distinct, GroupsStartPlain, TypOf, Flatten, Zeroed, Num;
    cmsg.fields := Zeroed();
    cmsg.data := 0;
    cmsg.m := msg;
    cmsg.l := 8;
    cmsg.p := 0;
    cmsg.command := msg[4] as nat;
    cmsg.subcommand := msg[5] as nat;
    cmsg.par := Descriptor(cmsg.command, cmsg.subcommand);
    DescriptorReady(cmsg.command, cmsg.subcommand);
    cmsg.MessageToPars(TreeOf(cmsg.command, cmsg.subcommand).value);
    Data64Read(cmsg.command, cmsg.subcommand, msg[..]);
    if cmsg.command == DATA_B3 && (cmsg.subcommand == REQ || cmsg.subcommand == IND) {
      cmsg.data := cmsg.fields[DATA64].n;
    }
    consumed := cmsg.l;
    assert msg[..][0..2] == msg[0..2] && msg[..][2..4] == msg[2..4] && msg[..][6..8] == msg[6..8];
    cmsg.l := Num(msg[0..2]);
    cmsg.applId := Num(msg[2..4]);
    cmsg.messagenumber := Num(msg[6..8]);
  }
}
