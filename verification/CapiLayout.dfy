/** The parameter part of every CAPI 2.0 message as it lies in memory: named fields, one after the
    other, with their widths. */
module CapiLayout {
  import opened CapiDescriptor
  import opened CapiWire
  import opened CapiTable

  /** The fields of a message structure. */
  datatype Field = Controller | AdditionalInfo | B1configuration | B1protocol | B2configuration | B2protocol |
    B3configuration | B3protocol | BC | BChannelInformation | BProtocol | CalledPartyNumber | CalledPartySubaddress
    | CallingPartyNumber | CallingPartySubaddress | CIPmask | CIPmask2 | CIPValue | Class | ConnectedNumber |
    ConnectedSubaddress | Data32 | DataHandle | DataLength | FacilityConfirmationParameter | FacilityDataArray |
    FacilityIndicationParameter | FacilityRequestParameter | FacilityResponseParameters | FacilitySelector |
    DataFlags | Function | HLC | Info | InfoElement | InfoMask | InfoNumber | KeypadFacility | LLC | ManuData |
    ManuID | NCPI | Reason | ReasonB3 | RejectValue | UserUserData | Data64 | SendingComplete | GlobalConfiguration

  /** The number under which the descriptors know a field. */
  function Code(field: Field): int {
    match field
    case Controller => 0x03
    case AdditionalInfo => 0x04
    case B1configuration => 0x05
    case B1protocol => 0x06
    case B2configuration => 0x07
    case B2protocol => 0x08
    case B3configuration => 0x09
    case B3protocol => 0x0a
    case BC => 0x0b
    case BChannelInformation => 0x0c
    case BProtocol => 0x0d
    case CalledPartyNumber => 0x0e
    case CalledPartySubaddress => 0x0f
    case CallingPartyNumber => 0x10
    case CallingPartySubaddress => 0x11
    case CIPmask => 0x12
    case CIPmask2 => 0x13
    case CIPValue => 0x14
    case Class => 0x15
    case ConnectedNumber => 0x16
    case ConnectedSubaddress => 0x17
    case Data32 => 0x18
    case DataHandle => 0x19
    case DataLength => 0x1a
    case FacilityConfirmationParameter => 0x1b
    case FacilityDataArray => 0x1c
    case FacilityIndicationParameter => 0x1d
    case FacilityRequestParameter => 0x1e
    case FacilityResponseParameters => 0x1f
    case FacilitySelector => 0x20
    case DataFlags => 0x21
    case Function => 0x22
    case HLC => 0x23
    case Info => 0x24
    case InfoElement => 0x25
    case InfoMask => 0x26
    case InfoNumber => 0x27
    case KeypadFacility => 0x28
    case LLC => 0x29
    case ManuData => 0x2a
    case ManuID => 0x2b
    case NCPI => 0x2c
    case Reason => 0x2d
    case ReasonB3 => 0x2e
    case RejectValue => 0x2f
    case UserUserData => 0x30
    case Data64 => 0x31
    case SendingComplete => 0x32
    case GlobalConfiguration => 0x33
  }

  /** Fields that follow one another: numbers of two, four or eight bytes, the lowest first;
      length-prefixed strings of bytes; and structures of their own that may be left out. */
  datatype Layout =
    | End
    | U16(field: Field, rest: Layout) | U32(field: Field, rest: Layout) | U64(field: Field, rest: Layout)
    | Octets(field: Field, rest: Layout)
    | Composed(field: Field, body: Layout, rest: Layout)

  function AdditionalInformation(): Layout {
    Composed(AdditionalInfo, Octets(BChannelInformation, Octets(KeypadFacility, Octets(UserUserData,
      Octets(FacilityDataArray, Octets(SendingComplete, End))))), End)
  }

  function BProtocolThen(rest: Layout): Layout {
    Composed(BProtocol, U16(B1protocol, U16(B2protocol, U16(B3protocol, Octets(B1configuration,
      Octets(B2configuration, Octets(B3configuration, Octets(GlobalConfiguration, End))))))), rest)
  }

  /** The layout of each message of the protocol. */
  function LayoutOf(command: nat, subcommand: nat): Option<Layout> {
    if subcommand == 0x80 then Requests(command)
    else if subcommand == 0x81 then Confirmations(command)
    else if subcommand == 0x82 then Indications(command)
    else if subcommand == 0x83 then Responses(command)
    else None
  }

  function Requests(command: nat): Option<Layout> {
    match command
    // ALERT_REQ, DISCONNECT_REQ
    case 0x01 | 0x04 => Some(U32(Controller, AdditionalInformation()))
    // CONNECT_REQ
    case 0x02 =>
      Some(U32(Controller, U16(CIPValue, Octets(CalledPartyNumber, Octets(CallingPartyNumber,
        Octets(CalledPartySubaddress, Octets(CallingPartySubaddress, BProtocolThen(Octets(BC, Octets(LLC,
        Octets(HLC, AdditionalInformation())))))))))))
    // LISTEN_REQ
    case 0x05 =>
      Some(U32(Controller, U32(InfoMask, U32(CIPmask, U32(CIPmask2, Octets(CallingPartyNumber,
        Octets(CallingPartySubaddress, End)))))))
    // INFO_REQ
    case 0x08 => Some(U32(Controller, Octets(CalledPartyNumber, AdditionalInformation())))
    // FACILITY_REQ
    case 0x80 => Some(U32(Controller, U16(FacilitySelector, Octets(FacilityRequestParameter, End))))
    // SELECT_B_PROTOCOL_REQ
    case 0x41 => Some(U32(Controller, BProtocolThen(End)))
    // CONNECT_B3_REQ, DISCONNECT_B3_REQ, RESET_B3_REQ
    case 0x82 | 0x84 | 0x87 => Some(U32(Controller, Octets(NCPI, End)))
    // DATA_B3_REQ
    case 0x86 =>
      Some(U32(Controller, U32(Data32, U16(DataLength, U16(DataHandle, U16(DataFlags, U64(Data64, End)))))))
    // MANUFACTURER_REQ
    case 0xff => Some(U32(Controller, U32(ManuID, U32(Class, U32(Function, Octets(ManuData, End))))))
    case _ => None
  }

  function Confirmations(command: nat): Option<Layout> {
    match command
    // ALERT_CONF, CONNECT_CONF, DISCONNECT_CONF, LISTEN_CONF, INFO_CONF, SELECT_B_PROTOCOL_CONF, CONNECT_B3_CONF,
    // DISCONNECT_B3_CONF, RESET_B3_CONF
    case 0x01 | 0x02 | 0x04 | 0x05 | 0x08 | 0x41 | 0x82 | 0x84 | 0x87 => Some(U32(Controller, U16(Info, End)))
    // FACILITY_CONF
    case 0x80 => Some(U32(Controller, U16(Info, U16(FacilitySelector, Octets(FacilityConfirmationParameter, End)))))
    // DATA_B3_CONF
    case 0x86 => Some(U32(Controller, U16(DataHandle, U16(Info, End))))
    // MANUFACTURER_CONF
    case 0xff => Some(U32(Controller, U32(ManuID, U32(Class, U32(Function, Octets(ManuData, End))))))
    case _ => None
  }

  function Indications(command: nat): Option<Layout> {
    match command
    // CONNECT_IND
    case 0x02 =>
      Some(U32(Controller, U16(CIPValue, Octets(CalledPartyNumber, Octets(CallingPartyNumber,
        Octets(CalledPartySubaddress, Octets(CallingPartySubaddress, Octets(BC, Octets(LLC, Octets(HLC,
        AdditionalInformation()))))))))))
    // CONNECT_ACTIVE_IND
    case 0x03 => Some(U32(Controller, Octets(ConnectedNumber, Octets(ConnectedSubaddress, Octets(LLC, End)))))
    // DISCONNECT_IND
    case 0x04 => Some(U32(Controller, U16(Reason, End)))
    // INFO_IND
    case 0x08 => Some(U32(Controller, U16(InfoNumber, Octets(InfoElement, End))))
    // FACILITY_IND
    case 0x80 => Some(U32(Controller, U16(FacilitySelector, Octets(FacilityIndicationParameter, End))))
    // CONNECT_B3_IND, CONNECT_B3_ACTIVE_IND, RESET_B3_IND, CONNECT_B3_T90_ACTIVE_IND
    case 0x82 | 0x83 | 0x87 | 0x88 => Some(U32(Controller, Octets(NCPI, End)))
    // DISCONNECT_B3_IND
    case 0x84 => Some(U32(Controller, U16(ReasonB3, Octets(NCPI, End))))
    // DATA_B3_IND
    case 0x86 =>
      Some(U32(Controller, U32(Data32, U16(DataLength, U16(DataHandle, U16(DataFlags, U64(Data64, End)))))))
    // MANUFACTURER_IND
    case 0xff => Some(U32(Controller, U32(ManuID, U32(Class, U32(Function, Octets(ManuData, End))))))
    case _ => None
  }

  function Responses(command: nat): Option<Layout> {
    match command
    // CONNECT_RESP
    case 0x02 =>
      Some(U32(Controller, U16(RejectValue, BProtocolThen(Octets(ConnectedNumber, Octets(ConnectedSubaddress,
        Octets(LLC, AdditionalInformation())))))))
    // CONNECT_ACTIVE_RESP, DISCONNECT_RESP, INFO_RESP, CONNECT_B3_ACTIVE_RESP, DISCONNECT_B3_RESP, RESET_B3_RESP,
    // CONNECT_B3_T90_ACTIVE_RESP
    case 0x03 | 0x04 | 0x08 | 0x83 | 0x84 | 0x87 | 0x88 => Some(U32(Controller, End))
    // FACILITY_RESP
    case 0x80 => Some(U32(Controller, U16(FacilitySelector, Octets(FacilityResponseParameters, End))))
    // CONNECT_B3_RESP
    case 0x82 => Some(U32(Controller, U16(RejectValue, Octets(NCPI, End))))
    // DATA_B3_RESP
    case 0x86 => Some(U32(Controller, U16(DataHandle, End)))
    // MANUFACTURER_RESP
    case 0xff => Some(U32(Controller, U32(ManuID, U32(Class, U32(Function, Octets(ManuData, End))))))
    case _ => None
  }

  // The bytes of a layout

  function Bytes2(n: nat): seq<Byte> {
    [(n % 0x100) as Byte, (n / 0x100 % 0x100) as Byte]
  }

  function Bytes4(n: nat): seq<Byte> {
    [(n % 0x100) as Byte, (n / 0x100 % 0x100) as Byte, (n / 0x1_0000 % 0x100) as Byte, (n / 0x100_0000 % 0x100) as Byte]
  }

  function Bytes8(n: nat): seq<Byte> {
    Bytes4(n) + Bytes4(n / 0x1_0000_0000)
  }

  /** A string of bytes with its length in front: one byte, or 255 and two bytes. */
  predicate WellPrefixed(s: seq<Byte>) {
    || (s != [] && s[0] != 255 && |s| == 1 + s[0] as nat)
    || (|s| >= 3 && s[0] == 255 && |s| == 3 + s[1] as nat + 0x100 * s[2] as nat)
  }

  predicate HasNumber(fields: Fields, field: Field, bound: nat) {
    Code(field) in fields && fields[Code(field)].Number? && fields[Code(field)].n < bound
  }

  predicate HasOctets(fields: Fields, field: Field) {
    && Code(field) in fields && fields[Code(field)].Struct?
    && (fields[Code(field)].bytes == [] || WellPrefixed(fields[Code(field)].bytes))
  }

  /** `fields` has a fitting value for each field of the layout. */
  predicate Filled(layout: Layout, fields: Fields) {
    match layout
    case End => true
    case U16(field, rest) => HasNumber(fields, field, 0x1_0000) && Filled(rest, fields)
    case U32(field, rest) => HasNumber(fields, field, 0x1_0000_0000) && Filled(rest, fields)
    case U64(field, rest) => HasNumber(fields, field, 0x1_0000_0000_0000_0000) && Filled(rest, fields)
    case Octets(field, rest) => HasOctets(fields, field) && Filled(rest, fields)
    case Composed(field, body, rest) =>
      && Code(field) in fields && fields[Code(field)].Mode?
      && (fields[Code(field)].compose ==> Filled(body, fields))
      && Filled(rest, fields)
  }

  /** The bytes of the fields; an absent string is an empty one. */
  function Image(layout: Layout, fields: Fields): seq<Byte>
    requires Filled(layout, fields)
  {
    match layout
    case End => []
    case U16(field, rest) => Bytes2(fields[Code(field)].n) + Image(rest, fields)
    case U32(field, rest) => Bytes4(fields[Code(field)].n) + Image(rest, fields)
    case U64(field, rest) => Bytes8(fields[Code(field)].n) + Image(rest, fields)
    case Octets(field, rest) => OctetsImage(fields[Code(field)].bytes) + Image(rest, fields)
    case Composed(field, body, rest) =>
      (if fields[Code(field)].compose then Prefixed(Image(body, fields)) else [0]) + Image(rest, fields)
  }

  function OctetsImage(s: seq<Byte>): seq<Byte> { if s == [] then [0] else s }

  /** A structure with its length in front. */
  function Prefixed(s: seq<Byte>): seq<Byte> {
    if |s| < 255 then [|s| as Byte] + s else [255] + Bytes2(|s|) + s
  }

  // The descriptors describe these layouts

  /** The type that fits a field. */
  function KindOf(field: Field): Typ {
    match field
    case Controller | CIPmask | CIPmask2 | Class | Data32 | Function | InfoMask | ManuID => CDword
    case B1protocol | B2protocol | B3protocol | CIPValue | DataHandle | DataLength | FacilitySelector | DataFlags |
      Info | InfoNumber | Reason | ReasonB3 | RejectValue => CWord
    case Data64 => CQword
    case AdditionalInfo | BProtocol => CMstruct
    case _ => CStruct
  }

  lemma FieldTypes(field: Field)
    ensures TypOf(Code(field)) == KindOf(field)
  {
    TypeByCode(Code(field));
    hide TypOf;
  }

  lemma TypeByCode(c: int)
    requires 0x03 <= c
    ensures
      TypOf(c) ==
      if c == 0x04 || c == 0x0d then CMstruct
      else if c == 0x03 || c == 0x12 || c == 0x13 || c == 0x15 || c == 0x18 || c == 0x22 || c == 0x26 || c == 0x2b then
        CDword
      else if c == 0x06 || c == 0x08 || c == 0x0a || c == 0x14 || c == 0x19 || c == 0x1a || c == 0x20 || c == 0x21
           || c == 0x24 || c == 0x27 || c == 0x2d || c == 0x2e || c == 0x2f then
        CWord
      else if c == 0x31 then CQword
      else CStruct
  {
  }

  /** Each field stands where a value of its type is. */
  predicate Typed(layout: Layout) {
    match layout
    case End => true
    case U16(field, rest) => KindOf(field) == CWord && Typed(rest)
    case U32(field, rest) => KindOf(field) == CDword && Typed(rest)
    case U64(field, rest) => KindOf(field) == CQword && Typed(rest)
    case Octets(field, rest) => KindOf(field) == CStruct && Typed(rest)
    case Composed(field, body, rest) => KindOf(field) == CMstruct && Typed(body) && Typed(rest)
  }

  function ItemsOf(layout: Layout): Items {
    match layout
    case End => Nil
    case Composed(field, body, rest) => Group(Code(field), ItemsOf(body), ItemsOf(rest))
    case _ => Plain(Code(layout.field), ItemsOf(layout.rest))
  }

  ghost predicate Described(command: nat, subcommand: nat) {
    match LayoutOf(command, subcommand)
    case None => true
    case Some(layout) => Typed(layout) && Tree(CommandIndex(command, subcommand)) == Some(ItemsOf(layout))
  }

  /** The layout has the given plain fields in front of what `items` describes. */
  ghost predicate Listed(layout: Layout, codes: seq<int>, items: Items) {
    Typed(layout) && ItemsOf(layout) == Plains(codes, items)
  }

  lemma Begin(layout: Layout) returns (l: Layout, c: seq<int>)
    requires Typed(layout)
    ensures l == layout && c == [] && Listed(l, [], ItemsOf(l))
  {
    l, c := layout, [];
  }

  lemma Finish(layout: Layout, codes: seq<int>, items: Items)
    requires Listed(layout, codes, items)
    ensures Typed(layout) && ItemsOf(layout) == Plains(codes, items)
  {
  }

  lemma NothingListed()
    ensures Typed(End) && ItemsOf(End) == Nil && Listed(End, [], Nil)
  {
  }

  lemma PutU16(field: Field, layout: Layout, codes: seq<int>, items: Items) returns (l: Layout, c: seq<int>)
    requires Listed(layout, codes, items) && KindOf(field) == CWord
    ensures l == U16(field, layout) && c == [Code(field)] + codes && Listed(l, c, items)
  {
    hide KindOf, Code;
    l, c := U16(field, layout), [Code(field)] + codes;
    assert c[1..] == codes;
  }

  lemma PutU32(field: Field, layout: Layout, codes: seq<int>, items: Items) returns (l: Layout, c: seq<int>)
    requires Listed(layout, codes, items) && KindOf(field) == CDword
    ensures l == U32(field, layout) && c == [Code(field)] + codes && Listed(l, c, items)
  {
    hide KindOf, Code;
    l, c := U32(field, layout), [Code(field)] + codes;
    assert c[1..] == codes;
  }

  lemma PutU64(field: Field, layout: Layout, codes: seq<int>, items: Items) returns (l: Layout, c: seq<int>)
    requires Listed(layout, codes, items) && KindOf(field) == CQword
    ensures l == U64(field, layout) && c == [Code(field)] + codes && Listed(l, c, items)
  {
    hide KindOf, Code;
    l, c := U64(field, layout), [Code(field)] + codes;
    assert c[1..] == codes;
  }

  lemma PutOctets(field: Field, layout: Layout, codes: seq<int>, items: Items) returns (l: Layout, c: seq<int>)
    requires Listed(layout, codes, items) && KindOf(field) == CStruct
    ensures l == Octets(field, layout) && c == [Code(field)] + codes && Listed(l, c, items)
  {
    hide KindOf, Code;
    l, c := Octets(field, layout), [Code(field)] + codes;
    assert c[1..] == codes;
  }

  lemma ComposedLayout(field: Field, body: Layout, rest: Layout)
    requires KindOf(field) == CMstruct && Typed(body) && Typed(rest)
    ensures Typed(Composed(field, body, rest))
    ensures ItemsOf(Composed(field, body, rest)) == Group(Code(field), ItemsOf(body), ItemsOf(rest))
  {
  }

  lemma AdditionalInfoLayout()
    ensures Typed(AdditionalInformation()) && ItemsOf(AdditionalInformation()) == AdditionalInfoItems()
  {
    hide Typed, ItemsOf, Plains, Listed, TypOf, Tree, LayoutOf;
    NothingListed();
    var l, c := Begin(End);
    l, c := PutOctets(SendingComplete, l, c, Nil);
    l, c := PutOctets(FacilityDataArray, l, c, Nil);
    l, c := PutOctets(UserUserData, l, c, Nil);
    l, c := PutOctets(KeypadFacility, l, c, Nil);
    l, c := PutOctets(BChannelInformation, l, c, Nil);
    assert c == [0x0c, 0x28, 0x30, 0x1c, 0x32];
    Finish(l, c, Nil);
    ComposedLayout(AdditionalInfo, l, End);
  }

  lemma BProtocolLayout(rest: Layout)
    requires Typed(rest)
    ensures Typed(BProtocolThen(rest)) && ItemsOf(BProtocolThen(rest)) == BProtocolItems(ItemsOf(rest))
  {
    hide Typed, ItemsOf, Plains, Listed, TypOf, Tree, LayoutOf;
    NothingListed();
    var l, c := Begin(End);
    l, c := PutOctets(GlobalConfiguration, l, c, Nil);
    l, c := PutOctets(B3configuration, l, c, Nil);
    l, c := PutOctets(B2configuration, l, c, Nil);
    l, c := PutOctets(B1configuration, l, c, Nil);
    l, c := PutU16(B3protocol, l, c, Nil);
    l, c := PutU16(B2protocol, l, c, Nil);
    l, c := PutU16(B1protocol, l, c, Nil);
    assert c == [0x06, 0x08, 0x0a, 0x05, 0x07, 0x09, 0x33];
    Finish(l, c, Nil);
    ComposedLayout(BProtocol, l, rest);
  }

  lemma AlertReqDescribed(command: nat)
    requires command in {0x01, 0x04}
    ensures Described(command, 0x80)
  {
    AlertReqShape();
    hide Typed, ItemsOf, Plains, AdditionalInformation, AdditionalInfoItems, BProtocolThen, BProtocolItems;
  }

  lemma AlertReqShape()
    ensures
      var layout := U32(Controller, AdditionalInformation());
      Typed(layout) && ItemsOf(layout) == Plains([0x03], AdditionalInfoItems())
  {
    hide Typed, ItemsOf, Plains, Listed, TypOf, Tree, LayoutOf, AdditionalInformation, AdditionalInfoItems,
         BProtocolThen, BProtocolItems;
    AdditionalInfoLayout();
    var l, c := Begin(AdditionalInformation());
    l, c := PutU32(Controller, l, c, AdditionalInfoItems());
    assert c == [0x03];
    Finish(l, c, AdditionalInfoItems());
  }

  lemma ConnectReqDescribed()
    ensures Described(0x02, 0x80)
  {
    ConnectReqShape();
    hide Typed, ItemsOf, Plains, AdditionalInformation, AdditionalInfoItems, BProtocolThen, BProtocolItems;
  }

  lemma ConnectReqShape()
    ensures
      var layout := U32(Controller, U16(CIPValue, Octets(CalledPartyNumber, Octets(CallingPartyNumber,
        Octets(CalledPartySubaddress, Octets(CallingPartySubaddress, BProtocolThen(Octets(BC, Octets(LLC,
        Octets(HLC, AdditionalInformation()))))))))));
      Typed(layout) && ItemsOf(layout) ==
        Plains([0x03, 0x14, 0x0e, 0x10, 0x0f, 0x11], BProtocolItems(Plains([0x0b, 0x29, 0x23], AdditionalInfoItems())))
  {
    hide Typed, ItemsOf, Plains, Listed, TypOf, Tree, LayoutOf, AdditionalInformation, AdditionalInfoItems,
         BProtocolThen, BProtocolItems;
    AdditionalInfoLayout();
    var l, c := Begin(AdditionalInformation());
    l, c := PutOctets(HLC, l, c, AdditionalInfoItems());
    l, c := PutOctets(LLC, l, c, AdditionalInfoItems());
    l, c := PutOctets(BC, l, c, AdditionalInfoItems());
    assert c == [0x0b, 0x29, 0x23];
    Finish(l, c, AdditionalInfoItems());
    BProtocolLayout(l);
    l, c := Begin(BProtocolThen(l));
    l, c := PutOctets(CallingPartySubaddress, l, c, BProtocolItems(Plains([0x0b, 0x29, 0x23], AdditionalInfoItems())));
    l, c := PutOctets(CalledPartySubaddress, l, c, BProtocolItems(Plains([0x0b, 0x29, 0x23], AdditionalInfoItems())));
    l, c := PutOctets(CallingPartyNumber, l, c, BProtocolItems(Plains([0x0b, 0x29, 0x23], AdditionalInfoItems())));
    l, c := PutOctets(CalledPartyNumber, l, c, BProtocolItems(Plains([0x0b, 0x29, 0x23], AdditionalInfoItems())));
    l, c := PutU16(CIPValue, l, c, BProtocolItems(Plains([0x0b, 0x29, 0x23], AdditionalInfoItems())));
    l, c := PutU32(Controller, l, c, BProtocolItems(Plains([0x0b, 0x29, 0x23], AdditionalInfoItems())));
    assert c == [0x03, 0x14, 0x0e, 0x10, 0x0f, 0x11];
    Finish(l, c, BProtocolItems(Plains([0x0b, 0x29, 0x23], AdditionalInfoItems())));
  }

  lemma ListenReqDescribed()
    ensures Described(0x05, 0x80)
  {
    ListenReqShape();
    hide Typed, ItemsOf, Plains, AdditionalInformation, AdditionalInfoItems, BProtocolThen, BProtocolItems;
  }

  lemma ListenReqShape()
    ensures
      var layout := U32(Controller, U32(InfoMask, U32(CIPmask, U32(CIPmask2, Octets(CallingPartyNumber,
        Octets(CallingPartySubaddress, End))))));
      Typed(layout) && ItemsOf(layout) == Plains([0x03, 0x26, 0x12, 0x13, 0x10, 0x11], Nil)
  {
    hide Typed, ItemsOf, Plains, Listed, TypOf, Tree, LayoutOf, AdditionalInformation, AdditionalInfoItems,
         BProtocolThen, BProtocolItems;
    NothingListed();
    var l, c := Begin(End);
    l, c := PutOctets(CallingPartySubaddress, l, c, Nil);
    l, c := PutOctets(CallingPartyNumber, l, c, Nil);
    l, c := PutU32(CIPmask2, l, c, Nil);
    l, c := PutU32(CIPmask, l, c, Nil);
    l, c := PutU32(InfoMask, l, c, Nil);
    l, c := PutU32(Controller, l, c, Nil);
    assert c == [0x03, 0x26, 0x12, 0x13, 0x10, 0x11];
    Finish(l, c, Nil);
  }

  lemma InfoReqDescribed()
    ensures Described(0x08, 0x80)
  {
    InfoReqShape();
    hide Typed, ItemsOf, Plains, AdditionalInformation, AdditionalInfoItems, BProtocolThen, BProtocolItems;
  }

  lemma InfoReqShape()
    ensures
      var layout := U32(Controller, Octets(CalledPartyNumber, AdditionalInformation()));
      Typed(layout) && ItemsOf(layout) == Plains([0x03, 0x0e], AdditionalInfoItems())
  {
    hide Typed, ItemsOf, Plains, Listed, TypOf, Tree, LayoutOf, AdditionalInformation, AdditionalInfoItems,
         BProtocolThen, BProtocolItems;
    AdditionalInfoLayout();
    var l, c := Begin(AdditionalInformation());
    l, c := PutOctets(CalledPartyNumber, l, c, AdditionalInfoItems());
    l, c := PutU32(Controller, l, c, AdditionalInfoItems());
    assert c == [0x03, 0x0e];
    Finish(l, c, AdditionalInfoItems());
  }

  lemma FacilityReqDescribed()
    ensures Described(0x80, 0x80)
  {
    FacilityReqShape();
    hide Typed, ItemsOf, Plains, AdditionalInformation, AdditionalInfoItems, BProtocolThen, BProtocolItems;
  }

  lemma FacilityReqShape()
    ensures
      var layout := U32(Controller, U16(FacilitySelector, Octets(FacilityRequestParameter, End)));
      Typed(layout) && ItemsOf(layout) == Plains([0x03, 0x20, 0x1e], Nil)
  {
    hide Typed, ItemsOf, Plains, Listed, TypOf, Tree, LayoutOf, AdditionalInformation, AdditionalInfoItems,
         BProtocolThen, BProtocolItems;
    NothingListed();
    var l, c := Begin(End);
    l, c := PutOctets(FacilityRequestParameter, l, c, Nil);
    l, c := PutU16(FacilitySelector, l, c, Nil);
    l, c := PutU32(Controller, l, c, Nil);
    assert c == [0x03, 0x20, 0x1e];
    Finish(l, c, Nil);
  }

  lemma SelectBProtocolReqDescribed()
    ensures Described(0x41, 0x80)
  {
    SelectBProtocolReqShape();
    hide Typed, ItemsOf, Plains, AdditionalInformation, AdditionalInfoItems, BProtocolThen, BProtocolItems;
  }

  lemma SelectBProtocolReqShape()
    ensures
      var layout := U32(Controller, BProtocolThen(End));
      Typed(layout) && ItemsOf(layout) == Plains([0x03], BProtocolItems(Nil))
  {
    hide Typed, ItemsOf, Plains, Listed, TypOf, Tree, LayoutOf, AdditionalInformation, AdditionalInfoItems,
         BProtocolThen, BProtocolItems;
    NothingListed();
    BProtocolLayout(End);
    var l, c := Begin(BProtocolThen(End));
    l, c := PutU32(Controller, l, c, BProtocolItems(Nil));
    assert c == [0x03];
    Finish(l, c, BProtocolItems(Nil));
  }

  lemma ConnectB3ReqDescribed(command: nat)
    requires command in {0x82, 0x84, 0x87}
    ensures Described(command, 0x80)
  {
    hide Tree;
    assert CommandIndex(command, 0x80) in {0x0b, 0x0d, 0x10};
    ConnectB3ReqEntries(CommandIndex(command, 0x80));
    ConnectB3ReqShape();
    hide Typed, ItemsOf, Plains, AdditionalInformation, AdditionalInfoItems, BProtocolThen, BProtocolItems;
  }

  lemma ConnectB3ReqEntries(index: nat)
    requires index in {0x0b, 0x0d, 0x10}
    ensures Tree(index) == Some(Plains([0x03, 0x2c], Nil))
  {
    hide Plains;
  }

  lemma ConnectB3ReqShape()
    ensures
      var layout := U32(Controller, Octets(NCPI, End));
      Typed(layout) && ItemsOf(layout) == Plains([0x03, 0x2c], Nil)
  {
    hide Typed, ItemsOf, Plains, Listed, TypOf, Tree, LayoutOf, AdditionalInformation, AdditionalInfoItems,
         BProtocolThen, BProtocolItems;
    NothingListed();
    var l, c := Begin(End);
    l, c := PutOctets(NCPI, l, c, Nil);
    l, c := PutU32(Controller, l, c, Nil);
    assert c == [0x03, 0x2c];
    Finish(l, c, Nil);
  }

  lemma DataB3ReqDescribed()
    ensures Described(0x86, 0x80)
  {
    DataB3ReqShape();
    hide Typed, ItemsOf, Plains, AdditionalInformation, AdditionalInfoItems, BProtocolThen, BProtocolItems;
  }

  lemma DataB3ReqShape()
    ensures
      var layout := U32(Controller, U32(Data32, U16(DataLength, U16(DataHandle, U16(DataFlags, U64(Data64,
        End))))));
      Typed(layout) && ItemsOf(layout) == Plains([0x03, 0x18, 0x1a, 0x19, 0x21, 0x31], Nil)
  {
    hide Typed, ItemsOf, Plains, Listed, TypOf, Tree, LayoutOf, AdditionalInformation, AdditionalInfoItems,
         BProtocolThen, BProtocolItems;
    NothingListed();
    var l, c := Begin(End);
    l, c := PutU64(Data64, l, c, Nil);
    l, c := PutU16(DataFlags, l, c, Nil);
    l, c := PutU16(DataHandle, l, c, Nil);
    l, c := PutU16(DataLength, l, c, Nil);
    l, c := PutU32(Data32, l, c, Nil);
    l, c := PutU32(Controller, l, c, Nil);
    assert c == [0x03, 0x18, 0x1a, 0x19, 0x21, 0x31];
    Finish(l, c, Nil);
  }

  lemma ManufacturerReqDescribed()
    ensures Described(0xff, 0x80)
  {
    ManufacturerReqShape();
    hide Typed, ItemsOf, Plains, AdditionalInformation, AdditionalInfoItems, BProtocolThen, BProtocolItems;
  }

  lemma ManufacturerReqShape()
    ensures
      var layout := U32(Controller, U32(ManuID, U32(Class, U32(Function, Octets(ManuData, End)))));
      Typed(layout) && ItemsOf(layout) == Plains([0x03, 0x2b, 0x15, 0x22, 0x2a], Nil)
  {
    hide Typed, ItemsOf, Plains, Listed, TypOf, Tree, LayoutOf, AdditionalInformation, AdditionalInfoItems,
         BProtocolThen, BProtocolItems;
    NothingListed();
    var l, c := Begin(End);
    l, c := PutOctets(ManuData, l, c, Nil);
    l, c := PutU32(Function, l, c, Nil);
    l, c := PutU32(Class, l, c, Nil);
    l, c := PutU32(ManuID, l, c, Nil);
    l, c := PutU32(Controller, l, c, Nil);
    assert c == [0x03, 0x2b, 0x15, 0x22, 0x2a];
    Finish(l, c, Nil);
  }

  lemma AlertConfDescribed(command: nat)
    requires command in {0x01, 0x02, 0x04, 0x05, 0x08, 0x41, 0x82, 0x84, 0x87}
    ensures Described(command, 0x81)
  {
    hide Tree;
    assert CommandIndex(command, 0x81) in {0x13, 0x14, 0x16, 0x17, 0x1a, 0x1c, 0x1d, 0x1f, 0x22};
    AlertConfEntries(CommandIndex(command, 0x81));
    AlertConfShape();
    hide Typed, ItemsOf, Plains, AdditionalInformation, AdditionalInfoItems, BProtocolThen, BProtocolItems;
  }

  lemma AlertConfEntries(index: nat)
    requires index in {0x13, 0x14, 0x16, 0x17, 0x1a, 0x1c, 0x1d, 0x1f, 0x22}
    ensures Tree(index) == Some(Plains([0x03, 0x24], Nil))
  {
    hide Plains;
  }

  lemma AlertConfShape()
    ensures
      var layout := U32(Controller, U16(Info, End));
      Typed(layout) && ItemsOf(layout) == Plains([0x03, 0x24], Nil)
  {
    hide Typed, ItemsOf, Plains, Listed, TypOf, Tree, LayoutOf, AdditionalInformation, AdditionalInfoItems,
         BProtocolThen, BProtocolItems;
    NothingListed();
    var l, c := Begin(End);
    l, c := PutU16(Info, l, c, Nil);
    l, c := PutU32(Controller, l, c, Nil);
    assert c == [0x03, 0x24];
    Finish(l, c, Nil);
  }

  lemma FacilityConfDescribed()
    ensures Described(0x80, 0x81)
  {
    FacilityConfShape();
    hide Typed, ItemsOf, Plains, AdditionalInformation, AdditionalInfoItems, BProtocolThen, BProtocolItems;
  }

  lemma FacilityConfShape()
    ensures
      var layout := U32(Controller, U16(Info, U16(FacilitySelector, Octets(FacilityConfirmationParameter, End))));
      Typed(layout) && ItemsOf(layout) == Plains([0x03, 0x24, 0x20, 0x1b], Nil)
  {
    hide Typed, ItemsOf, Plains, Listed, TypOf, Tree, LayoutOf, AdditionalInformation, AdditionalInfoItems,
         BProtocolThen, BProtocolItems;
    NothingListed();
    var l, c := Begin(End);
    l, c := PutOctets(FacilityConfirmationParameter, l, c, Nil);
    l, c := PutU16(FacilitySelector, l, c, Nil);
    l, c := PutU16(Info, l, c, Nil);
    l, c := PutU32(Controller, l, c, Nil);
    assert c == [0x03, 0x24, 0x20, 0x1b];
    Finish(l, c, Nil);
  }

  lemma DataB3ConfDescribed()
    ensures Described(0x86, 0x81)
  {
    DataB3ConfShape();
    hide Typed, ItemsOf, Plains, AdditionalInformation, AdditionalInfoItems, BProtocolThen, BProtocolItems;
  }

  lemma DataB3ConfShape()
    ensures
      var layout := U32(Controller, U16(DataHandle, U16(Info, End)));
      Typed(layout) && ItemsOf(layout) == Plains([0x03, 0x19, 0x24], Nil)
  {
    hide Typed, ItemsOf, Plains, Listed, TypOf, Tree, LayoutOf, AdditionalInformation, AdditionalInfoItems,
         BProtocolThen, BProtocolItems;
    NothingListed();
    var l, c := Begin(End);
    l, c := PutU16(Info, l, c, Nil);
    l, c := PutU16(DataHandle, l, c, Nil);
    l, c := PutU32(Controller, l, c, Nil);
    assert c == [0x03, 0x19, 0x24];
    Finish(l, c, Nil);
  }

  lemma ManufacturerConfDescribed()
    ensures Described(0xff, 0x81)
  {
    ManufacturerReqShape();
    hide Typed, ItemsOf, Plains, AdditionalInformation, AdditionalInfoItems, BProtocolThen, BProtocolItems;
  }

  lemma ConnectIndDescribed()
    ensures Described(0x02, 0x82)
  {
    ConnectIndShape();
    hide Typed, ItemsOf, Plains, AdditionalInformation, AdditionalInfoItems, BProtocolThen, BProtocolItems;
  }

  lemma ConnectIndShape()
    ensures
      var layout := U32(Controller, U16(CIPValue, Octets(CalledPartyNumber, Octets(CallingPartyNumber,
        Octets(CalledPartySubaddress, Octets(CallingPartySubaddress, Octets(BC, Octets(LLC, Octets(HLC,
        AdditionalInformation())))))))));
      Typed(layout) && ItemsOf(layout) ==
        Plains([0x03, 0x14, 0x0e, 0x10, 0x0f, 0x11, 0x0b, 0x29, 0x23], AdditionalInfoItems())
  {
    hide Typed, ItemsOf, Plains, Listed, TypOf, Tree, LayoutOf, AdditionalInformation, AdditionalInfoItems,
         BProtocolThen, BProtocolItems;
    AdditionalInfoLayout();
    var l, c := Begin(AdditionalInformation());
    l, c := PutOctets(HLC, l, c, AdditionalInfoItems());
    l, c := PutOctets(LLC, l, c, AdditionalInfoItems());
    l, c := PutOctets(BC, l, c, AdditionalInfoItems());
    l, c := PutOctets(CallingPartySubaddress, l, c, AdditionalInfoItems());
    l, c := PutOctets(CalledPartySubaddress, l, c, AdditionalInfoItems());
    l, c := PutOctets(CallingPartyNumber, l, c, AdditionalInfoItems());
    l, c := PutOctets(CalledPartyNumber, l, c, AdditionalInfoItems());
    l, c := PutU16(CIPValue, l, c, AdditionalInfoItems());
    l, c := PutU32(Controller, l, c, AdditionalInfoItems());
    assert c == [0x03, 0x14, 0x0e, 0x10, 0x0f, 0x11, 0x0b, 0x29, 0x23];
    Finish(l, c, AdditionalInfoItems());
  }

  lemma ConnectActiveIndDescribed()
    ensures Described(0x03, 0x82)
  {
    ConnectActiveIndShape();
    hide Typed, ItemsOf, Plains, AdditionalInformation, AdditionalInfoItems, BProtocolThen, BProtocolItems;
  }

  lemma ConnectActiveIndShape()
    ensures
      var layout := U32(Controller, Octets(ConnectedNumber, Octets(ConnectedSubaddress, Octets(LLC, End))));
      Typed(layout) && ItemsOf(layout) == Plains([0x03, 0x16, 0x17, 0x29], Nil)
  {
    hide Typed, ItemsOf, Plains, Listed, TypOf, Tree, LayoutOf, AdditionalInformation, AdditionalInfoItems,
         BProtocolThen, BProtocolItems;
    NothingListed();
    var l, c := Begin(End);
    l, c := PutOctets(LLC, l, c, Nil);
    l, c := PutOctets(ConnectedSubaddress, l, c, Nil);
    l, c := PutOctets(ConnectedNumber, l, c, Nil);
    l, c := PutU32(Controller, l, c, Nil);
    assert c == [0x03, 0x16, 0x17, 0x29];
    Finish(l, c, Nil);
  }

  lemma DisconnectIndDescribed()
    ensures Described(0x04, 0x82)
  {
    DisconnectIndShape();
    hide Typed, ItemsOf, Plains, AdditionalInformation, AdditionalInfoItems, BProtocolThen, BProtocolItems;
  }

  lemma DisconnectIndShape()
    ensures
      var layout := U32(Controller, U16(Reason, End));
      Typed(layout) && ItemsOf(layout) == Plains([0x03, 0x2d], Nil)
  {
    hide Typed, ItemsOf, Plains, Listed, TypOf, Tree, LayoutOf, AdditionalInformation, AdditionalInfoItems,
         BProtocolThen, BProtocolItems;
    NothingListed();
    var l, c := Begin(End);
    l, c := PutU16(Reason, l, c, Nil);
    l, c := PutU32(Controller, l, c, Nil);
    assert c == [0x03, 0x2d];
    Finish(l, c, Nil);
  }

  lemma InfoIndDescribed()
    ensures Described(0x08, 0x82)
  {
    InfoIndShape();
    hide Typed, ItemsOf, Plains, AdditionalInformation, AdditionalInfoItems, BProtocolThen, BProtocolItems;
  }

  lemma InfoIndShape()
    ensures
      var layout := U32(Controller, U16(InfoNumber, Octets(InfoElement, End)));
      Typed(layout) && ItemsOf(layout) == Plains([0x03, 0x27, 0x25], Nil)
  {
    hide Typed, ItemsOf, Plains, Listed, TypOf, Tree, LayoutOf, AdditionalInformation, AdditionalInfoItems,
         BProtocolThen, BProtocolItems;
    NothingListed();
    var l, c := Begin(End);
    l, c := PutOctets(InfoElement, l, c, Nil);
    l, c := PutU16(InfoNumber, l, c, Nil);
    l, c := PutU32(Controller, l, c, Nil);
    assert c == [0x03, 0x27, 0x25];
    Finish(l, c, Nil);
  }

  lemma FacilityIndDescribed()
    ensures Described(0x80, 0x82)
  {
    FacilityIndShape();
    hide Typed, ItemsOf, Plains, AdditionalInformation, AdditionalInfoItems, BProtocolThen, BProtocolItems;
  }

  lemma FacilityIndShape()
    ensures
      var layout := U32(Controller, U16(FacilitySelector, Octets(FacilityIndicationParameter, End)));
      Typed(layout) && ItemsOf(layout) == Plains([0x03, 0x20, 0x1d], Nil)
  {
    hide Typed, ItemsOf, Plains, Listed, TypOf, Tree, LayoutOf, AdditionalInformation, AdditionalInfoItems,
         BProtocolThen, BProtocolItems;
    NothingListed();
    var l, c := Begin(End);
    l, c := PutOctets(FacilityIndicationParameter, l, c, Nil);
    l, c := PutU16(FacilitySelector, l, c, Nil);
    l, c := PutU32(Controller, l, c, Nil);
    assert c == [0x03, 0x20, 0x1d];
    Finish(l, c, Nil);
  }

  lemma ConnectB3IndDescribed(command: nat)
    requires command in {0x82, 0x83, 0x87, 0x88}
    ensures Described(command, 0x82)
  {
    hide Tree;
    assert CommandIndex(command, 0x82) in {0x2f, 0x30, 0x34, 0x35};
    ConnectB3IndEntries(CommandIndex(command, 0x82));
    ConnectB3ReqShape();
    hide Typed, ItemsOf, Plains, AdditionalInformation, AdditionalInfoItems, BProtocolThen, BProtocolItems;
  }

  lemma ConnectB3IndEntries(index: nat)
    requires index in {0x2f, 0x30, 0x34, 0x35}
    ensures Tree(index) == Some(Plains([0x03, 0x2c], Nil))
  {
    hide Plains;
  }

  lemma DisconnectB3IndDescribed()
    ensures Described(0x84, 0x82)
  {
    DisconnectB3IndShape();
    hide Typed, ItemsOf, Plains, AdditionalInformation, AdditionalInfoItems, BProtocolThen, BProtocolItems;
  }

  lemma DisconnectB3IndShape()
    ensures
      var layout := U32(Controller, U16(ReasonB3, Octets(NCPI, End)));
      Typed(layout) && ItemsOf(layout) == Plains([0x03, 0x2e, 0x2c], Nil)
  {
    hide Typed, ItemsOf, Plains, Listed, TypOf, Tree, LayoutOf, AdditionalInformation, AdditionalInfoItems,
         BProtocolThen, BProtocolItems;
    NothingListed();
    var l, c := Begin(End);
    l, c := PutOctets(NCPI, l, c, Nil);
    l, c := PutU16(ReasonB3, l, c, Nil);
    l, c := PutU32(Controller, l, c, Nil);
    assert c == [0x03, 0x2e, 0x2c];
    Finish(l, c, Nil);
  }

  lemma DataB3IndDescribed()
    ensures Described(0x86, 0x82)
  {
    DataB3ReqShape();
    hide Typed, ItemsOf, Plains, AdditionalInformation, AdditionalInfoItems, BProtocolThen, BProtocolItems;
  }

  lemma ManufacturerIndDescribed()
    ensures Described(0xff, 0x82)
  {
    ManufacturerReqShape();
    hide Typed, ItemsOf, Plains, AdditionalInformation, AdditionalInfoItems, BProtocolThen, BProtocolItems;
  }

  lemma ConnectRespDescribed()
    ensures Described(0x02, 0x83)
  {
    ConnectRespShape();
    hide Typed, ItemsOf, Plains, AdditionalInformation, AdditionalInfoItems, BProtocolThen, BProtocolItems;
  }

  lemma ConnectRespShape()
    ensures
      var layout := U32(Controller, U16(RejectValue, BProtocolThen(Octets(ConnectedNumber,
        Octets(ConnectedSubaddress, Octets(LLC, AdditionalInformation()))))));
      Typed(layout) && ItemsOf(layout) ==
        Plains([0x03, 0x2f], BProtocolItems(Plains([0x16, 0x17, 0x29], AdditionalInfoItems())))
  {
    hide Typed, ItemsOf, Plains, Listed, TypOf, Tree, LayoutOf, AdditionalInformation, AdditionalInfoItems,
         BProtocolThen, BProtocolItems;
    AdditionalInfoLayout();
    var l, c := Begin(AdditionalInformation());
    l, c := PutOctets(LLC, l, c, AdditionalInfoItems());
    l, c := PutOctets(ConnectedSubaddress, l, c, AdditionalInfoItems());
    l, c := PutOctets(ConnectedNumber, l, c, AdditionalInfoItems());
    assert c == [0x16, 0x17, 0x29];
    Finish(l, c, AdditionalInfoItems());
    BProtocolLayout(l);
    l, c := Begin(BProtocolThen(l));
    l, c := PutU16(RejectValue, l, c, BProtocolItems(Plains([0x16, 0x17, 0x29], AdditionalInfoItems())));
    l, c := PutU32(Controller, l, c, BProtocolItems(Plains([0x16, 0x17, 0x29], AdditionalInfoItems())));
    assert c == [0x03, 0x2f];
    Finish(l, c, BProtocolItems(Plains([0x16, 0x17, 0x29], AdditionalInfoItems())));
  }

  lemma ConnectActiveRespDescribed(command: nat)
    requires command in {0x03, 0x04, 0x08, 0x83, 0x84, 0x87, 0x88}
    ensures Described(command, 0x83)
  {
    hide Tree;
    assert CommandIndex(command, 0x83) in {0x39, 0x3a, 0x3e, 0x42, 0x43, 0x46, 0x47};
    ConnectActiveRespEntries(CommandIndex(command, 0x83));
    ConnectActiveRespShape();
    hide Typed, ItemsOf, Plains, AdditionalInformation, AdditionalInfoItems, BProtocolThen, BProtocolItems;
  }

  lemma ConnectActiveRespEntries(index: nat)
    requires index in {0x39, 0x3a, 0x3e, 0x42, 0x43, 0x46, 0x47}
    ensures Tree(index) == Some(Plains([0x03], Nil))
  {
    hide Plains;
  }

  lemma ConnectActiveRespShape()
    ensures
      var layout := U32(Controller, End);
      Typed(layout) && ItemsOf(layout) == Plains([0x03], Nil)
  {
    hide Typed, ItemsOf, Plains, Listed, TypOf, Tree, LayoutOf, AdditionalInformation, AdditionalInfoItems,
         BProtocolThen, BProtocolItems;
    NothingListed();
    var l, c := Begin(End);
    l, c := PutU32(Controller, l, c, Nil);
    assert c == [0x03];
    Finish(l, c, Nil);
  }

  lemma FacilityRespDescribed()
    ensures Described(0x80, 0x83)
  {
    FacilityRespShape();
    hide Typed, ItemsOf, Plains, AdditionalInformation, AdditionalInfoItems, BProtocolThen, BProtocolItems;
  }

  lemma FacilityRespShape()
    ensures
      var layout := U32(Controller, U16(FacilitySelector, Octets(FacilityResponseParameters, End)));
      Typed(layout) && ItemsOf(layout) == Plains([0x03, 0x20, 0x1f], Nil)
  {
    hide Typed, ItemsOf, Plains, Listed, TypOf, Tree, LayoutOf, AdditionalInformation, AdditionalInfoItems,
         BProtocolThen, BProtocolItems;
    NothingListed();
    var l, c := Begin(End);
    l, c := PutOctets(FacilityResponseParameters, l, c, Nil);
    l, c := PutU16(FacilitySelector, l, c, Nil);
    l, c := PutU32(Controller, l, c, Nil);
    assert c == [0x03, 0x20, 0x1f];
    Finish(l, c, Nil);
  }

  lemma ConnectB3RespDescribed()
    ensures Described(0x82, 0x83)
  {
    ConnectB3RespShape();
    hide Typed, ItemsOf, Plains, AdditionalInformation, AdditionalInfoItems, BProtocolThen, BProtocolItems;
  }

  lemma ConnectB3RespShape()
    ensures
      var layout := U32(Controller, U16(RejectValue, Octets(NCPI, End)));
      Typed(layout) && ItemsOf(layout) == Plains([0x03, 0x2f, 0x2c], Nil)
  {
    hide Typed, ItemsOf, Plains, Listed, TypOf, Tree, LayoutOf, AdditionalInformation, AdditionalInfoItems,
         BProtocolThen, BProtocolItems;
    NothingListed();
    var l, c := Begin(End);
    l, c := PutOctets(NCPI, l, c, Nil);
    l, c := PutU16(RejectValue, l, c, Nil);
    l, c := PutU32(Controller, l, c, Nil);
    assert c == [0x03, 0x2f, 0x2c];
    Finish(l, c, Nil);
  }

  lemma DataB3RespDescribed()
    ensures Described(0x86, 0x83)
  {
    DataB3RespShape();
    hide Typed, ItemsOf, Plains, AdditionalInformation, AdditionalInfoItems, BProtocolThen, BProtocolItems;
  }

  lemma DataB3RespShape()
    ensures
      var layout := U32(Controller, U16(DataHandle, End));
      Typed(layout) && ItemsOf(layout) == Plains([0x03, 0x19], Nil)
  {
    hide Typed, ItemsOf, Plains, Listed, TypOf, Tree, LayoutOf, AdditionalInformation, AdditionalInfoItems,
         BProtocolThen, BProtocolItems;
    NothingListed();
    var l, c := Begin(End);
    l, c := PutU16(DataHandle, l, c, Nil);
    l, c := PutU32(Controller, l, c, Nil);
    assert c == [0x03, 0x19];
    Finish(l, c, Nil);
  }

  lemma ManufacturerRespDescribed()
    ensures Described(0xff, 0x83)
  {
    ManufacturerReqShape();
    hide Typed, ItemsOf, Plains, AdditionalInformation, AdditionalInfoItems, BProtocolThen, BProtocolItems;
  }

  lemma RequestsDescribed(command: nat)
    requires Requests(command).Some?
    ensures Described(command, 0x80)
  {
    hide Described;
    match command
    case 0x01 | 0x04 => AlertReqDescribed(command);
    case 0x02 => ConnectReqDescribed();
    case 0x05 => ListenReqDescribed();
    case 0x08 => InfoReqDescribed();
    case 0x80 => FacilityReqDescribed();
    case 0x41 => SelectBProtocolReqDescribed();
    case 0x82 | 0x84 | 0x87 => ConnectB3ReqDescribed(command);
    case 0x86 => DataB3ReqDescribed();
    case 0xff => ManufacturerReqDescribed();
    case _ =>
  }

  lemma ConfirmationsDescribed(command: nat)
    requires Confirmations(command).Some?
    ensures Described(command, 0x81)
  {
    hide Described;
    match command
    case 0x01 | 0x02 | 0x04 | 0x05 | 0x08 | 0x41 | 0x82 | 0x84 | 0x87 => AlertConfDescribed(command);
    case 0x80 => FacilityConfDescribed();
    case 0x86 => DataB3ConfDescribed();
    case 0xff => ManufacturerConfDescribed();
    case _ =>
  }

  lemma IndicationsDescribed(command: nat)
    requires Indications(command).Some?
    ensures Described(command, 0x82)
  {
    hide Described;
    match command
    case 0x02 => ConnectIndDescribed();
    case 0x03 => ConnectActiveIndDescribed();
    case 0x04 => DisconnectIndDescribed();
    case 0x08 => InfoIndDescribed();
    case 0x80 => FacilityIndDescribed();
    case 0x82 | 0x83 | 0x87 | 0x88 => ConnectB3IndDescribed(command);
    case 0x84 => DisconnectB3IndDescribed();
    case 0x86 => DataB3IndDescribed();
    case 0xff => ManufacturerIndDescribed();
    case _ =>
  }

  lemma ResponsesDescribed(command: nat)
    requires Responses(command).Some?
    ensures Described(command, 0x83)
  {
    hide Described;
    match command
    case 0x02 => ConnectRespDescribed();
    case 0x03 | 0x04 | 0x08 | 0x83 | 0x84 | 0x87 | 0x88 => ConnectActiveRespDescribed(command);
    case 0x80 => FacilityRespDescribed();
    case 0x82 => ConnectB3RespDescribed();
    case 0x86 => DataB3RespDescribed();
    case 0xff => ManufacturerRespDescribed();
    case _ =>
  }

  /** Every message of the protocol has the descriptor of its layout. */
  lemma AllDescribed(command: nat, subcommand: nat)
    requires LayoutOf(command, subcommand).Some?
    ensures Typed(LayoutOf(command, subcommand).value)
    ensures Tree(CommandIndex(command, subcommand)) == Some(ItemsOf(LayoutOf(command, subcommand).value))
  {
    hide Tree, CommandIndex, Requests, Confirmations, Indications, Responses, Typed, ItemsOf;
    if subcommand == 0x80 {
      RequestsDescribed(command);
    } else if subcommand == 0x81 {
      ConfirmationsDescribed(command);
    } else if subcommand == 0x82 {
      IndicationsDescribed(command);
    } else {
      ResponsesDescribed(command);
    }
  }

  // What is encoded and decoded by a descriptor is its layout

  lemma NumbersAsBytes(n: nat)
    ensures Le(n, 2) == Bytes2(n)
    ensures Le(n, 4) == Bytes4(n)
    ensures Le(n, 8) == Bytes8(n)
  {
    FourAsBytes(n);
    FourAsBytes(n / 0x1_0000_0000);
    EightAsFours(n);
    TwoAsBytes(n);
  }

  lemma TwoAsBytes(n: nat)
    ensures Le(n, 2) == Bytes2(n)
  {
    assert Le(n, 2) == [(n % 256) as Byte] + Le(n / 256, 1);
    assert Le(n / 256, 1) == [(n / 256 % 256) as Byte] + Le(n / 256 / 256, 0);
  }

  lemma FourAsBytes(n: nat)
    ensures Le(n, 4) == Bytes4(n)
  {
    TwoAsBytes(n);
    TwoAsBytes(n / 0x1_0000);
    FourAsTwos(n);
    assert n / 0x1_0000 / 0x100 == n / 0x100_0000;
  }

  lemma FourAsTwos(n: nat)
    ensures Le(n, 4) == Le(n, 2) + Le(n / 0x1_0000, 2)
  {
    assert n / 256 / 256 == n / 0x1_0000;
    assert Le(n, 4) == [(n % 256) as Byte] + Le(n / 256, 3);
    assert Le(n / 256, 3) == [(n / 256 % 256) as Byte] + Le(n / 256 / 256, 2);
    TwoAsBytes(n);
  }

  lemma EightAsFours(n: nat)
    ensures Le(n, 8) == Le(n, 4) + Le(n / 0x1_0000_0000, 4)
  {
    hide Le;
    FourAsTwos(n);
    TwoThen(n, 6);
    TwoThen(n / 0x1_0000, 4);
    HalvedTwice(n);
  }

  lemma HalvedTwice(n: nat)
    ensures n / 0x1_0000 / 0x1_0000 == n / 0x1_0000_0000
  {
  }

  lemma TwoThen(n: nat, w: nat)
    ensures Le(n, w + 2) == Le(n, 2) + Le(n / 0x1_0000, w)
  {
    assert n / 256 / 256 == n / 0x1_0000;
    assert Le(n, w + 2) == [(n % 256) as Byte] + Le(n / 256, w + 1);
    assert Le(n / 256, w + 1) == [(n / 256 % 256) as Byte] + Le(n / 256 / 256, w);
    TwoAsBytes(n);
  }

  lemma PrefixesAgree(s: seq<Byte>)
    ensures WellPrefixed(s) <==> s != [] && StructSize(s, 0) == Some(|s|)
  {
    if |s| >= 3 {
      var low := s[1..3];
      assert low[1..][1..] == [] && Num(low[1..]) == s[2] as nat && Num(low) == s[1] as nat + 256 * Num(low[1..]);
    }
  }

  lemma PrefixedIsWrap(s: seq<Byte>)
    ensures Wrap(s) == Prefixed(s)
  {
    NumbersAsBytes(|s|);
    hide Le;
  }

  lemma Powers()
    ensures Pow256(2) == 0x1_0000 && Pow256(4) == 0x1_0000_0000 && Pow256(8) == 0x1_0000_0000_0000_0000
  {
  }

  /** One plain field. */
  lemma ValueImage(c: int, v: Value)
    ensures TypOf(c) == CWord ==> (IsPlain(c) && (ValueOk(c, v) <==> v.Number? && v.n < 0x1_0000))
    ensures TypOf(c) == CDword ==> (IsPlain(c) && (ValueOk(c, v) <==> v.Number? && v.n < 0x1_0000_0000))
    ensures TypOf(c) == CQword ==> (IsPlain(c) && (ValueOk(c, v) <==> v.Number? && v.n < 0x1_0000_0000_0000_0000))
    ensures TypOf(c) == CStruct ==>
              (IsPlain(c) && (ValueOk(c, v) <==> v.Struct? && (v.bytes == [] || WellPrefixed(v.bytes))))
    ensures TypOf(c) == CWord && ValueOk(c, v) ==> EncodeValue(c, v) == Bytes2(v.n)
    ensures TypOf(c) == CDword && ValueOk(c, v) ==> EncodeValue(c, v) == Bytes4(v.n)
    ensures TypOf(c) == CQword && ValueOk(c, v) ==> EncodeValue(c, v) == Bytes8(v.n)
    ensures TypOf(c) == CStruct && ValueOk(c, v) ==> EncodeValue(c, v) == if v.bytes == [] then [0] else v.bytes
  {
    Powers();
    if v.Number? {
      NumbersAsBytes(v.n);
    } else if v.Struct? {
      PrefixesAgree(v.bytes);
    }
    hide TypOf, Le, Bytes2, Bytes4, Bytes8, WellPrefixed, StructSize, Pow256;
  }

  /** What a descriptor asks of a message and encodes is the image of its layout. */
  lemma {:induction false} ImageIsEncoding(layout: Layout, fields: Fields)
    requires Typed(layout)
    ensures Covers(ItemsOf(layout), fields) <==> Filled(layout, fields)
    ensures Filled(layout, fields) ==> Encode(ItemsOf(layout), fields) == Image(layout, fields)
    decreases layout
  {
    hide TypOf, KindOf, Code, ValueOk, EncodeValue, IsPlain, Bytes2, Bytes4, Bytes8, WellPrefixed, Wrap, Prefixed;
    match layout
    case End =>
    case Composed(field, body, rest) =>
      FieldTypes(field);
      ImageIsEncoding(body, fields);
      ImageIsEncoding(rest, fields);
      if Filled(body, fields) {
        PrefixedIsWrap(Image(body, fields));
      }
    case _ =>
      var c := Code(layout.field);
      FieldTypes(layout.field);
      ImageIsEncoding(layout.rest, fields);
      if c in fields {
        ValueImage(c, fields[c]);
      }
  }

  /** A structure of its own is 255 bytes long or longer. */
  predicate HasLong(layout: Layout, fields: Fields)
    requires Filled(layout, fields)
  {
    match layout
    case End => false
    case Composed(field, body, rest) =>
      || (fields[Code(field)].compose && (|Image(body, fields)| >= 255 || HasLong(body, fields)))
      || HasLong(rest, fields)
    case _ => HasLong(layout.rest, fields)
  }

  lemma {:induction false} LongIsOversize(layout: Layout, fields: Fields)
    requires Typed(layout) && Filled(layout, fields)
    ensures Covers(ItemsOf(layout), fields) && (Oversize(ItemsOf(layout), fields) <==> HasLong(layout, fields))
    decreases layout
  {
    hide TypOf, KindOf, Code, ValueOk, EncodeValue, IsPlain, Image, Encode;
    ImageIsEncoding(layout, fields);
    match layout
    case End =>
    case Composed(field, body, rest) =>
      if fields[Code(field)].compose {
        ImageIsEncoding(body, fields);
        LongIsOversize(body, fields);
      }
      LongIsOversize(rest, fields);
    case _ =>
      LongIsOversize(layout.rest, fields);
  }

  /** The fields that a message transmits: not those of a structure that is left out. */
  function Transmits(layout: Layout, fields: Fields): set<Field>
    requires Filled(layout, fields)
  {
    match layout
    case End => {}
    case Composed(field, body, rest) =>
      {field} + (if fields[Code(field)].compose then Transmits(body, fields) else {}) + Transmits(rest, fields)
    case _ => {layout.field} + Transmits(layout.rest, fields)
  }

  lemma {:induction false} TransmittedIsSent(layout: Layout, fields: Fields, field: Field)
    requires Typed(layout) && Filled(layout, fields) && field in Transmits(layout, fields)
    ensures Covers(ItemsOf(layout), fields) && Code(field) in Sent(ItemsOf(layout), fields)
    decreases layout
  {
    hide TypOf, KindOf, Code, ValueOk, EncodeValue, IsPlain, Image, Encode;
    ImageIsEncoding(layout, fields);
    match layout
    case End =>
    case Composed(f, body, rest) =>
      if field in Transmits(rest, fields) {
        TransmittedIsSent(rest, fields, field);
      } else if fields[Code(f)].compose && field in Transmits(body, fields) {
        TransmittedIsSent(body, fields, field);
      }
    case _ =>
      if field in Transmits(layout.rest, fields) {
        TransmittedIsSent(layout.rest, fields, field);
      }
  }
}
