/** The table of message descriptors, one for each CAPI 2.0 command and subcommand. */
module CapiTable {
  import opened CapiDescriptor
  import opened CapiReencode

  function CommandIndex(command: nat, subcommand: nat): nat {
    var c := if command / 0x80 % 2 == 1 then 0x9 + command % 16
             else if command <= 0x0f then command
             else if command == 0x41 then 0x9 + 0x1
             else command;
    subcommand % 4 * (0x9 + 0x9) + c
  }

  /** The commands of the protocol, with four subcommands each. */
  predicate ProtocolCommand(command: nat) {
    || 0x01 <= command <= 0x05 || command == 0x08 || command == 0x41 || command == 0x80
    || 0x82 <= command <= 0x84 || 0x86 <= command <= 0x88 || command == 0xff
  }

  predicate ProtocolSubcommand(subcommand: nat) {
    0x80 <= subcommand <= 0x83
  }

  /** No two messages of the protocol share a place in the table, although the last command's row
      reaches into the next subcommand's part of it. */
  lemma CommandsApart(command: nat, subcommand: nat, command': nat, subcommand': nat)
    requires ProtocolCommand(command) && ProtocolSubcommand(subcommand)
    requires ProtocolCommand(command') && ProtocolSubcommand(subcommand')
    requires CommandIndex(command, subcommand) == CommandIndex(command', subcommand')
    ensures command == command' && subcommand == subcommand'
  {
    RowInPart(command, subcommand);
    RowInPart(command', subcommand');
    hide CommandIndex;
  }

  /** What the index tells about the command, and then about the subcommand. */
  lemma RowInPart(command: nat, subcommand: nat)
    requires ProtocolCommand(command) && ProtocolSubcommand(subcommand)
    ensures CommandIndex(command, subcommand) == (subcommand - 0x80) * 18 + Row(command)
  {
    assert subcommand % 4 == subcommand - 0x80;
    if command >= 0x80 {
      assert command / 0x80 == 1;
    }
  }

  function Row(command: nat): nat {
    if command == 0xff then 24
    else if command >= 0x80 then 9 + command - 0x80
    else if command == 0x41 then 10
    else command
  }

  /** The plain parameters `codes`, in order, in front of `rest`. */
  function Plains(codes: seq<int>, rest: Items): Items {
    if codes == [] then rest else Plain(codes[0], Plains(codes[1..], rest))
  }

  const ADDITIONAL_PARAMETERS: seq<int> := [0x0c, 0x28, 0x30, 0x1c, 0x32]
  const B_PARAMETERS: seq<int> := [0x06, 0x08, 0x0a, 0x05, 0x07, 0x09, 0x33]

  function AdditionalInfoItems(): Items { Group(ADDITIONAL_INFO, Plains(ADDITIONAL_PARAMETERS, Nil), Nil) }

  function BProtocolItems(rest: Items): Items { Group(B_PROTOCOL, Plains(B_PARAMETERS, Nil), rest) }

  /** The entry of the descriptor table at `index`; null entries are `None`. */
  function Tree(index: nat): Option<Items> {
    match index
    case 0x01 | 0x04 => Some(Plains([0x03], AdditionalInfoItems()))
    case 0x02 =>
      Some(Plains([0x03, 0x14, 0x0e, 0x10, 0x0f, 0x11],
                  BProtocolItems(Plains([0x0b, 0x29, 0x23], AdditionalInfoItems()))))
    case 0x05 => Some(Plains([0x03, 0x26, 0x12, 0x13, 0x10, 0x11], Nil))
    case 0x08 => Some(Plains([0x03, 0x0e], AdditionalInfoItems()))
    case 0x09 => Some(Plains([0x03, 0x20, 0x1e], Nil))
    case 0x0a => Some(Plains([0x03], BProtocolItems(Nil)))
    case 0x0b | 0x0d | 0x10 | 0x2f | 0x30 | 0x34 | 0x35 => Some(Plains([0x03, 0x2c], Nil))
    case 0x0f | 0x33 => Some(Plains([0x03, 0x18, 0x1a, 0x19, 0x21, 0x31], Nil))
    case 0x13 | 0x14 | 0x16 | 0x17 | 0x1a | 0x1c | 0x1d | 0x1f | 0x22 => Some(Plains([0x03, 0x24], Nil))
    case 0x18 | 0x2a | 0x3c | 0x4e => Some(Plains([0x03, 0x2b, 0x15, 0x22, 0x2a], Nil))
    case 0x1b => Some(Plains([0x03, 0x24, 0x20, 0x1b], Nil))
    case 0x21 => Some(Plains([0x03, 0x19, 0x24], Nil))
    case 0x26 => Some(Plains([0x03, 0x14, 0x0e, 0x10, 0x0f, 0x11, 0x0b, 0x29, 0x23], AdditionalInfoItems()))
    case 0x27 => Some(Plains([0x03, 0x16, 0x17, 0x29], Nil))
    case 0x28 => Some(Plains([0x03, 0x2d], Nil))
    case 0x2c => Some(Plains([0x03, 0x27, 0x25], Nil))
    case 0x2d => Some(Plains([0x03, 0x20, 0x1d], Nil))
    case 0x31 => Some(Plains([0x03, 0x2e, 0x2c], Nil))
    case 0x38 => Some(Plains([0x03, 0x2f], BProtocolItems(Plains([0x16, 0x17, 0x29], AdditionalInfoItems()))))
    case 0x39 | 0x3a | 0x3e | 0x42 | 0x43 | 0x46 | 0x47 => Some(Plains([0x03], Nil))
    case 0x3f => Some(Plains([0x03, 0x20, 0x1f], Nil))
    case 0x41 => Some(Plains([0x03, 0x2f, 0x2c], Nil))
    case 0x45 => Some(Plains([0x03, 0x19], Nil))
    case _ => None
  }

  /** The descriptor string of a list, its closing mark included. */
  function Flatten(items: Items): (s: seq<int>)
    ensures |s| == Width(items) + 1
  {
    match items
    case Nil => [END]
    case Plain(c, rest) => [c] + Flatten(rest)
    case Group(c, body, rest) => [c] + Flatten(body) + Flatten(rest)
  }

  ghost predicate Occurs(par: seq<int>, p: nat, s: seq<int>) {
    p + |s| <= |par| && par[p..p + |s|] == s
  }

  /** The flattened list is a descriptor of the list, wherever it occurs. */
  lemma {:induction false} FlattenedAt(items: Items, par: seq<int>, p: nat)
    requires Distinct(items) && Occurs(par, p, Flatten(items))
    ensures At(par, p, items)
    decreases items
  {
    hide TypOf, Occurs, Codes;
    match items
    case Nil =>
      EndIsEnd();
      OccursFirst(par, p, END);
    case Plain(c, rest) =>
      OccursSplit(par, p, [c], Flatten(rest));
      OccursFirst(par, p, c);
      FlattenedAt(rest, par, p + 1);
    case Group(c, body, rest) =>
      OccursSplit(par, p, [c] + Flatten(body), Flatten(rest));
      OccursSplit(par, p, [c], Flatten(body));
      OccursFirst(par, p, c);
      FlattenedAt(body, par, p + 1);
      FlattenedAt(rest, par, p + 1 + |Flatten(body)|);
  }

  lemma OccursSplit(par: seq<int>, p: nat, a: seq<int>, b: seq<int>)
    requires Occurs(par, p, a + b)
    ensures Occurs(par, p, a) && Occurs(par, p + |a|, b)
  {
    assert par[p..p + |a|] == par[p..p + |a + b|][..|a|];
    assert par[p + |a|..p + |a| + |b|] == par[p..p + |a + b|][|a|..];
  }

  lemma OccursFirst(par: seq<int>, p: nat, c: int)
    requires Occurs(par, p, [c])
    ensures p < |par| && par[p] == c
  {
    assert par[p..p + 1][0] == par[p];
  }

  lemma EndIsEnd()
    ensures TypOf(END) == CEnd
  {
  }

  ghost predicate PlainCodes(codes: seq<int>, others: set<int>) {
    && (forall i :: 0 <= i < |codes| ==>
          0x03 <= codes[i] && codes[i] != ADDITIONAL_INFO && codes[i] != B_PROTOCOL && codes[i] !in others)
    && (forall i, j :: 0 <= i < j < |codes| ==> codes[i] != codes[j])
  }

  lemma {:induction false} PlainsDistinct(codes: seq<int>, rest: Items)
    requires PlainCodes(codes, Codes(rest)) && Good(rest)
    ensures Good(Plains(codes, rest))
    ensures Codes(Plains(codes, rest)) == (set c | c in codes) + Codes(rest)
    ensures codes != [] ==> Plains(codes, rest).Plain?
  {
    hide TypOf, IsPlain;
    if codes != [] {
      var first, others := codes[0], codes[1..];
      PlainCode(first);
      PlainsDistinct(others, rest);
      assert first !in others;
      SetOfCons(first, others, codes);
    }
  }

  lemma SetOfCons(first: int, others: seq<int>, codes: seq<int>)
    requires codes == [first] + others
    ensures (set c | c in codes) == {first} + (set c | c in others)
  {
  }

  lemma PlainCode(c: int)
    ensures IsPlain(c) <==> 0x03 <= c && c != ADDITIONAL_INFO && c != B_PROTOCOL
  {
  }

  ghost predicate Good(items: Items) { Distinct(items) && GroupsStartPlain(items) }

  lemma PlainListGood(codes: seq<int>)
    requires PlainCodes(codes, {})
    ensures Good(Plains(codes, Nil))
  {
    PlainsDistinct(codes, Nil);
  }

  lemma GroupGood(c: int, body: Items, rest: Items)
    requires c == ADDITIONAL_INFO || c == B_PROTOCOL
    requires Good(body) && Good(rest) && body.Plain?
    requires c !in Codes(body) && c !in Codes(rest) && Codes(body) !! Codes(rest)
    ensures Good(Group(c, body, rest))
    ensures Codes(Group(c, body, rest)) == {c} + Codes(body) + Codes(rest)
  {
  }

  const ADDITIONAL_CODES: set<int> := {ADDITIONAL_INFO, 0x0c, 0x28, 0x30, 0x1c, 0x32}
  const B_CODES: set<int> := {B_PROTOCOL, 0x06, 0x08, 0x0a, 0x05, 0x07, 0x09, 0x33}

  lemma AdditionalInfoGood()
    ensures Good(AdditionalInfoItems()) && Codes(AdditionalInfoItems()) == ADDITIONAL_CODES
  {
    hide Plains, Codes, Distinct, GroupsStartPlain, TypOf;
    NilGood();
    PlainsDistinct(ADDITIONAL_PARAMETERS, Nil);
    assert (set c | c in ADDITIONAL_PARAMETERS) == {0x0c, 0x28, 0x30, 0x1c, 0x32};
    GroupGood(ADDITIONAL_INFO, Plains(ADDITIONAL_PARAMETERS, Nil), Nil);
  }

  lemma NilGood()
    ensures Good(Nil) && Codes(Nil) == {}
  {
  }

  lemma BParameterSet()
    ensures (set c | c in B_PARAMETERS) == {0x06, 0x08, 0x0a, 0x05, 0x07, 0x09, 0x33}
  {
  }

  lemma BProtocolGood(rest: Items)
    requires Good(rest) && Codes(rest) !! B_CODES
    ensures Good(BProtocolItems(rest)) && Codes(BProtocolItems(rest)) == B_CODES + Codes(rest)
  {
    hide Plains, Codes, Distinct, GroupsStartPlain, TypOf;
    NilGood();
    PlainsDistinct(B_PARAMETERS, Nil);
    BParameterSet();
    GroupGood(B_PROTOCOL, Plains(B_PARAMETERS, Nil), rest);
  }

  lemma WithAdditionalInfo(codes: seq<int>)
    requires PlainCodes(codes, ADDITIONAL_CODES)
    ensures Good(Plains(codes, AdditionalInfoItems()))
    ensures Codes(Plains(codes, AdditionalInfoItems())) == (set c | c in codes) + ADDITIONAL_CODES
  {
    AdditionalInfoGood();
    PlainsDistinct(codes, AdditionalInfoItems());
  }

  lemma DisjointCodes()
    ensures ({0x0b, 0x29, 0x23} + ADDITIONAL_CODES) !! B_CODES
    ensures ({0x16, 0x17, 0x29} + ADDITIONAL_CODES) !! B_CODES
  {
  }

  lemma ConnectReqTailGood()
    ensures Good(BProtocolItems(Plains([0x0b, 0x29, 0x23], AdditionalInfoItems())))
    ensures Codes(BProtocolItems(Plains([0x0b, 0x29, 0x23], AdditionalInfoItems())))
         == B_CODES + ({0x0b, 0x29, 0x23} + ADDITIONAL_CODES)
  {
    hide Plains, Codes, Distinct, GroupsStartPlain, AdditionalInfoItems, BProtocolItems, TypOf, IsPlain, Good;
    DisjointCodes();
    WithAdditionalInfo([0x0b, 0x29, 0x23]);
    assert (set c | c in [0x0b, 0x29, 0x23]) == {0x0b, 0x29, 0x23};
    BProtocolGood(Plains([0x0b, 0x29, 0x23], AdditionalInfoItems()));
  }

  lemma ConnectReqGood()
    ensures Good(Plains([0x03, 0x14, 0x0e, 0x10, 0x0f, 0x11],
                        BProtocolItems(Plains([0x0b, 0x29, 0x23], AdditionalInfoItems()))))
  {
    hide Plains, Codes, Distinct, GroupsStartPlain, AdditionalInfoItems, BProtocolItems, TypOf, IsPlain, Good;
    ConnectReqTailGood();
    PlainsDistinct([0x03, 0x14, 0x0e, 0x10, 0x0f, 0x11],
                   BProtocolItems(Plains([0x0b, 0x29, 0x23], AdditionalInfoItems())));
  }

  lemma ConnectRespTailGood()
    ensures Good(BProtocolItems(Plains([0x16, 0x17, 0x29], AdditionalInfoItems())))
    ensures Codes(BProtocolItems(Plains([0x16, 0x17, 0x29], AdditionalInfoItems())))
         == B_CODES + ({0x16, 0x17, 0x29} + ADDITIONAL_CODES)
  {
    hide Plains, Codes, Distinct, GroupsStartPlain, AdditionalInfoItems, BProtocolItems, TypOf, IsPlain, Good;
    DisjointCodes();
    WithAdditionalInfo([0x16, 0x17, 0x29]);
    assert (set c | c in [0x16, 0x17, 0x29]) == {0x16, 0x17, 0x29};
    BProtocolGood(Plains([0x16, 0x17, 0x29], AdditionalInfoItems()));
  }

  lemma ConnectRespGood()
    ensures Good(Plains([0x03, 0x2f], BProtocolItems(Plains([0x16, 0x17, 0x29], AdditionalInfoItems()))))
  {
    hide Plains, Codes, Distinct, GroupsStartPlain, AdditionalInfoItems, BProtocolItems, TypOf, IsPlain, Good;
    ConnectRespTailGood();
    PlainsDistinct([0x03, 0x2f], BProtocolItems(Plains([0x16, 0x17, 0x29], AdditionalInfoItems())));
  }

  lemma SelectBProtocolGood()
    ensures Good(Plains([0x03], BProtocolItems(Nil)))
  {
    hide Plains, Codes, Distinct, GroupsStartPlain, BProtocolItems, TypOf, IsPlain, Good;
    NilGood();
    BProtocolGood(Nil);
    PlainsDistinct([0x03], BProtocolItems(Nil));
  }

  lemma AlertReqGood()
    ensures Good(Plains([0x03], AdditionalInfoItems()))
  {
    hide Plains, Good, TypOf, IsPlain, AdditionalInfoItems, Codes;
    WithAdditionalInfo([0x03]);
  }

  lemma ListenReqGood()
    ensures Good(Plains([0x03, 0x26, 0x12, 0x13, 0x10, 0x11], Nil))
  {
    hide Plains, Good, TypOf, IsPlain, AdditionalInfoItems, Codes;
    PlainListGood([0x03, 0x26, 0x12, 0x13, 0x10, 0x11]);
  }

  lemma InfoReqGood()
    ensures Good(Plains([0x03, 0x0e], AdditionalInfoItems()))
  {
    hide Plains, Good, TypOf, IsPlain, AdditionalInfoItems, Codes;
    WithAdditionalInfo([0x03, 0x0e]);
  }

  lemma FacilityReqGood()
    ensures Good(Plains([0x03, 0x20, 0x1e], Nil))
  {
    hide Plains, Good, TypOf, IsPlain, AdditionalInfoItems, Codes;
    PlainListGood([0x03, 0x20, 0x1e]);
  }

  lemma NcpiGood()
    ensures Good(Plains([0x03, 0x2c], Nil))
  {
    hide Plains, Good, TypOf, IsPlain, AdditionalInfoItems, Codes;
    PlainListGood([0x03, 0x2c]);
  }

  lemma DataB3Good()
    ensures Good(Plains([0x03, 0x18, 0x1a, 0x19, 0x21, 0x31], Nil))
  {
    hide Plains, Good, TypOf, IsPlain, AdditionalInfoItems, Codes;
    PlainListGood([0x03, 0x18, 0x1a, 0x19, 0x21, 0x31]);
  }

  lemma InfoGood()
    ensures Good(Plains([0x03, 0x24], Nil))
  {
    hide Plains, Good, TypOf, IsPlain, AdditionalInfoItems, Codes;
    PlainListGood([0x03, 0x24]);
  }

  lemma ManufacturerGood()
    ensures Good(Plains([0x03, 0x2b, 0x15, 0x22, 0x2a], Nil))
  {
    hide Plains, Good, TypOf, IsPlain, AdditionalInfoItems, Codes;
    PlainListGood([0x03, 0x2b, 0x15, 0x22, 0x2a]);
  }

  lemma FacilityConfGood()
    ensures Good(Plains([0x03, 0x24, 0x20, 0x1b], Nil))
  {
    hide Plains, Good, TypOf, IsPlain, AdditionalInfoItems, Codes;
    PlainListGood([0x03, 0x24, 0x20, 0x1b]);
  }

  lemma DataB3ConfGood()
    ensures Good(Plains([0x03, 0x19, 0x24], Nil))
  {
    hide Plains, Good, TypOf, IsPlain, AdditionalInfoItems, Codes;
    PlainListGood([0x03, 0x19, 0x24]);
  }

  lemma ConnectIndGood()
    ensures Good(Plains([0x03, 0x14, 0x0e, 0x10, 0x0f, 0x11, 0x0b, 0x29, 0x23], AdditionalInfoItems()))
  {
    hide Plains, Good, TypOf, IsPlain, AdditionalInfoItems, Codes;
    WithAdditionalInfo([0x03, 0x14, 0x0e, 0x10, 0x0f, 0x11, 0x0b, 0x29, 0x23]);
  }

  lemma ConnectActiveIndGood()
    ensures Good(Plains([0x03, 0x16, 0x17, 0x29], Nil))
  {
    hide Plains, Good, TypOf, IsPlain, AdditionalInfoItems, Codes;
    PlainListGood([0x03, 0x16, 0x17, 0x29]);
  }

  lemma DisconnectIndGood()
    ensures Good(Plains([0x03, 0x2d], Nil))
  {
    hide Plains, Good, TypOf, IsPlain, AdditionalInfoItems, Codes;
    PlainListGood([0x03, 0x2d]);
  }

  lemma InfoIndGood()
    ensures Good(Plains([0x03, 0x27, 0x25], Nil))
  {
    hide Plains, Good, TypOf, IsPlain, AdditionalInfoItems, Codes;
    PlainListGood([0x03, 0x27, 0x25]);
  }

  lemma FacilityIndGood()
    ensures Good(Plains([0x03, 0x20, 0x1d], Nil))
  {
    hide Plains, Good, TypOf, IsPlain, AdditionalInfoItems, Codes;
    PlainListGood([0x03, 0x20, 0x1d]);
  }

  lemma DisconnectB3IndGood()
    ensures Good(Plains([0x03, 0x2e, 0x2c], Nil))
  {
    hide Plains, Good, TypOf, IsPlain, AdditionalInfoItems, Codes;
    PlainListGood([0x03, 0x2e, 0x2c]);
  }

  lemma AddressGood()
    ensures Good(Plains([0x03], Nil))
  {
    hide Plains, Good, TypOf, IsPlain, AdditionalInfoItems, Codes;
    PlainListGood([0x03]);
  }

  lemma FacilityRespGood()
    ensures Good(Plains([0x03, 0x20, 0x1f], Nil))
  {
    hide Plains, Good, TypOf, IsPlain, AdditionalInfoItems, Codes;
    PlainListGood([0x03, 0x20, 0x1f]);
  }

  lemma ConnectB3RespGood()
    ensures Good(Plains([0x03, 0x2f, 0x2c], Nil))
  {
    hide Plains, Good, TypOf, IsPlain, AdditionalInfoItems, Codes;
    PlainListGood([0x03, 0x2f, 0x2c]);
  }

  lemma DataB3RespGood()
    ensures Good(Plains([0x03, 0x19], Nil))
  {
    hide Plains, Good, TypOf, IsPlain, AdditionalInfoItems, Codes;
    PlainListGood([0x03, 0x19]);
  }

  /** Every entry of the table can be driven by the cursor: its parameters are distinct and of the
      types their places need, and every group begins with a plain parameter. */
  lemma TableWellFormed(index: nat)
    requires Tree(index).Some?
    ensures Good(Tree(index).value)
  {
    hide Plains, Good, AdditionalInfoItems, BProtocolItems;
    match index
    case 0x01 | 0x04 => AlertReqGood();
    case 0x02 => ConnectReqGood();
    case 0x05 => ListenReqGood();
    case 0x08 => InfoReqGood();
    case 0x09 => FacilityReqGood();
    case 0x0a => SelectBProtocolGood();
    case 0x0b | 0x0d | 0x10 | 0x2f | 0x30 | 0x34 | 0x35 => NcpiGood();
    case 0x0f | 0x33 => DataB3Good();
    case 0x13 | 0x14 | 0x16 | 0x17 | 0x1a | 0x1c | 0x1d | 0x1f | 0x22 => InfoGood();
    case 0x18 | 0x2a | 0x3c | 0x4e => ManufacturerGood();
    case 0x1b => FacilityConfGood();
    case 0x21 => DataB3ConfGood();
    case 0x26 => ConnectIndGood();
    case 0x27 => ConnectActiveIndGood();
    case 0x28 => DisconnectIndGood();
    case 0x2c => InfoIndGood();
    case 0x2d => FacilityIndGood();
    case 0x31 => DisconnectB3IndGood();
    case 0x38 => ConnectRespGood();
    case 0x39 | 0x3a | 0x3e | 0x42 | 0x43 | 0x46 | 0x47 => AddressGood();
    case 0x3f => FacilityRespGood();
    case 0x41 => ConnectB3RespGood();
    case 0x45 => DataB3RespGood();
    case _ =>
  }
}
