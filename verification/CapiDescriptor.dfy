/** Message descriptors: the strings of parameter codes that drive the CAPI 2.0 encoder and
    decoder, the trees they stand for, and the cursor that walks them. */
module CapiDescriptor {
  datatype Option<T> = None | Some(value: T)

  datatype Typ = CByte | CWord | CDword | CQword | CStruct | CMstruct | CEnd

  const DWORDS: set<int> := {0x03, 0x12, 0x13, 0x15, 0x18, 0x22, 0x26, 0x2b}
  const WORDS: set<int> := {0x06, 0x08, 0x0a, 0x14, 0x19, 0x1a, 0x20, 0x21, 0x24, 0x27, 0x2d, 0x2e, 0x2f}
  const DATA64: int := 0x31
  const ADDITIONAL_INFO: int := 0x04
  const B_PROTOCOL: int := 0x0d
  const END: int := 0x01

  /** The type of the parameter with code `c`. */
  function TypOf(c: int): Typ {
    if c < 0x03 then CEnd
    else if c == ADDITIONAL_INFO || c == B_PROTOCOL then CMstruct
    else if c in DWORDS then CDword
    else if c in WORDS then CWord
    else if c == DATA64 then CQword
    else CStruct
  }

  predicate IsPlain(c: int) { !TypOf(c).CMstruct? && !TypOf(c).CEnd? }

  /** A list of parameters; a group is a composed struct with parameters of its own. */
  datatype Items = Nil | Plain(code: int, rest: Items) | Group(code: int, body: Items, rest: Items)

  /** Codes needed to write the list in a descriptor, without its closing mark. */
  function Width(items: Items): nat {
    match items
    case Nil => 0
    case Plain(_, rest) => 1 + Width(rest)
    case Group(_, body, rest) => 1 + Width(body) + 1 + Width(rest)
  }

  /** From place `p` the descriptor holds the codes of `items` and then a closing mark. */
  predicate At(par: seq<int>, p: nat, items: Items)
    decreases items
  {
    p < |par| &&
    match items
    case Nil => TypOf(par[p]) == CEnd
    case Plain(c, rest) => par[p] == c && IsPlain(c) && At(par, p + 1, rest)
    case Group(c, body, rest) =>
      par[p] == c && TypOf(c) == CMstruct && At(par, p + 1, body) && At(par, p + 2 + Width(body), rest)
  }

  /** Every group, at any depth, begins with a plain field. */
  predicate GroupsStartPlain(items: Items) {
    match items
    case Nil => true
    case Plain(_, rest) => GroupsStartPlain(rest)
    case Group(_, body, rest) => body.Plain? && GroupsStartPlain(body) && GroupsStartPlain(rest)
  }

  lemma {:induction false} AtEnd(par: seq<int>, p: nat, items: Items)
    requires At(par, p, items)
    ensures p + Width(items) < |par| && TypOf(par[p + Width(items)]) == CEnd
    decreases items
  {
    hide TypOf;
    match items
    case Nil =>
    case Plain(_, rest) => AtEnd(par, p + 1, rest);
    case Group(_, body, rest) => AtEnd(par, p + 2 + Width(body), rest);
  }

  /** A descriptor has one reading as a list. */
  lemma {:induction false} AtUnique(par: seq<int>, p: nat, a: Items, b: Items)
    requires At(par, p, a) && At(par, p, b)
    ensures a == b
    decreases a
  {
    hide TypOf;
    match a
    case Nil =>
    case Plain(_, rest) => AtUnique(par, p + 1, rest, b.rest);
    case Group(_, body, rest) =>
      AtUnique(par, p + 1, body, b.body);
      AtUnique(par, p + 2 + Width(body), rest, b.rest);
  }

  // ---- skipping a defaulted group ----

  /** Where a scan that is `layer` groups deep, looking at place `q` next, closes its last group. */
  function Scan(par: seq<int>, q: nat, layer: nat): Option<nat>
    requires layer > 0
    decreases |par| - q
  {
    if q >= |par| then None
    else match TypOf(par[q])
      case CMstruct => Scan(par, q + 1, layer + 1)
      case CEnd => if layer == 1 then Some(q) else Scan(par, q + 1, layer - 1)
      case _ => Scan(par, q + 1, layer)
  }

  lemma {:induction false} ScanPastItems(par: seq<int>, q: nat, layer: nat, items: Items)
    requires layer > 0 && At(par, q, items)
    ensures Scan(par, q, layer) == Scan(par, q + Width(items), layer)
    decreases items
  {
    hide TypOf;
    match items
    case Nil =>
    case Plain(_, rest) => ScanPastItems(par, q + 1, layer, rest);
    case Group(_, body, rest) =>
      ScanPastItems(par, q + 1, layer + 1, body);
      AtEnd(par, q + 1, body);
      ScanPastItems(par, q + 2 + Width(body), layer, rest);
  }

  lemma {:induction false} ScanStaysAhead(par: seq<int>, q: nat, layer: nat)
    requires layer > 0 && Scan(par, q, layer).Some?
    ensures q <= Scan(par, q, layer).value < |par|
    decreases |par| - q
  {
    hide TypOf;
    match TypOf(par[q])
    case CMstruct => ScanStaysAhead(par, q + 1, layer + 1);
    case CEnd => if layer > 1 { ScanStaysAhead(par, q + 1, layer - 1); }
    case _ => ScanStaysAhead(par, q + 1, layer);
  }

  /** Where jumpcstruct stops when started on the opening code of a group: it steps over the
      group's first code without looking at it. */
  function JumpTarget(par: seq<int>, p: nat): Option<nat> {
    Scan(par, p + 2, 1)
  }

  /** jumpcstruct stops on the closing mark of the group exactly when the group begins with a
      plain field. */
  lemma JumpClosesGroup(par: seq<int>, p: nat, body: Items)
    requires At(par, p + 1, body)
    ensures JumpTarget(par, p) == Some(p + 1 + Width(body)) <==> body.Plain?
  {
    hide TypOf;
    match body
    case Nil =>
      if JumpTarget(par, p).Some? { ScanStaysAhead(par, p + 2, 1); }
    case Plain(_, rest) =>
      ScanPastItems(par, p + 2, 1, rest);
      AtEnd(par, p + 2, rest);
    case Group(_, inner, rest) =>
      ScanPastItems(par, p + 2, 1, inner);
      AtEnd(par, p + 2, inner);
  }
}
