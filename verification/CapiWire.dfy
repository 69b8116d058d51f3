/** The parameter part of a CAPI 2.0 message as bytes: the standard's encoding of a parameter
    list, the encoding the library writes, the library's decoder, and how they relate. */
module CapiWire {
  import opened CapiDescriptor

  newtype Byte = b: int | 0 <= b < 256

  // ---- little-endian numbers ----

  function Le(n: nat, w: nat): (s: seq<Byte>)
    ensures |s| == w
  {
    if w == 0 then [] else [(n % 256) as Byte] + Le(n / 256, w - 1)
  }

  function Num(s: seq<Byte>): nat {
    if s == [] then 0 else s[0] as nat + 256 * Num(s[1..])
  }

  function Pow256(w: nat): nat { if w == 0 then 1 else 256 * Pow256(w - 1) }

  lemma {:induction false} NumOfLe(n: nat, w: nat)
    requires n < Pow256(w)
    ensures Num(Le(n, w)) == n
    decreases w
  {
    if w > 0 {
      NumOfLe(n / 256, w - 1);
      assert Le(n, w)[1..] == Le(n / 256, w - 1);
    }
  }

  lemma {:induction false} LeOfNum(s: seq<Byte>)
    ensures Num(s) < Pow256(|s|) && Le(Num(s), |s|) == s
  {
    if s != [] {
      LeOfNum(s[1..]);
      DivMod256(s[0] as nat, Num(s[1..]));
      assert s == [s[0]] + s[1..];
    }
  }

  lemma DivMod256(x: nat, y: nat)
    requires x < 256
    ensures (x + 256 * y) % 256 == x && (x + 256 * y) / 256 == y
  {
  }

  // ---- parameter values ----

  /** A struct is kept as the raw bytes its pointer designates, length prefix included; no bytes
      stand for the null pointer. */
  datatype Value = Number(n: nat) | Struct(bytes: seq<Byte>) | Mode(compose: bool)

  type Fields = map<int, Value>

  function NumberSize(c: int): nat {
    match TypOf(c)
    case CByte => 1
    case CWord => 2
    case CDword => 4
    case CQword => 8
    case _ => 0
  }

  /** Size of the struct that starts at `pos`, from its one- or three-byte length prefix. */
  function StructSize(buf: seq<Byte>, pos: nat): Option<nat> {
    if pos >= |buf| then None
    else if buf[pos] != 255 then Some(1 + buf[pos] as nat)
    else if pos + 3 <= |buf| then Some(3 + Num(buf[pos + 1..pos + 3]))
    else None
  }

  predicate ValueOk(c: int, v: Value) {
    match TypOf(c)
    case CStruct => v.Struct? && (v.bytes == [] || StructSize(v.bytes, 0) == Some(|v.bytes|))
    case CMstruct => v.Mode?
    case CEnd => false
    case _ => v.Number? && v.n < Pow256(NumberSize(c))
  }

  function EncodeValue(c: int, v: Value): seq<Byte>
    requires IsPlain(c) && ValueOk(c, v)
  {
    if TypOf(c).CStruct? then (if v.bytes == [] then [0] else v.bytes) else Le(v.n, NumberSize(c))
  }

  /** What the decoder reports for a value: an absent struct comes back as an empty one. */
  function Normal(v: Value): Value { if v == Struct([]) then Struct([0]) else v }

  /** Every parameter the message transmits has a value of its type. */
  predicate Covers(items: Items, fields: Fields) {
    match items
    case Nil => true
    case Plain(c, rest) => IsPlain(c) && c in fields && ValueOk(c, fields[c]) && Covers(rest, fields)
    case Group(c, body, rest) =>
      && TypOf(c).CMstruct? && c in fields && fields[c].Mode?
      && (fields[c].compose ==> Covers(body, fields))
      && Covers(rest, fields)
  }

  // ---- the encoding of the standard, and the one the library writes ----

  function Wrap(body: seq<Byte>): seq<Byte> {
    if |body| < 255 then [|body| as Byte] + body else [255] + Le(|body|, 2) + body
  }

  function Encode(items: Items, fields: Fields): seq<Byte>
    requires Covers(items, fields)
  {
    match items
    case Nil => []
    case Plain(c, rest) => EncodeValue(c, fields[c]) + Encode(rest, fields)
    case Group(c, body, rest) =>
      (if fields[c].compose then Wrap(Encode(body, fields)) else [0]) + Encode(rest, fields)
  }

  /** The library moves a long group body up to make room for the three-byte length but does not
      count the two bytes, so what follows overwrites the end of the body. */
  function LibraryWrap(body: seq<Byte>): seq<Byte> {
    if |body| < 255 then [|body| as Byte] + body else [255] + Le(|body|, 2) + body[..|body| - 2]
  }

  function Written(items: Items, fields: Fields): seq<Byte>
    requires Covers(items, fields)
  {
    match items
    case Nil => []
    case Plain(c, rest) => EncodeValue(c, fields[c]) + Written(rest, fields)
    case Group(c, body, rest) =>
      (if fields[c].compose then LibraryWrap(Written(body, fields)) else [0]) + Written(rest, fields)
  }

  /** Some composed group of the message holds 255 bytes or more. */
  predicate Oversize(items: Items, fields: Fields)
    requires Covers(items, fields)
  {
    match items
    case Nil => false
    case Plain(_, rest) => Oversize(rest, fields)
    case Group(c, body, rest) =>
      || (fields[c].compose && (|Encode(body, fields)| >= 255 || Oversize(body, fields)))
      || Oversize(rest, fields)
  }

  lemma {:induction false} OversizeLosesBytes(items: Items, fields: Fields)
    requires Covers(items, fields)
    ensures !Oversize(items, fields) ==> Written(items, fields) == Encode(items, fields)
    ensures Oversize(items, fields) ==> |Written(items, fields)| < |Encode(items, fields)|
    decreases items
  {
    hide IsPlain, ValueOk, EncodeValue, TypOf;
    match items
    case Nil =>
    case Plain(c, rest) =>
      OversizeLosesBytes(rest, fields);
    case Group(c, body, rest) =>
      OversizeLosesBytes(rest, fields);
      if fields[c].compose {
        OversizeLosesBytes(body, fields);
      }
  }

  /** The library writes the standard's encoding exactly when no composed group reaches 255 bytes. */
  lemma WrittenIsStandard(items: Items, fields: Fields)
    requires Covers(items, fields)
    ensures Written(items, fields) == Encode(items, fields) <==> !Oversize(items, fields)
  {
    OversizeLosesBytes(items, fields);
  }

  // ---- the decoder ----

  datatype Parsed = Overrun | Done(fields: Fields, pos: nat)

  /** Reads `items` from `buf` at `pos` into `got`; `Overrun` when the buffer ends too early. */
  function Parse(items: Items, buf: seq<Byte>, pos: nat, got: Fields): Parsed
    decreases items
  {
    match items
    case Nil => Done(got, pos)
    case Plain(c, rest) =>
      (match ParseValue(c, buf, pos)
       case None => Overrun
       case Some((v, next)) => Parse(rest, buf, next, got[c := v]))
    case Group(c, body, rest) =>
      if pos >= |buf| then Overrun
      else if buf[pos] == 0 then Parse(rest, buf, pos + 1, got[c := Mode(false)])
      else match Parse(body, buf, BodyStart(buf, pos), got[c := Mode(true)])
        case Overrun => Overrun
        case Done(inner, next) => Parse(rest, buf, next, inner)
  }

  function BodyStart(buf: seq<Byte>, pos: nat): nat
    requires pos < |buf|
  {
    if buf[pos] == 255 then pos + 3 else pos + 1
  }

  function ParseValue(c: int, buf: seq<Byte>, pos: nat): Option<(Value, nat)> {
    if TypOf(c).CStruct? then
      match StructSize(buf, pos)
      case None => None
      case Some(size) => if pos + size <= |buf| then Some((Struct(buf[pos..pos + size]), pos + size)) else None
    else
      var w := NumberSize(c);
      if pos + w <= |buf| then Some((Number(Num(buf[pos..pos + w])), pos + w)) else None
  }

  // ---- decoding what was encoded ----

  /** The fields the decoder ends with when it reads what `fields` was encoded to. */
  function Store(items: Items, fields: Fields, got: Fields): Fields
    requires Covers(items, fields)
    decreases items
  {
    match items
    case Nil => got
    case Plain(c, rest) => Store(rest, fields, got[c := Normal(fields[c])])
    case Group(c, body, rest) =>
      var marked := got[c := fields[c]];
      Store(rest, fields, if fields[c].compose then Store(body, fields, marked) else marked)
  }

  /** The parameters a message transmits: not those inside a defaulted group. */
  function Sent(items: Items, fields: Fields): set<int>
    requires Covers(items, fields)
  {
    match items
    case Nil => {}
    case Plain(c, rest) => {c} + Sent(rest, fields)
    case Group(c, body, rest) =>
      {c} + (if fields[c].compose then Sent(body, fields) else {}) + Sent(rest, fields)
  }

  /** Every transmitted parameter arrives with its value and nothing else is touched. */
  lemma {:induction false} StoredFields(items: Items, fields: Fields, got: Fields, c: int)
    requires Covers(items, fields)
    ensures c in Sent(items, fields) ==>
              c in fields && c in Store(items, fields, got) && Store(items, fields, got)[c] == Normal(fields[c])
    ensures c !in Sent(items, fields) ==>
              (c in Store(items, fields, got) <==> c in got) && (c in got ==> Store(items, fields, got)[c] == got[c])
    decreases items
  {
    hide ValueOk, TypOf, IsPlain;
    match items
    case Nil =>
    case Plain(d, rest) =>
      StoredFields(rest, fields, got[d := Normal(fields[d])], c);
    case Group(d, body, rest) =>
      var marked := got[d := fields[d]];
      if fields[d].compose {
        StoredFields(body, fields, marked, c);
        StoredFields(rest, fields, Store(body, fields, marked), c);
      } else {
        StoredFields(rest, fields, marked, c);
      }
  }

  lemma StructSizeInPlace(s: seq<Byte>, buf: seq<Byte>, pos: nat)
    requires pos + |s| <= |buf| && buf[pos..pos + |s|] == s
    requires StructSize(s, 0) == Some(|s|)
    ensures StructSize(buf, pos) == Some(|s|)
  {
    assert buf[pos] == s[0];
    if s[0] == 255 {
      assert buf[pos + 1] == s[1] && buf[pos + 2] == s[2];
      assert buf[pos + 1..pos + 3] == [s[1], s[2]] == s[1..3];
    }
  }

  lemma ParseEncodedValue(c: int, v: Value, buf: seq<Byte>, pos: nat)
    requires IsPlain(c) && ValueOk(c, v)
    requires pos + |EncodeValue(c, v)| <= |buf|
    requires buf[pos..pos + |EncodeValue(c, v)|] == EncodeValue(c, v)
    ensures ParseValue(c, buf, pos) == Some((Normal(v), pos + |EncodeValue(c, v)|))
    ensures |EncodeValue(c, v)| > 0
  {
    if TypOf(c).CStruct? {
      StructSizeInPlace(EncodeValue(c, v), buf, pos);
    } else {
      NumOfLe(v.n, NumberSize(c));
    }
  }

  /** A part of a byte string in place is in place. */
  lemma Inside(buf: seq<Byte>, pos: nat, a: seq<Byte>, b: seq<Byte>)
    requires pos + |a + b| <= |buf| && buf[pos..pos + |a + b|] == a + b
    ensures buf[pos..pos + |a|] == a
    ensures buf[pos + |a|..pos + |a| + |b|] == b
  {
    assert buf[pos..pos + |a|] == buf[pos..pos + |a + b|][..|a|];
    assert buf[pos + |a|..pos + |a| + |b|] == buf[pos..pos + |a + b|][|a|..];
  }

  lemma InsideWrap(buf: seq<Byte>, pos: nat, body: seq<Byte>)
    requires body != [] && pos + |Wrap(body)| <= |buf| && buf[pos..pos + |Wrap(body)|] == Wrap(body)
    ensures pos < |buf| && buf[pos] != 0
    ensures BodyStart(buf, pos) + |body| == pos + |Wrap(body)|
    ensures buf[BodyStart(buf, pos)..BodyStart(buf, pos) + |body|] == body
  {
    assert buf[pos] == Wrap(body)[0];
    if |body| < 255 {
      Inside(buf, pos, [|body| as Byte], body);
    } else {
      Inside(buf, pos, [255] + Le(|body|, 2), body);
    }
  }

  /** Decoding the standard's encoding gives back every transmitted parameter and stops at its end. */
  lemma {:induction false} ParseEncoded(items: Items, fields: Fields, buf: seq<Byte>, pos: nat, got: Fields)
    requires Covers(items, fields) && GroupsStartPlain(items)
    requires pos + |Encode(items, fields)| <= |buf|
    requires buf[pos..pos + |Encode(items, fields)|] == Encode(items, fields)
    ensures Parse(items, buf, pos, got) == Done(Store(items, fields, got), pos + |Encode(items, fields)|)
    decreases items
  {
    hide EncodeValue, ValueOk, TypOf, ParseValue, Wrap, BodyStart, Normal, IsPlain;
    match items
    case Nil =>
    case Plain(c, rest) =>
      var a := EncodeValue(c, fields[c]);
      Inside(buf, pos, a, Encode(rest, fields));
      ParseEncodedValue(c, fields[c], buf, pos);
      ParseEncoded(rest, fields, buf, pos + |a|, got[c := Normal(fields[c])]);
    case Group(c, body, rest) =>
      if fields[c].compose {
        ParseEncodedGroup(c, body, rest, fields, buf, pos, got);
      } else {
        Inside(buf, pos, [0], Encode(rest, fields));
        assert buf[pos] == buf[pos..pos + 1][0] == 0;
        ParseEncoded(rest, fields, buf, pos + 1, got[c := Mode(false)]);
      }
  }

  /** The same for a list that starts with a composed group. */
  lemma {:induction false} ParseEncodedGroup(c: int, body: Items, rest: Items, fields: Fields,
                                             buf: seq<Byte>, pos: nat, got: Fields)
    requires c in fields && fields[c] == Mode(true) && body.Plain?
    requires Covers(body, fields) && GroupsStartPlain(body) && Covers(rest, fields) && GroupsStartPlain(rest)
    requires
      var bytes := Wrap(Encode(body, fields)) + Encode(rest, fields);
      pos + |bytes| <= |buf| && buf[pos..pos + |bytes|] == bytes
    ensures
      Parse(Group(c, body, rest), buf, pos, got)
      == Done(Store(rest, fields, Store(body, fields, got[c := Mode(true)])),
              pos + |Wrap(Encode(body, fields)) + Encode(rest, fields)|)
    decreases Group(c, body, rest), 0
  {
    hide EncodeValue, ValueOk, TypOf, ParseValue, Wrap, BodyStart, Normal, IsPlain, Parse, Store, Encode, Covers;
    var a := Encode(body, fields);
    var inner := Store(body, fields, got[c := Mode(true)]);
    Inside(buf, pos, Wrap(a), Encode(rest, fields));
    BodyNotEmpty(body, fields);
    InsideWrap(buf, pos, a);
    ParseEncoded(body, fields, buf, BodyStart(buf, pos), got[c := Mode(true)]);
    ParseEncoded(rest, fields, buf, pos + |Wrap(a)|, inner);
    ParseComposed(c, body, rest, buf, pos, got, inner, pos + |Wrap(a)|);
  }

  lemma ParseComposed(c: int, body: Items, rest: Items, buf: seq<Byte>, pos: nat, got: Fields, inner: Fields, next: nat)
    requires pos < |buf| && buf[pos] != 0
    requires Parse(body, buf, BodyStart(buf, pos), got[c := Mode(true)]) == Done(inner, next)
    ensures Parse(Group(c, body, rest), buf, pos, got) == Parse(rest, buf, next, inner)
  {
  }

  lemma BodyNotEmpty(body: Items, fields: Fields)
    requires Covers(body, fields) && body.Plain?
    ensures Encode(body, fields) != []
  {
  }
}
