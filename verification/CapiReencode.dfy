/** Decoding a message and encoding the result gives back the same bytes. */
module CapiReencode {
  import opened CapiDescriptor
  import opened CapiWire

  /** The codes of a list, those inside groups included. */
  function Codes(items: Items): set<int> {
    match items
    case Nil => {}
    case Plain(c, rest) => {c} + Codes(rest)
    case Group(c, body, rest) => {c} + Codes(body) + Codes(rest)
  }

  /** No parameter occurs twice, and every code has the type its place needs. */
  predicate Distinct(items: Items) {
    match items
    case Nil => true
    case Plain(c, rest) => IsPlain(c) && c !in Codes(rest) && Distinct(rest)
    case Group(c, body, rest) =>
      && TypOf(c).CMstruct?
      && c !in Codes(body) + Codes(rest) && Codes(body) !! Codes(rest)
      && Distinct(body) && Distinct(rest)
  }

  /** The length prefix of every group that is read is the one the standard gives its body. */
  predicate Canonical(items: Items, buf: seq<Byte>, pos: nat, got: Fields)
    decreases items
  {
    match items
    case Nil => true
    case Plain(c, rest) =>
      (match ParseValue(c, buf, pos)
       case None => true
       case Some((v, next)) => Canonical(rest, buf, next, got[c := v]))
    case Group(c, body, rest) =>
      if pos >= |buf| then true
      else if buf[pos] == 0 then Canonical(rest, buf, pos + 1, got[c := Mode(false)])
      else
        && Canonical(body, buf, BodyStart(buf, pos), got[c := Mode(true)])
        && match Parse(body, buf, BodyStart(buf, pos), got[c := Mode(true)])
           case Overrun => true
           case Done(inner, next) =>
             && (BodyStart(buf, pos) <= next <= |buf| ==>
                   buf[pos..next] == Wrap(buf[BodyStart(buf, pos)..next]))
             && Canonical(rest, buf, next, inner)
  }

  /** Reading never leaves the buffer. */
  lemma {:induction false} ParseBounds(items: Items, buf: seq<Byte>, pos: nat, got: Fields)
    requires Distinct(items) && GroupsStartPlain(items) && Parse(items, buf, pos, got).Done?
    requires pos <= |buf| || items.Plain?
    ensures pos <= Parse(items, buf, pos, got).pos <= |buf|
    decreases items
  {
    hide TypOf, StructSize, NumberSize, Num;
    match items
    case Nil =>
    case Plain(c, rest) =>
      var (v, next) := ParseValue(c, buf, pos).value;
      ParseBounds(rest, buf, next, got[c := v]);
    case Group(c, body, rest) =>
      if buf[pos] == 0 {
        ParseBounds(rest, buf, pos + 1, got[c := Mode(false)]);
      } else {
        var marked := got[c := Mode(true)];
        ParseBounds(body, buf, BodyStart(buf, pos), marked);
        var inner := Parse(body, buf, BodyStart(buf, pos), marked);
        ParseBounds(rest, buf, inner.pos, inner.fields);
      }
  }

  /** Reading a list only touches its own parameters. */
  lemma {:induction false} ParseFrame(items: Items, buf: seq<Byte>, pos: nat, got: Fields, c: int)
    requires Parse(items, buf, pos, got).Done? && c !in Codes(items) && c in got
    ensures c in Parse(items, buf, pos, got).fields && Parse(items, buf, pos, got).fields[c] == got[c]
    decreases items
  {
    hide TypOf, ParseValue;
    match items
    case Nil =>
    case Plain(d, rest) =>
      var (v, next) := ParseValue(d, buf, pos).value;
      ParseFrame(rest, buf, next, got[d := v], c);
    case Group(d, body, rest) =>
      if buf[pos] == 0 {
        ParseFrame(rest, buf, pos + 1, got[d := Mode(false)], c);
      } else {
        var marked := got[d := Mode(true)];
        ParseFrame(body, buf, BodyStart(buf, pos), marked, c);
        var inner := Parse(body, buf, BodyStart(buf, pos), marked);
        ParseFrame(rest, buf, inner.pos, inner.fields, c);
      }
  }

  lemma ReencodeValue(c: int, buf: seq<Byte>, pos: nat)
    requires IsPlain(c) && ParseValue(c, buf, pos).Some?
    ensures var (v, next) := ParseValue(c, buf, pos).value;
            pos < next <= |buf| && ValueOk(c, v) && EncodeValue(c, v) == buf[pos..next]
  {
    var (v, next) := ParseValue(c, buf, pos).value;
    if TypOf(c).CStruct? {
      var s := buf[pos..next];
      assert s[0] == buf[pos];
      if s[0] == 255 {
        assert s[1] == buf[pos + 1] && s[2] == buf[pos + 2];
        assert s[1..3] == [s[1], s[2]] == buf[pos + 1..pos + 3];
      }
    } else {
      LeOfNum(buf[pos..next]);
    }
  }

  /** `final` agrees with `f` on the parameters of `items` that `f` holds. */
  ghost predicate AgreeOn(items: Items, f: Fields, final: Fields) {
    forall c :: c in Codes(items) && c in f ==> c in final && final[c] == f[c]
  }

  /** Encoding the fields read from a canonical message gives back the bytes that were read. */
  lemma {:induction false} Reencode(items: Items, buf: seq<Byte>, pos: nat, got: Fields, final: Fields)
    requires Distinct(items) && GroupsStartPlain(items)
    requires Parse(items, buf, pos, got).Done? && Canonical(items, buf, pos, got)
    requires pos <= |buf| || items.Plain?
    requires AgreeOn(items, Parse(items, buf, pos, got).fields, final)
    ensures pos <= Parse(items, buf, pos, got).pos <= |buf|
    ensures Covers(items, final)
    ensures Encode(items, final) == buf[pos..Parse(items, buf, pos, got).pos]
    decreases items, 1
  {
    hide TypOf, EncodeValue, ValueOk, ParseValue, Wrap, BodyStart, IsPlain;
    ParseBounds(items, buf, pos, got);
    match items
    case Nil =>
    case Plain(c, rest) =>
      var (v, next) := ParseValue(c, buf, pos).value;
      var f := Parse(items, buf, pos, got).fields;
      ReencodeValue(c, buf, pos);
      ParseFrame(rest, buf, next, got[c := v], c);
      Reencode(rest, buf, next, got[c := v], final);
      assert final[c] == v;
      Slices(buf, pos, next, Parse(items, buf, pos, got).pos);
    case Group(c, body, rest) =>
      if buf[pos] == 0 {
        var got1 := got[c := Mode(false)];
        ParseFrame(rest, buf, pos + 1, got1, c);
        Reencode(rest, buf, pos + 1, got1, final);
        assert final[c] == Mode(false);
        assert buf[pos..pos + 1] == [0];
        Slices(buf, pos, pos + 1, Parse(items, buf, pos, got).pos);
      } else {
        ReencodeComposed(c, body, rest, buf, pos, got, final);
      }
  }

  lemma {:induction false} ReencodeComposed(c: int, body: Items, rest: Items, buf: seq<Byte>, pos: nat,
                                            got: Fields, final: Fields)
    requires var items := Group(c, body, rest);
             Distinct(items) && body.Plain? && GroupsStartPlain(items)
             && pos < |buf| && buf[pos] != 0
             && Parse(items, buf, pos, got).Done? && Canonical(items, buf, pos, got)
             && AgreeOn(items, Parse(items, buf, pos, got).fields, final)
    ensures var items := Group(c, body, rest);
            && Covers(items, final)
            && pos <= Parse(items, buf, pos, got).pos <= |buf|
            && Encode(items, final) == buf[pos..Parse(items, buf, pos, got).pos]
    decreases Group(c, body, rest), 0
  {
    hide TypOf, EncodeValue, ValueOk, ParseValue, Wrap, BodyStart, IsPlain;
    var start := BodyStart(buf, pos);
    var marked := got[c := Mode(true)];
    var inner := Parse(body, buf, start, marked);
    var whole := Parse(rest, buf, inner.pos, inner.fields);
    StartAfter(buf, pos);
    ParseBounds(body, buf, start, marked);
    ParseFrame(body, buf, start, marked, c);
    ParseFrame(rest, buf, inner.pos, inner.fields, c);
    forall d | d in Codes(body) && d in inner.fields
      ensures d in final && final[d] == inner.fields[d]
    {
      ParseFrame(rest, buf, inner.pos, inner.fields, d);
      assert d in Codes(Group(c, body, rest));
    }
    Reencode(body, buf, start, marked, final);
    Reencode(rest, buf, inner.pos, inner.fields, final);
    assert c in Codes(Group(c, body, rest));
    assert final[c] == Mode(true);
    Slices(buf, pos, inner.pos, whole.pos);
  }

  lemma StartAfter(buf: seq<Byte>, pos: nat)
    requires pos < |buf|
    ensures pos < BodyStart(buf, pos)
  {
  }

  lemma Slices(buf: seq<Byte>, i: nat, j: nat, k: nat)
    requires i <= j <= k <= |buf|
    ensures buf[i..j] + buf[j..k] == buf[i..k]
  {
  }

  /** What the standard's encoder writes is canonical. */
  lemma {:induction false} EncodedCanonical(items: Items, fields: Fields, buf: seq<Byte>, pos: nat, got: Fields)
    requires Covers(items, fields) && GroupsStartPlain(items)
    requires pos + |Encode(items, fields)| <= |buf|
    requires buf[pos..pos + |Encode(items, fields)|] == Encode(items, fields)
    ensures Canonical(items, buf, pos, got)
    decreases items, 1
  {
    hide EncodeValue, ValueOk, TypOf, ParseValue, Wrap, BodyStart, Normal, IsPlain, Parse;
    match items
    case Nil =>
    case Plain(c, rest) =>
      var a := EncodeValue(c, fields[c]);
      Inside(buf, pos, a, Encode(rest, fields));
      ParseEncodedValue(c, fields[c], buf, pos);
      EncodedCanonical(rest, fields, buf, pos + |a|, got[c := Normal(fields[c])]);
    case Group(c, body, rest) =>
      var tail := Encode(rest, fields);
      if fields[c].compose {
        EncodedGroupCanonical(c, body, rest, fields, buf, pos, got);
      } else {
        Inside(buf, pos, [0], tail);
        assert buf[pos] == buf[pos..pos + 1][0] == 0;
        EncodedCanonical(rest, fields, buf, pos + 1, got[c := Mode(false)]);
      }
  }

  lemma {:induction false} EncodedGroupCanonical(c: int, body: Items, rest: Items, fields: Fields,
                                                 buf: seq<Byte>, pos: nat, got: Fields)
    requires c in fields && fields[c] == Mode(true) && body.Plain?
    requires Covers(body, fields) && GroupsStartPlain(body) && Covers(rest, fields) && GroupsStartPlain(rest)
    requires var bytes := Wrap(Encode(body, fields)) + Encode(rest, fields);
             pos + |bytes| <= |buf| && buf[pos..pos + |bytes|] == bytes
    ensures Canonical(Group(c, body, rest), buf, pos, got)
    decreases Group(c, body, rest), 0
  {
    hide EncodeValue, ValueOk, TypOf, ParseValue, Wrap, BodyStart, Normal, IsPlain, Parse;
    var a, marked := Encode(body, fields), got[c := Mode(true)];
    Inside(buf, pos, Wrap(a), Encode(rest, fields));
    BodyNotEmpty(body, fields);
    InsideWrap(buf, pos, a);
    ParseEncoded(body, fields, buf, BodyStart(buf, pos), marked);
    EncodedCanonical(body, fields, buf, BodyStart(buf, pos), marked);
    EncodedCanonical(rest, fields, buf, pos + |Wrap(a)|, Store(body, fields, marked));
  }

  /** A 64-bit parameter is always read as a number. */
  lemma {:induction false} NumbersStay(items: Items, buf: seq<Byte>, pos: nat, got: Fields, c: int)
    requires Distinct(items) && Parse(items, buf, pos, got).Done?
    requires !TypOf(c).CStruct? && !TypOf(c).CMstruct? && c in got && got[c].Number?
    ensures var f := Parse(items, buf, pos, got).fields; c in f && f[c].Number?
    decreases items
  {
    hide StructSize, NumberSize, Num;
    match items
    case Nil =>
    case Plain(d, rest) =>
      var (v, next) := ParseValue(d, buf, pos).value;
      NumbersStay(rest, buf, next, got[d := v], c);
    case Group(d, body, rest) =>
      if buf[pos] == 0 {
        NumbersStay(rest, buf, pos + 1, got[d := Mode(false)], c);
      } else {
        var marked := got[d := Mode(true)];
        NumbersStay(body, buf, BodyStart(buf, pos), marked, c);
        var inner := Parse(body, buf, BodyStart(buf, pos), marked);
        NumbersStay(rest, buf, inner.pos, inner.fields, c);
      }
  }
}
