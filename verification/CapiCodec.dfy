/** The message encoder and decoder as they run: one cursor through the descriptor, one through
    the message buffer, both shared by the recursive calls for nested groups. */
module CapiCodec {
  import opened CapiDescriptor
  import opened CapiWire
  import opened Buffers

  method PutBytes(buf: array<Byte>, at: nat, s: seq<Byte>)
    requires at + |s| <= buf.Length
    modifies buf
    ensures Held(buf, at + |s|) == old(Held(buf, at)) + s
  {
    forall i | 0 <= i < |s| {
      buf[at + i] := s[i];
    }
  }

  /** Completes a composed group whose body of `ls` bytes was written behind one free byte. */
  method CloseGroup(buf: array<Byte>, at: nat, ls: nat, ghost kept: seq<Byte>, ghost x: Byte, ghost body: seq<Byte>)
    requires at + 3 + ls <= buf.Length && ls == |body| < 0x1_0000
    requires Held(buf, at + 1 + ls) == kept + [x] + body && |kept| == at
    modifies buf
    ensures |LibraryWrap(body)| == 1 + ls
    ensures Held(buf, at + 1 + ls) == kept + LibraryWrap(body)
  {
    GroupParts(Held(buf, at + 1 + ls), kept, x, body);
    assert buf[at + 1..at + 1 + ls] == Held(buf, at + 1 + ls)[at + 1..];
    assert buf[..at] == Held(buf, at + 1 + ls)[..at];
    if ls < 255 {
      buf[at] := ls as Byte;
      assert Held(buf, at + 1 + ls) == buf[..at] + ([buf[at]] + buf[at + 1..at + 1 + ls]);
    } else {
      MoveUp(buf, at, ls);
      PutLongLength(buf, at, ls);
      HeldTruncated(buf, at, ls);
      Regroup(kept, [255] + Le(ls, 2), body[..ls - 2]);
    }
  }

  lemma Regroup(a: seq<Byte>, b: seq<Byte>, c: seq<Byte>)
    ensures (a + b) + c == a + (b + c)
  {
  }

  lemma HeldTruncated(buf: array<Byte>, at: nat, ls: nat)
    requires 255 <= ls && at + 3 + ls <= buf.Length
    ensures Held(buf, at + 1 + ls) == Held(buf, at + 3) + buf[at + 3..at + 3 + ls][..ls - 2]
  {
  }

  lemma GroupParts(whole: seq<Byte>, kept: seq<Byte>, x: Byte, body: seq<Byte>)
    requires whole == kept + [x] + body
    ensures whole[|kept| + 1..] == body && whole[..|kept|] == kept
  {
  }

  /** The overlapping move that makes room for a three-byte length. */
  method MoveUp(buf: array<Byte>, at: nat, ls: nat)
    requires at + 3 + ls <= buf.Length
    modifies buf
    ensures buf[at + 3..at + 3 + ls] == old(buf[at + 1..at + 1 + ls])
    ensures buf[..at] == old(buf[..at])
  {
    forall i | 0 <= i < ls {
      buf[at + 3 + i] := buf[at + 1 + i];
    }
  }

  method PutLongLength(buf: array<Byte>, at: nat, ls: nat)
    requires at + 3 + ls <= buf.Length
    modifies buf
    ensures Held(buf, at + 3) == old(buf[..at]) + ([255] + Le(ls, 2))
    ensures buf[at + 3..at + 3 + ls] == old(buf[at + 3..at + 3 + ls])
  {
    buf[at] := 255;
    buf[at + 1] := (ls % 256) as Byte;
    buf[at + 2] := (ls / 256 % 256) as Byte;
    assert Le(ls, 2) == [(ls % 256) as Byte, (ls / 256 % 256) as Byte];
  }

  /** Head and rest of what is written for a list. */
  ghost function WrittenHead(items: Items, fields: Fields): seq<Byte>
    requires Covers(items, fields) && !items.Nil?
  {
    match items
    case Plain(c, _) => EncodeValue(c, fields[c])
    case Group(c, body, _) => if fields[c].compose then LibraryWrap(Written(body, fields)) else [0]
  }

  lemma WrittenSplit(items: Items, fields: Fields, kept: seq<Byte>)
    requires Covers(items, fields) && !items.Nil?
    ensures Covers(items.rest, fields)
    ensures Written(items, fields) == WrittenHead(items, fields) + Written(items.rest, fields)
    ensures kept + Written(items, fields) == (kept + WrittenHead(items, fields)) + Written(items.rest, fields)
  {
    hide TypOf, IsPlain, ValueOk, EncodeValue, LibraryWrap;
    Regroup(kept, WrittenHead(items, fields), Written(items.rest, fields));
  }

  /** Reading the head of a list, and then the rest. */
  ghost function ParseHead(items: Items, buf: seq<Byte>, pos: nat, got: Fields): Parsed
    requires !items.Nil?
  {
    match items
    case Plain(c, _) =>
      (match ParseValue(c, buf, pos)
       case None => Overrun
       case Some((v, next)) => Done(got[c := v], next))
    case Group(c, body, _) =>
      if pos >= |buf| then Overrun
      else if buf[pos] == 0 then Done(got[c := Mode(false)], pos + 1)
      else Parse(body, buf, BodyStart(buf, pos), got[c := Mode(true)])
  }

  lemma ParseSplit(items: Items, buf: seq<Byte>, pos: nat, got: Fields)
    requires !items.Nil? && Parse(items, buf, pos, got).Done?
    ensures ParseHead(items, buf, pos, got).Done?
    ensures var head := ParseHead(items, buf, pos, got);
            Parse(items, buf, pos, got) == Parse(items.rest, buf, head.pos, head.fields)
  {
    hide TypOf, ParseValue, BodyStart;
  }

  lemma ParseNil(items: Items, buf: seq<Byte>, pos: nat, got: Fields)
    requires items.Nil?
    ensures Parse(items, buf, pos, got) == Done(got, pos) && Width(items) == 0
  {
  }

  function HeadWidth(items: Items): nat
    requires !items.Nil?
  {
    if items.Plain? then 0 else 1 + Width(items.body)
  }

  lemma AtRest(par: seq<int>, p: nat, items: Items)
    requires At(par, p, items) && !items.Nil?
    ensures p < |par| && TypOf(par[p]) != CEnd && par[p] == items.code
    ensures At(par, p + HeadWidth(items) + 1, items.rest)
    ensures Width(items) == HeadWidth(items) + 1 + Width(items.rest)
  {
  }

  lemma AtNil(par: seq<int>, p: nat, items: Items)
    requires At(par, p, items)
    ensures p < |par| && (TypOf(par[p]) == CEnd <==> items.Nil?)
    ensures items.Nil? ==> Width(items) == 0
  {
  }

  /** The structure a message is assembled from or taken apart into. */
  class Cmsg {
    var applId: nat
    var command: nat
    var subcommand: nat
    var messagenumber: nat
    var data: nat
    var fields: Fields
    var l: nat
    var p: nat
    var par: seq<int>
    var m: array<Byte>

    constructor (buffer: array<Byte>)
      ensures m == buffer
    {
      m := buffer;
    }

    /** Skips the descriptor of a group, from its opening code to its closing mark. */
    method JumpCStruct()
      requires JumpTarget(par, p).Some?
      modifies this`p
      ensures Some(p) == JumpTarget(par, old(p))
    {
      hide TypOf;
      ghost var target := JumpTarget(par, p);
      p := p + 1;
      var layer := 1;
      while layer > 0
        invariant layer >= 0
        invariant layer > 0 ==> Scan(par, p + 1, layer) == target
        invariant layer == 0 ==> Some(p) == target
        decreases |par| - p, layer
      {
        p := p + 1;
        match TypOf(par[p]) {
          case CMstruct => layer := layer + 1;
          case CEnd => layer := layer - 1;
          case _ =>
        }
      }
    }

    /** Writes the parameters of a list; both cursors end behind it. */
    method ParsToMessage(ghost items: Items)
      requires At(par, p, items) && GroupsStartPlain(items) && Covers(items, fields)
      requires l + |Written(items, fields)| < 0x1_0000
      requires l + |Written(items, fields)| + 2 <= m.Length
      modifies this`l, this`p, m
      ensures p == old(p) + Width(items)
      ensures l == old(l) + |Written(items, fields)|
      ensures Held(m, l) == old(Held(m, l)) + Written(items, fields)
      decreases items, 2
    {
      hide *;
      ghost var rem := items;
      ghost var all := Held(m, l) + Written(items, fields);
      AtNil(par, p, rem);
      while TypOf(par[p]) != CEnd
        invariant rem == items || rem < items
        invariant At(par, p, rem) && GroupsStartPlain(rem) && Covers(rem, fields)
        invariant p + Width(rem) == old(p) + Width(items)
        invariant l + |Written(rem, fields)| == old(l) + |Written(items, fields)|
        invariant all == Held(m, l) + Written(rem, fields)
        invariant p < |par| && (TypOf(par[p]) == CEnd <==> rem.Nil?)
        decreases rem
      {
        AtRest(par, p, rem);
        WrittenSplit(rem, fields, Held(m, l));
        PutParam(rem);
        p := p + 1;
        rem := rem.rest;
        AtNil(par, p, rem);
      }
      NothingLeft(rem, fields, Held(m, l));
    }

    /** Writes the parameter under the descriptor cursor and leaves that cursor on its last code. */
    method PutParam(ghost items: Items)
      requires At(par, p, items) && GroupsStartPlain(items) && Covers(items, fields) && !items.Nil?
      requires l + |WrittenHead(items, fields)| < 0x1_0000
      requires l + |WrittenHead(items, fields)| + 2 <= m.Length
      modifies this`l, this`p, m
      ensures p == old(p) + HeadWidth(items)
      ensures l == old(l) + |WrittenHead(items, fields)|
      ensures Held(m, l) == old(Held(m, l)) + WrittenHead(items, fields)
      ensures GroupsStartPlain(items.rest)
      decreases items, 1
    {
      var c := par[p];
      if TypOf(c).CMstruct? {
        PutGroup(items);
      } else {
        var bytes := EncodeValue(c, fields[c]);
        PutBytes(m, l, bytes);
        l := l + |bytes|;
      }
    }

    /** A defaulted group is one zero byte; a composed one is its parameters behind their length. */
    method PutGroup(ghost items: Items)
      requires At(par, p, items) && GroupsStartPlain(items) && Covers(items, fields) && items.Group?
      requires l + |WrittenHead(items, fields)| < 0x1_0000
      requires l + |WrittenHead(items, fields)| + 2 <= m.Length
      modifies this`l, this`p, m
      ensures p == old(p) + HeadWidth(items)
      ensures l == old(l) + |WrittenHead(items, fields)|
      ensures Held(m, l) == old(Held(m, l)) + WrittenHead(items, fields)
      decreases items, 0
    {
      hide TypOf, ValueOk, EncodeValue, LibraryWrap;
      if !fields[par[p]].compose {
        JumpClosesGroup(par, p, items.body);
        PutBytes(m, l, [0]);
        l := l + 1;
        JumpCStruct();
      } else {
        ghost var kept := Held(m, l);
        ghost var body := Written(items.body, fields);
        LibraryWrapSize(body);
        var l0 := l;
        l := l + 1;
        p := p + 1;
        ghost var x := m[l0];
        assert Held(m, l) == kept + [x];
        ParsToMessage(items.body);
        var ls := l - l0 - 1;
        CloseGroup(m, l0, ls, kept, x, body);
      }
    }

    /** Reads the parameters of a list out of the message; both cursors end behind it. */
    method MessageToPars(ghost items: Items)
      requires At(par, p, items) && GroupsStartPlain(items)
      requires Parse(items, m[..], l, fields).Done?
      modifies this`l, this`p, this`fields
      ensures p == old(p) + Width(items)
      ensures Done(fields, l) == old(Parse(items, m[..], l, fields))
      decreases items, 2
    {
      hide *;
      ghost var rem := items;
      ghost var buf := m[..];
      ghost var whole := Parse(items, buf, l, fields);
      AtNil(par, p, rem);
      while TypOf(par[p]) != CEnd
        invariant rem == items || rem < items
        invariant At(par, p, rem) && GroupsStartPlain(rem)
        invariant p + Width(rem) == old(p) + Width(items)
        invariant Parse(rem, buf, l, fields) == whole && buf == m[..]
        invariant p < |par| && (TypOf(par[p]) == CEnd <==> rem.Nil?)
        decreases rem
      {
        AtRest(par, p, rem);
        ParseSplit(rem, buf, l, fields);
        GetParam(rem);
        p := p + 1;
        rem := rem.rest;
        AtNil(par, p, rem);
      }
      ParseNil(rem, buf, l, fields);
    }

    /** Reads the parameter under the descriptor cursor and leaves that cursor on its last code. */
    method GetParam(ghost items: Items)
      requires At(par, p, items) && GroupsStartPlain(items) && !items.Nil?
      requires ParseHead(items, m[..], l, fields).Done?
      modifies this`l, this`p, this`fields
      ensures p == old(p) + HeadWidth(items)
      ensures Done(fields, l) == old(ParseHead(items, m[..], l, fields))
      ensures GroupsStartPlain(items.rest)
      decreases items, 1
    {
      hide StructSize, NumberSize, Num, TypOf;
      var c := par[p];
      if TypOf(c).CMstruct? {
        GetGroup(items);
      } else if TypOf(c).CStruct? {
        var size := StructSize(m[..], l).value;
        fields := fields[c := Struct(m[l..l + size])];
        l := l + size;
      } else {
        var w := NumberSize(c);
        fields := fields[c := Number(Num(m[l..l + w]))];
        l := l + w;
      }
    }

    /** Tells a defaulted group from a composed one by its first byte. */
    method GetGroup(ghost items: Items)
      requires At(par, p, items) && GroupsStartPlain(items) && items.Group?
      requires ParseHead(items, m[..], l, fields).Done?
      modifies this`l, this`p, this`fields
      ensures p == old(p) + HeadWidth(items)
      ensures Done(fields, l) == old(ParseHead(items, m[..], l, fields))
      decreases items, 0
    {
      hide TypOf;
      assert l < m.Length;
      if m[l] == 0 {
        JumpClosesGroup(par, p, items.body);
        fields := fields[par[p] := Mode(false)];
        l := l + 1;
        JumpCStruct();
      } else {
        fields := fields[par[p] := Mode(true)];
        l := if m[l] == 255 then l + 3 else l + 1;
        p := p + 1;
        MessageToPars(items.body);
      }
    }
  }

  lemma LibraryWrapSize(body: seq<Byte>)
    ensures |LibraryWrap(body)| == 1 + |body|
  {
  }

  lemma NothingLeft(items: Items, fields: Fields, kept: seq<Byte>)
    requires items.Nil?
    ensures Covers(items, fields) && Written(items, fields) == [] && Width(items) == 0
    ensures kept + Written(items, fields) == kept
  {
  }
}
