/** The DSP downloads of an Eicon combifile: one pass over the file measures those a card needs, a
    second copies their sections, padded to four bytes, into a block of the size measured. */
module FirmwareLayout {
  newtype Byte = x: int | 0 <= x < 256

  const MAX_DOWNLOADS: nat := 35
  const HEADER_SIZE: nat := 82
  const SECTIONS: nat := 7
  const CARD_BASE: nat := 0xa03a_0000
  const ROOM_PER_DOWNLOAD: nat := 100

  // The file

  /** The downloads of a combifile, each behind a usage mask, and the bit of the mask to look at. */
  datatype Combifile = Combifile(area: seq<Byte>, maskSize: nat, count: nat, usageByte: nat, usageBit: nat)

  function Word(area: seq<Byte>, at: nat): (w: nat)
    requires at + 2 <= |area|
    ensures w < 0x1_0000
  {
    area[at] as int + 256 * area[at + 1] as int
  }

  function HeaderSize(area: seq<Byte>, h: nat): (w: nat)
    requires h + HEADER_SIZE <= |area|
    ensures w < 0x1_0000
  {
    Word(area, h + 58)
  }

  /** The sizes of the sections of the download with its header at `h`: what the header has beyond
      its usual size (sixteen bits of it), description, memory blocks, segments, symbols, and the
      two kinds of data. */
  function Size(area: seq<Byte>, h: nat, j: nat): (n: nat)
    requires h + HEADER_SIZE <= |area| && j < SECTIONS
    ensures n < 0x1_0000
  {
    match j
    case 0 => (HeaderSize(area, h) - HEADER_SIZE) % 0x1_0000
    case 1 => Word(area, h + 60)
    case 2 => Word(area, h + 62)
    case 3 => Word(area, h + 66)
    case 4 => Word(area, h + 70)
    case 5 => Word(area, h + 74)
    case _ => Word(area, h + 78)
  }

  /** The sum of the sizes of the sections from `from` up to `to`. */
  function Sum(area: seq<Byte>, h: nat, from: nat, to: nat): nat
    requires h + HEADER_SIZE <= |area| && to <= SECTIONS
  {
    if from >= to then 0 else Sum(area, h, from, to - 1) + Size(area, h, to - 1)
  }

  /** Where the second pass reads section `j`. */
  function ReadFrom(area: seq<Byte>, h: nat, j: nat): nat
    requires h + HEADER_SIZE <= |area| && j <= SECTIONS
  {
    h + HeaderSize(area, h) + Sum(area, h, 0, j)
  }

  /** Where the file has section `j`: the excess of the header inside the header, the others behind
      it one after the other. */
  function Stands(area: seq<Byte>, h: nat, j: nat): nat
    requires h + HEADER_SIZE <= |area| && j <= SECTIONS
  {
    if j == 0 then h + HEADER_SIZE else h + HeaderSize(area, h) + Sum(area, h, 1, j)
  }

  /** A section that is not empty is read from its place in the file exactly when the header has the
      usual size. */
  lemma ReadInPlace(area: seq<Byte>, h: nat, j: nat)
    requires h + HEADER_SIZE <= |area| && j < SECTIONS && Size(area, h, j) > 0
    ensures ReadFrom(area, h, j) == Stands(area, h, j) <==> HeaderSize(area, h) == HEADER_SIZE
  {
    if j > 0 {
      SumFromZero(area, h, j);
    }
  }

  lemma {:induction false} SumFromZero(area: seq<Byte>, h: nat, to: nat)
    requires h + HEADER_SIZE <= |area| && 0 < to <= SECTIONS
    ensures Sum(area, h, 0, to) == Size(area, h, 0) + Sum(area, h, 1, to)
  {
    if to > 1 {
      SumFromZero(area, h, to - 1);
    }
  }

  function Pow2(k: nat): (p: nat)
    ensures p > 0
  {
    if k == 0 then 1 else 2 * Pow2(k - 1)
  }

  predicate Bit(b: Byte, k: nat) {
    (b as int / Pow2(k)) % 2 == 1
  }

  /** The header of the download that begins at `at`. */
  function HeaderOf(c: Combifile, at: nat): nat {
    at + c.maskSize
  }

  predicate IsRequired(c: Combifile, at: nat)
    requires at + c.usageByte < |c.area|
  {
    Bit(c.area[at + c.usageByte], c.usageBit)
  }

  /** Where the next download begins. */
  function Next(c: Combifile, at: nat): nat
    requires HeaderOf(c, at) + HEADER_SIZE <= |c.area|
  {
    Stands(c.area, HeaderOf(c, at), SECTIONS)
  }

  /** The second pass reads the sections of the download with its header at `h` inside the file. */
  predicate Readable(area: seq<Byte>, h: nat) {
    h + HEADER_SIZE <= |area| && ReadFrom(area, h, SECTIONS) <= |area|
  }

  predicate AllReadable(area: seq<Byte>, headers: seq<nat>) {
    forall i :: 0 <= i < |headers| ==> Readable(area, headers[i])
  }

  /** All that the two passes read of `n` downloads from `at` on lies in the file. */
  predicate InFile(c: Combifile, at: nat, n: nat)
    decreases n
  {
    n == 0 || (
      && c.usageByte < c.maskSize && c.usageBit < 8
      && HeaderOf(c, at) + HEADER_SIZE <= |c.area|
      && (IsRequired(c, at) ==> Readable(c.area, HeaderOf(c, at)))
      && InFile(c, Next(c, at), n - 1))
  }

  /** The headers of the required ones among `n` downloads from `at` on. */
  function Required(c: Combifile, at: nat, n: nat): (headers: seq<nat>)
    requires InFile(c, at, n)
    ensures |headers| <= n
    ensures AllReadable(c.area, headers)
    decreases n
  {
    if n == 0 then []
    else
      var rest := Required(c, Next(c, at), n - 1);
      if IsRequired(c, at) then [HeaderOf(c, at)] + rest else rest
  }

  // The bit of a usage mask, and the downloads it selects

  /** Powers of two up to a byte's range. */
  function TwoTo(k: nat): (p: nat)
    requires k <= 8
  {
    match k
    case 0 => 1
    case 1 => 2
    case 2 => 4
    case 3 => 8
    case 4 => 16
    case 5 => 32
    case 6 => 64
    case 7 => 128
    case _ => 256
  }

  /** A number whose bit `k` is set: `hi` stands above it, `lo` below. */
  function WithBit(hi: nat, k: nat, lo: nat): nat
    requires k < 8
  {
    hi * TwoTo(k + 1) + TwoTo(k) + lo
  }

  ghost predicate HasBit(b: Byte, k: nat)
    requires k < 8
  {
    exists hi: nat, lo: nat :: lo < TwoTo(k) && b as int == WithBit(hi, k, lo)
  }

  lemma BitIsSet(b: Byte, k: nat)
    requires k < 8
    ensures Bit(b, k) <==> HasBit(b, k)
  {
    PowersAgree(k);
    var n, t := b as int, TwoTo(k);
    hide Pow2;
    if Bit(b, k) {
      SplitAtBit(n, k);
      assert n == WithBit(n / t / 2, k, n % t);
    }
    if HasBit(b, k) {
      var hi: nat, lo: nat :| lo < TwoTo(k) && n == WithBit(hi, k, lo);
      JoinAtBit(hi, k, lo);
    }
  }

  lemma PowersAgree(k: nat)
    requires k < 8
    ensures Pow2(k) == TwoTo(k) > 0
  {
    assert Pow2(1) == 2 && Pow2(2) == 4 && Pow2(3) == 8 && Pow2(4) == 16;
    assert Pow2(5) == 32 && Pow2(6) == 64 && Pow2(7) == 128;
  }

  lemma SplitAtBit(n: nat, k: nat)
    requires k < 8 && n / TwoTo(k) % 2 == 1
    ensures n == WithBit(n / TwoTo(k) / 2, k, n % TwoTo(k))
  {
  }

  lemma JoinAtBit(hi: nat, k: nat, lo: nat)
    requires k < 8 && lo < TwoTo(k)
    ensures WithBit(hi, k, lo) / TwoTo(k) % 2 == 1
  {
    match k
    case 0 => Join1(hi, lo);
    case 1 => Join2(hi, lo);
    case 2 => Join4(hi, lo);
    case 3 => Join8(hi, lo);
    case 4 => Join16(hi, lo);
    case 5 => Join32(hi, lo);
    case 6 => Join64(hi, lo);
    case _ => Join128(hi, lo);
  }

  lemma Join1(hi: nat, lo: nat)
    requires lo < 1
    ensures (hi * 2 + 1 + lo) / 1 % 2 == 1
  {
    assert (hi * 2 + 1 + lo) / 1 == 2 * hi + 1;
  }

  lemma Join2(hi: nat, lo: nat)
    requires lo < 2
    ensures (hi * 4 + 2 + lo) / 2 % 2 == 1
  {
    assert (hi * 4 + 2 + lo) / 2 == 2 * hi + 1;
  }

  lemma Join4(hi: nat, lo: nat)
    requires lo < 4
    ensures (hi * 8 + 4 + lo) / 4 % 2 == 1
  {
    assert (hi * 8 + 4 + lo) / 4 == 2 * hi + 1;
  }

  lemma Join8(hi: nat, lo: nat)
    requires lo < 8
    ensures (hi * 16 + 8 + lo) / 8 % 2 == 1
  {
    assert (hi * 16 + 8 + lo) / 8 == 2 * hi + 1;
  }

  lemma Join16(hi: nat, lo: nat)
    requires lo < 16
    ensures (hi * 32 + 16 + lo) / 16 % 2 == 1
  {
    assert (hi * 32 + 16 + lo) / 16 == 2 * hi + 1;
  }

  lemma Join32(hi: nat, lo: nat)
    requires lo < 32
    ensures (hi * 64 + 32 + lo) / 32 % 2 == 1
  {
    assert (hi * 64 + 32 + lo) / 32 == 2 * hi + 1;
  }

  lemma Join64(hi: nat, lo: nat)
    requires lo < 64
    ensures (hi * 128 + 64 + lo) / 64 % 2 == 1
  {
    assert (hi * 128 + 64 + lo) / 64 == 2 * hi + 1;
  }

  lemma Join128(hi: nat, lo: nat)
    requires lo < 128
    ensures (hi * 256 + 128 + lo) / 128 % 2 == 1
  {
    assert (hi * 256 + 128 + lo) / 128 == 2 * hi + 1;
  }

  /** Each of `starts` begins a download with its mask and header in the file. */
  ghost predicate StartsInFile(c: Combifile, starts: seq<nat>) {
    && c.usageBit < 8
    && forall k :: 0 <= k < |starts| ==> StartInFile(c, starts[k])
  }

  predicate StartInFile(c: Combifile, at: nat) {
    at + c.usageByte < |c.area| && HeaderOf(c, at) + HEADER_SIZE <= |c.area|
  }

  ghost predicate Rising(starts: seq<nat>, from: nat) {
    starts != [] ==> from <= starts[0] && Rising(starts[1..], starts[0] + 1)
  }

  /** Where the `n` downloads from `at` on begin. */
  function Starts(c: Combifile, at: nat, n: nat): (starts: seq<nat>)
    requires InFile(c, at, n) && c.usageBit < 8
    ensures |starts| == n && StartsInFile(c, starts)
    decreases n
  {
    if n == 0 then [] else [at] + Starts(c, Next(c, at), n - 1)
  }

  lemma {:induction false} StartsRise(c: Combifile, at: nat, n: nat, from: nat)
    requires InFile(c, at, n) && c.usageBit < 8 && from <= at
    ensures Rising(Starts(c, at, n), from)
    decreases n
  {
    hide StartsInFile;
    if n > 0 {
      StartsRise(c, Next(c, at), n - 1, at + 1);
      assert Starts(c, at, n)[1..] == Starts(c, Next(c, at), n - 1);
    }
  }

  /** The card's bit is set in the mask of the download that begins at `at`. */
  ghost predicate ForCard(c: Combifile, at: nat)
    requires StartInFile(c, at) && c.usageBit < 8
  {
    HasBit(c.area[at + c.usageByte], c.usageBit)
  }

  /** The headers of those downloads whose mask has the card's bit, in file order. */
  ghost function Selected(c: Combifile, starts: seq<nat>): seq<nat>
    requires StartsInFile(c, starts)
  {
    if starts == [] then []
    else (if ForCard(c, starts[0]) then [starts[0] + c.maskSize] else []) + Selected(c, starts[1..])
  }

  lemma OneStart(c: Combifile, at: nat, n: nat)
    requires InFile(c, at, n) && c.usageBit < 8 && n > 0
    ensures StartInFile(c, at) && (IsRequired(c, at) <==> ForCard(c, at))
    ensures InFile(c, Next(c, at), n - 1)
    ensures Starts(c, at, n) == [at] + Starts(c, Next(c, at), n - 1)
    ensures Required(c, at, n)
         == (if IsRequired(c, at) then [HeaderOf(c, at)] else []) + Required(c, Next(c, at), n - 1)
  {
    BitIsSet(c.area[at + c.usageByte], c.usageBit);
    hide HasBit, Bit, Next, Readable;
  }

  lemma SelectedStep(c: Combifile, starts: seq<nat>)
    requires StartsInFile(c, starts) && starts != []
    ensures StartsInFile(c, starts[1..]) && StartInFile(c, starts[0]) && c.usageBit < 8
    ensures Selected(c, starts)
         == (if ForCard(c, starts[0]) then [starts[0] + c.maskSize] else []) + Selected(c, starts[1..])
  {
    hide ForCard, StartInFile;
    LaterStarts(c, starts);
    hide StartsInFile;
  }

  lemma LaterStarts(c: Combifile, starts: seq<nat>)
    requires StartsInFile(c, starts) && starts != []
    ensures StartsInFile(c, starts[1..]) && StartInFile(c, starts[0]) && c.usageBit < 8
  {
    hide StartInFile;
  }

  /** The second pass takes exactly these. */
  lemma {:induction false} RequiredAreSelected(c: Combifile, at: nat, n: nat)
    requires InFile(c, at, n) && c.usageBit < 8
    ensures Required(c, at, n) == Selected(c, Starts(c, at, n))
    decreases n
  {
    if n > 0 {
      hide *;
      OneStart(c, at, n);
      RequiredAreSelected(c, Next(c, at), n - 1);
      SelectedStep(c, Starts(c, at, n));
      assert Starts(c, at, n)[1..] == Starts(c, Next(c, at), n - 1);
    }
  }

  /** A download is among them if and only if its mask has the card's bit. */
  lemma {:induction false} SelectedExactly(c: Combifile, starts: seq<nat>, from: nat, k: nat)
    requires StartsInFile(c, starts) && Rising(starts, from) && k < |starts|
    ensures StartInFile(c, starts[k]) && c.usageBit < 8 && from <= starts[k]
    ensures starts[k] + c.maskSize in Selected(c, starts) <==> ForCard(c, starts[k])
  {
    hide ForCard, StartsInFile, Selected;
    SelectedStep(c, starts);
    if k == 0 {
      SelectedLater(c, starts[1..], starts[0] + 1, starts[0] + c.maskSize);
    } else {
      SelectedExactly(c, starts[1..], starts[0] + 1, k - 1);
    }
  }

  lemma {:induction false} SelectedLater(c: Combifile, starts: seq<nat>, from: nat, h: nat)
    requires StartsInFile(c, starts) && Rising(starts, from) && h < from + c.maskSize
    ensures h !in Selected(c, starts)
  {
    hide ForCard, StartsInFile;
    if starts != [] {
      SelectedStep(c, starts);
      SelectedLater(c, starts[1..], starts[0] + 1, h);
    }
  }

  lemma {:induction false} SumGrows(area: seq<Byte>, h: nat, j: nat, k: nat)
    requires h + HEADER_SIZE <= |area| && j <= k <= SECTIONS
    ensures Sum(area, h, 0, j) <= Sum(area, h, 0, k)
    decreases k - j
  {
    if j < k {
      SumGrows(area, h, j, k - 1);
    }
  }

  /** What the second pass stores as section `j`. */
  function Section(area: seq<Byte>, h: nat, j: nat): (s: seq<Byte>)
    requires Readable(area, h) && j < SECTIONS
    ensures |s| == Size(area, h, j)
  {
    SumGrows(area, h, j + 1, SECTIONS);
    area[ReadFrom(area, h, j)..ReadFrom(area, h, j + 1)]
  }

  /** The first `j` sections of a download. */
  function Sections(area: seq<Byte>, h: nat, j: nat): (parts: seq<seq<Byte>>)
    requires Readable(area, h) && j <= SECTIONS
    ensures |parts| == j
  {
    if j == 0 then [] else Sections(area, h, j - 1) + [Section(area, h, j - 1)]
  }

  function AllSections(area: seq<Byte>, headers: seq<nat>): (parts: seq<seq<Byte>>)
    requires AllReadable(area, headers)
    ensures |parts| == SECTIONS * |headers|
  {
    if headers == [] then []
    else
      var n := |headers| - 1;
      AllSections(area, headers[..n]) + Sections(area, headers[n], SECTIONS)
  }

  /** What the first pass measures. */
  function Length(area: seq<Byte>, headers: seq<nat>): nat
    requires AllReadable(area, headers)
  {
    if headers == [] then 0
    else
      var n := |headers| - 1;
      Length(area, headers[..n]) + Sum(area, headers[n], 0, SECTIONS)
  }

  // The block

  function Pad(n: nat): (k: nat)
    ensures k < 4 && (n + k) % 4 == 0
  {
    (4 - n % 4) % 4
  }

  function Zeros(n: nat): (s: seq<Byte>)
    ensures |s| == n
  {
    seq(n, i => 0)
  }

  function Padded(s: seq<Byte>): (r: seq<Byte>)
    ensures |r| % 4 == 0
  {
    s + Zeros(Pad(|s|))
  }

  /** The sections one after the other, each padded to four bytes. */
  function Image(parts: seq<seq<Byte>>): (s: seq<Byte>)
    ensures |s| % 4 == 0
  {
    if parts == [] then []
    else
      var n := |parts| - 1;
      Image(parts[..n]) + Padded(parts[n])
  }

  /** The offset of section `k` in the block. */
  function Offset(parts: seq<seq<Byte>>, k: nat): (n: nat)
    requires k <= |parts|
    ensures n % 4 == 0
  {
    |Image(parts[..k])|
  }

  function Total(parts: seq<seq<Byte>>): nat {
    if parts == [] then 0
    else
      var n := |parts| - 1;
      Total(parts[..n]) + |parts[n]|
  }

  lemma {:induction false} ImagePrefix(parts: seq<seq<Byte>>, k: nat)
    requires k <= |parts|
    ensures Image(parts[..k]) <= Image(parts)
  {
    if k == |parts| {
      assert parts[..k] == parts;
    } else {
      var n := |parts| - 1;
      assert parts[..n][..k] == parts[..k];
      ImagePrefix(parts[..n], k);
    }
  }

  /** Each section lies in the block at its offset, and less than four zeros follow it. */
  lemma SectionInPlace(parts: seq<seq<Byte>>, k: nat)
    requires k < |parts|
    ensures Offset(parts, k) + |parts[k]| <= |Image(parts)|
    ensures Image(parts)[Offset(parts, k)..][..|parts[k]|] == parts[k]
    ensures Offset(parts, k) + |parts[k]| <= Offset(parts, k + 1) < Offset(parts, k) + |parts[k]| + 4
    ensures Offset(parts, k + 1) <= |Image(parts)|
    ensures forall i :: Offset(parts, k) + |parts[k]| <= i < Offset(parts, k + 1) ==> Image(parts)[i] == 0
  {
    var upTo := parts[..k + 1];
    assert upTo[..k] == parts[..k];
    assert Image(upTo) == Image(parts[..k]) + Padded(parts[k]);
    ImagePrefix(parts, k + 1);
    assert forall i :: |parts[k]| <= i < |Padded(parts[k])| ==> Padded(parts[k])[i] == 0;
  }

  /** Two sections do not overlap. */
  lemma SectionsApart(parts: seq<seq<Byte>>, j: nat, k: nat)
    requires j < k < |parts|
    ensures Offset(parts, j) + |parts[j]| <= Offset(parts, k)
  {
    var upTo := parts[..k];
    assert upTo[..j] == parts[..j];
    SectionInPlace(upTo, j);
  }

  /** Padding costs at most three bytes a section. */
  lemma {:induction false} ImageBound(parts: seq<seq<Byte>>)
    ensures Total(parts) <= |Image(parts)| <= Total(parts) + 3 * |parts|
  {
    if parts != [] {
      ImageBound(parts[..|parts| - 1]);
    }
  }

  lemma {:induction false} TotalConcat(a: seq<seq<Byte>>, b: seq<seq<Byte>>)
    ensures Total(a + b) == Total(a) + Total(b)
  {
    if b == [] {
      assert a + b == a;
    } else {
      var n := |b| - 1;
      assert (a + b)[..|a| + n] == a + b[..n];
      TotalConcat(a, b[..n]);
    }
  }

  lemma {:induction false} TotalOfSections(area: seq<Byte>, h: nat, j: nat)
    requires Readable(area, h) && j <= SECTIONS
    ensures Total(Sections(area, h, j)) == Sum(area, h, 0, j)
  {
    hide Size, Word, HeaderSize, ReadFrom;
    if j > 0 {
      var parts := Sections(area, h, j);
      assert parts[..j - 1] == Sections(area, h, j - 1);
      TotalOfSections(area, h, j - 1);
    }
  }

  lemma {:induction false} TotalOfAll(area: seq<Byte>, headers: seq<nat>)
    requires AllReadable(area, headers)
    ensures Total(AllSections(area, headers)) == Length(area, headers)
  {
    if headers != [] {
      var n := |headers| - 1;
      TotalOfAll(area, headers[..n]);
      TotalOfSections(area, headers[n], SECTIONS);
      TotalConcat(AllSections(area, headers[..n]), Sections(area, headers[n], SECTIONS));
    }
  }

  /** What the second pass writes fits the block that the first pass has measured: padding takes at
      most 21 of the 100 bytes that are added for each download. */
  lemma BlockSuffices(area: seq<Byte>, headers: seq<nat>)
    requires AllReadable(area, headers)
    ensures Length(area, headers) <= |Image(AllSections(area, headers))| <= Length(area, headers) + 21 * |headers|
    ensures |Image(AllSections(area, headers))| <= Length(area, headers) + ROOM_PER_DOWNLOAD * |headers|
  {
    TotalOfAll(area, headers);
    ImageBound(AllSections(area, headers));
  }

  // The sections of a download in the block

  lemma SectionsStep(area: seq<Byte>, h: nat, j: nat)
    requires Readable(area, h) && j < SECTIONS
    ensures h + HEADER_SIZE <= |area|
    ensures ReadFrom(area, h, j + 1) == ReadFrom(area, h, j) + Size(area, h, j) <= |area|
    ensures Section(area, h, j) == area[ReadFrom(area, h, j)..][..Size(area, h, j)]
    ensures Sections(area, h, j + 1) == Sections(area, h, j) + [Section(area, h, j)]
  {
    SumGrows(area, h, j + 1, SECTIONS);
  }

  lemma {:induction false} SectionsPrefix(area: seq<Byte>, h: nat, j: nat, k: nat)
    requires Readable(area, h) && j <= k <= SECTIONS
    ensures Sections(area, h, j) <= Sections(area, h, k)
  {
    if j < k {
      SectionsPrefix(area, h, j, k - 1);
    }
  }

  lemma {:induction false} AllPrefix(area: seq<Byte>, headers: seq<nat>, i: nat, j: nat)
    requires AllReadable(area, headers)
    requires i < |headers| && j <= SECTIONS
    ensures AllSections(area, headers[..i]) + Sections(area, headers[i], j) <= AllSections(area, headers)
  {
    hide Readable, Sections;
    var n := |headers| - 1;
    if i == n {
      SectionsPrefix(area, headers[n], j, SECTIONS);
    } else {
      assert headers[..n][..i] == headers[..i];
      AllPrefix(area, headers[..n], i, j);
    }
  }

  /** With a header of the usual size the block gets the sections of the file. */
  lemma SectionsCopied(area: seq<Byte>, h: nat, j: nat)
    requires Readable(area, h) && j < SECTIONS && HeaderSize(area, h) == HEADER_SIZE
    ensures Stands(area, h, j) + Size(area, h, j) <= |area|
    ensures Section(area, h, j) == area[Stands(area, h, j)..][..Size(area, h, j)]
  {
    SectionsStep(area, h, j);
    if j > 0 {
      SumFromZero(area, h, j);
    }
  }

  /** A download whose header is two bytes longer than usual and whose description is one byte. */
  function LongHeader(): (area: seq<Byte>)
    ensures |area| == 90
  {
    seq(90, i requires 0 <= i < 90 => if i == 58 then 84 else if i == 60 then 1 else if i == 84 then 7 else 0)
  }

  /** The second pass can read it, and stores another byte than its description. */
  lemma LongHeaderMisread()
    ensures Readable(LongHeader(), 0) && Size(LongHeader(), 0, 1) == 1
    ensures ReadFrom(LongHeader(), 0, 1) != Stands(LongHeader(), 0, 1)
    ensures Section(LongHeader(), 0, 1) == [0] && LongHeader()[Stands(LongHeader(), 0, 1)] == 7
  {
    var a := LongHeader();
    assert HeaderSize(a, 0) == 84;
    assert Sum(a, 0, 0, 1) == 2 && Sum(a, 0, 0, 2) == 3;
    assert Sum(a, 0, 0, 4) == 3;
    assert Sum(a, 0, 0, 7) == 3;
  }

  /** At every point of the second pass what is stored fits the block. */
  lemma FitsSoFar(area: seq<Byte>, headers: seq<nat>, i: nat, j: nat)
    requires AllReadable(area, headers)
    requires i < |headers| && j <= SECTIONS
    ensures |Image(AllSections(area, headers[..i]) + Sections(area, headers[i], j))|
         <= |Image(AllSections(area, headers))|
  {
    var soFar := AllSections(area, headers[..i]) + Sections(area, headers[i], j);
    var all := AllSections(area, headers);
    AllPrefix(area, headers, i, j);
    assert all[..|soFar|] == soFar;
    ImagePrefix(all, |soFar|);
  }

  // The loader

  datatype Descriptor = Descriptor(
    downloadId: nat, flags: nat, processingPower: nat, channels: nat, excessHeaderSize: nat,
    memoryBlocks: nat, segments: nat, symbols: nat, blocksDm: nat, blocksPm: nat, pointers: seq<nat>)

  /** The next multiple of four. */
  function AlignUp(n: nat): (r: nat)
    ensures r % 4 == 0 && n <= r < n + 4
  {
    (n + 3) - (n + 3) % 4
  }

  function Base(tableSize: nat): (addr: nat)
    ensures addr % 4 == 0 && CARD_BASE + 4 + tableSize <= addr < CARD_BASE + 8 + tableSize
  {
    CARD_BASE + AlignUp(4 + tableSize)
  }

  /** The sections begin at the first multiple of four behind the table and its length. */
  lemma BaseAddress(tableSize: nat)
    ensures Base(tableSize) == 0xa03a_0000 + (4 + tableSize + 3) / 4 * 4
  {
  }

  /** The address of section `j` of the `i`-th required download on the card; 0 if it is empty. */
  function Address(area: seq<Byte>, headers: seq<nat>, base: nat, i: nat, j: nat): nat
    requires AllReadable(area, headers) && i < |headers| && j < SECTIONS
  {
    if Size(area, headers[i], j) == 0 then 0
    else base + |Image(AllSections(area, headers[..i]) + Sections(area, headers[i], j))|
  }

  function DescriptorOf(area: seq<Byte>, headers: seq<nat>, base: nat, i: nat): Descriptor
    requires AllReadable(area, headers) && i < |headers|
  {
    var h := headers[i];
    Descriptor(
      Word(area, h + 50), Word(area, h + 52), Word(area, h + 54), Word(area, h + 56), Size(area, h, 0),
      Word(area, h + 64), Word(area, h + 68), Word(area, h + 72), Word(area, h + 76), Word(area, h + 80),
      seq(SECTIONS, j requires 0 <= j < SECTIONS => Address(area, headers, base, i, j)))
  }

  /** Two downloads with one byte of description each, 7 and 9; only the first has bit 0 in its mask. */
  function TwoDownloads(): (c: Combifile)
    ensures |c.area| == 168
  {
    Combifile(seq(168, i requires 0 <= i < 168 => TwoDownloadsByte(i)), 1, 2, 0, 0)
  }

  function TwoDownloadsByte(i: nat): Byte {
    if i == 0 || i == 61 || i == 145 then 1
    else if i == 84 then 2
    else if i == 59 || i == 143 then 82
    else if i == 83 then 7
    else if i == 167 then 9
    else 0
  }

  /** For example: the table holds the first of the two, and the block its description. */
  lemma FirstOfTwo()
    ensures InFile(TwoDownloads(), 0, 2)
    ensures Required(TwoDownloads(), 0, 2) == [1] == Selected(TwoDownloads(), Starts(TwoDownloads(), 0, 2))
    ensures Readable(TwoDownloads().area, 1)
    ensures Image(AllSections(TwoDownloads().area, [1])) == [7, 0, 0, 0]
  {
    var c := TwoDownloads();
    var a := c.area;
    EmptyAfterDescription(a, 1);
    EmptyAfterDescription(a, 85);
    FirstNeeded(c);
    FirstImage(a);
    hide *;
    RequiredAreSelected(c, 0, 2);
  }

  /** A header of the usual size, with one byte of description and nothing else. */
  lemma EmptyAfterDescription(a: seq<Byte>, h: nat)
    requires a == TwoDownloads().area && (h == 1 || h == 85)
    ensures HeaderSize(a, h) == 82 && Readable(a, h) && Stands(a, h, 7) == h + 83
    ensures Size(a, h, 1) == 1 && forall j :: 0 <= j < 7 && j != 1 ==> Size(a, h, j) == 0
    ensures Section(a, h, 1) == [a[h + 82]]
  {
    assert Word(a, h + 58) == 82 && Word(a, h + 60) == 1 && Word(a, h + 62) == 0 && Word(a, h + 66) == 0;
    assert Word(a, h + 70) == 0 && Word(a, h + 74) == 0 && Word(a, h + 78) == 0;
    hide Word;
    forall j | 0 <= j < 7 && j != 1
      ensures Size(a, h, j) == 0
    {
    }
    assert Size(a, h, 1) == 1;
    hide Size, HeaderSize;
    Places(a, h);
    SumOfOne(a, h);
  }

  lemma SumOfOne(a: seq<Byte>, h: nat)
    requires h + HEADER_SIZE <= |a|
    requires Size(a, h, 1) == 1 && forall j :: 0 <= j < 7 && j != 1 ==> Size(a, h, j) == 0
    ensures Sum(a, h, 0, 1) == 0 && Sum(a, h, 0, 2) == 1 && Sum(a, h, 0, 7) == 1
  {
    hide Size;
    assert Sum(a, h, 0, 4) == Sum(a, h, 0, 3) == Sum(a, h, 0, 2);
    assert Sum(a, h, 0, 7) == Sum(a, h, 0, 6) == Sum(a, h, 0, 5) == Sum(a, h, 0, 4);
  }

  lemma FirstNeeded(c: Combifile)
    requires c == TwoDownloads()
    requires Readable(c.area, 1) && Stands(c.area, 1, 7) == 84 && Readable(c.area, 85)
    ensures InFile(c, 0, 2) && Required(c, 0, 2) == [1]
  {
    hide Readable, Stands;
    assert IsRequired(c, 0) && !IsRequired(c, 84);
    assert InFile(c, 84, 1);
    assert Required(c, 84, 1) == [];
  }

  lemma FirstImage(a: seq<Byte>)
    requires Readable(a, 1) && Section(a, 1, 1) == [7]
    requires forall j :: 0 <= j < 7 && j != 1 ==> Size(a, 1, j) == 0
    ensures Image(AllSections(a, [1])) == [7, 0, 0, 0]
  {
    OneDownload(a);
    hide *;
    NoSections(a, 1);
    EmptySection(a, 1, 0);
    DescriptionOnly(a);
    EmptySection(a, 1, 2);
    EmptySection(a, 1, 3);
    EmptySection(a, 1, 4);
    EmptySection(a, 1, 5);
    EmptySection(a, 1, 6);
  }

  lemma NoSections(area: seq<Byte>, h: nat)
    requires Readable(area, h)
    ensures Image(Sections(area, h, 0)) == []
  {
  }

  lemma EmptySection(area: seq<Byte>, h: nat, j: nat)
    requires Readable(area, h) && j < SECTIONS && Size(area, h, j) == 0
    ensures Image(Sections(area, h, j + 1)) == Image(Sections(area, h, j))
  {
    ImageStep(Sections(area, h, j), Section(area, h, j));
  }

  lemma DescriptionOnly(a: seq<Byte>)
    requires Readable(a, 1) && Section(a, 1, 1) == [7] && Image(Sections(a, 1, 1)) == []
    ensures Image(Sections(a, 1, 2)) == [7, 0, 0, 0]
  {
    ImageStep(Sections(a, 1, 1), [7]);
    hide Image, Section, Readable;
    assert Zeros(Pad(1)) == [0, 0, 0];
  }

  lemma OneDownload(a: seq<Byte>)
    requires Readable(a, 1)
    ensures AllSections(a, [1]) == Sections(a, 1, 7)
  {
    assert [1][..0] == [];
    hide Sections, Readable;
    assert AllSections(a, []) == [];
  }

  // What there is to load

  lemma AStart(c: Combifile, starts: seq<nat>, k: nat)
    requires StartsInFile(c, starts) && k < |starts|
    ensures StartInFile(c, starts[k])
  {
  }

  /** The mask of the `k`-th download has the card's bit. */
  ghost predicate ForCardHere(c: Combifile, k: nat)
    requires InFile(c, 0, c.count) && k < c.count && c.usageBit < 8
  {
    AStart(c, Starts(c, 0, c.count), k);
    ForCard(c, Starts(c, 0, c.count)[k])
  }

  /** The `k`-th download has a section that is not empty. */
  ghost predicate NotEmpty(c: Combifile, k: nat)
    requires InFile(c, 0, c.count) && k < c.count && c.usageBit < 8
  {
    AStart(c, Starts(c, 0, c.count), k);
    HasWeight(c.area, Starts(c, 0, c.count)[k] + c.maskSize)
  }

  ghost predicate AnythingToLoad(c: Combifile)
    requires InFile(c, 0, c.count) && c.usageBit < 8
  {
    exists k :: 0 <= k < c.count && ForCardHere(c, k) && NotEmpty(c, k)
  }

  /** There is something to load if and only if a download for the card is not empty. */
  lemma SomethingToLoad(c: Combifile)
    requires InFile(c, 0, c.count) && c.usageBit < 8
    ensures Length(c.area, Required(c, 0, c.count)) > 0 <==> AnythingToLoad(c)
  {
    hide *;
    if Length(c.area, Required(c, 0, c.count)) > 0 {
      LoadFound(c);
    } else {
      NothingFound(c);
    }
  }

  lemma LoadFound(c: Combifile)
    requires InFile(c, 0, c.count) && c.usageBit < 8 && Length(c.area, Required(c, 0, c.count)) > 0
    ensures AnythingToLoad(c)
  {
    RequiredAreSelected(c, 0, c.count);
    var headers, starts := Required(c, 0, c.count), Starts(c, 0, c.count);
    hide ForCard, HasWeight, Starts, Required, Selected, Length, InFile, Readable, StartsInFile, StartInFile;
    var i := WeightyOne(c.area, headers);
    var k := SelectedOrigin(c, starts, i);
    assert ForCardHere(c, k) && NotEmpty(c, k);
  }

  lemma NothingFound(c: Combifile)
    requires InFile(c, 0, c.count) && c.usageBit < 8 && Length(c.area, Required(c, 0, c.count)) == 0
    ensures !AnythingToLoad(c)
  {
    hide ForCardHere, NotEmpty, Required, Length, InFile;
    forall k | 0 <= k < c.count
      ensures !(ForCardHere(c, k) && NotEmpty(c, k))
    {
      if ForCardHere(c, k) && NotEmpty(c, k) {
        LoadCounts(c, k);
      }
    }
  }

  lemma LoadCounts(c: Combifile, k: nat)
    requires InFile(c, 0, c.count) && c.usageBit < 8 && k < c.count
    requires ForCardHere(c, k) && NotEmpty(c, k)
    ensures Length(c.area, Required(c, 0, c.count)) > 0
  {
    hide ForCard, HasWeight, Starts, Required, Selected, Length, InFile, Readable, StartsInFile, Rising;
    var headers, starts := Required(c, 0, c.count), Starts(c, 0, c.count);
    AStart(c, starts, k);
    RequiredAreSelected(c, 0, c.count);
    StartsRise(c, 0, c.count, 0);
    SelectedExactly(c, starts, 0, k);
    var i :| 0 <= i < |headers| && headers[i] == starts[k] + c.maskSize;
    WeightCounts(c.area, headers, i);
  }

  lemma {:induction false} SumPositive(area: seq<Byte>, h: nat, to: nat)
    requires h + HEADER_SIZE <= |area| && to <= SECTIONS
    ensures Sum(area, h, 0, to) > 0 <==> exists j :: 0 <= j < to && Size(area, h, j) > 0
  {
    hide Size;
    if to > 0 {
      SumPositive(area, h, to - 1);
    }
  }

  ghost predicate HasWeight(area: seq<Byte>, h: nat)
    requires h + HEADER_SIZE <= |area|
  {
    exists j :: 0 <= j < SECTIONS && Size(area, h, j) > 0
  }

  lemma {:induction false} WeightyOne(area: seq<Byte>, headers: seq<nat>) returns (i: nat)
    requires AllReadable(area, headers) && Length(area, headers) > 0
    ensures i < |headers| && headers[i] + HEADER_SIZE <= |area| && HasWeight(area, headers[i])
  {
    hide Size;
    i := |headers| - 1;
    SumPositive(area, headers[i], SECTIONS);
    if !HasWeight(area, headers[i]) {
      i := WeightyOne(area, headers[..i]);
    }
  }

  lemma {:induction false} WeightCounts(area: seq<Byte>, headers: seq<nat>, i: nat)
    requires AllReadable(area, headers) && i < |headers|
    requires headers[i] + HEADER_SIZE <= |area| && HasWeight(area, headers[i])
    ensures Length(area, headers) > 0
  {
    hide Size;
    if i < |headers| - 1 {
      WeightCounts(area, headers[..|headers| - 1], i);
    } else {
      SumPositive(area, headers[i], SECTIONS);
    }
  }

  lemma {:induction false} SelectedOrigin(c: Combifile, starts: seq<nat>, i: nat) returns (k: nat)
    requires StartsInFile(c, starts) && i < |Selected(c, starts)|
    ensures k < |starts| && StartInFile(c, starts[k]) && c.usageBit < 8
    ensures ForCard(c, starts[k]) && Selected(c, starts)[i] == starts[k] + c.maskSize
  {
    hide ForCard, StartsInFile;
    SelectedStep(c, starts);
    if ForCard(c, starts[0]) && i == 0 {
      k := 0;
    } else {
      k := SelectedOrigin(c, starts[1..], if ForCard(c, starts[0]) then i - 1 else i);
      k := k + 1;
    }
  }

  // A download as the file format has it, field by field

  /** The words of a download's header, in their order. */
  datatype FileHeader = FileHeader(
    formatVersion: nat, downloadId: nat, downloadFlags: nat, processingPower: nat, channelCount: nat,
    headerSize: nat, descriptionSize: nat, memoryTableSize: nat, memoryCount: nat, segmentTableSize: nat,
    segmentCount: nat, symbolTableSize: nat, symbolCount: nat, dataSizeDm: nat, blockCountDm: nat,
    dataSizePm: nat, blockCountPm: nat)

  function HeaderWords(h: FileHeader): (words: seq<nat>)
    ensures |words| == 17
  {
    [h.formatVersion, h.downloadId, h.downloadFlags, h.processingPower, h.channelCount, h.headerSize,
     h.descriptionSize, h.memoryTableSize, h.memoryCount, h.segmentTableSize, h.segmentCount, h.symbolTableSize,
     h.symbolCount, h.dataSizeDm, h.blockCountDm, h.dataSizePm, h.blockCountPm]
  }

  /** `area` has the header `h` at `at`: 48 bytes that name the format, and then its words, the low
      byte of each first. */
  predicate HeaderAt(area: seq<Byte>, at: nat, h: FileHeader) {
    && at + 82 <= |area|
    && forall k :: 0 <= k < 17 ==>
         HeaderWords(h)[k] == area[at + 48 + 2 * k] as nat + 0x100 * area[at + 49 + 2 * k] as nat
  }

  /** Every size that is used is the one the header has under that name. */
  lemma HeaderRead(area: seq<Byte>, at: nat, h: FileHeader)
    requires HeaderAt(area, at, h)
    ensures HeaderSize(area, at) == h.headerSize
    ensures Size(area, at, 0) == if h.headerSize >= 82 then h.headerSize - 82 else h.headerSize + 0x1_0000 - 82
    ensures Size(area, at, 1) == h.descriptionSize && Size(area, at, 2) == h.memoryTableSize
    ensures Size(area, at, 3) == h.segmentTableSize && Size(area, at, 4) == h.symbolTableSize
    ensures Size(area, at, 5) == h.dataSizeDm && Size(area, at, 6) == h.dataSizePm
  {
    WordsRead(area, at, h);
    hide HeaderAt, Word;
  }

  lemma WordsRead(area: seq<Byte>, at: nat, h: FileHeader)
    requires HeaderAt(area, at, h)
    ensures at + 82 <= |area|
    ensures Word(area, at + 50) == h.downloadId && Word(area, at + 52) == h.downloadFlags
    ensures Word(area, at + 54) == h.processingPower && Word(area, at + 56) == h.channelCount
    ensures Word(area, at + 58) == h.headerSize && Word(area, at + 60) == h.descriptionSize
    ensures Word(area, at + 62) == h.memoryTableSize && Word(area, at + 64) == h.memoryCount
    ensures Word(area, at + 66) == h.segmentTableSize && Word(area, at + 68) == h.segmentCount
    ensures Word(area, at + 70) == h.symbolTableSize && Word(area, at + 72) == h.symbolCount
    ensures Word(area, at + 74) == h.dataSizeDm && Word(area, at + 76) == h.blockCountDm
    ensures Word(area, at + 78) == h.dataSizePm && Word(area, at + 80) == h.blockCountPm
  {
    var w := HeaderWords(h);
    assert w[1] == h.downloadId && w[2] == h.downloadFlags && w[3] == h.processingPower && w[4] == h.channelCount;
    assert w[5] == h.headerSize && w[6] == h.descriptionSize && w[7] == h.memoryTableSize && w[8] == h.memoryCount;
    assert w[9] == h.segmentTableSize && w[10] == h.segmentCount && w[11] == h.symbolTableSize;
    assert w[12] == h.symbolCount && w[13] == h.dataSizeDm && w[14] == h.blockCountDm && w[15] == h.dataSizePm;
    assert w[16] == h.blockCountPm;
    hide HeaderWords;
  }

  predicate Describes(d: Descriptor, h: FileHeader) {
    && d.downloadId == h.downloadId && d.flags == h.downloadFlags && d.processingPower == h.processingPower
    && d.channels == h.channelCount && d.memoryBlocks == h.memoryCount && d.segments == h.segmentCount
    && d.symbols == h.symbolCount && d.blocksDm == h.blockCountDm && d.blocksPm == h.blockCountPm
    && d.excessHeaderSize == (if h.headerSize >= 82 then h.headerSize - 82 else h.headerSize + 0x1_0000 - 82)
    && |d.pointers| == 7
  }

  /** The table entry of a download has what its header has under each name. */
  lemma DescriptorFields(area: seq<Byte>, headers: seq<nat>, base: nat, i: nat, h: FileHeader)
    requires AllReadable(area, headers) && i < |headers| && HeaderAt(area, headers[i], h)
    ensures Describes(DescriptorOf(area, headers, base, i), h)
  {
    WordsRead(area, headers[i], h);
    HeaderRead(area, headers[i], h);
    hide HeaderAt, Word, Size, Address, Readable;
  }

  /** A download with a header of the usual size, its sections in file order. */
  datatype Download = Download(
    header: FileHeader, description: seq<Byte>, memoryTable: seq<Byte>, segmentTable: seq<Byte>,
    symbolTable: seq<Byte>, dataDm: seq<Byte>, dataPm: seq<Byte>)

  predicate Consistent(d: Download) {
    && d.header.headerSize == 82
    && d.header.descriptionSize == |d.description| && d.header.memoryTableSize == |d.memoryTable|
    && d.header.segmentTableSize == |d.segmentTable| && d.header.symbolTableSize == |d.symbolTable|
    && d.header.dataSizeDm == |d.dataDm| && d.header.dataSizePm == |d.dataPm|
  }

  function Body(d: Download): seq<Byte> {
    d.description + (d.memoryTable + (d.segmentTable + (d.symbolTable + (d.dataDm + d.dataPm))))
  }

  /** `area` has the download `d` with its header at `h`. */
  predicate DownloadAt(area: seq<Byte>, h: nat, d: Download) {
    && Consistent(d) && HeaderAt(area, h, d.header)
    && h + 82 + |Body(d)| <= |area| && area[h + 82..h + 82 + |Body(d)|] == Body(d)
  }

  /** The passes over the file find the next download behind it, and store its sections. */
  lemma DownloadRead(area: seq<Byte>, h: nat, d: Download)
    requires DownloadAt(area, h, d)
    ensures Readable(area, h) && Stands(area, h, 7) == h + 82 + |Body(d)|
    ensures Section(area, h, 0) == [] && Section(area, h, 1) == d.description
    ensures Section(area, h, 2) == d.memoryTable && Section(area, h, 3) == d.segmentTable
    ensures Section(area, h, 4) == d.symbolTable && Section(area, h, 5) == d.dataDm && Section(area, h, 6) == d.dataPm
  {
    DownloadSizes(area, h, d);
    hide *;
    var r4 := d.dataDm + d.dataPm;
    var r3 := d.symbolTable + r4;
    var r2 := d.segmentTable + r3;
    var r1 := d.memoryTable + r2;
    ReadSection(area, h, 0, [], d.description + r1);
    ReadSection(area, h, 1, d.description, r1);
    ReadSection(area, h, 2, d.memoryTable, r2);
    ReadSection(area, h, 3, d.segmentTable, r3);
    ReadSection(area, h, 4, d.symbolTable, r4);
    ReadSection(area, h, 5, d.dataDm, d.dataPm);
    assert d.dataPm + [] == d.dataPm;
    ReadSection(area, h, 6, d.dataPm, []);
  }

  lemma DownloadSizes(area: seq<Byte>, h: nat, d: Download)
    requires DownloadAt(area, h, d)
    ensures Readable(area, h) && Stands(area, h, 7) == h + 82 + |Body(d)|
    ensures Size(area, h, 0) == 0 && Size(area, h, 1) == |d.description| && Size(area, h, 2) == |d.memoryTable|
    ensures Size(area, h, 3) == |d.segmentTable| && Size(area, h, 4) == |d.symbolTable|
    ensures Size(area, h, 5) == |d.dataDm| && Size(area, h, 6) == |d.dataPm|
    ensures
      var all := [] + (d.description + (d.memoryTable + (d.segmentTable + (d.symbolTable + (d.dataDm + d.dataPm)))));
      StandsAt(area, ReadFrom(area, h, 0), all)
  {
    HeaderRead(area, h, d.header);
    Places(area, h);
    hide HeaderAt, Size, HeaderSize, Sum, Stands;
    assert [] + Body(d) == Body(d);
  }

  predicate StandsAt(area: seq<Byte>, at: nat, s: seq<Byte>) {
    at + |s| <= |area| && area[at..at + |s|] == s
  }

  /** One section, with what follows it. */
  lemma ReadSection(area: seq<Byte>, h: nat, j: nat, s: seq<Byte>, rest: seq<Byte>)
    requires Readable(area, h) && j < SECTIONS && |s| == Size(area, h, j)
    requires StandsAt(area, ReadFrom(area, h, j), s + rest)
    ensures Section(area, h, j) == s && StandsAt(area, ReadFrom(area, h, j + 1), rest)
  {
    hide Size, Sum, HeaderSize;
    SectionsStep(area, h, j);
    InParts(area, ReadFrom(area, h, j), s, rest);
  }

  lemma InParts(area: seq<Byte>, at: nat, a: seq<Byte>, b: seq<Byte>)
    requires at + |a + b| <= |area| && area[at..at + |a + b|] == a + b
    ensures area[at..at + |a|] == a && area[at + |a|..at + |a| + |b|] == b
  {
    assert area[at..at + |a|] == area[at..at + |a + b|][..|a|];
    assert area[at + |a|..at + |a| + |b|] == area[at..at + |a + b|][|a|..];
  }

  /** Where the sections are read, one after the other. */
  lemma Places(area: seq<Byte>, h: nat)
    requires h + HEADER_SIZE <= |area|
    ensures ReadFrom(area, h, 0) == h + HeaderSize(area, h)
    ensures forall j :: 0 <= j < SECTIONS ==> ReadFrom(area, h, j + 1) == ReadFrom(area, h, j) + Size(area, h, j)
    ensures HeaderSize(area, h) == 82 ==> Stands(area, h, 7) == ReadFrom(area, h, 7)
  {
    forall j | 0 <= j < SECTIONS
      ensures ReadFrom(area, h, j + 1) == ReadFrom(area, h, j) + Size(area, h, j)
    {
    }
    hide Size, Word;
    SumFromZero(area, h, 7);
    if HeaderSize(area, h) == 82 {
      ExcessOfUsual(area, h);
    }
  }

  lemma ExcessOfUsual(area: seq<Byte>, h: nat)
    requires h + HEADER_SIZE <= |area| && HeaderSize(area, h) == 82
    ensures Size(area, h, 0) == 0
  {
  }

  class Loader {
    const c: Combifile
    const tableSize: nat
    const table: array<Descriptor>
    var noOfDownloads: nat
    var block: array<Byte>

    // The static variables of `store_download`
    var first: bool
    var position: nat
    var addr: nat
    var totalBytes: nat

    /** The sections stored so far, empty ones included. */
    ghost var stored: seq<seq<Byte>>

    constructor (c: Combifile, tableSize: nat, blank: Descriptor)
      ensures this.c == c && this.tableSize == tableSize
      ensures fresh(table) && fresh(block) && table.Length == MAX_DOWNLOADS
      ensures first && position == 0 && stored == [] && Valid()
    {
      this.c, this.tableSize := c, tableSize;
      table := new Descriptor[MAX_DOWNLOADS](i => blank);
      noOfDownloads, block := 0, new Byte[0];
      first, position, addr, totalBytes, stored := true, 0, 0, 0, [];
    }

    ghost predicate Valid()
      reads this`block, this`first, this`position, this`addr, this`totalBytes, this`stored, block
    {
      && position <= block.Length
      && block[..position] == Image(stored)
      && (first ==> position == 0)
      && (!first ==> addr == Base(tableSize) + position && totalBytes == position)
    }

    /** `memcpy` to, or `bzero` at, the current position, which moves on. */
    method Append(data: seq<Byte>)
      requires position + |data| <= block.Length
      modifies this`position, this`addr, block
      ensures position == old(position) + |data| && addr == old(addr) + |data|
      ensures block[..position] == old(block[..position]) + data
    {
      forall k | 0 <= k < |data| {
        block[position + k] := data[k];
      }
      position := position + |data|;
      addr := addr + |data|;
    }

    /** Copies a section into the block, pads it with zeros and returns its address on the card. */
    method StoreDownload(data: seq<Byte>) returns (at: nat)
      requires Valid()
      requires position + |data| + Pad(|data|) <= block.Length
      modifies this`first, this`position, this`addr, this`totalBytes, this`stored, block
      ensures Valid() && !first
      ensures stored == old(stored) + [data]
      ensures at == Base(tableSize) + |Image(old(stored))|
    {
      hide Image, Zeros, Pad, Base, AlignUp;
      if first {
        addr := Base(tableSize);
        position := 0;
        first := false;
      }
      at := addr;
      var end := addr + |data|;
      var align := AlignUp(end) - end;
      PadAligns(addr, |data|);
      Append(data);
      Append(Zeros(align));
      totalBytes := position;
      ImageStep(stored, data);
      stored := stored + [data];
    }

    /** What the second pass has to work with. */
    ghost predicate Ready(headers: seq<nat>)
      reads this`block, this`first, this`position, this`addr, this`totalBytes, this`stored, block
    {
      && Valid()
      && AllReadable(c.area, headers)
      && |headers| <= MAX_DOWNLOADS == table.Length
      && |Image(AllSections(c.area, headers))| <= block.Length
    }

    /** Stores section `j` of a download, unless it is empty. */
    method StoreSection(data: nat, size: nat, ghost headers: seq<nat>, ghost i: nat, ghost j: nat)
      returns (pointer: nat, next: nat)
      requires Ready(headers) && i < |headers| && j < SECTIONS
      requires data == ReadFrom(c.area, headers[i], j) && size == Size(c.area, headers[i], j)
      requires stored == AllSections(c.area, headers[..i]) + Sections(c.area, headers[i], j)
      modifies this`first, this`position, this`addr, this`totalBytes, this`stored, block
      ensures Ready(headers)
      ensures stored == AllSections(c.area, headers[..i]) + Sections(c.area, headers[i], j + 1)
      ensures pointer == Address(c.area, headers, Base(tableSize), i, j)
      ensures next == ReadFrom(c.area, headers[i], j + 1)
    {
      hide Image, Sections, AllSections, Readable, Size, Sum, Base;
      ghost var h := headers[i];
      SectionsStep(c.area, h, j);
      FitsSoFar(c.area, headers, i, j + 1);
      ghost var after := stored + [Section(c.area, h, j)];
      assert after == AllSections(c.area, headers[..i]) + Sections(c.area, h, j + 1);
      ImageStep(stored, Section(c.area, h, j));
      pointer := 0;
      if size != 0 {
        pointer := StoreDownload(c.area[data..][..size]);
      } else {
        stored := after;
      }
      next := data + size;
    }

    /** Stores the sections of a download and describes it in the table. */
    method StoreAll(h: nat, ghost headers: seq<nat>, i: nat)
      requires Ready(headers) && i < |headers| && h == headers[i]
      requires stored == AllSections(c.area, headers[..i])
      modifies this`first, this`position, this`addr, this`totalBytes, this`stored, block, table
      ensures Ready(headers)
      ensures stored == AllSections(c.area, headers[..i + 1])
      ensures table[..] == old(table[..])[i := DescriptorOf(c.area, headers, Base(tableSize), i)]
    {
      hide Image, Sections, AllSections, Sum, Base, Word, Address, Valid;
      Start(headers, i);
      var a := c.area;
      var p0, p1, p2, p3, p4, p5, p6;
      var data := h + HeaderSize(a, h);
      p0, data := StoreSection(data, Size(a, h, 0), headers, i, 0);
      p1, data := StoreSection(data, Size(a, h, 1), headers, i, 1);
      p2, data := StoreSection(data, Size(a, h, 2), headers, i, 2);
      p3, data := StoreSection(data, Size(a, h, 3), headers, i, 3);
      p4, data := StoreSection(data, Size(a, h, 4), headers, i, 4);
      p5, data := StoreSection(data, Size(a, h, 5), headers, i, 5);
      p6, data := StoreSection(data, Size(a, h, 6), headers, i, 6);
      table[i] := Descriptor(
        Word(a, h + 50), Word(a, h + 52), Word(a, h + 54), Word(a, h + 56), Size(a, h, 0),
        Word(a, h + 64), Word(a, h + 68), Word(a, h + 72), Word(a, h + 76), Word(a, h + 80),
        [p0, p1, p2, p3, p4, p5, p6]);
      assert table[i].pointers == DescriptorOf(a, headers, Base(tableSize), i).pointers;
      assert table[i] == DescriptorOf(a, headers, Base(tableSize), i);
      AllStep(a, headers, i);
    }

    /** One pass over the downloads: it measures the required ones and, with a block to write to,
        stores them. */
    method GetDownload(fill: bool, ghost headers: seq<nat>) returns (length: nat)
      requires InFile(c, 0, c.count) && headers == Required(c, 0, c.count)
      requires fill ==> Ready(headers) && stored == []
      modifies this`noOfDownloads, this`first, this`position, this`addr, this`totalBytes, this`stored, block, table
      ensures length == Length(c.area, headers) && noOfDownloads == |headers|
      ensures c.usageBit < 8 ==> headers == Selected(c, Starts(c, 0, c.count))
      ensures fill ==> Ready(headers) && stored == AllSections(c.area, headers)
      ensures fill ==> forall i :: 0 <= i < |headers| ==> table[i] == DescriptorOf(c.area, headers, Base(tableSize), i)
      ensures !fill ==> first == old(first) && position == old(position) && stored == old(stored)
    {
      hide Image, Sections, AllSections, Sum, Size, Word, Valid, Base, DescriptorOf, InFile, Required, Next, Length,
           Bit;
      assert headers[..0] == [] && headers[0..] == headers;
      assert AllSections(c.area, []) == [] && Length(c.area, []) == 0 by {
        Nothing(c.area);
      }
      noOfDownloads, length := 0, 0;
      var at: nat := 0;
      for n := 0 to c.count
        invariant InFile(c, at, c.count - n)
        invariant noOfDownloads <= |headers|
        invariant headers[noOfDownloads..] == Required(c, at, c.count - n)
        invariant length == Length(c.area, headers[..noOfDownloads])
        invariant fill ==> Ready(headers) && stored == AllSections(c.area, headers[..noOfDownloads])
        invariant fill ==>
                    forall i :: 0 <= i < noOfDownloads ==> table[i] == DescriptorOf(c.area, headers, Base(tableSize), i)
        invariant !fill ==> first == old(first) && position == old(position) && stored == old(stored)
      {
        RequiredStep(c, at, c.count - n);
        if IsRequired(c, at) {
          TakeNext(headers, noOfDownloads, HeaderOf(c, at), Required(c, Next(c, at), c.count - n - 1));
          LengthStep(c.area, headers, noOfDownloads);
          noOfDownloads := noOfDownloads + 1;
          length := length + Sum(c.area, HeaderOf(c, at), 0, SECTIONS);
          if fill {
            StoreAll(HeaderOf(c, at), headers, noOfDownloads - 1);
          }
        }
        at := Next(c, at);
      }
      assert headers[..noOfDownloads] == headers;
      if c.usageBit < 8 {
        RequiredAreSelected(c, 0, c.count);
      }
    }

    /** Both passes, with a block allocated in between from what the first one measured.  No download
        for the card is an error.  The table describes the downloads whose mask has the card's bit, in
        file order. */
    method LoadDownloads() returns (ok: bool)
      requires InFile(c, 0, c.count) && |Required(c, 0, c.count)| <= 35 == table.Length
      requires first && position == 0 && stored == [] && c.usageBit < 8
      modifies this, block, table
      ensures
        var headers := Required(c, 0, c.count);
        && ok == (Length(c.area, headers) > 0)
        && (ok ==>
          && block.Length == Length(c.area, headers) + 100 * |headers|
          && totalBytes <= block.Length
          && block[..totalBytes] == Image(AllSections(c.area, headers))
          && forall i :: 0 <= i < |headers| ==> table[i] == DescriptorOf(c.area, headers, Base(tableSize), i))
      ensures ok <==> AnythingToLoad(c)
      ensures noOfDownloads == |Selected(c, Starts(c, 0, c.count))| <= table.Length
      ensures ok ==>
                forall i, h :: 0 <= i < noOfDownloads && HeaderAt(c.area, Selected(c, Starts(c, 0, c.count))[i], h) ==>
                  Describes(table[i], h)
    {
      ghost var headers := Required(c, 0, c.count);
      SomethingToLoad(c);
      RequiredAreSelected(c, 0, c.count);
      hide Image, Sections, AllSections, Sum, Size, Word, Base, DescriptorOf, InFile, Required, Next, Length, Bit,
           Selected, Starts, HeaderAt, Describes, AnythingToLoad, Readable;
      var size := GetDownload(false, headers);
      if size == 0 {
        return false;
      }
      BlockSuffices(c.area, headers);
      block := new Byte[size + noOfDownloads * ROOM_PER_DOWNLOAD];
      size := GetDownload(true, headers);
      ok := size != 0;
      if ok {
        TableDescribes(headers);
      }
    }

    lemma TableDescribes(headers: seq<nat>)
      requires AllReadable(c.area, headers) && |headers| <= table.Length
      requires forall i :: 0 <= i < |headers| ==> table[i] == DescriptorOf(c.area, headers, Base(tableSize), i)
      ensures forall i, h :: 0 <= i < |headers| && HeaderAt(c.area, headers[i], h) ==> Describes(table[i], h)
    {
      forall i, h | 0 <= i < |headers| && HeaderAt(c.area, headers[i], h)
        ensures Describes(table[i], h)
      {
        DescriptorFields(c.area, headers, Base(tableSize), i, h);
      }
    }

    lemma Start(headers: seq<nat>, i: nat)
      requires AllReadable(c.area, headers) && i < |headers|
      ensures headers[i] + HEADER_SIZE <= |c.area|
      ensures ReadFrom(c.area, headers[i], 0) == headers[i] + HeaderSize(c.area, headers[i])
      ensures Sections(c.area, headers[i], 0) == []
    {
    }
  }

  lemma AllStep(area: seq<Byte>, headers: seq<nat>, i: nat)
    requires AllReadable(area, headers) && i < |headers|
    ensures AllSections(area, headers[..i + 1])
         == AllSections(area, headers[..i]) + Sections(area, headers[i], SECTIONS)
  {
    assert headers[..i + 1][..i] == headers[..i];
  }

  // What the table says about the block

  /** Section `j` of the `i`-th required download, among all sections of all of them. */
  lemma SectionIndex(area: seq<Byte>, headers: seq<nat>, i: nat, j: nat)
    requires AllReadable(area, headers) && i < |headers| && j < SECTIONS
    ensures
      var all, k := AllSections(area, headers), SECTIONS * i + j;
      && k < |all|
      && all[..k] == AllSections(area, headers[..i]) + Sections(area, headers[i], j)
      && all[k] == Section(area, headers[i], j)
  {
    SectionsStep(area, headers[i], j);
    AllPrefix(area, headers, i, j + 1);
    AllPrefix(area, headers, i, j);
  }

  /** A pointer in the table is four-byte aligned, and as far from the base as its section is from
      the start of the block; there the block has the section. */
  lemma PointerRight(area: seq<Byte>, headers: seq<nat>, tableSize: nat, i: nat, j: nat)
    requires AllReadable(area, headers) && i < |headers| && j < SECTIONS
    requires Size(area, headers[i], j) > 0
    ensures
      var pointer := Address(area, headers, Base(tableSize), i, j);
      var offset := pointer - Base(tableSize);
      var block := Image(AllSections(area, headers));
      && pointer % 4 == 0
      && 0 <= offset
      && offset + Size(area, headers[i], j) <= |block|
      && block[offset..][..Size(area, headers[i], j)] == Section(area, headers[i], j)
  {
    hide Image, Sections, AllSections, Section, Size, Sum, Word, Base, Readable, Padded, Pad;
    SectionIndex(area, headers, i, j);
    SectionInPlace(AllSections(area, headers), SECTIONS * i + j);
  }

  /** The memory behind one pointer ends before the next pointer. */
  lemma PointersApart(area: seq<Byte>, headers: seq<nat>, base: nat, i: nat, j: nat, i': nat, j': nat)
    requires AllReadable(area, headers) && i < |headers| && i' < |headers| && j < SECTIONS && j' < SECTIONS
    requires Size(area, headers[i], j) > 0 && Size(area, headers[i'], j') > 0
    requires i < i' || (i == i' && j < j')
    ensures Address(area, headers, base, i, j) + Size(area, headers[i], j) <= Address(area, headers, base, i', j')
  {
    hide Image, Sections, AllSections, Section, Size, Sum, Word, Base, Readable, Padded, Pad;
    SectionIndex(area, headers, i, j);
    SectionIndex(area, headers, i', j');
    SectionsApart(AllSections(area, headers), SECTIONS * i + j, SECTIONS * i' + j');
  }

  lemma {:induction false} SumBound(area: seq<Byte>, h: nat, j: nat)
    requires h + HEADER_SIZE <= |area| && j <= SECTIONS
    ensures Sum(area, h, 0, j) <= 0xffff * j
  {
    if j > 0 {
      SumBound(area, h, j - 1);
    }
  }

  lemma {:induction false} LengthBound(area: seq<Byte>, headers: seq<nat>)
    requires AllReadable(area, headers)
    ensures Length(area, headers) <= 0xffff * SECTIONS * |headers|
  {
    if headers != [] {
      var n := |headers| - 1;
      LengthBound(area, headers[..n]);
      SumBound(area, headers[n], SECTIONS);
    }
  }

  /** With as many downloads as the table takes, neither the measured length nor an address leaves
      the 32 bits the loader has for it. */
  lemma FitsThirtyTwoBits(area: seq<Byte>, headers: seq<nat>, tableSize: nat)
    requires AllReadable(area, headers) && |headers| <= MAX_DOWNLOADS && tableSize < 0x1_0000
    ensures Base(tableSize) + Length(area, headers) + ROOM_PER_DOWNLOAD * |headers| < 0x1_0000_0000
    ensures Base(tableSize) + |Image(AllSections(area, headers))| < 0x1_0000_0000
  {
    hide Image, AllSections, Length, Readable, Sections;
    LengthBound(area, headers);
    BlockSuffices(area, headers);
  }

  lemma Nothing(area: seq<Byte>)
    ensures AllSections(area, []) == [] && Length(area, []) == 0
  {
  }

  lemma RequiredStep(c: Combifile, at: nat, n: nat)
    requires InFile(c, at, n) && n > 0
    ensures at + c.usageByte < |c.area|
    ensures HeaderOf(c, at) + HEADER_SIZE <= |c.area|
    ensures InFile(c, Next(c, at), n - 1)
    ensures
      var rest := Required(c, Next(c, at), n - 1);
      Required(c, at, n) == if IsRequired(c, at) then [HeaderOf(c, at)] + rest else rest
  {
  }

  lemma TakeNext(headers: seq<nat>, i: nat, h: nat, rest: seq<nat>)
    requires i <= |headers| && headers[i..] == [h] + rest
    ensures i < |headers| && headers[i] == h && headers[i + 1..] == rest
  {
    assert headers[i] == headers[i..][0];
    assert headers[i + 1..] == headers[i..][1..];
  }

  /** The example, loaded. */
  method LoadFirstOfTwo(tableSize: nat, blank: Descriptor) returns (loader: Loader)
    ensures loader.noOfDownloads == 1 && loader.totalBytes == 4 <= loader.block.Length
    ensures loader.block[..4] == [7, 0, 0, 0]
  {
    FirstOfTwo();
    ExampleShape();
    hide *;
    loader := new Loader(TwoDownloads(), tableSize, blank);
    var ok := loader.LoadDownloads();
    ExampleLength();
  }

  lemma ExampleShape()
    ensures TwoDownloads().count == 2 && TwoDownloads().usageBit < 8 && MAX_DOWNLOADS == 35
  {
  }

  lemma ExampleLength()
    requires Readable(TwoDownloads().area, 1)
    ensures Length(TwoDownloads().area, [1]) > 0
  {
    EmptyAfterDescription(TwoDownloads().area, 1);
    hide TwoDownloads;
    WeightCounts(TwoDownloads().area, [1], 0);
  }

  lemma LengthStep(area: seq<Byte>, headers: seq<nat>, i: nat)
    requires AllReadable(area, headers) && i < |headers|
    ensures Length(area, headers[..i + 1]) == Length(area, headers[..i]) + Sum(area, headers[i], 0, SECTIONS)
  {
    assert headers[..i + 1][..i] == headers[..i];
  }

  lemma PadAligns(addr: nat, size: nat)
    requires addr % 4 == 0
    ensures AlignUp(addr + size) - (addr + size) == Pad(size)
  {
  }

  lemma ImageStep(parts: seq<seq<Byte>>, data: seq<Byte>)
    ensures Image(parts + [data]) == Image(parts) + data + Zeros(Pad(|data|))
  {
    assert (parts + [data])[..|parts|] == parts;
  }
}
