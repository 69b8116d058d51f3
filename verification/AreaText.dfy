/** The compressed info strings of the area-code file: chars 1 to 30 stand for shortcuts, words
    of up to four bytes that may contain further shortcuts. */
module AreaText {
  import opened Buffers

  type u32 = w: nat | w < 0x1_0000_0000

  const SHORTCUT_COUNT := 30
  const NUL: char := '\0'

  predicate IsShortcut(c: char) { 0x01 <= c as int <= 0x1F }

  function LowByte(w: u32): char { (w % 256) as char }

  /** The word without its lowest byte. */
  function Upper(w: u32): (r: u32)
    ensures w != 0 ==> r < w
  {
    w / 256
  }

  // ---- specification: the full expansion ----

  /** Every shortcut byte of the word `w` names a shortcut of rank below `bound`. */
  predicate RanksBelow(rank: seq<nat>, w: u32, bound: nat)
    requires |rank| == SHORTCUT_COUNT
  {
    w == 0 || (KnownBelow(rank, LowByte(w), bound) && RanksBelow(rank, Upper(w), bound))
  }

  predicate KnownBelow(rank: seq<nat>, c: char, bound: nat)
    requires |rank| == SHORTCUT_COUNT
  {
    IsShortcut(c) ==> c as int <= SHORTCUT_COUNT && rank[c as int - 1] < bound
  }

  /** The shortcuts refer to one another without a cycle: each word only mentions shortcuts of
      lower rank. */
  ghost predicate Acyclic(shortcuts: seq<u32>, rank: seq<nat>) {
    && |shortcuts| == |rank| == SHORTCUT_COUNT
    && forall i :: 0 <= i < SHORTCUT_COUNT ==> RanksBelow(rank, shortcuts[i], rank[i])
  }

  /** What a byte of the text stands for. */
  ghost function Expand(shortcuts: seq<u32>, rank: seq<nat>, c: char, bound: nat): string
    requires Acyclic(shortcuts, rank) && KnownBelow(rank, c, bound)
    decreases bound, 0
  {
    if IsShortcut(c) then ExpandWord(shortcuts, rank, shortcuts[c as int - 1], rank[c as int - 1]) else [c]
  }

  /** What the bytes of a shortcut word, lowest first, stand for. */
  ghost function ExpandWord(shortcuts: seq<u32>, rank: seq<nat>, w: u32, bound: nat): string
    requires Acyclic(shortcuts, rank) && RanksBelow(rank, w, bound)
    decreases bound, 1, w
  {
    if w == 0 then []
    else Expand(shortcuts, rank, LowByte(w), bound) + ExpandWord(shortcuts, rank, Upper(w), bound)
  }

  /** Every byte of a stored string is plain text or a known shortcut. */
  ghost predicate KnownText(rank: seq<nat>, text: string, bound: nat)
    requires |rank| == SHORTCUT_COUNT
  {
    forall i :: 0 <= i < |text| ==> KnownBelow(rank, text[i], bound)
  }

  ghost function ExpandText(shortcuts: seq<u32>, rank: seq<nat>, text: string, bound: nat): string
    requires Acyclic(shortcuts, rank) && KnownText(rank, text, bound)
  {
    if text == [] then []
    else Expand(shortcuts, rank, text[0], bound) + ExpandText(shortcuts, rank, text[1..], bound)
  }

  /** The bytes of `file` up to the first NUL or the end. */
  function UpToNul(file: string): string {
    if file == [] || file[0] == NUL then [] else [file[0]] + UpToNul(file[1..])
  }

  function Take(s: string, n: nat): (r: string)
    ensures |r| <= n
  {
    if |s| <= n then s else s[..n]
  }

  /** Filling a buffer piece by piece: what does not fit of a piece does not fit of the whole. */
  lemma TakeConcat(s: string, t: string, n: nat)
    ensures Take(s + t, n) == Take(s, n) + Take(t, n - |Take(s, n)|)
  {
  }

  /** A piece written behind `kept` and the first part extends the first part. */
  lemma AppendPiece(kept: string, done: string, piece: string, n: nat, m: nat, filled: string)
    requires m == n - |Take(done, n)|
    requires filled == (kept + Take(done, n)) + Take(piece, m)
    ensures filled == kept + Take(done + piece, n)
    ensures |Take(done + piece, n)| == |Take(done, n)| + |Take(piece, m)|
  {
    TakeConcat(done, piece, n);
  }

  /** Of what a shortcut stands for, `done` is expanded and the word `w` is left. */
  ghost predicate WordLeft(shortcuts: seq<u32>, rank: seq<nat>, w: u32, bound: nat, done: string, whole: string)
    requires Acyclic(shortcuts, rank)
  {
    RanksBelow(rank, w, bound) && whole == done + ExpandWord(shortcuts, rank, w, bound)
  }

  /** The first byte of a shortcut word moves from what is still to be expanded to what is done. */
  lemma WordStep(shortcuts: seq<u32>, rank: seq<nat>, w: u32, bound: nat, done: string, whole: string)
    requires Acyclic(shortcuts, rank) && WordLeft(shortcuts, rank, w, bound, done, whole) && w != 0
    ensures KnownBelow(rank, LowByte(w), bound)
    ensures WordLeft(shortcuts, rank, Upper(w), bound, done + Expand(shortcuts, rank, LowByte(w), bound), whole)
  {
  }

  /** The same for the bytes of a stored string. */
  ghost predicate TextLeft(shortcuts: seq<u32>, rank: seq<nat>, text: string, i: nat, bound: nat, done: string,
                           whole: string)
    requires Acyclic(shortcuts, rank) && KnownText(rank, text, bound) && i <= |text|
  {
    whole == done + ExpandText(shortcuts, rank, text[i..], bound)
  }

  lemma TextStep(shortcuts: seq<u32>, rank: seq<nat>, text: string, i: nat, bound: nat, done: string, whole: string)
    requires Acyclic(shortcuts, rank) && KnownText(rank, text, bound) && i < |text|
    requires TextLeft(shortcuts, rank, text, i, bound, done, whole)
    ensures KnownBelow(rank, text[i], bound)
    ensures TextLeft(shortcuts, rank, text, i + 1, bound, done + Expand(shortcuts, rank, text[i], bound), whole)
  {
    assert text[i..][1..] == text[i + 1..];
  }

  lemma NulStep(file: string, i: nat, text: string)
    requires i < |file| && i <= |text| && text[i..] == UpToNul(file[i..]) && file[i] != NUL
    ensures i < |text| && text[i] == file[i] && text[i + 1..] == UpToNul(file[i + 1..])
  {
    assert file[i..][1..] == file[i + 1..];
    assert text[i..][1..] == text[i + 1..];
    assert text[i] == text[i..][0];
  }

  lemma TextEnd(file: string, i: nat, text: string)
    requires i <= |file| && i <= |text| && text[i..] == UpToNul(file[i..])
    requires i == |file| || file[i] == NUL
    ensures i == |text|
  {
  }

  /** Nothing is missing when the loop stops: either all is expanded or the buffer is full. */
  lemma NothingMissing(done: string, rest: string, n: nat)
    requires rest == [] || |Take(done, n)| == n
    ensures Take(done + rest, n) == Take(done, n)
  {
    if rest == [] {
      assert done + rest == done;
    }
  }

  // ---- the expansion, byte by byte ----

  /** Bytes 1 to 30 stand for the shortcut of that number, every other byte for itself. */
  lemma ExpandByByte(shortcuts: seq<u32>, rank: seq<nat>, c: char, bound: nat)
    requires Acyclic(shortcuts, rank) && KnownBelow(rank, c, bound)
    ensures 1 <= c as int <= 30 ==>
              && RanksBelow(rank, shortcuts[c as int - 1], rank[c as int - 1])
              && Expand(shortcuts, rank, c, bound)
                 == ExpandWord(shortcuts, rank, shortcuts[c as int - 1], rank[c as int - 1])
    ensures !(1 <= c as int <= 30) ==> Expand(shortcuts, rank, c, bound) == [c]
  {
  }

  /** A shortcut word is expanded from its lowest byte to its highest that is not 0. */
  lemma WordByBytes(shortcuts: seq<u32>, rank: seq<nat>, w: u32, bound: nat, b0: nat, b1: nat, b2: nat, b3: nat)
    requires Acyclic(shortcuts, rank) && RanksBelow(rank, w, bound)
    requires b0 < 256 && b1 < 256 && b2 < 256 && b3 < 256
    requires w == b0 + 0x100 * b1 + 0x1_0000 * b2 + 0x100_0000 * b3
    ensures w > 0 ==> KnownBelow(rank, b0 as char, bound)
    ensures w >= 0x100 ==> KnownBelow(rank, b1 as char, bound)
    ensures w >= 0x1_0000 ==> KnownBelow(rank, b2 as char, bound)
    ensures w >= 0x100_0000 ==> KnownBelow(rank, b3 as char, bound)
    ensures ExpandWord(shortcuts, rank, w, bound)
         == (if w > 0 then Expand(shortcuts, rank, b0 as char, bound) else [])
            + (if w >= 0x100 then Expand(shortcuts, rank, b1 as char, bound) else [])
            + (if w >= 0x1_0000 then Expand(shortcuts, rank, b2 as char, bound) else [])
            + (if w >= 0x100_0000 then Expand(shortcuts, rank, b3 as char, bound) else [])
  {
    hide *;
    var w1: u32, w2: u32 := b1 + 0x100 * b2 + 0x1_0000 * b3, b2 + 0x100 * b3;
    Thresholds(w, b0, b1, b2, b3, w1, w2);
    FirstByte(shortcuts, rank, w, bound, b0, w1);
    FirstByte(shortcuts, rank, w1, bound, b1, w2);
    FirstByte(shortcuts, rank, w2, bound, b2, b3);
    FirstByte(shortcuts, rank, b3, bound, b3, 0);
    NothingLeft(shortcuts, rank, bound);
  }

  lemma NothingLeft(shortcuts: seq<u32>, rank: seq<nat>, bound: nat)
    requires Acyclic(shortcuts, rank)
    ensures |rank| == SHORTCUT_COUNT && RanksBelow(rank, 0, bound) && ExpandWord(shortcuts, rank, 0, bound) == []
  {
  }

  lemma Thresholds(w: nat, b0: nat, b1: nat, b2: nat, b3: nat, w1: nat, w2: nat)
    requires b0 < 256 && b1 < 256 && b2 < 256 && b3 < 256
    requires w1 == b1 + 0x100 * b2 + 0x1_0000 * b3 && w2 == b2 + 0x100 * b3 && w == b0 + 0x100 * w1
    ensures w1 == b1 + 0x100 * w2
    ensures (w >= 0x100 <==> w1 > 0) && (w >= 0x1_0000 <==> w2 > 0) && (w >= 0x100_0000 <==> b3 > 0)
    ensures (w2 > 0 ==> w1 > 0) && (b3 > 0 ==> w2 > 0) && (w1 > 0 ==> w > 0)
  {
  }

  lemma FirstByte(shortcuts: seq<u32>, rank: seq<nat>, w: u32, bound: nat, b: nat, rest: u32)
    requires Acyclic(shortcuts, rank) && RanksBelow(rank, w, bound)
    requires b < 256 && w == b + 0x100 * rest
    ensures RanksBelow(rank, rest, bound) && (w > 0 ==> KnownBelow(rank, b as char, bound))
    ensures ExpandWord(shortcuts, rank, w, bound)
         == if w > 0
            then Expand(shortcuts, rank, b as char, bound) + ExpandWord(shortcuts, rank, rest, bound)
            else []
  {
    if w > 0 {
      assert LowByte(w) == b as char && Upper(w) == rest;
    }
  }

  /** For example. */
  lemma WordOfAbc(shortcuts: seq<u32>, rank: seq<nat>, bound: nat)
    requires Acyclic(shortcuts, rank)
    ensures RanksBelow(rank, 0x0063_6261, bound) && ExpandWord(shortcuts, rank, 0x0063_6261, bound) == "abc"
  {
    assert RanksBelow(rank, 0x63, bound) && RanksBelow(rank, 0x6362, bound);
    WordByBytes(shortcuts, rank, 0x0063_6261, bound, 0x61, 0x62, 0x63, 0);
  }

  // ---- the code ----

  /** The bytes of the buffer from `n` on. */
  ghost function Beyond(buf: array<char>, n: nat): string
    requires n <= buf.Length
    reads buf
  {
    buf[n..]
  }

  /** What fits of `piece` into `size - 1` bytes, `count` of them, stands in the buffer at `at`,
      behind `kept`. */
  ghost predicate Filled(buf: array<char>, at: nat, size: nat, count: nat, kept: string, piece: string)
    requires 0 < size && at + size <= buf.Length
    reads buf
  {
    && count == |Take(piece, size - 1)|
    && Held(buf, at + count) == kept + Take(piece, size - 1)
  }

  /** Writes the expansion of shortcut `c` to `buf` at `at`, at most `size - 1` bytes of it, and
      returns how many were written. */
  method LoadShortcut(shortcuts: seq<u32>, ghost rank: seq<nat>, buf: array<char>, at: nat, size: nat, c: char)
    returns (charsRead: nat)
    requires Acyclic(shortcuts, rank) && IsShortcut(c) && c as int <= SHORTCUT_COUNT
    requires 0 < size && at + size <= buf.Length
    modifies buf
    ensures Filled(buf, at, size, charsRead, old(Held(buf, at)),
                   ExpandWord(shortcuts, rank, shortcuts[c as int - 1], rank[c as int - 1]))
    ensures Beyond(buf, at + size) == old(Beyond(buf, at + size))
    decreases rank[c as int - 1], 1
  {
    StartOfWord(shortcuts, rank, c);
    ghost var bound := rank[c as int - 1];
    ghost var kept := Held(buf, at);
    ghost var done: string := [];
    ghost var whole := ExpandWord(shortcuts, rank, shortcuts[c as int - 1], bound);
    charsRead := 0;
    var shortcut: u32 := shortcuts[c as int - 1];
    assert WordLeft(shortcuts, rank, shortcut, bound, done, whole) && Filled(buf, at, size, 0, kept, done);
    hide *;
    while shortcut != 0 && charsRead < size - 1
      invariant WordLeft(shortcuts, rank, shortcut, bound, done, whole)
      invariant Filled(buf, at, size, charsRead, kept, done)
      invariant Beyond(buf, at + size) == old(Beyond(buf, at + size))
      decreases shortcut
    {
      var d: char := LowByte(shortcut);
      WordStep(shortcuts, rank, shortcut, bound, done, whole);
      charsRead := LoadChar(shortcuts, rank, bound, buf, at, size, charsRead, d, kept, done);
      done := done + Expand(shortcuts, rank, d, bound);
      shortcut := Upper(shortcut);
    }
    EndOfWord(shortcuts, rank, shortcut, bound, done, whole, buf, at, size, charsRead, kept);
  }

  lemma StartOfWord(shortcuts: seq<u32>, rank: seq<nat>, c: char)
    requires Acyclic(shortcuts, rank) && IsShortcut(c) && c as int <= SHORTCUT_COUNT
    ensures 0 < c as int <= |shortcuts| == |rank| == SHORTCUT_COUNT
    ensures RanksBelow(rank, shortcuts[c as int - 1], rank[c as int - 1])
  {
  }

  lemma EndOfWord(shortcuts: seq<u32>, rank: seq<nat>, w: u32, bound: nat, done: string, whole: string,
                  buf: array<char>, at: nat, size: nat, count: nat, kept: string)
    requires Acyclic(shortcuts, rank) && WordLeft(shortcuts, rank, w, bound, done, whole)
    requires 0 < size && at + size <= buf.Length && Filled(buf, at, size, count, kept, done)
    requires w == 0 || count >= size - 1
    ensures Filled(buf, at, size, count, kept, whole)
  {
    NothingMissing(done, ExpandWord(shortcuts, rank, w, bound), size - 1);
  }

  /** One step of both loops: what the byte `c` stands for is written behind what is in the buffer. */
  method LoadChar(shortcuts: seq<u32>, ghost rank: seq<nat>, ghost bound: nat, buf: array<char>, at: nat, size: nat,
                  count: nat, c: char, ghost kept: string, ghost done: string)
    returns (charsRead: nat)
    requires Acyclic(shortcuts, rank) && KnownBelow(rank, c, bound)
    requires count < size - 1 && at + size <= buf.Length
    requires Filled(buf, at, size, count, kept, done)
    modifies buf
    ensures Filled(buf, at, size, charsRead, kept, done + Expand(shortcuts, rank, c, bound))
    ensures Beyond(buf, at + size) == old(Beyond(buf, at + size))
    decreases bound, 0
  {
    hide Acyclic, ExpandWord, Take;
    var n: nat;
    if IsShortcut(c) {
      n := LoadShortcut(shortcuts, rank, buf, at + count, size - count, c);
    } else {
      buf[at + count] := c;
      n := 1;
      TakeOne(c, size - 1 - count);
    }
    charsRead := count + n;
    AppendPiece(kept, done, Expand(shortcuts, rank, c, bound), size - 1, size - 1 - count, Held(buf, at + charsRead));
  }

  lemma TakeOne(c: char, n: nat)
    requires n > 0
    ensures Take([c], n) == [c]
  {
  }

  /** Reads the string that starts the rest of the file, `file`, into the first `count` bytes of
      `buf`, expanding shortcuts and cutting off what does not fit. */
  method LoadString(shortcuts: seq<u32>, ghost rank: seq<nat>, bound: nat, file: string, buf: array<char>, count: nat)
    returns (length: nat)
    requires Acyclic(shortcuts, rank) && KnownText(rank, UpToNul(file), bound)
    requires 2 <= count <= buf.Length
    modifies buf
    ensures length < count
    ensures buf[..length] == Take(ExpandText(shortcuts, rank, UpToNul(file), bound), count - 1)
    ensures buf[length] == NUL && Beyond(buf, count) == old(Beyond(buf, count))
  {
    ghost var text := UpToNul(file);
    ghost var done: string := [];
    ghost var whole := ExpandText(shortcuts, rank, text, bound);
    assert text[0..] == text && file[0..] == file;
    length := 0;
    var i := 0;
    assert TextLeft(shortcuts, rank, text, i, bound, done, whole) && Filled(buf, 0, count, length, [], done);
    hide *;
    while length < count - 1
      invariant i <= |file| && i <= |text| && text[i..] == UpToNul(file[i..])
      invariant TextLeft(shortcuts, rank, text, i, bound, done, whole)
      invariant Filled(buf, 0, count, length, [], done)
      invariant Beyond(buf, count) == old(Beyond(buf, count))
      decreases |file| - i
    {
      if i == |file| || file[i] == NUL {
        TextEnd(file, i, text);
        break;
      }
      var c := file[i];
      NulStep(file, i, text);
      TextStep(shortcuts, rank, text, i, bound, done, whole);
      length := LoadChar(shortcuts, rank, bound, buf, 0, count, length, c, [], done);
      done := done + Expand(shortcuts, rank, c, bound);
      i := i + 1;
    }
    EndOfText(shortcuts, rank, text, i, bound, done, whole, buf, count, length);
    SealString(buf, count, length, whole);
  }

  lemma EndOfText(shortcuts: seq<u32>, rank: seq<nat>, text: string, i: nat, bound: nat, done: string, whole: string,
                  buf: array<char>, size: nat, count: nat)
    requires Acyclic(shortcuts, rank) && KnownText(rank, text, bound) && i <= |text|
    requires TextLeft(shortcuts, rank, text, i, bound, done, whole)
    requires 0 < size <= buf.Length && Filled(buf, 0, size, count, [], done)
    requires i == |text| || count >= size - 1
    ensures Filled(buf, 0, size, count, [], whole)
  {
    NothingMissing(done, ExpandText(shortcuts, rank, text[i..], bound), size - 1);
  }

  /** Sets the terminating zero. */
  method SealString(buf: array<char>, size: nat, length: nat, ghost s: string)
    requires 0 < size <= buf.Length && Filled(buf, 0, size, length, [], s)
    modifies buf
    ensures length < size && buf[..length] == Take(s, size - 1) && buf[length] == NUL
    ensures Beyond(buf, size) == old(Beyond(buf, size))
  {
    assert Held(buf, length) == Take(s, size - 1);
    buf[length] := NUL;
  }
}
