/** The area-code lookup: a restarting binary search over a sorted table of packed codes, read
    through a partial memory cache, that must find the longest code which is a prefix of the
    phone number. */
module AreaSearch {
  import opened AreaDigits

  // ---- specification ----

  /** `texts` are the digit strings of the table's packed codes, in increasing packed order. */
  ghost predicate TableOf(codes: seq<u32>, texts: seq<string>, minLength: nat) {
    && |codes| == |texts|
    && (forall i :: 0 <= i < |codes| ==> Packs(codes[i], texts[i]) && 0 < |texts[i]| && minLength <= |texts[i]|)
    && Increasing(codes)
  }

  ghost predicate Increasing(codes: seq<u32>) {
    forall i, j :: 0 <= i < j < |codes| ==> codes[i] < codes[j]
  }

  lemma TableIncreases(codes: seq<u32>, texts: seq<string>, minLength: nat)
    requires TableOf(codes, texts, minLength)
    ensures |codes| == |texts| && Increasing(codes)
  {
  }

  ghost predicate AllBelow(codes: seq<u32>, n: nat, phone: u32)
    requires n <= |codes|
  {
    forall j :: 0 <= j < n ==> codes[j] < phone
  }

  ghost predicate AllAbove(codes: seq<u32>, n: nat, phone: u32)
    requires n <= |codes|
  {
    forall j :: n <= j < |codes| ==> phone < codes[j]
  }

  lemma NothingBehind(codes: seq<u32>, phone: u32)
    ensures AllAbove(codes, |codes|, phone)
  {
  }

  lemma BelowExtends(codes: seq<u32>, i: nat, phone: u32)
    requires i < |codes| && Increasing(codes) && codes[i] < phone
    ensures AllBelow(codes, i + 1, phone)
  {
  }

  lemma AboveExtends(codes: seq<u32>, i: nat, phone: u32)
    requires i < |codes| && Increasing(codes) && phone < codes[i]
    ensures AllAbove(codes, i, phone)
  {
  }

  /** `texts[index]` is the longest of `texts` that is a prefix of `number`. */
  ghost predicate LongestPrefix(texts: seq<string>, number: string, index: int) {
    && 0 <= index < |texts|
    && texts[index] <= number
    && (forall j :: 0 <= j < |texts| && texts[j] <= number ==> |texts[j]| <= |texts[index]|)
  }

  ghost predicate NoPrefix(texts: seq<string>, number: string) {
    forall j :: 0 <= j < |texts| ==> !(texts[j] <= number)
  }

  /** Every code that is a prefix of `number` has at most `k` digits. */
  ghost predicate Within(texts: seq<string>, number: string, k: nat) {
    forall j :: 0 <= j < |texts| && texts[j] <= number ==> |texts[j]| <= k
  }

  /** `phone` packs the first `k` digits of `number`, and they are all that can still match. */
  ghost predicate Key(phone: u32, number: string, texts: seq<string>, k: nat) {
    k <= |number| && Packs(phone, number[..k]) && Within(texts, number, k)
  }

  /** The answer does not depend on how the table is read: at most one entry is the longest
      prefix, and then it is not true that there is none. */
  lemma AnswerUnique(codes: seq<u32>, texts: seq<string>, minLength: nat, number: string, i: int, j: int)
    requires TableOf(codes, texts, minLength) && LongestPrefix(texts, number, i)
    ensures LongestPrefix(texts, number, j) ==> i == j
    ensures !NoPrefix(texts, number)
  {
    if LongestPrefix(texts, number, j) {
      assert texts[i] == number[..|texts[i]|] == number[..|texts[j]|] == texts[j];
      assert codes[i] == codes[j];
    }
  }

  // ---- the arithmetic of one round ----

  /** An exact match has all the digits still looked at, so nothing longer can match. */
  lemma ExactMatch(c: u32, s: string, number: string, k: nat)
    requires k <= |number| && Packs(c, s) && Packs(c, number[..k])
    ensures s <= number && |s| == k
  {
    PrefixIffSameTop(c, s, c, number[..k]);
    PrefixIffSameTop(c, number[..k], c, s);
    assert number[..k] <= number;
  }

  lemma ExactFound(codes: seq<u32>, texts: seq<string>, minLength: nat, phone: u32, number: string, k: nat,
                   current: nat)
    requires TableOf(codes, texts, minLength) && Key(phone, number, texts, k)
    requires current < |codes| && codes[current] == phone
    ensures LongestPrefix(texts, number, current)
  {
    ExactMatch(phone, texts[current], number, k);
  }

  /** Codes that are prefixes of the key sort at or after it. */
  lemma CandidatesAreAbove(phone: u32, number: string, k: nat, c: u32, s: string)
    requires k <= |number| && Packs(phone, number[..k]) && Packs(c, s)
    requires s <= number && |s| <= k
    ensures phone <= c
  {
    assert s <= number[..k];
    PrefixSortsLater(c, s, phone, number[..k]);
  }

  /** Of two codes that are prefixes of the same number, the longer one sorts first. */
  lemma LongerSortsFirst(c: u32, s: string, d: u32, t: string, number: string)
    requires Packs(c, s) && Packs(d, t) && s <= number && t <= number && |s| < |t|
    ensures d < c
  {
    assert s <= t;
    PrefixSortsLater(c, s, d, t);
  }

  /** A code beyond a near miss `cur` shares no more digits with the key than `cur` does. */
  lemma NearMissBounds(phone: u32, number: string, k: nat, cur: u32, m: nat, d: u32, t: string)
    requires k <= |number| && Packs(phone, number[..k]) && Packs(d, t)
    requires m < 8 && Top(phone, m + 1) != Top(cur, m + 1)
    requires phone < cur < d
    requires t <= number && |t| <= k
    ensures |t| <= m
  {
    if |t| > m {
      assert t <= number[..k];
      PrefixIffSameTop(d, t, phone, number[..k]);
      TopShorter(d, phone, |t|, m + 1);
      TopMonotone(phone, cur, m + 1);
      TopMonotone(cur, d, m + 1);
      assert false;
    }
  }

  /** A near miss matches fewer digits than the key holds, and stays below the shortened key. */
  lemma NearMissShortens(phone: u32, number: string, k: nat, cur: u32, s: string, m: nat)
    requires k <= |number| && Packs(phone, number[..k]) && Packs(cur, s)
    requires m < |s| && Top(phone, m) == Top(cur, m)
    requires phone < cur
    ensures m < k
    ensures cur < Shorten(phone, m)
    ensures Packs(Shorten(phone, m), number[..m])
  {
    if k <= m {
      TopShorter(phone, cur, m, k);
      TopOfPacked(phone, number[..k], k);
      assert number[..k][..k] == number[..k];
      FillTopAbove(cur, k);
      assert false;
    }
    ShortenedPacks(phone, number[..k], m);
    assert number[..k][..m] == number[..m];
    ShortenedPacks(cur, s, m);
    PrefixSortsLater(Shorten(cur, m), s[..m], cur, s);
  }

  /** If every code sorts below the key, none is a prefix. */
  lemma NothingAbove(codes: seq<u32>, texts: seq<string>, minLength: nat, phone: u32, number: string, k: nat)
    requires TableOf(codes, texts, minLength) && Key(phone, number, texts, k) && AllBelow(codes, |codes|, phone)
    ensures NoPrefix(texts, number)
  {
    forall j | 0 <= j < |texts|
      ensures !(texts[j] <= number)
    {
      if texts[j] <= number {
        CandidatesAreAbove(phone, number, k, codes[j], texts[j]);
      }
    }
  }

  /** What the first entry above the key tells: either it is the longest prefix, or it is a near
      miss with `m` matching digits and every prefix is a later entry of at most `m` digits. */
  lemma NearMissOrMatch(codes: seq<u32>, texts: seq<string>, minLength: nat, phone: u32, number: string, k: nat,
                        cur: nat, m: nat)
    requires TableOf(codes, texts, minLength) && Key(phone, number, texts, k) && cur < |codes|
    requires AllBelow(codes, cur, phone) && AllAbove(codes, cur, phone)
    requires m <= 8 && Top(phone, m) == Top(codes[cur], m)
    requires m < 8 ==> Top(phone, m + 1) != Top(codes[cur], m + 1)
    ensures |texts[cur]| <= m ==> LongestPrefix(texts, number, cur)
    ensures m < |texts[cur]| ==>
      && m < k
      && Key(Shorten(phone, m), number, texts, m)
      && AllBelow(codes, cur + 1, Shorten(phone, m))
  {
    var c, s := codes[cur], texts[cur];
    if |s| <= m {
      TopShorter(phone, c, m, |s|);
      PrefixIffSameTop(c, s, phone, number[..k]);
      assert number[..k] <= number;
      forall j | 0 <= j < |texts| && texts[j] <= number
        ensures |texts[j]| <= |s|
      {
        if |texts[j]| > |s| {
          LongerSortsFirst(c, s, codes[j], texts[j], number);
          CandidatesAreAbove(phone, number, k, codes[j], texts[j]);
        }
      }
    } else {
      NearMissShortens(phone, number, k, c, s, m);
      forall j | 0 <= j < |texts| && texts[j] <= number
        ensures |texts[j]| <= m
      {
        CandidatesAreAbove(phone, number, k, codes[j], texts[j]);
        if j == cur {
          assert s <= number[..k];
          PrefixIffSameTop(c, s, phone, number[..k]);
          TopShorter(phone, c, |s|, m + 1);
        } else {
          NearMissBounds(phone, number, k, c, m, codes[j], texts[j]);
        }
      }
    }
  }

  /** Number of binary digits of `n`: how often a range of `n` entries can be halved. */
  function BitLength(n: nat): nat { if n == 0 then 0 else 1 + BitLength(n / 2) }

  lemma {:induction false} BitLengthMonotone(m: nat, n: nat)
    requires m <= n
    ensures BitLength(m) <= BitLength(n)
  {
    if m > 0 {
      BitLengthMonotone(m / 2, n / 2);
    }
  }

  function Middle(first: nat, last: nat): (m: nat)
    requires first <= last
    ensures first <= m <= last
  {
    (last + first) / 2
  }

  lemma Halving(first: nat, last: nat)
    requires first <= last
    ensures BitLength(last - Middle(first, last)) < BitLength(last - first + 1)
    ensures BitLength(Middle(first, last) - first) < BitLength(last - first + 1)
  {
    BitLengthMonotone(last - (last + first) / 2, (last - first + 1) / 2);
    BitLengthMonotone((last + first) / 2 - first, (last - first + 1) / 2);
  }

  /** No code can match once fewer digits match than the shortest code has. */
  lemma TooShort(codes: seq<u32>, texts: seq<string>, minLength: nat, phone: u32, number: string, m: nat)
    requires TableOf(codes, texts, minLength) && Key(phone, number, texts, m) && m < minLength
    ensures NoPrefix(texts, number)
  {
  }

  // ---- the code ----

  /** Length of the digit string packed in `code`. */
  method CalcCodeLen(code: u32) returns (len: nat)
    ensures len <= 8
    ensures forall i :: 0 <= i < len ==> Digit(code, i) != BLANK
    ensures len < 8 ==> Digit(code, len) == BLANK
  {
    len := 0;
    while len < 8 && Digit(code, len) != BLANK
      invariant len <= 8
      invariant forall i :: 0 <= i < len ==> Digit(code, i) != BLANK
    {
      len := len + 1;
    }
  }

  lemma CodeLenIsTextLength(code: u32, s: string, len: nat)
    requires Packs(code, s) && len <= 8
    requires forall i :: 0 <= i < len ==> Digit(code, i) != BLANK
    requires len < 8 ==> Digit(code, len) == BLANK
    ensures len == |s|
  {
    if len < |s| {
      DigitInText(code, s, len);
    } else if |s| < len {
      BlankAfterText(code, s);
    }
  }

  lemma DifferenceNeedsDigits(c: u32, d: u32, n: nat)
    requires n <= 8 && Top(c, n) != Top(d, n)
    ensures n > 0
  {
    TopFits(c, 0);
    TopFits(d, 0);
  }

  /** Number of digits in which the two words agree, counted from the left. */
  method CalcMatchingDigits(code1: u32, code2: u32) returns (n: nat)
    ensures n <= 8 && Top(code1, n) == Top(code2, n)
    ensures n < 8 ==> Top(code1, n + 1) != Top(code2, n + 1)
  {
    n := 8;
    while Top(code1, n) != Top(code2, n)
      invariant n <= 8
      invariant n < 8 ==> Top(code1, n + 1) != Top(code2, n + 1)
      decreases n
    {
      DifferenceNeedsDigits(code1, code2, n);
      n := n - 1;
    }
  }

  /** Packs the first eight characters of a phone number. */
  method EncodeNumber(number: string) returns (p: u32)
    ensures p == INVALID_NUMBER <==> number == "" || !AllDigits(Head8(number))
    ensures p != INVALID_NUMBER ==> Packs(p, Head8(number))
    ensures p == 0xFFFF_FFFF <==> number == "" || exists i :: 0 <= i < |number| && i < 8 && !('0' <= number[i] <= '9')
    ensures p != 0xFFFF_FFFF ==>
              forall i :: 0 <= i < 8 ==>
                Nibble(p, i) == if i < |number| then number[i] as int - '0' as int else 15
  {
    p := PackNumber(number);
    HeadByCharacters(number);
    if p != INVALID_NUMBER {
      PacksByNibbles(p, Head8(number));
      forall i | 0 <= i < 8
        ensures Nibble(p, i) == if i < |number| then number[i] as int - '0' as int else 15
      {
        assert Shows(p, i, Head8(number));
      }
    }
  }

  lemma HeadByCharacters(number: string)
    ensures AllDigits(Head8(number)) <==> !(exists i :: 0 <= i < |number| && i < 8 && !('0' <= number[i] <= '9'))
    ensures forall i :: 0 <= i < |Head8(number)| ==> Head8(number)[i] == number[i]
  {
  }

  method PackNumber(number: string) returns (p: u32)
    ensures p == INVALID_NUMBER <==> number == "" || !AllDigits(Head8(number))
    ensures p != INVALID_NUMBER ==> Packs(p, Head8(number))
  {
    var len := |number|;
    if len == 0 {
      return INVALID_NUMBER;
    } else if len > 8 {
      len := 8;
    }
    ghost var s := Head8(number);
    var v: nat := 0;
    var i := 0;
    while i < len
      invariant 0 <= i <= len == |s|
      invariant AllDigits(s[..i]) && v == Value(s[..i])
    {
      var c := number[i];
      if !IsDigit(c) {
        assert !IsDigit(s[i]);
        return INVALID_NUMBER;
      }
      ValueStep(s, i);
      v := 16 * v + DigitValue(c);
      i := i + 1;
    }
    assert s[..len] == s;
    PackedFits(s);
    p := FillWithBlanks(v, len);
  }

  /** The rest of the word is filled with 0xF. */
  method FillWithBlanks(v: nat, len: nat) returns (p: u32)
    requires len <= 8 && Fill(v, len) <= INVALID_NUMBER
    ensures p == Fill(v, len)
  {
    var q: nat := v;
    var i := len;
    while i < 8
      invariant len <= i <= 8 && Fill(q, i) == Fill(v, len)
    {
      q := 16 * q + BLANK;
      i := i + 1;
    }
    p := q;
  }

  lemma ValueStep(s: string, i: nat)
    requires i < |s| && AllDigits(s[..i]) && IsDigit(s[i])
    ensures AllDigits(s[..i + 1]) && Value(s[..i + 1]) == 16 * Value(s[..i]) + DigitValue(s[i])
  {
    assert s[..i + 1][..i] == s[..i];
  }

  /** The packed form of a digit string fits the word and is not the error mark. */
  lemma {:induction false} PackedFits(s: string)
    requires |s| <= 8 && AllDigits(s)
    ensures Fill(Value(s), |s|) <= INVALID_NUMBER
    ensures s != "" ==> Fill(Value(s), |s|) < INVALID_NUMBER
  {
    if s == "" {
      FillOfNothing();
    } else {
      var n := |s| - 1;
      var v, d := Value(s[..n]), DigitValue(s[n]);
      PackedFits(s[..n]);
      FillMonotone(16 * v + d, 16 * v + BLANK, n + 1);
    }
  }

  lemma FillOfNothing()
    ensures Fill(0, 0) == INVALID_NUMBER
  {
    assert Fill(0, 0) == Fill(0xFF, 2) == Fill(0xFFFF, 4) == Fill(0xFF_FFFF, 6) == Fill(0xFFFF_FFFF, 8);
  }

  /** File offsets are 32-bit words, so the table of 4-byte entries is smaller than 4 GB and the
      32-bit memory sizes computed from it do not wrap. */
  predicate FileFits(codes: seq<u32>) { |codes| * 4 < 0x1_0000_0000 }

  /** How one search ends. */
  datatype RoundResult = Hit(index: nat) | Nothing | NearMiss(index: nat, matchingDigits: nat)

  datatype SearchResult = NotFound | Found(index: nat)

  /** The open data file.  `Codes` is the table in the file; `First`, `Last` and `Table` describe
      the part of it that has been copied into memory. */
  class AreaCodeDesc {
    const Codes: seq<u32>
    const MinLength: nat
    const MaxMem: nat
    var First: int
    var Last: int
    var Table: array?<u32>

    ghost predicate Valid()
      reads this, Table
    {
      && FileFits(Codes)
      && (Table != null ==> 0 <= First <= Last < |Codes| && Table[..] == Codes[First..Last + 1])
    }

    constructor (codes: seq<u32>, minLength: nat, maxMem: nat)
      requires FileFits(codes)
      ensures Valid() && Table == null
      ensures Codes == codes && MinLength == minLength && MaxMem == maxMem
    {
      Codes, MinLength, MaxMem := codes, minLength, maxMem;
      First, Last, Table := 0, -1, null;
    }

    /** An entry of the table, from memory when it is cached and from the file otherwise. */
    method ReadPhone(index: nat) returns (c: u32)
      requires Valid() && index < |Codes|
      ensures c == Codes[index]
    {
      if Table != null && First <= index <= Last {
        c := Table[index - First];
      } else {
        c := Codes[index];
      }
    }

    /** Copies entries `First` to `Last` into memory; any allocation may fail. */
    method LoadTable()
      requires FileFits(Codes) && Table == null && 0 <= First <= Last < |Codes|
      modifies this`Table
      ensures Valid()
    {
      var granted: bool := *;
      if !granted {
        return;
      }
      var n := Last - First + 1;
      var t := new u32[n];
      for i := 0 to n
        invariant forall j :: 0 <= j < i ==> t[j] == Codes[First + j]
      {
        t[i] := Codes[First + i];
      }
      assert t[..] == Codes[First..Last + 1];
      Table := t;
    }

    /** Reads the middle entry of the range `[first, last]`, after trying to cache the range
        unless a part of the table is cached already or the range is too large. */
    method Probe(first: nat, last: nat) returns (current: nat, c: u32)
      requires Valid() && first <= last < |Codes|
      modifies this
      ensures Valid()
      ensures current == Middle(first, last) && c == Codes[current]
    {
      if Table == null {
        var needMemory := (last - first + 1) * 4;
        if needMemory <= MaxMem {
          First, Last := first, last;
          LoadTable();
        }
      }
      current := Middle(first, last);
      c := ReadPhone(current);
    }

    /** The binary search of one round, in `[first, |Codes|)`.  Without an exact match `first` is
        moved to the first entry above the key. */
    method BinarySearch(phone: u32, first0: nat) returns (found: bool, first: nat, current: nat, ghost probes: nat)
      requires Valid() && first0 <= |Codes|
      requires Increasing(Codes) && AllBelow(Codes, first0, phone)
      modifies this
      ensures Valid()
      ensures found ==> current < |Codes| && Codes[current] == phone
      ensures !found ==> first <= |Codes| && AllBelow(Codes, first, phone) && AllAbove(Codes, first, phone)
      ensures probes <= BitLength(|Codes| - first0)
    {
      NothingBehind(Codes, phone);
      hide *;
      first, found, current, probes := first0, false, 0, 0;
      var last := |Codes| - 1;
      while first <= last && !found
        invariant Valid()
        invariant !found ==> first0 <= first <= last + 1 <= |Codes|
        invariant !found ==> AllBelow(Codes, first, phone) && AllAbove(Codes, last + 1, phone)
        invariant found ==> current < |Codes| && Codes[current] == phone
        invariant found ==> probes <= BitLength(|Codes| - first0)
        invariant !found ==> probes + BitLength(last - first + 1) <= BitLength(|Codes| - first0)
        decreases !found, last - first
      {
        var currentVal;
        current, currentVal := Probe(first, last);
        probes := probes + 1;
        Halving(first, last);
        if phone > currentVal {
          BelowExtends(Codes, current, phone);
          first := current + 1;
        } else {
          last := current - 1;
          if phone == currentVal {
            found := true;
          } else {
            AboveExtends(Codes, current, phone);
          }
        }
      }
    }

    /** Compares the key with the first entry above it: the entry's length and the number of its
        leading digits that match. */
    method Compare(phone: u32, current: nat, ghost number: string, ghost texts: seq<string>, ghost k: nat)
      returns (areaCodeLen: nat, matchingDigits: nat)
      requires Valid() && TableOf(Codes, texts, MinLength)
      requires Key(phone, number, texts, k)
      requires current < |Codes| && AllBelow(Codes, current, phone) && AllAbove(Codes, current, phone)
      ensures areaCodeLen == |texts[current]|
      ensures areaCodeLen <= matchingDigits ==> LongestPrefix(texts, number, current)
      ensures matchingDigits < areaCodeLen ==>
        && matchingDigits < k
        && Key(Shorten(phone, matchingDigits), number, texts, matchingDigits)
        && AllBelow(Codes, current + 1, Shorten(phone, matchingDigits))
    {
      var currentVal := ReadPhone(current);
      areaCodeLen := CalcCodeLen(currentVal);
      CodeLenIsTextLength(currentVal, texts[current], areaCodeLen);
      matchingDigits := CalcMatchingDigits(phone, currentVal);
      NearMissOrMatch(Codes, texts, MinLength, phone, number, k, current, matchingDigits);
    }

    /** One search with the key as it is: the longest prefix, the insight that there is none, or a
        near miss that says with how many digits to go on. */
    method Round(phone: u32, first: nat, ghost number: string, ghost texts: seq<string>, ghost k: nat)
      returns (r: RoundResult, ghost probes: nat)
      requires Valid() && TableOf(Codes, texts, MinLength) && Key(phone, number, texts, k)
      requires first <= |Codes| && AllBelow(Codes, first, phone)
      modifies this
      ensures Valid()
      ensures r.Hit? ==> LongestPrefix(texts, number, r.index)
      ensures r.Nothing? ==> NoPrefix(texts, number)
      ensures r.NearMiss? ==>
        && r.matchingDigits < k && r.index < |Codes|
        && Key(Shorten(phone, r.matchingDigits), number, texts, r.matchingDigits)
        && AllBelow(Codes, r.index + 1, Shorten(phone, r.matchingDigits))
      ensures probes <= BitLength(|Codes|) + 1
    {
      hide *;
      BitLengthMonotone(|Codes| - first, |Codes|);
      TableIncreases(Codes, texts, MinLength);
      var found, above, current;
      found, above, current, probes := BinarySearch(phone, first);
      if found {
        ExactFound(Codes, texts, MinLength, phone, number, k, current);
        return Hit(current), probes;
      }
      if above >= |Codes| {
        NothingAbove(Codes, texts, MinLength, phone, number, k);
        return Nothing, probes;
      }
      var areaCodeLen, matchingDigits := Compare(phone, above, number, texts, k);
      probes := probes + 1;
      r := if matchingDigits >= areaCodeLen then Hit(above) else NearMiss(above, matchingDigits);
    }

    /** The whole lookup: repeated searches with an ever shorter key.  `rounds` counts the
        searches and `probes` is the largest number of entries read in one of them. */
    method Search(phone0: u32, ghost number: string, ghost texts: seq<string>)
      returns (r: SearchResult, ghost rounds: nat, ghost probes: nat)
      requires Valid() && TableOf(Codes, texts, MinLength)
      requires number != "" && Packs(phone0, number)
      modifies this
      ensures Valid()
      ensures r.Found? ==> LongestPrefix(texts, number, r.index)
      ensures r.NotFound? ==> NoPrefix(texts, number)
      ensures rounds <= 1 + if MinLength <= |number| then |number| - MinLength else 0
      ensures probes <= BitLength(|Codes|) + 1
    {
      var phone: u32, first: nat := phone0, 0;
      ghost var k: nat := |number|;
      assert number[..k] == number;
      assert Key(phone, number, texts, k);
      hide *;
      rounds, probes := 0, 0;
      while true
        invariant Valid()
        invariant Key(phone, number, texts, k)
        invariant first <= |Codes| && AllBelow(Codes, first, phone)
        invariant rounds + k <= |number| && (rounds > 0 ==> MinLength <= k)
        invariant probes <= BitLength(|Codes|) + 1
        decreases k
      {
        var outcome;
        ghost var n;
        outcome, n := Round(phone, first, number, texts, k);
        rounds := rounds + 1;
        probes := if n < probes then probes else n;
        match outcome {
          case Hit(index) =>
            return Found(index), rounds, probes;
          case Nothing =>
            return NotFound, rounds, probes;
          case NearMiss(index, matchingDigits) =>
            if matchingDigits < MinLength {
              TooShort(Codes, texts, MinLength, Shorten(phone, matchingDigits), number, matchingDigits);
              return NotFound, rounds, probes;
            }
            phone := Shorten(phone, matchingDigits);
            first := index + 1;
            k := matchingDigits;
        }
      }
    }
  }

  // ---- the answer in terms of the words in the file ----

  /** The word `c` of the file stands for the first `len` digits of `number`. */
  ghost predicate Heads(c: u32, number: string, len: nat) {
    && len <= 8 && len <= |number|
    && forall i :: 0 <= i < 8 ==> Nibble(c, i) == if i < len then number[i] as int - '0' as int else 15
  }

  lemma HeadsIffPrefix(c: u32, s: string, number: string, len: nat)
    requires Packs(c, s) && AllDigits(Head8(number))
    ensures Heads(c, number, len) <==> len == |s| && s <= Head8(number)
  {
    hide Nibble;
    if len <= 8 && len <= |number| {
      var t := number[..len];
      assert t == Head8(number)[..len];
      assert AllDigits(t);
      PacksByNibbles(c, t);
      forall i | 0 <= i < 8
        ensures Shows(c, i, t) <==> Nibble(c, i) == if i < len then number[i] as int - '0' as int else 15
      {
      }
      assert (forall i :: 0 <= i < 8 ==> Shows(c, i, t)) <==> Heads(c, number, len);
      assert Heads(c, number, len) <==> Packs(c, t);
      if len == |s| && s <= Head8(number) {
        assert s == t;
      }
      if Packs(c, t) {
        PackedOnce(c, s, t);
      }
      assert t <= Head8(number);
    }
  }

  lemma PackedOnce(c: u32, s: string, t: string)
    requires Packs(c, s) && Packs(c, t)
    ensures s == t
  {
    PrefixIffSameTop(c, s, c, t);
    PrefixIffSameTop(c, t, c, s);
  }

  datatype Lookup = InvalidInput | NoAreaCode | AreaCode(index: nat)

  /** Encodes the number the caller dialled and searches it.  The answer is the word of the file that
      stands for most of the number's first digits. */
  method GetAreaCode(desc: AreaCodeDesc, number: string, ghost texts: seq<string>) returns (r: Lookup)
    requires desc.Valid() && TableOf(desc.Codes, texts, desc.MinLength)
    modifies desc
    ensures r.InvalidInput? <==>
              number == "" || exists i :: 0 <= i < |number| && i < 8 && !('0' <= number[i] <= '9')
    ensures r.AreaCode? ==> LongestPrefix(texts, Head8(number), r.index)
    ensures r.NoAreaCode? ==> NoPrefix(texts, Head8(number))
    ensures r.AreaCode? ==>
      && r.index < |desc.Codes| && Heads(desc.Codes[r.index], number, |texts[r.index]|)
      && forall j, len: nat :: 0 <= j < |desc.Codes| && Heads(desc.Codes[j], number, len) ==> len <= |texts[r.index]|
    ensures r.NoAreaCode? ==> forall j, len: nat :: 0 <= j < |desc.Codes| ==> !Heads(desc.Codes[j], number, len)
  {
    var phone := EncodeNumber(number);
    if phone == INVALID_NUMBER {
      return InvalidInput;
    }
    forall j, len: nat | 0 <= j < |desc.Codes|
      ensures Heads(desc.Codes[j], number, len) <==> len == |texts[j]| && texts[j] <= Head8(number)
    {
      HeadsIffPrefix(desc.Codes[j], texts[j], number, len);
    }
    hide Heads, Packs, Nibble;
    var found, _, _ := desc.Search(phone, Head8(number), texts);
    match found {
      case NotFound => r := NoAreaCode;
      case Found(index) => r := AreaCode(index);
    }
  }
}
