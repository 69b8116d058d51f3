/** The packed form of a phone number: a 32-bit word of eight 4-bit digits, leftmost digit in
    the highest bits, unused places filled with 0xF.

    The source works on these words with masks that cover whole digits.  Here the word is a
    number below 2^32 and the leading digits are named by `Top`:  `c & Masks[n]` agrees for two
    words exactly when `Top(c, n)` does, and `c | (0xFFFFFFFF >> (n * 4))` is
    `Shorten(c, n)`. */
module AreaDigits {
  type u32 = c: nat | c < 0x1_0000_0000

  const INVALID_NUMBER: u32 := 0xFFFFFFFF
  const BLANK := 0xF

  /** The number made of the first `n` digits of `c`. */
  function Top(c: u32, n: nat): (t: u32)
    requires n <= 8
    ensures t <= c
    decreases 8 - n
  {
    if n == 8 then c else Top(c, n + 1) / 16
  }

  /** Digit `i` of `c`, counted from the left. */
  function Digit(c: u32, i: nat): nat
    requires i < 8
  {
    Top(c, i + 1) % 16
  }

  /** The word whose first `n` digits are `t` and whose other digits are blank. */
  function Fill(t: nat, n: nat): nat
    requires n <= 8
    decreases 8 - n
  {
    if n == 8 then t else Fill(16 * t + BLANK, n + 1)
  }

  predicate IsDigit(c: char) { '0' <= c <= '9' }

  function DigitValue(c: char): nat
    requires IsDigit(c)
  {
    c as int - '0' as int
  }

  predicate AllDigits(s: string) {
    forall i :: 0 <= i < |s| ==> IsDigit(s[i])
  }

  /** A digit string read as a number in base 16. */
  function Value(s: string): nat
    requires AllDigits(s)
  {
    if s == "" then 0 else 16 * Value(s[..|s| - 1]) + DigitValue(s[|s| - 1])
  }

  /** `c` is the packed form of the digit string `s`. */
  predicate Packs(c: u32, s: string) {
    |s| <= 8 && AllDigits(s) && c == Fill(Value(s), |s|)
  }

  /** The part of a phone number that fits into the packed form. */
  function Head8(s: string): string { if |s| <= 8 then s else s[..8] }

  lemma Blanked(t: nat, u: nat)
    ensures t <= u ==> 16 * t + BLANK <= 16 * u + BLANK
    ensures t < u ==> 16 * t + BLANK < 16 * u + BLANK
    ensures t <= 16 * t + BLANK
  {
  }

  lemma {:induction false} FillMonotone(t: nat, u: nat, n: nat)
    requires n <= 8 && t <= u
    ensures t <= Fill(t, n) <= Fill(u, n)
    ensures t < u ==> Fill(t, n) < Fill(u, n)
    decreases 8 - n
  {
    if n < 8 {
      var t', u' := 16 * t + BLANK, 16 * u + BLANK;
      assert Fill(t, n) == Fill(t', n + 1) && Fill(u, n) == Fill(u', n + 1);
      Blanked(t, u);
      hide Fill;
      FillMonotone(t', u', n + 1);
    }
  }

  /** Leading digits of a larger number are no smaller. */
  lemma {:induction false} TopMonotone(a: u32, b: u32, n: nat)
    requires n <= 8 && a <= b
    ensures Top(a, n) <= Top(b, n)
    decreases 8 - n
  {
    if n < 8 {
      TopMonotone(a, b, n + 1);
    }
  }

  lemma {:induction false} TopOfFill(t: nat, n: nat)
    requires n <= 8 && Fill(t, n) < 0x1_0000_0000
    ensures Top(Fill(t, n), n) == t
    ensures n < 8 ==> Top(Fill(t, n), n + 1) == 16 * t + BLANK
    decreases 8 - n
  {
    if n < 8 {
      TopOfFill(16 * t + BLANK, n + 1);
    }
  }

  /** Blanking digits never makes a number smaller. */
  lemma {:induction false} FillTopAbove(c: u32, n: nat)
    requires n <= 8
    ensures c <= Fill(Top(c, n), n) < 0x1_0000_0000
    decreases 8 - n
  {
    hide Fill, Top;
    if n < 8 {
      FillFits(c, n);
      FillTopAbove(c, n + 1);
      BlankingGrows(c, n);
    } else {
      NothingToFill(c);
    }
  }

  lemma NothingToFill(c: u32)
    ensures Fill(Top(c, 8), 8) == c
  {
  }

  /** `t` with its last digit blanked. */
  function BlankLast(t: nat): (r: nat)
    ensures t <= r
  {
    16 * (t / 16) + BLANK
  }

  lemma FillOfTop(c: u32, n: nat)
    requires n < 8
    ensures Fill(Top(c, n), n) == Fill(BlankLast(Top(c, n + 1)), n + 1)
  {
    assert Top(c, n) == Top(c, n + 1) / 16;
    hide Top;
    FillStep(Top(c, n), n);
  }

  lemma FillStep(t: nat, n: nat)
    requires n < 8
    ensures Fill(t, n) == Fill(16 * t + BLANK, n + 1)
  {
  }

  lemma BlankingGrows(c: u32, n: nat)
    requires n < 8
    ensures Fill(Top(c, n + 1), n + 1) <= Fill(Top(c, n), n)
  {
    hide Fill, Top, BlankLast;
    FillOfTop(c, n);
    FillMonotone(Top(c, n + 1), BlankLast(Top(c, n + 1)), n + 1);
  }

  lemma {:induction false} FillFits(c: u32, n: nat)
    requires n <= 8
    ensures Fill(Top(c, n), n) < 0x1_0000_0000
  {
    TopFits(c, n);
    TopFitsFill(Top(c, n), n);
  }

  /** `c` with every digit from place `n` on blanked. */
  function Shorten(c: u32, n: nat): (r: u32)
    requires n <= 8
    ensures c <= r
  {
    FillTopAbove(c, n);
    Fill(Top(c, n), n)
  }

  /** 16 to the power `n`. */
  function Pow16(n: nat): nat { if n == 0 then 1 else 16 * Pow16(n - 1) }

  lemma {:induction false} TopFits(c: u32, n: nat)
    requires n <= 8
    ensures Top(c, n) < Pow16(n)
    decreases 8 - n
  {
    if n == 8 {
      assert Pow16(2) == 0x100 && Pow16(4) == 0x1_0000 && Pow16(6) == 0x100_0000;
    } else {
      TopFits(c, n + 1);
    }
  }

  lemma {:induction false} TopFitsFill(t: nat, n: nat)
    requires n <= 8 && t < Pow16(n)
    ensures Fill(t, n) < 0x1_0000_0000
    decreases 8 - n
  {
    if n == 8 {
      assert Pow16(2) == 0x100 && Pow16(4) == 0x1_0000 && Pow16(6) == 0x100_0000;
    } else {
      TopFitsFill(16 * t + BLANK, n + 1);
    }
  }

  lemma {:induction false} TopShorter(a: u32, b: u32, n: nat, m: nat)
    requires m <= n <= 8 && Top(a, n) == Top(b, n)
    ensures Top(a, m) == Top(b, m)
    decreases n - m
  {
    if m < n {
      TopShorter(a, b, n, m + 1);
      assert Top(a, m) == Top(a, m + 1) / 16;
      assert Top(b, m) == Top(b, m + 1) / 16;
    }
  }

  // ---- packed digit strings ----

  lemma LastDigit(a: nat, d: nat, b: nat, e: nat)
    requires d < 16 && e < 16 && 16 * a + d == 16 * b + e
    ensures a == b && d == e
  {
  }

  lemma {:induction false} ValueInjective(s: string, t: string)
    requires |s| == |t| && AllDigits(s) && AllDigits(t) && Value(s) == Value(t)
    ensures s == t
    decreases |s|
  {
    if s != "" {
      var n := |s| - 1;
      LastDigit(Value(s[..n]), DigitValue(s[n]), Value(t[..n]), DigitValue(t[n]));
      ValueInjective(s[..n], t[..n]);
      assert s == s[..n] + [s[n]];
      assert t == t[..n] + [t[n]];
    }
  }

  /** The leading digits of a packed string are the value of its prefix. */
  lemma {:induction false} TopOfPacked(c: u32, s: string, n: nat)
    requires Packs(c, s) && n <= |s|
    ensures Top(c, n) == Value(s[..n])
    decreases |s| - n
  {
    if n == |s| {
      TopOfFill(Value(s), n);
      assert s[..n] == s;
    } else {
      TopOfPacked(c, s, n + 1);
      assert s[..n + 1][..n] == s[..n];
    }
  }

  lemma DigitInText(c: u32, s: string, i: nat)
    requires Packs(c, s) && i < |s|
    ensures Digit(c, i) == DigitValue(s[i])
  {
    TopOfPacked(c, s, i + 1);
    assert s[..i + 1][..i] == s[..i];
    LastDigit(Value(s[..i]), DigitValue(s[i]), Top(c, i + 1) / 16, Top(c, i + 1) % 16);
  }

  lemma BlankAfterText(c: u32, s: string)
    requires Packs(c, s) && |s| < 8
    ensures Digit(c, |s|) == BLANK
  {
    TopOfFill(Value(s), |s|);
  }

  /** Two packed strings share their first `|s|` digits exactly when `s` is a prefix of `t`. */
  lemma PrefixIffSameTop(c: u32, s: string, d: u32, t: string)
    requires Packs(c, s) && Packs(d, t)
    ensures s <= t <==> Top(c, |s|) == Top(d, |s|)
  {
    var n := |s|;
    TopOfPacked(c, s, n);
    assert s[..n] == s;
    if n <= |t| {
      TopOfPacked(d, t, n);
      assert s <= t <==> s == t[..n];
      if Value(s) == Value(t[..n]) {
        ValueInjective(s, t[..n]);
      }
    } else if Top(c, n) == Top(d, n) {
      // place |t| of d is blank, place |t| of c is a digit
      TopShorter(c, d, n, |t| + 1);
      BlankAfterText(d, t);
      DigitInText(c, s, |t|);
      assert false;
    }
  }

  /** A prefix of a packed string packs to a larger number: blanks sort last. */
  lemma PrefixSortsLater(c: u32, s: string, d: u32, t: string)
    requires Packs(c, s) && Packs(d, t) && s <= t
    ensures d <= c
    ensures s != t ==> d < c
  {
    PrefixIffSameTop(c, s, d, t);
    TopOfPacked(c, s, |s|);
    assert s[..|s|] == s;
    FillTopAbove(d, |s|);
    if d == c && s != t {
      PrefixIffSameTop(d, t, c, s);
    }
  }

  lemma ShortenedPacks(c: u32, s: string, n: nat)
    requires Packs(c, s) && n <= |s|
    ensures Packs(Shorten(c, n), s[..n])
  {
    TopOfPacked(c, s, n);
  }

  // ---- what the packed form says about the text, character by character ----

  /** The 4-bit digits of a word, from the highest one on. */
  function Nibble(c: u32, i: nat): nat
    requires i < 8
  {
    match i
    case 0 => c / 0x1000_0000 % 16
    case 1 => c / 0x100_0000 % 16
    case 2 => c / 0x10_0000 % 16
    case 3 => c / 0x1_0000 % 16
    case 4 => c / 0x1000 % 16
    case 5 => c / 0x100 % 16
    case 6 => c / 0x10 % 16
    case _ => c % 16
  }

  lemma TopIsQuotient(c: u32)
    ensures Top(c, 8) == c && Top(c, 7) == c / 0x10 && Top(c, 6) == c / 0x100 && Top(c, 5) == c / 0x1000
    ensures Top(c, 4) == c / 0x1_0000 && Top(c, 3) == c / 0x10_0000
    ensures Top(c, 2) == c / 0x100_0000 && Top(c, 1) == c / 0x1000_0000
  {
    TopStep(c, 7);
    TopStep(c, 6);
    TopStep(c, 5);
    TopStep(c, 4);
    TopStep(c, 3);
    TopStep(c, 2);
    TopStep(c, 1);
    assert Top(c, 8) == c;
    hide Top;
    assert c / 0x10 / 16 == c / 0x100;
    assert c / 0x100 / 16 == c / 0x1000;
    assert c / 0x1000 / 16 == c / 0x1_0000;
    assert c / 0x1_0000 / 16 == c / 0x10_0000;
    assert c / 0x10_0000 / 16 == c / 0x100_0000;
    assert c / 0x100_0000 / 16 == c / 0x1000_0000;
  }

  lemma TopStep(c: u32, n: nat)
    requires n < 8
    ensures Top(c, n) == Top(c, n + 1) / 16
  {
  }

  lemma DigitIsNibble(c: u32, i: nat)
    requires i < 8
    ensures Digit(c, i) == Nibble(c, i)
  {
    TopIsQuotient(c);
    hide Top;
  }

  /** The number that `c` stands for as a decimal digit, or the blank. */
  predicate Shows(c: u32, i: nat, s: string)
    requires i < 8
  {
    Nibble(c, i) == if i < |s| then s[i] as int - '0' as int else 15
  }

  lemma {:induction false} BlankFrom(t: nat, n: nat, i: nat)
    requires n <= i < 8 && Fill(t, n) < 0x1_0000_0000
    ensures Digit(Fill(t, n), i) == BLANK
    decreases 8 - n
  {
    if n == i {
      TopOfFill(t, n);
    } else {
      BlankFrom(16 * t + BLANK, n + 1, i);
    }
  }

  lemma {:induction false} NibblesDecide(c: u32, d: u32)
    requires forall i :: 0 <= i < 8 ==> Nibble(c, i) == Nibble(d, i)
    ensures c == d
  {
    TopsAgree(c, d, 8);
  }

  lemma {:induction false} TopsAgree(c: u32, d: u32, n: nat)
    requires n <= 8 && forall i :: 0 <= i < 8 ==> Nibble(c, i) == Nibble(d, i)
    ensures Top(c, n) == Top(d, n)
  {
    hide Nibble;
    if n == 0 {
      TopFits(c, 0);
      TopFits(d, 0);
    } else {
      TopsAgree(c, d, n - 1);
      DigitIsNibble(c, n - 1);
      DigitIsNibble(d, n - 1);
      TopStep(c, n - 1);
      TopStep(d, n - 1);
      hide Top;
      assert Nibble(c, n - 1) == Nibble(d, n - 1);
    }
  }

  /** A word packs a string exactly when its first digits are the string's characters, read as
      decimal digits, and all others are 15. */
  lemma PacksByNibbles(c: u32, s: string)
    requires |s| <= 8 && forall i :: 0 <= i < |s| ==> '0' <= s[i] <= '9'
    ensures Packs(c, s) <==> forall i :: 0 <= i < 8 ==> Shows(c, i, s)
  {
    PackedWordFits(s);
    var d: u32 := Fill(Value(s), |s|);
    forall i | 0 <= i < 8
      ensures Shows(d, i, s)
    {
      PackedShows(d, s, i);
    }
    hide Nibble;
    if forall i :: 0 <= i < 8 ==> Shows(c, i, s) {
      forall i | 0 <= i < 8
        ensures Nibble(c, i) == Nibble(d, i)
      {
        assert Shows(c, i, s) && Shows(d, i, s);
      }
      NibblesDecide(c, d);
    }
  }

  lemma {:induction false} PackedWordFits(s: string)
    requires |s| <= 8 && AllDigits(s)
    ensures Value(s) < Pow16(|s|) && Fill(Value(s), |s|) < 0x1_0000_0000
  {
    if s != "" {
      PackedWordFits(s[..|s| - 1]);
    }
    TopFitsFill(Value(s), |s|);
  }

  lemma PackedShows(d: u32, s: string, i: nat)
    requires Packs(d, s) && i < 8
    ensures Shows(d, i, s)
  {
    hide Nibble;
    DigitIsNibble(d, i);
    if i < |s| {
      DigitInText(d, s, i);
    } else {
      BlankFrom(Value(s), |s|, i);
    }
  }

  /** `s` comes before `t`: at the first place where they differ it has the lower character, or `t`
      has ended there. */
  predicate Before(s: string, t: string) {
    s != "" && (t == "" || s[0] < t[0] || (s[0] == t[0] && Before(s[1..], t[1..])))
  }

  /** Packed words are ordered as their texts are, character by character, with the end of a text
      after every digit. */
  lemma PackedOrder(c: u32, s: string, d: u32, t: string)
    requires Packs(c, s) && Packs(d, t)
    ensures c < d <==> Before(s, t)
  {
    if Before(s, t) {
      BeforeSorts(c, s, d, t, 0);
    } else if Before(t, s) {
      BeforeSorts(d, t, c, s, 0);
    } else {
      OneIsBefore(s, t);
    }
  }

  lemma {:induction false} OneIsBefore(s: string, t: string)
    requires !Before(s, t) && !Before(t, s)
    ensures s == t
  {
    if s != "" && t != "" {
      OneIsBefore(s[1..], t[1..]);
      assert s == [s[0]] + s[1..] && t == [t[0]] + t[1..];
    }
  }

  lemma {:induction false} BeforeSorts(c: u32, s: string, d: u32, t: string, k: nat)
    requires Packs(c, s) && Packs(d, t) && k <= |s| && k <= |t| && s[..k] == t[..k]
    requires Before(s[k..], t[k..])
    ensures c < d
    decreases |s| - k
  {
    TopOfPacked(c, s, k);
    TopOfPacked(d, t, k);
    DigitInText(c, s, k);
    TopStep(c, k);
    TopStep(d, k);
    if k == |t| {
      BlankAfterText(d, t);
      SmallerTop(c, d, k + 1);
    } else {
      DigitInText(d, t, k);
      if s[k] < t[k] {
        SmallerTop(c, d, k + 1);
      } else {
        assert s[k..][1..] == s[k + 1..] && t[k..][1..] == t[k + 1..];
        assert s[..k + 1] == s[..k] + [s[k]] && t[..k + 1] == t[..k] + [t[k]];
        BeforeSorts(c, s, d, t, k + 1);
      }
    }
  }

  lemma SmallerTop(c: u32, d: u32, n: nat)
    requires n <= 8 && Top(c, n) < Top(d, n)
    ensures c < d
  {
    if d <= c {
      TopMonotone(d, c, n);
    }
  }
}
