/** Positional notation: natural numbers as fixed-width digit sequences and
    digit sequences as text. Shared by the UUID and decimal renderings. */
module Digits {

  function Pow(base: nat, exp: nat): (r: nat)
    ensures base >= 1 ==> r >= 1
  {
    if exp == 0 then 1 else base * Pow(base, exp - 1)
  }

  /** The low `width` digits of `n` in `base`, most significant first. */
  function ToDigits(n: nat, base: nat, width: nat): (ds: seq<nat>)
    requires base >= 2
    ensures |ds| == width
    ensures forall i :: 0 <= i < |ds| ==> ds[i] < base
    decreases width
  {
    if width == 0 then [] else ToDigits(n / base, base, width - 1) + [n % base]
  }

  /** The number a digit sequence denotes, most significant digit first. */
  function FromDigits(ds: seq<nat>, base: nat): nat
  {
    if |ds| == 0 then 0 else FromDigits(ds[..|ds| - 1], base) * base + ds[|ds| - 1]
  }

  lemma DivBelow(n: nat, base: nat, p: nat)
    requires base >= 1
    requires n < base * p
    ensures n / base < p
  {
  }

  lemma DivMod(n: nat, base: nat)
    requires base >= 1
    ensures (n / base) * base + n % base == n
  {
  }

  lemma FromDigitsSnoc(ds: seq<nat>, d: nat, base: nat)
    ensures FromDigits(ds + [d], base) == FromDigits(ds, base) * base + d
  {
    assert (ds + [d])[..|ds|] == ds;
  }

  /** Reading back the digits of a number that fits the width gives the number. */
  lemma {:induction false} FromToDigits(n: nat, base: nat, width: nat)
    requires base >= 2
    requires n < Pow(base, width)
    ensures FromDigits(ToDigits(n, base, width), base) == n
    decreases width
  {
    if width > 0 {
      var q := n / base;
      var high := ToDigits(q, base, width - 1);
      assert ToDigits(n, base, width) == high + [n % base];
      DivBelow(n, base, Pow(base, width - 1));
      FromToDigits(q, base, width - 1);
      FromDigitsSnoc(high, n % base, base);
      DivMod(n, base);
    }
  }

  lemma NextPowBound(n: nat, base: nat, p: nat)
    requires base >= 2
    requires n / base < p
    ensures n < base * p
  {
    DivMod(n, base);
    assert (n / base) + 1 <= p;
    assert ((n / base) + 1) * base <= p * base;
  }

  lemma DivSmaller(n: nat, base: nat)
    requires base >= 2 && n >= 1
    ensures n / base < n
  {
  }

  /** The number of digits of `n` written without leading zeros (one for zero). */
  function DigitCount(n: nat, base: nat): (k: nat)
    requires base >= 2
    ensures k >= 1
    ensures n < Pow(base, k)
    decreases n
  {
    if n < base then 1
    else
      DivSmaller(n, base);
      var k' := DigitCount(n / base, base);
      NextPowBound(n, base, Pow(base, k'));
      assert Pow(base, 1 + k') == base * Pow(base, k');
      1 + k'
  }

  /** The character for a digit below sixteen: `0`-`9` then lower-case `a`-`f`. */
  function DigitChar(d: nat): (c: char)
    requires d < 16
  {
    if d < 10 then ('0' as int + d) as char else ('a' as int + d - 10) as char
  }

  predicate IsDigitChar(c: char, base: nat)
  {
    ('0' <= c <= '9' && (c as int - '0' as int) < base)
    || ('a' <= c <= 'f' && (c as int - 'a' as int) + 10 < base)
  }

  /** The value of a digit character; zero for any other character. */
  function DigitValue(c: char): (d: nat)
    ensures d < 16
  {
    if '0' <= c <= '9' then c as int - '0' as int
    else if 'a' <= c <= 'f' then c as int - 'a' as int + 10
    else 0
  }

  /** Renders a digit sequence as text, one character per digit. */
  function Render(ds: seq<nat>, base: nat): (s: string)
    requires 2 <= base <= 16
    requires forall i :: 0 <= i < |ds| ==> ds[i] < base
    ensures |s| == |ds|
    ensures forall i :: 0 <= i < |s| ==> IsDigitChar(s[i], base) && DigitValue(s[i]) == ds[i]
  {
    seq(|ds|, i requires 0 <= i < |ds| => DigitChar(ds[i]))
  }

  /** Reads text back as a digit sequence. */
  function Parse(s: string): (ds: seq<nat>)
    ensures |ds| == |s|
  {
    seq(|s|, i requires 0 <= i < |s| => DigitValue(s[i]))
  }

  lemma ParseRender(ds: seq<nat>, base: nat)
    requires 2 <= base <= 16
    requires forall i :: 0 <= i < |ds| ==> ds[i] < base
    ensures Parse(Render(ds, base)) == ds
  {
  }

  /** `n` written in `base` with `width` digits, leading zeros kept. */
  function PaddedText(n: nat, base: nat, width: nat): (s: string)
    requires 2 <= base <= 16
    ensures |s| == width
    ensures forall i :: 0 <= i < |s| ==> IsDigitChar(s[i], base)
  {
    Render(ToDigits(n, base, width), base)
  }

  /** The number denoted by digit text. */
  function TextValue(s: string, base: nat): nat
  {
    FromDigits(Parse(s), base)
  }

  lemma PaddedTextRoundTrip(n: nat, base: nat, width: nat)
    requires 2 <= base <= 16
    requires n < Pow(base, width)
    ensures TextValue(PaddedText(n, base, width), base) == n
  {
    ParseRender(ToDigits(n, base, width), base);
    FromToDigits(n, base, width);
  }

  /** `n` written in `base` without leading zeros. */
  function NaturalText(n: nat, base: nat): (s: string)
    requires 2 <= base <= 16
    ensures |s| >= 1
    ensures forall i :: 0 <= i < |s| ==> IsDigitChar(s[i], base)
  {
    PaddedText(n, base, DigitCount(n, base))
  }

  lemma NaturalTextRoundTrip(n: nat, base: nat)
    requires 2 <= base <= 16
    ensures TextValue(NaturalText(n, base), base) == n
  {
    PaddedTextRoundTrip(n, base, DigitCount(n, base));
  }
}
