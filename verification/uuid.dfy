/** Wallet identifiers: 128-bit UUIDs and their canonical text form
    (`java.util.UUID.toString`), used in the "Wallet not found" message. */
module Uuids {
  import opened Digits

  /** 2^128: the number of distinct UUIDs. */
  const UuidSpace: nat := 0x1_0000_0000_0000_0000_0000_0000_0000_0000

  /** A UUID as the 128-bit number formed by its most and least significant halves. */
  type Uuid = x: nat | x < UuidSpace

  /** The positions of the four dashes in the 36-character canonical form. */
  predicate IsDashPosition(i: int)
  {
    i == 8 || i == 13 || i == 18 || i == 23
  }

  /** The position in the 32 hex digits of the character at text position `i`
      (not a dash position): the number of dashes before `i` is skipped. */
  function HexIndex(i: int): int
  {
    if i < 8 then i else if i < 13 then i - 1 else if i < 18 then i - 2 else if i < 23 then i - 3 else i - 4
  }

  /** The text position of hex digit `j`: the inverse of `HexIndex`. */
  function TextIndex(j: int): int
  {
    if j < 8 then j else if j < 12 then j + 1 else if j < 16 then j + 2 else if j < 20 then j + 3 else j + 4
  }

  /** Canonical text: 32 lower-case hex digits grouped 8-4-4-4-12 by dashes. */
  function UuidText(u: Uuid): (s: string)
    ensures |s| == 36
    ensures forall i :: 0 <= i < |s| ==> (s[i] == '-' <==> IsDashPosition(i))
    ensures forall i :: 0 <= i < |s| && !IsDashPosition(i) ==> IsDigitChar(s[i], 16)
  {
    var h := PaddedText(u, 16, 32);
    seq(36, i requires 0 <= i < 36 => if IsDashPosition(i) then '-' else h[HexIndex(i)])
  }

  /** Reads the canonical form back: drops the dashes and reads the 32 hex digits. */
  function UuidOfText(s: string): nat
  {
    if |s| != 36 then 0
    else TextValue(seq(32, j requires 0 <= j < 32 => s[TextIndex(j)]), 16)
  }

  lemma MulAssoc(a: nat, b: nat, c: nat)
    ensures a * (b * c) == (a * b) * c
  {
  }

  lemma {:induction false} PowAdd(b: nat, m: nat, n: nat)
    ensures Pow(b, m + n) == Pow(b, m) * Pow(b, n)
    decreases m
  {
    if m > 0 {
      PowAdd(b, m - 1, n);
      assert Pow(b, m + n) == b * Pow(b, m - 1 + n);
      MulAssoc(b, Pow(b, m - 1), Pow(b, n));
    }
  }

  lemma HexPow32()
    ensures Pow(16, 32) == UuidSpace
  {
    assert Pow(16, 1) == 16;
    assert Pow(16, 2) == 256;
    PowAdd(16, 2, 2);
    PowAdd(16, 4, 4);
    PowAdd(16, 8, 8);
    PowAdd(16, 16, 16);
  }

  /** Distinct UUIDs have distinct text: the text form determines the UUID. */
  lemma UuidTextRoundTrip(u: Uuid)
    ensures UuidOfText(UuidText(u)) == u
  {
    var h := PaddedText(u, 16, 32);
    var s := UuidText(u);
    assert seq(32, j requires 0 <= j < 32 => s[TextIndex(j)]) == h;
    HexPow32();
    PaddedTextRoundTrip(u, 16, 32);
  }

  lemma UuidTextInjective(u: Uuid, v: Uuid)
    requires UuidText(u) == UuidText(v)
    ensures u == v
  {
    UuidTextRoundTrip(u);
    UuidTextRoundTrip(v);
  }
}
