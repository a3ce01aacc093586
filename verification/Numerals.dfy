/** The C library's unsigned number formatting, as the repository uses it:
    `%0<width>llX` and `%02X` in hexadecimal, `%0<width>llu`, `%02u` and `%llu` in decimal. */
module Numerals {

  function DigitChar(d: nat): (c: char)
    requires d < 16
  {
    if d < 10 then '0' + d as char else 'A' + (d - 10) as char
  }

  predicate IsDecimal(c: char) {
    '0' <= c <= '9'
  }

  /** The digit a character stands for; 0 for anything that is not a hexadecimal digit. */
  function DigitOf(c: char): (d: nat)
    ensures d < 16
  {
    if '0' <= c <= '9' then (c - '0') as nat
    else if 'A' <= c <= 'F' then (c - 'A') as nat + 10
    else 0
  }

  lemma DigitRoundTrip(d: nat)
    requires d < 16
    ensures DigitOf(DigitChar(d)) == d
    ensures d < 10 ==> IsDecimal(DigitChar(d))
  {
  }

  /** `v` in hexadecimal, zero-padded on the left to at least `width` characters, never truncated. */
  function Hex(v: nat, width: nat): string
    decreases v, width
  {
    if v < 16 && width <= 1 then [DigitChar(v)]
    else Hex(v / 16, if width == 0 then 0 else width - 1) + [DigitChar(v % 16)]
  }

  /** `v` in decimal, padded likewise. */
  function Dec(v: nat, width: nat): string
    decreases v, width
  {
    if v < 10 && width <= 1 then [DigitChar(v)]
    else Dec(v / 10, if width == 0 then 0 else width - 1) + [DigitChar(v % 10)]
  }

  /** The number a decimal digit string denotes. */
  function DecValue(s: string): nat {
    if s == [] then 0 else DecValue(s[..|s| - 1]) * 10 + DigitOf(s[|s| - 1])
  }

  function TenToThe(n: nat): nat {
    if n == 0 then 1 else 10 * TenToThe(n - 1)
  }

  lemma {:induction false} DecRoundTrip(v: nat, width: nat)
    ensures DecValue(Dec(v, width)) == v
    decreases v, width
  {
    if v < 10 && width <= 1 {
      DigitRoundTrip(v);
      assert DecValue([DigitChar(v)][..0]) == 0;
    } else {
      var front := Dec(v / 10, if width == 0 then 0 else width - 1);
      DecRoundTrip(v / 10, if width == 0 then 0 else width - 1);
      DigitRoundTrip(v % 10);
      assert (front + [DigitChar(v % 10)])[..|front|] == front;
    }
  }

  /** A value below 10^width fills the field exactly, with decimal digits only. */
  lemma {:induction false} DecWidth(v: nat, width: nat)
    requires 1 <= width && v < TenToThe(width)
    ensures |Dec(v, width)| == width
    ensures forall i :: 0 <= i < width ==> IsDecimal(Dec(v, width)[i])
    decreases width
  {
    if width > 1 {
      DecWidth(v / 10, width - 1);
    }
  }
}
