/** Decimal numerals as printf writes them: "%i" for hash map keys, "%lld" in bencoded data. */
module Decimal {
  import opened Bytes

  const MINUS: byte := 45
  const ZERO: byte := 48
  const NINE: byte := 57

  predicate IsDigit(b: byte) {
    ZERO <= b <= NINE
  }

  function DigitByte(d: int): byte
    requires 0 <= d < 10
  {
    if d == 0 then 48 else if d == 1 then 49 else if d == 2 then 50 else if d == 3 then 51 else if d == 4 then 52
    else if d == 5 then 53 else if d == 6 then 54 else if d == 7 then 55 else if d == 8 then 56 else 57
  }

  function DigitVal(b: byte): (d: int)
    requires IsDigit(b)
    ensures 0 <= d < 10
  {
    if b == 48 then 0 else if b == 49 then 1 else if b == 50 then 2 else if b == 51 then 3 else if b == 52 then 4
    else if b == 53 then 5 else if b == 54 then 6 else if b == 55 then 7 else if b == 56 then 8 else 9
  }

  lemma DigitRoundTrip(d: int)
    requires 0 <= d < 10
    ensures IsDigit(DigitByte(d)) && DigitVal(DigitByte(d)) == d
  {
  }

  ghost predicate AllDigits(s: seq<byte>) {
    forall i :: 0 <= i < |s| ==> IsDigit(s[i])
  }

  function NatText(n: nat): seq<byte> {
    if n < 10 then [DigitByte(n)] else NatText(n / 10) + [DigitByte(n % 10)]
  }

  function IntText(n: int): seq<byte> {
    if n < 0 then [MINUS] + NatText(-n) else NatText(n)
  }

  /** The number that a string of digits denotes. */
  function NatValue(s: seq<byte>): nat
    requires AllDigits(s)
  {
    if s == [] then 0 else 10 * NatValue(s[..|s| - 1]) + DigitVal(s[|s| - 1])
  }

  lemma {:induction false} NatTextValue(n: nat)
    ensures NatText(n) != [] && AllDigits(NatText(n)) && NatValue(NatText(n)) == n
  {
    if n < 10 {
      DigitRoundTrip(n);
      assert NatText(n)[..0] == [];
    } else {
      NatTextValue(n / 10);
      DigitRoundTrip(n % 10);
      var front := NatText(n / 10);
      assert NatText(n) == front + [DigitByte(n % 10)];
      assert NatText(n)[..|front|] == front;
    }
  }

  /** Distinct numbers print differently. */
  lemma NatTextInjective(m: nat, n: nat)
    requires NatText(m) == NatText(n)
    ensures m == n
  {
    NatTextValue(m);
    NatTextValue(n);
  }
}
