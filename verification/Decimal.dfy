/** Decimal numerals: what `str` prints of a natural number and `int` reads of digits. */
module Decimal {

  predicate IsDigit(c: char) {
    '0' <= c <= '9'
  }

  predicate AllDigits(s: string) {
    forall i :: 0 <= i < |s| ==> IsDigit(s[i])
  }

  function Print(n: nat): (s: string)
    ensures s != [] && AllDigits(s)
    ensures n > 0 ==> s[0] != '0'
  {
    var last := '0' + (n % 10) as char;
    if n < 10 then [last] else Print(n / 10) + [last]
  }

  function Read(s: string): nat
    requires AllDigits(s)
  {
    if s == [] then 0 else Read(s[..|s| - 1]) * 10 + (s[|s| - 1] as int - '0' as int)
  }

  /** How many digits `s` opens with. */
  function Leading(s: string): (k: nat)
    ensures k <= |s|
    ensures AllDigits(s[..k])
    ensures k < |s| ==> !IsDigit(s[k])
  {
    if s == [] || !IsDigit(s[0]) then 0 else 1 + Leading(s[1..])
  }

  lemma {:induction false} ReadOfPrint(n: nat)
    ensures Read(Print(n)) == n
  {
    if n >= 10 {
      ReadOfPrint(n / 10);
      assert Print(n)[..|Print(n)| - 1] == Print(n / 10);
    }
  }

  lemma {:induction false} LeadingOfDigits(d: string, tail: string)
    requires AllDigits(d)
    requires tail == [] || !IsDigit(tail[0])
    ensures Leading(d + tail) == |d|
    ensures (d + tail)[..|d|] == d && (d + tail)[|d|..] == tail
  {
    if d == [] {
      assert d + tail == tail;
    } else {
      assert (d + tail)[1..] == d[1..] + tail;
      LeadingOfDigits(d[1..], tail);
    }
  }
}
