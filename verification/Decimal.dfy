/** Decimal numerals, as they occur in octet counts and priority values. */
module Decimal {

  predicate IsDigit(c: char) { '0' <= c <= '9' }

  predicate AllDigits(s: string) { forall i :: 0 <= i < |s| ==> IsDigit(s[i]) }

  /** `int(s)` for a string of ASCII digits. */
  function Value(s: string): nat
    requires AllDigits(s)
  {
    if s == [] then 0 else 10 * Value(s[..|s| - 1]) + (s[|s| - 1] as int - '0' as int)
  }

  /** The numeral of `n` without leading zeros. */
  function Numeral(n: nat): string {
    if n < 10 then [('0' as int + n) as char]
    else Numeral(n / 10) + [('0' as int + n % 10) as char]
  }

  /** Reading a numeral back gives the number. */
  lemma {:induction false} ValueOfNumeral(n: nat)
    ensures AllDigits(Numeral(n)) && Numeral(n) != [] && Value(Numeral(n)) == n
    ensures n > 0 ==> Numeral(n)[0] != '0'
  {
    if n < 10 {
      assert Numeral(n)[..0] == [];
    } else {
      ValueOfNumeral(n / 10);
      assert Numeral(n)[..|Numeral(n)| - 1] == Numeral(n / 10);
    }
  }

  /** One more digit at the end: ten times what was there, plus the digit. */
  lemma OneMoreDigit(s: string, d: nat)
    requires AllDigits(s) && d < 10
    ensures Value([]) == 0
    ensures var t := s + ["0123456789"[d]];
            AllDigits(t) && Value(t) == 10 * Value(s) + d
  {
    var t := s + ["0123456789"[d]];
    assert t[..|s|] == s;
  }

  lemma ShortNumeral(n: nat)
    requires n < 1000
    ensures |Numeral(n)| <= 3
  {
    assert |Numeral(n / 10 / 10)| == 1;
  }

  /** Length of the run of digits at the front. */
  function DigitsLength(s: string): (k: nat)
    ensures k <= |s| && AllDigits(s[..k]) && (k < |s| ==> !IsDigit(s[k]))
  {
    if s == [] || !IsDigit(s[0]) then 0
    else
      var k := DigitsLength(s[1..]);
      assert forall i :: 0 < i < k + 1 ==> s[i] == s[1..][..k][i - 1];
      1 + k
  }

  lemma DigitsLengthOf(d: string, rest: string)
    requires AllDigits(d) && rest != [] && !IsDigit(rest[0])
    ensures DigitsLength(d + rest) == |d|
  {
    hide DigitsLength;
    var s, k := d + rest, DigitsLength(d + rest);
    assert forall i :: 0 <= i < |d| ==> s[i] == d[i] && IsDigit(s[i]);
    assert s[|d|] == rest[0];
    assert forall i :: 0 <= i < k ==> s[..k][i] == s[i] && IsDigit(s[i]);
  }
}
