/** `std::to_string` and `std::stoull` on unsigned values, and that they are inverse. */
module Decimal {
  import opened Wrappers
  import opened Text

  /** The number of values of the 64-bit `size_t`. */
  const SIZE_MOD: nat := 0x1_0000_0000_0000_0000

  function DigitValue(c: char): nat
    requires IsDigit(c)
  {
    c as int - '0' as int
  }

  function DigitChar(d: nat): (c: char)
    requires d < 10
    ensures IsDigit(c) && DigitValue(c) == d
  {
    (d + '0' as int) as char
  }

  function Value(s: string): nat
    requires AllDigits(s)
  {
    if s == "" then 0
    else
      assert s[|s| - 1] in s;
      10 * Value(s[..|s| - 1]) + DigitValue(s[|s| - 1])
  }

  function Show(n: nat): string {
    if n < 10 then [DigitChar(n)] else Show(n / 10) + [DigitChar(n % 10)]
  }

  /** `std::stoull` on a digit string: None where it throws `out_of_range`. */
  function Stoull(s: string): Option<nat>
    requires AllDigits(s)
  {
    if Value(s) < SIZE_MOD then Some(Value(s)) else None
  }

  lemma {:induction false} ShowRoundTrip(n: nat)
    ensures Show(n) != "" && AllDigits(Show(n)) && Value(Show(n)) == n
  {
    if n < 10 {
      assert Show(n)[..0] == "";
    } else {
      ShowRoundTrip(n / 10);
      assert Show(n)[..|Show(n)| - 1] == Show(n / 10);
    }
  }

  /** Digit strings without a leading zero are exactly what Show prints. */
  lemma {:induction false} ValueRoundTrip(s: string)
    requires AllDigits(s) && s != "" && (|s| > 1 ==> s[0] != '0')
    ensures Show(Value(s)) == s
    ensures |s| > 1 ==> Value(s) >= 10
  {
    var init, d := s[..|s| - 1], s[|s| - 1];
    assert d in s;
    assert DigitChar(DigitValue(d)) == d;
    if |s| == 1 {
      assert init == "" && s == [d];
    } else {
      assert init[0] in s && init[0] == s[0];
      ValueRoundTrip(init);
      if |s| == 2 {
        assert init[..0] == "" && init == [s[0]];
        assert Value(init) == DigitValue(s[0]) >= 1;
      }
      assert Value(s) / 10 == Value(init) && Value(s) % 10 == DigitValue(d);
      assert s == init + [d];
    }
  }

  function Pow10(k: nat): nat {
    if k == 0 then 1 else 10 * Pow10(k - 1)
  }

  /** How many digits are printed. */
  lemma {:induction false} ShowLength(n: nat, k: nat)
    requires k > 0 && n < Pow10(k) && (k > 1 ==> Pow10(k - 1) <= n)
    ensures |Show(n)| == k
  {
    if k > 1 {
      assert Pow10(k) == 10 * Pow10(k - 1) && Pow10(k - 1) == 10 * Pow10(k - 2);
      ShowLength(n / 10, k - 1);
    }
  }
}
