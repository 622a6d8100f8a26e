/** Numbers as `format!` writes them. */
module Decimals {
  function Digit(d: nat): (c: char)
    requires d < 10
  {
    "0123456789"[d]
  }

  function DecimalNat(n: nat): (s: string)
    ensures |s| > 0
    ensures forall i :: 0 <= i < |s| ==> '0' <= s[i] <= '9'
  {
    if n < 10 then [Digit(n)] else DecimalNat(n / 10) + [Digit(n % 10)]
  }

  /** The decimal rendering of an integer, as `format!` writes it. */
  function Decimal(n: int): (s: string)
    ensures |s| > 0
    ensures forall i :: 0 <= i < |s| ==> s[i] != '\0'
  {
    if n < 0 then "-" + DecimalNat(-n) else DecimalNat(n)
  }

  /** The number some digits spell. */
  function Spelled(s: string): int {
    if s == "" then 0 else 10 * Spelled(s[..|s|-1]) + (s[|s|-1] as int - '0' as int)
  }

  lemma {:induction false} DecimalIsSpelled(n: nat)
    ensures Spelled(DecimalNat(n)) == n
  {
    var s := DecimalNat(n);
    if n < 10 {
      assert s[..0] == "";
    } else {
      DecimalIsSpelled(n / 10);
      assert s[..|s|-1] == DecimalNat(n / 10);
    }
  }

  lemma {:induction false} DecimalNatInjective(m: nat, n: nat)
    requires DecimalNat(m) == DecimalNat(n)
    ensures m == n
  {
    var s := DecimalNat(m);
    if m < 10 {
      assert n < 10;
    } else {
      assert n >= 10;
      assert s[..|s|-1] == DecimalNat(m / 10) && s[..|s|-1] == DecimalNat(n / 10);
      DecimalNatInjective(m / 10, n / 10);
      assert s[|s|-1] == Digit(m % 10) == Digit(n % 10);
    }
  }

  lemma DecimalInjective(m: int, n: int)
    requires Decimal(m) == Decimal(n)
    ensures m == n
  {
    if m < 0 {
      assert Decimal(m)[0] == '-';
      assert n < 0;
      assert Decimal(m)[1..] == DecimalNat(-m) && Decimal(n)[1..] == DecimalNat(-n);
      DecimalNatInjective(-m, -n);
    } else {
      assert Decimal(m)[0] != '-';
      assert n >= 0;
      DecimalNatInjective(m, n);
    }
  }
}
