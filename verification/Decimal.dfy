// Decimal numerals, as std::to_string and printf write them.
module Decimal {
  import opened Bytes

  predicate IsDigit(c: byte) {
    48 <= c <= 57
  }

  predicate AllDigits(s: seq<byte>) {
    forall i | 0 <= i < |s| :: IsDigit(s[i])
  }

  function Numeral(n: nat): (s: seq<byte>)
    ensures s != [] && AllDigits(s)
    ensures s[0] == 48 <==> n == 0
    ensures s[0] == 48 ==> |s| == 1
  {
    if n < 10 then [48 + n] else Numeral(n / 10) + [48 + n % 10]
  }

  /** The number a string of digits stands for. */
  function Value(s: seq<byte>): (n: nat)
    requires AllDigits(s)
  {
    if s == [] then 0 else Value(s[..|s| - 1]) * 10 + (s[|s| - 1] - 48)
  }

  lemma {:induction false} ValueOfNumeral(n: nat)
    ensures Value(Numeral(n)) == n
  {
    if n < 10 {
      assert Numeral(n)[..0] == [];
    } else {
      ValueOfNumeral(n / 10);
      assert Numeral(n)[..|Numeral(n)| - 1] == Numeral(n / 10);
    }
  }

  lemma {:induction false} NumeralIsInjective(a: nat, b: nat)
    requires Numeral(a) == Numeral(b)
    ensures a == b
  {
    ValueOfNumeral(a);
    ValueOfNumeral(b);
  }

  function Power10(k: nat): (p: nat)
    ensures p >= 1
  {
    if k == 0 then 1 else 10 * Power10(k - 1)
  }

  lemma {:induction false} NumeralIsShort(n: nat, k: nat)
    requires k > 0 && n < Power10(k)
    ensures |Numeral(n)| <= k
  {
    if n >= 10 {
      assert Power10(1) == 10 * Power10(0);
      NumeralIsShort(n / 10, k - 1);
    }
  }
}
