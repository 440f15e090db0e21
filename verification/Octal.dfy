/**
 Octal digits as USTAR headers store them: how many of them a number takes, and the number that digits stand
 for.
 */
module Octal {
  import opened Prelude

  const ZERO_DIGIT: byte := 0x30

  function Pow8(k: nat): (p: nat)
    ensures p >= 1
  {
    if k == 0 then 1 else 8 * Pow8(k - 1)
  }

  predicate IsDigit(b: byte) {
    ZERO_DIGIT <= b < ZERO_DIGIT + 8
  }

  /** `value.toString(8)`. */
  function Digits(n: nat): (s: Bytes)
    ensures |s| > 0 && forall i :: 0 <= i < |s| ==> IsDigit(s[i])
  {
    if n < 8 then [ZERO_DIGIT + n] else Digits(n / 8) + [ZERO_DIGIT + n % 8]
  }

  /** The value of a run of octal digits. */
  function Value(s: Bytes): nat
    requires forall i :: 0 <= i < |s| ==> IsDigit(s[i])
  {
    if s == [] then 0
    else
      var last := s[|s| - 1];
      assert IsDigit(last);
      8 * Value(s[..|s| - 1]) + (last as int) - 0x30
  }

  lemma {:induction false} ValueOfDigits(n: nat)
    ensures Value(Digits(n)) == n
  {
    if n < 8 {
      assert Digits(n)[..0] == [];
    } else {
      ValueOfDigits(n / 8);
      assert Digits(n)[..|Digits(n)| - 1] == Digits(n / 8);
    }
  }

  lemma Pow8Grows(k: nat)
    ensures Pow8(k + 1) == 8 * Pow8(k)
  {
  }

  /** A number takes at most `k` digits exactly when it is below 8^k. */
  lemma {:induction false} DigitsFit(n: nat, k: nat)
    requires k > 0
    ensures |Digits(n)| <= k <==> n < Pow8(k)
  {
    Pow8Grows(k - 1);
    if n >= 8 {
      if k == 1 {
        assert Pow8(1) == 8 * Pow8(0);
      } else {
        DigitsFit(n / 8, k - 1);
        assert n < 8 * Pow8(k - 1) <==> n / 8 < Pow8(k - 1);
      }
    }
  }
}
