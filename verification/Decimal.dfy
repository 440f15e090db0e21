/**
 Decimal digits of natural numbers, padded with zeros as entry ids are, and the number that such digits
 stand for.
 */
module Decimal {
  import opened Prelude

  /** `String(n)`. */
  function Digits(n: nat): (t: Text)
    ensures |t| > 0 && forall i :: 0 <= i < |t| ==> 0x30 <= t[i] <= 0x39
  {
    if n < 10 then [0x30 + n] else Digits(n / 10) + [0x30 + n % 10]
  }

  /** `text.padStart(width, "0")`. */
  function PadZero(text: Text, width: nat): Text
    decreases width - |text|
  {
    if |text| >= width then text else PadZero([0x30] + text, width)
  }

  function ValueOf(t: Text): nat
    requires forall i :: 0 <= i < |t| ==> 0x30 <= t[i] <= 0x39
  {
    if t == [] then 0 else 10 * ValueOf(t[..|t| - 1]) + (t[|t| - 1] - 0x30)
  }

  lemma {:induction false} ValueOfDigits(n: nat)
    ensures ValueOf(Digits(n)) == n
  {
    if n < 10 {
      assert Digits(n)[..0] == [];
    } else {
      ValueOfDigits(n / 10);
      assert Digits(n)[..|Digits(n)| - 1] == Digits(n / 10);
    }
  }

  lemma {:induction false} LeadingZero(t: Text)
    requires forall i :: 0 <= i < |t| ==> 0x30 <= t[i] <= 0x39
    ensures ValueOf([0x30] + t) == ValueOf(t)
  {
    var z := [0x30] + t;
    if t == [] {
      assert z[..0] == [];
    } else {
      LeadingZero(t[..|t| - 1]);
      assert z[..|z| - 1] == [0x30] + t[..|t| - 1];
    }
  }

  /** Padding changes no value. */
  lemma {:induction false} ValueOfPadded(t: Text, width: nat)
    requires forall i :: 0 <= i < |t| ==> 0x30 <= t[i] <= 0x39
    ensures forall i :: 0 <= i < |PadZero(t, width)| ==> 0x30 <= PadZero(t, width)[i] <= 0x39
    ensures ValueOf(PadZero(t, width)) == ValueOf(t)
    decreases width - |t|
  {
    if |t| < width {
      LeadingZero(t);
      ValueOfPadded([0x30] + t, width);
    }
  }

  /** Different numbers have different digits, padded or not. */
  lemma DigitsDiffer(m: nat, n: nat, width: nat)
    ensures PadZero(Digits(m), width) == PadZero(Digits(n), width) ==> m == n
    ensures Digits(m) == Digits(n) ==> m == n
  {
    ValueOfDigits(m);
    ValueOfDigits(n);
    ValueOfPadded(Digits(m), width);
    ValueOfPadded(Digits(n), width);
  }

  lemma {:induction false} PadsTo(t: Text, width: nat)
    ensures |PadZero(t, width)| == if |t| < width then width else |t|
    decreases width - |t|
  {
    if |t| < width {
      PadsTo([0x30] + t, width);
    }
  }
}
