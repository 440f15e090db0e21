/**
 Division of polynomials over two elements, for any representation of them as words that can be added,
 halved and asked for their lowest coefficient.
 */
module Division {
  import opened Iteration

  ghost predicate Associates<T(!new)>(op: (T, T) -> T) {
    forall x, y, z :: op(x, op(y, z)) == op(op(x, y), z)
  }

  ghost predicate Exchanges<T(!new)>(op: (T, T) -> T) {
    forall x, y, z :: op(x, op(y, z)) == op(y, op(x, z))
  }

  ghost predicate Cancels<T(!new)>(op: (T, T) -> T) {
    forall x, y :: op(x, op(x, y)) == y
  }

  ghost predicate Distributes<T(!new)>(op: (T, T) -> T, f: T -> T) {
    forall x, y :: f(op(x, y)) == op(f(x), f(y))
  }

  ghost predicate AddsParity<T(!new)>(op: (T, T) -> T, odd: T -> bool) {
    forall x, y :: odd(op(x, y)) == (odd(x) != odd(y))
  }

  ghost predicate KeepsParity<T(!new)>(odd: T -> bool, low: T -> T) {
    forall x :: odd(low(x)) == odd(x)
  }

  datatype Words<!T(!new)> = Words(xor: (T, T) -> T, half: T -> T, low: T -> T, odd: T -> bool, divisor: T)
  {
    /** One step of the division: drop the lowest coefficient, subtracting the divisor if it is set. */
    function Shift(x: T): T {
      if odd(x) then xor(divisor, half(x)) else half(x)
    }

    /** The same step with one more message bit coming in at the low end. */
    function DivideBit(s: T, bit: T): T {
      if odd(xor(s, bit)) then xor(divisor, half(s)) else half(s)
    }

    ghost predicate Laws() {
      && Associates(xor) && Exchanges(xor) && Cancels(xor)
      && Distributes(xor, half) && AddsParity(xor, odd) && KeepsParity(odd, low)
    }

    lemma ShiftIsLinear()
      requires Laws()
      ensures Linear(xor, Shift)
    {
      forall x, y ensures Shift(xor(x, y)) == xor(Shift(x), Shift(y)) {
        assert half(xor(x, y)) == xor(half(x), half(y));
        assert xor(divisor, xor(half(x), half(y))) == xor(xor(divisor, half(x)), half(y));
        assert xor(half(x), xor(divisor, half(y))) == xor(divisor, xor(half(x), half(y)));
        assert xor(xor(divisor, half(x)), xor(divisor, half(y))) == xor(divisor, xor(half(x), xor(divisor, half(y))));
      }
    }

    /** Dividing by the low bit of a word, with the other bits of the word still to come. */
    lemma DivisionFeedsBits()
      requires Laws()
      ensures FeedsDigits(xor, DivideBit, Shift, low, half)
    {
      forall s, w ensures xor(DivideBit(s, low(w)), half(w)) == Shift(xor(s, w)) {
        assert odd(xor(s, low(w))) == odd(xor(s, w));
        assert half(xor(s, w)) == xor(half(s), half(w));
        assert xor(divisor, xor(half(s), half(w))) == xor(xor(divisor, half(s)), half(w));
      }
    }
  }
}
