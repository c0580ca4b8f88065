/** Powers of two, shifts and wrap-around, as the program's unsigned integers compute them.
    Shifts are recursive so that only division by the constant 2 occurs. */
module Arithmetic {

  function Pow2(n: nat): (p: nat)
    ensures p >= 1
  {
    if n == 0 then 1 else 2 * Pow2(n - 1)
  }

  /** `x >> n` */
  function Shr(x: nat, n: nat): nat
    decreases n
  {
    if n == 0 then x else Shr(x / 2, n - 1)
  }

  /** `(x >> n) & 1` */
  function Bit(x: nat, n: nat): nat {
    Shr(x, n) % 2
  }

  /** The value kept by an unsigned integer with `space` values. */
  function Wrap(x: nat, space: nat): nat
    requires space > 0
  {
    x % space
  }

  lemma MulMonotone(a: int, b: int, c: int)
    requires a <= b && 0 <= c
    ensures a * c <= b * c
  {
  }

  lemma Distribute(a: int, b: int, c: int)
    ensures (a + b) * c == a * c + b * c
  {
  }

  /** Only the zeroth multiple of `b` is smaller than `b` in magnitude. */
  lemma MultipleBelow(d: int, b: int)
    requires -b < d * b < b
    ensures d == 0
  {
    if d >= 1 {
      MulMonotone(1, d, b);
      assert false;
    } else if d <= -1 {
      MulMonotone(d, -1, b);
      assert false;
    }
  }

  lemma QuotientUnique(a: int, b: int, q: int, r: int)
    requires 0 < b && 0 <= r < b
    requires a == q * b + r
    ensures a / b == q && a % b == r
  {
    var d := a / b - q;
    assert d * b == r - a % b by {
      assert a == (a / b) * b + a % b;
      assert (a / b - q) * b == (a / b) * b - q * b;
    }
    MultipleBelow(d, b);
  }

  lemma WrapBelow(x: nat, space: nat)
    requires space > 0
    ensures Wrap(x, space) < space
  {
  }

  lemma WrapFits(x: nat, space: nat)
    requires x < space
    ensures Wrap(x, space) == x
  {
    QuotientUnique(x, space, 0, x);
  }

  lemma WrapKeeps(x: nat, space: nat)
    requires space > 0
    ensures Wrap(x, space) <= x && (x < space ==> Wrap(x, space) == x)
  {
    if x < space {
      WrapFits(x, space);
    } else {
      WrapBelow(x, space);
    }
  }

  lemma WrapOnce(x: nat, space: nat)
    requires space <= x < 2 * space
    ensures Wrap(x, space) == x - space
  {
    QuotientUnique(x, space, 1, x - space);
  }

  lemma Pow2Monotone(m: nat, n: nat)
    requires m <= n
    ensures Pow2(m) <= Pow2(n)
    ensures m < n ==> 2 * Pow2(m) <= Pow2(n)
  {
    if m == n {
    } else {
      Pow2Monotone(m, n - 1);
    }
  }

  lemma {:induction false} Pow2Add(m: nat, n: nat)
    ensures Pow2(m + n) == Pow2(m) * Pow2(n)
  {
    if m == 0 {
    } else {
      Pow2Add(m - 1, n);
      assert m + n - 1 == (m - 1) + n;
      assert (2 * Pow2(m - 1)) * Pow2(n) == 2 * (Pow2(m - 1) * Pow2(n));
    }
  }

  lemma {:induction false} ShrBelow(x: nat, n: nat, k: nat)
    requires k <= n && x < Pow2(n)
    ensures Shr(x, n - k) < Pow2(k)
    decreases n - k
  {
    if k < n {
      ShrBelow(x / 2, n - 1, k);
    }
  }

  lemma {:induction false} ShrStep(x: nat, n: nat)
    ensures Shr(x, n + 1) == Shr(x, n) / 2
    ensures Shr(x, n) == 2 * Shr(x, n + 1) + Bit(x, n)
  {
    if n > 0 {
      ShrStep(x / 2, n - 1);
    }
  }

  /** Adding a high power of two leaves the lower bits alone. */
  lemma {:induction false} BitOfSum(x: nat, m: nat, n: nat)
    requires n < m
    ensures Bit(x + Pow2(m), n) == Bit(x, n)
    decreases n
  {
    if n > 0 {
      assert (x + Pow2(m)) / 2 == x / 2 + Pow2(m - 1);
      BitOfSum(x / 2, m - 1, n - 1);
    }
  }

  /** `(x << 1)` in `w` bits: every bit that survives moves up one place. */
  lemma BitOfDouble(x: nat, w: nat, n: nat)
    requires n + 1 < w && x < Pow2(w)
    ensures Bit(Wrap(2 * x, Pow2(w)), n + 1) == Bit(x, n)
    ensures Wrap(2 * x, Pow2(w)) < Pow2(w)
  {
    if 2 * x < Pow2(w) {
      WrapFits(2 * x, Pow2(w));
    } else {
      WrapOnce(2 * x, Pow2(w));
      BitOfSum(2 * x - Pow2(w), w, n + 1);
    }
  }

  /** `x << n` */
  function Shl(x: nat, n: nat): nat
    decreases n
  {
    if n == 0 then x else Shl(2 * x, n - 1)
  }

  lemma {:induction false} ShrOfShl(x: nat, n: nat, m: nat)
    requires x < Pow2(m)
    ensures Shr(Shl(x, n), n) == x
    ensures Shl(x, n) < Pow2(m + n)
    decreases n
  {
    if n > 0 {
      ShrOfShl(2 * x, n - 1, m + 1);
      ShrStep(Shl(x, n), n - 1);
    }
  }
}
