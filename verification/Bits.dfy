/** Python's bitwise operators on unbounded integers, read bit by bit. */
module Bits {

  /** Bit `k` of the two's-complement form of `a`, which extends without end to the left. */
  predicate Bit(a: int, k: nat)
    decreases k
  {
    if k == 0 then a % 2 == 1 else Bit(a / 2, k - 1)
  }

  function Shl(a: int, k: nat): (r: int)
    ensures a >= 0 ==> r >= 0
  {
    if k == 0 then a else 2 * Shl(a, k - 1)
  }

  function Shr(a: int, k: nat): (r: int)
    ensures a >= 0 ==> r >= 0
    decreases k
  {
    if k == 0 then a else Shr(a / 2, k - 1)
  }

  function Pow2(k: nat): (p: int)
    ensures p > 0
  {
    if k == 0 then 1 else 2 * Pow2(k - 1)
  }

  function Ones(k: nat): nat {
    Pow2(k) - 1
  }

  function And(a: int, m: nat): (r: nat)
    ensures r <= m
    decreases m
  {
    if m == 0 then 0 else (a % 2) * (m % 2) + 2 * And(a / 2, m / 2)
  }

  function Or(a: nat, b: nat): nat {
    if a == 0 then b
    else (if a % 2 == 1 || b % 2 == 1 then 1 else 0) + 2 * Or(a / 2, b / 2)
  }

  function Xor(a: nat, b: nat): nat {
    if a == 0 then b
    else (a + b) % 2 + 2 * Xor(a / 2, b / 2)
  }

  function Not(a: int): int {
    -a - 1
  }

  // ---- What each operator does to a bit ----

  lemma {:induction false} BitOfZero(k: nat)
    ensures !Bit(0, k)
  {
    if k > 0 {
      BitOfZero(k - 1);
    }
  }

  lemma {:induction false} BitOfAnd(a: int, m: nat, k: nat)
    ensures Bit(And(a, m), k) <==> Bit(a, k) && Bit(m, k)
    decreases k
  {
    if m == 0 {
      BitOfZero(k);
    } else if k > 0 {
      BitOfAnd(a / 2, m / 2, k - 1);
      assert And(a, m) / 2 == And(a / 2, m / 2);
    }
  }

  lemma {:induction false} BitOfOr(a: nat, b: nat, k: nat)
    ensures Bit(Or(a, b), k) <==> Bit(a, k) || Bit(b, k)
  {
    if a == 0 {
      BitOfZero(k);
    } else if k > 0 {
      BitOfOr(a / 2, b / 2, k - 1);
      assert Or(a, b) / 2 == Or(a / 2, b / 2);
    }
  }

  lemma {:induction false} BitOfNot(a: int, k: nat)
    ensures Bit(Not(a), k) <==> !Bit(a, k)
    decreases k
  {
    if k > 0 {
      BitOfNot(a / 2, k - 1);
      assert Not(a) / 2 == Not(a / 2);
    }
  }

  lemma {:induction false} BitOfShl(a: int, n: nat, k: nat)
    ensures Bit(Shl(a, n), k) <==> n <= k && Bit(a, k - n)
  {
    if n > 0 && k > 0 {
      BitOfShl(a, n - 1, k - 1);
      assert Shl(a, n) / 2 == Shl(a, n - 1);
    }
  }

  lemma {:induction false} BitOfShr(a: int, n: nat, k: nat)
    ensures Bit(Shr(a, n), k) <==> Bit(a, k + n)
    decreases n
  {
    if n > 0 {
      BitOfShr(a / 2, n - 1, k);
    }
  }

  lemma {:induction false} BitOfOnes(n: nat, k: nat)
    ensures Bit(Ones(n), k) <==> k < n
  {
    if n == 0 {
      BitOfZero(k);
    } else if k > 0 {
      BitOfOnes(n - 1, k - 1);
      assert Ones(n) / 2 == Ones(n - 1);
    }
  }

  /** Subtracting a power of two leaves the bits below it alone. */
  lemma {:induction false} BitBelowPow2(a: int, n: nat, k: nat)
    requires k < n
    ensures Bit(a - Pow2(n), k) <==> Bit(a, k)
    decreases k
  {
    if k > 0 {
      BitBelowPow2(a / 2, n - 1, k - 1);
      assert (a - Pow2(n)) / 2 == a / 2 - Pow2(n - 1);
    }
  }

  // ---- Bits determine the number ----

  lemma {:induction false} SameBits(a: nat, b: nat)
    requires forall k: nat :: Bit(a, k) <==> Bit(b, k)
    ensures a == b
    decreases a + b
  {
    assert Bit(a, 0) <==> Bit(b, 0);
    if a + b > 0 {
      forall k: nat ensures Bit(a / 2, k) <==> Bit(b / 2, k) {
        assert Bit(a, k + 1) <==> Bit(b, k + 1);
      }
      SameBits(a / 2, b / 2);
    }
  }

  ghost predicate ClearFrom(a: int, n: nat) {
    forall k: nat :: n <= k ==> !Bit(a, k)
  }

  lemma BoundedByBits(a: nat, n: nat)
    ensures a < Pow2(n) <==> ClearFrom(a, n)
  {
    if a < Pow2(n) {
      forall k: nat | n <= k ensures !Bit(a, k) {
        HighBitIsClear(a, n, k);
      }
    }
    if ClearFrom(a, n) {
      forall k: nat ensures Bit(a, k) <==> Bit(And(a, Ones(n)), k) {
        BitOfAnd(a, Ones(n), k);
        BitOfOnes(n, k);
      }
      SameBits(a, And(a, Ones(n)));
    }
  }

  lemma {:induction false} HighBitIsClear(a: nat, n: nat, k: nat)
    requires a < Pow2(n) && n <= k
    ensures !Bit(a, k)
  {
    if n == 0 {
      BitOfZero(k);
    } else {
      HighBitIsClear(a / 2, n - 1, k - 1);
    }
  }

  lemma {:induction false} Pow2Monotone(m: nat, n: nat)
    requires m <= n
    ensures Pow2(m) <= Pow2(n)
    ensures m < n ==> Pow2(m) < Pow2(n)
  {
    if m < n {
      Pow2Monotone(m, n - 1);
    }
  }

  /** `And` with `n` ones keeps a number that fits in `n` bits. */
  lemma AndOnesOfSmall(a: nat, n: nat)
    requires a < Pow2(n)
    ensures And(a, Ones(n)) == a
  {
    forall k: nat ensures Bit(And(a, Ones(n)), k) <==> Bit(a, k) {
      BitOfAnd(a, Ones(n), k);
      BitOfOnes(n, k);
      BoundedByBits(a, n);
    }
    SameBits(And(a, Ones(n)), a);
  }

  /** `And` with `n` ones is the remainder modulo `2^n`, for negative numbers too. */
  lemma {:induction false} AndOnesIsMod(a: int, n: nat)
    ensures And(a, Ones(n)) == a % Pow2(n)
    decreases n
  {
    if n > 0 {
      AndOnesIsMod(a / 2, n - 1);
      assert Ones(n) / 2 == Ones(n - 1);
      ModDouble(a, Pow2(n - 1));
    }
  }

  lemma ModDouble(a: int, m: int)
    requires m > 0
    ensures a % (2 * m) == a % 2 + 2 * (a / 2 % m)
  {
    var q, r := a / 2 / m, a / 2 % m;
    assert a == q * (2 * m) + (2 * r + a % 2);
    RemainderIsUnique(a, 2 * m, q, 2 * r + a % 2);
  }

  lemma DivideTwice(a: int, m: int)
    requires m > 0
    ensures a / 2 / m == a / (2 * m)
  {
    var q, r := a / 2 / m, a / 2 % m;
    assert a == q * (2 * m) + (2 * r + a % 2);
    RemainderIsUnique(a, 2 * m, q, 2 * r + a % 2);
  }

  lemma MultipleGrows(d: int, m: int)
    requires m > 0
    ensures d >= 1 ==> d * m >= m
    ensures d <= -1 ==> d * m <= -m
  {
    if d >= 1 {
      assert (d - 1) * m >= 0;
    } else if d <= -1 {
      assert (-d - 1) * m >= 0;
    }
  }

  lemma RemainderIsUnique(a: int, m: int, q: int, r: int)
    requires a == q * m + r && 0 <= r < m
    ensures a % m == r && a / m == q
  {
    var d := a / m - q;
    assert d * m == r - a % m;
    MultipleGrows(d, m);
  }
}
