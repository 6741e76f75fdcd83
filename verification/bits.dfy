/** Shifts and bitwise operators on unsigned words held as natural numbers. */
module Bits {
  import opened Bytes

  function Pow2(n: nat): (p: nat)
    ensures p >= 1
  {
    if n == 0 then 1 else 2 * Pow2(n - 1)
  }

  function Or(a: nat, b: nat): nat
    decreases a + b
  {
    if a == 0 then b else if b == 0 then a else
    2 * Or(a / 2, b / 2) + (if a % 2 == 1 || b % 2 == 1 then 1 else 0)
  }

  function Xor(a: nat, b: nat): nat
    decreases a + b
  {
    if a == 0 then b else if b == 0 then a else
    2 * Xor(a / 2, b / 2) + (if a % 2 != b % 2 then 1 else 0)
  }

  function Shr(a: nat, n: nat): (r: nat)
    ensures r <= a
  {
    if n == 0 then a else Shr(a / 2, n - 1)
  }

  /** `a << n` in an unsigned type of `width` bits. */
  function Shl(a: nat, n: nat, width: nat): nat {
    a * Pow2(n) % Pow2(width)
  }

  lemma {:induction false} OrBound(a: nat, b: nat, n: nat)
    requires a < Pow2(n) && b < Pow2(n)
    ensures Or(a, b) < Pow2(n)
    decreases n
  {
    if a != 0 && b != 0 {
      OrBound(a / 2, b / 2, n - 1);
    }
  }

  lemma {:induction false} XorBound(a: nat, b: nat, n: nat)
    requires a < Pow2(n) && b < Pow2(n)
    ensures Xor(a, b) < Pow2(n)
    decreases n
  {
    if a != 0 && b != 0 {
      XorBound(a / 2, b / 2, n - 1);
    }
  }

  /** Words with no bit in common: OR is addition. */
  lemma {:induction false} OrDisjoint(low: nat, high: nat, n: nat)
    requires low < Pow2(n)
    ensures Or(low, high * Pow2(n)) == low + high * Pow2(n)
    decreases n
  {
    if low != 0 && high != 0 {
      var b, c := high * Pow2(n), high * Pow2(n - 1);
      assert b == 2 * c;
      OrDisjoint(low / 2, high, n - 1);
      assert c != 0 && low == 2 * (low / 2) + low % 2;
    }
  }

  lemma {:induction false} Pow2Add(a: nat, b: nat)
    ensures Pow2(a + b) == Pow2(a) * Pow2(b)
  {
    if a > 0 {
      Pow2Add(a - 1, b);
      assert Pow2(a + b) == 2 * Pow2((a - 1) + b);
      assert Pow2(a) * Pow2(b) == 2 * (Pow2(a - 1) * Pow2(b));
    }
  }

  // ----- division by products -----

  lemma MulGrows(k: nat, m: nat)
    requires k > 0
    ensures k * m >= m
  {
    assert k * m == (k - 1) * m + m;
  }

  lemma SameQuotient(q: nat, r: nat, q': nat, r': nat, m: nat)
    requires q * m + r == q' * m + r' && r < m && r' < m
    ensures q == q' && r == r'
  {
    if q' < q {
      assert (q - q') * m == q * m - q' * m;
      MulGrows(q - q', m);
    } else if q < q' {
      assert (q' - q) * m == q' * m - q * m;
      MulGrows(q' - q, m);
    }
  }

  lemma DivUnique(x: nat, m: nat, q: nat, r: nat)
    requires m > 0 && x == q * m + r && r < m
    ensures x / m == q && x % m == r
  {
    SameQuotient(x / m, x % m, q, r, m);
  }

  lemma SmallPart(m: nat, n: nat, a: nat, b: nat)
    requires m > 0 && a < n && b < m
    ensures 0 < m * n && a * m + b < m * n
  {
    assert m * n == (n - 1) * m + m;
    assert a * m <= (n - 1) * m;
  }

  lemma Regroup(q: nat, n: nat, r: nat, m: nat)
    ensures (q * n + r) * m == q * (m * n) + r * m
  {
  }

  /** Dividing by m * n is dividing by m and then by n; the remainders nest the same way. */
  lemma DivModProduct(x: nat, m: nat, n: nat)
    requires m > 0 && n > 0
    ensures m * n > 0
    ensures x / (m * n) == x / m / n
    ensures x % (m * n) / m == x / m % n
    ensures x % (m * n) % m == x % m
  {
    var q, r := x / m, x % m;
    var q1, r1 := q / n, q % n;
    assert x == q * m + r && q == q1 * n + r1 && r < m && r1 < n;
    var p, s := m * n, r1 * m + r;
    SmallPart(m, n, r1, r);
    Regroup(q1, n, r1, m);
    assert x == q1 * p + s;
    DivUnique(x, p, q1, s);
    DivUnique(s, m, r1, r);
  }

  lemma {:induction false} ShrIsDiv(x: nat, n: nat)
    ensures Shr(x, n) == x / Pow2(n)
    decreases n
  {
    if n > 0 {
      ShrIsDiv(x / 2, n - 1);
      DivModProduct(x, 2, Pow2(n - 1));
    }
  }

  lemma ShrShr(x: nat, a: nat, b: nat)
    ensures Shr(Shr(x, a), b) == Shr(x, a + b)
  {
    Pow2Add(a, b);
    DivModProduct(x, Pow2(a), Pow2(b));
    ShrIsDiv(x, a);
    ShrIsDiv(Shr(x, a), b);
    ShrIsDiv(x, a + b);
  }

  /** Keeping a + b bits and dropping the lower a leaves bits a .. a + b. */
  lemma ModShr(x: nat, a: nat, b: nat)
    ensures Shr(x % Pow2(a + b), a) == Shr(x, a) % Pow2(b)
    ensures x % Pow2(a + b) % Pow2(a) == x % Pow2(a)
  {
    Pow2Add(a, b);
    DivModProduct(x, Pow2(a), Pow2(b));
    ShrIsDiv(x, a);
    ShrIsDiv(x % Pow2(a + b), a);
  }
}
