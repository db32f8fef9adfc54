/** Modular arithmetic over unbounded exponents: what `gmp_powm` means, and the laws a
    Diffie-Hellman style exchange needs. */
module Arithmetic {

  function Pow(b: int, e: nat): int {
    if e == 0 then 1 else b * Pow(b, e - 1)
  }

  /** The specification of `gmp_powm(b, e, n)`. */
  function PowMod(b: int, e: nat, n: nat): nat
    requires n > 0
  {
    Pow(b, e) % n
  }

  lemma {:induction false} PowAdds(b: int, e: nat, f: nat)
    ensures Pow(b, e + f) == Pow(b, e) * Pow(b, f)
  {
    if e > 0 {
      PowAdds(b, e - 1, f);
      assert Pow(b, e) * Pow(b, f) == b * (Pow(b, e - 1) * Pow(b, f));
    }
  }

  lemma {:induction false} PowMultiplies(b: int, e: nat, f: nat)
    ensures 0 <= e * f && Pow(Pow(b, e), f) == Pow(b, e * f)
  {
    if f == 0 {
    } else {
      PowMultiplies(b, e, f - 1);
      assert e * f == e + e * (f - 1);
      PowAdds(b, e, e * (f - 1));
    }
  }

  lemma Shuffle(a: int, b: int, x: int, y: int)
    ensures (a * b) * (x * y) == (a * x) * (b * y)
  {
    assert (a * b) * (x * y) == a * (b * (x * y)) == a * (x * (b * y));
  }

  lemma {:induction false} PowDistributes(a: int, b: int, e: nat)
    ensures Pow(a * b, e) == Pow(a, e) * Pow(b, e)
  {
    if e > 0 {
      PowDistributes(a, b, e - 1);
      Shuffle(a, b, Pow(a, e - 1), Pow(b, e - 1));
    }
  }

  lemma {:induction false} PowPositive(b: int, e: nat)
    requires b > 0
    ensures Pow(b, e) > 0
  {
    if e > 0 {
      PowPositive(b, e - 1);
    }
  }

  lemma Grows(x: int, y: int)
    requires x > 0 && y > 0
    ensures x * y >= x
  {
  }

  lemma {:induction false} PowMonotone(b: int, e: nat, f: nat)
    requires b > 0 && e <= f
    ensures Pow(b, e) <= Pow(b, f)
  {
    PowAdds(b, e, f - e);
    PowPositive(b, e);
    PowPositive(b, f - e);
    Grows(Pow(b, e), Pow(b, f - e));
  }

  // ---- congruences ----

  lemma SmallMultiple(n: int, d: int)
    requires -n < n * d < n
    ensures d == 0
  {
    assert d >= 1 ==> n * d >= n;
    assert d <= -1 ==> n * d <= -n;
  }

  lemma SameRemainder(a: int, b: int, n: int, k: int)
    requires n > 0 && a == b + n * k
    ensures a % n == b % n
  {
    var d := a / n - (b / n + k);
    assert n * d == n * (a / n) - n * (b / n) - n * k;
    assert n * d == b % n - a % n;
    SmallMultiple(n, d);
  }

  lemma Quotients(a: int, b: int, n: int) returns (k: int)
    requires n > 0 && a % n == b % n
    ensures a == b + n * k
  {
    k := a / n - b / n;
    assert n * k == n * (a / n) - n * (b / n);
  }

  lemma AddCongruent(a: int, b: int, c: int, d: int, n: int)
    requires n > 0 && a % n == b % n && c % n == d % n
    ensures (a + c) % n == (b + d) % n
    ensures (a - c) % n == (b - d) % n
  {
    var k := Quotients(a, b, n);
    var l := Quotients(c, d, n);
    assert n * (k + l) == n * k + n * l && n * (k - l) == n * k - n * l;
    SameRemainder(a + c, b + d, n, k + l);
    SameRemainder(a - c, b - d, n, k - l);
  }

  lemma Product(b: int, x: int, d: int, y: int)
    ensures (b + x) * (d + y) == b * d + x * d + y * b + x * y
  {
    assert (b + x) * (d + y) == b * (d + y) + x * (d + y);
  }

  lemma Regroup(n: int, k: int, d: int)
    ensures (n * k) * d == n * (k * d)
  {
  }

  lemma MulCongruent(a: int, b: int, c: int, d: int, n: int)
    requires n > 0 && a % n == b % n && c % n == d % n
    ensures (a * c) % n == (b * d) % n
  {
    var k := Quotients(a, b, n);
    var l := Quotients(c, d, n);
    Product(b, n * k, d, n * l);
    Regroup(n, k, d);
    Regroup(n, l, b);
    Regroup(n, k, n * l);
    var x, y, z := k * d, l * b, k * (n * l);
    assert n * (x + y + z) == n * x + n * y + n * z;
    SameRemainder(a * c, b * d, n, x + y + z);
  }

  lemma RemainderCongruent(a: int, n: int)
    requires n > 0
    ensures (a % n) % n == a % n
  {
    SameRemainder(a % n, a, n, -(a / n));
  }

  lemma {:induction false} PowCongruent(a: int, b: int, e: nat, n: int)
    requires n > 0 && a % n == b % n
    ensures Pow(a, e) % n == Pow(b, e) % n
  {
    if e > 0 {
      PowCongruent(a, b, e - 1, n);
      MulCongruent(a, b, Pow(a, e - 1), Pow(b, e - 1), n);
    }
  }
}
