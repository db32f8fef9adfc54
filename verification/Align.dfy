/** APR_ALIGN on unsigned words: `((size + (boundary - 1)) & ~(boundary - 1))`. Words are natural
    numbers below 2^width; the sum wraps around at the width of the size, and the mask has the width
    of the boundary, which is widened with zero bits when the size is wider. */
module Align {
  import opened Arithmetic

  function Pow2(n: nat): (p: nat)
    ensures p > 0
  {
    if n == 0 then 1 else 2 * Pow2(n - 1)
  }

  /** Bitwise and, bit by bit from the least significant one. */
  function And(a: nat, b: nat): nat {
    if a == 0 || b == 0 then 0 else (a % 2) * (b % 2) + 2 * And(a / 2, b / 2)
  }

  /** Bitwise complement of a word. */
  function Not(a: nat, width: nat): nat
    requires a < Pow2(width)
  {
    Pow2(width) - 1 - a
  }

  /** The macro, for a size and a boundary of the given widths. */
  function AlignTo(size: nat, boundary: nat, sizeWidth: nat, boundaryWidth: nat): nat
    requires 0 < boundary < Pow2(boundaryWidth)
  {
    And((size + (boundary - 1)) % Pow2(sizeWidth), Not(boundary - 1, boundaryWidth))
  }

  /** APR_ALIGN_DEFAULT */
  function AlignDefault(size: nat, sizeWidth: nat): nat
    requires sizeWidth >= 4
  {
    Pow2Monotone(4, sizeWidth);
    AlignTo(size, 8, sizeWidth, sizeWidth)
  }

  lemma {:induction false} Pow2Monotone(k: nat, n: nat)
    requires k <= n
    ensures Pow2(k) <= Pow2(n)
    ensures k < n ==> Pow2(k) < Pow2(n)
  {
    if k < n {
      Pow2Monotone(k, n - 1);
    }
  }

  // ---- the operators act on each bit by itself ----

  function Bit(a: nat, i: nat): nat {
    if i == 0 then a % 2 else Bit(a / 2, i - 1)
  }

  lemma {:induction false} AndBits(a: nat, b: nat, i: nat)
    ensures Bit(And(a, b), i) == Bit(a, i) * Bit(b, i)
  {
    if a == 0 || b == 0 {
      ZeroBits(i);
    } else {
      var r, c := (a % 2) * (b % 2), And(a / 2, b / 2);
      assert r == 0 || r == 1;
      assert (r + 2 * c) / 2 == c && (r + 2 * c) % 2 == r;
      if i > 0 {
        AndBits(a / 2, b / 2, i - 1);
      }
    }
  }

  lemma {:induction false} ZeroBits(i: nat)
    ensures Bit(0, i) == 0
  {
    if i > 0 {
      ZeroBits(i - 1);
    }
  }

  lemma {:induction false} NotBits(a: nat, width: nat, i: nat)
    requires a < Pow2(width) && i < width
    ensures Bit(Not(a, width), i) == 1 - Bit(a, i)
  {
    if i > 0 {
      assert Not(a, width) / 2 == Not(a / 2, width - 1);
      NotBits(a / 2, width - 1, i - 1);
    }
  }

  // ---- masks ----

  lemma SmallRemainder(a: nat, n: nat)
    requires a < n
    ensures a % n == a
  {
  }

  lemma Halve(x: nat, p: nat)
    requires p > 0
    ensures x % (2 * p) == 2 * (x / 2 % p) + x % 2
  {
    var q, r := x / 2 / p, x / 2 % p;
    assert x / 2 == p * q + r;
    assert (2 * p) * q == 2 * (p * q);
    SameRemainder(x, 2 * r + x % 2, 2 * p, q);
    SmallRemainder(2 * r + x % 2, 2 * p);
  }

  lemma OddMask(x: nat, m: nat)
    ensures And(x, 2 * m + 1) == x % 2 + 2 * And(x / 2, m)
  {
    assert (2 * m + 1) / 2 == m && (2 * m + 1) % 2 == 1;
  }

  lemma LowStep(x: nat, p: nat, q: nat)
    requires p > 0 && q == 2 * p && And(x / 2, p - 1) == x / 2 % p
    ensures And(x, q - 1) == x % q
  {
    Halve(x, p);
    OddMask(x, p - 1);
    assert q - 1 == 2 * (p - 1) + 1;
  }

  lemma {:induction false} LowBits(x: nat, width: nat)
    ensures And(x, Pow2(width) - 1) == x % Pow2(width)
  {
    if width == 0 {
      assert And(x, 0) == 0;
    } else {
      LowBits(x / 2, width - 1);
      LowStep(x, Pow2(width - 1), Pow2(width));
    }
  }

  lemma MaskStep(x: nat, a: nat, b: nat, p: nat, q: nat, m: nat)
    requires 0 < q && p == q + m && a == 2 * p && b == 2 * q
    requires And(x / 2, m) == x / 2 % p - x / 2 % q
    ensures And(x, a - b) == x % a - x % b
  {
    assert a - b == 2 * m;
    Halve(x, p);
    Halve(x, q);
    DoubleMask(x, m);
  }

  lemma {:induction false} MaskOf(x: nat, a: nat, b: nat, width: nat, k: nat)
    requires k <= width && a == Pow2(width) && b == Pow2(k) && b <= a
    ensures And(x, a - b) == x % a - x % b
    decreases width
  {
    if k == 0 {
      LowBits(x, width);
    } else {
      var p, q := Pow2(width - 1), Pow2(k - 1);
      MaskOf(x / 2, p, q, width - 1, k - 1);
      MaskStep(x, a, b, p, q, p - q);
    }
  }

  /** The complement of 2^k - 1 keeps the bits of a word from k up to its own width. */
  lemma Mask(x: nat, width: nat, k: nat)
    requires k <= width && Pow2(k) <= Pow2(width)
    ensures And(x, Pow2(width) - Pow2(k)) == x % Pow2(width) - x % Pow2(k)
  {
    MaskOf(x, Pow2(width), Pow2(k), width, k);
  }

  lemma DoubleMask(x: nat, m: nat)
    ensures And(x, 2 * m) == 2 * And(x / 2, m)
  {
    assert 2 * m / 2 == m && 2 * m % 2 == 0;
  }

  // ---- rounding up ----

  predicate Multiple(n: int, p: nat)
    requires p > 0
  {
    n % p == 0
  }

  /** r is the least multiple of p that is at least n. */
  ghost predicate RoundsUp(r: int, n: nat, p: nat)
    requires p > 0
  {
    r >= n && Multiple(r, p) && forall m: nat :: m >= n && Multiple(m, p) ==> r <= m
  }

  lemma {:induction false} Pow2Divides(k: nat, n: nat) returns (q: nat)
    requires k <= n
    ensures q > 0 && Pow2(n) == Pow2(k) * q
  {
    if k == n {
      q := 1;
    } else {
      q := Pow2Divides(k, n - 1);
      assert 2 * (Pow2(k) * q) == Pow2(k) * (2 * q);
      q := 2 * q;
    }
  }

  /** Dropping the remainder gives a multiple, and from just below the next one the least not below. */
  lemma DropRemainder(x: nat, p: nat)
    requires p > 0
    ensures Multiple(x - x % p, p)
    ensures forall m: nat :: m <= x && Multiple(m, p) ==> m <= x - x % p
  {
    SameRemainder(x - x % p, 0, p, x / p);
    forall m: nat | m <= x && Multiple(m, p)
      ensures m <= x - x % p
    {
      NotBetween(m, x, p);
    }
  }

  lemma NotBetween(m: nat, x: nat, p: nat)
    requires p > 0 && m <= x && m % p == 0
    ensures m <= x - x % p
  {
    var a, b := m / p, x / p;
    assert m == p * a && x == p * b + x % p;
    assert a >= b + 1 ==> p * a >= p * (b + 1);
    assert p * (b + 1) == p * b + p;
    assert a <= b ==> p * a <= p * b;
  }

  /** The value computed, with the wrap-around and the width of the mask worked out. */
  lemma AlignValue(size: nat, k: nat, sizeWidth: nat, boundaryWidth: nat)
    requires k < boundaryWidth <= sizeWidth && size < Pow2(sizeWidth)
    ensures Pow2(k) < Pow2(boundaryWidth) <= Pow2(sizeWidth)
    ensures var x := (size + Pow2(k) - 1) % Pow2(sizeWidth);
            AlignTo(size, Pow2(k), sizeWidth, boundaryWidth) == x % Pow2(boundaryWidth) - x % Pow2(k)
  {
    Pow2Monotone(k, boundaryWidth);
    Pow2Monotone(boundaryWidth, sizeWidth);
    var x := (size + (Pow2(k) - 1)) % Pow2(sizeWidth);
    assert Not(Pow2(k) - 1, boundaryWidth) == Pow2(boundaryWidth) - Pow2(k);
    Mask(x, boundaryWidth, k);
  }

  lemma RoundedUp(size: nat, p: nat)
    requires p > 0
    ensures var sum := size + p - 1; var r := sum - sum % p;
            RoundsUp(r, size, p) && r < size + p && r == sum / p * p
  {
    var sum := size + p - 1;
    var r := sum - sum % p;
    DropRemainder(sum, p);
    assert r == p * (sum / p);
    forall m: nat | m >= size && Multiple(m, p)
      ensures r <= m
    {
      if m < r {
        NextMultiple(m, r, p);
        assert false;
      }
    }
  }

  lemma NextMultiple(m: nat, r: nat, p: nat)
    requires p > 0 && m < r && m % p == 0 && r % p == 0
    ensures m + p <= r
  {
    var a, b := m / p, r / p;
    assert m == p * a && r == p * b;
    assert a >= b ==> p * a >= p * b;
    assert p * (a + 1) <= p * b;
  }

  /** The remainders by the word size and the mask size drop out when the sum fits. */
  lemma Fits(sum: nat, p: nat, m: nat, top: nat)
    requires 0 < p && sum < m <= top
    ensures sum % top % m - sum % top % p == sum - sum % p
  {
    SmallRemainder(sum, top);
    SmallRemainder(sum, m);
  }

  lemma WrapsAround(size: nat, p: nat, m: nat, top: nat)
    requires 0 < p < m <= top && size < top && size + p - 1 >= top
    ensures var x := (size + p - 1) % top; x % m - x % p < size
  {
    var sum := size + p - 1;
    SameRemainder(sum, sum - top, top, 1);
    SmallRemainder(sum - top, top);
    SmallRemainder(sum - top, m);
    SmallRemainder(sum - top, p);
  }

  lemma BeyondMask(size: nat, p: nat, m: nat, q: nat)
    requires p > 0 && q > 0 && m == p * q && 0 < m <= size + p - 1
    ensures (size + p - 1) % m - (size + p - 1) % p < size
  {
    RemainderOfRemainder(size + p - 1, p, q);
    LastMultiple((size + p - 1) % m, p, m, q);
  }

  lemma LastMultiple(y: nat, p: nat, m: nat, q: nat)
    requires p > 0 && m == p * q && y < m
    ensures y - y % p + p <= m
  {
    var z := y - y % p;
    DropRemainder(y, p);
    SameRemainder(m, 0, p, q);
    NextMultiple(z, m, p);
  }

  lemma RemainderOfRemainder(n: nat, p: nat, q: nat)
    requires p > 0 && p * q > 0
    ensures n % (p * q) % p == n % p
  {
    var m, d := p * q, n / (p * q);
    Regroup(p, q, d);
    assert n == m * d + n % m;
    SameRemainder(n, n % m, p, q * d);
  }

  lemma Regroup(p: nat, q: nat, r: nat)
    ensures (p * q) * r == p * (q * r)
  {
  }

  /** APR_ALIGN rounds up to the boundary exactly when the sum fits in the mask; for equal widths,
      when it does not overflow. Otherwise the result is below the size. */
  lemma AlignExact(size: nat, k: nat, sizeWidth: nat, boundaryWidth: nat)
    requires k < boundaryWidth <= sizeWidth && size < Pow2(sizeWidth)
    ensures 0 < Pow2(k) < Pow2(boundaryWidth)
    ensures var r := AlignTo(size, Pow2(k), sizeWidth, boundaryWidth);
            && (RoundsUp(r, size, Pow2(k)) <==> size + Pow2(k) - 1 < Pow2(boundaryWidth))
            && (r >= size <==> size + Pow2(k) - 1 < Pow2(boundaryWidth))
            && (r >= size ==> r < size + Pow2(k) && r == (size + Pow2(k) - 1) / Pow2(k) * Pow2(k))
  {
    AlignValue(size, k, sizeWidth, boundaryWidth);
    var q := Pow2Divides(k, boundaryWidth);
    RoundsExactly(AlignTo(size, Pow2(k), sizeWidth, boundaryWidth), size, Pow2(k), Pow2(boundaryWidth), q, Pow2(sizeWidth));
  }

  lemma RoundsExactly(r: nat, size: nat, p: nat, m: nat, q: nat, top: nat)
    requires q > 0 && 0 < p < m <= top && m == p * q && size < top
    requires r == (size + p - 1) % top % m - (size + p - 1) % top % p
    ensures RoundsUp(r, size, p) <==> size + p - 1 < m
    ensures r >= size <==> size + p - 1 < m
    ensures r >= size ==> r < size + p && r == (size + p - 1) / p * p
  {
    MaskedSum(size, p, m, q, top);
  }

  /** The sum overflows: for 32 bits, 0xFFFFFFFF is aligned to 0, and so at every width. */
  lemma OverflowExample(width: nat)
    requires width >= 4
    ensures 8 < Pow2(width) && AlignTo(Pow2(width) - 1, 8, width, width) == 0
  {
    var top := Pow2(width);
    Pow2Monotone(4, width);
    assert Pow2(4) == 16 && Pow2(3) == 8;
    AlignValue(top - 1, 3, width, width);
    WrappedSum(top);
  }

  lemma WrappedSum(top: nat)
    requires top >= 16
    ensures (top + 6) % top == 6 && (top + 6) % top % top - (top + 6) % top % 8 == 0
  {
    SameRemainder(top + 6, 6, top, 1);
    SmallRemainder(6, top);
  }

  /** The mask is too narrow: nothing overflows, but a size of 0x100000000 in 64 bits is aligned to 0 by a
      boundary in 32 bits, and so at all widths of which the second is less. */
  lemma NarrowMaskExample(wide: nat, narrow: nat)
    requires 4 <= narrow < wide
    ensures 8 < Pow2(narrow) && Pow2(narrow) + 7 < Pow2(wide) && AlignTo(Pow2(narrow), 8, wide, narrow) == 0
  {
    var m := Pow2(narrow);
    Pow2Monotone(4, narrow);
    Pow2Monotone(narrow + 1, wide);
    assert Pow2(4) == 16 && Pow2(3) == 8 && Pow2(narrow + 1) == 2 * m;
    AlignValue(m, 3, wide, narrow);
    var q := Pow2Divides(3, narrow);
    CutSum(m, q, Pow2(wide));
  }

  lemma CutSum(m: nat, q: nat, top: nat)
    requires m == 8 * q && m >= 16 && m + 7 < top
    ensures (m + 7) % top % m - (m + 7) % top % 8 == 0
  {
    SmallRemainder(m + 7, top);
    SameRemainder(m + 7, 7, m, 1);
    SmallRemainder(7, m);
    SameRemainder(m + 7, 7, 8, q);
  }

  lemma MaskedSum(size: nat, p: nat, m: nat, q: nat, top: nat)
    requires q > 0 && 0 < p < m <= top && m == p * q && size < top
    ensures var sum := size + p - 1;
            var r := sum % top % m - sum % top % p;
            if sum < m then RoundsUp(r, size, p) && r < size + p && r == sum / p * p else r < size
  {
    if size + p - 1 < m {
      Fits(size + p - 1, p, m, top);
      RoundedUp(size, p);
    } else if size + p - 1 >= top {
      WrapsAround(size, p, m, top);
    } else {
      SmallRemainder(size + p - 1, top);
      BeyondMask(size, p, m, q);
    }
  }

  /** Aligning an aligned size changes nothing, and aligning keeps the order of sizes. */
  lemma AlignIdempotentMonotone(size: nat, size': nat, k: nat, width: nat)
    requires k < width && size <= size' && size' + Pow2(k) - 1 < Pow2(width)
    ensures 0 < Pow2(k) < Pow2(width)
    ensures var r := AlignTo(size, Pow2(k), width, width);
            && AlignTo(r, Pow2(k), width, width) == r
            && r <= AlignTo(size', Pow2(k), width, width)
  {
    var p := Pow2(k);
    AlignExact(size, k, width, width);
    AlignExact(size', k, width, width);
    var r := AlignTo(size, p, width, width);
    var q := Pow2Divides(k, width);
    SameRemainder(p * q, 0, p, q);
    NextMultiple(r, p * q, p);
    AlignExact(r, k, width, width);
    assert RoundsUp(r, r, p);
  }

  /** The default boundary is 2^3. */
  lemma AlignDefaultRoundsUp(size: nat, width: nat)
    requires width >= 4 && size < Pow2(width)
    ensures RoundsUp(AlignDefault(size, width), size, 8) <==> size + 7 < Pow2(width)
  {
    assert Pow2(3) == 8;
    AlignExact(size, 3, width, width);
  }
}
