/** Positional numerals: big-endian digit strings in any base, and the two orders in which the
    bytes of a number can be written down. */
module Numerals {
  import opened Arithmetic

  type Digits = seq<nat>

  predicate InBase(ds: Digits, base: nat) {
    forall i :: 0 <= i < |ds| ==> ds[i] < base
  }

  /** The number whose most significant digit comes first. */
  function BigEndian(ds: Digits, base: nat): nat {
    if ds == [] then 0
    else BigEndian(ds[..|ds| - 1], base) * base + ds[|ds| - 1]
  }

  /** The number whose least significant digit comes first. */
  function LittleEndian(ds: Digits, base: nat): nat {
    if ds == [] then 0 else ds[0] + base * LittleEndian(ds[1..], base)
  }

  function Reverse<T>(s: seq<T>): (r: seq<T>)
    ensures |r| == |s|
    ensures forall i :: 0 <= i < |s| ==> r[i] == s[|s| - 1 - i]
  {
    if s == [] then [] else Reverse(s[1..]) + [s[0]]
  }

  /** The digits of n without leading zeros; none at all for 0. */
  function Minimal(n: nat, base: nat): (ds: Digits)
    requires base >= 2
    ensures InBase(ds, base)
    ensures ds != [] ==> ds[0] != 0
    ensures ds == [] <==> n == 0
  {
    if n == 0 then []
    else Smaller(n, base); Minimal(n / base, base) + [n % base]
  }

  lemma Smaller(n: nat, base: nat)
    requires base >= 2 && n > 0
    ensures n / base < n
  {
    var q := n / base;
    Division(n, base);
    assert q * base >= q * 2;
  }

  lemma Division(n: nat, base: nat)
    requires base > 0
    ensures n == n / base * base + n % base
  {
  }

  lemma ReadAppend(ds: Digits, d: nat, base: nat)
    ensures BigEndian(ds + [d], base) == BigEndian(ds, base) * base + d
  {
    assert (ds + [d])[..|ds|] == ds;
  }

  /** Writing and then reading a number changes nothing. */
  lemma {:induction false} ReadMinimal(n: nat, base: nat)
    requires base >= 2
    ensures BigEndian(Minimal(n, base), base) == n
  {
    if n > 0 {
      Smaller(n, base);
      var q, r := n / base, n % base;
      assert Minimal(n, base) == Minimal(q, base) + [r];
      ReadMinimal(q, base);
      ReadAppend(Minimal(q, base), r, base);
      Division(n, base);
    }
  }

  lemma DivMod(q: nat, r: nat, base: nat)
    requires r < base
    ensures (q * base + r) / base == q && (q * base + r) % base == r
  {
    var n := q * base + r;
    var d := n / base - q;
    assert base * d == base * (n / base) - base * q;
    assert base * d == r - n % base;
    SmallMultiple(base, d);
  }

  lemma {:induction false} PositiveValue(ds: Digits, base: nat)
    requires base >= 2 && ds != [] && ds[0] != 0
    ensures BigEndian(ds, base) > 0
  {
    if |ds| > 1 {
      PositiveValue(ds[..|ds| - 1], base);
      var v := BigEndian(ds[..|ds| - 1], base);
      assert v * base >= 1;
    } else {
      assert BigEndian(ds[..0], base) == 0;
    }
  }

  /** Reading a digit string and writing it minimally returns the same string exactly when it has
      no leading zero. This is why the top bit of the salt is set. */
  lemma {:induction false} MinimalInvertsRead(ds: Digits, base: nat)
    requires base >= 2 && InBase(ds, base)
    ensures Minimal(BigEndian(ds, base), base) == ds <==> (ds == [] || ds[0] != 0)
  {
    if ds != [] && ds[0] != 0 {
      PositiveValue(ds, base);
      var rest := ds[..|ds| - 1];
      MinimalInvertsRead(rest, base);
      DivMod(BigEndian(rest, base), ds[|ds| - 1], base);
      if rest == [] {
        assert BigEndian(rest, base) == 0;
      }
      assert ds == rest + [ds[|ds| - 1]];
    }
  }

  lemma Scale(v: nat, p: int, base: nat)
    requires v < p
    ensures v * base + base <= base * p
  {
    assert (v + 1) * base <= p * base;
  }

  lemma {:induction false} ValueBelow(ds: Digits, base: nat)
    requires base >= 2 && InBase(ds, base)
    ensures BigEndian(ds, base) < Pow(base, |ds|)
  {
    if ds != [] {
      var rest := ds[..|ds| - 1];
      ValueBelow(rest, base);
      Scale(BigEndian(rest, base), Pow(base, |rest|), base);
    }
  }

  lemma ScaleUp(v: nat, d: nat, p: int, base: nat)
    requires v >= d * p
    ensures v * base >= d * (base * p)
  {
    assert v * base >= (d * p) * base;
    assert (d * p) * base == d * (base * p);
  }

  lemma {:induction false} ValueAtLeast(ds: Digits, base: nat)
    requires base >= 2 && ds != []
    ensures BigEndian(ds, base) >= ds[0] * Pow(base, |ds| - 1)
  {
    if |ds| > 1 {
      var rest := ds[..|ds| - 1];
      ValueAtLeast(rest, base);
      ScaleUp(BigEndian(rest, base), ds[0], Pow(base, |rest| - 1), base);
    } else {
      assert BigEndian(ds[..0], base) == 0;
    }
  }

  lemma Multiple(c: nat, p: nat)
    requires c > 0
    ensures c * p >= p
  {
  }

  /** A number below base^k is written with at most k digits. */
  lemma MinimalLength(n: nat, base: nat, k: nat)
    requires base >= 2 && n < Pow(base, k)
    ensures |Minimal(n, base)| <= k
  {
    var ds := Minimal(n, base);
    if ds != [] {
      var p := Pow(base, |ds| - 1);
      ReadMinimal(n, base);
      ValueAtLeast(ds, base);
      PowPositive(base, |ds| - 1);
      Multiple(ds[0], p);
      if k <= |ds| - 1 {
        PowMonotone(base, k, |ds| - 1);
        assert false;
      }
    }
  }

  /** Reversing the bytes turns one byte order into the other. */
  lemma {:induction false} ReverseReads(ds: Digits, base: nat)
    ensures BigEndian(Reverse(ds), base) == LittleEndian(ds, base)
  {
    if ds != [] {
      ReverseReads(ds[1..], base);
      var r := Reverse(ds);
      assert r[..|r| - 1] == Reverse(ds[1..]);
    }
  }

  lemma ReverseTwice<T>(s: seq<T>)
    ensures Reverse(Reverse(s)) == s
  {
    assert forall i :: 0 <= i < |s| ==> Reverse(Reverse(s))[i] == Reverse(s)[|s| - 1 - i];
  }

  /** Every base^2 digit as two base digits. */
  function Split(ds: Digits, base: nat): (r: Digits)
    requires base >= 2
    ensures |r| == 2 * |ds|
  {
    if ds == [] then []
    else Split(ds[..|ds| - 1], base) + [ds[|ds| - 1] / base, ds[|ds| - 1] % base]
  }

  lemma Regroup(v: nat, q: nat, base: nat)
    ensures (v * base + q) * base == v * (base * base) + q * base
  {
    assert v * base * base == v * (base * base);
  }

  lemma {:induction false} SplitReads(ds: Digits, base: nat)
    requires base >= 2
    ensures BigEndian(Split(ds, base), base) == BigEndian(ds, base * base)
  {
    if ds != [] {
      var rest, last := ds[..|ds| - 1], ds[|ds| - 1];
      SplitReads(rest, base);
      var s := Split(ds, base);
      var s1 := s[..|s| - 1];
      assert s1[..|s1| - 1] == Split(rest, base);
      var v := BigEndian(Split(rest, base), base);
      assert BigEndian(s1, base) == v * base + last / base;
      assert BigEndian(s, base) == BigEndian(s1, base) * base + last % base;
      Regroup(v, last / base, base);
      Division(last, base);
    }
  }
}
