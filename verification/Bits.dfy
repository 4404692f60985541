/** Binary words as naturals: the leading bits of a word are what its quotient by a power of two keeps. */
module Bits {

  function Pow2(n: nat): (p: nat)
    ensures p >= 1
  {
    if n == 0 then 1 else 2 * Pow2(n - 1)
  }

  lemma {:induction false} Pow2Adds(a: nat, b: nat)
    ensures Pow2(a + b) == Pow2(a) * Pow2(b)
  {
    if a > 0 {
      Pow2Adds(a - 1, b);
      assert 2 * (Pow2(a - 1) * Pow2(b)) == (2 * Pow2(a - 1)) * Pow2(b);
    }
  }

  lemma MulMonotone(d: nat, a: nat, b: nat)
    requires a <= b
    ensures d * a <= d * b
  {
    assert d * b == d * a + d * (b - a);
  }

  lemma QuotientUnique(x: nat, d: nat, q: nat)
    requires d > 0 && d * q <= x < d * q + d
    ensures x / d == q
  {
    var r := x / d;
    DivisionLaw(x, d);
    if r < q {
      MulMonotone(d, r + 1, q);
      assert false;
    } else if r > q {
      MulMonotone(d, q + 1, r);
      assert false;
    }
  }

  lemma DivisionLaw(x: nat, d: nat)
    requires d > 0
    ensures x == d * (x / d) + x % d && 0 <= x % d < d && x / d >= 0
  {
  }

  lemma MulAssociates(a: nat, b: nat, c: nat)
    ensures a * (b * c) == (a * b) * c
  {
  }

  lemma DivDiv(x: nat, a: nat, b: nat)
    requires a > 0 && b > 0
    ensures a * b > 0
    ensures x / (a * b) == x / a / b
  {
    var q := x / a;
    var r := q / b;
    DivisionLaw(x, a);
    DivisionLaw(q, b);
    MulMonotone(a, 1, b);
    calc {
      a * q;
      a * (b * r + q % b);
      a * (b * r) + a * (q % b);
      { MulAssociates(a, b, r); }
      (a * b) * r + a * (q % b);
    }
    MulMonotone(a, q % b + 1, b);
    assert a * (q % b + 1) == a * (q % b) + a;
    QuotientUnique(x, a * b, r);
  }

  lemma QuotientShift(k: nat, x: nat, d: nat)
    requires d > 0
    ensures (k * d + x) / d == k + x / d
  {
    DivisionLaw(x, d);
    assert d * (k + x / d) == k * d + d * (x / d);
    QuotientUnique(k * d + x, d, k + x / d);
  }

  /** Bit `i` of a word of `width` bits, counted from the most significant one. */
  function BitAt(v: nat, width: nat, i: nat): nat
    requires i < width
  {
    v / Pow2(width - 1 - i) % 2
  }

  /** The two words agree in their `n` leading bits: what a prefix of length `n` means. */
  ghost predicate SameLeadingBits(x: nat, y: nat, width: nat, n: nat)
    requires n <= width
  {
    forall i: nat :: i < n ==> BitAt(x, width, i) == BitAt(y, width, i)
  }

  lemma {:induction false} LeadingBitsAreQuotient(x: nat, y: nat, width: nat, n: nat)
    requires n <= width && x < Pow2(width) && y < Pow2(width)
    ensures SameLeadingBits(x, y, width, n) <==> x / Pow2(width - n) == y / Pow2(width - n)
  {
    if n == 0 {
      QuotientUnique(x, Pow2(width), 0);
      QuotientUnique(y, Pow2(width), 0);
    } else {
      LeadingBitsAreQuotient(x, y, width, n - 1);
      var p := Pow2(width - n);
      assert Pow2(width - (n - 1)) == p * 2;
      DivDiv(x, p, 2);
      DivDiv(y, p, 2);
      assert BitAt(x, width, n - 1) == x / p % 2;
      assert SameLeadingBits(x, y, width, n) <==>
             SameLeadingBits(x, y, width, n - 1) && BitAt(x, width, n - 1) == BitAt(y, width, n - 1);
    }
  }

  /** Clearing the last `k` bits. */
  function ClearLow(v: nat, k: nat): (r: nat)
    ensures r <= v
  {
    DivisionLaw(v, Pow2(k));
    v - v % Pow2(k)
  }

  lemma ClearLowIsQuotient(x: nat, y: nat, k: nat)
    ensures ClearLow(x, k) == ClearLow(y, k) <==> x / Pow2(k) == y / Pow2(k)
  {
    var p := Pow2(k);
    DivisionLaw(x, p);
    DivisionLaw(y, p);
    if ClearLow(x, k) == ClearLow(y, k) {
      QuotientUnique(x, p, y / p);
    }
  }
}
