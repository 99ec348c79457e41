/** Bitwise operations on natural numbers, by binary digits, and powers of two. */
module Bits {

  function BitOr(x: nat, y: nat): nat {
    if x == 0 then y
    else if y == 0 then x
    else 2 * BitOr(x / 2, y / 2) + (if x % 2 == 1 || y % 2 == 1 then 1 else 0)
  }

  /** The bits of x that are not bits of m: Go's `x &^ m`. */
  function AndNot(x: nat, m: nat): nat {
    if x == 0 then 0
    else 2 * AndNot(x / 2, m / 2) + (if x % 2 == 1 && m % 2 == 0 then 1 else 0)
  }

  function Pow2(k: nat): (p: nat)
    ensures p >= 1
  {
    if k == 0 then 1 else 2 * Pow2(k - 1)
  }

  ghost predicate IsPow2(a: nat) {
    exists k: nat :: a == Pow2(k)
  }

  /** Clearing the low k bits is rounding down to a multiple of 2^k. */
  lemma {:induction false} AndNotLowBits(x: nat, k: nat)
    ensures AndNot(x, Pow2(k) - 1) == x - x % Pow2(k)
    decreases k, x
  {
    if x == 0 {
      DivModUnique(0, Pow2(k), 0, 0);
    } else if k == 0 {
      AndNotZero(x);
      DivModUnique(x, 1, x, 0);
    } else {
      var h := Pow2(k - 1);
      assert Pow2(k) == 2 * h;
      hide AndNot, Pow2;
      AndNotLowBits(x / 2, k - 1);
      AndNotStep(x, h);
    }
  }

  lemma {:induction false} AndNotStep(x: nat, h: nat)
    requires h >= 1
    requires AndNot(x / 2, h - 1) == x / 2 - (x / 2) % h
    ensures AndNot(x, 2 * h - 1) == x - x % (2 * h)
  {
    assert (2 * h - 1) / 2 == h - 1 && (2 * h - 1) % 2 == 1;
    assert x != 0 ==> AndNot(x, 2 * h - 1) == 2 * AndNot(x / 2, h - 1);
    HalfMod(x, h);
    hide AndNot;
  }

  lemma {:induction false} AndNotZero(x: nat)
    ensures AndNot(x, 0) == x
  {
    if x != 0 { AndNotZero(x / 2); }
  }

  /** Halving commutes with the remainder by an even number. */
  lemma {:induction false} HalfMod(x: nat, h: nat)
    requires h >= 1
    ensures x % (2 * h) == 2 * ((x / 2) % h) + x % 2
  {
    var q, r := (x / 2) / h, (x / 2) % h;
    assert x / 2 == q * h + r;
    assert x == (2 * h) * q + (2 * r + x % 2) by {
      assert 2 * (q * h) == (2 * h) * q;
    }
    DivModUnique(x, 2 * h, q, 2 * r + x % 2);
  }

  lemma {:induction false} MulGap(d: nat, p: nat, q: nat)
    requires p < q
    ensures d * p + d <= d * q
  {
    assert d * q == d * p + d * (q - p);
    assert d * (q - p) == d * (q - p - 1) + d;
  }

  lemma {:induction false} DivModUnique(x: nat, d: nat, q: nat, r: nat)
    requires d >= 1 && r < d && x == d * q + r
    ensures x % d == r && x / d == q
  {
    var q', r' := x / d, x % d;
    assert d * q' + r' == d * q + r;
    if q > q' { MulGap(d, q', q); } else if q < q' { MulGap(d, q, q'); }
  }

  lemma {:induction false} EightIsMultiple(lo: nat, w: nat, k: nat)
    requires w >= 1 && w * k == 8 && lo % 8 == 0
    ensures lo % w == 0
  {
    var q := lo / 8;
    Reassociate(w, k, q);
    DivModUnique(lo, w, k * q, 0);
  }

  lemma {:induction false} Reassociate(w: nat, k: nat, q: nat)
    ensures (w * k) * q == w * (k * q)
  {
  }

  lemma {:induction false} MultiplesApart(o: nat, w: nat, lo: nat)
    requires w >= 1 && o % w == 0 && lo % w == 0 && o < lo
    ensures o + w <= lo
  {
    var p, q := o / w, lo / w;
    assert o == w * p && lo == w * q;
    SmallerFactor(w, p, q);
    MulGap(w, p, q);
  }

  lemma {:induction false} SmallerFactor(d: nat, p: nat, q: nat)
    requires d * p < d * q
    ensures p < q
  {
    if q <= p { LargerFactor(d, q, p); }
  }

  lemma {:induction false} LargerFactor(d: nat, q: nat, p: nat)
    requires q <= p
    ensures d * q <= d * p
  {
    assert d * p == d * q + d * (p - q);
  }

  /** The least multiple of a that is not below v. */
  function AlignUp(v: nat, a: nat): (r: nat)
    requires a >= 1
    ensures v <= r < v + a
    ensures r % a == 0
  {
    var q := (v + a - 1) / a;
    assert v + a - 1 == a * q + (v + a - 1) % a;
    DivModUnique(a * q, a, q, 0);
    a * q
  }

  /** No multiple of a lies between v and AlignUp(v, a). */
  lemma {:induction false} AlignUpIsLeast(v: nat, a: nat, m: nat)
    requires a >= 1 && m >= v && m % a == 0
    ensures AlignUp(v, a) <= m
  {
    var r := AlignUp(v, a);
    hide AlignUp;
    if m < r { MultiplesApart(m, a, r); }
  }

  /** So it is the only one within a of v. */
  lemma {:induction false} AlignUpUnique(v: nat, a: nat, r: nat)
    requires a >= 1 && v <= r < v + a && r % a == 0
    ensures AlignUp(v, a) == r
  {
    var s := AlignUp(v, a);
    hide AlignUp;
    AlignUpIsLeast(v, a, r);
    if s < r { MultiplesApart(s, a, r); }
  }

  lemma {:induction false} SumOfMultiples(m: nat, n: nat, a: nat)
    requires a >= 1 && m % a == 0 && n % a == 0
    ensures (m + n) % a == 0
  {
    var p, q := m / a, n / a;
    assert m == a * p && n == a * q;
    Distribute(a, p, q);
    DivModUnique(m + n, a, p + q, 0);
  }

  lemma {:induction false} Distribute(a: nat, p: nat, q: nat)
    ensures a * (p + q) == a * p + a * q
  {
  }

  /** Scaling by eight. */
  lemma {:induction false} AlignUpScaled(v: nat, a: nat)
    requires a >= 1
    ensures AlignUp(8 * v, 8 * a) == 8 * AlignUp(v, a)
  {
    var r := AlignUp(v, a);
    hide AlignUp;
    var q := r / a;
    assert r == a * q;
    Reassociate(8, a, q);
    DivModUnique(8 * r, 8 * a, q, 0);
    AlignUpUnique(8 * v, 8 * a, 8 * r);
  }

  lemma {:induction false} AlignUpFixed(v: nat, a: nat)
    requires a >= 1 && v % a == 0
    ensures AlignUp(v, a) == v
  {
    AlignUpIsLeast(v, a, v);
  }

  /** The mask form `(v + a - 1) &^ (a - 1)` both layout passes use. With a == 0 the mask
      `a - 1` wraps to all ones and clears everything. */
  function AlignMask(v: nat, a: nat): nat {
    if a == 0 then 0 else AndNot(v + a - 1, a - 1)
  }

  /** On a power of two the mask form is the least multiple not below its argument. */
  lemma {:induction false} AlignMaskIsAlignUp(v: nat, a: nat)
    requires IsPow2(a)
    ensures a >= 1 && AlignMask(v, a) == AlignUp(v, a)
  {
    hide AndNot;
    var k: nat :| a == Pow2(k);
    AndNotLowBits(v + a - 1, k);
    RoundDown(v + a - 1, a);
  }

  lemma {:induction false} RoundDown(x: nat, a: nat)
    requires a >= 1
    ensures x - x % a == a * (x / a)
  {
  }

  lemma {:induction false} SmallPow2s()
    ensures IsPow2(1) && IsPow2(2) && IsPow2(4) && IsPow2(8)
  {
    assert Pow2(0) == 1 && Pow2(1) == 2 && Pow2(2) == 4 && Pow2(3) == 8;
  }
}
