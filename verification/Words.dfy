/** Bytes, 64-bit machine words and little-endian memory.

    A word is represented by its eight bytes, least significant first, so storing a word and
    taking its byte sequence are the same thing. The two bit operations the marshaller needs,
    `|` and a left shift by whole bytes, are defined on that representation; module WordBits
    proves that they are the machine operations on the number a word denotes. */
module Words {
  import opened Bits

  type Byte = b: nat | b < 256

  datatype Word = Word(b0: Byte, b1: Byte, b2: Byte, b3: Byte, b4: Byte, b5: Byte, b6: Byte, b7: Byte)

  /** The memory image of a word. */
  function Bytes(w: Word): (bs: seq<Byte>)
    ensures |bs| == 8
  {
    [w.b0, w.b1, w.b2, w.b3, w.b4, w.b5, w.b6, w.b7]
  }

  function FromBytes(bs: seq<Byte>): (w: Word)
    requires |bs| == 8
    ensures Bytes(w) == bs
  {
    Word(bs[0], bs[1], bs[2], bs[3], bs[4], bs[5], bs[6], bs[7])
  }

  /** A word is its bytes. */
  lemma {:induction false} SameBytes(a: Word, b: Word)
    requires Bytes(a) == Bytes(b)
    ensures a == b
  {
    var s, t := Bytes(a), Bytes(b);
    assert s[0] == t[0] && s[1] == t[1] && s[2] == t[2] && s[3] == t[3];
    assert s[4] == t[4] && s[5] == t[5] && s[6] == t[6] && s[7] == t[7];
  }

  function Zeros(n: nat): (bs: seq<Byte>)
    ensures |bs| == n
    ensures forall k :: 0 <= k < n ==> bs[k] == 0
  {
    seq(n, _ => 0)
  }

  const ZERO: Word := Word(0, 0, 0, 0, 0, 0, 0, 0)

  /** A zero-extending load of at most eight bytes. */
  function Load(bs: seq<Byte>): (w: Word)
    requires |bs| <= 8
    ensures Bytes(w) == bs + Zeros(8 - |bs|)
  {
    FromBytes(bs + Zeros(8 - |bs|))
  }

  lemma {:induction false} BitOrBound(x: nat, y: nat, k: nat)
    requires x < Pow2(k) && y < Pow2(k)
    ensures BitOr(x, y) < Pow2(k)
    decreases k
  {
    if x != 0 && y != 0 {
      if k == 0 {} else { BitOrBound(x / 2, y / 2, k - 1); }
    }
  }

  function OrByte(a: Byte, b: Byte): Byte {
    assert Pow2(8) == 256 by { assert Pow2(4) == 16; assert Pow2(6) == 64; }
    BitOrBound(a, b, 8);
    BitOr(a, b)
  }

  /** Bitwise or. */
  function Or(a: Word, b: Word): Word {
    var s, t := Bytes(a), Bytes(b);
    FromBytes(seq(8, k requires 0 <= k < 8 => OrByte(s[k], t[k])))
  }

  /** Left shift by a bit count that is a multiple of eight. */
  function Shl(w: Word, bits: nat): Word
    requires bits < 64 && bits % 8 == 0
  {
    FromBytes(Zeros(bits / 8) + Bytes(w)[..8 - bits / 8])
  }

  /** The machine's `<<`, for the shifts by whole bytes that occur. */
  function ShiftLeft(w: Word, bits: nat): Word {
    if bits < 64 && bits % 8 == 0 then Shl(w, bits) else ZERO
  }

  /** Or-ing a shifted load above an existing one appends its bytes. */
  lemma {:induction false} LoadAppend(bs: seq<Byte>, cs: seq<Byte>)
    requires |bs| + |cs| <= 8 && |bs| < 8
    ensures Or(Load(bs), Shl(Load(cs), 8 * |bs|)) == Load(bs + cs)
  {
    hide Bytes, FromBytes, Load;
    var hi := Shl(Load(cs), 8 * |bs|);
    assert Bytes(hi) == Zeros(|bs|) + cs + Zeros(8 - |bs| - |cs|);
    assert Bytes(Or(Load(bs), hi)) == Bytes(Load(bs + cs));
    SameBytes(Or(Load(bs), hi), Load(bs + cs));
  }
}

/** The byte representation of words agrees with machine arithmetic on numbers. */
module WordBits {
  import opened Bits
  import opened Words

  /** The number little-endian bytes denote. */
  function Number(bs: seq<Byte>): nat {
    if bs == [] then 0 else bs[0] + 256 * Number(bs[1..])
  }

  function Pow256(n: nat): nat {
    if n == 0 then 1 else 256 * Pow256(n - 1)
  }

  lemma {:induction false} NumberBound(bs: seq<Byte>)
    ensures Number(bs) < Pow256(|bs|)
  {
    if bs != [] { NumberBound(bs[1..]); }
  }

  /** Distinct byte sequences of one length denote distinct numbers. */
  lemma {:induction false} NumberInjective(a: seq<Byte>, b: seq<Byte>)
    requires |a| == |b| && Number(a) == Number(b)
    ensures a == b
  {
    if a != [] {
      NumberInjective(a[1..], b[1..]);
      assert a == [a[0]] + a[1..] && b == [b[0]] + b[1..];
    }
  }

  lemma {:induction false} OrDigit(x: nat, y: nat, c: nat, d: nat)
    requires c < 2 && d < 2
    ensures BitOr(2 * x + c, 2 * y + d) == 2 * BitOr(x, y) + BitOr(c, d)
  {
    assert (2 * x + c) / 2 == x && (2 * y + d) / 2 == y;
  }

  lemma {:induction false} OrTwoDigits(x: nat, y: nat, c: nat, d: nat)
    requires c < 4 && d < 4
    ensures BitOr(4 * x + c, 4 * y + d) == 4 * BitOr(x, y) + BitOr(c, d)
  {
    hide BitOr;
    OrDigit(2 * x + c / 2, 2 * y + d / 2, c % 2, d % 2);
    OrDigit(x, y, c / 2, d / 2);
    OrDigit(c / 2, d / 2, c % 2, d % 2);
  }

  lemma {:induction false} OrFourDigits(x: nat, y: nat, c: nat, d: nat)
    requires c < 16 && d < 16
    ensures BitOr(16 * x + c, 16 * y + d) == 16 * BitOr(x, y) + BitOr(c, d)
  {
    hide BitOr;
    OrTwoDigits(4 * x + c / 4, 4 * y + d / 4, c % 4, d % 4);
    OrTwoDigits(x, y, c / 4, d / 4);
    OrTwoDigits(c / 4, d / 4, c % 4, d % 4);
  }

  /** Or-ing two numbers ors their low bytes and their remaining bytes separately. */
  lemma {:induction false} OrOneByte(x: nat, y: nat, c: Byte, d: Byte)
    ensures BitOr(256 * x + c, 256 * y + d) == 256 * BitOr(x, y) + BitOr(c, d)
  {
    hide BitOr;
    OrFourDigits(16 * x + c / 16, 16 * y + d / 16, c % 16, d % 16);
    OrFourDigits(x, y, c / 16, d / 16);
    OrFourDigits(c / 16, d / 16, c % 16, d % 16);
  }

  lemma {:induction false} NumberOr(a: seq<Byte>, b: seq<Byte>, c: seq<Byte>)
    requires |a| == |b| == |c|
    requires forall k :: 0 <= k < |a| ==> c[k] == OrByte(a[k], b[k])
    ensures Number(c) == BitOr(Number(a), Number(b))
  {
    if a != [] {
      NumberOr(a[1..], b[1..], c[1..]);
      OrOneByte(Number(a[1..]), Number(b[1..]), a[0], b[0]);
    }
  }

  /** Or is the machine `|`. */
  lemma {:induction false} OrIsBitOr(a: Word, b: Word)
    ensures Number(Bytes(Or(a, b))) == BitOr(Number(Bytes(a)), Number(Bytes(b)))
  {
    hide Bytes, FromBytes;
    NumberOr(Bytes(a), Bytes(b), Bytes(Or(a, b)));
  }

  lemma {:induction false} NumberAppend(a: seq<Byte>, b: seq<Byte>)
    ensures Number(a + b) == Number(a) + Pow256(|a|) * Number(b)
  {
    if a == [] {
      assert a + b == b;
    } else {
      NumberAppend(a[1..], b);
      assert (a + b)[1..] == a[1..] + b;
      assert Pow256(|a|) * Number(b) == 256 * (Pow256(|a| - 1) * Number(b));
    }
  }

  lemma {:induction false} NumberZeros(n: nat)
    ensures Number(Zeros(n)) == 0
  {
    if n != 0 {
      NumberZeros(n - 1);
      assert Zeros(n)[1..] == Zeros(n - 1);
    }
  }

  lemma {:induction false} Pow256Add(m: nat, n: nat)
    ensures Pow256(m + n) == Pow256(m) * Pow256(n)
  {
    if m != 0 {
      Pow256Add(m - 1, n);
      assert 256 * (Pow256(m - 1) * Pow256(n)) == Pow256(m) * Pow256(n);
    }
  }

  /** Shl is the machine shift: multiplication by 2^bits, truncated to 64 bits. */
  lemma {:induction false} ShlIsShift(w: Word, bits: nat)
    requires bits < 64 && bits % 8 == 0
    ensures Pow256(8) > 0
    ensures Number(Bytes(Shl(w, bits))) == (Number(Bytes(w)) * Pow256(bits / 8)) % Pow256(8)
  {
    hide Bytes, FromBytes;
    var n := bits / 8;
    var bs := Bytes(w);
    var lo, hi := bs[..8 - n], bs[8 - n..];
    assert bs == lo + hi;
    assert Bytes(Shl(w, bits)) == Zeros(n) + lo;
    hide Shl;
    ShiftedNumber(lo, hi, n);
  }

  lemma {:induction false} ShiftedNumber(lo: seq<Byte>, hi: seq<Byte>, n: nat)
    requires |lo| + n == 8 && |hi| == n
    ensures Pow256(8) > 0
    ensures Number(Zeros(n) + lo) == (Number(lo + hi) * Pow256(n)) % Pow256(8)
  {
    hide Pow256, Number;
    NumberAppend(lo, hi);
    NumberZeros(n);
    NumberAppend(Zeros(n), lo);
    NumberBound(Zeros(n) + lo);
    Pow256Add(n, 8 - n);
    ShiftMod(Number(lo), Pow256(8 - n), Number(hi), Pow256(n), Pow256(8));
  }

  /** Multiplying by p and truncating keeps the low part. */
  lemma {:induction false} ShiftMod(a: nat, q: nat, b: nat, p: nat, m: nat)
    requires m == p * q && p * a < m
    ensures ((a + q * b) * p) % m == p * a
  {
    Distribute(a, q, b, p);
    DivModUnique((a + q * b) * p, m, b, p * a);
  }

  lemma {:induction false} Distribute(a: nat, q: nat, b: nat, p: nat)
    ensures (a + q * b) * p == (p * q) * b + p * a
  {
    assert (q * b) * p == (p * q) * b;
  }
}
