/** Byte strings of the re-exec bridge: a byte is a char, a C string ends at its first NUL. */
module BridgeText {

  const NUL: char := '\0'

  predicate NoNul(s: string) {
    forall i :: 0 <= i < |s| ==> s[i] != NUL
  }

  /** The C string at the start of mem. */
  function CText(mem: string): (t: string)
    ensures t <= mem && NoNul(t)
    ensures |t| < |mem| ==> mem[|t|] == NUL
  {
    if mem == "" || mem[0] == NUL then "" else [mem[0]] + CText(mem[1..])
  }

  lemma {:induction false} CTextIs(t: string, rest: string)
    requires NoNul(t) && (rest == "" || rest[0] == NUL)
    ensures CText(t + rest) == t
  {
    if t == "" {
      assert t + rest == rest;
    } else {
      assert (t + rest)[1..] == t[1..] + rest;
      CTextIs(t[1..], rest);
    }
  }

  predicate IsDigit(c: char) {
    '0' <= c <= '9'
  }

  predicate AllDigits(s: string) {
    forall i :: 0 <= i < |s| ==> IsDigit(s[i])
  }

  function Digit(d: nat): (c: char)
    requires d < 10
    ensures IsDigit(c) && DigitValue(c) == d
  {
    ('0' as int + d) as char
  }

  function DigitValue(c: char): (d: nat)
    requires IsDigit(c)
    ensures d < 10
  {
    c as int - '0' as int
  }

  /** The number a digit string denotes. */
  function Value(s: string): nat
    requires AllDigits(s)
  {
    if s == "" then 0 else 10 * Value(s[..|s| - 1]) + DigitValue(s[|s| - 1])
  }

  /** The digits of n without leading zeros; none for zero. */
  function Digits(n: nat): (s: string)
    ensures AllDigits(s)
  {
    if n == 0 then "" else Digits(n / 10) + [Digit(n % 10)]
  }

  /** Decimal notation. */
  function Decimal(n: nat): (s: string)
    ensures AllDigits(s) && s != ""
  {
    if n == 0 then "0" else Digits(n)
  }

  lemma {:induction false} DigitsValue(n: nat)
    ensures Value(Digits(n)) == n
  {
    if n != 0 {
      DigitsValue(n / 10);
      var s := Digits(n / 10) + [Digit(n % 10)];
      assert s[..|s| - 1] == Digits(n / 10);
    }
  }

  /** Decimal notation denotes its number, so it is injective. */
  lemma {:induction false} DecimalValue(n: nat)
    ensures Value(Decimal(n)) == n
  {
    DigitsValue(n);
    if n == 0 { assert "0"[..0] == ""; }
  }

  lemma {:induction false} DigitsHaveNoNul(s: string)
    requires AllDigits(s)
    ensures NoNul(s)
  {
    forall i | 0 <= i < |s| ensures s[i] != NUL { assert IsDigit(s[i]); }
  }

  function Pow10(k: nat): (p: nat)
    ensures p >= 1
  {
    if k == 0 then 1 else 10 * Pow10(k - 1)
  }

  const WORD: nat := 0x1_0000_0000_0000_0000

  /** Twenty decimal digits hold every 64-bit number. */
  lemma {:induction false} TwentyDigits()
    ensures WORD <= Pow10(20)
  {
    assert Pow10(5) == 100000;
    assert Pow10(10) == 10000000000;
    assert Pow10(15) == 1000000000000000;
  }

  lemma {:induction false} DigitsLength(n: nat, k: nat)
    requires n < Pow10(k)
    ensures |Digits(n)| <= k
  {
    if n != 0 { DigitsLength(n / 10, k - 1); }
  }

  lemma {:induction false} DecimalLength(n: nat)
    requires n < WORD
    ensures |Decimal(n)| <= 20
  {
    TwentyDigits();
    DigitsLength(n, 20);
  }

  /** One more digit in front. */
  lemma {:induction false} DigitStep(v: nat, di: nat, tail: string)
    requires 0 < v < Pow10(di)
    ensures di > 0 && v / 10 < Pow10(di - 1)
    ensures Digits(v / 10) + ([Digit(v % 10)] + tail) == Digits(v) + tail
  {
  }

  lemma {:induction false} NoDigits()
    ensures Digits(0) == ""
  {
  }

  /** One turn of the digit loop. */
  method PutDigit(digs: array<char>, di: nat, v: nat) returns (di': nat, v': nat)
    requires digs.Length == 20 && di <= 20 && 0 < v < Pow10(di)
    modifies digs
    ensures di' + 1 == di && v' < v && v' < Pow10(di')
    ensures Digits(v') + digs[di'..] == Digits(v) + old(digs[di..])
  {
    hide Digits, Pow10;
    ghost var tail := digs[di..];
    DigitStep(v, di, tail);
    di' := di - 1;
    digs[di'] := Digit(v % 10);
    assert digs[di'..] == [Digit(v % 10)] + tail;
    v' := v / 10;
  }

  /** The digit loop both taggedEnv and procFdPath run: from the end of a twenty-byte buffer backwards.
      It is exact for every 64-bit number. */
  method PrintDecimal(n: nat) returns (digs: array<char>, di: nat)
    requires n < WORD
    ensures fresh(digs) && digs.Length == 20 && di < 20
    ensures digs[di..] == Decimal(n)
  {
    digs := new char[20](_ => '0');
    di := 20;
    if n == 0 {
      di := di - 1;
      digs[di] := '0';
    }
    TwentyDigits();
    var v: nat := n;
    assert n != 0 ==> Digits(v) + digs[di..] == Decimal(n);
    NoDigits();
    hide Digits, Pow10;
    while v > 0
      invariant 0 <= di <= 20
      invariant n == 0 ==> v == 0 && di == 19 && digs[19] == '0'
      invariant n != 0 ==> v < Pow10(di) && Digits(v) + digs[di..] == Decimal(n)
    {
      di, v := PutDigit(digs, di, v);
    }
  }
}
