/** 256-bit words: the modulus, their 32-byte form, and the arithmetic of the opcodes that combine them. */
module Words {
  import opened Bytes

  const MOD: nat := 0x1_0000000000000000_0000000000000000_0000000000000000_0000000000000000

  lemma Pow256Of32()
    ensures Pow256(32) == MOD
  {
    assert Pow256(4) == 0x1_0000_0000;
    Pow256Add(4, 4);
    Pow256Add(8, 8);
    Pow256Add(16, 16);
  }

  predicate IsWord(v: nat) { v < MOD }

  function WordBytes(v: nat): (s: ByteSeq)
    requires IsWord(v)
    ensures |s| == 32
  {
    Pow256Of32();
    ToBE(v, 32)
  }

  lemma WordBytesRoundTrip(v: nat)
    requires IsWord(v)
    ensures FromBE(WordBytes(v)) == v
  {
    Pow256Of32();
    FromToBE(v, 32);
  }

  lemma FromBEIsWord(s: ByteSeq)
    requires |s| <= 32
    ensures IsWord(FromBE(s))
  {
    FromBEBound(s);
    Pow256Mono(|s|, 32);
    Pow256Of32();
  }

  // Arithmetic that wraps around.

  function Plus(x: nat, y: nat): nat {
    (x + y) % MOD
  }

  function Minus(x: nat, y: nat): nat {
    (x - y) % MOD
  }

  function Product(x: nat, y: nat): nat {
    (x * y) % MOD
  }

  function Power(x: nat, y: nat): nat {
    Pow(x, y) % MOD
  }

  /** `v` is the integer `n` reduced to a word. */
  ghost predicate Reduces(v: nat, n: int) {
    IsWord(v) && (n - v) % MOD == 0
  }

  lemma WrapAround(x: nat, y: nat)
    ensures Reduces(Plus(x, y), x + y) && Reduces(Minus(x, y), x - y)
    ensures Reduces(Product(x, y), x * y) && Reduces(Power(x, y), Pow(x, y))
  {
    ModReduces(x + y);
    ModReduces(x - y);
    ModReduces(x * y);
    ModReduces(Pow(x, y));
  }

  lemma ModReduces(n: int)
    ensures Reduces(n % MOD, n)
  {
    assert n - n % MOD == MOD * (n / MOD);
    MultipleOf(n / MOD);
  }

  lemma OneWrap(n: int)
    requires 0 <= n + MOD && n < 2 * MOD
    ensures n < 0 ==> n % MOD == n + MOD
    ensures 0 <= n < MOD ==> n % MOD == n
    ensures n >= MOD ==> n % MOD == n - MOD
  {}

  lemma MultipleOf(k: int)
    ensures (MOD * k) % MOD == 0
  {}

  /** Subtraction takes back what addition put on a word, and the other way round. */
  lemma MinusUndoesPlus(x: nat, y: nat)
    requires IsWord(x) && IsWord(y)
    ensures Minus(Plus(x, y), y) == x && Plus(Minus(x, y), y) == x
  {
    OneWrap(x + y);
    OneWrap(Plus(x, y) - y);
    OneWrap(x - y);
    OneWrap(Minus(x, y) + y);
  }

  /** DIV and MOD, 0 for a zero divisor. */
  function Quotient(x: nat, y: nat): nat {
    if y != 0 then x / y else 0
  }

  function Remainder(x: nat, y: nat): nat {
    if y != 0 then x % y else 0
  }

  lemma QuotientAndRemainder(x: nat, y: nat)
    requires y != 0
    ensures x == y * Quotient(x, y) + Remainder(x, y) && Remainder(x, y) < y
  {}

  lemma ZeroDivisor(x: nat)
    ensures Quotient(x, 0) == 0 && Remainder(x, 0) == 0
  {}

  /** NOT of a word. */
  function Complement(x: nat): nat
    requires IsWord(x)
  {
    MOD - 1 - x
  }

  // Bitwise operators on naturals of any size, as Python's are.

  function BitAnd(a: nat, b: nat): nat {
    if a == 0 || b == 0 then 0
    else (if a % 2 == 1 && b % 2 == 1 then 1 else 0) + 2 * BitAnd(a / 2, b / 2)
  }

  function BitOr(a: nat, b: nat): nat
    decreases a + b
  {
    if a == 0 then b else if b == 0 then a
    else (if a % 2 == 1 || b % 2 == 1 then 1 else 0) + 2 * BitOr(a / 2, b / 2)
  }

  lemma {:induction false} BitAndBound(a: nat, b: nat)
    ensures BitAnd(a, b) <= a
  {
    if a != 0 && b != 0 { BitAndBound(a / 2, b / 2); }
  }

  lemma {:induction false} BitOrBound(a: nat, b: nat, k: nat)
    requires a < Pow(2, k) && b < Pow(2, k)
    ensures BitOr(a, b) < Pow(2, k)
  {
    if a != 0 && b != 0 { BitOrBound(a / 2, b / 2, k - 1); }
  }

  lemma {:induction false} Pow2Of(k: nat)
    ensures Pow(2, 8 * k) == Pow256(k)
  {
    if k > 0 {
      var e := 8 * k;
      assert Pow(2, e) == 2 * Pow(2, e - 1) && Pow(2, e - 1) == 2 * Pow(2, e - 2);
      assert Pow(2, e - 2) == 2 * Pow(2, e - 3) && Pow(2, e - 3) == 2 * Pow(2, e - 4);
      assert Pow(2, e - 4) == 2 * Pow(2, e - 5) && Pow(2, e - 5) == 2 * Pow(2, e - 6);
      assert Pow(2, e - 6) == 2 * Pow(2, e - 7) && Pow(2, e - 7) == 2 * Pow(2, e - 8);
      Pow2Of(k - 1);
    }
  }

  lemma BitOrIsWord(a: nat, b: nat)
    requires IsWord(a) && IsWord(b)
    ensures IsWord(BitOr(a, b))
  {
    Pow2Of(32);
    Pow256Of32();
    BitOrBound(a, b, 256);
  }

  /** Bit i of n, the least significant being bit 0. */
  predicate Bit(n: nat, i: nat) {
    if i == 0 then n % 2 == 1 else Bit(n / 2, i - 1)
  }

  lemma {:induction false} ZeroHasNoBits(i: nat)
    ensures !Bit(0, i)
  {
    if i > 0 { ZeroHasNoBits(i - 1); }
  }

  lemma {:induction false} BitAndIsBitwise(a: nat, b: nat, i: nat)
    ensures Bit(BitAnd(a, b), i) <==> Bit(a, i) && Bit(b, i)
  {
    ZeroHasNoBits(i);
    if a != 0 && b != 0 && i > 0 {
      assert BitAnd(a, b) / 2 == BitAnd(a / 2, b / 2);
      BitAndIsBitwise(a / 2, b / 2, i - 1);
    }
  }

  lemma {:induction false} BitOrIsBitwise(a: nat, b: nat, i: nat)
    ensures Bit(BitOr(a, b), i) <==> Bit(a, i) || Bit(b, i)
  {
    ZeroHasNoBits(i);
    if a != 0 && b != 0 && i > 0 {
      assert BitOr(a, b) / 2 == BitOr(a / 2, b / 2);
      BitOrIsBitwise(a / 2, b / 2, i - 1);
    }
  }

  /** Below bit 256 NOT turns every bit round, and it has no bits above. */
  lemma ComplementIsBitwise(x: nat, i: nat)
    requires IsWord(x)
    ensures Bit(Complement(x), i) <==> i < 256 && !Bit(x, i)
  {
    hide Pow, Bit;
    Pow2Of(32);
    Pow256Of32();
    ComplementBits(x, 256, i);
  }

  lemma {:induction false} ComplementBits(x: nat, k: nat, i: nat)
    requires x < Pow(2, k)
    ensures Bit(Pow(2, k) - 1 - x, i) <==> i < k && !Bit(x, i)
  {
    if k == 0 {
      ZeroHasNoBits(i);
    } else if i > 0 {
      assert (Pow(2, k) - 1 - x) / 2 == Pow(2, k - 1) - 1 - x / 2;
      ComplementBits(x / 2, k - 1, i - 1);
    }
  }
}
