/** Byte strings, big-endian numbers, and the result type that stands for Python's exceptions. */
module Bytes {
  type Byte = b: int | 0 <= b < 256
  type ByteSeq = seq<Byte>

  function Zeros(n: nat): (z: ByteSeq)
    ensures |z| == n
  {
    seq(n, i => 0)
  }

  type Hash = h: ByteSeq | |h| == 32 witness Zeros(32)
  type Address = a: ByteSeq | |a| == 20 witness Zeros(20)

  datatype Option<+T> = None | Some(value: T) {
    predicate IsFailure() { None? }
    function PropagateFailure<U>(): Option<U>
      requires None?
    {
      None
    }
    function Extract(): T
      requires Some?
    {
      value
    }
  }

  function Pow(b: nat, e: nat): nat {
    if e == 0 then 1 else b * Pow(b, e - 1)
  }

  function Pow256(n: nat): (p: nat)
    ensures p > 0
  {
    if n == 0 then 1 else 256 * Pow256(n - 1)
  }

  lemma {:induction false} Pow256Add(a: nat, b: nat)
    ensures Pow256(a + b) == Pow256(a) * Pow256(b)
  {
    if a > 0 {
      Pow256Add(a - 1, b);
      assert Pow256(a + b) == 256 * Pow256(a - 1 + b);
      assert 256 * (Pow256(a - 1) * Pow256(b)) == (256 * Pow256(a - 1)) * Pow256(b);
    }
  }

  lemma {:induction false} Pow256Mono(a: nat, b: nat)
    requires a <= b
    ensures Pow256(a) <= Pow256(b)
  {
    if a < b { Pow256Mono(a, b - 1); }
  }

  /** `int.from_bytes(s, "big")` */
  function FromBE(s: ByteSeq): nat {
    if s == [] then 0 else FromBE(s[..|s| - 1]) * 256 + s[|s| - 1]
  }

  /** `n.to_bytes(len, "big")` for an n that fits */
  function ToBE(n: nat, len: nat): (s: ByteSeq)
    requires n < Pow256(len)
    ensures |s| == len
  {
    if len == 0 then [] else ToBE(n / 256, len - 1) + [n % 256]
  }

  lemma {:induction false} FromToBE(n: nat, len: nat)
    requires n < Pow256(len)
    ensures FromBE(ToBE(n, len)) == n
  {
    if len > 0 {
      FromToBE(n / 256, len - 1);
      var s := ToBE(n, len);
      assert s[..|s| - 1] == ToBE(n / 256, len - 1);
    }
  }

  lemma {:induction false} FromBEBound(s: ByteSeq)
    ensures FromBE(s) < Pow256(|s|)
  {
    if s != [] { FromBEBound(s[..|s| - 1]); }
  }

  lemma {:induction false} ToFromBE(s: ByteSeq)
    ensures FromBE(s) < Pow256(|s|) && ToBE(FromBE(s), |s|) == s
  {
    FromBEBound(s);
    if s != [] {
      var t := s[..|s| - 1];
      ToFromBE(t);
      assert FromBE(s) / 256 == FromBE(t) && FromBE(s) % 256 == s[|s| - 1];
    }
  }

  lemma {:induction false} FromBEConcat(a: ByteSeq, b: ByteSeq)
    ensures FromBE(a + b) == FromBE(a) * Pow256(|b|) + FromBE(b)
  {
    if b == [] {
      assert a + b == a;
    } else {
      var t := b[..|b| - 1];
      FromBEConcat(a, t);
      assert (a + b)[..|a + b| - 1] == a + t;
      calc {
        FromBE(a + b);
        (FromBE(a) * Pow256(|t|) + FromBE(t)) * 256 + b[|b| - 1];
        FromBE(a) * Pow256(|t|) * 256 + FromBE(b);
        { assert Pow256(|b|) == 256 * Pow256(|t|); MulAssoc(FromBE(a), Pow256(|t|), 256); }
        FromBE(a) * Pow256(|b|) + FromBE(b);
      }
    }
  }

  lemma MulAssoc(a: nat, b: nat, c: nat)
    ensures a * b * c == a * (c * b)
  {}

  lemma {:induction false} FromBEZeros(n: nat)
    ensures FromBE(Zeros(n)) == 0
  {
    if n > 0 {
      assert Zeros(n)[..n - 1] == Zeros(n - 1);
      FromBEZeros(n - 1);
    }
  }

  /** A string without a leading zero byte reaches the full range of its length. */
  lemma {:induction false} FromBELow(s: ByteSeq)
    requires s != [] && s[0] != 0
    ensures Pow256(|s| - 1) <= FromBE(s)
  {
    if |s| > 1 { FromBELow(s[..|s| - 1]); }
  }

  /** `int.bit_length()` */
  function BitLength(n: nat): nat {
    if n == 0 then 0 else 1 + BitLength(n / 2)
  }

  /** (n.bit_length() + 7) // 8 */
  function ByteLength(n: nat): nat {
    (BitLength(n) + 7) / 8
  }

  lemma BitLengthShift(n: nat)
    requires n >= 256
    ensures BitLength(n) == 8 + BitLength(n / 256)
  {
    assert n / 2 / 2 == n / 4;
    assert n / 4 / 2 == n / 8 && n / 8 / 2 == n / 16;
    assert n / 16 / 2 == n / 32 && n / 32 / 2 == n / 64;
    assert n / 64 / 2 == n / 128 && n / 128 / 2 == n / 256;
    assert BitLength(n) == 1 + BitLength(n / 2);
    assert BitLength(n / 2) == 1 + BitLength(n / 4);
    assert BitLength(n / 4) == 1 + BitLength(n / 8);
    assert BitLength(n / 8) == 1 + BitLength(n / 16);
    assert BitLength(n / 16) == 1 + BitLength(n / 32);
    assert BitLength(n / 32) == 1 + BitLength(n / 64);
    assert BitLength(n / 64) == 1 + BitLength(n / 128);
    assert BitLength(n / 128) == 1 + BitLength(n / 256);
  }

  lemma {:induction false} BitLengthBound(n: nat, k: nat)
    requires n < Pow(2, k)
    ensures BitLength(n) <= k
  {
    if n > 0 { BitLengthBound(n / 2, k - 1); }
  }

  /** The byte length is exact: n fits in it, and in no fewer bytes. */
  lemma {:induction false} ByteLengthExact(n: nat)
    ensures n < Pow256(ByteLength(n))
    ensures n > 0 ==> ByteLength(n) > 0 && Pow256(ByteLength(n) - 1) <= n
  {
    if n == 0 {
    } else if n < 256 {
      assert Pow(2, 8) == 256;
      BitLengthBound(n, 8);
      assert ByteLength(n) == 1;
      assert Pow256(1) == 256 * Pow256(0);
    } else {
      BitLengthShift(n);
      ByteLengthExact(n / 256);
      assert ByteLength(n) == 1 + ByteLength(n / 256);
    }
  }

  lemma ByteLengthUnique(n: nat, k: nat)
    requires n < Pow256(k)
    requires k > 0 ==> Pow256(k - 1) <= n
    ensures k == ByteLength(n)
  {
    ByteLengthExact(n);
    if k < ByteLength(n) {
      Pow256Mono(k, ByteLength(n) - 1);
    } else if ByteLength(n) < k {
      Pow256Mono(ByteLength(n), k - 1);
    }
  }

  lemma ByteLengthMono(m: nat, n: nat)
    requires m <= n
    ensures ByteLength(m) <= ByteLength(n)
  {
    ByteLengthExact(m);
    ByteLengthExact(n);
    if ByteLength(n) < ByteLength(m) {
      Pow256Mono(ByteLength(n), ByteLength(m) - 1);
    }
  }

  /** `int_to_rlp_bytes`: the shortest big-endian form; zero is the empty string. */
  function IntToRlpBytes(n: nat): ByteSeq {
    ByteLengthExact(n);
    ToBE(n, ByteLength(n))
  }

  lemma IntToRlpBytesFits(n: nat, k: nat)
    requires n < Pow256(k)
    ensures |IntToRlpBytes(n)| <= k
  {
    ByteLengthExact(n);
    if ByteLength(n) > k { Pow256Mono(k, ByteLength(n) - 1); }
  }

  predicate NoLeadingZero(s: ByteSeq) {
    s == [] || s[0] != 0
  }

  lemma ByteLengthNoLeadingZero(s: ByteSeq)
    requires |s| == ByteLength(FromBE(s))
    ensures NoLeadingZero(s)
  {
    if s != [] && s[0] == 0 {
      var t := s[1..];
      assert s == [0] + t;
      FromBEConcat([0], t);
      FromBEBound(t);
      assert FromBE([0]) == 0;
      ByteLengthExact(FromBE(s));
    }
  }

  /** `int_to_rlp_bytes` is the one string without a leading zero byte that denotes n. */
  lemma IntToRlpBytesUnique(n: nat, s: ByteSeq)
    ensures s == IntToRlpBytes(n) <==> NoLeadingZero(s) && FromBE(s) == n
  {
    ByteLengthExact(n);
    FromToBE(n, ByteLength(n));
    if s == IntToRlpBytes(n) {
      ByteLengthNoLeadingZero(s);
    }
    if NoLeadingZero(s) && FromBE(s) == n {
      FromBEBound(s);
      if s != [] { FromBELow(s); }
      ByteLengthUnique(n, |s|);
      ToFromBE(s);
    }
  }

  lemma IntToRlpBytesInjective(m: nat, n: nat)
    requires IntToRlpBytes(m) == IntToRlpBytes(n)
    ensures m == n
  {
    IntToRlpBytesUnique(m, IntToRlpBytes(m));
    IntToRlpBytesUnique(n, IntToRlpBytes(n));
  }

  // ----- parts of byte strings -----

  /** `bs` stands in `c` from `lo` on. */
  ghost predicate Section(c: ByteSeq, lo: nat, bs: ByteSeq) {
    lo + |bs| <= |c| && c[lo..lo + |bs|] == bs
  }

  lemma SectionOfSection(c: ByteSeq, lo: nat, part: ByteSeq, inner: nat, bs: ByteSeq)
    requires Section(c, lo, part) && Section(part, inner, bs)
    ensures Section(c, lo + inner, bs)
  {
    forall i | 0 <= i < |bs|
      ensures c[lo + inner + i] == bs[i]
    {
      assert c[lo + (inner + i)] == c[lo..lo + |part|][inner + i];
      assert part[inner + i] == part[inner..inner + |bs|][i];
    }
  }

  lemma SectionByte(c: ByteSeq, lo: nat, bs: ByteSeq, i: nat)
    requires Section(c, lo, bs) && i < |bs|
    ensures lo + i < |c| && c[lo + i] == bs[i]
  {
    assert c[lo + i] == c[lo..lo + |bs|][i];
  }
}
