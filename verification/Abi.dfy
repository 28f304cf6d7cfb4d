/** ABI calldata: selectors, words, and how a contract reads them back. */
module Abi {
  import opened Bytes
  import opened Words
  import opened Environment
  import opened Evm

  predicate IsAscii(s: string) {
    forall i :: 0 <= i < |s| ==> s[i] < 128 as char
  }

  function Encode(s: string): ByteSeq
    requires IsAscii(s)
  {
    seq(|s|, i requires 0 <= i < |s| => s[i] as int)
  }

  function ComputeSelector(env: Env, signature: string): (r: ByteSeq)
    requires IsAscii(signature)
    ensures |r| == 4
  {
    env.keccak(Encode(signature))[..4]
  }

  /** None stands for the ValueError of a value above the word range. */
  function EncodeUint256(v: nat): (r: Option<ByteSeq>)
    ensures r.Some? ==> |r.value| == 32
  {
    if IsWord(v) then Some(WordBytes(v)) else None
  }

  /** None stands for the ValueError of an address that is not 20 bytes. */
  function EncodeAddress(a: ByteSeq): (r: Option<ByteSeq>)
    ensures r.Some? ==> |r.value| == 32
  {
    if |a| == 20 then Some(Zeros(12) + a) else None
  }

  /** The word a contract finds at byte `off` of its calldata. */
  function CallWord(data: ByteSeq, off: nat): nat {
    FromBE(Window(data, off, 32))
  }

  /** 2^224: dividing the first word by it leaves the selector. */
  function SelectorShift(): (n: nat)
    ensures n > 0
  {
    Pow256(28)
  }

  /** The dispatcher's view of calldata: its first four bytes. */
  function SelectorOf(data: ByteSeq): nat {
    Quotient(CallWord(data, 0), SelectorShift())
  }

  lemma FromBESelectorWord(sel: ByteSeq, rest: ByteSeq)
    requires |sel| == 4 && |rest| == 28
    ensures FromBE(sel + rest) / SelectorShift() == FromBE(sel)
  {
    hide FromBE, Pow256;
    FromBEConcat(sel, rest);
    FromBEBound(rest);
    QuotientOf(FromBE(sel), SelectorShift(), FromBE(rest));
  }

  lemma QuotientOf(q: nat, d: nat, r: nat)
    requires r < d
    ensures (q * d + r) / d == q
  {
    var n := q * d + r;
    var k := n / d;
    assert n == d * k + n % d;
    assert q * d + r == k * d + n % d;
    if k < q { MulGap(q, k, d); } else if q < k { MulGap(k, q, d); }
  }

  lemma MulGap(a: nat, b: nat, d: nat)
    requires a > b
    ensures a * d >= b * d + d
  {
    Distribute(b + 1, a - b - 1, d);
    Distribute(b, 1, d);
  }

  lemma Distribute(x: nat, y: nat, d: nat)
    ensures (x + y) * d == x * d + y * d
  {}

  /** Calldata made of a selector and encoded words is read back by the dispatcher's DIV and by CALLDATALOAD. */
  lemma SelectorReadsBack(sel: ByteSeq, args: ByteSeq)
    requires |sel| == 4 && |args| >= 28
    ensures SelectorOf(sel + args) == FromBE(sel)
  {
    hide FromBE, SelectorShift;
    assert Window(sel + args, 0, 32) == sel + args[..28];
    FromBESelectorWord(sel, args[..28]);
  }

  lemma ArgumentReadsBack(before: ByteSeq, arg: ByteSeq, after: ByteSeq)
    requires |arg| == 32
    ensures CallWord(before + arg + after, |before|) == FromBE(arg)
  {
    hide FromBE;
    assert Window(before + arg + after, |before|, 32) == arg;
  }

  lemma EncodedAddressValue(a: ByteSeq)
    requires |a| == 20
    ensures FromBE(EncodeAddress(a).value) == FromBE(a)
  {
    hide FromBE, Pow256;
    FromBEConcat(Zeros(12), a);
    FromBEZeros(12);
  }
}
