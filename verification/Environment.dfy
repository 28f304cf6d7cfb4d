/** What lies outside the model: the hash, public-key recovery, and how far a bytearray can grow. */
module Environment {
  import opened Bytes
  import opened Rlp

  datatype Env = Env(keccak: ByteSeq -> Hash, ecrecover: (Hash, int, nat, nat) -> Option<Address>, maxMemory: nat)

  /** Two different strings with one hash. */
  ghost predicate Collision(env: Env, x: ByteSeq, y: ByteSeq) {
    x != y && env.keccak(x) == env.keccak(y)
  }

  /** Two different strings whose hashes give one address. */
  ghost predicate AddressCollision(env: Env, x: ByteSeq, y: ByteSeq) {
    x != y && env.keccak(x)[12..] == env.keccak(y)[12..]
  }

  function CreationPreimage(sender: ByteSeq, nonce: nat): Option<ByteSeq> {
    RlpEncode(List([Str(sender), Str(IntToRlpBytes(nonce))]))
  }

  /** `compute_contract_address`; None when RLP cannot encode the sender. */
  function ContractAddress(env: Env, sender: ByteSeq, nonce: nat): Option<Address> {
    var encoded :- CreationPreimage(sender, nonce);
    Some(env.keccak(encoded)[12..])
  }

  /** What is hashed for a new contract's address determines its creator and the creator's nonce. */
  lemma CreationPreimageInjective(a: ByteSeq, m: nat, b: ByteSeq, n: nat)
    requires CreationPreimage(a, m).Some? && CreationPreimage(a, m) == CreationPreimage(b, n)
    ensures a == b && m == n
  {
    hide RlpEncode, IntToRlpBytes;
    var x, y := [Str(a), Str(IntToRlpBytes(m))], [Str(b), Str(IntToRlpBytes(n))];
    ListInjective(x, y);
    assert x[0] == y[0] && x[1] == y[1];
    IntToRlpBytesInjective(m, n);
  }

  /** Two creations with one address are the same creation, or their preimages collide. */
  lemma OneAddressOneCreation(env: Env, a: ByteSeq, m: nat, b: ByteSeq, n: nat)
    requires ContractAddress(env, a, m).Some? && ContractAddress(env, a, m) == ContractAddress(env, b, n)
    ensures CreationPreimage(a, m).Some? && CreationPreimage(b, n).Some?
    ensures (a == b && m == n) ||
      AddressCollision(env, CreationPreimage(a, m).value, CreationPreimage(b, n).value)
  {
    hide CreationPreimage;
    if CreationPreimage(a, m) == CreationPreimage(b, n) { CreationPreimageInjective(a, m, b, n); }
  }

  lemma ShortStringEncodes(s: ByteSeq)
    requires |s| <= 54
    ensures RlpEncode(Str(s)).Some? && |RlpEncode(Str(s)).value| <= |s| + 1
  {}

  lemma ShortPairEncodes(a: ByteSeq, b: ByteSeq)
    requires |a| + |b| <= 53
    ensures RlpEncode(List([Str(a), Str(b)])).Some?
  {
    hide EncodeString, LongPrefix;
    ShortStringEncodes(a);
    ShortStringEncodes(b);
    var xs := [Str(a), Str(b)];
    assert xs[1..] == [Str(b)] && [Str(b)][1..] == [];
    assert EncodeAll([Str(b)]).Some? && |EncodeAll([Str(b)]).value| <= |b| + 1;
    assert EncodeAll(xs).Some? && |EncodeAll(xs).value| <= 55;
  }

  /** An account with a 20-byte address and a nonce below 2^256 can always derive a contract address. */
  lemma AddressDerivable(env: Env, a: ByteSeq, n: nat)
    requires |a| == 20 && n < Pow256(32)
    ensures ContractAddress(env, a, n).Some?
  {
    hide IntToRlpBytes, RlpEncode, Pow256;
    IntToRlpBytesFits(n, 32);
    ShortPairEncodes(a, IntToRlpBytes(n));
  }
}
