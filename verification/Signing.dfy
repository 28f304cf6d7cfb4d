/** Signing and recovery: what the sender that a transaction recovers to has signed. */
module Signing {
  import opened Bytes
  import opened Environment
  import opened Accounts
  import opened Transactions

  /** An ECDSA scheme: private keys with their addresses, and signatures of hashes as (recovery id, r, s). */
  datatype Scheme = Scheme(address: nat -> Address, sign: (nat, Hash) -> (nat, nat, nat))

  /** The two facts about secp256k1 that transactions rely on: a signature is made of non-zero numbers, and recovering
      from it gives its signer's address for the hash that was signed, and for no other hash. */
  ghost predicate Recovers(env: Env, scheme: Scheme) {
    forall key: nat, hash: Hash, h: Hash :: RecoversOnly(env, scheme, key, hash, h)
  }

  ghost predicate RecoversOnly(env: Env, scheme: Scheme, key: nat, hash: Hash, h: Hash) {
    var (id, r, s) := scheme.sign(key, hash);
    r != 0 && s != 0 && (env.ecrecover(h, id, r, s) == Some(scheme.address(key)) <==> h == hash)
  }

  /** `sign_transaction`; None when RLP cannot encode the fields. */
  function SignTransaction(env: Env, scheme: Scheme, key: nat, tx: Transaction): Option<Transaction> {
    var preimage :- tx.SigningPreimage();
    var (id, r, s) := scheme.sign(key, env.keccak(preimage));
    Some(tx.(v := id + 27, r := r, s := s))
  }

  lemma SamePreimage(tx: Transaction, signed: Transaction)
    requires signed == tx.(v := signed.v, r := signed.r, s := signed.s)
    ensures signed.SigningPreimage() == tx.SigningPreimage()
  {}

  lemma RecoversInstance(env: Env, scheme: Scheme, key: nat, hash: Hash, h: Hash)
    requires Recovers(env, scheme)
    ensures RecoversOnly(env, scheme, key, hash, h)
  {}

  /** A signed transaction keeps the six fields it signs and recovers to its signer. */
  lemma SignedRecovers(env: Env, scheme: Scheme, key: nat, tx: Transaction)
    requires Recovers(env, scheme) && SignTransaction(env, scheme, key, tx).Some?
    ensures var signed := SignTransaction(env, scheme, key, tx).value;
      && signed == tx.(v := signed.v, r := signed.r, s := signed.s) && signed.IsSigned()
      && RecoverSender(env, signed) == Some(scheme.address(key))
  {
    var signed := SignTransaction(env, scheme, key, tx).value;
    assert signed.SigningPreimage() == tx.SigningPreimage();
    var hash := env.keccak(tx.SigningPreimage().value);
    var (id, r, s) := scheme.sign(key, hash);
    RecoversInstance(env, scheme, key, hash, hash);
  }

  /** Whatever is changed in a signed transaction but its signature, it no longer recovers to its signer, or the two
      signing preimages collide. */
  lemma AlteredIsNotSigned(env: Env, scheme: Scheme, key: nat, tx: Transaction, altered: Transaction)
    requires Recovers(env, scheme) && SignTransaction(env, scheme, key, tx).Some?
    requires var signed := SignTransaction(env, scheme, key, tx).value;
      altered.v == signed.v && altered.r == signed.r && altered.s == signed.s
    ensures var signed := SignTransaction(env, scheme, key, tx).value;
      RecoverSender(env, altered) == Some(scheme.address(key)) <==>
        || altered == signed
        || (altered.SigningPreimage().Some?
            && Collision(env, altered.SigningPreimage().value, signed.SigningPreimage().value))
  {
    hide Transaction.SigningPreimage, Recovers;
    SignedRecovers(env, scheme, key, tx);
    var signed := SignTransaction(env, scheme, key, tx).value;
    SamePreimage(tx, signed);
    var hash := env.keccak(tx.SigningPreimage().value);
    var (id, r, s) := scheme.sign(key, hash);
    if altered.SigningPreimage().Some? {
      var h := env.keccak(altered.SigningPreimage().value);
      RecoversInstance(env, scheme, key, hash, h);
      if h == hash { SigningHashBindsIntent(env, altered, signed); }
    }
  }

  /** So a transaction that validates as its signer's says what the signer signed, nonce, gas, recipient, value and
      data,
      or a collision is exhibited. */
  lemma ValidSaysWhatWasSigned(env: Env, scheme: Scheme, key: nat, tx: Transaction, altered: Transaction, w: World,
                               limit: nat)
    requires Recovers(env, scheme) && SignTransaction(env, scheme, key, tx).Some?
    requires var signed := SignTransaction(env, scheme, key, tx).value;
      altered.v == signed.v && altered.r == signed.r && altered.s == signed.s
    requires Validate(env, altered, w, limit) == Valid(scheme.address(key))
    ensures altered == tx.(v := altered.v, r := altered.r, s := altered.s)
         || (altered.SigningPreimage().Some? && tx.SigningPreimage().Some?
             && Collision(env, altered.SigningPreimage().value, tx.SigningPreimage().value))
  {
    hide RecoverSender, IntrinsicGas, Fee;
    SignedRecovers(env, scheme, key, tx);
    AlteredIsNotSigned(env, scheme, key, tx, altered);
    var signed := SignTransaction(env, scheme, key, tx).value;
    assert signed.SigningPreimage() == tx.SigningPreimage();
  }
}
