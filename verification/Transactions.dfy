/** Signed transactions: the signed preimage, sender recovery, and validation. */
module Transactions {
  import opened Bytes
  import opened Rlp
  import opened Environment
  import opened Accounts

  datatype Transaction = Transaction(
    nonce: nat, gasPrice: nat, gas: nat, to: ByteSeq, value: nat, data: ByteSeq, v: int, r: nat, s: nat)
  {
    predicate IsSigned() { v != 0 && r != 0 && s != 0 }

    function UnsignedFields(): seq<Item> {
      [Str(IntToRlpBytes(nonce)), Str(IntToRlpBytes(gasPrice)), Str(IntToRlpBytes(gas)), Str(to),
       Str(IntToRlpBytes(value)), Str(data)]
    }

    /** What gets hashed and signed. */
    function SigningPreimage(): Option<ByteSeq> {
      RlpEncode(List(UnsignedFields()))
    }
  }

  /** `recover_sender`; None stands for its exceptions. */
  function RecoverSender(env: Env, tx: Transaction): Option<Address> {
    if !tx.IsSigned() then None else
      var preimage :- tx.SigningPreimage();
      env.ecrecover(env.keccak(preimage), tx.v - 27, tx.r, tx.s)
  }

  /** The signed preimage determines all six unsigned fields. */
  lemma SigningPreimageInjective(a: Transaction, b: Transaction)
    requires a.SigningPreimage().Some? && a.SigningPreimage() == b.SigningPreimage()
    ensures a == b.(v := a.v, r := a.r, s := a.s)
  {
    hide RlpEncode, IntToRlpBytes;
    var x, y := a.UnsignedFields(), b.UnsignedFields();
    ListInjective(x, y);
    assert x[0] == y[0] && x[1] == y[1] && x[2] == y[2] && x[3] == y[3] && x[4] == y[4] && x[5] == y[5];
    IntToRlpBytesInjective(a.nonce, b.nonce);
    IntToRlpBytesInjective(a.gasPrice, b.gasPrice);
    IntToRlpBytesInjective(a.gas, b.gas);
    IntToRlpBytesInjective(a.value, b.value);
  }

  /** Equal signing hashes mean equal intents, or an explicit hash collision. */
  lemma SigningHashBindsIntent(env: Env, a: Transaction, b: Transaction)
    requires a.SigningPreimage().Some? && b.SigningPreimage().Some?
    requires env.keccak(a.SigningPreimage().value) == env.keccak(b.SigningPreimage().value)
    ensures a == b.(v := a.v, r := a.r, s := a.s)
         || Collision(env, a.SigningPreimage().value, b.SigningPreimage().value)
  {
    if a.SigningPreimage() == b.SigningPreimage() { SigningPreimageInjective(a, b); }
  }

  // ----- validation -----

  datatype TxError = InvalidSignature | InvalidNonce | InsufficientBalance | ExceedsBlockGasLimit | IntrinsicGasTooLow

  datatype Validation = Valid(sender: Address) | Invalid(error: TxError)

  /** 21000 plus 4 for each zero byte and 16 for each other byte. */
  function IntrinsicGas(data: ByteSeq): nat {
    if data == [] then 21000
    else IntrinsicGas(data[..|data| - 1]) + (if data[|data| - 1] == 0 then 4 else 16)
  }

  method CalculateIntrinsicGas(data: ByteSeq) returns (gas: nat)
    ensures gas == IntrinsicGas(data)
  {
    gas := 21000;
    for i := 0 to |data|
      invariant gas == IntrinsicGas(data[..i])
    {
      assert data[..i + 1][..i] == data[..i];
      if data[i] == 0 { gas := gas + 4; } else { gas := gas + 16; }
    }
    assert data[..|data|] == data;
  }

  function CountZeros(data: ByteSeq): (n: nat)
    ensures n <= |data|
  {
    if data == [] then 0 else CountZeros(data[..|data| - 1]) + (if data[|data| - 1] == 0 then 1 else 0)
  }

  lemma {:induction false} IntrinsicGasByCount(data: ByteSeq)
    ensures IntrinsicGas(data) == 21000 + 4 * CountZeros(data) + 16 * (|data| - CountZeros(data))
  {
    if data != [] { IntrinsicGasByCount(data[..|data| - 1]); }
  }

  /** What an amount of gas costs at a price. */
  function Fee(gas: nat, price: nat): nat {
    gas * price
  }

  /** The five checks in order; a valid transaction can pay for everything it may spend. */
  function Validate(env: Env, tx: Transaction, w: World, blockGasLimit: nat): (r: Validation)
    ensures r.Valid? <==>
      && RecoverSender(env, tx).Some?
      && var sender := RecoverSender(env, tx).value;
      && Get(w, sender).nonce == tx.nonce
      && tx.value + Fee(tx.gas, tx.gasPrice) <= Get(w, sender).balance
      && IntrinsicGas(tx.data) <= tx.gas <= blockGasLimit
    ensures r.Valid? ==> Some(r.sender) == RecoverSender(env, tx)
  {
    match RecoverSender(env, tx)
    case None => Invalid(InvalidSignature)
    case Some(sender) =>
      var account := Get(w, sender);
      if account.nonce != tx.nonce then Invalid(InvalidNonce)
      else if account.balance < tx.value + Fee(tx.gas, tx.gasPrice) then Invalid(InsufficientBalance)
      else if tx.gas > blockGasLimit then Invalid(ExceedsBlockGasLimit)
      else if tx.gas < IntrinsicGas(tx.data) then Invalid(IntrinsicGasTooLow)
      else Valid(sender)
  }
}
