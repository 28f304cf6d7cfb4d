/** Who pays whom: every account's balance after a transaction, and who gets the unused gas back. */
module Payments {
  import opened Bytes
  import opened Environment
  import opened Accounts
  import opened Transactions
  import opened Evm
  import opened EvmInvariants
  import opened WorldInvariants
  import opened Limits
  import opened StateTransition

  /** Who is paid by a transaction that succeeds: the recipient, or the contract it creates. */
  function Payee(env: Env, tx: Transaction): Option<ByteSeq>
    requires RecoverSender(env, tx).Some?
  {
    if tx.to == [] then ContractAddress(env, Sender(env, tx), tx.nonce) else Some(tx.to)
  }

  /** What an account should hold afterwards: the sender pays for the gas used and, if the transaction succeeds, the
      value, which goes to the payee. */
  function Due(env: Env, tx: Transaction, w: World, r: Receipt, a: ByteSeq): int
    requires RecoverSender(env, tx).Some?
  {
    Get(w, a).balance
    - (if a == Sender(env, tx) then Fee(r.gasUsed, tx.gasPrice) else 0)
    - (if a == Sender(env, tx) && r.success then tx.value else 0)
    + (if Some(a) == Payee(env, tx) && r.success then tx.value else 0)
  }

  /** The frame that a transaction starts on the charged state, if it gets to start one. */
  function PayloadFrame(env: Env, tx: Transaction, sender: ByteSeq, w: World, gas: nat): Option<Visit> {
    if tx.to == [] then
      var address :- ContractAddress(env, sender, tx.nonce);
      var w1 :- Transfer(AddBalance(w, address, 0), sender, address, tx.value);
      Some(Visit(Job(tx.data, Context(sender, address, tx.value, []), true), Fresh(gas, map[]), w1))
    else if Get(w, tx.to).code == [] then None
    else
      var w1 :- Transfer(w, sender, tx.to, tx.value);
      Some(Visit(Job(Get(w, tx.to).code, Context(sender, tx.to, tx.value, tx.data), true),
                 Fresh(gas, Get(w, tx.to).storage), w1))
  }

  function Charged(env: Env, tx: Transaction, w: World, limit: nat): World
    requires Validate(env, tx, w, limit).Valid?
  {
    Charge(w, Sender(env, tx), Fee(tx.gas, tx.gasPrice))
  }

  /** The code that the transaction runs, if any, leaves the world as it finds it. */
  ghost predicate Calm(env: Env, tx: Transaction, w: World, limit: nat)
    requires Validate(env, tx, w, limit).Valid?
  {
    var v := PayloadFrame(env, tx, Sender(env, tx), Charged(env, tx, w, limit), tx.gas - IntrinsicGas(tx.data));
    v.Some? ==> Run(env, v.value.job, v.value.f, v.value.w).w == v.value.w
  }

  /** The code that the transaction runs, if any, carries out no CALL and no CREATE. */
  ghost predicate QuietPayload(env: Env, tx: Transaction, w: World, limit: nat)
    requires Validate(env, tx, w, limit).Valid?
  {
    var v := PayloadFrame(env, tx, Sender(env, tx), Charged(env, tx, w, limit), tx.gas - IntrinsicGas(tx.data));
    v.Some? ==> Quiet(env, v.value.job, v.value.f, v.value.w)
  }

  lemma QuietIsCalm(env: Env, tx: Transaction, w: World, limit: nat)
    requires Validate(env, tx, w, limit).Valid? && QuietPayload(env, tx, w, limit)
    ensures Calm(env, tx, w, limit)
  {
    hide Run, Quiet, PayloadFrame, IntrinsicGas, Fee;
    var v := PayloadFrame(env, tx, Sender(env, tx), Charged(env, tx, w, limit), tx.gas - IntrinsicGas(tx.data));
    if v.Some? { QuietRun(env, v.value.job, v.value.f, v.value.w); }
  }

  // ----- the payload -----

  lemma TransferBalances(w: World, sender: ByteSeq, recipient: ByteSeq, amount: nat, a: ByteSeq)
    requires Transfer(w, sender, recipient, amount).Some?
    ensures Get(Transfer(w, sender, recipient, amount).value, a).balance ==
      Get(w, a).balance - (if a == sender then amount else 0) + (if a == recipient then amount else 0)
  {}

  lemma DeployBalances(w: World, address: ByteSeq, code: ByteSeq, storage: map<nat, nat>, a: ByteSeq)
    ensures Get(Deploy(w, address, code, storage), a).balance == Get(w, a).balance
  {}

  lemma PersistBalances(w: World, address: ByteSeq, storage: map<nat, nat>, a: ByteSeq)
    ensures Get(Persist(w, address, storage), a).balance == Get(w, a).balance
  {}

  /** What a payload that succeeds moves, when its code leaves the world alone. */
  lemma PayloadBalances(env: Env, tx: Transaction, sender: ByteSeq, w: World, gas: nat, a: ByteSeq)
    requires var v := PayloadFrame(env, tx, sender, w, gas);
      v.Some? ==> Run(env, v.value.job, v.value.f, v.value.w).w == v.value.w
    ensures var p := Execute(env, tx, sender, w, gas);
      var payee := if tx.to == [] then ContractAddress(env, sender, tx.nonce) else Some(tx.to);
      p.Finished? && p.success ==>
        Get(p.w, a).balance ==
          Get(w, a).balance - (if a == sender then tx.value else 0) + (if Some(a) == payee then tx.value else 0)
  {
    hide Run, Transfer, ContractAddress, Persist, SetCode;
    var p := Execute(env, tx, sender, w, gas);
    if p.Finished? && p.success {
      if tx.to == [] {
        var address := ContractAddress(env, sender, tx.nonce).value;
        var w1 := AddBalance(w, address, 0);
        assert Get(w1, a).balance == Get(w, a).balance;
        TransferBalances(w1, sender, address, tx.value, a);
        var o := Run(env, Job(tx.data, Context(sender, address, tx.value, []), true), Fresh(gas, map[]),
                     Transfer(w1, sender, address, tx.value).value);
        DeployBalances(o.w, address, o.f.ret, o.f.storage, a);
      } else {
        TransferBalances(w, sender, tx.to, tx.value, a);
        if Get(w, tx.to).code != [] {
          var v := PayloadFrame(env, tx, sender, w, gas).value;
          var o := Run(env, v.job, v.f, v.w);
          PersistBalances(o.w, tx.to, o.f.storage, a);
        }
      }
    }
  }

  // ----- settlement -----

  /** Whatever the payload did: after a success the sender has the unused gas back, and nothing else differs from the
      world the payload left. */
  lemma UnusedGasGoesBack(env: Env, tx: Transaction, w: World, limit: nat, a: ByteSeq)
    requires Validate(env, tx, w, limit).Valid?
    ensures var r := Apply(env, tx, w, limit);
      var p := Execute(env, tx, Sender(env, tx), Charged(env, tx, w, limit), tx.gas - IntrinsicGas(tx.data));
      && (r.receipt.success <==> p.Finished? && p.success)
      && (r.receipt.success ==>
           && r.receipt.gasRemaining == p.gasRemaining
           && Get(r.w, a) ==
                if a == Sender(env, tx)
                then Get(p.w, a).(balance := Get(p.w, a).balance + Fee(r.receipt.gasRemaining, tx.gasPrice))
                else Get(p.w, a))
  {
    hide Execute, IntrinsicGas, Charge, Fee;
  }

  /** Every account's balance after any transaction whose code leaves the world alone, by which account it is. */
  lemma BalancesAreDue(env: Env, tx: Transaction, w: World, limit: nat, a: ByteSeq)
    requires Validate(env, tx, w, limit).Valid?
    ensures var r := Apply(env, tx, w, limit);
      Calm(env, tx, w, limit) ==> Get(r.w, a).balance == Due(env, tx, w, r.receipt, a)
    ensures QuietPayload(env, tx, w, limit) ==> Calm(env, tx, w, limit)
  {
    hide Execute, IntrinsicGas, Fee, Calm, QuietPayload, Settled;
    if QuietPayload(env, tx, w, limit) { QuietIsCalm(env, tx, w, limit); }
    if Calm(env, tx, w, limit) { CalmBalances(env, tx, w, limit, a); }
  }

  lemma ChargedBalances(env: Env, tx: Transaction, w: World, limit: nat, a: ByteSeq)
    requires Validate(env, tx, w, limit).Valid?
    ensures Get(Charged(env, tx, w, limit), a).balance ==
      Get(w, a).balance - (if a == Sender(env, tx) then Fee(tx.gas, tx.gasPrice) else 0)
  {
    hide IntrinsicGas, Fee;
  }

  lemma CalmBalances(env: Env, tx: Transaction, w: World, limit: nat, a: ByteSeq)
    requires Validate(env, tx, w, limit).Valid? && Calm(env, tx, w, limit)
    ensures var r := Apply(env, tx, w, limit);
      Get(r.w, a).balance == Due(env, tx, w, r.receipt, a)
  {
    hide Execute, IntrinsicGas, Fee, PayloadFrame, Charged, Validate, Apply, Run;
    AppliedWhenValid(env, tx, w, limit);
    var gas := tx.gas - IntrinsicGas(tx.data);
    var r := Apply(env, tx, w, limit);
    ChargedBalances(env, tx, w, limit, a);
    PayloadBalances(env, tx, Sender(env, tx), Charged(env, tx, w, limit), gas, a);
    UnusedGasGoesBack(env, tx, w, limit, a);
    GasAccounting(env, tx, w, limit);
    FailureOnlyCharges(env, tx, w, limit);
    if r.receipt.success {
      RefundArithmetic(tx.gas, r.receipt.gasRemaining, tx.gasPrice);
    }
  }

  /** When the frame of a transaction leaves the world alone, the receipt and all balances follow. */
  lemma SettledAround(env: Env, tx: Transaction, w: World, limit: nat, o: Outcome)
    requires Validate(env, tx, w, limit).Valid?
    requires var v := PayloadFrame(env, tx, Sender(env, tx), Charged(env, tx, w, limit),
        tx.gas - IntrinsicGas(tx.data));
      v.Some? ==> o == Run(env, v.value.job, v.value.f, v.value.w) && o.w == v.value.w
    ensures var r := Apply(env, tx, w, limit);
      && r.Applied? && r.receipt.gasUsed + r.receipt.gasRemaining == tx.gas
      && forall a :: Get(r.w, a).balance == Due(env, tx, w, r.receipt, a)
  {
    hide Run, IntrinsicGas, Apply, Charged, Validate, Due, PayloadFrame;
    AppliedWhenValid(env, tx, w, limit);
    GasAccounting(env, tx, w, limit);
    forall a ensures Get(Apply(env, tx, w, limit).w, a).balance ==
        Due(env, tx, w, Apply(env, tx, w, limit).receipt, a) {
      CalmBalances(env, tx, w, limit, a);
    }
  }

  /** A failed transaction leaves every storage as it was. */
  lemma FailedStorage(env: Env, tx: Transaction, w: World, limit: nat, a: ByteSeq)
    requires Validate(env, tx, w, limit).Valid?
    ensures var r := Apply(env, tx, w, limit);
      r.Applied? && (!r.receipt.success ==> Get(r.w, a).storage == Get(w, a).storage)
  {
    hide Apply, Fee;
    AppliedWhenValid(env, tx, w, limit);
    FailureOnlyCharges(env, tx, w, limit);
  }

  // ----- plain payments -----

  /** A valid transaction to an account without code always succeeds, uses the intrinsic gas and no more, and pays: to
      every account, self-payment included, exactly what is due. Nothing else changes but the sender's nonce. */
  lemma PlainPayment(env: Env, tx: Transaction, w: World, limit: nat, a: ByteSeq)
    requires Validate(env, tx, w, limit).Valid? && tx.to != [] && Get(w, tx.to).code == []
    ensures var r := Apply(env, tx, w, limit); var sender := Sender(env, tx);
      && r.receipt.success && r.receipt.gasUsed == IntrinsicGas(tx.data) && r.receipt.returnData == []
      && Get(r.w, a).balance ==
           Get(w, a).balance - (if a == sender then tx.value + Fee(IntrinsicGas(tx.data), tx.gasPrice) else 0)
                             + (if a == tx.to then tx.value else 0)
      && Get(r.w, a).nonce == Get(w, a).nonce + (if a == sender then 1 else 0)
      && Get(r.w, a).code == Get(w, a).code && Get(r.w, a).storage == Get(w, a).storage
  {
    hide IntrinsicGas, Fee, Transfer, Apply, Charged, Execute, Validate, PayloadFrame;
    var sender, charged, gas := Sender(env, tx), Charged(env, tx, w, limit), tx.gas - IntrinsicGas(tx.data);
    PlainPayload(env, tx, w, limit);
    AppliedWhenValid(env, tx, w, limit);
    ChargedAccount(env, tx, w, limit, a);
    TransferKeepsCode(charged, sender, tx.to, tx.value, a);
    UnusedGasGoesBack(env, tx, w, limit, a);
    GasAccounting(env, tx, w, limit);
    CalmBalances(env, tx, w, limit, a);
    Returned(env, tx, w, limit);
  }

  lemma PlainPayload(env: Env, tx: Transaction, w: World, limit: nat)
    requires Validate(env, tx, w, limit).Valid? && tx.to != [] && Get(w, tx.to).code == []
    ensures var sender := Sender(env, tx); var charged := Charged(env, tx, w, limit);
      var gas := tx.gas - IntrinsicGas(tx.data); var paid := Transfer(charged, sender, tx.to, tx.value);
      && paid.Some? && Execute(env, tx, sender, charged, gas) == Finished(true, [], gas, None, paid.value)
      && Calm(env, tx, w, limit)
  {
    hide IntrinsicGas, Fee, Transfer, Charged, ExecuteCreate, ExecuteContractCall;
    ChargedAccount(env, tx, w, limit, tx.to);
    ChargedAccount(env, tx, w, limit, Sender(env, tx));
    CoversValue(Charged(env, tx, w, limit), Sender(env, tx), tx.to, tx.value);
  }

  /** What the payload returns is what the receipt says, whether it succeeded or reverted. */
  lemma Returned(env: Env, tx: Transaction, w: World, limit: nat)
    requires Validate(env, tx, w, limit).Valid?
    ensures var r := Apply(env, tx, w, limit).receipt;
      var p := Execute(env, tx, Sender(env, tx), Charged(env, tx, w, limit), tx.gas - IntrinsicGas(tx.data));
      && r.returnData == (if p.Finished? then p.returnData else [])
      && (r.success ==> r.contractAddress == p.contractAddress && r.error == None)
      && (!r.success ==> r.error == Some(if p.Crashed? then Exception(p.e) else ExecutionFailed))
  {
    hide Execute, IntrinsicGas, Charge, Fee;
  }

  lemma ChargedAccount(env: Env, tx: Transaction, w: World, limit: nat, a: ByteSeq)
    requires Validate(env, tx, w, limit).Valid?
    ensures var c := Get(Charged(env, tx, w, limit), a); var before := Get(w, a);
      && c.code == before.code && c.storage == before.storage
      && (if a == Sender(env, tx)
          then c.nonce == before.nonce + 1 && c.balance == before.balance - Fee(tx.gas, tx.gasPrice) >= tx.value
          else c == before)
  {
    hide IntrinsicGas, Fee;
  }

  lemma CoversValue(w: World, sender: ByteSeq, recipient: ByteSeq, amount: nat)
    ensures Transfer(w, sender, recipient, amount).Some? <==> amount <= Get(w, sender).balance
  {}

  // ----- the program's side -----

  /** All balances are as due when the code run leaves the world alone, and a plain payment never fails. */
  ghost predicate PaysAsDue(env: Env, tx: Transaction, w: World, limit: nat, r: Receipt, after: World) {
    && Validate(env, tx, w, limit).Valid?
    && (Calm(env, tx, w, limit) ==> forall a :: Get(after, a).balance == Due(env, tx, w, r, a))
    && (tx.to != [] && Get(w, tx.to).code == [] ==> Calm(env, tx, w, limit) && r.success)
  }

  lemma ApplyPaysAsDue(env: Env, tx: Transaction, w: World, limit: nat)
    requires Validate(env, tx, w, limit).Valid?
    ensures var r := Apply(env, tx, w, limit); PaysAsDue(env, tx, w, limit, r.receipt, r.w)
  {
    hide Apply, Due, Calm, Validate;
    AppliedWhenValid(env, tx, w, limit);
    if Calm(env, tx, w, limit) {
      forall a ensures Get(Apply(env, tx, w, limit).w, a).balance ==
          Due(env, tx, w, Apply(env, tx, w, limit).receipt, a) {
        CalmBalances(env, tx, w, limit, a);
      }
    }
    if tx.to != [] && Get(w, tx.to).code == [] {
      PlainPayment(env, tx, w, limit, tx.to);
      PlainPayload(env, tx, w, limit);
    }
  }
}
