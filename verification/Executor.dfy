/** `apply_transaction` as the program runs it: snapshot, charge, execute, then revert or refund in place. */
module Executor {
  import opened Bytes
  import opened Environment
  import opened Accounts
  import opened Transactions
  import opened Evm
  import opened WorldStates
  import opened Machine
  import opened StateTransition
  import Payments

  datatype Execution = Execution(success: bool, returnData: ByteSeq, gasRemaining: nat,
                                 contractAddress: Option<Address>)

  /** The executed payload is the one given. */
  ghost predicate Performs(r: Try<Execution>, w: World, p: Payload) {
    match p
    case Finished(success, data, left, address, w1) => r == Good(Execution(success, data, left, address)) && w == w1
    case Crashed(e, w1) => r == Threw(e) && w == w1
  }

  method ValidateTransaction(env: Env, tx: Transaction, world: WorldState, blockGasLimit: nat) returns (r: Validation)
    requires world.Valid()
    ensures r == Validate(env, tx, world.contents, blockGasLimit)
  {
    var sender := RecoverSender(env, tx);
    if sender.None? { return Invalid(InvalidSignature); }
    var account := world.GetAccount(sender.value);
    if account.nonce != tx.nonce { return Invalid(InvalidNonce); }
    var totalCost := tx.value + Fee(tx.gas, tx.gasPrice);
    if account.balance < totalCost { return Invalid(InsufficientBalance); }
    if tx.gas > blockGasLimit { return Invalid(ExceedsBlockGasLimit); }
    var intrinsic := CalculateIntrinsicGas(tx.data);
    if tx.gas < intrinsic { return Invalid(IntrinsicGasTooLow); }
    return Valid(sender.value);
  }

  method ValueTransfer(tx: Transaction, sender: ByteSeq, world: WorldState, gas: nat) returns (r: Try<Execution>)
    requires world.Valid()
    modifies world
    ensures world.Valid()
    ensures Performs(r, world.contents, ExecuteValueTransfer(tx, sender, old(world.contents), gas))
  {
    hide WorldState.Valid, Transfer;
    var paid := world.TransferValue(sender, tx.to, tx.value);
    if !paid { return Threw(Unexpected); }
    return Good(Execution(true, [], gas, None));
  }

  method ContractCall(env: Env, tx: Transaction, sender: ByteSeq, world: WorldState, gas: nat)
    returns (r: Try<Execution>)
    requires world.Valid()
    modifies world
    ensures world.Valid()
    ensures Performs(r, world.contents, ExecuteContractCall(env, tx, sender, old(world.contents), gas))
  {
    hide WorldState.Valid, Transfer, Run, Persist, Represents, JumpDests;
    var contract := world.GetAccount(tx.to);
    ghost var callee := contract.Value();
    var paid := world.TransferValue(sender, tx.to, tx.value);
    if !paid { return Threw(Unexpected); }
    assert contract.Value() == callee;
    var contractStorage := new Storage(contract.storage.slots);
    var evm := new EVM(env, contract.code, Context(sender, tx.to, tx.value, tx.data), gas, contractStorage,
      true, world);
    ghost var w1 := world.contents;
    assert evm.AsJob() == Job(callee.code, Context(sender, tx.to, tx.value, tx.data), true);
    var result := evm.Execute();
    if result.Threw? {
      if result.error == OutOfGas { return Good(Execution(false, [], 0, None)); }
      return Threw(result.error);
    }
    if result.value.success { world.PersistStorage(tx.to, evm.storage.slots); }
    return Good(Execution(result.value.success, result.value.returnData, result.value.gasRemaining, None));
  }

  method Create(env: Env, tx: Transaction, sender: ByteSeq, world: WorldState, gas: nat) returns (r: Try<Execution>)
    requires world.Valid()
    modifies world
    ensures world.Valid()
    ensures Performs(r, world.contents, ExecuteCreate(env, tx, sender, old(world.contents), gas))
  {
    hide WorldState.Valid, Transfer, Run, Persist, SetCode, AddBalance, ContractAddress, Represents, JumpDests;
    var address := ContractAddress(env, sender, tx.nonce);
    if address.None? { return Threw(Unexpected); }
    world.AddTo(address.value, 0);
    var paid := world.TransferValue(sender, address.value, tx.value);
    if !paid { return Threw(Unexpected); }
    var emptyStorage := new Storage(map[]);
    var evm := new EVM(env, tx.data, Context(sender, address.value, tx.value, []), gas, emptyStorage, true, world);
    ghost var w2 := world.contents;
    var result := evm.Execute();
    if result.Threw? {
      if result.error == OutOfGas { return Good(Execution(false, [], 0, None)); }
      return Threw(result.error);
    }
    if !result.value.success {
      return Good(Execution(false, result.value.returnData, result.value.gasRemaining, None));
    }
    world.StoreCode(address.value, result.value.returnData);
    world.PersistStorage(address.value, evm.storage.slots);
    return Good(Execution(true, result.value.returnData, result.value.gasRemaining, Some(address.value)));
  }

  datatype Processed = Refused(error: TxError) | Processed(receipt: Receipt)

  /** Back to the snapshot, with only the fee and the nonce kept. */
  method RevertAndCharge(world: WorldState, snapshot: map<ByteSeq, AccountRecord>, ghost copies: set<Storage>,
                         ghost saved: World, sender: ByteSeq, fee: nat)
    requires world.Valid() && Represents(snapshot, copies, saved) && fee <= Get(saved, sender).balance
    modifies world
    ensures world.Valid() && world.contents == Charge(saved, sender, fee)
  {
    hide WorldState.Valid, Represents;
    world.Revert(snapshot, copies, saved);
    var ok := world.DeductFrom(sender, fee);
    assert ok;
    world.IncrementNonceOf(sender);
  }

  /** `after` is `before` except that the sender has paid for all its gas and used up its nonce. */
  ghost predicate RestoredButCharged(env: Env, tx: Transaction, before: World, after: World) {
    && RecoverSender(env, tx).Some?
    && var sender := Sender(env, tx);
      var account := Get(before, sender);
      && Fee(tx.gas, tx.gasPrice) <= account.balance
      && after == before[sender := account.(nonce := account.nonce + 1,
                                            balance := account.balance - Fee(tx.gas, tx.gasPrice))]
  }

  lemma RestoredWhenCharged(env: Env, tx: Transaction, before: World)
    requires RecoverSender(env, tx).Some? && Fee(tx.gas, tx.gasPrice) <= Get(before, Sender(env, tx)).balance
    ensures RestoredButCharged(env, tx, before, Charge(before, Sender(env, tx), Fee(tx.gas, tx.gasPrice)))
  {
    hide Fee;
  }

  /** Step 5: creation, contract call or plain transfer. */
  method ExecutePayload(env: Env, tx: Transaction, sender: ByteSeq, world: WorldState, gas: nat)
    returns (r: Try<Execution>)
    requires world.Valid()
    modifies world
    ensures world.Valid()
    ensures Performs(r, world.contents, Execute(env, tx, sender, old(world.contents), gas))
  {
    hide WorldState.Valid, ExecuteCreate, ExecuteContractCall, ExecuteValueTransfer;
    if tx.to == [] {
      r := Create(env, tx, sender, world, gas);
      return;
    }
    var recipient := world.GetAccount(tx.to);
    if recipient.Value().code != [] {
      r := ContractCall(env, tx, sender, world, gas);
    } else {
      r := ValueTransfer(tx, sender, world, gas);
    }
  }

  /** Steps 3 and 4: the sender pays for all its gas and uses up its nonce. */
  method ChargeUpfront(world: WorldState, sender: ByteSeq, fee: nat)
    requires world.Valid() && fee <= Get(world.contents, sender).balance
    modifies world
    ensures world.Valid() && world.contents == Charge(old(world.contents), sender, fee)
  {
    hide WorldState.Valid;
    var ok := world.DeductFrom(sender, fee);
    assert ok;
    world.IncrementNonceOf(sender);
  }

  /** Steps 6 and 7: revert to the snapshot, or refund what is left. */
  method Settle(tx: Transaction, world: WorldState, sender: ByteSeq, snapshot: map<ByteSeq, AccountRecord>,
                ghost copies: set<Storage>, ghost before: World, result: Try<Execution>, ghost p: Payload)
    returns (receipt: Receipt)
    requires world.Valid() && Represents(snapshot, copies, before) && Performs(result, world.contents, p)
    requires Fee(tx.gas, tx.gasPrice) <= Get(before, sender).balance && (p.Finished? ==> p.gasRemaining <= tx.gas)
    modifies world
    ensures world.Valid()
    ensures Applied(receipt, world.contents) == Settled(tx, Charge(before, sender, Fee(tx.gas, tx.gasPrice)), sender, p)
  {
    hide WorldState.Valid, Represents, Fee, Charge;
    if result.Threw? {
      RevertAndCharge(world, snapshot, copies, before, sender, Fee(tx.gas, tx.gasPrice));
      return Receipt(false, [], tx.gas, 0, Some(Exception(result.error)), None);
    }
    var run := result.value;
    if !run.success {
      RevertAndCharge(world, snapshot, copies, before, sender, Fee(tx.gas, tx.gasPrice));
      return Receipt(false, run.returnData, tx.gas, 0, Some(ExecutionFailed), run.contractAddress);
    }
    var gasRefund := Fee(run.gasRemaining, tx.gasPrice);
    if gasRefund > 0 { world.AddTo(sender, gasRefund); }
    return Receipt(true, run.returnData, tx.gas - run.gasRemaining, run.gasRemaining, None, run.contractAddress);
  }

  /** Returns for every transaction, and leaves receipt and state as the state transition function says; after a
      failure the restored snapshot is the state before, but for the sender's fee and nonce; every account that the
      transaction's own transfer, fee and refund concern holds what is due. */
  method ApplyTransaction(env: Env, tx: Transaction, world: WorldState, blockGasLimit: nat) returns (r: Processed)
    requires world.Valid()
    modifies world
    ensures world.Valid()
    ensures match Apply(env, tx, old(world.contents), blockGasLimit)
            case Rejected(e) => r == Refused(e) && world.contents == old(world.contents)
            case Applied(receipt, w) => r == Processed(receipt) && world.contents == w
    ensures r.Processed? && !r.receipt.success ==> RestoredButCharged(env, tx, old(world.contents), world.contents)
    ensures r.Processed? ==> r.receipt.gasUsed + r.receipt.gasRemaining == tx.gas
    ensures r.Processed? ==>
      Payments.PaysAsDue(env, tx, old(world.contents), blockGasLimit, r.receipt, world.contents)
  {
    hide WorldState.Valid, Represents, Fee, IntrinsicGas, Execute, RecoverSender, Charge, RestoredButCharged,
      Payments.PaysAsDue;
    ghost var before := world.contents;
    var validation := ValidateTransaction(env, tx, world, blockGasLimit);
    if validation.Invalid? { return Refused(validation.error); }
    var sender := validation.sender;
    var snapshot, copies := world.Snapshot();
    ChargeUpfront(world, sender, Fee(tx.gas, tx.gasPrice));
    ghost var charged := world.contents;
    var intrinsicGas := CalculateIntrinsicGas(tx.data);
    var gasForExecution := tx.gas - intrinsicGas;
    var result := ExecutePayload(env, tx, sender, world, gasForExecution);
    ghost var p := Execute(env, tx, sender, charged, gasForExecution);
    var receipt := Settle(tx, world, sender, snapshot, copies, before, result, p);
    RestoredWhenCharged(env, tx, before);
    Payments.ApplyPaysAsDue(env, tx, before, blockGasLimit);
    return Processed(receipt);
  }
}
