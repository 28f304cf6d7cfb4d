/** The state transition function on values, and what every transaction keeps. */
module StateTransition {
  import opened Bytes
  import opened Environment
  import opened Accounts
  import opened Transactions
  import opened Evm
  import opened EvmInvariants
  import opened Words
  import opened WorldInvariants

  datatype Failure = ExecutionFailed | Exception(e: Error)

  datatype Receipt = Receipt(
    success: bool, returnData: ByteSeq, gasUsed: nat, gasRemaining: nat,
    error: Option<Failure>, contractAddress: Option<Address>)

  /** What running a transaction's payload gives: a verdict, or an exception other than out-of-gas. */
  datatype Payload =
    | Finished(success: bool, returnData: ByteSeq, gasRemaining: nat, contractAddress: Option<Address>, w: World)
    | Crashed(e: Error, w: World)

  function ExecuteValueTransfer(tx: Transaction, sender: ByteSeq, w: World, gas: nat): (r: Payload)
    ensures r.Finished? ==> r.gasRemaining <= gas
  {
    match Transfer(w, sender, tx.to, tx.value)
    case None => Crashed(Unexpected, w)
    case Some(w1) => Finished(true, [], gas, None, w1)
  }

  function ExecuteContractCall(env: Env, tx: Transaction, sender: ByteSeq, w: World, gas: nat): (r: Payload)
    ensures r.Finished? ==> r.gasRemaining <= gas
  {
    var contract := Get(w, tx.to);
    match Transfer(w, sender, tx.to, tx.value)
    case None => Crashed(Unexpected, w)
    case Some(w1) =>
      var job := Job(contract.code, Context(sender, tx.to, tx.value, tx.data), true);
      match Run(env, job, Fresh(gas, contract.storage), w1)
      case Raised(e, w2) => if e == OutOfGas then Finished(false, [], 0, None, w2) else Crashed(e, w2)
      case Done(f, w2) =>
        Finished(!f.reverted, f.ret, f.gas, None, if f.reverted then w2 else Persist(w2, tx.to, f.storage))
  }

  function ExecuteCreate(env: Env, tx: Transaction, sender: ByteSeq, w: World, gas: nat): (r: Payload)
    ensures r.Finished? ==> r.gasRemaining <= gas
  {
    match ContractAddress(env, sender, tx.nonce)
    case None => Crashed(Unexpected, w)
    case Some(address) =>
      var w1 := AddBalance(w, address, 0);
      match Transfer(w1, sender, address, tx.value)
      case None => Crashed(Unexpected, w1)
      case Some(w2) =>
        match Run(env, Job(tx.data, Context(sender, address, tx.value, []), true), Fresh(gas, map[]), w2)
        case Raised(e, w3) => if e == OutOfGas then Finished(false, [], 0, None, w3) else Crashed(e, w3)
        case Done(f, w3) =>
          if f.reverted then Finished(false, f.ret, f.gas, None, w3)
          else Finished(true, f.ret, f.gas, Some(address), Persist(SetCode(w3, address, f.ret), address, f.storage))
  }

  function Execute(env: Env, tx: Transaction, sender: ByteSeq, w: World, gas: nat): (r: Payload)
    ensures r.Finished? ==> r.gasRemaining <= gas
  {
    if tx.to == [] then ExecuteCreate(env, tx, sender, w, gas)
    else if Get(w, tx.to).code != [] then ExecuteContractCall(env, tx, sender, w, gas)
    else ExecuteValueTransfer(tx, sender, w, gas)
  }

  /** The sender after paying for all its gas up front and using up its nonce. */
  function Charge(w: World, sender: ByteSeq, fee: nat): World
    requires fee <= Get(w, sender).balance
  {
    IncrementNonce(DeductBalance(w, sender, fee).value, sender)
  }

  function Refund(w: World, sender: ByteSeq, amount: nat): World {
    if amount > 0 then AddBalance(w, sender, amount) else w
  }

  datatype Transition = Rejected(error: TxError) | Applied(receipt: Receipt, w: World)

  /** What the transaction comes to, once its payload `p` has run on the charged state. */
  function Settled(tx: Transaction, charged: World, sender: ByteSeq, p: Payload): (r: Transition)
    requires p.Finished? ==> p.gasRemaining <= tx.gas
    ensures r.Applied?
  {
    match p
    case Crashed(e, _) => Applied(Receipt(false, [], tx.gas, 0, Some(Exception(e)), None), charged)
    case Finished(success, data, left, address, w) =>
      if !success then Applied(Receipt(false, data, tx.gas, 0, Some(ExecutionFailed), address), charged)
      else
        Applied(Receipt(true, data, tx.gas - left, left, None, address), Refund(w, sender, Fee(left, tx.gasPrice)))
  }

  function Apply(env: Env, tx: Transaction, w: World, blockGasLimit: nat): Transition {
    match Validate(env, tx, w, blockGasLimit)
    case Invalid(error) => Rejected(error)
    case Valid(sender) =>
      var charged := Charge(w, sender, Fee(tx.gas, tx.gasPrice));
      Settled(tx, charged, sender, Execute(env, tx, sender, charged, tx.gas - IntrinsicGas(tx.data)))
  }

  lemma AppliedWhenValid(env: Env, tx: Transaction, w: World, limit: nat)
    ensures Apply(env, tx, w, limit).Applied? <==> Validate(env, tx, w, limit).Valid?
  {}

  function Sender(env: Env, tx: Transaction): ByteSeq
    requires RecoverSender(env, tx).Some?
  {
    RecoverSender(env, tx).value
  }

  // ----- gas -----

  /** What is used and what is refunded add up to the limit, and use is at least the intrinsic cost. */
  lemma GasAccounting(env: Env, tx: Transaction, w: World, limit: nat)
    requires Validate(env, tx, w, limit).Valid?
    ensures var r := Apply(env, tx, w, limit).receipt;
      && r.gasUsed + r.gasRemaining == tx.gas
      && IntrinsicGas(tx.data) <= r.gasUsed <= tx.gas
      && (!r.success ==> r.gasUsed == tx.gas)
  {
    hide Execute, IntrinsicGas, Charge, Fee;
  }

  // ----- failure -----

  /** A failed execution, however deep and for whatever reason, leaves the initial state except for the
      sender's fee and nonce. */
  lemma FailureOnlyCharges(env: Env, tx: Transaction, w: World, limit: nat)
    requires Validate(env, tx, w, limit).Valid?
    ensures var r := Apply(env, tx, w, limit); var sender := Sender(env, tx); var before := Get(w, sender);
      && Fee(tx.gas, tx.gasPrice) <= before.balance
      && (!r.receipt.success ==>
           r.w == w[sender := before.(nonce := before.nonce + 1, balance := before.balance - Fee(tx.gas, tx.gasPrice))])
  {
    hide Execute, IntrinsicGas, Fee;
  }

  // ----- ether -----

  lemma ChargeTotal(w: World, sender: ByteSeq, fee: nat)
    requires fee <= Get(w, sender).balance
    ensures TotalEther(Charge(w, sender, fee)) == TotalEther(w) - fee
  {
    var paid := DeductBalance(w, sender, fee).value;
    TotalAfterUpdate(w, sender, Get(paid, sender));
    TotalAfterUpdate(paid, sender, Get(Charge(w, sender, fee), sender));
  }

  lemma RefundTotal(w: World, a: ByteSeq, amount: nat)
    ensures TotalEther(AddBalance(w, a, amount)) == TotalEther(w) + amount
  {
    TotalAfterUpdate(w, a, Get(AddBalance(w, a, amount), a));
  }

  lemma ExecuteConservesEther(env: Env, tx: Transaction, sender: ByteSeq, w: World, gas: nat)
    ensures TotalEther(Execute(env, tx, sender, w, gas).w) == TotalEther(w)
  {
    hide Run, TotalEther, Transfer, Persist, SetCode, ContractAddress;
    if tx.to == [] {
      var creation := ContractAddress(env, sender, tx.nonce);
      if creation.Some? {
        var address := creation.value;
        var w1 := AddBalance(w, address, 0);
        TotalAfterUpdate(w, address, Get(w1, address));
        if Transfer(w1, sender, address, tx.value).Some? {
          var w2 := Transfer(w1, sender, address, tx.value).value;
          TransferConservesEther(w1, sender, address, tx.value);
          var job, init := Job(tx.data, Context(sender, address, tx.value, []), true), Fresh(gas, map[]);
          RunConservesEther(env, job, init, w2);
          var o := Run(env, job, init, w2);
          if o.Done? { DeployConservesEther(o.w, address, o.f.ret, o.f.storage); }
        }
      }
    } else if Transfer(w, sender, tx.to, tx.value).Some? {
      var w1 := Transfer(w, sender, tx.to, tx.value).value;
      TransferConservesEther(w, sender, tx.to, tx.value);
      var contract := Get(w, tx.to);
      var job := Job(contract.code, Context(sender, tx.to, tx.value, tx.data), true);
      RunConservesEther(env, job, Fresh(gas, contract.storage), w1);
      var o := Run(env, job, Fresh(gas, contract.storage), w1);
      if o.Done? { PersistConservesEther(o.w, tx.to, o.f.storage); }
    }
  }

  /** Every transaction that is not rejected burns exactly its gas used times its gas price. */
  lemma EtherConservedUpToGas(env: Env, tx: Transaction, w: World, limit: nat)
    requires Validate(env, tx, w, limit).Valid?
    ensures var r := Apply(env, tx, w, limit);
      TotalEther(r.w) == TotalEther(w) - Fee(r.receipt.gasUsed, tx.gasPrice)
  {
    hide Execute, TotalEther, IntrinsicGas, Charge, Fee, Validate, RecoverSender, AddBalance;
    var sender := Sender(env, tx);
    var fee := Fee(tx.gas, tx.gasPrice);
    var charged := Charge(w, sender, fee);
    ChargeTotal(w, sender, fee);
    var p := Execute(env, tx, sender, charged, tx.gas - IntrinsicGas(tx.data));
    ExecuteConservesEther(env, tx, sender, charged, tx.gas - IntrinsicGas(tx.data));
    if p.Finished? && p.success {
      RefundTotal(p.w, sender, Fee(p.gasRemaining, tx.gasPrice));
      RefundArithmetic(tx.gas, p.gasRemaining, tx.gasPrice);
    }
  }

  lemma RefundArithmetic(gas: nat, left: nat, price: nat)
    requires left <= gas
    ensures Fee(gas - left, price) == Fee(gas, price) - Fee(left, price)
  {}

  // ----- nonces and replay -----

  lemma NoncesGrowTransitive(a: World, b: World, c: World)
    requires NoncesGrow(a, b) && NoncesGrow(b, c)
    ensures NoncesGrow(a, c)
  {
    forall x ensures Get(a, x).nonce <= Get(c, x).nonce { assert Get(a, x).nonce <= Get(b, x).nonce; }
  }

  lemma ExecuteGrowsNonces(env: Env, tx: Transaction, sender: ByteSeq, w: World, gas: nat)
    ensures NoncesGrow(w, Execute(env, tx, sender, w, gas).w)
  {
    hide Run, NoncesGrow, Transfer, Persist, SetCode, ContractAddress;
    NoncesGrowReflexive(w);
    if tx.to == [] {
      var creation := ContractAddress(env, sender, tx.nonce);
      if creation.Some? {
        var address := creation.value;
        var w1 := AddBalance(w, address, 0);
        UpdateGrowsNonces(w, w, address, Get(w1, address));
        if Transfer(w1, sender, address, tx.value).Some? {
          var w2 := Transfer(w1, sender, address, tx.value).value;
          TransferGrowsNonces(w, w1, sender, address, tx.value);
          var job, init := Job(tx.data, Context(sender, address, tx.value, []), true), Fresh(gas, map[]);
          RunGrowsNonces(env, job, init, w2);
          var o := Run(env, job, init, w2);
          NoncesGrowTransitive(w, w2, o.w);
          if o.Done? { DeployGrowsNonces(w, o.w, address, o.f.ret, o.f.storage); }
        }
      }
    } else if Transfer(w, sender, tx.to, tx.value).Some? {
      var w1 := Transfer(w, sender, tx.to, tx.value).value;
      TransferGrowsNonces(w, w, sender, tx.to, tx.value);
      var contract := Get(w, tx.to);
      var job := Job(contract.code, Context(sender, tx.to, tx.value, tx.data), true);
      RunGrowsNonces(env, job, Fresh(gas, contract.storage), w1);
      var o := Run(env, job, Fresh(gas, contract.storage), w1);
      NoncesGrowTransitive(w, w1, o.w);
      if o.Done? { PersistGrowsNonces(w, o.w, tx.to, o.f.storage); }
    }
  }

  /** An applied transaction lowers no nonce and raises its sender's. */
  lemma ApplyGrowsNonces(env: Env, tx: Transaction, w: World, limit: nat)
    requires Validate(env, tx, w, limit).Valid?
    ensures NoncesGrow(w, Apply(env, tx, w, limit).w)
    ensures Get(w, Sender(env, tx)).nonce < Get(Apply(env, tx, w, limit).w, Sender(env, tx)).nonce
  {
    hide Execute, IntrinsicGas, Fee;
    var sender := Sender(env, tx);
    var charged := Charge(w, sender, Fee(tx.gas, tx.gasPrice));
    assert NoncesGrow(w, charged) && Get(w, sender).nonce < Get(charged, sender).nonce;
    var p := Execute(env, tx, sender, charged, tx.gas - IntrinsicGas(tx.data));
    ExecuteGrowsNonces(env, tx, sender, charged, tx.gas - IntrinsicGas(tx.data));
    NoncesGrowTransitive(w, charged, p.w);
    if p.Finished? && p.success {
      var refunded := AddBalance(p.w, sender, Fee(p.gasRemaining, tx.gasPrice));
      UpdateGrowsNonces(w, p.w, sender, Get(refunded, sender));
    }
  }

  // ----- whole runs -----

  datatype Submission = Submission(tx: Transaction, blockGasLimit: nat)

  /** The world after the first submissions; a rejected one changes nothing. */
  function After(env: Env, run: seq<Submission>, w: World): World {
    if run == [] then w else
      var before := After(env, run[..|run| - 1], w);
      var s := run[|run| - 1];
      match Apply(env, s.tx, before, s.blockGasLimit)
      case Rejected(_) => before
      case Applied(_, w1) => w1
  }

  /** The i-th submission of the run passes validation, and so is applied. */
  ghost predicate AppliedAt(env: Env, run: seq<Submission>, w: World, i: nat)
    requires i < |run|
  {
    Validate(env, run[i].tx, After(env, run[..i], w), run[i].blockGasLimit).Valid?
  }

  lemma {:induction false} RunGrowsNoncesBetween(env: Env, run: seq<Submission>, w: World, i: nat)
    requires i <= |run|
    ensures NoncesGrow(After(env, run[..i], w), After(env, run, w))
  {
    hide Apply, NoncesGrow, Validate;
    if i == |run| {
      assert run[..i] == run;
      NoncesGrowReflexive(After(env, run, w));
    } else {
      var shorter, s := run[..|run| - 1], run[|run| - 1];
      RunGrowsNoncesBetween(env, shorter, w, i);
      assert shorter[..i] == run[..i];
      var before := After(env, shorter, w);
      AppliedWhenValid(env, s.tx, before, s.blockGasLimit);
      if Validate(env, s.tx, before, s.blockGasLimit).Valid? {
        ApplyGrowsNonces(env, s.tx, before, s.blockGasLimit);
        NoncesGrowTransitive(After(env, run[..i], w), before, After(env, run, w));
      }
    }
  }

  /** In any run, a sender's applied transactions carry strictly increasing nonces; so no signed
      transaction is ever applied twice. */
  lemma NoReplay(env: Env, run: seq<Submission>, w: World, i: nat, j: nat)
    requires i < j < |run| && AppliedAt(env, run, w, i) && AppliedAt(env, run, w, j)
    ensures run[i].tx != run[j].tx
    ensures Sender(env, run[i].tx) == Sender(env, run[j].tx) ==> run[i].tx.nonce < run[j].tx.nonce
  {
    hide Execute, IntrinsicGas, Charge, Fee;
    var a, b := run[i], run[j];
    var w1 := After(env, run[..i], w);
    ApplyGrowsNonces(env, a.tx, w1, a.blockGasLimit);
    assert run[..i + 1][..i] == run[..i];
    assert After(env, run[..i + 1], w) == Apply(env, a.tx, w1, a.blockGasLimit).w;
    RunGrowsNoncesBetween(env, run[..j], w, i + 1);
    assert run[..j][..i + 1] == run[..i + 1];
    assert Get(After(env, run[..i + 1], w), Sender(env, a.tx)).nonce <=
           Get(After(env, run[..j], w), Sender(env, a.tx)).nonce;
  }

  /** Fees burnt by the applied transactions of a run. */
  function Burnt(env: Env, run: seq<Submission>, w: World): nat {
    if run == [] then 0 else
      var shorter, s := run[..|run| - 1], run[|run| - 1];
      Burnt(env, shorter, w) +
      match Apply(env, s.tx, After(env, shorter, w), s.blockGasLimit)
      case Rejected(_) => 0
      case Applied(receipt, _) => Fee(receipt.gasUsed, s.tx.gasPrice)
  }

  /** Over any run of transactions the only ether that leaves the accounts is the gas paid for. */
  lemma {:induction false} RunConservesEtherUpToGas(env: Env, run: seq<Submission>, w: World)
    ensures TotalEther(After(env, run, w)) + Burnt(env, run, w) == TotalEther(w)
  {
    hide Apply, TotalEther, Validate;
    if run != [] {
      var shorter, s := run[..|run| - 1], run[|run| - 1];
      RunConservesEtherUpToGas(env, shorter, w);
      AppliedWhenValid(env, s.tx, After(env, shorter, w), s.blockGasLimit);
      if Validate(env, s.tx, After(env, shorter, w), s.blockGasLimit).Valid? {
        EtherConservedUpToGas(env, s.tx, After(env, shorter, w), s.blockGasLimit);
      }
    }
  }

  // ----- the contracts a run of transactions creates -----

  /** The creations of a transaction's payload: the one it asks for itself, and those of the code it runs. */
  ghost function PayloadCreations(env: Env, tx: Transaction, sender: ByteSeq, w: World, gas: nat): set<Creation> {
    if tx.to == [] then
      {Creation(sender, tx.nonce)} + InitCreations(env, tx, sender, w, gas)
    else if Get(w, tx.to).code != [] then
      match Transfer(w, sender, tx.to, tx.value)
      case None => {}
      case Some(w1) =>
        var job := Job(Get(w, tx.to).code, Context(sender, tx.to, tx.value, tx.data), true);
        Creations(env, job, Fresh(gas, Get(w, tx.to).storage), w1)
    else {}
  }

  ghost function InitCreations(env: Env, tx: Transaction, sender: ByteSeq, w: World, gas: nat): set<Creation> {
    match ContractAddress(env, sender, tx.nonce)
    case None => {}
    case Some(address) =>
      match Transfer(AddBalance(w, address, 0), sender, address, tx.value)
      case None => {}
      case Some(w1) =>
        Creations(env, Job(tx.data, Context(sender, address, tx.value, []), true), Fresh(gas, map[]), w1)
  }

  ghost function TransactionCreations(env: Env, tx: Transaction, w: World, limit: nat): set<Creation> {
    match Validate(env, tx, w, limit)
    case Invalid(_) => {}
    case Valid(sender) =>
      var charged := Charge(w, sender, Fee(tx.gas, tx.gasPrice));
      PayloadCreations(env, tx, sender, charged, tx.gas - IntrinsicGas(tx.data))
  }

  /** The creations of all transactions of a run, at every depth, those of failed transactions included. */
  ghost function RunCreations(env: Env, run: seq<Submission>, w: World): set<Creation> {
    if run == [] then {} else
      var shorter, s := run[..|run| - 1], run[|run| - 1];
      RunCreations(env, shorter, w) + TransactionCreations(env, s.tx, After(env, shorter, w), s.blockGasLimit)
  }

  lemma PayloadCreationNonces(env: Env, tx: Transaction, sender: ByteSeq, w: World, gas: nat, c: Creation)
    requires c in PayloadCreations(env, tx, sender, w, gas)
    ensures c == Creation(sender, tx.nonce) || Get(w, c.creator).nonce <= c.nonce
  {
    hide Run, Transfer, ContractAddress, Creations, NoncesGrow;
    NoncesGrowReflexive(w);
    if tx.to == [] {
      if c in InitCreations(env, tx, sender, w, gas) {
        var address := ContractAddress(env, sender, tx.nonce).value;
        var w1 := AddBalance(w, address, 0);
        UpdateGrowsNonces(w, w, address, Get(w1, address));
        TransferGrowsNonces(w, w1, sender, address, tx.value);
        var w2 := Transfer(w1, sender, address, tx.value).value;
        var job := Job(tx.data, Context(sender, address, tx.value, []), true);
        CreationsUseNonces(env, job, Fresh(gas, map[]), w2, c);
        NonceGrows(w, w2, c.creator);
      }
    } else {
      TransferGrowsNonces(w, w, sender, tx.to, tx.value);
      var w1 := Transfer(w, sender, tx.to, tx.value).value;
      var job := Job(Get(w, tx.to).code, Context(sender, tx.to, tx.value, tx.data), true);
      CreationsUseNonces(env, job, Fresh(gas, Get(w, tx.to).storage), w1, c);
      NonceGrows(w, w1, c.creator);
    }
  }

  lemma NonceGrows(w: World, w1: World, a: ByteSeq)
    requires NoncesGrow(w, w1)
    ensures Get(w, a).nonce <= Get(w1, a).nonce
  {}

  lemma TransactionCreationNonces(env: Env, tx: Transaction, w: World, limit: nat, c: Creation)
    requires Validate(env, tx, w, limit).Valid?
    ensures c in TransactionCreations(env, tx, w, limit) ==> Get(w, c.creator).nonce <= c.nonce
  {
    hide PayloadCreations, IntrinsicGas, Fee;
    if c in TransactionCreations(env, tx, w, limit) {
      var charged := Charge(w, Sender(env, tx), Fee(tx.gas, tx.gasPrice));
      PayloadCreationNonces(env, tx, Sender(env, tx), charged, tx.gas - IntrinsicGas(tx.data), c);
    }
  }

  /** No creation of a run uses a nonce that its creator had already used up before the run. */
  lemma {:induction false} RunCreationNonces(env: Env, run: seq<Submission>, w: World, c: Creation)
    ensures c in RunCreations(env, run, w) ==> Get(w, c.creator).nonce <= c.nonce
  {
    hide TransactionCreations, Validate, Apply, NoncesGrow;
    if run != [] {
      var shorter, s := run[..|run| - 1], run[|run| - 1];
      var before := After(env, shorter, w);
      RunCreationNonces(env, shorter, w, c);
      if c in TransactionCreations(env, s.tx, before, s.blockGasLimit) {
        RejectedCreatesNothing(env, s.tx, before, s.blockGasLimit);
        TransactionCreationNonces(env, s.tx, before, s.blockGasLimit, c);
        RunGrowsNoncesBetween(env, shorter, w, 0);
        NonceGrows(After(env, shorter[..0], w), before, c.creator);
      }
    }
  }

  lemma RejectedCreatesNothing(env: Env, tx: Transaction, w: World, limit: nat)
    ensures !Validate(env, tx, w, limit).Valid? ==> TransactionCreations(env, tx, w, limit) == {}
  {}

  // ----- properties of the world that whole runs of transactions keep -----

  /** Changing only a balance or a nonce. */
  ghost predicate KeptByCharging(I: World -> bool) {
    forall w, a, acct: Account |
      I(w) && acct.code == Get(w, a).code && acct.storage == Get(w, a).storage :: I(w[a := acct])
  }

  lemma ExecuteCreateKeeps(env: Env, P: ByteSeq -> bool, I: World -> bool, tx: Transaction, sender: ByteSeq,
                           w: World, gas: nat)
    requires Closed(env, P, I) && KeptByCharging(I) && I(w)
    requires tx.to == [] && AllAllowed(env, P, PayloadCreations(env, tx, sender, w, gas))
    ensures I(ExecuteCreate(env, tx, sender, w, gas).w)
  {
    hide Run, Transfer, ContractAddress, KeptByMessage, KeptByOpening, Creations;
    var creation := ContractAddress(env, sender, tx.nonce);
    if creation.Some? {
      var address := creation.value;
      assert Allowed(env, P, Creation(sender, tx.nonce));
      assert P(address);
      var w1 := AddBalance(w, address, 0);
      assert I(w1);
      if Transfer(w1, sender, address, tx.value).Some? {
        var w2 := Transfer(w1, sender, address, tx.value).value;
        var job, init := Job(tx.data, Context(sender, address, tx.value, []), true), Fresh(gas, map[]);
        RunKeeps(env, P, I, job, init, w2);
        var o := Run(env, job, init, w2);
        if o.Done? { assert I(Deploy(o.w, address, o.f.ret, o.f.storage)); }
      }
    }
  }

  lemma ExecuteContractCallKeeps(env: Env, P: ByteSeq -> bool, I: World -> bool, tx: Transaction, sender: ByteSeq,
                                 w: World, gas: nat)
    requires Closed(env, P, I) && I(w) && Get(w, tx.to).code != []
    requires tx.to != [] && AllAllowed(env, P, PayloadCreations(env, tx, sender, w, gas))
    ensures I(ExecuteContractCall(env, tx, sender, w, gas).w)
  {
    hide Run, Transfer, KeptByDeploying, KeptByOpening, Creations, AllAllowed;
    if Transfer(w, sender, tx.to, tx.value).Some? {
      var w1 := Transfer(w, sender, tx.to, tx.value).value;
      TransferKeepsCode(w, sender, tx.to, tx.value, tx.to);
      var ctx := Context(sender, tx.to, tx.value, tx.data);
      RunKeeps(env, P, I, Job(Get(w1, tx.to).code, ctx, true), Fresh(gas, Get(w1, tx.to).storage), w1);
      var o := Message(env, w1, tx.to, ctx, gas);
      if Succeeded(o) { assert I(Persist(o.w, tx.to, o.f.storage)); }
    }
  }

  lemma UpdateKeeps(I: World -> bool, w: World, a: ByteSeq, acct: Account)
    requires KeptByCharging(I) && I(w) && acct.code == Get(w, a).code && acct.storage == Get(w, a).storage
    ensures I(w[a := acct])
  {}

  lemma ExecuteKeeps(env: Env, P: ByteSeq -> bool, I: World -> bool, tx: Transaction, sender: ByteSeq,
                     w: World, gas: nat)
    requires Closed(env, P, I) && KeptByCharging(I) && I(w)
    requires AllAllowed(env, P, PayloadCreations(env, tx, sender, w, gas))
    ensures I(Execute(env, tx, sender, w, gas).w)
  {
    hide ExecuteCreate, ExecuteContractCall, KeptByMessage, KeptByOpening, KeptByDeploying, KeptByCharging, Transfer,
      AllAllowed, PayloadCreations;
    if tx.to == [] { ExecuteCreateKeeps(env, P, I, tx, sender, w, gas); }
    else if Get(w, tx.to).code != [] { ExecuteContractCallKeeps(env, P, I, tx, sender, w, gas); }
  }

  /** A world property that execution and charging keep holds after any transaction. */
  lemma ApplyKeeps(env: Env, P: ByteSeq -> bool, I: World -> bool, tx: Transaction, w: World, limit: nat)
    requires Closed(env, P, I) && KeptByCharging(I) && I(w) && Validate(env, tx, w, limit).Valid?
    requires AllAllowed(env, P, TransactionCreations(env, tx, w, limit))
    ensures I(Apply(env, tx, w, limit).w)
  {
    hide Execute, IntrinsicGas, Fee, Closed, KeptByCharging, AllAllowed, PayloadCreations;
    var sender := Sender(env, tx);
    var fee := Fee(tx.gas, tx.gasPrice);
    var paid, charged := DeductBalance(w, sender, fee).value, Charge(w, sender, fee);
    UpdateKeeps(I, w, sender, Get(paid, sender));
    UpdateKeeps(I, paid, sender, Get(charged, sender));
    var p := Execute(env, tx, sender, charged, tx.gas - IntrinsicGas(tx.data));
    ExecuteKeeps(env, P, I, tx, sender, charged, tx.gas - IntrinsicGas(tx.data));
    if p.Finished? {
      UpdateKeeps(I, p.w, sender, Get(AddBalance(p.w, sender, Fee(p.gasRemaining, tx.gasPrice)), sender));
    }
  }

  /** The same over any run of transactions, if they create contracts only where the property allows it. */
  lemma {:induction false} AfterKeeps(env: Env, P: ByteSeq -> bool, I: World -> bool, run: seq<Submission>, w: World)
    requires Closed(env, P, I) && KeptByCharging(I) && I(w) && AllAllowed(env, P, RunCreations(env, run, w))
    ensures I(After(env, run, w))
  {
    hide Apply, Closed, KeptByCharging, Validate, TransactionCreations, Allowed;
    if run != [] {
      var shorter, s := run[..|run| - 1], run[|run| - 1];
      AfterKeeps(env, P, I, shorter, w);
      AppliedWhenValid(env, s.tx, After(env, shorter, w), s.blockGasLimit);
      if Validate(env, s.tx, After(env, shorter, w), s.blockGasLimit).Valid? {
        ApplyKeeps(env, P, I, s.tx, After(env, shorter, w), s.blockGasLimit);
      }
    }
  }

  // ----- words over whole runs -----

  /** A transaction whose numbers are words and whose strings are of sizes that fit one. */
  ghost predicate WordTransaction(tx: Transaction) {
    IsWord(tx.value) && IsWord(tx.gas) && |tx.to| <= 32 && IsWord(|tx.data|)
  }

  lemma ExecuteCreateKeepsWords(env: Env, tx: Transaction, sender: Address, w: World, gas: nat)
    requires WordWorld(w) && WordTransaction(tx) && gas <= tx.gas && IsWord(env.maxMemory)
    ensures WordWorld(ExecuteCreate(env, tx, sender, w, gas).w)
  {
    hide Run, Transfer, ContractAddress, WordWorld, Persist, SetCode, WordFrame, WordStorage;
    var creation := ContractAddress(env, sender, tx.nonce);
    if creation.Some? {
      var address := creation.value;
      var w1 := AddBalance(w, address, 0);
      UpdateKeepsWords(w, address, Get(w1, address));
      TransferKeepsWords(w1, sender, address, tx.value);
      if Transfer(w1, sender, address, tx.value).Some? {
        var w2 := Transfer(w1, sender, address, tx.value).value;
        var job, init := Job(tx.data, Context(sender, address, tx.value, []), true), Fresh(gas, map[]);
        EmptyStorageIsWords();
        FreshKeepsWords(env, gas, map[]);
        RunKeepsWords(env, job, init, w2);
        var o := Run(env, job, init, w2);
        if o.Done? {
          WordFrameParts(env, o.f);
          DeployKeepsWords(o.w, address, o.f.ret);
          PersistKeepsWords(SetCode(o.w, address, o.f.ret), address, o.f.storage);
        }
      }
    }
  }

  lemma ExecuteContractCallKeepsWords(env: Env, tx: Transaction, sender: Address, w: World, gas: nat)
    requires WordWorld(w) && WordTransaction(tx) && gas <= tx.gas && IsWord(env.maxMemory)
    ensures WordWorld(ExecuteContractCall(env, tx, sender, w, gas).w)
  {
    hide Run, Transfer, WordWorld, Persist, WordFrame, WordStorage;
    var contract := Get(w, tx.to);
    CalleeWords(w, tx.to);
    TransferKeepsWords(w, sender, tx.to, tx.value);
    if Transfer(w, sender, tx.to, tx.value).Some? {
      var w1 := Transfer(w, sender, tx.to, tx.value).value;
      var job := Job(contract.code, Context(sender, tx.to, tx.value, tx.data), true);
      var init := Fresh(gas, contract.storage);
      FreshKeepsWords(env, gas, contract.storage);
      RunKeepsWords(env, job, init, w1);
      var o := Run(env, job, init, w1);
      if o.Done? {
        WordFrameParts(env, o.f);
        PersistKeepsWords(o.w, tx.to, o.f.storage);
      }
    }
  }

  lemma UpdateKeepsWords(w: World, a: ByteSeq, acct: Account)
    requires WordWorld(w) && acct.code == Get(w, a).code && acct.storage == Get(w, a).storage
    ensures WordWorld(w[a := acct])
  {
    CalleeWords(w, a);
  }

  lemma ApplyKeepsWords(env: Env, tx: Transaction, w: World, limit: nat)
    requires WordWorld(w) && WordTransaction(tx) && IsWord(env.maxMemory) && Validate(env, tx, w, limit).Valid?
    ensures WordWorld(Apply(env, tx, w, limit).w)
  {
    hide ExecuteCreate, ExecuteContractCall, IntrinsicGas, Fee, WordWorld, WordTransaction, Transfer;
    var sender := RecoverSender(env, tx).value;
    var fee := Fee(tx.gas, tx.gasPrice);
    var paid, charged := DeductBalance(w, sender, fee).value, Charge(w, sender, fee);
    UpdateKeepsWords(w, sender, Get(paid, sender));
    UpdateKeepsWords(paid, sender, Get(charged, sender));
    var gas := tx.gas - IntrinsicGas(tx.data);
    ExecuteCreateKeepsWords(env, tx, sender, charged, gas);
    ExecuteContractCallKeepsWords(env, tx, sender, charged, gas);
    TransferKeepsWords(charged, sender, tx.to, tx.value);
    var p := Execute(env, tx, sender, charged, gas);
    if p.Finished? {
      UpdateKeepsWords(p.w, sender, Get(AddBalance(p.w, sender, Fee(p.gasRemaining, tx.gasPrice)), sender));
    }
  }

  /** Over any run of word-sized transactions every storage slot of every account stays a word. */
  lemma {:induction false} AfterKeepsWords(env: Env, run: seq<Submission>, w: World)
    requires WordWorld(w) && IsWord(env.maxMemory)
    requires forall i | 0 <= i < |run| :: WordTransaction(run[i].tx)
    ensures WordWorld(After(env, run, w))
  {
    hide Apply, WordWorld, WordTransaction, Validate;
    if run != [] {
      var shorter, s := run[..|run| - 1], run[|run| - 1];
      assert WordTransaction(run[|run| - 1].tx);
      AfterKeepsWords(env, shorter, w);
      AppliedWhenValid(env, s.tx, After(env, shorter, w), s.blockGasLimit);
      if Validate(env, s.tx, After(env, shorter, w), s.blockGasLimit).Valid? {
        ApplyKeepsWords(env, s.tx, After(env, shorter, w), s.blockGasLimit);
      }
    }
  }
}
