/** The token in the chain: its supply over whole runs, and what a transfer transaction does. */
module TokenRuns {
  import opened Bytes
  import opened Words
  import opened Environment
  import opened Accounts
  import opened Transactions
  import opened Evm
  import opened EvmMemory
  import opened MapSum
  import opened InitCode
  import opened Payments
  import opened Contexts
  import opened Abi
  import opened Stepping
  import opened TokenCode
  import opened Token
  import opened WorldInvariants
  import opened StateTransition

  /** The account at `token` holds the token's bytecode and balances that add up to `supply`. */
  ghost predicate HoldsToken(w: World, token: ByteSeq, supply: nat) {
    Get(w, token).code == TOKEN_RUNTIME_BYTECODE && Supply(Get(w, token).storage) == supply
  }

  lemma MergeTransfer(s: map<nat, nat>, t: map<nat, nat>, from: nat, to: nat, amount: nat)
    requires t == s || t == TransferTokens(s, from, to, amount)
    ensures s + t == t
  {}

  /** A message to the token leaves the world alone and, if it succeeds, storage with the same supply. */
  lemma MessageKeepsSupply(env: Env, w: World, token: ByteSeq, supply: nat, ctx: Context, gas: nat)
    requires HoldsToken(w, token, supply) && supply < MOD
    ensures var o := Message(env, w, token, ctx, gas);
      && o.w == w
      && (Succeeded(o) ==> HoldsToken(Persist(o.w, token, o.f.storage), token, supply))
  {
    hide Run, Supply, TransferTokens, IsToken, ToWord, AmountWord, CallerWord;
    TokenIsToken();
    var s := Get(w, token).storage;
    var m := Sim(env, Job(TOKEN_RUNTIME_BYTECODE, ctx, true), w, Fresh(0, s));
    assert m.start.(gas := gas) == Fresh(gas, s);
    TokenMessage(m, gas);
    var o := Message(env, w, token, ctx, gas);
    if Succeeded(o) {
      MergeTransfer(s, o.f.storage, CallerWord(m), ToWord(m), AmountWord(m));
      if o.f.storage != s {
        TransferKeepsSupply(s, CallerWord(m), ToWord(m), AmountWord(m));
      }
    }
  }

  ghost function Elsewhere(token: ByteSeq): ByteSeq -> bool {
    a => a != token
  }

  /** Nothing that execution does to the world can change the token's code or supply, short of creating a contract at
      its address. */
  lemma TokenClosed(env: Env, token: ByteSeq, supply: nat)
    requires supply < MOD
    ensures Closed(env, Elsewhere(token), (w: World) => HoldsToken(w, token, supply))
    ensures KeptByCharging((w: World) => HoldsToken(w, token, supply))
  {
    hide Run, Supply, Message, HoldsToken;
    var I := (w: World) => HoldsToken(w, token, supply);
    forall w, a, acct: Account |
      I(w) && (a == token ==> acct.code == Get(w, a).code && acct.storage == Get(w, a).storage)
      ensures I(w[a := acct])
    {
      SameContract(w, w[a := acct], token, supply);
    }
    forall w, a, b, v | I(w) && Transfer(w, a, b, v).Some?
      ensures I(Transfer(w, a, b, v).value)
    {
      TransferKeepsCode(w, a, b, v, token);
      SameContract(w, Transfer(w, a, b, v).value, token, supply);
    }
    forall w, a, address | I(w) && address != token
      ensures I(OpenAccount(w, a, address))
    {
      SameContract(w, OpenAccount(w, a, address), token, supply);
    }
    forall w, address, code, storage | I(w) && address != token
      ensures I(Deploy(w, address, code, storage))
    {
      SameContract(w, Deploy(w, address, code, storage), token, supply);
    }
    forall w, target, ctx: Context, gas |
      I(w) && Succeeded(Message(env, w, target, ctx, gas)) && I(Message(env, w, target, ctx, gas).w)
      ensures I(Persist(Message(env, w, target, ctx, gas).w, target, Message(env, w, target, ctx, gas).f.storage))
    {
      var o := Message(env, w, target, ctx, gas);
      if target == token {
        MessageKeepsSupply(env, w, token, supply, ctx, gas);
      } else {
        SameContract(o.w, Persist(o.w, target, o.f.storage), token, supply);
      }
    }
  }

  lemma SameContract(w: World, w1: World, token: ByteSeq, supply: nat)
    requires HoldsToken(w, token, supply)
    requires Get(w1, token).code == Get(w, token).code && Get(w1, token).storage == Get(w, token).storage
    ensures HoldsToken(w1, token, supply)
  {}

  /** No creation of the run, of a transaction or by a CREATE at any depth, derives the token's address. */
  ghost predicate CreatesElsewhere(env: Env, run: seq<Submission>, w: World, token: ByteSeq) {
    forall c | c in RunCreations(env, run, w) :: ContractAddress(env, c.creator, c.nonce) != Some(token)
  }

  /** Over any run of any transactions, calling any contracts at any depth and failing anywhere, the token's
      supply stays what it was, as long as no contract is created at its address. */
  lemma SupplyConserved(env: Env, run: seq<Submission>, w: World, token: ByteSeq, supply: nat)
    requires HoldsToken(w, token, supply) && supply < MOD
    ensures CreatesElsewhere(env, run, w, token) ==> HoldsToken(After(env, run, w), token, supply)
  {
    hide Closed, KeptByCharging, HoldsToken, After, RunCreations, ContractAddress;
    if CreatesElsewhere(env, run, w, token) {
      TokenClosed(env, token, supply);
      AfterKeeps(env, Elsewhere(token), (v: World) => HoldsToken(v, token, supply), run, w);
    }
  }

  /** A token whose address was derived from a nonce its creator has used up keeps its supply over any run, or some
      creation of the run hashes another preimage to the same address. */
  lemma DeployedSupplyConserved(
      env: Env, run: seq<Submission>, w: World, token: ByteSeq, supply: nat, origin: Creation)
    returns (c: Creation)
    requires HoldsToken(w, token, supply) && supply < MOD
    requires ContractAddress(env, origin.creator, origin.nonce) == Some(token)
    requires origin.nonce < Get(w, origin.creator).nonce
    ensures HoldsToken(After(env, run, w), token, supply) || Imitates(env, run, w, origin, c)
  {
    hide HoldsToken, After, RunCreations, ContractAddress, CreationPreimage;
    c := origin;
    SupplyConserved(env, run, w, token, supply);
    if !CreatesElsewhere(env, run, w, token) {
      c :| c in RunCreations(env, run, w) && ContractAddress(env, c.creator, c.nonce) == Some(token);
      RunCreationNonces(env, run, w, c);
      OneAddressOneCreation(env, origin.creator, origin.nonce, c.creator, c.nonce);
    }
  }

  /** The run makes the creation `c`, whose preimage is another than that of `origin` but gives the same address. */
  ghost predicate Imitates(env: Env, run: seq<Submission>, w: World, origin: Creation, c: Creation) {
    && c in RunCreations(env, run, w)
    && CreationPreimage(origin.creator, origin.nonce).Some? && CreationPreimage(c.creator, c.nonce).Some?
    && AddressCollision(env, CreationPreimage(origin.creator, origin.nonce).value,
                        CreationPreimage(c.creator, c.nonce).value)
  }

  // ----- a token from its deployment on -----

  const INITIAL_SUPPLY: nat := 1_000_000

  lemma MintedSupply(who: nat, amount: nat)
    ensures Supply(map[who := amount]) == amount
  {
    SumUpdate(map[], who, amount);
    assert map[][who := amount] == map[who := amount];
  }

  /** The state after a transaction that deploys the token and the balance written into its storage by hand. */
  function Launched(env: Env, tx: Transaction, w: World, limit: nat, token: ByteSeq): World
    requires Validate(env, tx, w, limit).Valid?
  {
    SetStorage(Apply(env, tx, w, limit).w, token, FromBE(Sender(env, tx)), INITIAL_SUPPLY)
  }

  /** A creation transaction with the deployer and the token's bytecode, run on an address without storage, makes a
      token whose supply is the balance written, and whose address comes from a nonce that is used up. */
  lemma LaunchMakesToken(env: Env, tx: Transaction, w: World, limit: nat, token: Address)
    requires Validate(env, tx, w, limit).Valid? && tx.to == []
    requires BuildInitCode(TOKEN_RUNTIME_BYTECODE) == Some(tx.data) && env.maxMemory >= 128
    requires ContractAddress(env, Sender(env, tx), tx.nonce) == Some(token) && Get(w, token).storage == map[]
    requires tx.gas >= IntrinsicGas(tx.data) + DEPLOY_GAS
    ensures Apply(env, tx, w, limit).receipt.success
    ensures HoldsToken(Launched(env, tx, w, limit, token), token, INITIAL_SUPPLY)
    ensures tx.nonce < Get(Launched(env, tx, w, limit, token), Sender(env, tx)).nonce
  {
    hide Apply, Supply, IntrinsicGas, ContractAddress, BuildInitCode;
    TokenIs112Bytes();
    AppliedWhenValid(env, tx, w, limit);
    DeployTransaction(env, tx, w, limit, TOKEN_RUNTIME_BYTECODE);
    ApplyGrowsNonces(env, tx, w, limit);
    MintedSupply(FromBE(Sender(env, tx)), INITIAL_SUPPLY);
    var w1 := Apply(env, tx, w, limit).w;
    assert Get(w1, token).storage == map[];
    assert map[][FromBE(Sender(env, tx)) := INITIAL_SUPPLY] == map[FromBE(Sender(env, tx)) := INITIAL_SUPPLY];
  }

  lemma TokenIs112Bytes()
    ensures |TOKEN_RUNTIME_BYTECODE| == 112 && RoundUp32(112) == 128
  {}

  /** The whole story of the token: once deployed and given its initial supply, no run of transactions changes that
      supply, or a creation of the run collides with the one that made the token. */
  lemma LaunchedSupplyConserved(
      env: Env, tx: Transaction, w: World, limit: nat, token: Address, run: seq<Submission>)
    returns (c: Creation)
    requires Validate(env, tx, w, limit).Valid? && tx.to == []
    requires BuildInitCode(TOKEN_RUNTIME_BYTECODE) == Some(tx.data) && env.maxMemory >= 128
    requires ContractAddress(env, Sender(env, tx), tx.nonce) == Some(token) && Get(w, token).storage == map[]
    requires tx.gas >= IntrinsicGas(tx.data) + DEPLOY_GAS
    ensures var w1 := Launched(env, tx, w, limit, token);
      HoldsToken(After(env, run, w1), token, INITIAL_SUPPLY) ||
      Imitates(env, run, w1, Creation(Sender(env, tx), tx.nonce), c)
  {
    hide HoldsToken, After, Imitates, IntrinsicGas, ContractAddress, BuildInitCode, Launched;
    LaunchMakesToken(env, tx, w, limit, token);
    var w1 := Launched(env, tx, w, limit, token);
    c := DeployedSupplyConserved(env, run, w1, token, INITIAL_SUPPLY, Creation(Sender(env, tx), tx.nonce));
  }

  // ----- one transfer transaction -----

  /** A message carrying `encode_transfer(to, amount)`: exactly when it succeeds, and what it stores. */
  lemma TransferMessageRefines(env: Env, w: World, token: ByteSeq, ctx: Context, gas: nat, to: ByteSeq, amount: nat)
    requires Get(w, token).code == TOKEN_RUNTIME_BYTECODE
    requires SelectorsMatch(env) && EncodeTransfer(env, to, amount) == Some(ctx.data)
    ensures var o := Message(env, w, token, ctx, gas); var s := Get(w, token).storage; var from := FromBE(ctx.caller);
      && o.w == w
      && (Succeeded(o) <==> amount <= Slot(s, from) && gas >= TRANSFER_GAS)
      && (Succeeded(o) ==>
           && o.f.storage == TransferTokens(s, from, FromBE(to), amount)
           && o.f.gas == gas - TRANSFER_GAS && o.f.ret == [])
      && (o.Raised? ==> o.e == OutOfGas)
  {
    hide Run, FromBE, TransferTokens, IsToken, EncodeTransfer, SelectorsMatch, SelectorOf;
    TokenIsToken();
    TransferCallReadsBack(env, to, amount);
    var s := Get(w, token).storage;
    var m := Sim(env, Job(TOKEN_RUNTIME_BYTECODE, ctx, true), w, Fresh(0, s));
    assert m.start.(gas := gas) == Fresh(gas, s);
    var t := TransferMessage(m);
    assert m.From(m.start, gas) == Message(env, w, token, ctx, gas);
  }

  /** A transaction that calls the token's transfer succeeds exactly when the sender's tokens cover the amount
      and 10301 gas is left after the intrinsic cost; then the token's storage is the abstract result, and
      otherwise it does not change. Either way every account holds the ether that is due. */
  lemma TransferTransaction(env: Env, tx: Transaction, w: World, limit: nat, to: ByteSeq, amount: nat)
    requires Validate(env, tx, w, limit).Valid?
    requires tx.to != [] && Get(w, tx.to).code == TOKEN_RUNTIME_BYTECODE
    requires SelectorsMatch(env) && EncodeTransfer(env, to, amount) == Some(tx.data)
    ensures var r := Apply(env, tx, w, limit); var s := Get(w, tx.to).storage; var from := FromBE(Sender(env, tx));
      && (r.receipt.success <==> amount <= Slot(s, from) && tx.gas >= IntrinsicGas(tx.data) + TRANSFER_GAS)
      && Get(r.w, tx.to).storage == (if r.receipt.success then TransferTokens(s, from, FromBE(to), amount) else s)
      && (r.receipt.success ==> r.receipt.gasUsed == IntrinsicGas(tx.data) + TRANSFER_GAS)
      && forall a :: Get(r.w, a).balance == Due(env, tx, w, r.receipt, a)
  {
    hide Run, FromBE, TransferTokens, EncodeTransfer, SelectorsMatch, IntrinsicGas, Fee, Transfer, Apply, Charged,
        Validate,
      Due, PayloadFrame;
    TokenNotEmpty();
    var sender, charged, s := Sender(env, tx), Charged(env, tx, w, limit), Get(w, tx.to).storage;
    ContractTransaction(env, tx, w, limit);
    ChargedAccount(env, tx, w, limit, tx.to);
    TransferKeepsCode(charged, sender, tx.to, tx.value, tx.to);
    var w1 := Transfer(charged, sender, tx.to, tx.value).value;
    var ctx, gas := Context(sender, tx.to, tx.value, tx.data), tx.gas - IntrinsicGas(tx.data);
    TransferMessageRefines(env, w1, tx.to, ctx, gas, to, amount);
    var c := Message(env, w1, tx.to, ctx, gas);
    if Succeeded(c) { MergeTransfer(s, c.f.storage, FromBE(sender), FromBE(to), amount); }
    SettledAround(env, tx, w, limit, c);
    FailedStorage(env, tx, w, limit, tx.to);
  }

  lemma TokenNotEmpty()
    ensures TOKEN_RUNTIME_BYTECODE != []
  {}

  /** A message carrying `encode_balance_of(who)` returns who's balance as one word exactly when it has 179 gas. */
  lemma BalanceMessageRefines(env: Env, w: World, token: ByteSeq, ctx: Context, gas: nat, who: ByteSeq)
    requires Get(w, token).code == TOKEN_RUNTIME_BYTECODE
    requires SelectorsMatch(env) && EncodeBalanceOf(env, who) == Some(ctx.data)
    requires env.maxMemory >= 32 && IsWord(Slot(Get(w, token).storage, FromBE(who)))
    ensures var o := Message(env, w, token, ctx, gas); var s := Get(w, token).storage;
      && o.w == w
      && (Succeeded(o) <==> gas >= BALANCE_GAS)
      && (Succeeded(o) ==>
           o.f.ret == WordBytes(Slot(s, FromBE(who))) && o.f.storage == s && o.f.gas == gas - BALANCE_GAS)
      && (o.Raised? ==> o.e == OutOfGas)
  {
    hide Run, FromBE, IsToken, EncodeBalanceOf, SelectorsMatch, SelectorOf, WordBytes;
    TokenIsToken();
    BalanceCallReadsBack(env, who);
    var s := Get(w, token).storage;
    var m := Sim(env, Job(TOKEN_RUNTIME_BYTECODE, ctx, true), w, Fresh(0, s));
    assert m.start.(gas := gas) == Fresh(gas, s);
    var t := BalanceMessage(m);
    assert m.From(m.start, gas) == Message(env, w, token, ctx, gas);
  }
}
