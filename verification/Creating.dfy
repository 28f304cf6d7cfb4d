/** Contract creation by a contract, as whole runs: what is installed where, who pays, and what is left after a
    failure. */
module Creating {
  import opened Bytes
  import opened Words
  import opened Environment
  import opened Opcodes
  import opened Accounts
  import opened Evm
  import opened Stepping
  import opened WorldInvariants
  import opened Payments
  import opened Forwarding
  import opened Contexts
  import opened InitCode
  import EvmMemory

  /** LOAD_CALLDATA, CALLDATASIZE, PUSH1 0, CALLVALUE, CREATE: create a contract from the calldata, with the value
      sent. */
  const FACTORY: ByteSeq := LOAD_CALLDATA + [0x36, 0x60, 0x00, 0x34, 0xF0]

  const FACTORY_GAS: nat := 32018

  /** How a factory's run ends: the number on its stack, the gas it has left, and the world. */
  ghost predicate Makes(o: Outcome, flag: nat, gas: nat, w: World) {
    o.Done? && !o.f.reverted && o.f.stack == [flag] && o.f.gas == gas && o.w == w
  }

  function AtCreate(ctx: Context, storage: map<nat, nat>, pc: nat, gas: nat): Frame {
    Fresh(gas, storage).(pc := pc, mem := EvmMemory.Padded(ctx.data), stack := [|ctx.data|, 0, ctx.value])
  }

  lemma FactoryBytes()
    ensures |FACTORY| == 11 && Section(FACTORY, 0, LOAD_CALLDATA)
    ensures FACTORY[6] == 0x36 && FACTORY[7] == 0x60 && FACTORY[8] == 0 && FACTORY[9] == 0x34 && FACTORY[10] == 0xF0
  {}

  lemma ReachesCreate(env: Env, ctx: Context, attached: bool, storage: map<nat, nat>, gas: nat, w: World)
    requires EvmMemory.RoundUp32(|ctx.data|) <= env.maxMemory
    ensures var o := Run(env, Job(FACTORY, ctx, attached), Fresh(gas, storage), w);
      o == if gas < 18 then Raised(OutOfGas, w)
           else Run(env, Job(FACTORY, ctx, attached), AtCreate(ctx, storage, 10, gas - 18), w)
  {
    hide Sim.At, Run, FACTORY, LOAD_CALLDATA, Section, EvmMemory.Padded, EvmMemory.RoundUp32;
    var m := Sim(env, Job(FACTORY, ctx, attached), w, Fresh(0, storage));
    assert m.start.(gas := gas) == Fresh(gas, storage);
    FactoryBytes();
    var t := Loads(m);
    t := StepNullary(m, t, 11, 0x36, |ctx.data|);
    t := StepPush1(m, t, 13, 0);
    t := StepNullary(m, t, 16, 0x34, ctx.value);
    ShortOfGas(m, t, 18, gas);
    if gas >= 18 {
      ComesBy(m, t, 18, gas);
      assert t.(gas := gas - 18) == AtCreate(ctx, storage, 10, gas - 18);
    }
  }

  /** The CREATE of the factory, up to the frame of the init code. */
  lemma FactoryBegins(env: Env, ctx: Context, attached: bool, storage: map<nat, nat>, gas: nat, w: World)
    requires EvmMemory.RoundUp32(|ctx.data|) <= env.maxMemory && gas >= FACTORY_GAS
    ensures var job := Job(FACTORY, ctx, attached); var f := AtCreate(ctx, storage, 11, gas - FACTORY_GAS);
      var o := Run(env, job, Fresh(gas, storage), w); var p := BeginCreate(env, job, f, w);
      && (p.Fail? ==> o == Raised(p.e, w))
      && (p.Next? ==> o == Done(p.f, p.w))
      && (p.Spawn? ==> o == Resume(env, p.k, Run(env, p.child, p.init, p.w)))
  {
    hide Run, BeginCreate, Resume, FACTORY, EvmMemory.Padded, EvmMemory.RoundUp32;
    ReachesCreate(env, ctx, attached, storage, gas, w);
    FactoryBytes();
    var job, f := Job(FACTORY, ctx, attached), AtCreate(ctx, storage, 10, gas - 18);
    assert f.(gas := f.gas - GAS_CREATE, pc := f.pc + 1) == AtCreate(ctx, storage, 11, gas - FACTORY_GAS);
    EndsWithCreate(env, job, f, w);
  }

  /** Whatever the init code: it runs as a message from the factory to the derived address, with the value sent and
      without calldata, on empty storage and all the gas the factory has left. If it succeeds, what it returns becomes
      the account's code and what it stored is written there, and the address is the factory's answer. If it reverts
      the answer is 0, if it runs out of gas too, and then the factory keeps its gas; any other error goes through. */
  lemma FactoryCreates(env: Env, ctx: Context, storage: map<nat, nat>, gas: nat, w: World, address: Address)
    requires EvmMemory.RoundUp32(|ctx.data|) <= env.maxMemory && gas >= FACTORY_GAS
    requires ContractAddress(env, ctx.address, Get(w, ctx.address).nonce) == Some(address)
    ensures var o := Run(env, Job(FACTORY, ctx, true), Fresh(gas, storage), w); var left := gas - FACTORY_GAS;
      var counted := IncrementNonce(w, ctx.address); var start := Endowed(counted, ctx.address, address, ctx.value);
      && (start.None? ==> Makes(o, 0, left, AddBalance(counted, address, 0)))
      && (start.Some? ==>
           var c := Run(env, Job(ctx.data, Context(ctx.address, address, ctx.value, []), true), Fresh(left, map[]),
                        start.value);
           && (c.Raised? && c.e != OutOfGas ==> o == c)
           && (c.Raised? && c.e == OutOfGas ==> Makes(o, 0, left, c.w))
           && (c.Done? && c.f.reverted ==> Makes(o, 0, c.f.gas, c.w))
           && (Succeeded(c) ==>
                Makes(o, FromBE(address), c.f.gas, Persist(SetCode(c.w, address, c.f.ret), address, c.f.storage))))
  {
    hide Run, FromBE, FACTORY, Transfer, Persist, SetCode, AddBalance, IncrementNonce, ContractAddress,
      EvmMemory.Padded, EvmMemory.RoundUp32, EvmMemory.ReadRange;
    FactoryBegins(env, ctx, true, storage, gas, w);
    EvmMemory.FirstWrite(env.maxMemory, ctx.data);
  }

  /** A frame without a world state creates nothing and gets 0. */
  lemma FactoryCreatesNothing(env: Env, ctx: Context, storage: map<nat, nat>, gas: nat, w: World)
    requires EvmMemory.RoundUp32(|ctx.data|) <= env.maxMemory && gas >= FACTORY_GAS
    ensures Makes(Run(env, Job(FACTORY, ctx, false), Fresh(gas, storage), w), 0, gas - FACTORY_GAS, w)
  {
    hide Run, FACTORY, EvmMemory.Padded, EvmMemory.RoundUp32, EvmMemory.ReadRange;
    FactoryBegins(env, ctx, false, storage, gas, w);
  }

  lemma PoorFactory(env: Env, ctx: Context, storage: map<nat, nat>, gas: nat, w: World)
    requires EvmMemory.RoundUp32(|ctx.data|) <= env.maxMemory && gas < FACTORY_GAS
    ensures Run(env, Job(FACTORY, ctx, true), Fresh(gas, storage), w) == Raised(OutOfGas, w)
  {
    hide FACTORY, EvmMemory.Padded, EvmMemory.RoundUp32, BeginCreate;
    ReachesCreate(env, ctx, true, storage, gas, w);
    FactoryBytes();
    if gas >= 18 {
      assert Begin(env, Job(FACTORY, ctx, true), AtCreate(ctx, storage, 10, gas - 18), w) == Fail(OutOfGas);
    }
  }

  /** What every attempt to create does to every account, whatever becomes of it: the creator's nonce goes up, and a
      value it covers moves to the new address. */
  ghost predicate Attempted(w: World, after: World, creator: ByteSeq, address: ByteSeq, value: nat) {
    forall a :: var x, y := Get(after, a), Get(w, a);
      && x.nonce == y.nonce + (if a == creator then 1 else 0)
      && x.balance == y.balance - (if a == creator && value <= Get(w, creator).balance then value else 0)
                                + (if a == address && value <= Get(w, creator).balance then value else 0)
      && (a != address ==> x.code == y.code && x.storage == y.storage)
  }

  lemma AttemptedStart(w: World, creator: ByteSeq, address: ByteSeq, value: nat)
    ensures var counted := IncrementNonce(w, creator); var start := Endowed(counted, creator, address, value);
      && (start.Some? <==> value <= Get(w, creator).balance)
      && (start.None? ==> Attempted(w, AddBalance(counted, address, 0), creator, address, value))
      && (start.Some? ==> Attempted(w, start.value, creator, address, value)
                          && Get(start.value, address).code == Get(w, address).code
                          && Get(start.value, address).storage == Get(w, address).storage)
  {
    hide Endowed;
    var counted := IncrementNonce(w, creator);
    CoversEndowment(counted, creator, address, value);
    var start := Endowed(counted, creator, address, value);
    if start.Some? {
      forall a ensures Get(start.value, a).code == Get(w, a).code {
        EndowedAccount(counted, creator, address, value, a);
      }
      forall a ensures Get(start.value, a).balance == Get(counted, a).balance
        - (if a == creator then value else 0) + (if a == address then value else 0)
        && Get(start.value, a).nonce == Get(counted, a).nonce && Get(start.value, a).storage == Get(counted, a).storage
      {
        EndowedAccount(counted, creator, address, value, a);
      }
    }
  }

  lemma AttemptedInstalled(w: World, after: World, creator: ByteSeq, address: ByteSeq, value: nat,
                           code: ByteSeq, storage: map<nat, nat>)
    requires Attempted(w, after, creator, address, value)
    ensures Attempted(w, Persist(SetCode(after, address, code), address, storage), creator, address, value)
  {}

  /** A contract that creates from `build_init_code(runtime)`: if it covers the value and has 18 gas left, the runtime
      code is at the derived address and that address is its answer, for 18 gas; otherwise the answer is 0, all the gas
      is left, and the code there is what it was. In every case the nonce is used up and a covered value has moved. */
  lemma FactoryDeploys(env: Env, ctx: Context, storage: map<nat, nat>, gas: nat, w: World, address: Address,
                       runtime: ByteSeq)
    requires BuildInitCode(runtime) == Some(ctx.data) && EvmMemory.RoundUp32(|ctx.data|) <= env.maxMemory
    requires ContractAddress(env, ctx.address, Get(w, ctx.address).nonce) == Some(address) && gas >= FACTORY_GAS
    ensures var o := Run(env, Job(FACTORY, ctx, true), Fresh(gas, storage), w); var left := gas - FACTORY_GAS;
      var made := ctx.value <= Get(w, ctx.address).balance && left >= DEPLOY_GAS;
      && o.Done? && !o.f.reverted && o.f.stack == [if made then FromBE(address) else 0]
      && o.f.gas == (if made then left - DEPLOY_GAS else left)
      && Get(o.w, address).code == (if made then runtime else Get(w, address).code)
      && Get(o.w, address).storage == Get(w, address).storage
      && Attempted(w, o.w, ctx.address, address, ctx.value)
  {
    hide Run, FromBE, FACTORY, Endowed, Attempted, BuildInitCode, EndsIn, ContractAddress, Persist, SetCode,
      EvmMemory.RoundUp32;
    FactoryCreates(env, ctx, storage, gas, w, address);
    AttemptedStart(w, ctx.address, address, ctx.value);
    var left := gas - FACTORY_GAS;
    var start := Endowed(IncrementNonce(w, ctx.address), ctx.address, address, ctx.value);
    if start.Some? {
      var job := Job(ctx.data, Context(ctx.address, address, ctx.value, []), true);
      var m := Sim(env, job, start.value, Fresh(0, map[]));
      assert m.start.(gas := left) == Fresh(left, map[]);
      ShorterRuntime(runtime, ctx.data);
      var t := DeployerReturnsRuntime(m, runtime);
      EndedBy(m, t, DEPLOY_GAS, left);
      Installed(start.value, address, runtime, map[]);
      AttemptedInstalled(w, start.value, ctx.address, address, ctx.value, runtime, map[]);
      assert Get(w, address).storage + map[] == Get(w, address).storage;
    } else {
      UntouchedCode(w, ctx.address, address);
    }
  }

  lemma UntouchedCode(w: World, creator: ByteSeq, address: ByteSeq)
    ensures var x := Get(AddBalance(IncrementNonce(w, creator), address, 0), address);
      x.code == Get(w, address).code && x.storage == Get(w, address).storage
  {}

  lemma ShorterRuntime(runtime: ByteSeq, init: ByteSeq)
    requires BuildInitCode(runtime) == Some(init)
    ensures EvmMemory.RoundUp32(|runtime|) <= EvmMemory.RoundUp32(|init|)
  {}

  /** A contract that creates from the constructor: with the gas for it, the new account's storage says who created it,
      that is the factory and not whoever called that, with what value and where, and holds the constructor's word. */
  lemma FactoryConstructs(env: Env, ctx: Context, storage: map<nat, nat>, gas: nat, w: World, address: Address,
                          runtime: ByteSeq, k: nat, v: nat)
    requires IsWord(k) && IsWord(v) && |runtime| <= 255 && ctx.data == Constructor(runtime, k, v)
    requires EvmMemory.RoundUp32(|ctx.data|) <= env.maxMemory
    requires ContractAddress(env, ctx.address, Get(w, ctx.address).nonce) == Some(address) && gas >= FACTORY_GAS
    ensures var o := Run(env, Job(FACTORY, ctx, true), Fresh(gas, storage), w); var left := gas - FACTORY_GAS;
      var made := ctx.value <= Get(w, ctx.address).balance && left >= CONSTRUCT_GAS;
      && o.Done? && !o.f.reverted && o.f.stack == [if made then FromBE(address) else 0]
      && o.f.gas == (if made then left - CONSTRUCT_GAS else left)
      && Get(o.w, address).code == (if made then runtime else Get(w, address).code)
      && (forall i: nat :: Slot(Get(o.w, address).storage, i) ==
            if !made then Slot(Get(w, address).storage, i)
            else if i == k then v else if i == 0 then FromBE(ctx.address) else if i == 1 then ctx.value
            else if i == 2 then FromBE(address) else Slot(Get(w, address).storage, i))
      && Attempted(w, o.w, ctx.address, address, ctx.value)
  {
    hide Run, FromBE, FACTORY, Endowed, Attempted, Constructor, Constructed, EndsIn, ContractAddress, Persist, SetCode,
      EvmMemory.RoundUp32;
    FactoryCreates(env, ctx, storage, gas, w, address);
    AttemptedStart(w, ctx.address, address, ctx.value);
    var left := gas - FACTORY_GAS;
    var start := Endowed(IncrementNonce(w, ctx.address), ctx.address, address, ctx.value);
    if start.Some? {
      var inner := Context(ctx.address, address, ctx.value, []);
      var m := Sim(env, Job(ctx.data, inner, true), start.value, Fresh(0, map[]));
      assert m.start.(gas := left) == Fresh(left, map[]);
      ShorterConstructed(runtime, k, v);
      var t := ConstructorRuns(m, runtime, k, v);
      EndedBy(m, t, CONSTRUCT_GAS, left);
      var stored := Constructed(inner, k, v);
      Installed(start.value, address, runtime, stored);
      AttemptedInstalled(w, start.value, ctx.address, address, ctx.value, runtime, stored);
      forall i: nat ensures Slot(Get(w, address).storage + stored, i) ==
        if i == k then v else if i == 0 then FromBE(inner.caller) else if i == 1 then inner.value
        else if i == 2 then FromBE(inner.address) else Slot(Get(w, address).storage, i)
      {
        ConstructedSlot(Get(w, address).storage, inner, k, v, i);
      }
    } else {
      UntouchedCode(w, ctx.address, address);
    }
  }

  lemma ShorterConstructed(runtime: ByteSeq, k: nat, v: nat)
    requires IsWord(k) && IsWord(v) && |runtime| <= 255
    ensures EvmMemory.RoundUp32(|runtime|) <= EvmMemory.RoundUp32(|Constructor(runtime, k, v)|)
  {}
}
