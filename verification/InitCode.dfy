/** Init code: the 12-byte deployer that returns the runtime code appended to it, and a constructor before it. */
module InitCode {
  import opened Bytes
  import opened Words
  import opened Environment
  import opened Opcodes
  import opened Accounts
  import opened Transactions
  import opened Evm
  import opened EvmInvariants
  import opened Stepping
  import opened WorldInvariants
  import opened StateTransition
  import opened Payments
  import opened Contexts
  import EvmMemory

  // ----- the deployer -----

  /** PUSH1 n, PUSH1 off, PUSH1 0, CODECOPY, PUSH1 n, PUSH1 0, RETURN: return the n bytes of code at `off`. */
  function Deployer(n: Byte, off: Byte): ByteSeq {
    [0x60, n, 0x60, off, 0x60, 0x00, 0x39, 0x60, n, 0x60, 0x00, 0xF3]
  }

  /** None stands for the ValueError of a length that does not fit one byte. */
  function BuildInitCode(runtime: ByteSeq): Option<ByteSeq> {
    if |runtime| > 255 then None else Some(Deployer(|runtime|, 12) + runtime)
  }

  const DEPLOY_GAS: nat := 18

  lemma DeployerBytes(c: ByteSeq, p: nat, n: Byte, off: Byte)
    requires Section(c, p, Deployer(n, off))
    ensures p + 12 <= |c|
    ensures c[p] == 0x60 && c[p + 1] == n && c[p + 2] == 0x60 && c[p + 3] == off && c[p + 4] == 0x60 && c[p + 5] == 0
    ensures c[p + 6] == 0x39 && c[p + 7] == 0x60 && c[p + 8] == n && c[p + 9] == 0x60 && c[p + 10] == 0
    ensures c[p + 11] == 0xF3
  {
    var d := Deployer(n, off);
    var part := c[p..p + |d|];
    assert c[p] == part[0] && c[p + 1] == part[1] && c[p + 2] == part[2] && c[p + 3] == part[3];
    assert c[p + 4] == part[4] && c[p + 5] == part[5] && c[p + 6] == part[6] && c[p + 7] == part[7];
    assert c[p + 8] == part[8] && c[p + 9] == part[9] && c[p + 10] == part[10] && c[p + 11] == part[11];
  }

  lemma SectionWindow(c: ByteSeq, lo: nat, bs: ByteSeq)
    requires Section(c, lo, bs)
    ensures Window(c, lo, |bs|) == bs
  {
    forall i | 0 <= i < |bs| ensures Window(c, lo, |bs|)[i] == bs[i] { SectionByte(c, lo, bs, i); }
  }

  /** Wherever the deployer stands in its code, it returns exactly the runtime code it points at. */
  lemma ReturnsRuntime(m: Sim, s: Frame, c: nat, off: Byte, runtime: ByteSeq) returns (t: Frame)
    requires |runtime| <= 255 && Section(m.job.code, s.pc, Deployer(|runtime|, off))
        && Section(m.job.code, off, runtime)
    requires m.At(s, c) && s.stack == [] && s.mem == [] && !s.reverted
    requires EvmMemory.RoundUp32(|runtime|) <= m.env.maxMemory
    ensures EndsIn(m, c + DEPLOY_GAS, t) && t.ret == runtime && !t.reverted && t.storage == s.storage
  {
    hide Sim.At, EndsIn, Window, Deployer, Section, EvmMemory.WriteRange, EvmMemory.ReadRange, EvmMemory.RoundUp32,
      EvmMemory.Padded;
    var n := |runtime|;
    DeployerBytes(m.job.code, s.pc, n, off);
    SectionWindow(m.job.code, off, runtime);
    EvmMemory.FirstWrite(m.env.maxMemory, runtime);
    t := StepPush1(m, s, c, n);
    t := StepPush1(m, t, c + 3, off);
    t := StepPush1(m, t, c + 6, 0);
    t := StepCodeCopy(m, t, c + 9, [], 0, off, n, EvmMemory.Padded(runtime));
    t := StepPush1(m, t, c + 12, n);
    t := StepPush1(m, t, c + 15, 0);
    t := StepReturn(m, t, c + 18, [], 0, n, EvmMemory.Padded(runtime), runtime, false);
  }

  lemma InitCodeSections(runtime: ByteSeq, c: ByteSeq)
    requires BuildInitCode(runtime) == Some(c)
    ensures |runtime| <= 255 && Section(c, 0, Deployer(|runtime|, 12)) && Section(c, 12, runtime)
  {}

  /** Run on any account with at least 18 gas the deployer returns exactly the runtime code. */
  lemma DeployerReturnsRuntime(m: Sim, runtime: ByteSeq) returns (t: Frame)
    requires BuildInitCode(runtime) == Some(m.job.code) && m.start == Fresh(0, m.start.storage)
    requires EvmMemory.RoundUp32(|runtime|) <= m.env.maxMemory
    ensures EndsIn(m, DEPLOY_GAS, t) && t.ret == runtime && !t.reverted && t.storage == m.start.storage
  {
    hide Sim.At, EndsIn, BuildInitCode, Deployer, Section, EvmMemory.RoundUp32;
    InitCodeSections(runtime, m.job.code);
    AtStart(m);
    t := ReturnsRuntime(m, m.start, 0, 12, runtime);
  }

  // ----- a constructor -----

  /** PUSH32 v, PUSH32 k, SSTORE */
  function StoreWord(k: nat, v: nat): ByteSeq
    requires IsWord(k) && IsWord(v)
  {
    [0x7F] + WordBytes(v) + [0x7F] + WordBytes(k) + [0x55]
  }

  /** Init code that records its context, stores v at k, and deploys the runtime code. */
  function Constructor(runtime: ByteSeq, k: nat, v: nat): ByteSeq
    requires IsWord(k) && IsWord(v) && |runtime| <= 255
  {
    RECORD + StoreWord(k, v) + Deployer(|runtime|, 91) + runtime
  }

  const CONSTRUCT_GAS: nat := 20039

  function Constructed(ctx: Context, k: nat, v: nat): map<nat, nat> {
    Recorded(map[], ctx)[k := v]
  }

  lemma StoreWordParts(k: nat, v: nat)
    requires IsWord(k) && IsWord(v)
    ensures var c := StoreWord(k, v);
      && |c| == 67 && c[0] == 0x7F && c[33] == 0x7F && c[66] == 0x55
      && c[1..33] == WordBytes(v) && c[34..66] == WordBytes(k)
  {
    hide WordBytes;
  }

  lemma StoresWord(m: Sim, s: Frame, c: nat, k: nat, v: nat) returns (t: Frame)
    requires IsWord(k) && IsWord(v) && m.At(s, c) && s.stack == [] && Section(m.job.code, s.pc, StoreWord(k, v))
    ensures t == s.(pc := s.pc + 67, storage := s.storage[k := v]) && m.At(t, c + 5006)
  {
    hide Sim.At, Window, WordBytes, StoreWord, FromBE;
    var code, part, p := m.job.code, StoreWord(k, v), s.pc;
    StoreWordParts(k, v);
    SectionByte(code, p, part, 0);
    SectionByte(code, p, part, 33);
    SectionByte(code, p, part, 66);
    assert Section(part, 1, WordBytes(v)) && Section(part, 34, WordBytes(k));
    SectionOfSection(code, p, part, 1, WordBytes(v));
    SectionOfSection(code, p, part, 34, WordBytes(k));
    SectionWindow(code, p + 1, WordBytes(v));
    SectionWindow(code, p + 34, WordBytes(k));
    WordBytesRoundTrip(v);
    WordBytesRoundTrip(k);
    t := StepPush(m, s, c, 32, v);
    t := StepPush(m, t, c + 3, 32, k);
    t := StepSstore(m, t, c + 6, [], k, v);
  }

  lemma ConstructorSections(runtime: ByteSeq, k: nat, v: nat)
    requires IsWord(k) && IsWord(v) && |runtime| <= 255
    ensures var c := Constructor(runtime, k, v);
      && Section(c, 0, RECORD) && Section(c, 12, StoreWord(k, v))
      && Section(c, 79, Deployer(|runtime|, 91)) && Section(c, 91, runtime)
  {
    hide StoreWord;
    StoreWordParts(k, v);
    var a, b, d := RECORD, StoreWord(k, v), Deployer(|runtime|, 91);
    var c := a + b + d + runtime;
    assert c[0..12] == a && c[12..79] == b && c[79..91] == d && c[91..91 + |runtime|] == runtime;
  }

  /** Run on any account with the gas for it, the constructor leaves its context and its word in storage and returns the
      runtime code. */
  lemma ConstructorRuns(m: Sim, runtime: ByteSeq, k: nat, v: nat) returns (t: Frame)
    requires IsWord(k) && IsWord(v) && |runtime| <= 255 && m.job.code == Constructor(runtime, k, v)
    requires m.start == Fresh(0, map[]) && EvmMemory.RoundUp32(|runtime|) <= m.env.maxMemory
    ensures EndsIn(m, CONSTRUCT_GAS, t) && t.ret == runtime && !t.reverted && t.storage == Constructed(m.job.ctx, k, v)
  {
    hide Sim.At, EndsIn, Constructor, Deployer, Section, StoreWord, RECORD, Recorded, EvmMemory.RoundUp32;
    ConstructorSections(runtime, k, v);
    AtStart(m);
    t := Records(m, m.start, 0);
    t := StoresWord(m, t, RECORD_GAS, k, v);
    t := ReturnsRuntime(m, t, RECORD_GAS + 5006, 91, runtime);
  }

  // ----- creation transactions -----

  /** The state in which the init code of a creation starts: an account at the address, and the value there. */
  function Endowed(w: World, creator: ByteSeq, address: ByteSeq, value: nat): Option<World> {
    Transfer(AddBalance(w, address, 0), creator, address, value)
  }

  /** A creation transaction runs its data as init code for the derived address, as a message from the sender with the
      value and without calldata, and installs what it returns and stores. */
  lemma CreationTransaction(env: Env, tx: Transaction, w: World, limit: nat, address: Address)
    requires Validate(env, tx, w, limit).Valid? && tx.to == []
    requires ContractAddress(env, Sender(env, tx), tx.nonce) == Some(address)
    ensures var sender, charged := Sender(env, tx), Charged(env, tx, w, limit); var r := Apply(env, tx, w, limit);
      var start := Endowed(charged, sender, address, tx.value);
      start.Some? &&
      var o := Run(env, Job(tx.data, Context(sender, address, tx.value, []), true),
                   Fresh(tx.gas - IntrinsicGas(tx.data), map[]), start.value);
      && (r.receipt.success <==> Succeeded(o))
      && r.receipt.returnData == (if o.Done? then o.f.ret else [])
      && (Succeeded(o) ==>
           && r.receipt.gasRemaining == o.f.gas && r.receipt.contractAddress == Some(address)
           && Get(r.w, address).code == o.f.ret
           && Get(r.w, address).storage == Get(o.w, address).storage + o.f.storage)
    ensures var sender, charged, gas := Sender(env, tx), Charged(env, tx, w, limit), tx.gas - IntrinsicGas(tx.data);
      var start := Endowed(charged, sender, address, tx.value);
      start.Some? && PayloadFrame(env, tx, sender, charged, gas) ==
        Some(Visit(Job(tx.data, Context(sender, address, tx.value, []), true), Fresh(gas, map[]), start.value))
  {
    hide Run, IntrinsicGas, Fee, Transfer, Apply, Charged, ExecuteContractCall, ExecuteValueTransfer, Validate,
      ContractAddress, Persist, SetCode, AddBalance;
    var sender, charged := Sender(env, tx), Charged(env, tx, w, limit);
    ChargedAccount(env, tx, w, limit, sender);
    CoversEndowment(charged, sender, address, tx.value);
    AppliedWhenValid(env, tx, w, limit);
    UnusedGasGoesBack(env, tx, w, limit, address);
    Returned(env, tx, w, limit);
    var w2 := Endowed(charged, sender, address, tx.value).value;
    var o := Run(env, Job(tx.data, Context(sender, address, tx.value, []), true),
                 Fresh(tx.gas - IntrinsicGas(tx.data), map[]), w2);
    if Succeeded(o) { Installed(o.w, address, o.f.ret, o.f.storage); }
  }

  lemma CoversEndowment(w: World, creator: ByteSeq, address: ByteSeq, value: nat)
    ensures Endowed(w, creator, address, value).Some? <==> value <= Get(w, creator).balance
  {}

  lemma Installed(w: World, address: ByteSeq, code: ByteSeq, storage: map<nat, nat>)
    ensures var a := Get(Persist(SetCode(w, address, code), address, storage), address);
      a.code == code && a.storage == Get(w, address).storage + storage
  {
    assert Get(w, address).storage + map[] == Get(w, address).storage;
  }

  lemma EndowedAccount(w: World, creator: ByteSeq, address: ByteSeq, value: nat, a: ByteSeq)
    requires Endowed(w, creator, address, value).Some?
    ensures var after, before := Get(Endowed(w, creator, address, value).value, a), Get(w, a);
      && after.code == before.code && after.storage == before.storage && after.nonce == before.nonce
      && after.balance == before.balance - (if a == creator then value else 0) + (if a == address then value else 0)
  {
    var w1 := AddBalance(w, address, 0);
    TransferKeepsCode(w1, creator, address, value, a);
    TransferBalances(w1, creator, address, value, a);
  }

  /** A creation transaction whose data is `build_init_code(runtime)` stores exactly `runtime` at the derived
      address when 18 gas is left after the intrinsic cost, and otherwise fails; everyone is paid what is due. */
  lemma DeployTransaction(env: Env, tx: Transaction, w: World, limit: nat, runtime: ByteSeq)
    requires Validate(env, tx, w, limit).Valid? && tx.to == []
    requires BuildInitCode(runtime) == Some(tx.data) && EvmMemory.RoundUp32(|runtime|) <= env.maxMemory
    requires ContractAddress(env, Sender(env, tx), tx.nonce).Some?
    ensures var r := Apply(env, tx, w, limit); var address := ContractAddress(env, Sender(env, tx), tx.nonce).value;
      && (r.receipt.success <==> tx.gas >= IntrinsicGas(tx.data) + DEPLOY_GAS)
      && (r.receipt.success ==>
           && Get(r.w, address).code == runtime && Get(r.w, address).storage == Get(w, address).storage
           && r.receipt.contractAddress == Some(address)
           && r.receipt.returnData == runtime
           && r.receipt.gasUsed == IntrinsicGas(tx.data) + DEPLOY_GAS)
      && forall a :: Get(r.w, a).balance == Due(env, tx, w, r.receipt, a)
  {
    hide Run, IntrinsicGas, Fee, BuildInitCode, ContractAddress, Apply, Charged, Validate, EndsIn, Due, PayloadFrame,
      EvmMemory.RoundUp32;
    var address := ContractAddress(env, Sender(env, tx), tx.nonce).value;
    CreationTransaction(env, tx, w, limit, address);
    var charged := Charged(env, tx, w, limit);
    var start := Endowed(charged, Sender(env, tx), address, tx.value).value;
    EndowedAccount(charged, Sender(env, tx), address, tx.value, address);
    ChargedAccount(env, tx, w, limit, address);
    var gas := tx.gas - IntrinsicGas(tx.data);
    var m := Sim(env, Job(tx.data, Context(Sender(env, tx), address, tx.value, []), true), start, Fresh(0, map[]));
    assert m.start.(gas := gas) == Fresh(gas, map[]);
    var t := DeployerReturnsRuntime(m, runtime);
    EndedBy(m, t, DEPLOY_GAS, gas);
    assert Get(start, address).storage + map[] == Get(start, address).storage;
    SettledAround(env, tx, w, limit, m.From(m.start, gas));
  }

  /** A creation transaction with the constructor, when the gas left after the intrinsic cost suffices: the runtime code
      and, in storage, who created the contract, with what value, at what address, and the word k holding v; and
      otherwise it fails. */
  lemma ConstructorTransaction(env: Env, tx: Transaction, w: World, limit: nat, runtime: ByteSeq, k: nat, v: nat)
    requires Validate(env, tx, w, limit).Valid? && tx.to == []
    requires IsWord(k) && IsWord(v) && |runtime| <= 255 && tx.data == Constructor(runtime, k, v)
    requires EvmMemory.RoundUp32(|runtime|) <= env.maxMemory && ContractAddress(env, Sender(env, tx), tx.nonce).Some?
    ensures var r := Apply(env, tx, w, limit); var address := ContractAddress(env, Sender(env, tx), tx.nonce).value;
      && (r.receipt.success <==> tx.gas >= IntrinsicGas(tx.data) + CONSTRUCT_GAS)
      && (r.receipt.success ==>
           && Get(r.w, address).code == runtime && r.receipt.contractAddress == Some(address)
           && r.receipt.gasUsed == IntrinsicGas(tx.data) + CONSTRUCT_GAS
           && forall i: nat :: Slot(Get(r.w, address).storage, i) ==
                if i == k then v else if i == 0 then FromBE(Sender(env, tx)) else if i == 1 then tx.value
                else if i == 2 then FromBE(address) else Slot(Get(w, address).storage, i))
      && forall a :: Get(r.w, a).balance == Due(env, tx, w, r.receipt, a)
  {
    hide Run, FromBE, IntrinsicGas, Fee, Constructor, Constructed, ContractAddress, Apply, Charged, Validate, EndsIn,
        Due,
      PayloadFrame, EvmMemory.RoundUp32;
    var address := ContractAddress(env, Sender(env, tx), tx.nonce).value;
    CreationTransaction(env, tx, w, limit, address);
    var charged := Charged(env, tx, w, limit);
    var start := Endowed(charged, Sender(env, tx), address, tx.value).value;
    EndowedAccount(charged, Sender(env, tx), address, tx.value, address);
    ChargedAccount(env, tx, w, limit, address);
    var gas, ctx := tx.gas - IntrinsicGas(tx.data), Context(Sender(env, tx), address, tx.value, []);
    var m := Sim(env, Job(tx.data, ctx, true), start, Fresh(0, map[]));
    assert m.start.(gas := gas) == Fresh(gas, map[]);
    var t := ConstructorRuns(m, runtime, k, v);
    EndedBy(m, t, CONSTRUCT_GAS, gas);
    SettledAround(env, tx, w, limit, m.From(m.start, gas));
    forall i: nat ensures Slot(Get(w, address).storage + Constructed(ctx, k, v), i) ==
      if i == k then v else if i == 0 then FromBE(ctx.caller) else if i == 1 then ctx.value
      else if i == 2 then FromBE(ctx.address) else Slot(Get(w, address).storage, i)
    {
      ConstructedSlot(Get(w, address).storage, ctx, k, v, i);
    }
  }

  lemma ConstructedSlot(s: map<nat, nat>, ctx: Context, k: nat, v: nat, i: nat)
    ensures Slot(s + Constructed(ctx, k, v), i) ==
      if i == k then v else if i == 0 then FromBE(ctx.caller) else if i == 1 then ctx.value
      else if i == 2 then FromBE(ctx.address) else Slot(s, i)
  {
    hide FromBE;
  }
}
