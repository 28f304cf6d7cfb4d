/** What code sees of the message that runs it, and what becomes of what it returns: two programs that tell. */
module Contexts {
  import opened Bytes
  import opened Environment
  import opened Opcodes
  import opened Accounts
  import opened Transactions
  import opened Evm
  import opened EvmInvariants
  import opened Stepping
  import opened WorldInvariants
  import opened StateTransition
  import opened Payments
  import opened Limits
  import opened Forwarding
  import EvmMemory

  // ----- a program that records its caller, its value and its address -----

  /** CALLER, PUSH1 0, SSTORE, CALLVALUE, PUSH1 1, SSTORE, ADDRESS, PUSH1 2, SSTORE */
  const RECORD: ByteSeq := [0x33, 0x60, 0x00, 0x55, 0x34, 0x60, 0x01, 0x55, 0x30, 0x60, 0x02, 0x55]

  const RECORD_GAS: nat := 15015

  function Recorded(storage: map<nat, nat>, ctx: Context): map<nat, nat> {
    storage[0 := FromBE(ctx.caller)][1 := ctx.value][2 := FromBE(ctx.address)]
  }

  /** One of its three parts: push a value of the context, store it at `key`. */
  lemma StoresOne(m: Sim, s: Frame, c: nat, b: Byte, key: Byte, v: nat) returns (t: Frame)
    requires m.At(s, c) && s.stack == [] && s.pc + 4 <= |m.job.code|
    requires m.job.code[s.pc] == b && m.job.code[s.pc + 1] == 0x60 && m.job.code[s.pc + 2] == key
    requires m.job.code[s.pc + 3] == 0x55
    requires (b == 0x33 && v == FromBE(m.job.ctx.caller)) || (b == 0x34 && v == m.job.ctx.value)
      || (b == 0x30 && v == FromBE(m.job.ctx.address))
    ensures t == s.(pc := s.pc + 4, storage := s.storage[key := v]) && m.At(t, c + 5005)
  {
    hide Sim.At, FromBE;
    t := StepNullary(m, s, c, b, v);
    t := StepPush1(m, t, c + 2, key);
    t := StepSstore(m, t, c + 5, [], key, v);
  }

  lemma RecordBytes(code: ByteSeq, p: nat)
    requires Section(code, p, RECORD)
    ensures p + 12 <= |code|
    ensures code[p] == 0x33 && code[p + 1] == 0x60 && code[p + 2] == 0 && code[p + 3] == 0x55
    ensures code[p + 4] == 0x34 && code[p + 5] == 0x60 && code[p + 6] == 1 && code[p + 7] == 0x55
    ensures code[p + 8] == 0x30 && code[p + 9] == 0x60 && code[p + 10] == 2 && code[p + 11] == 0x55
  {
    var part := code[p..p + |RECORD|];
    assert code[p] == part[0] && code[p + 1] == part[1] && code[p + 2] == part[2] && code[p + 3] == part[3];
    assert code[p + 4] == part[4] && code[p + 5] == part[5] && code[p + 6] == part[6] && code[p + 7] == part[7];
    assert code[p + 8] == part[8] && code[p + 9] == part[9] && code[p + 10] == part[10] && code[p + 11] == part[11];
  }

  lemma Records(m: Sim, s: Frame, c: nat) returns (t: Frame)
    requires m.At(s, c) && Section(m.job.code, s.pc, RECORD) && s.stack == []
    ensures t == s.(pc := s.pc + 12, storage := Recorded(s.storage, m.job.ctx)) && m.At(t, c + RECORD_GAS)
  {
    hide Sim.At, FromBE, RECORD, Section;
    RecordBytes(m.job.code, s.pc);
    t := StoresOne(m, s, c, 0x33, 0, FromBE(m.job.ctx.caller));
    t := StoresOne(m, t, c + 5005, 0x34, 1, m.job.ctx.value);
    t := StoresOne(m, t, c + 10010, 0x30, 2, FromBE(m.job.ctx.address));
  }

  /** The recorder as a contract: STOP after it. */
  const RECORDER: ByteSeq := RECORD + [0x00]

  /** Any message to the recorder. */
  lemma RecorderMessage(env: Env, w: World, target: ByteSeq, ctx: Context, gas: nat)
    requires Get(w, target).code == RECORDER
    ensures var o := Message(env, w, target, ctx, gas);
      && o.w == w
      && (if gas < RECORD_GAS then o == Raised(OutOfGas, w)
          else Succeeded(o) && o.f.storage == Recorded(Get(w, target).storage, ctx) && o.f.gas == gas - RECORD_GAS
               && o.f.ret == [])
  {
    hide Sim.At, EndsIn, FromBE, Run, Recorded;
    var storage := Get(w, target).storage;
    var m := Sim(env, Job(RECORDER, ctx, true), w, Fresh(0, storage));
    assert m.start.(gas := gas) == Fresh(gas, storage);
    assert Section(RECORDER, 0, RECORD);
    AtStart(m);
    var t := Records(m, m.start, 0);
    t := StepStop(m, t, RECORD_GAS);
    EndedBy(m, t, RECORD_GAS, gas);
    assert m.From(m.start, gas) == Message(env, w, target, ctx, gas);
  }

  lemma EndedBy(m: Sim, t: Frame, c: nat, gas: nat)
    requires EndsIn(m, c, t)
    ensures m.From(m.start, gas) == if gas < c then Raised(OutOfGas, m.w) else Done(t.(gas := gas - c), m.w)
  {
    hide Run;
  }

  // ----- a program that answers with its calldata -----

  /** LOAD_CALLDATA, CALLDATASIZE, PUSH1 0, and RETURN or REVERT */
  function Echo(reverts: bool): ByteSeq {
    LOAD_CALLDATA + [0x36, 0x60, 0x00, if reverts then 0xFD else 0xF3]
  }

  const ECHO_GAS: nat := 16

  /** Any message to the echo with calldata that memory can hold. */
  lemma EchoMessage(env: Env, w: World, target: ByteSeq, ctx: Context, gas: nat, reverts: bool)
    requires Get(w, target).code == Echo(reverts) && EvmMemory.RoundUp32(|ctx.data|) <= env.maxMemory
    ensures var o := Message(env, w, target, ctx, gas);
      if gas < ECHO_GAS then o == Raised(OutOfGas, w)
      else o.Done? && o.w == w && o.f.reverted == reverts && o.f.ret == ctx.data && o.f.gas == gas - ECHO_GAS
           && o.f.storage == Get(w, target).storage
  {
    hide Sim.At, EndsIn, FromBE, Run, EvmMemory.Padded, EvmMemory.ReadRange, EvmMemory.WriteRange, EvmMemory.RoundUp32;
    var storage := Get(w, target).storage;
    var m := Sim(env, Job(Echo(reverts), ctx, true), w, Fresh(0, storage));
    assert m.start.(gas := gas) == Fresh(gas, storage);
    assert Section(m.job.code, 0, LOAD_CALLDATA);
    assert m.job.code[6] == 0x36 && m.job.code[7] == 0x60 && m.job.code[8] == 0;
    assert m.job.code[9] == if reverts then OP_REVERT else OP_RETURN;
    EvmMemory.FirstWrite(env.maxMemory, ctx.data);
    var mem := EvmMemory.Padded(ctx.data);
    var t := Loads(m);
    t := StepNullary(m, t, 11, 0x36, |ctx.data|);
    t := StepPush1(m, t, 13, 0);
    t := StepReturn(m, t, 16, [], 0, |ctx.data|, mem, ctx.data, reverts);
    EndedBy(m, t, 16, gas);
    assert m.From(m.start, gas) == Message(env, w, target, ctx, gas);
  }

  // ----- through a contract -----

  /** Called through the forwarder the recorder sees the forwarder as its caller, not whoever called that, with the
      value
      sent on and its own address; and the forwarder pays for what it used. */
  lemma RecordedThroughContract(env: Env, target: ByteSeq, ctx: Context, storage: map<nat, nat>, gas: nat, w: World)
    requires |target| == 20 && Get(w, target).code == RECORDER
    requires EvmMemory.RoundUp32(|ctx.data|) <= env.maxMemory && env.maxMemory >= 160 && gas >= FORWARD_GAS + RECORD_GAS
    requires Transfer(w, ctx.address, target, ctx.value).Some?
    ensures var o := Run(env, Job(Forwarder(target), ctx, true), Fresh(gas, storage), w);
        var s := Get(w, target).storage;
      && o.Done? && !o.f.reverted && o.f.stack == [1] && o.f.gas == gas - FORWARD_GAS - RECORD_GAS
      && forall k: nat :: Slot(Get(o.w, target).storage, k) ==
           if k == 0 then FromBE(ctx.address) else if k == 1 then ctx.value else if k == 2 then FromBE(target)
           else Slot(s, k)
  {
    hide Run, FromBE, Forwarder, Transfer, RECORDER, EvmMemory.RoundUp32, Recorded, Persist;
    assert RECORDER != [] by { RecorderNotEmpty(); }
    var w1 := Transfer(w, ctx.address, target, ctx.value).value;
    TransferKeepsCode(w, ctx.address, target, ctx.value, target);
    ForwardsMessage(env, target, ctx, storage, gas, w);
    RecorderMessage(env, w1, target, Onward(target, ctx), Sent(gas));
    var s := Get(w, target).storage;
    var c := Message(env, w1, target, Onward(target, ctx), Sent(gas));
    PersistStorage(c.w, target, c.f.storage);
    forall k: nat ensures Slot(s + Recorded(s, Onward(target, ctx)), k) ==
      if k == 0 then FromBE(ctx.address) else if k == 1 then ctx.value else if k == 2 then FromBE(target)
      else Slot(s, k)
    {
      RecordedSlot(s, Onward(target, ctx), k);
    }
  }

  lemma RecordedSlot(s: map<nat, nat>, ctx: Context, k: nat)
    ensures Slot(s + Recorded(s, ctx), k) ==
      if k == 0 then FromBE(ctx.caller) else if k == 1 then ctx.value else if k == 2 then FromBE(ctx.address)
      else Slot(s, k)
  {
    hide FromBE;
  }

  lemma RecorderNotEmpty()
    ensures RECORDER != []
  {}

  /** An answer comes back through the forwarder as its first 32 bytes, padded with zeros; a refusal does not, and costs
      all the gas sent. */
  lemma EchoedThroughContract(
      env: Env, target: ByteSeq, ctx: Context, storage: map<nat, nat>, gas: nat, w: World, reverts: bool)
    requires |target| == 20 && Get(w, target).code == Echo(reverts) && ctx.data != []
    requires EvmMemory.RoundUp32(|ctx.data|) <= env.maxMemory && env.maxMemory >= 160 && gas >= FORWARD_GAS + ECHO_GAS
    requires Transfer(w, ctx.address, target, ctx.value).Some?
    ensures var o := Run(env, Job(Forwarder(target), ctx, true), Fresh(gas, storage), w);
      && o.Done? && !o.f.reverted && o.f.stack == [if reverts then 0 else 1]
      && Window(o.f.mem, 128, 32) == Window(ctx.data, if reverts then 128 else 0, 32)
      && o.f.gas == gas - FORWARD_GAS - (if reverts then Sent(gas) else ECHO_GAS)
  {
    hide Run, FromBE, Forwarder, Transfer, EvmMemory.RoundUp32, Window;
    var w1 := Transfer(w, ctx.address, target, ctx.value).value;
    TransferKeepsCode(w, ctx.address, target, ctx.value, target);
    ForwardsMessage(env, target, ctx, storage, gas, w);
    EchoMessage(env, w1, target, Onward(target, ctx), Sent(gas), reverts);
  }

  // ----- through a transaction -----

  /** A transaction to a contract is a message to it from the sender, with the value and data it names and the gas left
      after the intrinsic cost. */
  lemma ContractTransaction(env: Env, tx: Transaction, w: World, limit: nat)
    requires Validate(env, tx, w, limit).Valid? && tx.to != [] && Get(w, tx.to).code != []
    ensures var sender, charged := Sender(env, tx), Charged(env, tx, w, limit); var r := Apply(env, tx, w, limit);
      var paid := Transfer(charged, sender, tx.to, tx.value);
      paid.Some? &&
      var c := Message(env, paid.value, tx.to, Context(sender, tx.to, tx.value, tx.data),
          tx.gas - IntrinsicGas(tx.data));
      && (r.receipt.success <==> Succeeded(c))
      && r.receipt.returnData == (if c.Done? then c.f.ret else [])
      && (Succeeded(c) ==>
           && r.receipt.gasRemaining == c.f.gas
           && Get(r.w, tx.to).storage == Get(c.w, tx.to).storage + c.f.storage
           && Get(r.w, tx.to).code == Get(c.w, tx.to).code)
    ensures var sender, charged, gas := Sender(env, tx), Charged(env, tx, w, limit), tx.gas - IntrinsicGas(tx.data);
      var paid := Transfer(charged, sender, tx.to, tx.value);
      paid.Some? && PayloadFrame(env, tx, sender, charged, gas) ==
        Some(Visit(Job(Get(paid.value, tx.to).code, Context(sender, tx.to, tx.value, tx.data), true),
                   Fresh(gas, Get(paid.value, tx.to).storage), paid.value))
  {
    hide Run, IntrinsicGas, Fee, Transfer, Apply, Charged, ExecuteCreate, ExecuteValueTransfer, Validate;
    var sender, charged := Sender(env, tx), Charged(env, tx, w, limit);
    ChargedAccount(env, tx, w, limit, tx.to);
    ChargedAccount(env, tx, w, limit, sender);
    CoversValue(charged, sender, tx.to, tx.value);
    TransferKeepsCode(charged, sender, tx.to, tx.value, tx.to);
    AppliedWhenValid(env, tx, w, limit);
    UnusedGasGoesBack(env, tx, w, limit, tx.to);
    Returned(env, tx, w, limit);
    var w1 := Transfer(charged, sender, tx.to, tx.value).value;
    var c := Message(env, w1, tx.to, Context(sender, tx.to, tx.value, tx.data), tx.gas - IntrinsicGas(tx.data));
    if Succeeded(c) { PersistStorage(c.w, tx.to, c.f.storage); }
  }

  lemma PersistStorage(w: World, a: ByteSeq, storage: map<nat, nat>)
    ensures Get(Persist(w, a, storage), a).storage == Get(w, a).storage + storage
    ensures Get(Persist(w, a, storage), a).code == Get(w, a).code
  {}

  /** A transaction to the recorder leaves there who sent it, what it carried and where it went; and everyone is paid
      what is due. */
  lemma RecordedTransaction(env: Env, tx: Transaction, w: World, limit: nat)
    requires Validate(env, tx, w, limit).Valid? && tx.to != [] && Get(w, tx.to).code == RECORDER
    ensures var r := Apply(env, tx, w, limit); var s := Get(w, tx.to).storage;
      && (r.receipt.success <==> tx.gas >= IntrinsicGas(tx.data) + RECORD_GAS)
      && (r.receipt.success ==>
           && r.receipt.gasUsed == IntrinsicGas(tx.data) + RECORD_GAS
           && forall k: nat :: Slot(Get(r.w, tx.to).storage, k) ==
                if k == 0 then FromBE(Sender(env, tx)) else if k == 1 then tx.value
                else if k == 2 then FromBE(tx.to) else Slot(s, k))
  {
    hide Run, FromBE, IntrinsicGas, Fee, Transfer, Apply, Charged, Validate, RECORDER, Recorded;
    assert RECORDER != [] by { RecorderNotEmpty(); }
    var sender, charged := Sender(env, tx), Charged(env, tx, w, limit);
    ContractTransaction(env, tx, w, limit);
    AppliedWhenValid(env, tx, w, limit);
    GasAccounting(env, tx, w, limit);
    ChargedAccount(env, tx, w, limit, tx.to);
    TransferKeepsCode(charged, sender, tx.to, tx.value, tx.to);
    var w1 := Transfer(charged, sender, tx.to, tx.value).value;
    var seen := Context(sender, tx.to, tx.value, tx.data);
    RecorderMessage(env, w1, tx.to, seen, tx.gas - IntrinsicGas(tx.data));
    var s := Get(w, tx.to).storage;
    forall k: nat ensures Slot(s + Recorded(s, seen), k) ==
      if k == 0 then FromBE(sender) else if k == 1 then tx.value else if k == 2 then FromBE(tx.to) else Slot(s, k)
    {
      RecordedSlot(s, seen, k);
    }
  }

  /** A transaction to the echo has its data as return data on the receipt, whether it succeeds or reverts. */
  lemma EchoedTransaction(env: Env, tx: Transaction, w: World, limit: nat, reverts: bool)
    requires Validate(env, tx, w, limit).Valid? && tx.to != [] && Get(w, tx.to).code == Echo(reverts)
    requires EvmMemory.RoundUp32(|tx.data|) <= env.maxMemory && tx.gas >= IntrinsicGas(tx.data) + ECHO_GAS
    ensures var r := Apply(env, tx, w, limit).receipt;
      r.returnData == tx.data && r.success == !reverts &&
      r.gasUsed == if reverts then tx.gas else IntrinsicGas(tx.data) + ECHO_GAS
  {
    hide Run, IntrinsicGas, Fee, Transfer, Apply, Charged, Validate, EvmMemory.RoundUp32;
    var sender, charged := Sender(env, tx), Charged(env, tx, w, limit);
    ContractTransaction(env, tx, w, limit);
    AppliedWhenValid(env, tx, w, limit);
    GasAccounting(env, tx, w, limit);
    ChargedAccount(env, tx, w, limit, tx.to);
    TransferKeepsCode(charged, sender, tx.to, tx.value, tx.to);
    var w1 := Transfer(charged, sender, tx.to, tx.value).value;
    EchoMessage(env, w1, tx.to, Context(sender, tx.to, tx.value, tx.data), tx.gas - IntrinsicGas(tx.data), reverts);
  }
}
