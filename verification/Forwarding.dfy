/** Message calls as whole runs: a contract that forwards its message, what its target sees, and what comes back. */
module Forwarding {
  import opened Bytes
  import opened Words
  import opened Environment
  import opened Opcodes
  import opened Accounts
  import opened Evm
  import opened Stepping
  import opened WorldInvariants
  import opened Limits
  import EvmMemory

  // ----- the forwarder -----

  /** CALLDATASIZE, PUSH1 0, PUSH1 0, CALLDATACOPY, PUSH1 32, PUSH1 128, CALLDATASIZE, PUSH1 0, CALLVALUE, PUSH20 */
  const FORWARD_HEAD: ByteSeq :=
    [0x36, 0x60, 0x00, 0x60, 0x00, 0x37, 0x60, 0x20, 0x60, 0x80, 0x36, 0x60, 0x00, 0x34, 0x73]

  /** PUSH2 65535, CALL */
  const FORWARD_TAIL: ByteSeq := [0x61, 0xFF, 0xFF, 0xF1]

  /** Sends on its calldata and value to the target, and keeps a word of what returns at 128 in memory. */
  function Forwarder(target: ByteSeq): ByteSeq {
    FORWARD_HEAD + target + FORWARD_TAIL
  }

  const FORWARD_GAS: nat := 130

  lemma ForwarderBytes(target: ByteSeq)
    requires |target| == 20
    ensures var c := Forwarder(target);
      && |c| == 39
      && c[0] == 0x36 && c[1] == 0x60 && c[2] == 0x00 && c[3] == 0x60 && c[4] == 0x00 && c[5] == 0x37
      && c[6] == 0x60 && c[7] == 0x20 && c[8] == 0x60 && c[9] == 0x80 && c[10] == 0x36 && c[11] == 0x60
      && c[12] == 0x00 && c[13] == 0x34 && c[14] == 0x73
      && c[35] == 0x61 && c[36] == 0xFF && c[37] == 0xFF && c[38] == 0xF1
    ensures Window(Forwarder(target), 15, 20) == target && Window(Forwarder(target), 36, 2) == [255, 255]
  {}

  lemma TwoByteNumber()
    ensures FromBE([255, 255]) == 65535
  {
    assert [255, 255][..1] == [255];
    assert FromBE([255]) == 255;
  }

  lemma WholeWindow(data: ByteSeq)
    ensures Window(data, 0, |data|) == data
  {}

  /** The forwarder's frame with the seven operands of its CALL. */
  function AtCall(target: ByteSeq, ctx: Context, storage: map<nat, nat>, pc: nat, gas: nat): Frame {
    Fresh(gas, storage).(
      pc := pc, mem := EvmMemory.Padded(ctx.data),
      stack := [32, 128, |ctx.data|, 0, ctx.value, FromBE(target), 65535])
  }

  /** CALLDATASIZE, PUSH1 0, PUSH1 0, CALLDATACOPY: the calldata in memory from 0 on. */
  const LOAD_CALLDATA: ByteSeq := [0x36, 0x60, 0x00, 0x60, 0x00, 0x37]

  lemma Loads(m: Sim) returns (t: Frame)
    requires Section(m.job.code, 0, LOAD_CALLDATA) && m.start == Fresh(0, m.start.storage)
    requires EvmMemory.RoundUp32(|m.job.ctx.data|) <= m.env.maxMemory
    ensures t == m.start.(pc := 6, mem := EvmMemory.Padded(m.job.ctx.data)) && m.At(t, 11)
  {
    hide Sim.At, Window, FromBE, EvmMemory.WriteRange, EvmMemory.Padded, EvmMemory.RoundUp32;
    var c, data := m.job.code, m.job.ctx.data;
    forall i | 0 <= i < 6 ensures |c| >= 6 && c[i] == LOAD_CALLDATA[i] { SectionByte(c, 0, LOAD_CALLDATA, i); }
    WholeWindow(data);
    EvmMemory.FirstWrite(m.env.maxMemory, data);
    AtStart(m);
    t := StepNullary(m, m.start, 0, 0x36, |data|);
    t := StepPush1(m, t, 2, 0);
    t := StepPush1(m, t, 5, 0);
    t := StepCallDataCopy(m, t, 8, [], 0, 0, |data|, EvmMemory.Padded(data));
  }

  lemma ReachesCall(env: Env, target: ByteSeq, ctx: Context, attached: bool, storage: map<nat, nat>, gas: nat, w: World)
    requires |target| == 20 && EvmMemory.RoundUp32(|ctx.data|) <= env.maxMemory
    ensures var o := Run(env, Job(Forwarder(target), ctx, attached), Fresh(gas, storage), w);
      o == if gas < 30 then Raised(OutOfGas, w)
           else Run(env, Job(Forwarder(target), ctx, attached), AtCall(target, ctx, storage, 38, gas - 30), w)
  {
    hide Sim.At, Run, FromBE, Window, Forwarder, EvmMemory.Padded, EvmMemory.RoundUp32;
    var m := Sim(env, Job(Forwarder(target), ctx, attached), w, Fresh(0, storage));
    assert m.start.(gas := gas) == Fresh(gas, storage);
    ForwarderBytes(target);
    TwoByteNumber();
    assert Section(m.job.code, 0, LOAD_CALLDATA);
    var t := Loads(m);
    t := StepPush1(m, t, 11, 32);
    t := StepPush1(m, t, 14, 128);
    t := StepNullary(m, t, 17, 0x36, |ctx.data|);
    t := StepPush1(m, t, 19, 0);
    t := StepNullary(m, t, 22, 0x34, ctx.value);
    t := StepPush(m, t, 24, 20, FromBE(target));
    t := StepPush(m, t, 27, 2, 65535);
    ShortOfGas(m, t, 30, gas);
    if gas >= 30 {
      ComesBy(m, t, 30, gas);
      assert t.(gas := gas - 30) == AtCall(target, ctx, storage, 38, gas - 30);
    }
  }

  lemma ShortOfGas(m: Sim, s: Frame, c: nat, gas: nat)
    requires m.At(s, c)
    ensures gas < c ==> m.From(m.start, gas) == Raised(OutOfGas, m.w)
  {
    hide Run;
  }

  /** A 20-byte address goes through a word and back. */
  lemma AddressOperand(target: ByteSeq)
    requires |target| == 20
    ensures IsWord(FromBE(target)) && WordBytes(FromBE(target))[12..] == target
  {
    hide FromBE, Pow256;
    FromBEIsWord(target);
    FromBEConcat(Zeros(12), target);
    FromBEZeros(12);
    Pow256Of32();
    ToFromBE(Zeros(12) + target);
  }

  /** What a message comes to for the contract that sends it: the number on its stack, the word it keeps of what
      returns, the gas it has left, and the world. */
  datatype Answer = Answer(flag: nat, kept: ByteSeq, gas: nat, w: World)

  ghost predicate Answers(o: Outcome, a: Answer, storage: map<nat, nat>) {
    && o.Done? && !o.f.reverted && o.f.stack == [a.flag] && o.f.gas == a.gas && o.w == a.w
    && o.f.storage == storage && Window(o.f.mem, 128, 32) == a.kept
  }

  /** The message that the forwarder sends: from itself, to the target, with the value and calldata it was sent. */
  function Onward(target: ByteSeq, ctx: Context): Context {
    Context(ctx.address, target, ctx.value, ctx.data)
  }

  function Sent(gas: nat): nat
    requires gas >= FORWARD_GAS
  {
    Min(65535, gas - FORWARD_GAS)
  }

  lemma PaddedWindow(data: ByteSeq)
    ensures Window(EvmMemory.Padded(data), 128, 32) == Window(data, 128, 32)
  {}

  /** The word at 128 after a string of returned bytes was cut or padded to 32 and written there. */
  lemma ReturnedWord(limit: nat, mem: ByteSeq, ret: ByteSeq)
    requires limit >= 160
    ensures var written := EvmMemory.WriteRange(limit, mem, 128, FitReturn(ret, 32));
      written.Some? && Window(written.value, 128, 32) == Window(ret, 0, 32)
  {
    var bs := FitReturn(ret, 32);
    assert |bs| == 32;
    assert bs == Window(ret, 0, 32);
    var written := EvmMemory.WriteRange(limit, mem, 128, bs).value;
    forall i | 0 <= i < 32 ensures Window(written, 128, 32)[i] == bs[i] { assert written[128 + i] == bs[i]; }
  }

  /** The CALL of the forwarder, up to the frame of its target. */
  lemma ForwarderBegins(env: Env, target: ByteSeq, ctx: Context, attached: bool, storage: map<nat, nat>, gas: nat,
                        w: World)
    requires |target| == 20 && EvmMemory.RoundUp32(|ctx.data|) <= env.maxMemory && gas >= FORWARD_GAS
    ensures var job, f := Job(Forwarder(target), ctx, attached), AtCall(target, ctx, storage, 39, gas - FORWARD_GAS);
      var o := Run(env, job, Fresh(gas, storage), w); var p := BeginCall(env, job, f, w);
      && (p.Fail? ==> o == Raised(p.e, w))
      && (p.Next? ==> o == Done(p.f, p.w))
      && (p.Spawn? ==> o == Resume(env, p.k, Run(env, p.child, p.init, p.w)))
  {
    hide Run, BeginCall, Resume, FromBE, Forwarder, EvmMemory.Padded, EvmMemory.RoundUp32;
    ReachesCall(env, target, ctx, attached, storage, gas, w);
    ForwarderBytes(target);
    var job, f := Job(Forwarder(target), ctx, attached), AtCall(target, ctx, storage, 38, gas - 30);
    assert f.(gas := f.gas - GAS_CALL_BASE, pc := f.pc + 1) == AtCall(target, ctx, storage, 39, gas - FORWARD_GAS);
    EndsWithCall(env, job, f, w);
  }

  lemma PoorForwarder(env: Env, target: ByteSeq, ctx: Context, storage: map<nat, nat>, gas: nat, w: World)
    requires |target| == 20 && EvmMemory.RoundUp32(|ctx.data|) <= env.maxMemory && gas < FORWARD_GAS
    ensures Run(env, Job(Forwarder(target), ctx, true), Fresh(gas, storage), w) == Raised(OutOfGas, w)
  {
    hide FromBE, Forwarder, EvmMemory.Padded, EvmMemory.RoundUp32, BeginCall;
    ReachesCall(env, target, ctx, true, storage, gas, w);
    ForwarderBytes(target);
    if gas >= 30 {
      assert Begin(env, Job(Forwarder(target), ctx, true), AtCall(target, ctx, storage, 38, gas - 30), w) ==
          Fail(OutOfGas);
    }
  }

  /** A value that the contract cannot cover is not sent and nothing runs. A target without code is paid, and takes no
      gas. */
  lemma ForwardsPayment(env: Env, target: ByteSeq, ctx: Context, storage: map<nat, nat>, gas: nat, w: World)
    requires |target| == 20 && EvmMemory.RoundUp32(|ctx.data|) <= env.maxMemory && gas >= FORWARD_GAS
    ensures var o := Run(env, Job(Forwarder(target), ctx, true), Fresh(gas, storage), w);
      var paid := Transfer(w, ctx.address, target, ctx.value); var kept := Window(ctx.data, 128, 32);
      && (paid.None? ==> Answers(o, Answer(0, kept, gas - FORWARD_GAS, w), storage))
      && (paid.Some? && Get(w, target).code == [] ==>
           Answers(o, Answer(1, kept, gas - FORWARD_GAS, paid.value), storage))
  {
    hide Run, FromBE, WordBytes, Forwarder, Transfer, Window, EvmMemory.Padded, EvmMemory.RoundUp32,
        EvmMemory.ReadRange;
    ForwarderBegins(env, target, ctx, true, storage, gas, w);
    AddressOperand(target);
    EvmMemory.FirstWrite(env.maxMemory, ctx.data);
    PaddedWindow(ctx.data);
    if Transfer(w, ctx.address, target, ctx.value).Some? {
      TransferKeepsCode(w, ctx.address, target, ctx.value, target);
    }
  }

  /** A frame without a world state sends nothing and gets 0. */
  lemma ForwardsNothing(env: Env, target: ByteSeq, ctx: Context, storage: map<nat, nat>, gas: nat, w: World)
    requires |target| == 20 && EvmMemory.RoundUp32(|ctx.data|) <= env.maxMemory && gas >= FORWARD_GAS
    ensures Answers(Run(env, Job(Forwarder(target), ctx, false), Fresh(gas, storage), w),
                    Answer(0, Window(ctx.data, 128, 32), gas - FORWARD_GAS, w), storage)
  {
    hide Run, FromBE, WordBytes, Forwarder, Window, EvmMemory.Padded, EvmMemory.RoundUp32, EvmMemory.ReadRange;
    ForwarderBegins(env, target, ctx, false, storage, gas, w);
    PaddedWindow(ctx.data);
  }

  /** Whatever code the target has: it runs as a message from the contract, with the value and calldata the contract was
      sent, on its own storage and at most 65535 gas. If it succeeds its storage is written back, its gas comes back,
      and the first word of what it returned is kept; if it fails its gas is gone and so is its storage; any error but
      running out of gas goes through. */
  lemma ForwardsMessage(env: Env, target: ByteSeq, ctx: Context, storage: map<nat, nat>, gas: nat, w: World)
    requires |target| == 20 && EvmMemory.RoundUp32(|ctx.data|) <= env.maxMemory && gas >= FORWARD_GAS
    requires Transfer(w, ctx.address, target, ctx.value).Some? && Get(w, target).code != [] && env.maxMemory >= 160
    ensures var o := Run(env, Job(Forwarder(target), ctx, true), Fresh(gas, storage), w);
      var w1 := Transfer(w, ctx.address, target, ctx.value).value;
      var c := Message(env, w1, target, Onward(target, ctx), Sent(gas));
      var left := gas - FORWARD_GAS - Sent(gas); var kept := Window(ctx.data, 128, 32);
      && (c.Raised? && c.e != OutOfGas ==> o == c)
      && (Failed(c) ==> Answers(o, Answer(0, kept, left, c.w), storage))
      && (Succeeded(c) ==>
           Answers(o, Answer(1, if c.f.ret == [] then kept else Window(c.f.ret, 0, 32), left + c.f.gas,
                             Persist(c.w, target, c.f.storage)), storage))
  {
    hide Run, FromBE, WordBytes, Forwarder, Transfer, Window, Persist, FitReturn,
      EvmMemory.Padded, EvmMemory.RoundUp32, EvmMemory.ReadRange, EvmMemory.WriteRange;
    ForwarderBegins(env, target, ctx, true, storage, gas, w);
    AddressOperand(target);
    EvmMemory.FirstWrite(env.maxMemory, ctx.data);
    PaddedWindow(ctx.data);
    TransferKeepsCode(w, ctx.address, target, ctx.value, target);
    var w1 := Transfer(w, ctx.address, target, ctx.value).value;
    var c := Message(env, w1, target, Onward(target, ctx), Sent(gas));
    WritesNothing(env.maxMemory, EvmMemory.Padded(ctx.data));
    if Succeeded(c) { ReturnedWord(env.maxMemory, EvmMemory.Padded(ctx.data), c.f.ret); }
  }

  lemma WritesNothing(limit: nat, mem: ByteSeq)
    ensures EvmMemory.WriteRange(limit, mem, 128, []) == Some(mem)
  {}
}
