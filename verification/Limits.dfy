/** What a failed inner call leaves behind: where the code undoes less than its comments promise. */
module Limits {
  import opened Bytes
  import opened Words
  import opened Environment
  import opened Opcodes
  import opened Accounts
  import opened Evm
  import opened EvmInvariants
  import opened WorldInvariants
  import opened Stepping
  import EvmMemory

  /** The inner frame failed in a way its parent goes on from: out of gas, or reverted. */
  ghost predicate Failed(o: Outcome) {
    (o.Raised? && o.e == OutOfGas) || (o.Done? && o.f.reverted)
  }

  /** None of the instructions of the code is CALL or CREATE; such bytes inside PUSH data do not matter. */
  ghost predicate Isolated(code: ByteSeq) {
    forall p: nat :: p < |code| && InstructionStart(code, p) ==> code[p] != OP_CALL && code[p] != OP_CREATE
  }

  // ----- runs that do not reach the world state -----

  /** The state stands at a CALL or CREATE that goes on. */
  ghost predicate Reaches(env: Env, v: Visit) {
    && !v.f.stopped && v.f.pc < |v.job.code| && (v.job.code[v.f.pc] == OP_CALL || v.job.code[v.f.pc] == OP_CREATE)
    && (Begin(env, v.job, v.f, v.w).Next? || Begin(env, v.job, v.f, v.w).Spawn?)
  }

  /** The run carries out no CALL and no CREATE. */
  ghost predicate Quiet(env: Env, job: Job, f: Frame, w: World) {
    forall v | v in Visits(env, job, f, w) :: !Reaches(env, v)
  }

  lemma BeginQuiet(env: Env, job: Job, f: Frame, w: World)
    requires !Reaches(env, Visit(job, f, w))
    ensures var p := Begin(env, job, f, w); !p.Spawn? && (p.Next? ==> p.w == w)
  {
    hide Exec, BeginCall, BeginCreate;
  }

  /** A run that carries out no CALL and no CREATE leaves the world state alone, however it ends. */
  lemma {:induction false} QuietRun(env: Env, job: Job, f: Frame, w: World)
    ensures Quiet(env, job, f, w) ==> Run(env, job, f, w).w == w
    decreases f.gas
  {
    hide Begin, Reaches;
    if Quiet(env, job, f, w) {
      assert Visit(job, f, w) in Visits(env, job, f, w);
      BeginQuiet(env, job, f, w);
      var p := Begin(env, job, f, w);
      if p.Next? { QuietRun(env, job, p.f, p.w); }
    }
  }

  lemma NotReached(env: Env, job: Job, f: Frame, w: World)
    requires Isolated(job.code) && AtInstruction(job.code, f)
    ensures !Reaches(env, Visit(job, f, w))
    ensures var p := Begin(env, job, f, w); p.Halt? ==> !Reaches(env, Visit(job, p.f, w))
  {
    hide Exec, BeginCall, BeginCreate, InstructionStart;
  }

  /** Code without CALL and CREATE carries out none, and leaves the world state alone. */
  lemma {:induction false} IsolatedRun(env: Env, job: Job, f: Frame, w: World)
    requires Isolated(job.code) && AtInstruction(job.code, f)
    ensures Quiet(env, job, f, w) && Run(env, job, f, w).w == w
    decreases f.gas
  {
    hide Begin, Isolated, InstructionStart, Reaches;
    BeginPc(env, job, f, w);
    NotReached(env, job, f, w);
    BeginQuiet(env, job, f, w);
    var p := Begin(env, job, f, w);
    if p.Next? { IsolatedRun(env, job, p.f, p.w); }
  }

  lemma PoorNotReached(env: Env, job: Job, f: Frame, w: World)
    requires f.gas < GAS_CALL_BASE
    ensures !Reaches(env, Visit(job, f, w))
    ensures var p := Begin(env, job, f, w); p.Halt? ==> !Reaches(env, Visit(job, p.f, w))
  {
    hide Exec, BeginCall, BeginCreate;
  }

  /** Any code at all carries out none with less gas than a CALL costs. */
  lemma {:induction false} PoorRun(env: Env, job: Job, f: Frame, w: World)
    requires f.gas < GAS_CALL_BASE
    ensures Quiet(env, job, f, w) && Run(env, job, f, w).w == w
    decreases f.gas
  {
    hide Begin, Reaches;
    PoorNotReached(env, job, f, w);
    BeginQuiet(env, job, f, w);
    var p := Begin(env, job, f, w);
    if p.Next? { PoorRun(env, job, p.f, p.w); }
  }

  // ----- failed calls -----

  /** The world in which a spawned callee starts: the caller's, after the transfer of value. */
  lemma CallTransfersFirst(env: Env, job: Job, f: Frame, w: World)
    requires BeginCall(env, job, f, w).Spawn?
    ensures var p := BeginCall(env, job, f, w);
      && Some(p.w) == Transfer(w, job.ctx.address, WordBytes(Operand(f, 1))[12..], Operand(f, 2))
      && p.child.ctx.address == WordBytes(Operand(f, 1))[12..] && p.child.attached
      && p.init == Fresh(p.init.gas, p.init.storage)
      && p.k.AfterCall? && p.k.f.stack == f.stack[..|f.stack| - 7]
    ensures |f.stack| >= 7 && IsWord(Operand(f, 1))
  {
    hide FromBE, WordBytes, EvmMemory.ReadRange, Transfer;
  }

  /** Whatever the callee is: after a failure the caller goes on with 0 on its stack, all the gas it sent gone, and the
      world as the callee's run left it. A failed inner call drops its own storage copy and nothing else; with a run
      that carries out no CALL and no CREATE, the transfer of value is what stays. */
  lemma FailedCallKeepsTransfer(env: Env, job: Job, f: Frame, w: World)
    requires BeginCall(env, job, f, w).Spawn?
    ensures var p := BeginCall(env, job, f, w); var o := Run(env, p.child, p.init, p.w);
      Failed(o) ==>
        && Resume(env, p.k, o) == Done(Pushed(p.k.f.(gas := p.k.f.gas - p.init.gas), 0), o.w)
        && p.k.f.stack == f.stack[..|f.stack| - 7]
        && (Quiet(env, p.child, p.init, p.w) ==>
             Some(o.w) == Transfer(w, job.ctx.address, WordBytes(Operand(f, 1))[12..], Operand(f, 2)))
  {
    hide BeginCall, Transfer, Run, Quiet, WordBytes;
    var p := BeginCall(env, job, f, w);
    CallTransfersFirst(env, job, f, w);
    QuietRun(env, p.child, p.init, p.w);
  }

  /** A transfer that goes through changes nothing exactly when no value moves, or it moves to its sender. */
  lemma TransferChangesNothingWhen(w: World, a: ByteSeq, b: ByteSeq, v: nat)
    requires Transfer(w, a, b, v).Some?
    ensures Transfer(w, a, b, v) == Some(w) <==> v == 0 || a == b
  {
    var after := Transfer(w, a, b, v).value;
    if v > 0 && a != b {
      assert Get(after, a).balance == Get(w, a).balance - v;
    }
    if v > 0 && a == b {
      assert Get(after, a) == Get(w, a);
      assert after == w;
    }
  }

  /** A failed call whose run carries out no CALL and no CREATE is undone if and only if it carried no value or was a
      call to self. That its run is such is certain when the callee has no such instruction, or gets too little gas. */
  lemma FailedCallUndoneExactlyWhen(env: Env, job: Job, f: Frame, w: World)
    requires BeginCall(env, job, f, w).Spawn?
    ensures var p := BeginCall(env, job, f, w); var o := Run(env, p.child, p.init, p.w);
      Failed(o) && Quiet(env, p.child, p.init, p.w) ==>
        (Resume(env, p.k, o).w == w <==> Operand(f, 2) == 0 || WordBytes(Operand(f, 1))[12..] == job.ctx.address)
    ensures var p := BeginCall(env, job, f, w);
      Isolated(p.child.code) || p.init.gas < GAS_CALL_BASE ==> Quiet(env, p.child, p.init, p.w)
  {
    hide BeginCall, Transfer, Run, Resume, Isolated, WordBytes, Quiet, InstructionStart;
    var p := BeginCall(env, job, f, w);
    CallTransfersFirst(env, job, f, w);
    FailedCallKeepsTransfer(env, job, f, w);
    TransferChangesNothingWhen(w, job.ctx.address, WordBytes(Operand(f, 1))[12..], Operand(f, 2));
    StartAtZero();
    if Isolated(p.child.code) { IsolatedRun(env, p.child, p.init, p.w); }
    if p.init.gas < GAS_CALL_BASE { PoorRun(env, p.child, p.init, p.w); }
  }

  // ----- creations -----

  /** A creation anywhere in a run, at any depth, shows in the final world even if every frame around it fails. */
  lemma CreationRaisesNonce(env: Env, job: Job, f: Frame, w: World, v: Visit)
    ensures v in Visits(env, job, f, w) && Creates(env, v) ==>
      Get(w, v.job.ctx.address).nonce < Get(Run(env, job, f, w).w, v.job.ctx.address).nonce
  {
    hide Run, Visits, Creates, Creations;
    if v in Visits(env, job, f, w) && Creates(env, v) {
      CreationsAreVisited(env, job, f, w, CreationAt(v));
      CreationsUseNonces(env, job, f, w, CreationAt(v));
    }
  }

  /** CREATE is never undone: whatever becomes of the init code, its creator's nonce stays raised. */
  lemma CreateNeverUndone(env: Env, job: Job, f: Frame, w: World)
    requires BeginCreate(env, job, f, w).Spawn?
    ensures var p := BeginCreate(env, job, f, w); var creator := job.ctx.address;
      var after := Resume(env, p.k, Run(env, p.child, p.init, p.w));
      Get(w, creator).nonce < Get(after.w, creator).nonce && after.w != w
  {
    hide BeginCreate, Resume, Run;
    var p := BeginCreate(env, job, f, w);
    var o := Run(env, p.child, p.init, p.w);
    CreateOpens(env, job, f, w);
    RunGrowsNonces(env, p.child, p.init, p.w);
    ResumeGrowsNonces(env, p.k, o);
  }

  lemma CallGrowsNonces(env: Env, job: Job, f: Frame, w: World)
    requires BeginCall(env, job, f, w).Spawn?
    ensures NoncesGrow(w, BeginCall(env, job, f, w).w)
  {
    hide BeginCall, Transfer, WordBytes;
    CallTransfersFirst(env, job, f, w);
    NoncesGrowReflexive(w);
    TransferGrowsNonces(w, w, job.ctx.address, WordBytes(Operand(f, 1))[12..], Operand(f, 2));
  }

  /** A call in whose run any frame, at any depth, creates a contract is not undone, whatever it sent and however
      it ended. */
  lemma InnerCreationNeverUndone(env: Env, job: Job, f: Frame, w: World, v: Visit)
    requires BeginCall(env, job, f, w).Spawn?
    ensures var p := BeginCall(env, job, f, w);
      v in Visits(env, p.child, p.init, p.w) && Creates(env, v) ==>
        Resume(env, p.k, Run(env, p.child, p.init, p.w)).w != w
  {
    hide BeginCall, Resume, Run, Visits, Creates;
    var p := BeginCall(env, job, f, w);
    CallGrowsNonces(env, job, f, w);
    CreationRaisesNonce(env, p.child, p.init, p.w, v);
    ResumeGrowsNonces(env, p.k, Run(env, p.child, p.init, p.w));
  }

  // ----- concrete callees -----

  /** PUSH1 0, PUSH1 0, REVERT */
  const REFUSER: ByteSeq := [0x60, 0x00, 0x60, 0x00, 0xFD]

  /** PUSH1 0, PUSH1 0, PUSH1 0, CREATE, PUSH1 0, PUSH1 0, REVERT */
  const MAKER: ByteSeq := [0x60, 0x00, 0x60, 0x00, 0x60, 0x00, 0xF0, 0x60, 0x00, 0x60, 0x00, 0xFD]

  lemma RefuserIsIsolated()
    ensures REFUSER != [] && Isolated(REFUSER)
  {}

  /** A message to the refusing contract always fails: it reverts, or runs out of gas. */
  lemma RefuserFails(env: Env, ctx: Context, gas: nat, storage: map<nat, nat>, w: World)
    ensures Failed(Run(env, Job(REFUSER, ctx, true), Fresh(gas, storage), w))
  {
    var m := Sim(env, Job(REFUSER, ctx, true), w, Fresh(0, storage));
    assert m.start.(gas := gas) == Fresh(gas, storage);
    hide Sim.At;
    AtStart(m);
    var t := StepPush1(m, m.start, 0, 0);
    t := StepPush1(m, t, 3, 0);
    t := StepReturn(m, t, 6, [], 0, 0, [], [], true);
    assert m.From(m.start, gas) == Run(env, m.job, Fresh(gas, storage), w);
  }

  /** The making contract at its CREATE, for 9 gas. */
  lemma MakerReachesCreate(env: Env, ctx: Context, gas: nat, storage: map<nat, nat>, w: World)
    requires gas >= 9
    ensures Run(env, Job(MAKER, ctx, true), Fresh(gas, storage), w) ==
      Run(env, Job(MAKER, ctx, true), Fresh(gas - 9, storage).(pc := 6, stack := [0, 0, 0]), w)
  {
    var m := Sim(env, Job(MAKER, ctx, true), w, Fresh(0, storage));
    assert m.start.(gas := gas) == Fresh(gas, storage);
    hide Sim.At, Run;
    AtStart(m);
    var t := StepPush1(m, m.start, 0, 0);
    t := StepPush1(m, t, 3, 0);
    t := StepPush1(m, t, 6, 0);
    ComesBy(m, t, 9, gas);
    assert t.(gas := gas - 9) == Fresh(gas - 9, storage).(pc := 6, stack := [0, 0, 0]);
  }

  /** The making contract after its CREATE fails, whatever it is left with. */
  lemma MakerRefuses(env: Env, ctx: Context, f: Frame, w: World)
    requires f.pc == 7 && |f.stack| == 1 && !f.stopped && !f.reverted
    ensures Failed(Run(env, Job(MAKER, ctx, true), f, w))
  {
    var m := Sim(env, Job(MAKER, ctx, true), w, f);
    hide Sim.At, Run;
    AtStart(m);
    var t := StepPush1(m, m.start, 0, 0);
    t := StepPush1(m, t, 3, 0);
    t := StepReturn(m, t, 6, f.stack, 0, 0, f.mem, [], true);
    assert m.From(m.start, f.gas) == Run(env, m.job, f, w);
  }

  /** The CREATE of the making contract: an empty init code runs to its end at once. */
  lemma MakerCreates(env: Env, ctx: Context, gas: nat, storage: map<nat, nat>, w: World)
    requires gas >= 32000 && ContractAddress(env, ctx.address, Get(w, ctx.address).nonce).Some?
    ensures var job := Job(MAKER, ctx, true); var f := Fresh(gas, storage).(pc := 6, stack := [0, 0, 0]);
      Creates(env, Visit(job, f, w)) && Failed(Run(env, job, f, w))
  {
    hide FromBE, ContractAddress;
    var job, f := Job(MAKER, ctx, true), Fresh(gas, storage).(pc := 6, stack := [0, 0, 0]);
    var p := Begin(env, job, f, w);
    assert p.Spawn? && p.child.code == [];
    assert Run(env, p.child, p.init, p.w) == Done(p.init, p.w);
    var o := Resume(env, p.k, Run(env, p.child, p.init, p.w));
    assert o.Done? && o.f.pc == 7 && |o.f.stack| == 1;
    MakerRefuses(env, ctx, o.f, o.w);
  }

  /** A message to the making contract fails, but not before its nonce is raised. */
  lemma MakerFails(env: Env, ctx: Context, gas: nat, storage: map<nat, nat>, w: World)
    requires gas >= 32009 && ContractAddress(env, ctx.address, Get(w, ctx.address).nonce).Some?
    ensures var o := Run(env, Job(MAKER, ctx, true), Fresh(gas, storage), w);
      Failed(o) && Get(w, ctx.address).nonce < Get(o.w, ctx.address).nonce
  {
    hide Run, Begin, ContractAddress, Creates;
    var job, s := Job(MAKER, ctx, true), Fresh(gas - 9, storage).(pc := 6, stack := [0, 0, 0]);
    MakerReachesCreate(env, ctx, gas, storage, w);
    MakerCreates(env, ctx, gas - 9, storage, w);
    assert Visits(env, job, s, w)[0] == Visit(job, s, w);
    CreationRaisesNonce(env, job, s, w, Visit(job, s, w));
  }

  /** Without the restriction on the run the condition of `FailedCallUndoneExactlyWhen` is not enough: the making
      contract reverts, the call carries no value, and its nonce stays raised. */
  lemma RevertedCreationStays(env: Env, job: Job, f: Frame, w: World)
    requires BeginCall(env, job, f, w).Spawn? && BeginCall(env, job, f, w).child.code == MAKER
    requires BeginCall(env, job, f, w).init.gas >= 32009 && Operand(f, 2) == 0
    requires var callee := WordBytes(Operand(f, 1))[12..]; ContractAddress(env, callee, Get(w, callee).nonce).Some?
    ensures var p := BeginCall(env, job, f, w); var o := Run(env, p.child, p.init, p.w);
      Failed(o) && Resume(env, p.k, o).w != w
  {
    hide BeginCall, Resume, Run, WordBytes, ContractAddress, MAKER;
    var p := BeginCall(env, job, f, w);
    CallTransfersFirst(env, job, f, w);
    MakerFails(env, p.child.ctx, p.init.gas, p.init.storage, w);
    ResumeGrowsNonces(env, p.k, Run(env, p.child, p.init, p.w));
  }

  // ----- concrete worlds -----

  const SENDER: ByteSeq := Zeros(20)

  function Receiver(): ByteSeq {
    WordBytes(1)[12..]
  }

  function Scene(balance: nat, code: ByteSeq): World {
    map[SENDER := Account(0, balance, [], map[]), Receiver() := Account(0, 0, code, map[])]
  }

  /** PUSH1 0, PUSH1 0, PUSH1 0, PUSH1 0, CALLVALUE, PUSH1 1, PUSH2 65535, CALL: send on the value received. */
  const SENDER_CODE: ByteSeq :=
    [0x60, 0x00, 0x60, 0x00, 0x60, 0x00, 0x60, 0x00, 0x34, 0x60, 0x01, 0x61, 0xFF, 0xFF, 0xF1]

  function Sending(value: nat): Job {
    Job(SENDER_CODE, Context(SENDER, SENDER, value, []), true)
  }

  /** The sender's frame with the seven operands of its CALL. */
  function Caller(pc: nat, value: nat, gas: nat): Frame {
    Fresh(gas, map[]).(pc := pc, stack := [0, 0, 0, 0, value, 1, 65535])
  }

  lemma SenderBytes()
    ensures var c := SENDER_CODE;
      && |c| == 15
      && c[0] == 0x60 && c[1] == 0 && c[2] == 0x60 && c[3] == 0
      && c[4] == 0x60 && c[5] == 0 && c[6] == 0x60 && c[7] == 0
      && c[8] == OP_CALLVALUE && c[9] == 0x60 && c[10] == 1 && c[11] == 0x61 && c[12] == 255 && c[13] == 255
      && c[14] == OP_CALL
  {}

  lemma TwoByteNumber()
    ensures FromBE(Window(SENDER_CODE, 12, 2)) == 65535
  {
    hide SENDER_CODE;
    SenderBytes();
    var s := Window(SENDER_CODE, 12, 2);
    assert s == [255, 255];
    assert s[..1] == [255];
    assert FromBE([255]) == 255;
  }

  /** The sender at its CALL, for 20 gas. */
  lemma SenderReachesCall(env: Env, value: nat, gas: nat, w: World)
    requires gas >= 20
    ensures Run(env, Sending(value), Fresh(gas, map[]), w) == Run(env, Sending(value), Caller(14, value, gas - 20), w)
  {
    hide Sim.At, Run, FromBE, Window, SENDER_CODE;
    var m := Sim(env, Sending(value), w, Fresh(0, map[]));
    assert m.start.(gas := gas) == Fresh(gas, map[]);
    SenderBytes();
    TwoByteNumber();
    AtStart(m);
    var t := StepPush1(m, m.start, 0, 0);
    t := StepPush1(m, t, 3, 0);
    t := StepPush1(m, t, 6, 0);
    t := StepPush1(m, t, 9, 0);
    t := StepCallValue(m, t, 12);
    t := StepPush1(m, t, 14, 1);
    t := StepPush(m, t, 17, 2, 65535);
    ComesBy(m, t, 20, gas);
    assert t.(gas := gas - 20) == Caller(14, value, gas - 20);
  }

  lemma ReceiverIsAnother()
    ensures Receiver() != SENDER && |Receiver()| == 20
  {
    Pow256Of32();
    assert WordBytes(1)[31] == 1;
    assert Receiver()[19] == 1;
  }

  lemma CallSpawns(env: Env, value: nat, gas: nat, code: ByteSeq)
    requires code != []
    ensures var f := Caller(15, value, gas); var p := BeginCall(env, Sending(value), f, Scene(value, code));
      && p.Spawn? && p.child.code == code && p.init == Fresh(Min(65535, gas), map[]) && !p.k.f.reverted
      && Operand(f, 2) == value && WordBytes(Operand(f, 1))[12..] == Receiver()
  {
    hide WordBytes, SENDER_CODE;
    ReceiverIsAnother();
    TransferKeepsCode(Scene(value, code), SENDER, Receiver(), value, Receiver());
  }

  /** What the sender's whole run comes to, from a fresh frame on. */
  lemma SenderRuns(env: Env, value: nat, gas: nat, code: ByteSeq)
    requires code != [] && gas >= 120
    ensures var p := BeginCall(env, Sending(value), Caller(15, value, gas - 120), Scene(value, code));
      p.Spawn? &&
      Run(env, Sending(value), Fresh(gas, map[]), Scene(value, code)) ==
        Resume(env, p.k, Run(env, p.child, p.init, p.w))
  {
    hide BeginCall, Run, Resume, WordBytes;
    CallSpawns(env, value, gas - 120, code);
    SenderReachesCall(env, value, gas, Scene(value, code));
    EndsWithCall(env, Sending(value), Caller(14, value, gas - 20), Scene(value, code));
  }

  /** Any amount that the sender sends on to the refusing contract is told to have failed and yet arrives. */
  lemma ValueStaysSent(env: Env, value: nat, gas: nat)
    requires value > 0 && gas >= 120
    ensures var o := Run(env, Sending(value), Fresh(gas, map[]), Scene(value, REFUSER));
      && o.Done? && !o.f.reverted && o.f.stack == [0]
      && Get(o.w, SENDER).balance == 0 && Get(o.w, Receiver()).balance == value
  {
    hide BeginCall, Run, Resume, Isolated, Quiet, WordBytes, REFUSER, SENDER_CODE;
    var f, w := Caller(15, value, gas - 120), Scene(value, REFUSER);
    ReceiverIsAnother();
    RefuserIsIsolated();
    SenderRuns(env, value, gas, REFUSER);
    CallSpawns(env, value, gas - 120, REFUSER);
    CallTransfersFirst(env, Sending(value), f, w);
    var p := BeginCall(env, Sending(value), f, w);
    RefuserFails(env, p.child.ctx, p.init.gas, map[], p.w);
    FailedCallKeepsTransfer(env, Sending(value), f, w);
    FailedCallUndoneExactlyWhen(env, Sending(value), f, w);
  }

  /** A call of the sender's without value, to the making contract, is told to have failed and yet changes the world. */
  lemma NonceStaysRaised(env: Env, gas: nat)
    requires gas >= 32129
    ensures var o := Run(env, Sending(0), Fresh(gas, map[]), Scene(0, MAKER));
      o.Done? && !o.f.reverted && o.f.stack == [0] && o.w != Scene(0, MAKER)
  {
    hide BeginCall, Run, Resume, Quiet, WordBytes, ContractAddress, SENDER_CODE;
    var f, w := Caller(15, 0, gas - 120), Scene(0, MAKER);
    ReceiverIsAnother();
    SenderRuns(env, 0, gas, MAKER);
    CallSpawns(env, 0, gas - 120, MAKER);
    AddressDerivable(env, Receiver(), 0);
    FailedCallKeepsTransfer(env, Sending(0), f, w);
    RevertedCreationStays(env, Sending(0), f, w);
  }
}
