/** What every run of the interpreter keeps, at every nesting depth. */
module EvmInvariants {
  import opened Bytes
  import opened Words
  import opened Environment
  import opened Opcodes
  import opened Accounts
  import opened Evm
  import EvmMemory

  // ----- code: jump destinations and instruction starts -----

  /** Section 9.4.3 of the Yellow Paper: position 0, and the position after each instruction. */
  ghost predicate InstructionStart(code: ByteSeq, p: nat)
    decreases p
  {
    p == 0 || exists q: nat :: q < p && q < |code| && InstructionStart(code, q) && p == q + InstructionLength(code[q])
  }

  lemma StartAtZero()
    ensures forall code: ByteSeq :: InstructionStart(code, 0)
  {}

  lemma StartAfter(code: ByteSeq, p: nat)
    requires p < |code| && InstructionStart(code, p)
    ensures InstructionStart(code, p + InstructionLength(code[p]))
  {}

  /** No instruction starts inside another. */
  lemma {:induction false} NoStartInside(code: ByteSeq, p: nat, d: nat)
    requires p < |code| && p < d && InstructionStart(code, p) && InstructionStart(code, d)
    ensures p + InstructionLength(code[p]) <= d
    decreases p + d
  {
    var q: nat :| q < d && q < |code| && InstructionStart(code, q) && d == q + InstructionLength(code[q]);
    if q < p {
      NoStartInside(code, q, p);
    } else if p < q {
      NoStartInside(code, p, q);
    }
  }

  lemma {:induction false} ScanIsExact(code: ByteSeq, pc: nat, d: nat)
    requires InstructionStart(code, pc)
    ensures d in ScanFrom(code, pc) <==> pc <= d < |code| && code[d] == OP_JUMPDEST && InstructionStart(code, d)
    decreases |code| - pc
  {
    if pc < |code| {
      StartAfter(code, pc);
      ScanIsExact(code, pc + InstructionLength(code[pc]), d);
      if pc < d && InstructionStart(code, d) { NoStartInside(code, pc, d); }
    }
  }

  /** The scan finds exactly the JUMPDEST bytes that are instructions, never one inside PUSH data. */
  lemma JumpDestsExact(code: ByteSeq, d: nat)
    ensures d in JumpDests(code) <==> d < |code| && code[d] == OP_JUMPDEST && InstructionStart(code, d)
  {
    ScanIsExact(code, 0, d);
  }

  // ----- every state a run goes through, nested frames included -----

  datatype Visit = Visit(job: Job, f: Frame, w: World)

  function Visits(env: Env, job: Job, f: Frame, w: World): seq<Visit>
    decreases f.gas
  {
    [Visit(job, f, w)] + (
      match Begin(env, job, f, w)
      case Halt(g) => [Visit(job, g, w)]
      case Fail(_) => []
      case Next(g, w1) => Visits(env, job, g, w1)
      case Spawn(child, init, w1, k) =>
        Visits(env, child, init, w1) +
        (match Resume(env, k, Run(env, child, init, w1))
         case Raised(_, _) => []
         case Done(g, w2) => Visits(env, job, g, w2)))
  }

  ghost predicate AtInstruction(code: ByteSeq, f: Frame) {
    f.pc < |code| ==> InstructionStart(code, f.pc)
  }

  lemma ExecPc(env: Env, job: Job, b: Byte, f: Frame)
    requires GasCost(b).Some? && b != OP_CALL && b != OP_CREATE && b != OP_INVALID
    requires Exec(env, job, b, f).Ok?
    ensures var g := Exec(env, job, b, f).f; g.pc + 1 == f.pc + InstructionLength(b) || g.pc in JumpDests(job.code)
  {
    hide FromBE, ScanFrom;
  }

  lemma CallKeepsPc(env: Env, job: Job, f: Frame, w: World)
    ensures var p := BeginCall(env, job, f, w);
      (p.Next? ==> p.f.pc == f.pc) && (p.Spawn? ==> p.init.pc == 0 && p.k.f.pc == f.pc)
  {
    hide FromBE, WordBytes, EvmMemory.ReadRange, Transfer, ContractAddress;
  }

  lemma CreateKeepsPc(env: Env, job: Job, f: Frame, w: World)
    ensures var p := BeginCreate(env, job, f, w);
      (p.Next? ==> p.f.pc == f.pc) && (p.Spawn? ==> p.init.pc == 0 && p.k.f.pc == f.pc)
  {
    hide FromBE, WordBytes, EvmMemory.ReadRange, Transfer, ContractAddress, IncrementNonce, AddBalance;
  }

  lemma ResumeKeepsPc(env: Env, k: Pending, o: Outcome)
    requires k.ChildGas() <= k.f.gas && (o.Done? ==> o.f.gas <= k.ChildGas())
    ensures Resume(env, k, o).Done? ==> Resume(env, k, o).f.pc == k.f.pc
  {}

  /** The program counters the next states of a frame can have. */
  lemma BeginPc(env: Env, job: Job, f: Frame, w: World)
    requires AtInstruction(job.code, f)
    ensures match Begin(env, job, f, w)
            case Halt(g) => AtInstruction(job.code, g)
            case Fail(_) => true
            case Next(g, _) => AtInstruction(job.code, g)
            case Spawn(child, init, _, k) => AtInstruction(child.code, init) && AtInstruction(job.code, k.f)
  {
    hide ScanFrom, FromBE, JumpDests, Exec, BeginCall, BeginCreate, InstructionStart;
    StartAtZero();
    if !f.stopped && f.pc < |job.code| {
      var b := job.code[f.pc];
      StartAfter(job.code, f.pc);
      if GasCost(b).Some? && b != OP_INVALID && GasCost(b).value <= f.gas {
        var g := f.(gas := f.gas - GasCost(b).value, pc := f.pc + 1);
        if b == OP_CALL {
          CallKeepsPc(env, job, g, w);
        } else if b == OP_CREATE {
          CreateKeepsPc(env, job, g, w);
        } else if Exec(env, job, b, g).Ok? {
          ExecPc(env, job, b, g);
          JumpDestsExact(job.code, Exec(env, job, b, g).f.pc);
        }
      }
    }
  }

  /** PUSH data is never executed: in every frame of every run the program counter stands on an instruction. */
  lemma {:induction false} OnlyInstructionsAreFetched(env: Env, job: Job, f: Frame, w: World)
    requires AtInstruction(job.code, f)
    ensures forall v :: v in Visits(env, job, f, w) ==> AtInstruction(v.job.code, v.f)
    decreases f.gas
  {
    hide Begin, Resume, Run, InstructionStart;
    BeginPc(env, job, f, w);
    match Begin(env, job, f, w)
    case Halt(g) =>
    case Fail(_) =>
    case Next(g, w1) => OnlyInstructionsAreFetched(env, job, g, w1);
    case Spawn(child, init, w1, k) =>
      OnlyInstructionsAreFetched(env, child, init, w1);
      ResumeKeepsPc(env, k, Run(env, child, init, w1));
      var o := Resume(env, k, Run(env, child, init, w1));
      if o.Done? { OnlyInstructionsAreFetched(env, job, o.f, o.w); }
  }

  // ----- opcodes per frame -----

  /** Opcodes one frame fetches itself, not counting its children's. */
  function OpcodesFetched(env: Env, job: Job, f: Frame, w: World): nat
    decreases f.gas
  {
    if f.stopped || f.pc >= |job.code| then 0 else
      1 + match Begin(env, job, f, w)
          case Halt(_) => 0
          case Fail(_) => 0
          case Next(g, w1) => OpcodesFetched(env, job, g, w1)
          case Spawn(child, init, w1, k) =>
            (match Resume(env, k, Run(env, child, init, w1))
             case Raised(_, _) => 0
             case Done(g, w2) => OpcodesFetched(env, job, g, w2))
  }

  lemma {:induction false} OpcodesBoundedByGas(env: Env, job: Job, f: Frame, w: World)
    ensures OpcodesFetched(env, job, f, w) <= f.gas + 1
    decreases f.gas
  {
    match Begin(env, job, f, w)
    case Halt(_) =>
    case Fail(_) =>
    case Next(g, w1) => OpcodesBoundedByGas(env, job, g, w1);
    case Spawn(child, init, w1, k) =>
      var o := Resume(env, k, Run(env, child, init, w1));
      if o.Done? { OpcodesBoundedByGas(env, job, o.f, o.w); }
  }

  // ----- stack depth -----

  lemma StackOpsKeepDepth(env: Env, job: Job, b: Byte, f: Frame)
    requires |f.stack| <= MAX_STACK_DEPTH
    requires IsPush(b) || IsDup(b) || IsSwap(b) || IsBinary(b) || IsNullary(b) || b == OP_ISZERO || b == OP_NOT
    ensures Exec(env, job, b, f).Ok? ==> |Exec(env, job, b, f).f.stack| <= MAX_STACK_DEPTH
  {
    hide FromBE, BinaryValue, NullaryValue, Window;
  }

  lemma ExecKeepsDepth(env: Env, job: Job, b: Byte, f: Frame)
    requires |f.stack| <= MAX_STACK_DEPTH && GasCost(b).Some? && b != OP_CALL && b != OP_CREATE && b != OP_INVALID
    ensures Exec(env, job, b, f).Ok? ==> |Exec(env, job, b, f).f.stack| <= MAX_STACK_DEPTH
  {
    if IsPush(b) || IsDup(b) || IsSwap(b) || IsBinary(b) || IsNullary(b) || b == OP_ISZERO || b == OP_NOT {
      StackOpsKeepDepth(env, job, b, f);
    } else {
      hide DoPush, DoDup, DoSwap, DoBinary, NullaryValue, DoUnary, FromBE, JumpDests, Window,
        EvmMemory.ReadRange, EvmMemory.WriteRange, EvmMemory.Load, EvmMemory.Store, EvmMemory.Store8;
    }
  }

  lemma CallKeepsDepth(env: Env, job: Job, f: Frame, w: World)
    requires |f.stack| <= MAX_STACK_DEPTH
    ensures var p := BeginCall(env, job, f, w);
      && (p.Next? ==> |p.f.stack| <= MAX_STACK_DEPTH)
      && (p.Spawn? ==> p.init.stack == [] && |p.k.f.stack| < MAX_STACK_DEPTH)
  {
    hide FromBE, WordBytes, EvmMemory.ReadRange, Transfer, ContractAddress;
  }

  lemma CreateKeepsDepth(env: Env, job: Job, f: Frame, w: World)
    requires |f.stack| <= MAX_STACK_DEPTH
    ensures var p := BeginCreate(env, job, f, w);
      && (p.Next? ==> |p.f.stack| <= MAX_STACK_DEPTH)
      && (p.Spawn? ==> p.init.stack == [] && |p.k.f.stack| < MAX_STACK_DEPTH)
  {
    hide FromBE, WordBytes, EvmMemory.ReadRange, Transfer, ContractAddress, IncrementNonce, AddBalance;
  }

  lemma BeginKeepsDepth(env: Env, job: Job, f: Frame, w: World)
    requires |f.stack| <= MAX_STACK_DEPTH
    ensures match Begin(env, job, f, w)
            case Halt(g) => |g.stack| <= MAX_STACK_DEPTH
            case Fail(_) => true
            case Next(g, _) => |g.stack| <= MAX_STACK_DEPTH
            case Spawn(_, init, _, k) => init.stack == [] && |k.f.stack| < MAX_STACK_DEPTH
  {
    hide Exec, BeginCall, BeginCreate;
    if !f.stopped && f.pc < |job.code| {
      var b := job.code[f.pc];
      if GasCost(b).Some? && b != OP_INVALID && GasCost(b).value <= f.gas {
        var g := f.(gas := f.gas - GasCost(b).value, pc := f.pc + 1);
        if b == OP_CALL { CallKeepsDepth(env, job, g, w); }
        else if b == OP_CREATE { CreateKeepsDepth(env, job, g, w); }
        else { ExecKeepsDepth(env, job, b, g); }
      }
    }
  }

  lemma ResumeKeepsDepth(env: Env, k: Pending, o: Outcome)
    requires k.ChildGas() <= k.f.gas && (o.Done? ==> o.f.gas <= k.ChildGas()) && |k.f.stack| < MAX_STACK_DEPTH
    ensures Resume(env, k, o).Done? ==> |Resume(env, k, o).f.stack| <= MAX_STACK_DEPTH
  {
    hide FromBE, EvmMemory.WriteRange, Persist, SetCode;
  }

  /** No frame of any run ever holds more than 1024 values on its stack. */
  lemma {:induction false} StackDepthBounded(env: Env, job: Job, f: Frame, w: World)
    requires |f.stack| <= MAX_STACK_DEPTH
    ensures forall v :: v in Visits(env, job, f, w) ==> |v.f.stack| <= MAX_STACK_DEPTH
    decreases f.gas
  {
    hide Begin, Resume, Run;
    BeginKeepsDepth(env, job, f, w);
    match Begin(env, job, f, w)
    case Halt(g) =>
    case Fail(_) =>
    case Next(g, w1) => StackDepthBounded(env, job, g, w1);
    case Spawn(child, init, w1, k) =>
      StackDepthBounded(env, child, init, w1);
      ResumeKeepsDepth(env, k, Run(env, child, init, w1));
      var o := Resume(env, k, Run(env, child, init, w1));
      if o.Done? { StackDepthBounded(env, job, o.f, o.w); }
  }

  // ----- words everywhere -----

  ghost predicate WordStorage(storage: map<nat, nat>) {
    forall k :: k in storage ==> IsWord(k) && IsWord(storage[k])
  }

  ghost predicate WordAccount(a: Account) {
    WordStorage(a.storage) && IsWord(|a.code|)
  }

  ghost predicate WordWorld(w: World) {
    forall a :: a in w ==> WordAccount(w[a])
  }

  ghost predicate WordJob(job: Job) {
    && |job.ctx.caller| <= 32 && |job.ctx.address| <= 32 && IsWord(job.ctx.value)
    && IsWord(|job.ctx.data|) && IsWord(|job.code|)
  }

  ghost predicate WordFrame(env: Env, f: Frame) {
    && |f.stack| <= MAX_STACK_DEPTH
    && (forall i | 0 <= i < |f.stack| :: IsWord(f.stack[i]))
    && WordStorage(f.storage)
    && IsWord(f.gas)
    && |f.mem| <= env.maxMemory && |f.mem| % 32 == 0
    && |f.ret| <= env.maxMemory
  }

  lemma BinaryIsWord(b: Byte, x: nat, y: nat)
    requires IsBinary(b) && IsWord(x) && IsWord(y)
    ensures IsWord(BinaryValue(b, x, y))
  {
    hide Pow, BitAnd, BitOr;
    if b == OP_AND { BitAndBound(x, y); }
    if b == OP_OR { BitOrIsWord(x, y); }
    if b == OP_DIV && y != 0 { DivShrinks(x, y); }
  }

  lemma DivShrinks(x: nat, y: nat)
    requires y != 0
    ensures x / y <= x
  {
    MulAtLeast(y, x / y);
    assert y * (x / y) <= x;
  }

  lemma {:induction false} MulAtLeast(y: nat, q: nat)
    requires y > 0
    ensures q <= y * q
  {
    if y > 1 {
      MulAtLeast(y - 1, q);
      assert y * q == (y - 1) * q + q;
    }
  }

  lemma NullaryIsWord(env: Env, job: Job, b: Byte, f: Frame)
    requires IsNullary(b) && WordJob(job) && WordFrame(env, f) && IsWord(env.maxMemory)
    ensures IsWord(NullaryValue(job, b, f))
  {
    FromBEIsWord(job.ctx.address);
    FromBEIsWord(job.ctx.caller);
  }

  // One group of opcodes at a time: each keeps every value a word.

  lemma PushKeepsWords(env: Env, f: Frame, v: nat)
    requires WordFrame(env, f) && IsWord(v)
    ensures Push(f, v).Ok? ==> WordFrame(env, Push(f, v).f)
  {}

  lemma DropKeepsWords(env: Env, f: Frame, k: nat)
    requires WordFrame(env, f) && k <= |f.stack|
    ensures WordFrame(env, Drop(f, k))
  {}

  lemma ReadKeepsWords(env: Env, f: Frame, off: nat, size: nat)
    requires WordFrame(env, f)
    requires EvmMemory.ReadRange(env.maxMemory, f.mem, off, size).Some?
    ensures var (mem, bs) := EvmMemory.ReadRange(env.maxMemory, f.mem, off, size).value;
      WordFrame(env, f.(mem := mem)) && |bs| <= env.maxMemory
  {}

  lemma WriteKeepsWords(env: Env, f: Frame, off: nat, bs: ByteSeq)
    requires WordFrame(env, f)
    requires EvmMemory.WriteRange(env.maxMemory, f.mem, off, bs).Some?
    ensures WordFrame(env, f.(mem := EvmMemory.WriteRange(env.maxMemory, f.mem, off, bs).value))
  {}

  lemma StackOpsKeepWords(env: Env, job: Job, b: Byte, f: Frame)
    requires WordFrame(env, f) && WordJob(job) && IsWord(env.maxMemory)
    requires IsPush(b) || IsDup(b) || IsSwap(b) || IsBinary(b) || IsNullary(b) || b == OP_ISZERO || b == OP_NOT
    ensures var r := Exec(env, job, b, f); r.Ok? ==> WordFrame(env, r.f)
  {
    hide FromBE, BinaryValue, NullaryValue;
    if IsPush(b) {
      FromBEIsWord(Window(job.code, f.pc, b - OP_PUSH1 + 1));
    } else if IsBinary(b) && |f.stack| >= 2 {
      BinaryIsWord(b, Operand(f, 0), Operand(f, 1));
    } else if IsNullary(b) {
      NullaryIsWord(env, job, b, f);
    }
  }

  lemma ReadOpsKeepWords(env: Env, job: Job, b: Byte, f: Frame)
    requires WordFrame(env, f)
    requires b == OP_SHA3 || b == OP_MLOAD || b == OP_RETURN || b == OP_REVERT
    ensures var r := Exec(env, job, b, f); r.Ok? ==> WordFrame(env, r.f)
  {
    hide FromBE, WordFrame, EvmMemory.ReadRange;
    var n := if b == OP_MLOAD then 1 else 2;
    if |f.stack| >= n {
      var off, size := Operand(f, 0), if b == OP_MLOAD then 32 else Operand(f, 1);
      if EvmMemory.ReadRange(env.maxMemory, f.mem, off, size).Some? {
        var (mem, bs) := EvmMemory.ReadRange(env.maxMemory, f.mem, off, size).value;
        ReadKeepsWords(env, f, off, size);
        ReadLength(env.maxMemory, f.mem, off, size);
        DropKeepsWords(env, f.(mem := mem), n);
        var g := Drop(f, n).(mem := mem);
        assert g == Drop(f.(mem := mem), n);
        if b == OP_SHA3 {
          FromBEIsWord(env.keccak(bs));
          PushKeepsWords(env, g, FromBE(env.keccak(bs)));
        } else if b == OP_MLOAD {
          FromBEIsWord(bs);
          PushKeepsWords(env, g, FromBE(bs));
        } else {
          ReturnKeepsWords(env, g, bs, b == OP_REVERT || f.reverted);
        }
      }
    }
  }

  lemma WriteOpsKeepWords(env: Env, job: Job, b: Byte, f: Frame)
    requires WordFrame(env, f)
    requires b == OP_CALLDATACOPY || b == OP_CODECOPY || b == OP_MSTORE || b == OP_MSTORE8
    ensures var r := Exec(env, job, b, f); r.Ok? ==> WordFrame(env, r.f)
  {
    hide FromBE, WordFrame, EvmMemory.WriteRange, Window, WordBytes;
    if |f.stack| >= 2 && (b == OP_MSTORE || b == OP_MSTORE8) {
      var off, v := Operand(f, 0), Operand(f, 1);
      if b == OP_MSTORE8 {
        WriteFrameKeepsWords(env, f, off, [v % 256], 2);
      } else if IsWord(v) {
        WriteFrameKeepsWords(env, f, off, WordBytes(v), 2);
      }
    } else if |f.stack| >= 3 {
      var src := if b == OP_CALLDATACOPY then job.ctx.data else job.code;
      WriteFrameKeepsWords(env, f, Operand(f, 0), Window(src, Operand(f, 1), Operand(f, 2)), 3);
    }
  }

  lemma ReadLength(limit: nat, data: ByteSeq, off: nat, size: nat)
    requires EvmMemory.ReadRange(limit, data, off, size).Some?
    ensures |EvmMemory.ReadRange(limit, data, off, size).value.1| == size
  {}

  lemma ReturnKeepsWords(env: Env, f: Frame, bs: ByteSeq, reverted: bool)
    requires WordFrame(env, f) && |bs| <= env.maxMemory
    ensures WordFrame(env, f.(ret := bs, stopped := true, reverted := reverted))
  {}

  lemma WriteFrameKeepsWords(env: Env, f: Frame, off: nat, bs: ByteSeq, k: nat)
    requires WordFrame(env, f) && k <= |f.stack|
    ensures EvmMemory.WriteRange(env.maxMemory, f.mem, off, bs).Some? ==>
      WordFrame(env, Drop(f, k).(mem := EvmMemory.WriteRange(env.maxMemory, f.mem, off, bs).value))
  {
    hide WordFrame, EvmMemory.WriteRange;
    if EvmMemory.WriteRange(env.maxMemory, f.mem, off, bs).Some? {
      WriteKeepsWords(env, f, off, bs);
      DropKeepsWords(env, f.(mem := EvmMemory.WriteRange(env.maxMemory, f.mem, off, bs).value), k);
    }
  }

  lemma OtherOpsKeepWords(env: Env, job: Job, b: Byte, f: Frame)
    requires WordFrame(env, f) && WordJob(job)
    requires b == OP_STOP || b == OP_CALLDATALOAD || b == OP_POP || b == OP_SLOAD || b == OP_SSTORE || b == OP_JUMP
          || b == OP_JUMPI || b == OP_JUMPDEST
    ensures var r := Exec(env, job, b, f); r.Ok? ==> WordFrame(env, r.f)
  {
    hide FromBE, JumpDests, Window;
    if b == OP_CALLDATALOAD && |f.stack| >= 1 {
      FromBEIsWord(Window(job.ctx.data, Operand(f, 0), 32));
    }
  }

  lemma ExecKeepsWords(env: Env, job: Job, b: Byte, f: Frame)
    requires GasCost(b).Some? && b != OP_CALL && b != OP_CREATE && b != OP_INVALID
    requires WordFrame(env, f) && WordJob(job) && IsWord(env.maxMemory)
    ensures var r := Exec(env, job, b, f); r.Ok? ==> WordFrame(env, r.f)
  {
    hide Exec, WordFrame, WordJob;
    if b == OP_SHA3 || b == OP_MLOAD || b == OP_RETURN || b == OP_REVERT {
      ReadOpsKeepWords(env, job, b, f);
    } else if b == OP_CALLDATACOPY || b == OP_CODECOPY || b == OP_MSTORE || b == OP_MSTORE8 {
      WriteOpsKeepWords(env, job, b, f);
    } else if b == OP_STOP || b == OP_CALLDATALOAD || b == OP_POP || b == OP_SLOAD || b == OP_SSTORE || b == OP_JUMP
      || b == OP_JUMPI || b == OP_JUMPDEST {
      OtherOpsKeepWords(env, job, b, f);
    } else {
      StackOpsKeepWords(env, job, b, f);
    }
  }

  // ----- words along a whole run -----

  lemma TransferKeepsWords(w: World, a: ByteSeq, b: ByteSeq, v: nat)
    requires WordWorld(w)
    ensures Transfer(w, a, b, v).Some? ==> WordWorld(Transfer(w, a, b, v).value)
  {}

  lemma PersistKeepsWords(w: World, a: ByteSeq, storage: map<nat, nat>)
    requires WordWorld(w) && WordStorage(storage)
    ensures WordWorld(Persist(w, a, storage))
  {}

  ghost predicate WordOutcome(env: Env, o: Outcome) {
    WordWorld(o.w) && (o.Done? ==> WordFrame(env, o.f))
  }

  ghost predicate WordPlan(env: Env, job: Job, p: Plan) {
    match p
    case Halt(g) => WordFrame(env, g)
    case Fail(_) => true
    case Next(g, w1) => WordFrame(env, g) && WordWorld(w1)
    case Spawn(child, init, w1, k) =>
      && WordJob(child) && WordFrame(env, init) && WordWorld(w1) && WordFrame(env, k.f)
      && |k.f.stack| < MAX_STACK_DEPTH && (k.AfterCreate? ==> |k.address| == 20)
  }

  lemma FreshKeepsWords(env: Env, gas: nat, storage: map<nat, nat>)
    requires IsWord(gas) && WordStorage(storage)
    ensures WordFrame(env, Fresh(gas, storage))
  {}

  lemma PushedKeepsWords(env: Env, f: Frame, gas: nat, v: nat)
    requires WordFrame(env, f) && IsWord(v) && |f.stack| < MAX_STACK_DEPTH && gas <= f.gas
    ensures WordFrame(env, Pushed(f.(gas := gas), v))
  {}

  lemma BeginCallKeepsWords(env: Env, job: Job, f: Frame, w: World)
    requires WordFrame(env, f) && WordJob(job) && WordWorld(w) && IsWord(env.maxMemory)
    ensures WordPlan(env, job, BeginCall(env, job, f, w))
  {
    hide FromBE, WordBytes, EvmMemory.ReadRange, Transfer, WordStorage;
    if |f.stack| >= 7 {
      var x, y := Operand(f, 3), Operand(f, 4);
      if IsWord(Operand(f, 1)) {
        var target := WordBytes(Operand(f, 1))[12..];
        TransferKeepsWords(w, job.ctx.address, target, Operand(f, 2));
        CalleeWords(w, target);
      }
      if EvmMemory.ReadRange(env.maxMemory, f.mem, x, y).Some? { ReadKeepsWords(env, f, x, y); }
    }
  }

  lemma CalleeWords(w: World, a: ByteSeq)
    requires WordWorld(w)
    ensures WordAccount(Get(w, a))
  {}

  lemma BeginCreateKeepsWords(env: Env, job: Job, f: Frame, w: World)
    requires WordFrame(env, f) && WordJob(job) && WordWorld(w) && IsWord(env.maxMemory)
    ensures WordPlan(env, job, BeginCreate(env, job, f, w))
  {
    hide FromBE, EvmMemory.ReadRange, Transfer, ContractAddress, IncrementNonce, AddBalance, WordStorage;
    assert WordStorage(map[]) by { EmptyStorageIsWords(); }
    if |f.stack| >= 3 {
      var x, y := Operand(f, 1), Operand(f, 2);
      if EvmMemory.ReadRange(env.maxMemory, f.mem, x, y).Some? { ReadKeepsWords(env, f, x, y); }
      if ContractAddress(env, job.ctx.address, Get(w, job.ctx.address).nonce).Some? {
        var address := ContractAddress(env, job.ctx.address, Get(w, job.ctx.address).nonce).value;
        var w1 := AddBalance(IncrementNonce(w, job.ctx.address), address, 0);
        CreationKeepsWords(w, job.ctx.address, address);
        TransferKeepsWords(w1, job.ctx.address, address, Operand(f, 0));
      }
    }
  }

  lemma EmptyStorageIsWords()
    ensures WordStorage(map[])
  {}

  lemma CreationKeepsWords(w: World, creator: ByteSeq, address: ByteSeq)
    requires WordWorld(w)
    ensures WordWorld(AddBalance(IncrementNonce(w, creator), address, 0))
  {}

  lemma BeginKeepsWords(env: Env, job: Job, f: Frame, w: World)
    requires WordFrame(env, f) && WordJob(job) && WordWorld(w) && IsWord(env.maxMemory)
    ensures WordPlan(env, job, Begin(env, job, f, w))
  {
    hide BeginCall, BeginCreate, Exec, WordJob, WordWorld;
    if !f.stopped && f.pc < |job.code| {
      var b := job.code[f.pc];
      if GasCost(b).Some? && b != OP_INVALID && GasCost(b).value <= f.gas {
        var g := f.(gas := f.gas - GasCost(b).value, pc := f.pc + 1);
        assert WordFrame(env, g);
        if b == OP_CALL { BeginCallKeepsWords(env, job, g, w); }
        else if b == OP_CREATE { BeginCreateKeepsWords(env, job, g, w); }
        else { ExecKeepsWords(env, job, b, g); }
      }
    }
  }

  lemma ResumeKeepsWords(env: Env, k: Pending, o: Outcome)
    requires k.ChildGas() <= k.f.gas && (o.Done? ==> o.f.gas <= k.ChildGas())
    requires WordFrame(env, k.f) && |k.f.stack| < MAX_STACK_DEPTH && (k.AfterCreate? ==> |k.address| == 20)
    requires WordOutcome(env, o) && IsWord(env.maxMemory)
    ensures WordOutcome(env, Resume(env, k, o))
  {
    hide FromBE, WordFrame, WordWorld, EvmMemory.WriteRange, Persist, SetCode, FitReturn;
    forall gas: nat, v: nat | gas <= k.f.gas && v < 2
      ensures WordFrame(env, Pushed(k.f.(gas := gas), v))
    {
      PushedKeepsWords(env, k.f, gas, v);
    }
    if o.Done? {
      WordFrameParts(env, o.f);
      match k
      case AfterCall(f, target, forwarded, retOff, retLen) =>
        PersistKeepsWords(o.w, target, o.f.storage);
        var bs := if o.f.ret == [] then [] else FitReturn(o.f.ret, retLen);
        if EvmMemory.WriteRange(env.maxMemory, f.mem, retOff, bs).Some? {
          var g := f.(mem := EvmMemory.WriteRange(env.maxMemory, f.mem, retOff, bs).value);
          WriteKeepsWords(env, f, retOff, bs);
          PushedKeepsWords(env, g, f.gas - (k.ChildGas() - o.f.gas), 1);
        }
      case AfterCreate(f, address) =>
        FromBEIsWord(address);
        PushedKeepsWords(env, f, o.f.gas, FromBE(address));
        DeployKeepsWords(o.w, address, o.f.ret);
        PersistKeepsWords(SetCode(o.w, address, o.f.ret), address, o.f.storage);
    }
  }

  lemma WordFrameParts(env: Env, f: Frame)
    requires WordFrame(env, f)
    ensures WordStorage(f.storage) && |f.ret| <= env.maxMemory
  {}

  lemma DeployKeepsWords(w: World, address: ByteSeq, code: ByteSeq)
    requires WordWorld(w) && IsWord(|code|)
    ensures WordWorld(SetCode(w, address, code))
  {}

  lemma {:induction false} RunKeepsWords(env: Env, job: Job, f: Frame, w: World)
    requires WordFrame(env, f) && WordJob(job) && WordWorld(w) && IsWord(env.maxMemory)
    ensures WordOutcome(env, Run(env, job, f, w))
    decreases f.gas
  {
    hide Begin, Resume, WordFrame, WordJob, WordWorld;
    BeginKeepsWords(env, job, f, w);
    match Begin(env, job, f, w)
    case Halt(g) =>
    case Fail(_) =>
    case Next(g, w1) => RunKeepsWords(env, job, g, w1);
    case Spawn(child, init, w1, k) =>
      RunKeepsWords(env, child, init, w1);
      var o := Resume(env, k, Run(env, child, init, w1));
      ResumeKeepsWords(env, k, Run(env, child, init, w1));
      if o.Done? { RunKeepsWords(env, job, o.f, o.w); }
  }

  ghost predicate WordVisit(env: Env, v: Visit) {
    WordJob(v.job) && WordFrame(env, v.f) && WordWorld(v.w)
  }

  /** From word-sized inputs, every frame of the run at every depth holds only words, on at most 1024 stack
      places, in every state; so the 32-byte conversions of MSTORE and CALL always fit. */
  lemma {:induction false} AllStatesHoldWords(env: Env, job: Job, f: Frame, w: World)
    requires WordFrame(env, f) && WordJob(job) && WordWorld(w) && IsWord(env.maxMemory)
    ensures forall v :: v in Visits(env, job, f, w) ==> WordVisit(env, v)
    decreases f.gas
  {
    hide Begin, Resume, Run, WordFrame, WordJob, WordWorld;
    BeginKeepsWords(env, job, f, w);
    match Begin(env, job, f, w)
    case Halt(g) =>
    case Fail(_) =>
    case Next(g, w1) => AllStatesHoldWords(env, job, g, w1);
    case Spawn(child, init, w1, k) =>
      AllStatesHoldWords(env, child, init, w1);
      RunKeepsWords(env, child, init, w1);
      var o := Resume(env, k, Run(env, child, init, w1));
      ResumeKeepsWords(env, k, Run(env, child, init, w1));
      if o.Done? { AllStatesHoldWords(env, job, o.f, o.w); }
  }

  /** The operands MSTORE and CALL turn into 32 bytes always fit. */
  lemma ConversionsFit(env: Env, job: Job, f: Frame, w: World, v: Visit)
    requires WordFrame(env, f) && WordJob(job) && WordWorld(w) && IsWord(env.maxMemory)
    requires v in Visits(env, job, f, w) && v.f.pc < |v.job.code|
    ensures v.job.code[v.f.pc] == OP_MSTORE && |v.f.stack| >= 2 ==> IsWord(Operand(v.f, 1))
    ensures v.job.code[v.f.pc] == OP_CALL && |v.f.stack| >= 7 ==> IsWord(Operand(v.f, 1))
  {
    hide Visits;
    AllStatesHoldWords(env, job, f, w);
    assert WordVisit(env, v);
  }
}
