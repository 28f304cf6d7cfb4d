/** The meaning of execution: one opcode (`Begin`, `Resume`) and one frame (`Run`), on values. */
module Evm {
  import opened Bytes
  import opened Words
  import opened Environment
  import opened Opcodes
  import opened Accounts
  import EvmMemory

  // ----- machine state -----

  datatype Error = OutOfGas | StackUnderflow | StackOverflow | InvalidJumpDestination | InvalidOpcode | Unexpected

  datatype Context = Context(caller: ByteSeq, address: ByteSeq, value: nat, data: ByteSeq)

  /** What does not change while a frame runs; `attached` is false for an EVM without a world state. */
  datatype Job = Job(code: ByteSeq, ctx: Context, attached: bool)

  datatype Frame = Frame(
    pc: nat, stack: seq<nat>, mem: ByteSeq, storage: map<nat, nat>, gas: nat,
    stopped: bool, reverted: bool, ret: ByteSeq)

  function Fresh(gas: nat, storage: map<nat, nat>): Frame {
    Frame(0, [], [], storage, gas, false, false, [])
  }

  datatype Local = Ok(f: Frame) | Err(e: Error)

  /** How a frame ends, with the world it leaves; a raised error keeps the world changes made so far. */
  datatype Outcome = Done(f: Frame, w: World) | Raised(e: Error, w: World)

  // ----- code -----

  function InstructionLength(b: Byte): nat {
    if IsPush(b) then 1 + (b - OP_PUSH1 + 1) else 1
  }

  /** The scan of `_find_jumpdests` from `pc` on. */
  function ScanFrom(code: ByteSeq, pc: nat): set<nat>
    decreases |code| - pc
  {
    if pc >= |code| then {}
    else (if code[pc] == OP_JUMPDEST then {pc} else {}) + ScanFrom(code, pc + InstructionLength(code[pc]))
  }

  function JumpDests(code: ByteSeq): set<nat> {
    ScanFrom(code, 0)
  }

  /** n bytes from `off` on, zero-padded past the end. */
  function Window(src: ByteSeq, off: nat, n: nat): (s: ByteSeq)
    ensures |s| == n
  {
    seq(n, i requires 0 <= i => if off + i < |src| then src[off + i] else 0)
  }

  // ----- opcodes that stay inside the frame (gas is charged and pc advanced already) -----

  function Push(f: Frame, v: nat): (r: Local)
    ensures r.Ok? ==> r.f.gas == f.gas
  {
    if |f.stack| >= MAX_STACK_DEPTH then Err(StackOverflow) else Ok(f.(stack := f.stack + [v]))
  }

  function Operand(f: Frame, i: nat): nat
    requires i < |f.stack|
  {
    f.stack[|f.stack| - 1 - i]
  }

  function Drop(f: Frame, k: nat): Frame
    requires k <= |f.stack|
  {
    f.(stack := f.stack[..|f.stack| - k])
  }

  function BinaryValue(b: Byte, x: nat, y: nat): nat
    requires IsBinary(b)
  {
    if b == OP_ADD then Plus(x, y)
    else if b == OP_MUL then Product(x, y)
    else if b == OP_SUB then Minus(x, y)
    else if b == OP_DIV then Quotient(x, y)
    else if b == OP_MOD then Remainder(x, y)
    else if b == OP_EXP then Power(x, y)
    else if b == OP_LT then (if x < y then 1 else 0)
    else if b == OP_GT then (if x > y then 1 else 0)
    else if b == OP_EQ then (if x == y then 1 else 0)
    else if b == OP_AND then BitAnd(x, y)
    else BitOr(x, y)
  }

  /** What the arithmetic and comparison opcodes compute, operands in popping order. */
  lemma ArithmeticMeaning(b: Byte, x: nat, y: nat)
    requires IsBinary(b)
    ensures var v := BinaryValue(b, x, y);
      && (b == OP_ADD ==> Reduces(v, x + y))
      && (b == OP_MUL ==> Reduces(v, x * y))
      && (b == OP_SUB ==> Reduces(v, x - y))
      && (b == OP_EXP ==> Reduces(v, Pow(x, y)))
      && (b == OP_DIV && y != 0 ==> x == y * v + Remainder(x, y) && Remainder(x, y) < y)
      && (b == OP_MOD && y != 0 ==> x == y * Quotient(x, y) + v && v < y)
      && (y == 0 && (b == OP_DIV || b == OP_MOD) ==> v == 0)
      && (b == OP_LT ==> v <= 1 && (v == 1 <==> x < y))
      && (b == OP_GT ==> v <= 1 && (v == 1 <==> x > y))
      && (b == OP_EQ ==> v <= 1 && (v == 1 <==> x == y))
  {
    hide Pow, Plus, Minus, Product, Power, Reduces, Quotient, Remainder;
    WrapAround(x, y);
    if y != 0 { QuotientAndRemainder(x, y); } else { ZeroDivisor(x); }
  }

  lemma BitwiseMeaning(x: nat, y: nat, i: nat)
    ensures Bit(BinaryValue(OP_AND, x, y), i) <==> Bit(x, i) && Bit(y, i)
    ensures Bit(BinaryValue(OP_OR, x, y), i) <==> Bit(x, i) || Bit(y, i)
  {
    hide BitAnd, BitOr, Bit;
    BitAndIsBitwise(x, y, i);
    BitOrIsBitwise(x, y, i);
  }

  function NullaryValue(job: Job, b: Byte, f: Frame): nat
    requires IsNullary(b)
  {
    if b == OP_ADDRESS then FromBE(job.ctx.address)
    else if b == OP_CALLER then FromBE(job.ctx.caller)
    else if b == OP_CALLVALUE then job.ctx.value
    else if b == OP_CALLDATASIZE then |job.ctx.data|
    else if b == OP_CODESIZE then |job.code|
    else if b == OP_MSIZE then |f.mem|
    else f.gas
  }

  function DoPush(job: Job, f: Frame, n: nat): (r: Local)
    ensures r.Ok? ==> r.f.gas == f.gas
  {
    match Push(f, FromBE(Window(job.code, f.pc, n)))
    case Err(e) => Err(e)
    case Ok(g) => Ok(g.(pc := g.pc + n))
  }

  function DoDup(f: Frame, depth: nat): (r: Local)
    ensures r.Ok? ==> r.f.gas == f.gas
  {
    if depth >= |f.stack| then Err(StackUnderflow) else Push(f, Operand(f, depth))
  }

  function DoSwap(f: Frame, depth: nat): (r: Local)
    ensures r.Ok? ==> r.f.gas == f.gas
  {
    if depth >= |f.stack| then Err(StackUnderflow)
    else
      var top := |f.stack| - 1;
      Ok(f.(stack := f.stack[top := f.stack[top - depth]][top - depth := f.stack[top]]))
  }

  function DoBinary(b: Byte, f: Frame): (r: Local)
    requires IsBinary(b)
    ensures r.Ok? ==> r.f.gas == f.gas
  {
    if |f.stack| < 2 then Err(StackUnderflow)
    else Push(Drop(f, 2), BinaryValue(b, Operand(f, 0), Operand(f, 1)))
  }

  /** NOT of a value above the word range would be a negative number; the model raises instead. */
  function DoUnary(b: Byte, f: Frame): (r: Local)
    ensures r.Ok? ==> r.f.gas == f.gas
  {
    if |f.stack| < 1 then Err(StackUnderflow)
    else
      var x := Operand(f, 0);
      if b == OP_ISZERO then Push(Drop(f, 1), if x == 0 then 1 else 0)
      else if IsWord(x) then Push(Drop(f, 1), MOD - 1 - x)
      else Err(Unexpected)
  }

  function DoSha3(env: Env, f: Frame): (r: Local)
    ensures r.Ok? ==> r.f.gas == f.gas
  {
    if |f.stack| < 2 then Err(StackUnderflow)
    else match EvmMemory.ReadRange(env.maxMemory, f.mem, Operand(f, 0), Operand(f, 1))
      case None => Err(Unexpected)
      case Some((mem, data)) => Push(Drop(f, 2).(mem := mem), FromBE(env.keccak(data)))
  }

  function DoCallDataLoad(job: Job, f: Frame): (r: Local)
    ensures r.Ok? ==> r.f.gas == f.gas
  {
    if |f.stack| < 1 then Err(StackUnderflow)
    else Push(Drop(f, 1), FromBE(Window(job.ctx.data, Operand(f, 0), 32)))
  }

  /** CALLDATACOPY and CODECOPY */
  function DoCopy(env: Env, src: ByteSeq, f: Frame): (r: Local)
    ensures r.Ok? ==> r.f.gas == f.gas
  {
    if |f.stack| < 3 then Err(StackUnderflow)
    else match EvmMemory.WriteRange(env.maxMemory, f.mem, Operand(f, 0), Window(src, Operand(f, 1), Operand(f, 2)))
      case None => Err(Unexpected)
      case Some(mem) => Ok(Drop(f, 3).(mem := mem))
  }

  function DoPop(f: Frame): (r: Local)
    ensures r.Ok? ==> r.f.gas == f.gas
  {
    if |f.stack| < 1 then Err(StackUnderflow) else Ok(Drop(f, 1))
  }

  function DoMload(env: Env, f: Frame): (r: Local)
    ensures r.Ok? ==> r.f.gas == f.gas
  {
    if |f.stack| < 1 then Err(StackUnderflow)
    else match EvmMemory.Load(env.maxMemory, f.mem, Operand(f, 0))
      case None => Err(Unexpected)
      case Some((mem, v)) => Push(Drop(f, 1).(mem := mem), v)
  }

  function DoMstore(env: Env, b: Byte, f: Frame): (r: Local)
    ensures r.Ok? ==> r.f.gas == f.gas
  {
    if |f.stack| < 2 then Err(StackUnderflow)
    else match (if b == OP_MSTORE then EvmMemory.Store(env.maxMemory, f.mem, Operand(f, 0), Operand(f, 1))
                else EvmMemory.Store8(env.maxMemory, f.mem, Operand(f, 0), Operand(f, 1)))
      case None => Err(Unexpected)
      case Some(mem) => Ok(Drop(f, 2).(mem := mem))
  }

  function DoSload(f: Frame): (r: Local)
    ensures r.Ok? ==> r.f.gas == f.gas
  {
    if |f.stack| < 1 then Err(StackUnderflow)
    else Push(Drop(f, 1), Slot(f.storage, Operand(f, 0)))
  }

  function Slot(storage: map<nat, nat>, key: nat): nat {
    if key in storage then storage[key] else 0
  }

  function DoSstore(f: Frame): (r: Local)
    ensures r.Ok? ==> r.f.gas == f.gas
  {
    if |f.stack| < 2 then Err(StackUnderflow)
    else Ok(Drop(f, 2).(storage := f.storage[Operand(f, 0) := Operand(f, 1)]))
  }

  function DoJump(job: Job, f: Frame): (r: Local)
    ensures r.Ok? ==> r.f.gas == f.gas
  {
    if |f.stack| < 1 then Err(StackUnderflow)
    else if Operand(f, 0) !in JumpDests(job.code) then Err(InvalidJumpDestination)
    else Ok(Drop(f, 1).(pc := Operand(f, 0)))
  }

  function DoJumpi(job: Job, f: Frame): (r: Local)
    ensures r.Ok? ==> r.f.gas == f.gas
  {
    if |f.stack| < 2 then Err(StackUnderflow)
    else if Operand(f, 1) == 0 then Ok(Drop(f, 2))
    else if Operand(f, 0) !in JumpDests(job.code) then Err(InvalidJumpDestination)
    else Ok(Drop(f, 2).(pc := Operand(f, 0)))
  }

  /** RETURN and REVERT */
  function DoReturn(env: Env, f: Frame, reverted: bool): (r: Local)
    ensures r.Ok? ==> r.f.gas == f.gas && r.f.stopped
  {
    if |f.stack| < 2 then Err(StackUnderflow)
    else match EvmMemory.ReadRange(env.maxMemory, f.mem, Operand(f, 0), Operand(f, 1))
      case None => Err(Unexpected)
      case Some((mem, data)) =>
        Ok(Drop(f, 2).(mem := mem, ret := data, stopped := true, reverted := reverted || f.reverted))
  }

  /** `_dispatch` for every opcode but CALL and CREATE. */
  function Exec(env: Env, job: Job, b: Byte, f: Frame): (r: Local)
    requires GasCost(b).Some? && b != OP_CALL && b != OP_CREATE && b != OP_INVALID
    ensures r.Ok? ==> r.f.gas == f.gas
    ensures r.Ok? && IsHalting(b) ==> r.f.stopped
  {
    if IsPush(b) then DoPush(job, f, b - OP_PUSH1 + 1)
    else if IsDup(b) then DoDup(f, b - OP_DUP1)
    else if IsSwap(b) then DoSwap(f, b - OP_SWAP1 + 1)
    else if IsBinary(b) then DoBinary(b, f)
    else if IsNullary(b) then Push(f, NullaryValue(job, b, f))
    else if b == OP_STOP then Ok(f.(stopped := true))
    else if b == OP_ISZERO || b == OP_NOT then DoUnary(b, f)
    else if b == OP_SHA3 then DoSha3(env, f)
    else if b == OP_CALLDATALOAD then DoCallDataLoad(job, f)
    else if b == OP_CALLDATACOPY then DoCopy(env, job.ctx.data, f)
    else if b == OP_CODECOPY then DoCopy(env, job.code, f)
    else if b == OP_POP then DoPop(f)
    else if b == OP_MLOAD then DoMload(env, f)
    else if b == OP_MSTORE || b == OP_MSTORE8 then DoMstore(env, b, f)
    else if b == OP_SLOAD then DoSload(f)
    else if b == OP_SSTORE then DoSstore(f)
    else if b == OP_JUMP then DoJump(job, f)
    else if b == OP_JUMPI then DoJumpi(job, f)
    else if b == OP_JUMPDEST then Ok(f)
    else DoReturn(env, f, b == OP_REVERT)
  }

  // ----- CALL and CREATE: what happens before the child frame runs, and after -----

  datatype Pending =
    | AfterCall(f: Frame, target: ByteSeq, forwarded: nat, retOff: nat, retLen: nat)
    | AfterCreate(f: Frame, address: ByteSeq)
  {
    function ChildGas(): nat {
      if AfterCall? then forwarded else f.gas
    }
  }

  datatype Plan =
    | Halt(f: Frame)
    | Fail(e: Error)
    | Next(f: Frame, w: World)
    | Spawn(child: Job, init: Frame, w: World, k: Pending)

  function Pushed(f: Frame, v: nat): (g: Frame)
    ensures g.gas == f.gas
  {
    f.(stack := f.stack + [v])
  }

  function Min(a: nat, b: nat): nat {
    if a < b then a else b
  }

  ghost predicate SpawnsWithin(p: Plan, gas: nat) {
    p.Spawn? ==>
      && p.init.gas == p.k.ChildGas() <= p.k.f.gas <= gas
      && !p.init.stopped
  }

  function BeginCall(env: Env, job: Job, f: Frame, w: World): (p: Plan)
    ensures !p.Halt? && (p.Next? ==> p.f.gas <= f.gas) && SpawnsWithin(p, f.gas)
  {
    if |f.stack| < 7 then Fail(StackUnderflow)
    else
      var f0 := Drop(f, 7);
      if !job.attached then Next(Pushed(f0, 0), w)
      else if !IsWord(Operand(f, 1)) then Fail(Unexpected)
      else
        var target := WordBytes(Operand(f, 1))[12..];
        var value := Operand(f, 2);
        var forwarded := Min(Operand(f, 0), f.gas);
        match EvmMemory.ReadRange(env.maxMemory, f.mem, Operand(f, 3), Operand(f, 4))
        case None => Fail(Unexpected)
        case Some((mem, input)) =>
          var f1 := f0.(mem := mem);
          match Transfer(w, job.ctx.address, target, value)
          case None => Next(Pushed(f1, 0), w)
          case Some(w1) =>
            var callee := Get(w, target);
            if callee.code == [] then Next(Pushed(f1, 1), w1)
            else Spawn(Job(callee.code, Context(job.ctx.address, target, value, input), true),
                       Fresh(forwarded, callee.storage), w1,
                       AfterCall(f1, target, forwarded, Operand(f, 5), Operand(f, 6)))
  }

  function BeginCreate(env: Env, job: Job, f: Frame, w: World): (p: Plan)
    ensures !p.Halt? && (p.Next? ==> p.f.gas <= f.gas) && SpawnsWithin(p, f.gas)
  {
    if |f.stack| < 3 then Fail(StackUnderflow)
    else
      var f0 := Drop(f, 3);
      if !job.attached then Next(Pushed(f0, 0), w)
      else
        match EvmMemory.ReadRange(env.maxMemory, f.mem, Operand(f, 1), Operand(f, 2))
        case None => Fail(Unexpected)
        case Some((mem, code)) =>
          var f1 := f0.(mem := mem);
          match ContractAddress(env, job.ctx.address, Get(w, job.ctx.address).nonce)
          case None => Fail(Unexpected)
          case Some(address) =>
            var w1 := AddBalance(IncrementNonce(w, job.ctx.address), address, 0);
            match Transfer(w1, job.ctx.address, address, Operand(f, 0))
            case None => Next(Pushed(f1, 0), w1)
            case Some(w2) =>
              Spawn(Job(code, Context(job.ctx.address, address, Operand(f, 0), []), true),
                    Fresh(f.gas, map[]), w2, AfterCreate(f1, address))
  }

  /** The callee's return data cut or zero-padded to the length the caller asked for. */
  function FitReturn(ret: ByteSeq, len: nat): ByteSeq {
    if |ret| >= len then ret[..len] else ret + Zeros(len - |ret|)
  }

  /** The caller's side of a finished child; only OutOfGas is caught. */
  function Resume(env: Env, k: Pending, o: Outcome): (r: Outcome)
    requires k.ChildGas() <= k.f.gas
    requires o.Done? ==> o.f.gas <= k.ChildGas()
    ensures r.Done? ==> r.f.gas <= k.f.gas
  {
    match o
    case Raised(e, w) =>
      if e != OutOfGas then o
      else if k.AfterCall? then Done(Pushed(k.f.(gas := k.f.gas - k.forwarded), 0), w)
      else Done(Pushed(k.f, 0), w)
    case Done(c, w) =>
      var used := k.ChildGas() - c.gas;
      match k
      case AfterCall(f, target, forwarded, retOff, retLen) =>
        if c.reverted then Done(Pushed(f.(gas := f.gas - forwarded), 0), w)
        else
          var w1 := Persist(w, target, c.storage);
          var bs := if c.ret == [] then [] else FitReturn(c.ret, retLen);
          (match EvmMemory.WriteRange(env.maxMemory, f.mem, retOff, bs)
           case None => Raised(Unexpected, w1)
           case Some(mem) => Done(Pushed(f.(mem := mem, gas := f.gas - used), 1), w1))
      case AfterCreate(f, address) =>
        if c.reverted then Done(Pushed(f.(gas := f.gas - used), 0), w)
        else
          var w1 := Persist(SetCode(w, address, c.ret), address, c.storage);
          Done(Pushed(f.(gas := f.gas - used), FromBE(address)), w1)
  }

  // ----- one opcode, one frame -----

  /** Fetch, charge, advance and dispatch one opcode. */
  function Begin(env: Env, job: Job, f: Frame, w: World): (p: Plan)
    ensures p.Halt? ==> p.f.gas <= f.gas
    ensures p.Next? ==> p.f.gas < f.gas
    ensures p.Spawn? ==> f.gas > 0 && SpawnsWithin(p, f.gas - 1)
  {
    if f.stopped || f.pc >= |job.code| then Halt(f)
    else
      var b := job.code[f.pc];
      match GasCost(b)
      case None => Fail(InvalidOpcode)
      case Some(cost) =>
        if b == OP_INVALID then Halt(f.(gas := 0, stopped := true, reverted := true))
        else if cost > f.gas then Fail(OutOfGas)
        else
          var g := f.(gas := f.gas - cost, pc := f.pc + 1);
          if b == OP_CALL then BeginCall(env, job, g, w)
          else if b == OP_CREATE then BeginCreate(env, job, g, w)
          else
            match Exec(env, job, b, g)
            case Err(e) => Fail(e)
            case Ok(h) => if h.stopped then Halt(h) else Next(h, w)
  }

  /** `execute`: every frame ends, because each opcode that goes on costs gas and a child has less of it. */
  function Run(env: Env, job: Job, f: Frame, w: World): (r: Outcome)
    ensures r.Done? ==> r.f.gas <= f.gas
    decreases f.gas
  {
    match Begin(env, job, f, w)
    case Halt(g) => Done(g, w)
    case Fail(e) => Raised(e, w)
    case Next(g, w1) => Run(env, job, g, w1)
    case Spawn(child, init, w1, k) =>
      match Resume(env, k, Run(env, child, init, w1))
      case Raised(e, w2) => Raised(e, w2)
      case Done(g, w2) => Run(env, job, g, w2)
  }
}
