/** Symbolic execution: where a run stands after a stretch of opcodes, for every amount of gas at once. */
module Stepping {
  import opened Bytes
  import opened Words
  import opened Environment
  import opened Opcodes
  import opened Accounts
  import opened Evm
  import opened EvmInvariants
  import EvmMemory

  /** A frame of `job` started in state `start` (whatever its gas) on world `w`. */
  datatype Sim = Sim(env: Env, job: Job, w: World, start: Frame) {
    ghost function From(s: Frame, gas: nat): Outcome {
      Run(env, job, s.(gas := gas), w)
    }

    /** With less than `c` gas the run is out of gas; with at least `c` it comes by `s`, `c` gas poorer. */
    ghost predicate At(s: Frame, c: nat) {
      && !s.stopped
      && forall gas: nat :: From(start, gas) == if gas < c then Raised(OutOfGas, w) else From(s, gas - c)
    }

    predicate Fetches(s: Frame, b: Byte) {
      s.pc < |job.code| && job.code[s.pc] == b
    }
  }

  lemma AtStart(m: Sim)
    requires !m.start.stopped
    ensures m.At(m.start, 0)
  {}

  ghost predicate StepsTo(m: Sim, s: Frame, t: Frame, cost: nat) {
    forall gas: nat :: Begin(m.env, m.job, s.(gas := gas), m.w) ==
      if gas < cost then Fail(OutOfGas) else Next(t.(gas := gas - cost), m.w)
  }

  lemma Advance(m: Sim, s: Frame, c: nat, t: Frame, cost: nat)
    requires m.At(s, c) && StepsTo(m, s, t, cost) && !t.stopped
    ensures m.At(t, c + cost)
  {
    hide Begin;
    forall gas: nat
      ensures m.From(m.start, gas) == if gas < c + cost then Raised(OutOfGas, m.w) else m.From(t, gas - (c + cost))
    {
      if gas >= c {
        var g := s.(gas := gas - c);
        assert m.From(m.start, gas) == Run(m.env, m.job, g, m.w);
        assert Begin(m.env, m.job, g, m.w) ==
          if gas - c < cost then Fail(OutOfGas) else Next(t.(gas := gas - c - cost), m.w);
        assert gas >= c + cost ==> t.(gas := gas - c - cost) == t.(gas := gas - (c + cost));
      }
    }
  }

  /** A run that comes by a state goes on from there with the gas that is left. */
  lemma ComesBy(m: Sim, s: Frame, c: nat, gas: nat)
    requires m.At(s, c) && gas >= c
    ensures m.From(m.start, gas) == m.From(s, gas - c)
  {
    hide Run;
  }

  lemma StepPush(m: Sim, s: Frame, c: nat, n: nat, v: nat) returns (t: Frame)
    requires m.At(s, c) && 1 <= n <= 32 && m.Fetches(s, OP_PUSH1 + n - 1) && |s.stack| < MAX_STACK_DEPTH
    requires FromBE(Window(m.job.code, s.pc + 1, n)) == v
    ensures t == s.(pc := s.pc + 1 + n, stack := s.stack + [v]) && m.At(t, c + 3)
  {
    hide FromBE, Window, Run;
    t := s.(pc := s.pc + 1 + n, stack := s.stack + [v]);
    assert StepsTo(m, s, t, 3);
    Advance(m, s, c, t, 3);
  }

  lemma StepPush1(m: Sim, s: Frame, c: nat, v: Byte) returns (t: Frame)
    requires m.At(s, c) && m.Fetches(s, OP_PUSH1) && |s.stack| < MAX_STACK_DEPTH
    requires s.pc + 1 < |m.job.code| && m.job.code[s.pc + 1] == v
    ensures t == s.(pc := s.pc + 2, stack := s.stack + [v]) && m.At(t, c + 3)
  {
    assert FromBE(Window(m.job.code, s.pc + 1, 1)) == v by {
      assert Window(m.job.code, s.pc + 1, 1) == [v];
      assert FromBE([v]) == v;
    }
    t := StepPush(m, s, c, 1, v);
  }

  lemma StepDup(m: Sim, s: Frame, c: nat, depth: nat, v: nat) returns (t: Frame)
    requires m.At(s, c) && depth < 16 && m.Fetches(s, OP_DUP1 + depth) && depth < |s.stack| < MAX_STACK_DEPTH
    requires v == Operand(s, depth)
    ensures t == s.(pc := s.pc + 1, stack := s.stack + [v]) && m.At(t, c + 3)
  {
    hide Run;
    t := s.(pc := s.pc + 1, stack := s.stack + [v]);
    assert StepsTo(m, s, t, 3);
    Advance(m, s, c, t, 3);
  }

  lemma StepSwap1(m: Sim, s: Frame, c: nat, rest: seq<nat>, x: nat, y: nat) returns (t: Frame)
    requires m.At(s, c) && m.Fetches(s, OP_SWAP1) && s.stack == rest + [y, x]
    ensures t == s.(pc := s.pc + 1, stack := rest + [x, y]) && m.At(t, c + 3)
  {
    hide Run;
    t := s.(pc := s.pc + 1, stack := rest + [x, y]);
    assert s.stack[|s.stack| - 1 := y][|s.stack| - 2 := x] == t.stack;
    assert StepsTo(m, s, t, 3);
    Advance(m, s, c, t, 3);
  }

  lemma StepBinary(m: Sim, s: Frame, c: nat, b: Byte, rest: seq<nat>, x: nat, y: nat, v: nat) returns (t: Frame)
    requires m.At(s, c) && IsBinary(b) && m.Fetches(s, b) && s.stack == rest + [y, x] && |rest| < MAX_STACK_DEPTH
    requires v == BinaryValue(b, x, y)
    ensures t == s.(pc := s.pc + 1, stack := rest + [v]) && m.At(t, c + GasCost(b).value)
  {
    hide Run, BinaryValue;
    t := s.(pc := s.pc + 1, stack := rest + [v]);
    assert s.stack[..|s.stack| - 2] == rest;
    assert StepsTo(m, s, t, GasCost(b).value);
    Advance(m, s, c, t, GasCost(b).value);
  }

  lemma StepPop(m: Sim, s: Frame, c: nat, rest: seq<nat>, x: nat) returns (t: Frame)
    requires m.At(s, c) && m.Fetches(s, OP_POP) && s.stack == rest + [x]
    ensures t == s.(pc := s.pc + 1, stack := rest) && m.At(t, c + 2)
  {
    hide Run;
    t := s.(pc := s.pc + 1, stack := rest);
    assert s.stack[..|s.stack| - 1] == rest;
    assert StepsTo(m, s, t, 2);
    Advance(m, s, c, t, 2);
  }

  lemma StepCaller(m: Sim, s: Frame, c: nat) returns (t: Frame)
    requires m.At(s, c) && m.Fetches(s, OP_CALLER) && |s.stack| < MAX_STACK_DEPTH
    ensures t == s.(pc := s.pc + 1, stack := s.stack + [FromBE(m.job.ctx.caller)]) && m.At(t, c + 2)
  {
    hide Run, FromBE;
    t := s.(pc := s.pc + 1, stack := s.stack + [FromBE(m.job.ctx.caller)]);
    assert StepsTo(m, s, t, 2);
    Advance(m, s, c, t, 2);
  }

  lemma StepCallValue(m: Sim, s: Frame, c: nat) returns (t: Frame)
    requires m.At(s, c) && m.Fetches(s, OP_CALLVALUE) && |s.stack| < MAX_STACK_DEPTH
    ensures t == s.(pc := s.pc + 1, stack := s.stack + [m.job.ctx.value]) && m.At(t, c + 2)
  {
    hide Run, FromBE;
    t := s.(pc := s.pc + 1, stack := s.stack + [m.job.ctx.value]);
    assert StepsTo(m, s, t, 2);
    Advance(m, s, c, t, 2);
  }

  lemma StepCallDataLoad(m: Sim, s: Frame, c: nat, rest: seq<nat>, off: nat, v: nat) returns (t: Frame)
    requires m.At(s, c) && m.Fetches(s, OP_CALLDATALOAD) && s.stack == rest + [off] && |rest| < MAX_STACK_DEPTH
    requires v == FromBE(Window(m.job.ctx.data, off, 32))
    ensures t == s.(pc := s.pc + 1, stack := rest + [v]) && m.At(t, c + 3)
  {
    hide Run, FromBE, Window;
    t := s.(pc := s.pc + 1, stack := rest + [v]);
    assert s.stack[..|s.stack| - 1] == rest;
    assert StepsTo(m, s, t, 3);
    Advance(m, s, c, t, 3);
  }

  lemma StepSload(m: Sim, s: Frame, c: nat, rest: seq<nat>, key: nat) returns (t: Frame)
    requires m.At(s, c) && m.Fetches(s, OP_SLOAD) && s.stack == rest + [key] && |rest| < MAX_STACK_DEPTH
    ensures t == s.(pc := s.pc + 1, stack := rest + [Slot(s.storage, key)]) && m.At(t, c + 100)
  {
    hide Run;
    t := s.(pc := s.pc + 1, stack := rest + [Slot(s.storage, key)]);
    assert s.stack[..|s.stack| - 1] == rest;
    assert StepsTo(m, s, t, 100);
    Advance(m, s, c, t, 100);
  }

  lemma StepSstore(m: Sim, s: Frame, c: nat, rest: seq<nat>, key: nat, v: nat) returns (t: Frame)
    requires m.At(s, c) && m.Fetches(s, OP_SSTORE) && s.stack == rest + [v, key]
    ensures t == s.(pc := s.pc + 1, stack := rest, storage := s.storage[key := v]) && m.At(t, c + 5000)
  {
    hide Run;
    t := s.(pc := s.pc + 1, stack := rest, storage := s.storage[key := v]);
    assert s.stack[..|s.stack| - 2] == rest;
    assert StepsTo(m, s, t, 5000);
    Advance(m, s, c, t, 5000);
  }

  lemma StepJumpDest(m: Sim, s: Frame, c: nat) returns (t: Frame)
    requires m.At(s, c) && m.Fetches(s, OP_JUMPDEST)
    ensures t == s.(pc := s.pc + 1) && m.At(t, c + 1)
  {
    hide Run;
    t := s.(pc := s.pc + 1);
    assert StepsTo(m, s, t, 1);
    Advance(m, s, c, t, 1);
  }

  lemma StepJumpi(m: Sim, s: Frame, c: nat, rest: seq<nat>, dest: nat, cond: nat) returns (t: Frame)
    requires m.At(s, c) && m.Fetches(s, OP_JUMPI) && s.stack == rest + [cond, dest]
    requires dest in JumpDests(m.job.code)
    ensures t == s.(pc := if cond != 0 then dest else s.pc + 1, stack := rest) && m.At(t, c + 10)
  {
    hide Run, JumpDests;
    t := s.(pc := if cond != 0 then dest else s.pc + 1, stack := rest);
    assert s.stack[..|s.stack| - 2] == rest;
    assert StepsTo(m, s, t, 10);
    Advance(m, s, c, t, 10);
  }

  /** How the run ends when the opcode at `s` costs nothing and stops the frame in state `t`. */
  ghost predicate EndsIn(m: Sim, c: nat, t: Frame) {
    forall gas: nat :: m.From(m.start, gas) ==
      if gas < c then Raised(OutOfGas, m.w) else Done(t.(gas := gas - c), m.w)
  }

  lemma StepStop(m: Sim, s: Frame, c: nat) returns (t: Frame)
    requires m.At(s, c) && m.Fetches(s, OP_STOP)
    ensures t == s.(pc := s.pc + 1, stopped := true) && EndsIn(m, c, t)
  {
    t := s.(pc := s.pc + 1, stopped := true);
    forall gas: nat
      ensures m.From(s, gas) == Done(t.(gas := gas), m.w)
    {
      assert Begin(m.env, m.job, s.(gas := gas), m.w) == Halt(t.(gas := gas));
    }
  }

  /** RETURN or REVERT of `size` bytes at `off`, when memory can be read that far. */
  lemma StepReturn(m: Sim, s: Frame, c: nat, rest: seq<nat>, off: nat, size: nat, mem: ByteSeq, data: ByteSeq,
                   reverts: bool)
    returns (t: Frame)
    requires m.At(s, c) && m.Fetches(s, if reverts then OP_REVERT else OP_RETURN) && s.stack == rest + [size, off]
    requires EvmMemory.ReadRange(m.env.maxMemory, s.mem, off, size) == Some((mem, data)) && !s.reverted
    ensures t == s.(pc := s.pc + 1, stack := rest, mem := mem, ret := data, stopped := true, reverted := reverts)
    ensures EndsIn(m, c, t)
  {
    hide EvmMemory.ReadRange;
    t := s.(pc := s.pc + 1, stack := rest, mem := mem, ret := data, stopped := true, reverted := reverts);
    assert s.stack[..|s.stack| - 2] == rest;
    forall gas: nat
      ensures m.From(s, gas) == Done(t.(gas := gas), m.w)
    {
      assert Begin(m.env, m.job, s.(gas := gas), m.w) == Halt(t.(gas := gas));
    }
  }

  lemma StepCodeCopy(m: Sim, s: Frame, c: nat, rest: seq<nat>, dest: nat, off: nat, size: nat, mem: ByteSeq)
    returns (t: Frame)
    requires m.At(s, c) && m.Fetches(s, OP_CODECOPY) && s.stack == rest + [size, off, dest]
    requires EvmMemory.WriteRange(m.env.maxMemory, s.mem, dest, Window(m.job.code, off, size)) == Some(mem)
    ensures t == s.(pc := s.pc + 1, stack := rest, mem := mem) && m.At(t, c + 3)
  {
    hide Run, EvmMemory.WriteRange, Window;
    t := s.(pc := s.pc + 1, stack := rest, mem := mem);
    assert s.stack[..|s.stack| - 3] == rest;
    assert StepsTo(m, s, t, 3);
    Advance(m, s, c, t, 3);
  }

  /** MSTORE: on, when memory takes the word; otherwise the run raises. */
  lemma StepMstore(m: Sim, s: Frame, c: nat, rest: seq<nat>, off: nat, v: nat) returns (t: Frame)
    requires m.At(s, c) && m.Fetches(s, OP_MSTORE) && s.stack == rest + [v, off]
    ensures var r := EvmMemory.Store(m.env.maxMemory, s.mem, off, v);
      if r.Some? then t == s.(pc := s.pc + 1, stack := rest, mem := r.value) && m.At(t, c + 3)
      else forall gas: nat :: m.From(m.start, gas) == Raised(if gas < c + 3 then OutOfGas else Unexpected, m.w)
  {
    hide EvmMemory.Store;
    var r := EvmMemory.Store(m.env.maxMemory, s.mem, off, v);
    assert s.stack[..|s.stack| - 2] == rest;
    if r.Some? {
      t := s.(pc := s.pc + 1, stack := rest, mem := r.value);
      assert StepsTo(m, s, t, 3) by { hide Run; }
      Advance(m, s, c, t, 3);
    } else {
      t := s;
      forall gas: nat
        ensures m.From(s, gas) == Raised(if gas < 3 then OutOfGas else Unexpected, m.w)
      {
        assert Begin(m.env, m.job, s.(gas := gas), m.w) == Fail(if gas < 3 then OutOfGas else Unexpected);
      }
    }
  }

  /** ADDRESS, CALLER, CALLVALUE, CALLDATASIZE, CODESIZE and MSIZE, by their bytes. */
  lemma StepNullary(m: Sim, s: Frame, c: nat, b: Byte, v: nat) returns (t: Frame)
    requires m.At(s, c) && m.Fetches(s, b) && |s.stack| < MAX_STACK_DEPTH
    requires
      || (b == 0x30 && v == FromBE(m.job.ctx.address)) || (b == 0x33 && v == FromBE(m.job.ctx.caller))
      || (b == 0x34 && v == m.job.ctx.value) || (b == 0x36 && v == |m.job.ctx.data|)
      || (b == 0x38 && v == |m.job.code|) || (b == 0x59 && v == |s.mem|)
    ensures t == s.(pc := s.pc + 1, stack := s.stack + [v]) && m.At(t, c + 2)
  {
    hide Run, FromBE;
    t := s.(pc := s.pc + 1, stack := s.stack + [v]);
    assert StepsTo(m, s, t, 2);
    Advance(m, s, c, t, 2);
  }

  /** GAS pushes what is left after its own cost, so it is stated for one amount of gas at a time. */
  lemma StepGas(env: Env, job: Job, s: Frame, w: World)
    requires !s.stopped && s.pc < |job.code| && job.code[s.pc] == OP_GAS && |s.stack| < MAX_STACK_DEPTH && s.gas >= 2
    ensures Run(env, job, s, w) ==
      Run(env, job, s.(pc := s.pc + 1, stack := s.stack + [s.gas - 2], gas := s.gas - 2), w)
  {
    assert Begin(env, job, s, w) == Next(s.(pc := s.pc + 1, stack := s.stack + [s.gas - 2], gas := s.gas - 2), w);
  }

  lemma StepIszero(m: Sim, s: Frame, c: nat, rest: seq<nat>, x: nat) returns (t: Frame)
    requires m.At(s, c) && m.Fetches(s, OP_ISZERO) && s.stack == rest + [x] && |rest| < MAX_STACK_DEPTH
    ensures t == s.(pc := s.pc + 1, stack := rest + [if x == 0 then 1 else 0]) && m.At(t, c + 3)
  {
    hide Run;
    t := s.(pc := s.pc + 1, stack := rest + [if x == 0 then 1 else 0]);
    assert s.stack[..|s.stack| - 1] == rest;
    assert StepsTo(m, s, t, 3);
    Advance(m, s, c, t, 3);
  }

  /** NOT: the word whose bits are all the others. */
  lemma StepNot(m: Sim, s: Frame, c: nat, rest: seq<nat>, x: nat) returns (t: Frame)
    requires m.At(s, c) && m.Fetches(s, OP_NOT) && s.stack == rest + [x] && |rest| < MAX_STACK_DEPTH && IsWord(x)
    ensures t == s.(pc := s.pc + 1, stack := rest + [Complement(x)]) && m.At(t, c + 3)
  {
    hide Run;
    t := s.(pc := s.pc + 1, stack := rest + [Complement(x)]);
    assert s.stack[..|s.stack| - 1] == rest;
    assert StepsTo(m, s, t, 3);
    Advance(m, s, c, t, 3);
  }

  /** SWAPn exchanges the top with the value n places below it. */
  lemma StepSwap(m: Sim, s: Frame, c: nat, rest: seq<nat>, y: nat, between: seq<nat>, x: nat) returns (t: Frame)
    requires m.At(s, c) && |between| < 16 && m.Fetches(s, OP_SWAP1 + |between|)
    requires s.stack == rest + [y] + between + [x]
    ensures t == s.(pc := s.pc + 1, stack := rest + [x] + between + [y]) && m.At(t, c + 3)
  {
    hide Run;
    t := s.(pc := s.pc + 1, stack := rest + [x] + between + [y]);
    var top, low := |s.stack| - 1, |rest|;
    assert s.stack[low] == y && s.stack[top] == x;
    assert s.stack[top := y][low := x] == t.stack;
    assert StepsTo(m, s, t, 3);
    Advance(m, s, c, t, 3);
  }

  /** JUMP to a destination, or the error off one. */
  lemma StepJump(m: Sim, s: Frame, c: nat, rest: seq<nat>, dest: nat) returns (t: Frame)
    requires m.At(s, c) && m.Fetches(s, OP_JUMP) && s.stack == rest + [dest]
    ensures if dest in JumpDests(m.job.code) then t == s.(pc := dest, stack := rest) && m.At(t, c + 8)
      else forall gas: nat ::
        m.From(m.start, gas) == Raised(if gas < c + 8 then OutOfGas else InvalidJumpDestination, m.w)
  {
    hide JumpDests;
    assert s.stack[..|s.stack| - 1] == rest;
    t := s.(pc := dest, stack := rest);
    if dest in JumpDests(m.job.code) {
      assert StepsTo(m, s, t, 8) by { hide Run; }
      Advance(m, s, c, t, 8);
    } else {
      forall gas: nat
        ensures m.From(s, gas) == Raised(if gas < 8 then OutOfGas else InvalidJumpDestination, m.w)
      {
        assert Begin(m.env, m.job, s.(gas := gas), m.w) == Fail(if gas < 8 then OutOfGas else InvalidJumpDestination);
      }
    }
  }

  lemma StepMload(m: Sim, s: Frame, c: nat, rest: seq<nat>, off: nat, mem: ByteSeq, v: nat) returns (t: Frame)
    requires m.At(s, c) && m.Fetches(s, OP_MLOAD) && s.stack == rest + [off] && |rest| < MAX_STACK_DEPTH
    requires EvmMemory.Load(m.env.maxMemory, s.mem, off) == Some((mem, v))
    ensures t == s.(pc := s.pc + 1, stack := rest + [v], mem := mem) && m.At(t, c + 3)
  {
    hide Run, EvmMemory.Load;
    t := s.(pc := s.pc + 1, stack := rest + [v], mem := mem);
    assert s.stack[..|s.stack| - 1] == rest;
    assert StepsTo(m, s, t, 3);
    Advance(m, s, c, t, 3);
  }

  lemma StepMstore8(m: Sim, s: Frame, c: nat, rest: seq<nat>, off: nat, v: nat, mem: ByteSeq) returns (t: Frame)
    requires m.At(s, c) && m.Fetches(s, OP_MSTORE8) && s.stack == rest + [v, off]
    requires EvmMemory.WriteRange(m.env.maxMemory, s.mem, off, [v % 256]) == Some(mem)
    ensures t == s.(pc := s.pc + 1, stack := rest, mem := mem) && m.At(t, c + 3)
  {
    hide Run, EvmMemory.WriteRange;
    t := s.(pc := s.pc + 1, stack := rest, mem := mem);
    assert s.stack[..|s.stack| - 2] == rest;
    assert StepsTo(m, s, t, 3);
    Advance(m, s, c, t, 3);
  }

  lemma BeginSha3(env: Env, job: Job, f: Frame, w: World, rest: seq<nat>, off: nat, size: nat, mem: ByteSeq,
                  data: ByteSeq, v: nat)
    requires !f.stopped && f.pc < |job.code| && job.code[f.pc] == OP_SHA3
    requires f.stack == rest + [size, off] && |rest| < MAX_STACK_DEPTH
    requires EvmMemory.ReadRange(env.maxMemory, f.mem, off, size) == Some((mem, data)) && v == FromBE(env.keccak(data))
    ensures Begin(env, job, f, w) ==
      if f.gas < 30 then Fail(OutOfGas)
      else Next(f.(pc := f.pc + 1, stack := rest + [v], mem := mem, gas := f.gas - 30), w)
  {
    hide FromBE, EvmMemory.ReadRange;
    assert f.stack[..|f.stack| - 2] == rest;
  }

  /** SHA3 pushes the hash of `size` bytes of memory at `off`. */
  lemma StepSha3(m: Sim, s: Frame, c: nat, rest: seq<nat>, off: nat, size: nat, mem: ByteSeq, data: ByteSeq, v: nat)
    returns (t: Frame)
    requires m.At(s, c) && m.Fetches(s, OP_SHA3) && s.stack == rest + [size, off] && |rest| < MAX_STACK_DEPTH
    requires EvmMemory.ReadRange(m.env.maxMemory, s.mem, off, size) == Some((mem, data))
    requires v == FromBE(m.env.keccak(data))
    ensures t == s.(pc := s.pc + 1, stack := rest + [v], mem := mem) && m.At(t, c + 30)
  {
    hide Run, FromBE, EvmMemory.ReadRange;
    t := s.(pc := s.pc + 1, stack := rest + [v], mem := mem);
    assert s.stack[..|s.stack| - 2] == rest;
    hide Begin;
    forall gas: nat
      ensures Begin(m.env, m.job, s.(gas := gas), m.w) ==
        if gas < 30 then Fail(OutOfGas) else Next(t.(gas := gas - 30), m.w)
    {
      BeginSha3(m.env, m.job, s.(gas := gas), m.w, rest, off, size, mem, data, v);
    }
    Advance(m, s, c, t, 30);
  }

  lemma StepCallDataCopy(m: Sim, s: Frame, c: nat, rest: seq<nat>, dest: nat, off: nat, size: nat, mem: ByteSeq)
    returns (t: Frame)
    requires m.At(s, c) && m.Fetches(s, OP_CALLDATACOPY) && s.stack == rest + [size, off, dest]
    requires EvmMemory.WriteRange(m.env.maxMemory, s.mem, dest, Window(m.job.ctx.data, off, size)) == Some(mem)
    ensures t == s.(pc := s.pc + 1, stack := rest, mem := mem) && m.At(t, c + 3)
  {
    hide Run, EvmMemory.WriteRange, Window;
    t := s.(pc := s.pc + 1, stack := rest, mem := mem);
    assert s.stack[..|s.stack| - 3] == rest;
    assert StepsTo(m, s, t, 3);
    Advance(m, s, c, t, 3);
  }

  /** INVALID ends the frame as a failure and takes all its gas. */
  lemma StepInvalid(m: Sim, s: Frame, c: nat, gas: nat)
    requires m.At(s, c) && m.Fetches(s, OP_INVALID) && gas >= c
    ensures m.From(m.start, gas) == Done(s.(gas := 0, stopped := true, reverted := true), m.w)
  {
    assert Begin(m.env, m.job, s.(gas := gas - c), m.w) == Halt(s.(gas := 0, stopped := true, reverted := true));
  }

  /** A byte that is no opcode raises, whatever gas is left. */
  lemma StepUnknown(m: Sim, s: Frame, c: nat, gas: nat)
    requires m.At(s, c) && s.pc < |m.job.code| && GasCost(m.job.code[s.pc]).None? && gas >= c
    ensures m.From(m.start, gas) == Raised(InvalidOpcode, m.w)
  {
    assert Begin(m.env, m.job, s.(gas := gas - c), m.w) == Fail(InvalidOpcode);
  }

  /** Past the last byte of its code a frame is done. */
  lemma StepPastEnd(m: Sim, s: Frame, c: nat)
    requires m.At(s, c) && s.pc >= |m.job.code|
    ensures EndsIn(m, c, s)
  {}

  /** A frame whose last instruction is a CALL ends as that CALL leaves it. */
  lemma EndsWithCall(env: Env, job: Job, f: Frame, w: World)
    requires f.pc + 1 == |job.code| && job.code[f.pc] == OP_CALL && f.gas >= GAS_CALL_BASE && !f.stopped
    ensures var p := BeginCall(env, job, f.(gas := f.gas - GAS_CALL_BASE, pc := f.pc + 1), w);
      && (p.Fail? ==> Run(env, job, f, w) == Raised(p.e, w))
      && (p.Next? ==> Run(env, job, f, w) == Done(p.f, p.w))
      && (p.Spawn? ==> Run(env, job, f, w) == Resume(env, p.k, Run(env, p.child, p.init, p.w)))
  {
    hide BeginCall, Resume;
    var g := f.(gas := f.gas - GAS_CALL_BASE, pc := f.pc + 1);
    var p := BeginCall(env, job, g, w);
    assert Begin(env, job, f, w) == p;
    CallKeepsPc(env, job, g, w);
    if p.Spawn? { ResumeKeepsPc(env, p.k, Run(env, p.child, p.init, p.w)); }
  }

  /** A frame whose last instruction is a CREATE ends as that CREATE leaves it. */
  lemma EndsWithCreate(env: Env, job: Job, f: Frame, w: World)
    requires f.pc + 1 == |job.code| && job.code[f.pc] == OP_CREATE && f.gas >= GAS_CREATE && !f.stopped
    ensures var p := BeginCreate(env, job, f.(gas := f.gas - GAS_CREATE, pc := f.pc + 1), w);
      && (p.Fail? ==> Run(env, job, f, w) == Raised(p.e, w))
      && (p.Next? ==> Run(env, job, f, w) == Done(p.f, p.w))
      && (p.Spawn? ==> Run(env, job, f, w) == Resume(env, p.k, Run(env, p.child, p.init, p.w)))
  {
    hide BeginCreate, Resume;
    var g := f.(gas := f.gas - GAS_CREATE, pc := f.pc + 1);
    var p := BeginCreate(env, job, g, w);
    assert Begin(env, job, f, w) == p;
    CreateKeepsPc(env, job, g, w);
    if p.Spawn? { ResumeKeepsPc(env, p.k, Run(env, p.child, p.init, p.w)); }
  }
}
