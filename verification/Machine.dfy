/** The interpreter as the program runs it: an object per frame, sharing one world state. */
module Machine {
  import opened Bytes
  import opened Words
  import opened Environment
  import opened Opcodes
  import opened Accounts
  import opened Evm
  import opened EvmInvariants
  import opened EvmMemory
  import opened WorldStates

  /** A value, or a raised exception. */
  datatype Try<+T> = Good(value: T) | Threw(error: Error) {
    predicate IsFailure() { Threw? }
    function PropagateFailure<U>(): Try<U>
      requires Threw?
    {
      Threw(error)
    }
    function Extract(): T
      requires Good?
    {
      value
    }
  }

  type Status = Try<()>

  datatype ExecutionResult = ExecutionResult(success: bool, returnData: ByteSeq, gasUsed: nat, gasRemaining: nat)

  /** A handler's effect on the frame is the one given. */
  ghost predicate Matches(r: Status, f: Frame, l: Local) {
    match l
    case Ok(g) => r.Good? && f == g
    case Err(e) => r == Threw(e)
  }

  /** An opcode's effect on frame and world is the one given. */
  ghost predicate Realizes(r: Status, f: Frame, w: World, o: Outcome) {
    match o
    case Done(g, w1) => r.Good? && f == g && w == w1
    case Raised(e, w1) => r == Threw(e) && w == w1
  }

  /** The whole effect of an opcode, a spawned child included. */
  function Complete(env: Env, p: Plan, w: World): Outcome
    requires p.Spawn? ==> p.init.gas == p.k.ChildGas() <= p.k.f.gas
  {
    match p
    case Halt(g) => Done(g, w)
    case Fail(e) => Raised(e, w)
    case Next(g, w1) => Done(g, w1)
    case Spawn(child, init, w1, k) => Resume(env, k, Run(env, child, init, w1))
  }

  /** What `execute` returns or raises, for the outcome it stands for. */
  ghost predicate Reports(r: Try<ExecutionResult>, initialGas: nat, storage: map<nat, nat>, o: Outcome) {
    match o
    case Raised(e, _) => r == Threw(e)
    case Done(f, _) =>
      && f.gas <= initialGas && storage == f.storage
      && r == Good(ExecutionResult(!f.reverted, f.ret, initialGas - f.gas, f.gas))
  }

  /** Bytes of `src` from `off` on, zero-padded past its end. */
  method ReadPadded(src: ByteSeq, off: nat, n: nat) returns (data: ByteSeq)
    ensures data == Window(src, off, n)
  {
    data := Zeros(n);
    for i := 0 to n
      invariant |data| == n
      invariant forall j | 0 <= j < n :: data[j] == if j < i && off + j < |src| then src[off + j] else 0
    {
      if off + i < |src| { data := data[i := src[off + i]]; }
    }
  }

  class EVM {
    const env: Env
    const code: ByteSeq
    const context: Context
    const attached: bool
    const world: WorldState
    const memory: Memory
    const storage: Storage
    const validJumpdests: set<nat>
    var programCounter: nat
    var executionStack: seq<nat>
    var gasRemaining: nat
    var stopped: bool
    var reverted: bool
    var returnData: ByteSeq

    function AsJob(): Job {
      Job(code, context, attached)
    }

    function View(): Frame
      reads this, memory, storage
    {
      Frame(programCounter, executionStack, memory.data, storage.slots, gasRemaining, stopped, reverted, returnData)
    }

    /** What the constructor sets up and nothing changes. */
    ghost predicate Wired() {
      validJumpdests == JumpDests(code) && memory.limit == env.maxMemory
    }

    /** The frame's storage dictionary is none that the world state holds on to. */
    ghost predicate Isolated()
      reads world
    {
      storage !in world.dicts
    }

    /** The storage dictionary is the caller's object, not a copy. */
    constructor (env: Env, code: ByteSeq, context: Context, gas: nat, storage: Storage, attached: bool,
                 world: WorldState)
      ensures Wired() && fresh(memory) && this.storage == storage && View() == Fresh(gas, storage.slots)
      ensures this.env == env && this.world == world && AsJob() == Job(code, context, attached)
    {
      this.env, this.code, this.context, this.attached, this.world := env, code, context, attached, world;
      programCounter, executionStack, this.storage, gasRemaining := 0, [], storage, gas;
      stopped, reverted, returnData := false, false, [];
      memory := new Memory(env.maxMemory);
      var jumpdests := FindJumpdests(code);
      validJumpdests := jumpdests;
    }

    static method FindJumpdests(code: ByteSeq) returns (jumpdests: set<nat>)
      ensures jumpdests == JumpDests(code)
    {
      jumpdests := {};
      var pc := 0;
      while pc < |code|
        invariant jumpdests + ScanFrom(code, pc) == JumpDests(code)
        decreases |code| - pc
      {
        var opcode := code[pc];
        if opcode == OP_JUMPDEST { jumpdests := jumpdests + {pc}; }
        if IsPush(opcode) { pc := pc + (opcode - OP_PUSH1 + 1); }
        pc := pc + 1;
      }
    }

    method ConsumeGas(cost: nat) returns (r: Status)
      modifies this`gasRemaining
      ensures if cost > old(gasRemaining) then r == Threw(OutOfGas) && gasRemaining == old(gasRemaining)
              else r.Good? && gasRemaining == old(gasRemaining) - cost
    {
      if cost > gasRemaining { return Threw(OutOfGas); }
      gasRemaining := gasRemaining - cost;
      return Good(());
    }

    method StackPop() returns (r: Try<nat>)
      modifies this`executionStack
      ensures var s := old(executionStack);
        if |s| == 0 then r == Threw(StackUnderflow) && executionStack == s
        else r == Good(s[|s| - 1]) && executionStack == s[..|s| - 1]
    {
      if |executionStack| == 0 { return Threw(StackUnderflow); }
      r := Good(executionStack[|executionStack| - 1]);
      executionStack := executionStack[..|executionStack| - 1];
    }

    method StackPush(value: nat) returns (r: Status)
      modifies this`executionStack
      ensures var s := old(executionStack);
        if |s| >= MAX_STACK_DEPTH then r == Threw(StackOverflow) && executionStack == s
        else r.Good? && executionStack == s + [value]
    {
      if |executionStack| >= MAX_STACK_DEPTH { return Threw(StackOverflow); }
      executionStack := executionStack + [value];
      return Good(());
    }

    // ----- handlers that stay inside the frame -----

    method OpPush(n: nat) returns (r: Status)
      modifies this
      ensures Matches(r, View(), DoPush(AsJob(), old(View()), n))
    {
      hide FromBE;
      var bytes := ReadPadded(code, programCounter, n);
      var _ :- StackPush(FromBE(bytes));
      programCounter := programCounter + n;
      return Good(());
    }

    method OpDup(depth: nat) returns (r: Status)
      modifies this
      ensures Matches(r, View(), DoDup(old(View()), depth))
    {
      var index := |executionStack| - 1 - depth;
      if index < 0 { return Threw(StackUnderflow); }
      r := StackPush(executionStack[index]);
    }

    method OpSwap(depth: nat) returns (r: Status)
      modifies this
      ensures Matches(r, View(), DoSwap(old(View()), depth))
    {
      var top := |executionStack| - 1;
      var index := top - depth;
      if index < 0 { return Threw(StackUnderflow); }
      executionStack := executionStack[top := executionStack[index]][index := executionStack[top]];
      return Good(());
    }

    /** The eleven handlers that pop two operands and push their combination. */
    method OpBinary(b: Byte) returns (r: Status)
      requires IsBinary(b)
      modifies this
      ensures Matches(r, View(), DoBinary(b, old(View())))
    {
      hide Plus, Minus, Product, Power, Quotient, Remainder, BitAnd, BitOr;
      var x :- StackPop();
      var y :- StackPop();
      var value: nat;
      if b == OP_ADD { value := Plus(x, y); }
      else if b == OP_MUL { value := Product(x, y); }
      else if b == OP_SUB { value := Minus(x, y); }
      else if b == OP_DIV { value := Quotient(x, y); }
      else if b == OP_MOD { value := Remainder(x, y); }
      else if b == OP_EXP { value := Power(x, y); }
      else if b == OP_LT { value := if x < y then 1 else 0; }
      else if b == OP_GT { value := if x > y then 1 else 0; }
      else if b == OP_EQ { value := if x == y then 1 else 0; }
      else if b == OP_AND { value := BitAnd(x, y); }
      else { value := BitOr(x, y); }
      assert value == BinaryValue(b, x, y);
      hide BinaryValue, IsBinary;
      assert View() == Drop(old(View()), 2) && x == Operand(old(View()), 0) && y == Operand(old(View()), 1);
      r := StackPush(value);
    }

    method OpIsZeroOrNot(b: Byte) returns (r: Status)
      modifies this
      ensures Matches(r, View(), DoUnary(b, old(View())))
    {
      var x :- StackPop();
      if b == OP_ISZERO {
        r := StackPush(if x == 0 then 1 else 0);
      } else if x < MOD {
        r := StackPush(MOD - 1 - x);
      } else {
        r := Threw(Unexpected);
      }
    }

    /** ADDRESS, CALLER, CALLVALUE, CALLDATASIZE, CODESIZE, MSIZE, GAS */
    method OpNullary(b: Byte) returns (r: Status)
      requires IsNullary(b)
      modifies this
      ensures Matches(r, View(), Push(old(View()), NullaryValue(AsJob(), b, old(View()))))
    {
      hide FromBE;
      var value: nat;
      if b == OP_ADDRESS { value := FromBE(context.address); }
      else if b == OP_CALLER { value := FromBE(context.caller); }
      else if b == OP_CALLVALUE { value := context.value; }
      else if b == OP_CALLDATASIZE { value := |context.data|; }
      else if b == OP_CODESIZE { value := |code|; }
      else if b == OP_MSIZE { value := memory.Size(); }
      else { value := gasRemaining; }
      r := StackPush(value);
    }

    method OpSha3() returns (r: Status)
      requires Wired()
      modifies this, memory
      ensures Matches(r, View(), DoSha3(env, old(View())))
    {
      hide FromBE, ReadRange;
      var offset :- StackPop();
      var size :- StackPop();
      var data := memory.ReadBytes(offset, size);
      if data.None? { return Threw(Unexpected); }
      r := StackPush(FromBE(env.keccak(data.value)));
    }

    method OpCallDataLoad() returns (r: Status)
      modifies this
      ensures Matches(r, View(), DoCallDataLoad(AsJob(), old(View())))
    {
      hide FromBE, Window;
      var offset :- StackPop();
      var word := ReadPadded(context.data, offset, 32);
      r := StackPush(FromBE(word));
    }

    /** CALLDATACOPY and CODECOPY */
    method OpCopy(src: ByteSeq) returns (r: Status)
      requires Wired()
      modifies this, memory
      ensures Matches(r, View(), DoCopy(env, src, old(View())))
    {
      hide Window, Expand, Overwrite;
      var destOffset :- StackPop();
      var offset :- StackPop();
      var size :- StackPop();
      if size == 0 { return Good(()); }
      var data := ReadPadded(src, offset, size);
      var ok := memory.WriteBytes(destOffset, data);
      return if ok then Good(()) else Threw(Unexpected);
    }

    method OpPop() returns (r: Status)
      modifies this
      ensures Matches(r, View(), DoPop(old(View())))
    {
      var _ :- StackPop();
      return Good(());
    }

    method OpMload() returns (r: Status)
      requires Wired()
      modifies this, memory
      ensures Matches(r, View(), DoMload(env, old(View())))
    {
      hide Load;
      var offset :- StackPop();
      var value := memory.LoadWord(offset);
      if value.None? { return Threw(Unexpected); }
      r := StackPush(value.value);
    }

    /** MSTORE and MSTORE8 */
    method OpMstore(b: Byte) returns (r: Status)
      requires Wired()
      modifies this, memory
      ensures Matches(r, View(), DoMstore(env, b, old(View())))
    {
      hide Store, Store8;
      var offset :- StackPop();
      var value :- StackPop();
      var ok;
      if b == OP_MSTORE { ok := memory.StoreWord(offset, value); } else { ok := memory.StoreByte(offset, value); }
      return if ok then Good(()) else Threw(Unexpected);
    }

    method OpSload() returns (r: Status)
      modifies this
      ensures Matches(r, View(), DoSload(old(View())))
    {
      var key :- StackPop();
      r := StackPush(if key in storage.slots then storage.slots[key] else 0);
    }

    method OpSstore() returns (r: Status)
      modifies this, storage
      ensures Matches(r, View(), DoSstore(old(View())))
    {
      var key :- StackPop();
      var value :- StackPop();
      storage.Put(key, value);
      return Good(());
    }

    method OpJump() returns (r: Status)
      requires Wired()
      modifies this
      ensures Matches(r, View(), DoJump(AsJob(), old(View())))
    {
      hide JumpDests;
      var destination :- StackPop();
      if destination !in validJumpdests { return Threw(InvalidJumpDestination); }
      programCounter := destination;
      return Good(());
    }

    method OpJumpi() returns (r: Status)
      requires Wired()
      modifies this
      ensures Matches(r, View(), DoJumpi(AsJob(), old(View())))
    {
      hide JumpDests;
      var destination :- StackPop();
      var condition :- StackPop();
      if condition != 0 {
        if destination !in validJumpdests { return Threw(InvalidJumpDestination); }
        programCounter := destination;
      }
      return Good(());
    }

    method OpReturn(reverts: bool) returns (r: Status)
      requires Wired()
      modifies this, memory
      ensures Matches(r, View(), DoReturn(env, old(View()), reverts))
    {
      hide ReadRange;
      var offset :- StackPop();
      var size :- StackPop();
      var data := memory.ReadBytes(offset, size);
      if data.None? { return Threw(Unexpected); }
      returnData := data.value;
      stopped := true;
      if reverts { reverted := true; }
      return Good(());
    }

    method DispatchLocal(b: Byte) returns (r: Status)
      requires Wired() && GasCost(b).Some? && b != OP_CALL && b != OP_CREATE && b != OP_INVALID
      modifies this, memory, storage
      ensures Matches(r, View(), Exec(env, AsJob(), b, old(View())))
    {
      hide Matches, Wired, DoPush, DoDup, DoSwap, DoBinary, DoUnary, DoSha3, DoCallDataLoad, DoCopy, DoPop, DoMload,
        DoMstore, DoSload, DoSstore, DoJump, DoJumpi, DoReturn, NullaryValue, Push;
      if IsPush(b) { r := OpPush(b - OP_PUSH1 + 1); }
      else if IsDup(b) { r := OpDup(b - OP_DUP1); }
      else if IsSwap(b) { r := OpSwap(b - OP_SWAP1 + 1); }
      else if IsBinary(b) { r := OpBinary(b); }
      else if IsNullary(b) { r := OpNullary(b); }
      else if b == OP_STOP { r := OpStop(); }
      else if b == OP_ISZERO || b == OP_NOT { r := OpIsZeroOrNot(b); }
      else if b == OP_SHA3 { r := OpSha3(); }
      else if b == OP_CALLDATALOAD { r := OpCallDataLoad(); }
      else if b == OP_CALLDATACOPY { r := OpCopy(context.data); }
      else if b == OP_CODECOPY { r := OpCopy(code); }
      else if b == OP_POP { r := OpPop(); }
      else if b == OP_MLOAD { r := OpMload(); }
      else if b == OP_MSTORE || b == OP_MSTORE8 { r := OpMstore(b); }
      else if b == OP_SLOAD { r := OpSload(); }
      else if b == OP_SSTORE { r := OpSstore(); }
      else if b == OP_JUMP { r := OpJump(); }
      else if b == OP_JUMPI { r := OpJumpi(); }
      else if b == OP_JUMPDEST { r := OpJumpDest(); }
      else { r := OpReturn(b == OP_REVERT); }
    }

    method OpStop() returns (r: Status)
      modifies this
      ensures Matches(r, View(), Ok(old(View()).(stopped := true)))
    {
      stopped := true;
      return Good(());
    }

    method OpJumpDest() returns (r: Status)
      ensures Matches(r, View(), Ok(View()))
    {
      return Good(());
    }

    // ----- CALL and CREATE -----

    /** Pops k operands, topmost first. */
    method PopOperands(k: nat) returns (r: Try<seq<nat>>)
      modifies this`executionStack
      ensures var f := old(View());
        if |f.stack| < k then r == Threw(StackUnderflow)
        else
          && View() == Drop(f, k)
          && r.Good? && |r.value| == k && forall i | 0 <= i < k :: r.value[i] == Operand(f, i)
    {
      var operands: seq<nat> := [];
      ghost var s := executionStack;
      for n := 0 to k
        invariant n <= |s| && |operands| == n
        invariant executionStack == s[..|s| - n]
        invariant forall i | 0 <= i < n :: operands[i] == s[|s| - 1 - i]
      {
        var x :- StackPop();
        operands := operands + [x];
      }
      return Good(operands);
    }

    /** The caller's side of a finished call. */
    method FinishCall(target: ByteSeq, forwarded: nat, retOffset: nat, retLength: nat,
                      result: Try<ExecutionResult>, childStorage: map<nat, nat>, ghost o: Outcome)
      returns (r: Status)
      requires Wired() && world.Valid() && |executionStack| < MAX_STACK_DEPTH && forwarded <= gasRemaining
      requires Reports(result, forwarded, childStorage, o) && world.contents == o.w
      modifies this, memory, world
      ensures world.Valid() && fresh(world.dicts - old(world.dicts))
      ensures Realizes(r, View(), world.contents,
                Resume(env, AfterCall(old(View()), target, forwarded, retOffset, retLength), o))
    {
      hide FromBE, WriteRange, Persist, SetCode, Wired, WorldState.Valid, Represents;
      assert memory.limit == env.maxMemory by { WiredMemory(); }
      if result.Threw? {
        if result.error != OutOfGas { return Threw(result.error); }
        gasRemaining := gasRemaining - forwarded;
        r := StackPush(0);
      } else if result.value.success {
        world.PersistStorage(target, childStorage);
        if retLength > 0 && result.value.returnData != [] {
          var ret := result.value.returnData;
          var writeData := if retLength <= |ret| then ret[..retLength] else ret;
          if |writeData| < retLength { writeData := writeData + Zeros(retLength - |writeData|); }
          var ok := memory.WriteBytes(retOffset, writeData);
          if !ok { return Threw(Unexpected); }
        } else {
          WriteNothing(env.maxMemory, memory.data, retOffset);
        }
        gasRemaining := gasRemaining - result.value.gasUsed;
        r := StackPush(1);
      } else {
        gasRemaining := gasRemaining - forwarded;
        r := StackPush(0);
      }
    }

    lemma WiredMemory()
      requires Wired()
      ensures memory.limit == env.maxMemory
    {}

    /** A frame of its own on the shared state, run to its end; it alone writes to the given storage. */
    method RunChild(code: ByteSeq, context: Context, gas: nat, storage: Storage) returns (r: Try<ExecutionResult>)
      requires world.Valid() && storage !in world.dicts
      modifies world, storage
      ensures world.Valid() && fresh(world.dicts - old(world.dicts))
      ensures var o := Run(env, Job(code, context, true), Fresh(gas, old(storage.slots)), old(world.contents));
        Reports(r, gas, storage.slots, o) && world.contents == o.w
      decreases gas, 3
    {
      hide Run, Reports, WorldState.Valid, Represents, JumpDests, Wired;
      var child := new EVM(env, code, context, gas, storage, true, world);
      r := child.Execute();
    }

    /** The callee runs on a copy of its storage dictionary. */
    method RunCallee(code: ByteSeq, childContext: Context, forwarded: nat, stored: Storage, retOffset: nat,
                     retLength: nat)
      returns (r: Status)
      requires Wired() && world.Valid() && Isolated() && |executionStack| < MAX_STACK_DEPTH && forwarded <= gasRemaining
      modifies this, memory, world
      ensures world.Valid() && fresh(world.dicts - old(world.dicts))
      ensures Realizes(r, View(), world.contents,
                Resume(env, AfterCall(old(View()), childContext.address, forwarded, retOffset, retLength),
                       Run(env, Job(code, childContext, true), Fresh(forwarded, old(stored.slots)),
                           old(world.contents))))
      decreases forwarded, 4
    {
      hide Run, Resume, Realizes, Reports, Wired, WorldState.Valid, Represents;
      var targetStorage := new Storage(stored.slots);
      ghost var o := Run(env, Job(code, childContext, true), Fresh(forwarded, stored.slots), world.contents);
      var result := RunChild(code, childContext, forwarded, targetStorage);
      r := FinishCall(childContext.address, forwarded, retOffset, retLength, result, targetStorage.slots, o);
    }

    method OpCall() returns (r: Status)
      requires Wired() && world.Valid() && Isolated() && |executionStack| <= MAX_STACK_DEPTH
      modifies this, memory, world
      ensures world.Valid() && fresh(world.dicts - old(world.dicts))
      ensures Realizes(r, View(), world.contents,
                Complete(env, BeginCall(env, AsJob(), old(View()), old(world.contents)), old(world.contents)))
      decreases gasRemaining + GAS_CALL_BASE, 0
    {
      hide FromBE, WordBytes, ReadRange, Transfer, Run, Resume, Wired, Reports, WorldState.Valid, Represents, JumpDests;
      WiredMemory();
      ghost var f, w := View(), world.contents;
      var operands :- PopOperands(7);
      assert View() == Drop(f, 7);
      var gas, addrInt, value := operands[0], operands[1], operands[2];
      var argsOffset, argsLength, retOffset, retLength := operands[3], operands[4], operands[5], operands[6];
      if !attached {
        r := StackPush(0);
        return;
      }
      if addrInt >= MOD { return Threw(Unexpected); }
      var targetAddress := WordBytes(addrInt)[12..];
      var forwardedGas := if gas < gasRemaining then gas else gasRemaining;
      var input := memory.ReadBytes(argsOffset, argsLength);
      if input.None? { return Threw(Unexpected); }
      var targetAccount := world.GetAccount(targetAddress);
      ghost var callee := targetAccount.Value();
      var paid := world.TransferValue(context.address, targetAddress, value);
      if !paid {
        r := StackPush(0);
        return;
      }
      assert targetAccount.Value() == callee;
      if targetAccount.code == [] {
        r := StackPush(1);
        return;
      }
      ghost var k := AfterCall(View(), targetAddress, forwardedGas, retOffset, retLength);
      var childContext := Context(context.address, targetAddress, value, input.value);
      assert BeginCall(env, AsJob(), f, w) ==
        Spawn(Job(callee.code, childContext, true), Fresh(forwardedGas, callee.storage), world.contents, k);
      r := RunCallee(targetAccount.code, childContext, forwardedGas, targetAccount.storage, retOffset, retLength);
    }

    /** The creator's side of a finished creation. */
    method FinishCreate(address: Address, result: Try<ExecutionResult>, childStorage: map<nat, nat>, ghost o: Outcome)
      returns (r: Status)
      requires world.Valid() && |executionStack| < MAX_STACK_DEPTH
      requires Reports(result, gasRemaining, childStorage, o) && world.contents == o.w
      modifies this, world
      ensures world.Valid() && fresh(world.dicts - old(world.dicts))
      ensures Realizes(r, View(), world.contents, Resume(env, AfterCreate(old(View()), address), o))
    {
      hide FromBE, Persist, SetCode, WorldState.Valid, Represents;
      if result.Threw? {
        if result.error != OutOfGas { return Threw(result.error); }
        r := StackPush(0);
      } else if result.value.success {
        world.StoreCode(address, result.value.returnData);
        world.PersistStorage(address, childStorage);
        gasRemaining := gasRemaining - result.value.gasUsed;
        r := StackPush(FromBE(address));
      } else {
        gasRemaining := gasRemaining - result.value.gasUsed;
        r := StackPush(0);
      }
    }

    /** The init code runs on an empty storage dictionary of its own. */
    method RunInitCode(code: ByteSeq, childContext: Context) returns (r: Status)
      requires world.Valid() && Isolated() && |executionStack| < MAX_STACK_DEPTH && |childContext.address| == 20
      modifies this, world
      ensures world.Valid() && fresh(world.dicts - old(world.dicts))
      ensures Realizes(r, View(), world.contents,
                Resume(env, AfterCreate(old(View()), childContext.address),
                       Run(env, Job(code, childContext, true), Fresh(old(gasRemaining), map[]), old(world.contents))))
      decreases gasRemaining, 4
    {
      hide Run, Resume, Realizes, Reports, WorldState.Valid, Represents;
      var newStorage := new Storage(map[]);
      ghost var o := Run(env, Job(code, childContext, true), Fresh(gasRemaining, map[]), world.contents);
      var result := RunChild(code, childContext, gasRemaining, newStorage);
      r := FinishCreate(childContext.address, result, newStorage.slots, o);
    }

    method OpCreate() returns (r: Status)
      requires Wired() && world.Valid() && Isolated() && |executionStack| <= MAX_STACK_DEPTH
      modifies this, memory, world
      ensures world.Valid() && fresh(world.dicts - old(world.dicts))
      ensures Realizes(r, View(), world.contents,
                Complete(env, BeginCreate(env, AsJob(), old(View()), old(world.contents)), old(world.contents)))
      decreases gasRemaining + GAS_CREATE, 0
    {
      hide FromBE, ReadRange, Transfer, ContractAddress, AddBalance, IncrementNonce, Run, Resume, Wired, Reports,
        WorldState.Valid, Represents, JumpDests;
      WiredMemory();
      ghost var f, w := View(), world.contents;
      var operands :- PopOperands(3);
      var value, offset, size := operands[0], operands[1], operands[2];
      if !attached {
        r := StackPush(0);
        return;
      }
      var initCode := memory.ReadBytes(offset, size);
      if initCode.None? { return Threw(Unexpected); }
      var creatorAccount := world.GetAccount(context.address);
      var contractAddress := ContractAddress(env, context.address, creatorAccount.Value().nonce);
      if contractAddress.None? { return Threw(Unexpected); }
      world.IncrementNonceOf(context.address);
      world.AddTo(contractAddress.value, 0);
      var paid := world.TransferValue(context.address, contractAddress.value, value);
      if !paid {
        r := StackPush(0);
        return;
      }
      var childContext := Context(context.address, contractAddress.value, value, []);
      assert BeginCreate(env, AsJob(), f, w) ==
        Spawn(Job(initCode.value, childContext, true), Fresh(gasRemaining, map[]), world.contents,
              AfterCreate(View(), contractAddress.value));
      r := RunInitCode(initCode.value, childContext);
    }

    // ----- the loop -----

    /** Fetch, charge and dispatch one opcode. */
    method Step() returns (r: Status)
      requires Wired() && world.Valid() && Isolated() && |executionStack| <= MAX_STACK_DEPTH
      requires !stopped && programCounter < |code|
      modifies this, memory, storage, world
      ensures world.Valid() && fresh(world.dicts - old(world.dicts))
      ensures Realizes(r, View(), world.contents,
                Complete(env, Begin(env, AsJob(), old(View()), old(world.contents)), old(world.contents)))
      ensures r.Good? ==> gasRemaining < old(gasRemaining) || stopped
      decreases gasRemaining, 1
    {
      hide BeginCall, BeginCreate, Exec, Resume, Run, Wired, WorldState.Valid, Represents;
      var opcode := code[programCounter];
      var gasCost := GasCost(opcode);
      if gasCost.None? { return Threw(InvalidOpcode); }
      if opcode == OP_INVALID {
        gasRemaining := 0;
        stopped := true;
        reverted := true;
        return Good(());
      }
      var _ :- ConsumeGas(gasCost.value);
      programCounter := programCounter + 1;
      if opcode == OP_CALL { r := OpCall(); }
      else if opcode == OP_CREATE { r := OpCreate(); }
      else { r := DispatchLocal(opcode); }
    }

    /** Runs the frame to its end; the result, the frame and the world are those of `Run`. */
    method Execute() returns (r: Try<ExecutionResult>)
      requires Wired() && world.Valid() && Isolated() && |executionStack| <= MAX_STACK_DEPTH
      modifies this, memory, storage, world
      ensures world.Valid() && fresh(world.dicts - old(world.dicts))
      ensures var o := Run(env, AsJob(), old(View()), old(world.contents));
        && Reports(r, old(gasRemaining), storage.slots, o) && world.contents == o.w
        && (o.Done? ==> View() == o.f)
      decreases gasRemaining, 2
    {
      hide Begin, Resume, Wired, WorldState.Valid, Represents;
      var initialGas := gasRemaining;
      while !stopped && programCounter < |code|
        invariant Wired() && world.Valid() && |executionStack| <= MAX_STACK_DEPTH
        invariant fresh(world.dicts - old(world.dicts))
        invariant gasRemaining <= initialGas
        invariant Run(env, AsJob(), View(), world.contents) == Run(env, AsJob(), old(View()), old(world.contents))
        decreases gasRemaining, !stopped
      {
        ghost var f, w := View(), world.contents;
        var status := Step();
        StepKeepsDepth(env, AsJob(), f, w);
        RunTakesStep(env, AsJob(), f, w);
        if status.Threw? {
          if status.error == OutOfGas {
            reverted := true;
            gasRemaining := 0;
          }
          return Threw(status.error);
        }
      }
      HaltedRun(env, AsJob(), View(), world.contents);
      return Good(ExecutionResult(!reverted, returnData, initialGas - gasRemaining, gasRemaining));
    }
  }

  lemma WriteNothing(limit: nat, data: ByteSeq, off: nat)
    ensures WriteRange(limit, data, off, []) == Some(data)
  {}

  lemma StepKeepsDepth(env: Env, job: Job, f: Frame, w: World)
    requires |f.stack| <= MAX_STACK_DEPTH
    ensures var o := Complete(env, Begin(env, job, f, w), w); o.Done? ==> |o.f.stack| <= MAX_STACK_DEPTH
  {
    hide Begin, Resume, Run;
    BeginKeepsDepth(env, job, f, w);
    var p := Begin(env, job, f, w);
    if p.Spawn? { ResumeKeepsDepth(env, p.k, Run(env, p.child, p.init, p.w)); }
  }

  /** A run is one opcode and the run from there, or the error the opcode raised. */
  lemma RunTakesStep(env: Env, job: Job, f: Frame, w: World)
    ensures var o := Complete(env, Begin(env, job, f, w), w);
      Run(env, job, f, w) == if o.Raised? then o else Run(env, job, o.f, o.w)
  {
    HaltsStopped(env, job, f, w);
  }

  lemma HaltsStopped(env: Env, job: Job, f: Frame, w: World)
    ensures var p := Begin(env, job, f, w); p.Halt? ==> Run(env, job, p.f, w) == Done(p.f, w)
  {}

  lemma HaltedRun(env: Env, job: Job, f: Frame, w: World)
    requires f.stopped || f.pc >= |job.code|
    ensures Run(env, job, f, w) == Done(f, w)
  {}
}
