/** The token's bytecode run instruction by instruction: it implements an abstract transfer and keeps the supply. */
module Token {
  import opened Bytes
  import opened Words
  import opened Environment
  import opened Opcodes
  import opened Evm
  import opened Abi
  import opened Stepping
  import opened TokenCode
  import opened MapSum
  import opened WorldInvariants
  import EvmMemory

  // ----- the abstract token -----

  /** Balances after `from` sends `amount` to `to`, modulo 2^256; correct also when from == to. */
  function TransferTokens(s: map<nat, nat>, from: nat, to: nat, amount: nat): map<nat, nat> {
    var debited := s[from := (Slot(s, from) - amount) % MOD];
    debited[to := (Slot(debited, to) + amount) % MOD]
  }

  ghost function Supply(s: map<nat, nat>): nat {
    Sum(s)
  }

  /** Within a supply below 2^256 nothing wraps: a transfer moves `amount` and touches no third balance. */
  lemma TransferTokensMeaning(s: map<nat, nat>, from: nat, to: nat, amount: nat, who: nat)
    requires Supply(s) < MOD && amount <= Slot(s, from)
    ensures Slot(TransferTokens(s, from, to, amount), who) ==
      if from == to then Slot(s, who)
      else if who == from then Slot(s, who) - amount
      else if who == to then Slot(s, who) + amount
      else Slot(s, who)
  {
    hide Sum;
    SumBounds(s, from);
    SmallMod(Slot(s, from) - amount);
    if from == to {
      SmallMod(Slot(s, from));
    } else {
      SumBoundsTwo(s, from, to);
      SmallMod(Slot(s, to) + amount);
    }
  }

  lemma TransferKeepsSupply(s: map<nat, nat>, from: nat, to: nat, amount: nat)
    requires Supply(s) < MOD && amount <= Slot(s, from)
    ensures Supply(TransferTokens(s, from, to, amount)) == Supply(s)
  {
    hide Sum;
    SumBounds(s, from);
    var left := Slot(s, from) - amount;
    SmallMod(left);
    var debited := s[from := left];
    SumUpdate(s, from, left);
    SumBounds(debited, to);
    SmallMod(Slot(debited, to) + amount);
    SumUpdate(debited, to, Slot(debited, to) + amount);
  }

  lemma SmallMod(x: nat)
    requires x < MOD
    ensures x % MOD == x
  {}

  // ----- stretches of the bytecode -----

  ghost predicate TokenSim(m: Sim) {
    IsToken(m.job.code) && m.start == Fresh(0, m.start.storage)
  }

  function Selector(m: Sim): nat {
    SelectorOf(m.job.ctx.data)
  }

  /** From the first byte to the selector on the stack. */
  lemma ToSelector(m: Sim) returns (t: Frame)
    requires TokenSim(m)
    ensures t == m.start.(pc := 37, stack := [Selector(m)]) && m.At(t, 14)
  {
    hide FromBE, SelectorShift, IsToken, Sim.At;
    var c := m.job.code;
    PushShiftBytes(c);
    LoadSelectorBytes(c);
    AtStart(m);
    t := StepPush(m, m.start, 0, 32, SelectorShift());
    t := StepPush1(m, t, 3, 0);
    t := StepCallDataLoad(m, t, 6, [SelectorShift()], 0, CallWord(m.job.ctx.data, 0));
    t := StepBinary(m, t, 9, OP_DIV, [], CallWord(m.job.ctx.data, 0), SelectorShift(), Selector(m));
  }

  /** One arm of the dispatcher: compare the selector and jump. */
  lemma TryArm(m: Sim, s: Frame, c: nat, selector: nat, dest: Byte) returns (t: Frame)
    requires TokenSim(m) && m.At(s, c) && |s.stack| == 1 && s.pc + 10 <= |m.job.code|
    requires m.Fetches(s, OP_DUP1) && m.job.code[s.pc + 1] == OP_PUSH1 + 3
    requires FromBE(Window(m.job.code, s.pc + 2, 4)) == selector
    requires m.job.code[s.pc + 6] == OP_EQ && m.job.code[s.pc + 7] == OP_PUSH1 && m.job.code[s.pc + 8] == dest
    requires m.job.code[s.pc + 9] == OP_JUMPI && dest in JumpDests(m.job.code)
    ensures t == s.(pc := if s.stack[0] == selector then dest else s.pc + 10) && m.At(t, c + 22)
  {
    hide FromBE, JumpDests, IsToken, Sim.At, Window;
    var sel := s.stack[0];
    t := StepDup(m, s, c, 0, sel);
    t := StepPush(m, t, c + 3, 4, selector);
    var equal := BinaryValue(OP_EQ, selector, sel);
    t := StepBinary(m, t, c + 6, OP_EQ, [sel], selector, sel, equal);
    t := StepPush1(m, t, c + 9, dest);
    t := StepJumpi(m, t, c + 12, [sel], dest, equal);
    assert t.stack == s.stack;
  }

  /** Two zero pushes and REVERT. */
  lemma RevertEmpty(m: Sim, s: Frame, c: nat) returns (t: Frame)
    requires TokenSim(m) && m.At(s, c) && |s.stack| < 1000 && !s.reverted && s.pc + 5 <= |m.job.code|
    requires m.Fetches(s, OP_PUSH1) && m.job.code[s.pc + 1] == 0
    requires m.job.code[s.pc + 2] == OP_PUSH1 && m.job.code[s.pc + 3] == 0 && m.job.code[s.pc + 4] == OP_REVERT
    ensures t == s.(pc := s.pc + 5, ret := [], stopped := true, reverted := true) && EndsIn(m, c + 6, t)
  {
    hide IsToken, Sim.At, EndsIn;
    t := StepPush1(m, s, c, 0);
    t := StepPush1(m, t, c + 3, 0);
    t := StepReturn(m, t, c + 6, s.stack, 0, 0, s.mem, [], true);
  }

  function CallerWord(m: Sim): nat { FromBE(m.job.ctx.caller) }
  function ToWord(m: Sim): nat { CallWord(m.job.ctx.data, 4) }
  function AmountWord(m: Sim): nat { CallWord(m.job.ctx.data, 36) }

  function Arguments(m: Sim): seq<nat> {
    [ToWord(m), AmountWord(m), CallerWord(m), Slot(m.start.storage, CallerWord(m))]
  }

  /** The transfer handler up to its four operands. */
  lemma LoadArguments(m: Sim, s: Frame, c: nat) returns (t: Frame)
    requires TokenSim(m) && m.At(s, c) && s.pc == 63 && |s.stack| == 1 && s.storage == m.start.storage
    ensures t == s.(pc := 74, stack := Arguments(m)) && m.At(t, c + 120)
  {
    hide FromBE, IsToken, Sim.At, Window;
    LoadArgumentsBytes(m.job.code);
    var to, amount, from := ToWord(m), AmountWord(m), CallerWord(m);
    t := StepJumpDest(m, s, c);
    t := StepPop(m, t, c + 1, [], s.stack[0]);
    t := StepPush1(m, t, c + 3, 4);
    t := StepCallDataLoad(m, t, c + 6, [], 4, to);
    t := StepPush1(m, t, c + 9, 0x24);
    t := StepCallDataLoad(m, t, c + 12, [to], 36, amount);
    t := StepCaller(m, t, c + 15);
    t := StepDup(m, t, c + 17, 0, from);
    t := StepSload(m, t, c + 20, [to, amount, from], from);
  }

  /** The balance check: to the refusal when the caller has less than the amount. */
  lemma CheckBalance(m: Sim, s: Frame, c: nat, to: nat, amount: nat, from: nat, balance: nat) returns (t: Frame)
    requires TokenSim(m) && m.At(s, c) && s.pc == 74 && s.stack == [to, amount, from, balance]
    ensures t == s.(pc := if balance < amount then 92 else 80) && m.At(t, c + 22)
  {
    hide FromBE, IsToken, JumpDests, Sim.At;
    CheckBalanceBytes(m.job.code);
    HandlersAreJumpDests(m.job.code);
    t := StepDup(m, s, c, 2, amount);
    t := StepDup(m, t, c + 3, 1, balance);
    var less := BinaryValue(OP_LT, balance, amount);
    t := StepBinary(m, t, c + 6, OP_LT, [to, amount, from, balance], balance, amount, less);
    t := StepPush1(m, t, c + 9, 0x5C);
    t := StepJumpi(m, t, c + 12, [to, amount, from, balance], 0x5C, less);
  }

  lemma Debit(m: Sim, s: Frame, c: nat, to: nat, amount: nat, from: nat, balance: nat) returns (t: Frame)
    requires TokenSim(m) && m.At(s, c) && s.pc == 80 && s.stack == [to, amount, from, balance]
    ensures t == s.(pc := 85, stack := [to, amount], storage := s.storage[from := (balance - amount) % MOD])
        && m.At(t, c + 5012)
  {
    hide IsToken, Sim.At, EndsIn;
    DebitBytes(m.job.code);
    var left := BinaryValue(OP_SUB, balance, amount);
    t := StepDup(m, s, c, 2, amount);
    t := StepSwap1(m, t, c + 3, [to, amount, from], amount, balance);
    t := StepBinary(m, t, c + 6, OP_SUB, [to, amount, from], balance, amount, left);
    t := StepSwap1(m, t, c + 9, [to, amount], left, from);
    t := StepSstore(m, t, c + 12, [to, amount], from, left);
  }

  lemma Credit(m: Sim, s: Frame, c: nat, to: nat, amount: nat) returns (t: Frame)
    requires TokenSim(m) && m.At(s, c) && s.pc == 85 && s.stack == [to, amount]
    ensures t == s.(pc := 92, stack := [], stopped := true,
                    storage := s.storage[to := (Slot(s.storage, to) + amount) % MOD])
    ensures EndsIn(m, c + 5111, t)
  {
    hide IsToken, Sim.At, EndsIn;
    CreditBytes(m.job.code);
    var balance := Slot(s.storage, to);
    var sum := BinaryValue(OP_ADD, balance, amount);
    t := StepDup(m, s, c, 1, to);
    t := StepSload(m, t, c + 3, [to, amount], to);
    t := StepBinary(m, t, c + 103, OP_ADD, [to], balance, amount, sum);
    t := StepDup(m, t, c + 106, 1, to);
    t := StepSstore(m, t, c + 109, [to], to, sum);
    t := StepPop(m, t, c + 5109, [], to);
    t := StepStop(m, t, c + 5111);
  }

  // ----- whole runs of the token -----

  const TRANSFER_GAS: nat := 10301
  const REFUSAL_GAS: nat := 185

  lemma DispatchTransfer(m: Sim) returns (t: Frame)
    requires TokenSim(m) && Selector(m) == TRANSFER_SELECTOR
    ensures t == m.start.(pc := 63, stack := [TRANSFER_SELECTOR]) && m.At(t, 36)
  {
    hide FromBE, JumpDests, IsToken, SelectorShift, Selector, Sim.At, Window;
    TryTransferBytes(m.job.code);
    HandlersAreJumpDests(m.job.code);
    t := ToSelector(m);
    t := TryArm(m, t, 14, TRANSFER_SELECTOR, 0x3F);
  }

  /** What a message with the transfer selector does, for any calldata, caller, storage and gas. */
  lemma TransferMessage(m: Sim) returns (t: Frame)
    requires TokenSim(m) && Selector(m) == TRANSFER_SELECTOR
    ensures var s := m.start.storage; var covered := AmountWord(m) <= Slot(s, CallerWord(m));
      && EndsIn(m, if covered then TRANSFER_GAS else REFUSAL_GAS, t)
      && t.ret == [] && t.reverted == !covered
      && (covered ==> t.storage == TransferTokens(s, CallerWord(m), ToWord(m), AmountWord(m)))
      && (!covered ==> t.storage == s)
  {
    hide FromBE, IsToken, SelectorShift, Sim.At, EndsIn, Window;
    var s := m.start.storage;
    var to, amount, from := ToWord(m), AmountWord(m), CallerWord(m);
    t := DispatchTransfer(m);
    t := LoadArguments(m, t, 36);
    t := CheckBalance(m, t, 156, to, amount, from, Slot(s, from));
    if Slot(s, from) < amount {
      RefuseBytes(m.job.code);
      t := StepJumpDest(m, t, 178);
      t := RevertEmpty(m, t, 179);
    } else {
      t := Debit(m, t, 178, to, amount, from, Slot(s, from));
      t := Credit(m, t, 5190, to, amount);
    }
  }

  const BALANCE_GAS: nat := 179

  /** A message with the balanceOf selector returns the balance as a word, when memory can hold one. */
  lemma BalanceMessage(m: Sim) returns (t: Frame)
    requires TokenSim(m) && Selector(m) == BALANCE_SELECTOR
    requires m.env.maxMemory >= 32 && IsWord(Slot(m.start.storage, ToWord(m)))
    ensures EndsIn(m, BALANCE_GAS, t) && !t.reverted && t.storage == m.start.storage
    ensures t.ret == WordBytes(Slot(m.start.storage, ToWord(m)))
  {
    hide FromBE, IsToken, SelectorShift, WordBytes, Sim.At, EndsIn, Window;
    var balance := Slot(m.start.storage, ToWord(m));
    t := DispatchBalance(m);
    t := LoadBalance(m, t, 58);
    StoreFirstWord(m.env.maxMemory, balance);
    t := StepMstore(m, t, 170, [], 0, balance);
    BalanceOfBytes(m.job.code);
    t := StepPush1(m, t, 173, 0x20);
    t := StepPush1(m, t, 176, 0);
    t := StepReturn(m, t, 179, [], 0, 32, WordBytes(balance), WordBytes(balance), false);
  }

  lemma StoreFirstWord(limit: nat, v: nat)
    requires limit >= 32 && IsWord(v)
    ensures EvmMemory.Store(limit, [], 0, v) == Some(WordBytes(v))
    ensures EvmMemory.ReadRange(limit, WordBytes(v), 0, 32) == Some((WordBytes(v), WordBytes(v)))
  {
    hide WordBytes;
    var bs := WordBytes(v);
    assert EvmMemory.Expand(limit, [], 0, 32) == Some([] + Zeros(32));
    assert EvmMemory.Overwrite([] + Zeros(32), 0, bs) == bs;
    assert bs[0..32] == bs;
  }

  lemma DispatchBalance(m: Sim) returns (t: Frame)
    requires TokenSim(m) && Selector(m) == BALANCE_SELECTOR
    ensures t == m.start.(pc := 98, stack := [BALANCE_SELECTOR]) && m.At(t, 58)
  {
    hide FromBE, JumpDests, IsToken, SelectorShift, Selector, Sim.At, Window;
    TryTransferBytes(m.job.code);
    TryBalanceBytes(m.job.code);
    HandlersAreJumpDests(m.job.code);
    t := ToSelector(m);
    t := TryArm(m, t, 14, TRANSFER_SELECTOR, 0x3F);
    t := TryArm(m, t, 36, BALANCE_SELECTOR, 0x62);
  }

  lemma LoadBalance(m: Sim, s: Frame, c: nat) returns (t: Frame)
    requires TokenSim(m) && m.At(s, c) && s.pc == 98 && |s.stack| == 1 && s.storage == m.start.storage
    ensures t == s.(pc := 106, stack := [Slot(m.start.storage, ToWord(m)), 0]) && m.At(t, c + 112)
    ensures m.Fetches(t, OP_MSTORE)
  {
    hide FromBE, IsToken, Sim.At, Window;
    BalanceOfBytes(m.job.code);
    t := StepJumpDest(m, s, c);
    t := StepPop(m, t, c + 1, [], s.stack[0]);
    t := StepPush1(m, t, c + 3, 4);
    t := StepCallDataLoad(m, t, c + 6, [], 4, ToWord(m));
    t := StepSload(m, t, c + 9, [], ToWord(m));
    t := StepPush1(m, t, c + 109, 0);
    assert t.stack == [Slot(m.start.storage, ToWord(m)), 0];
  }

  lemma UnknownSelector(m: Sim) returns (t: Frame)
    requires TokenSim(m) && Selector(m) != TRANSFER_SELECTOR && Selector(m) != BALANCE_SELECTOR
    ensures EndsIn(m, 66, t) && t.reverted && t.ret == []
  {
    hide FromBE, JumpDests, IsToken, SelectorShift, Selector, Sim.At, EndsIn, Window;
    TryTransferBytes(m.job.code);
    TryBalanceBytes(m.job.code);
    NoMatchBytes(m.job.code);
    HandlersAreJumpDests(m.job.code);
    t := ToSelector(m);
    t := TryArm(m, t, 14, TRANSFER_SELECTOR, 0x3F);
    t := TryArm(m, t, 36, BALANCE_SELECTOR, 0x62);
    t := StepPop(m, t, 58, [], Selector(m));
    t := RevertEmpty(m, t, 60);
  }

  /** Whatever the balance handler meets, it leaves the storage alone. */
  lemma BalanceKeepsStorage(m: Sim, gas: nat)
    requires TokenSim(m) && Selector(m) == BALANCE_SELECTOR
    ensures var o := m.From(m.start, gas); o.w == m.w && (Succeeded(o) ==> o.f.storage == m.start.storage)
  {
    hide FromBE, IsToken, SelectorShift, WordBytes, Window, EvmMemory.Store, EvmMemory.ReadRange, Run;
    var balance := Slot(m.start.storage, ToWord(m));
    var t := DispatchBalance(m);
    t := LoadBalance(m, t, 58);
    var stored := EvmMemory.Store(m.env.maxMemory, t.mem, 0, balance);
    t := StepMstore(m, t, 170, [], 0, balance);
    if stored.Some? {
      BalanceOfBytes(m.job.code);
      t := StepPush1(m, t, 173, 0x20);
      t := StepPush1(m, t, 176, 0);
      StoredWordReadsBack(m.env.maxMemory, m.start.mem, balance);
      t := StepReturn(m, t, 179, [], 0, 32, stored.value, stored.value[0..32], false);
    }
  }

  lemma StoredWordReadsBack(limit: nat, mem: ByteSeq, v: nat)
    requires EvmMemory.Store(limit, mem, 0, v).Some?
    ensures var r := EvmMemory.Store(limit, mem, 0, v).value;
      |r| >= 32 && EvmMemory.ReadRange(limit, r, 0, 32) == Some((r, r[0..32]))
  {
    hide WordBytes;
  }

  /** Every message to the token, with any calldata, caller, value and gas: the world is untouched, and if it
      succeeds the storage is the old one or a covered transfer of it. */
  lemma TokenMessage(m: Sim, gas: nat)
    requires TokenSim(m)
    ensures var o := m.From(m.start, gas); var s := m.start.storage;
      && o.w == m.w
      && (Succeeded(o) ==>
           || o.f.storage == s
           || (AmountWord(m) <= Slot(s, CallerWord(m))
               && o.f.storage == TransferTokens(s, CallerWord(m), ToWord(m), AmountWord(m))))
  {
    hide FromBE, IsToken, SelectorShift, Window, Run, TransferTokens;
    if Selector(m) == TRANSFER_SELECTOR {
      var t := TransferMessage(m);
    } else if Selector(m) == BALANCE_SELECTOR {
      BalanceKeepsStorage(m, gas);
    } else {
      var t := UnknownSelector(m);
    }
  }

  // ----- calldata -----

  const TRANSFER_SIGNATURE: string := "transfer(address,uint256)"
  const BALANCE_SIGNATURE: string := "balanceOf(address)"

  function EncodeTransfer(env: Env, to: ByteSeq, amount: nat): Option<ByteSeq> {
    var address :- EncodeAddress(to);
    var word :- EncodeUint256(amount);
    Some(ComputeSelector(env, TRANSFER_SIGNATURE) + address + word)
  }

  function EncodeBalanceOf(env: Env, who: ByteSeq): Option<ByteSeq> {
    var address :- EncodeAddress(who);
    Some(ComputeSelector(env, BALANCE_SIGNATURE) + address)
  }

  /** The two facts about keccak256 that the hand-written bytecode relies on. */
  ghost predicate SelectorsMatch(env: Env) {
    && ComputeSelector(env, TRANSFER_SIGNATURE) == [0xa9, 0x05, 0x9c, 0xbb]
    && ComputeSelector(env, BALANCE_SIGNATURE) == [0x70, 0xa0, 0x82, 0x31]
  }

  /** The bytecode reads back from the calldata exactly what the caller encoded. */
  lemma TransferCallReadsBack(env: Env, to: ByteSeq, amount: nat)
    requires SelectorsMatch(env) && EncodeTransfer(env, to, amount).Some?
    ensures var data := EncodeTransfer(env, to, amount).value;
      SelectorOf(data) == TRANSFER_SELECTOR && CallWord(data, 4) == FromBE(to) && CallWord(data, 36) == amount
  {
    hide FromBE, SelectorShift, ComputeSelector, WordBytes, SelectorOf, CallWord;
    var sel := ComputeSelector(env, TRANSFER_SIGNATURE);
    var address, word := EncodeAddress(to).value, WordBytes(amount);
    FromBE4(0xa9, 0x05, 0x9c, 0xbb);
    SelectorReadsBack(sel, address + word);
    assert sel + (address + word) == sel + address + word;
    ArgumentReadsBack(sel, address, word);
    EncodedAddressValue(to);
    ArgumentReadsBack(sel + address, word, []);
    assert sel + address + word + [] == sel + address + word;
    WordBytesRoundTrip(amount);
  }

  lemma BalanceCallReadsBack(env: Env, who: ByteSeq)
    requires SelectorsMatch(env) && EncodeBalanceOf(env, who).Some?
    ensures var data := EncodeBalanceOf(env, who).value;
      SelectorOf(data) == BALANCE_SELECTOR && CallWord(data, 4) == FromBE(who)
  {
    hide FromBE, SelectorShift, ComputeSelector, SelectorOf, CallWord;
    var sel := ComputeSelector(env, BALANCE_SIGNATURE);
    var address := EncodeAddress(who).value;
    FromBE4(0x70, 0xa0, 0x82, 0x31);
    SelectorReadsBack(sel, address);
    ArgumentReadsBack(sel, address, []);
    assert sel + address + [] == sel + address;
    EncodedAddressValue(who);
  }
}
