/** Opcode bytes and the flat gas table. */
module Opcodes {
  import opened Bytes

  const OP_STOP: Byte := 0x00
  const OP_ADD: Byte := 0x01
  const OP_MUL: Byte := 0x02
  const OP_SUB: Byte := 0x03
  const OP_DIV: Byte := 0x04
  const OP_MOD: Byte := 0x06
  const OP_EXP: Byte := 0x0A
  const OP_LT: Byte := 0x10
  const OP_GT: Byte := 0x11
  const OP_EQ: Byte := 0x14
  const OP_ISZERO: Byte := 0x15
  const OP_AND: Byte := 0x16
  const OP_OR: Byte := 0x17
  const OP_NOT: Byte := 0x19
  const OP_SHA3: Byte := 0x20
  const OP_ADDRESS: Byte := 0x30
  const OP_CALLER: Byte := 0x33
  const OP_CALLVALUE: Byte := 0x34
  const OP_CALLDATALOAD: Byte := 0x35
  const OP_CALLDATASIZE: Byte := 0x36
  const OP_CALLDATACOPY: Byte := 0x37
  const OP_CODESIZE: Byte := 0x38
  const OP_CODECOPY: Byte := 0x39
  const OP_POP: Byte := 0x50
  const OP_MLOAD: Byte := 0x51
  const OP_MSTORE: Byte := 0x52
  const OP_MSTORE8: Byte := 0x53
  const OP_SLOAD: Byte := 0x54
  const OP_SSTORE: Byte := 0x55
  const OP_JUMP: Byte := 0x56
  const OP_JUMPI: Byte := 0x57
  const OP_MSIZE: Byte := 0x59
  const OP_GAS: Byte := 0x5A
  const OP_JUMPDEST: Byte := 0x5B
  const OP_PUSH1: Byte := 0x60
  const OP_PUSH32: Byte := 0x7F
  const OP_DUP1: Byte := 0x80
  const OP_DUP16: Byte := 0x8F
  const OP_SWAP1: Byte := 0x90
  const OP_SWAP16: Byte := 0x9F
  const OP_CREATE: Byte := 0xF0
  const OP_CALL: Byte := 0xF1
  const OP_RETURN: Byte := 0xF3
  const OP_REVERT: Byte := 0xFD
  const OP_INVALID: Byte := 0xFE

  const GAS_CREATE: nat := 32000
  const GAS_SSTORE: nat := 5000
  const GAS_SLOAD: nat := 100
  const GAS_CALL_BASE: nat := 100

  const MAX_STACK_DEPTH: nat := 1024

  predicate IsPush(b: Byte) { OP_PUSH1 <= b <= OP_PUSH32 }
  predicate IsDup(b: Byte) { OP_DUP1 <= b <= OP_DUP16 }
  predicate IsSwap(b: Byte) { OP_SWAP1 <= b <= OP_SWAP16 }

  predicate IsBinary(b: Byte) {
    || OP_ADD <= b <= OP_DIV || b == OP_MOD || b == OP_EXP
    || b == OP_LT || b == OP_GT || b == OP_EQ || b == OP_AND || b == OP_OR
  }

  /** Opcodes that push one value and read no operand. */
  predicate IsNullary(b: Byte) {
    || b == OP_ADDRESS || b == OP_CALLER || b == OP_CALLVALUE || b == OP_CALLDATASIZE
    || b == OP_CODESIZE || b == OP_MSIZE || b == OP_GAS
  }

  predicate IsHalting(b: Byte) {
    b == OP_STOP || b == OP_RETURN || b == OP_REVERT || b == OP_INVALID
  }

  /** The gas table; None is a byte the table does not hold. */
  function GasCost(b: Byte): (r: Option<nat>)
    ensures r.Some? && !IsHalting(b) ==> r.value >= 1
  {
    if IsPush(b) || IsDup(b) || IsSwap(b) then Some(3)
    else if b == OP_SSTORE then Some(GAS_SSTORE)
    else if b == OP_SLOAD then Some(GAS_SLOAD)
    else if b == OP_CALL then Some(GAS_CALL_BASE)
    else if b == OP_CREATE then Some(GAS_CREATE)
    else if b == OP_SHA3 then Some(30)
    else if b == OP_EXP || b == OP_JUMPI then Some(10)
    else if b == OP_JUMP then Some(8)
    else if b == OP_MUL || b == OP_DIV || b == OP_MOD then Some(5)
    else if IsBinary(b) || b == OP_ISZERO || b == OP_NOT then Some(3)
    else if IsNullary(b) || b == OP_POP then Some(2)
    else if b == OP_CALLDATALOAD || b == OP_CALLDATACOPY || b == OP_CODECOPY then Some(3)
    else if b == OP_MLOAD || b == OP_MSTORE || b == OP_MSTORE8 then Some(3)
    else if b == OP_JUMPDEST then Some(1)
    else if IsHalting(b) then Some(0)
    else None
  }

  // The dictionary before the loops that add the PUSH, DUP and SWAP ranges, by its groups.

  const COMPUTING_COSTS: map<Byte, nat> := map[
    OP_STOP := 0, OP_ADD := 3, OP_MUL := 5, OP_SUB := 3, OP_DIV := 5, OP_MOD := 5, OP_EXP := 10,
    OP_LT := 3, OP_GT := 3, OP_EQ := 3, OP_ISZERO := 3, OP_AND := 3, OP_OR := 3, OP_NOT := 3,
    OP_SHA3 := 30]

  const ENVIRONMENT_COSTS: map<Byte, nat> := map[
    OP_ADDRESS := 2, OP_CALLER := 2, OP_CALLVALUE := 2, OP_CALLDATALOAD := 3, OP_CALLDATASIZE := 2,
    OP_CALLDATACOPY := 3, OP_CODESIZE := 2, OP_CODECOPY := 3]

  const STORING_COSTS: map<Byte, nat> := map[
    OP_POP := 2, OP_MLOAD := 3, OP_MSTORE := 3, OP_MSTORE8 := 3, OP_SLOAD := GAS_SLOAD, OP_SSTORE := GAS_SSTORE,
    OP_JUMP := 8, OP_JUMPI := 10, OP_MSIZE := 2, OP_GAS := 2, OP_JUMPDEST := 1]

  const CONTRACT_COSTS: map<Byte, nat> := map[
    OP_CREATE := GAS_CREATE, OP_CALL := GAS_CALL_BASE, OP_RETURN := 0, OP_REVERT := 0, OP_INVALID := 0]

  const BASE_COSTS: map<Byte, nat> := COMPUTING_COSTS + ENVIRONMENT_COSTS + STORING_COSTS + CONTRACT_COSTS

  lemma GroupCosts(b: Byte)
    ensures b in COMPUTING_COSTS <==> b < 0x30 && GasCost(b).Some?
    ensures b in COMPUTING_COSTS ==> GasCost(b) == Some(COMPUTING_COSTS[b])
    ensures b in ENVIRONMENT_COSTS <==> 0x30 <= b < 0x50 && GasCost(b).Some?
    ensures b in ENVIRONMENT_COSTS ==> GasCost(b) == Some(ENVIRONMENT_COSTS[b])
  {}

  lemma MoreGroupCosts(b: Byte)
    ensures b in STORING_COSTS <==> 0x50 <= b < 0x60 && GasCost(b).Some?
    ensures b in STORING_COSTS ==> GasCost(b) == Some(STORING_COSTS[b])
    ensures b in CONTRACT_COSTS <==> 0xA0 <= b && GasCost(b).Some?
    ensures b in CONTRACT_COSTS ==> GasCost(b) == Some(CONTRACT_COSTS[b])
  {}

  lemma BaseCosts(b: Byte)
    requires !IsPush(b) && !IsDup(b) && !IsSwap(b)
    ensures GasCost(b) == if b in BASE_COSTS then Some(BASE_COSTS[b]) else None
  {
    hide GasCost, COMPUTING_COSTS, ENVIRONMENT_COSTS, STORING_COSTS, CONTRACT_COSTS;
    GroupCosts(b);
    MoreGroupCosts(b);
  }

  lemma RangeCosts(b: Byte)
    requires IsPush(b) || IsDup(b) || IsSwap(b)
    ensures GasCost(b) == Some(3)
  {}

  /** The table as the module builds it holds exactly the costs of `GasCost`. */
  method BuildGasCosts() returns (t: map<Byte, nat>)
    ensures forall b: Byte :: GasCost(b) == if b in t then Some(t[b]) else None
  {
    hide GasCost, BASE_COSTS;
    t := BASE_COSTS;
    ghost var base := t;
    for i := 0 to 32
      invariant forall b: Byte :: b in t <==> b in base || OP_PUSH1 <= b < OP_PUSH1 + i
      invariant forall b: Byte :: b in t ==> t[b] == if OP_PUSH1 <= b < OP_PUSH1 + i then 3 else base[b]
    {
      t := t[OP_PUSH1 + i := 3];
    }
    for i := 0 to 16
      invariant forall b: Byte :: b in t <==> b in base || IsPush(b) || OP_DUP1 <= b < OP_DUP1 + i
      invariant forall b: Byte :: b in t ==> t[b] == if IsPush(b) || OP_DUP1 <= b < OP_DUP1 + i then 3 else base[b]
    {
      t := t[OP_DUP1 + i := 3];
    }
    for i := 0 to 16
      invariant forall b: Byte :: b in t <==> b in base || IsPush(b) || IsDup(b) || OP_SWAP1 <= b < OP_SWAP1 + i
      invariant forall b: Byte :: b in t ==>
        t[b] == if IsPush(b) || IsDup(b) || OP_SWAP1 <= b < OP_SWAP1 + i then 3 else base[b]
    {
      t := t[OP_SWAP1 + i := 3];
    }
    forall b: Byte
      ensures GasCost(b) == if b in t then Some(t[b]) else None
    {
      if !IsPush(b) && !IsDup(b) && !IsSwap(b) { BaseCosts(b); } else { RangeCosts(b); }
    }
  }
}
