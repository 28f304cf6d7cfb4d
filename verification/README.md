# A small Ethereum, verified

This project models a teaching implementation of Ethereum and proves what its layers promise:

- **RLP** (`Bytes`, `Rlp`, `KnownEncodings`): the encoder, the recursive decoder, self-delimitation, the encoder as the unique shortest
  form, and byte by byte what is hashed for addresses, signatures, blocks and accounts.
- **The EVM** (`Words`, `Opcodes`, `EvmMemory`, `Evm`, `Machine`): one frame is a fetch, charge and dispatch loop over a stack, byte memory,
  storage and gas; CALL and CREATE run new frames on the shared world state. `Evm` gives the meaning on values: `Begin` is one opcode up to a
  possible child, `Resume` is the parent's side of a finished child, `Run` is a frame to its end. `Machine` is the object program, method
  by method, proved to have that meaning.
- **What runs keep** (`EvmInvariants`, `WorldInvariants`, `Limits`): instruction boundaries, words, stack depth, opcode counts, ether,
  nonces, the creations that use them, and what a failed inner call undoes.
- **Calls and creations as whole runs** (`Stepping`, `Forwarding`, `Contexts`, `InitCode`, `Creating`): programs run instruction by
  instruction for every amount of gas. A forwarder and a factory with arbitrary targets and init code say who the caller is, what reaches
  the callee, what comes back and what it costs; a recorder, an echo and a constructor say what code sees and what becomes of its answer.
- **The state transition** (`Accounts`, `WorldStates`, `Transactions`, `Signing`, `StateTransition`, `Payments`, `Executor`): signing,
  validation, snapshot, charging, execution, revert and refund, on values and on account objects, with every account's balance,
  conservation, failure isolation and replay protection over whole runs.
- **The token** (`Abi`, `TokenCode`, `Token`, `TokenRuns`, `TokenCalls`): the hand-assembled bytecode against an abstract token, used by
  transactions and by contracts, and its supply over whole runs from its deployment on.
- **Hashes that bind** (`StateRoot`, `Chain`): state-root preimages, block headers, and tamper evidence for chains.

`dafny verify dfyconfig.toml` checks everything.

## How the model is set up

- Keccak-256 and public-key recovery are arbitrary functions held in `Environment.Env`. No property assumes that the hash is injective: a
  statement about hashes says "equal, or here are two strings that collide". The token's two selectors are a named hypothesis,
  `Token.SelectorsMatch`, on the hash of two signature strings, and so is the recovery law of signatures, `Signing.Recovers`.
- Python exceptions are results. `Evm.Error` tells OutOfGas, which CALL, CREATE and the transaction level catch, from the other EVM errors
  and from unexpected errors, which unwind to `apply_transaction`. A memory that outgrows `Env.maxMemory` is an unexpected error.
- Numbers that Python leaves unbounded are unbounded here: stack, storage, gas and call values are naturals, and that they stay below 2^256 is
  proved where the inputs do, not assumed in a type.
- `World` is a map of account values. `WorldStates.WorldState` keeps a dictionary of account objects, each holding a storage dictionary
  that is an object too, and copies both before each change, as the program does. Its methods write to no object handed out before, a
  snapshot shares nothing with the state, and a frame runs on a storage dictionary that the state does not hold on to (`EVM.Isolated`):
  a copy that shared its storage would not verify.
- A gas price times an amount of gas is written `Fee`.

Where comments and code of the repository disagree the model follows the code:

- `state_root_placeholder` says that different states hash differently. Storage is not hashed; `StateRoot.RootPreimageInjective` says
  exactly which states share a preimage and `StateRoot.RootIgnoresStorage` shows two.
- REVERT says that state changes of its context are reverted. A failed inner call drops only its own storage copy: whatever the callee is,
  the caller goes on with the world the callee's run left (`Limits.FailedCallKeepsTransfer`). If that run carries out no CALL and no CREATE,
  as is certain for code without such instructions and for less than 100 gas, `Limits.FailedCallUndoneExactlyWhen` says exactly when the
  call is undone; `Limits.ValueStaysSent` is a run in which it is not. A creation is never undone, at whatever depth it happens
  (`Limits.CreateNeverUndone`, `Limits.InnerCreationNeverUndone`), so the restriction on the run is needed: `Limits.NonceStaysRaised`
  is a run with a valueless call to code that creates and then reverts.
- `block_hash` says that it identifies a block. It covers the header only: `Chain.TamperingDetected` says exactly which replaced blocks
  `validate_chain` lets pass.

## Model

| member | source | states |
|---|---|---|
| Rlp.RlpDecode | src/ethereum/encoding/rlp.py:130-147 | the result is the parse of the whole input, or none when bytes trail or the input is malformed |
| Rlp.DecodeItem | src/ethereum/encoding/rlp.py:150-206 | for every input and offset, all five prefix cases and all failures: exactly the item and next offset that `ParseItem` defines |
| Rlp.DecodeList | src/ethereum/encoding/rlp.py:209-233 | the loop over members yields the list that `ParseList` defines, or fails when members overrun the declared length |
| Rlp.SelfDelimiting | src/ethereum/encoding/rlp.py:150-206 | wherever the encoding of an item stands in a longer string, decoding at that offset gives the item and the offset just past it, for every item that encodes and is not a bare string of 2^64 bytes |
| Rlp.AllSelfDelimiting | src/ethereum/encoding/rlp.py:225-233 | the same for any concatenation of encoded members |
| Rlp.RoundTrip | src/ethereum/encoding/rlp.py:66-147 | decoding an encoding gives the item back if and only if it is not a bare string of 2^64 bytes or more |
| Rlp.PrefixFree | src/ethereum/encoding/rlp.py:89-127 | an encoding that is a prefix of another encodes the same item; so encodings are injective and prefix-free |
| Rlp.ConcatInjective | src/ethereum/encoding/rlp.py:118-127 | equal concatenations of encodings come from equal member lists |
| Rlp.ShortestForm | src/ethereum/encoding/rlp.py:89-206 | re-encoding anything the decoder accepts is never longer, and equally long only when the input was the encoding |
| KnownEncodings.NumberBytes | src/ethereum/encoding/rlp.py:25-45 | the bytes of 0, of one-byte and of two-byte numbers |
| KnownEncodings.StringForms | src/ethereum/encoding/rlp.py:89-116 | prefix and length bytes of every string below 64 kilobytes |
| KnownEncodings.ListForms | src/ethereum/encoding/rlp.py:117-127 | prefix and length bytes of every list whose members take less than 64 kilobytes |
| KnownEncodings.WellKnown | src/ethereum/encoding/rlp.py:66-127 | the encodings of the empty string, the empty list, nested lists, and "cat" and "dog" |
| KnownEncodings.CreationBytes | src/ethereum/core/address.py:20-36 | the bytes hashed for a contract address: creator, then nonce |
| KnownEncodings.SigningBytes | src/ethereum/transactions/transaction.py:83-91 | the bytes signed: the six fields in their order |
| KnownEncodings.HeaderBytes | src/ethereum/chain/block.py:95-101 | the bytes hashed for a block: the four header fields in their order |
| KnownEncodings.AccountBytes | src/ethereum/state/world_state.py:225-230 | the bytes hashed for an account: address, nonce, balance, code |
| KnownEncodings.TwoAccounts | src/ethereum/state/world_state.py:222-231 | two accounts are hashed one after the other, the lower address first |
| Bytes.IntToRlpBytesUnique | src/ethereum/encoding/rlp.py:25-45 | the bytes of n are the one big-endian string without a leading zero byte that denotes n |
| Bytes.ByteLengthExact | src/ethereum/encoding/rlp.py:43-45 | the byte length computed from the bit length holds n and no shorter one does |
| EvmMemory.Memory.ExpandTo | src/ethereum/evm/memory.py:31-47 | in place: memory covers the access, in whole words, zero-filled; fails exactly past the size limit |
| EvmMemory.Memory.LoadWord | src/ethereum/evm/memory.py:49-65 | the word at the offset, with memory grown to cover it |
| EvmMemory.Memory.StoreWord | src/ethereum/evm/memory.py:67-80 | 32 big-endian bytes put in place; fails when memory cannot grow or the value is no word |
| EvmMemory.Memory.StoreByte | src/ethereum/evm/memory.py:82-94 | the low byte put in place |
| EvmMemory.Memory.ReadBytes | src/ethereum/evm/memory.py:96-112 | the bytes of the range, with memory grown to cover it, nothing touched for size 0 |
| EvmMemory.Memory.WriteBytes | src/ethereum/evm/memory.py:114-126 | the bytes put in place, nothing touched for an empty string |
| EvmMemory.MemoryRefinesFlatArray | src/ethereum/evm/memory.py:31-136 | any log of overlapping accesses agrees cell by cell with an unlimited zero array, has size the touched extent rounded up to 32, and succeeds exactly when that fits |
| EvmMemory.ReadsAgree | src/ethereum/evm/memory.py:96-112 | a range read returns what the last writes left in those cells |
| EvmMemory.StoreThenLoad | src/ethereum/evm/memory.py:49-80 | loading where a word was stored returns it and changes nothing |
| Words.BitAndIsBitwise | src/ethereum/evm/vm.py:429-436 | AND sets exactly the bits set in both operands |
| Words.BitOrIsBitwise | src/ethereum/evm/vm.py:438-445 | OR sets exactly the bits set in either operand |
| Opcodes.GasCost | src/ethereum/evm/gas.py:94-163 | every opcode that does not halt costs at least 1 |
| Opcodes.BuildGasCosts | src/ethereum/evm/gas.py:94-163 | the dictionary and its three loops hold exactly the costs of `GasCost`, and no other byte |
| Evm.Begin | src/ethereum/evm/vm.py:199-222 | one opcode leaves strictly less gas unless it halts; a child starts with strictly less gas than its parent had before the opcode |
| Evm.BeginCall | src/ethereum/evm/vm.py:892-950 | up to the child frame: the child starts with the forwarded gas, never more than the caller has left |
| Evm.BeginCreate | src/ethereum/evm/vm.py:812-857 | up to the child frame: the child starts with all the gas the creator has left |
| Evm.Resume | src/ethereum/evm/vm.py:859-979 | the parent never has more gas after a child than before it |
| Evm.Run | src/ethereum/evm/vm.py:186-235 | every frame terminates, for every code, state and gas, and returns no more gas than it was given |
| EvmInvariants.JumpDestsExact | src/ethereum/evm/vm.py:107-128 | the scanned positions are exactly the JUMPDEST bytes at instruction starts as section 9.4.3 of the Yellow Paper defines them |
| EvmInvariants.NoStartInside | src/ethereum/evm/vm.py:117-128 | no instruction starts inside the data of another |
| EvmInvariants.OnlyInstructionsAreFetched | src/ethereum/evm/vm.py:199-222 | in every state of every frame of every run, at any depth, the program counter stands on an instruction start: PUSH data is never executed |
| EvmInvariants.OpcodesBoundedByGas | src/ethereum/evm/vm.py:199-222 | a frame fetches at most its initial gas plus one opcodes |
| EvmInvariants.StackDepthBounded | src/ethereum/evm/vm.py:156-167 | no frame of any run ever holds more than 1024 stack values |
| EvmInvariants.AllStatesHoldWords | src/ethereum/evm/vm.py:322-455 | from word-sized inputs every stack value, storage slot, gas value and memory size is below 2^256 in every state of every frame at any depth |
| EvmInvariants.RunKeepsWords | src/ethereum/evm/vm.py:186-235 | the finished frame and the whole world state hold only words |
| EvmInvariants.ConversionsFit | src/ethereum/evm/vm.py:654-663 | in every such state the operands MSTORE and CALL turn into 32 bytes fit |
| Environment.CreationPreimageInjective | src/ethereum/core/address.py:20-36 | the bytes hashed into a contract address determine creator and nonce |
| Environment.OneAddressOneCreation | src/ethereum/core/address.py:20-36 | two creations that derive one address have the same creator and nonce, or their two preimages collide in the last 20 hash bytes |
| Words.QuotientAndRemainder | src/ethereum/evm/vm.py:355-375 | for a non-zero divisor DIV and MOD give quotient and remainder |
| WorldInvariants.RunKeeps | src/ethereum/evm/vm.py:797-979 | induction principle: a world property kept by transfers, account opening, deployment and write-back of a finished message holds after any run; opening and deployment need keep it only at the addresses the run's own creations derive |
| WorldInvariants.CreationsAreVisited | src/ethereum/evm/vm.py:797-830 | the creations of a run are exactly those of the states, at any depth, that stand at a CREATE which uses up a nonce |
| WorldInvariants.CreationsUseNonces | src/ethereum/evm/vm.py:823-830 | a creation at any depth uses a nonce that was not used up before the run and is used up after it, whatever fails in between |
| WorldInvariants.RunConservesEther | src/ethereum/evm/vm.py:797-979 | no run, whatever the code and depth, changes the sum of all balances |
| WorldInvariants.RunGrowsNonces | src/ethereum/evm/vm.py:829-830 | no run lowers any nonce |
| Accounts.TransferConservesEther | src/ethereum/state/world_state.py:156-169 | a transfer keeps the sum of all balances, self-transfer included |
| WorldInvariants.TransferKeepsCode | src/ethereum/state/world_state.py:156-169 | a transfer changes no code, storage or nonce |
| Limits.QuietRun | src/ethereum/evm/vm.py:186-235 | a run that carries out no CALL and no CREATE leaves the world state alone, however it ends |
| Limits.IsolatedRun | src/ethereum/evm/vm.py:186-235 | code none of whose instructions is CALL or CREATE has only such runs |
| Limits.PoorRun | src/ethereum/evm/vm.py:130-141 | with less than 100 gas any code has only such runs |
| Limits.FailedCallKeepsTransfer | src/ethereum/evm/vm.py:916-979 | for every callee: after a failure, reverted or out of gas, the caller has 0 on its stack, has lost all the gas it sent, and goes on with the world as the callee's run left it; with no CALL and CREATE carried out that is the caller's world after the transfer |
| Limits.FailedCallUndoneExactlyWhen | src/ethereum/evm/vm.py:780-793 | a failed call whose run carries out no CALL and no CREATE is undone in the world if and only if it carried no value or was a call to self; callees without such instructions, and calls with less than 100 gas, are of this kind |
| Limits.CreationRaisesNonce | src/ethereum/evm/vm.py:829-830 | a CREATE that uses up a nonce in any frame of a run, at any depth, leaves that nonce raised when the run is over, whatever fails in between |
| Limits.CreateNeverUndone | src/ethereum/evm/vm.py:797-877 | every CREATE that reaches its init code leaves a different world, whatever becomes of the init code |
| Limits.InnerCreationNeverUndone | src/ethereum/evm/vm.py:879-979 | a call in whose run a contract is created, at any depth, leaves a different world, however it ends |
| Limits.ValueStaysSent | src/ethereum/evm/vm.py:916-979 | whole run of a 15-byte caller in a concrete world: any value it sends on to a contract that reverts is reported as failed and arrives |
| Limits.RevertedCreationStays | src/ethereum/evm/vm.py:797-877 | a valueless call to code that creates and then reverts fails and yet leaves a different world |
| Limits.NonceStaysRaised | src/ethereum/evm/vm.py:797-877 | the same as a whole run of that caller in a concrete world, for any gas from 32129 on |
| Stepping.StepPush | src/ethereum/evm/vm.py:593-610 | PUSHn as part of a run, for every amount of gas at once: 3 gas, the immediate on the stack, or out of gas |
| Stepping.StepDup | src/ethereum/evm/vm.py:612-620 | DUPn: 3 gas, the value n places down on top |
| Stepping.StepSwap | src/ethereum/evm/vm.py:622-639 | SWAPn: 3 gas, top and the value n places below it exchanged, those between as they were |
| Stepping.StepBinary | src/ethereum/evm/vm.py:322-445 | the two-operand opcodes: top and next replaced by their combination, in this order |
| Stepping.StepIszero | src/ethereum/evm/vm.py:419-425 | ISZERO: 3 gas, 1 exactly for 0 |
| Stepping.StepNot | src/ethereum/evm/vm.py:447-455 | NOT of a word: 3 gas, its complement |
| Words.ComplementIsBitwise | src/ethereum/evm/vm.py:447-455 | the complement of a word has exactly the bits below 256 that the word lacks |
| Stepping.StepSha3 | src/ethereum/evm/vm.py:459-474 | SHA3: 30 gas, the hash of the memory range as a number |
| Stepping.StepNullary | src/ethereum/evm/vm.py:478-559 | ADDRESS, CALLER, CALLVALUE, CALLDATASIZE, CODESIZE and MSIZE by their bytes: 2 gas and the value named |
| Stepping.StepGas | src/ethereum/evm/vm.py:745-752 | GAS pushes what is left after its own 2 gas |
| Stepping.StepCallDataLoad | src/ethereum/evm/vm.py:502-520 | CALLDATALOAD: 3 gas, the zero-padded word at the offset |
| Stepping.StepCallDataCopy | src/ethereum/evm/vm.py:529-551 | CALLDATACOPY: 3 gas, destination, offset and size in popping order |
| Stepping.StepMload | src/ethereum/evm/vm.py:643-652 | MLOAD: 3 gas, the word at the offset |
| Stepping.StepMstore | src/ethereum/evm/vm.py:654-663 | MSTORE: 3 gas, or the error of memory that cannot take the word |
| Stepping.StepMstore8 | src/ethereum/evm/vm.py:665-675 | MSTORE8: 3 gas, the low byte at the offset |
| Stepping.StepSload | src/ethereum/evm/vm.py:686-697 | SLOAD: 100 gas, the slot's value |
| Stepping.StepSstore | src/ethereum/evm/vm.py:699-713 | SSTORE: 5000 gas, key and value in popping order |
| Stepping.StepJump | src/ethereum/evm/vm.py:717-728 | JUMP: 8 gas to a jump destination, and the error off one |
| Stepping.StepJumpi | src/ethereum/evm/vm.py:730-743 | JUMPI: 10 gas, there or on by the condition |
| Stepping.StepReturn | src/ethereum/evm/vm.py:767-793 | RETURN and REVERT end the run with the memory range, all gas left |
| Stepping.StepInvalid | src/ethereum/evm/vm.py:199-222 | INVALID ends the frame as a failure with no gas left |
| Stepping.StepUnknown | src/ethereum/evm/vm.py:199-222 | a byte that is no opcode raises with gas untouched |
| Stepping.EndsWithCall | src/ethereum/evm/vm.py:186-235 | a frame whose last instruction is CALL ends as that CALL leaves it |
| Forwarding.ForwardsPayment | src/ethereum/evm/vm.py:916-934 | run of a forwarder for every amount of gas: a value it does not cover is not sent and answers 0; an account without code is paid, costs no gas and answers 1 |
| Forwarding.ForwardsMessage | src/ethereum/evm/vm.py:879-979 | run of a forwarder to any code: the callee sees the forwarder as caller, the value and calldata sent on and the capped gas; success writes its storage back, returns its gas, answers 1 and leaves the first word returned in memory; failure answers 0, keeps neither storage nor gas; other errors go through |
| Forwarding.ForwardsNothing | src/ethereum/evm/vm.py:904-906 | without a world state nothing is sent and the answer is 0 |
| Contexts.RecordedThroughContract | src/ethereum/evm/vm.py:933-940 | a callee that stores CALLER, CALLVALUE and ADDRESS, called through the forwarder, stores the forwarder's address, the value sent on and its own address |
| Contexts.EchoedThroughContract | src/ethereum/evm/vm.py:959-979 | any non-empty answer comes back as its first 32 bytes, zero-padded; a refusal does not come back and takes all the gas sent |
| Contexts.ContractTransaction | src/ethereum/core/state_transition.py:187-243 | a transaction to a contract is a message from the sender with its value and data; receipt, return data, gas and storage are those of that message |
| Contexts.RecordedTransaction | src/ethereum/core/state_transition.py:187-243 | the same recorder as target of a transaction stores sender, value and recipient, exactly when 15015 gas is left after the intrinsic cost |
| Contexts.EchoedTransaction | src/ethereum/core/state_transition.py:101-132 | the receipt's return data is what the code returned, for success and for revert |
| Creating.FactoryCreates | src/ethereum/evm/vm.py:797-877 | run of a factory on any init code: it runs as a message from the factory to the derived address with the value and no calldata; success installs what it returned and stored and answers the address, revert and out of gas answer 0 and the latter leaves the factory its gas, other errors go through |
| Creating.FactoryDeploys | src/ethereum/evm/vm.py:864-877 | with `build_init_code(runtime)`: the runtime code at the derived address and the address as answer for 18 gas, exactly when the value is covered and 18 gas is left; otherwise 0 and the old code; nonce, every balance, code and storage elsewhere in every case |
| Creating.FactoryConstructs | src/ethereum/evm/vm.py:843-877 | with a constructor that stores: its storage at the new account names the factory as creator, the value and the address, and holds the constructor's word |
| Creating.FactoryCreatesNothing | src/ethereum/evm/vm.py:816-818 | without a world state nothing is created and the answer is 0 |
| Environment.AddressDerivable | src/ethereum/core/address.py:20-36 | the address derivation of an account with a 20-byte address and a nonce below 2^256 never fails |
| Machine.EVM.constructor | src/ethereum/evm/vm.py:88-105 | a fresh frame with its own memory and the scanned jump destinations |
| Machine.EVM.FindJumpdests | src/ethereum/evm/vm.py:107-128 | the loop computes exactly `JumpDests` |
| Machine.EVM.ConsumeGas | src/ethereum/evm/vm.py:130-141 | charges exactly the cost, or raises with gas unchanged |
| Machine.EVM.StackPop | src/ethereum/evm/vm.py:143-154 | removes and returns the top, or raises on an empty stack |
| Machine.EVM.StackPush | src/ethereum/evm/vm.py:156-167 | adds on top, or raises at 1024 |
| Machine.EVM.OpPush | src/ethereum/evm/vm.py:593-610 | frame effect of PUSHn, zero-padded past the end of code |
| Machine.EVM.OpDup | src/ethereum/evm/vm.py:612-620 | frame effect of DUPn |
| Machine.EVM.OpSwap | src/ethereum/evm/vm.py:622-639 | frame effect of SWAPn |
| Evm.ArithmeticMeaning | src/ethereum/evm/vm.py:322-417 | ADD, MUL, SUB and EXP give the integer result reduced modulo 2^256, DIV and MOD quotient and remainder or 0, LT, GT and EQ 1 exactly when they hold; operands in popping order |
| Evm.BitwiseMeaning | src/ethereum/evm/vm.py:429-445 | every bit of AND and OR is the conjunction or disjunction of the operands' bits |
| Words.MinusUndoesPlus | src/ethereum/evm/vm.py:322-353 | on words SUB and ADD undo each other, wrap-around included |
| Machine.EVM.OpBinary | src/ethereum/evm/vm.py:322-445 | frame effect of the two-operand opcodes, underflow included |
| Machine.EVM.OpIsZeroOrNot | src/ethereum/evm/vm.py:419-455 | frame effect of ISZERO and NOT |
| Machine.EVM.OpNullary | src/ethereum/evm/vm.py:478-559 | frame effect of ADDRESS, CALLER, CALLVALUE, CALLDATASIZE, CODESIZE, MSIZE and GAS |
| Machine.EVM.OpSha3 | src/ethereum/evm/vm.py:459-474 | frame effect of SHA3 |
| Machine.EVM.OpCallDataLoad | src/ethereum/evm/vm.py:502-520 | frame effect of CALLDATALOAD |
| Machine.ReadPadded | src/ethereum/evm/vm.py:513-518 | the byte loops give the zero-padded window |
| Machine.EVM.OpCopy | src/ethereum/evm/vm.py:529-582 | frame effect of CALLDATACOPY and CODECOPY |
| Machine.EVM.OpPop | src/ethereum/evm/vm.py:586-591 | frame effect of POP |
| Machine.EVM.OpMload | src/ethereum/evm/vm.py:643-652 | frame effect of MLOAD |
| Machine.EVM.OpMstore | src/ethereum/evm/vm.py:654-675 | frame effect of MSTORE and MSTORE8 |
| Machine.EVM.OpSload | src/ethereum/evm/vm.py:686-697 | frame effect of SLOAD, 0 for an unset key |
| Machine.EVM.OpSstore | src/ethereum/evm/vm.py:699-713 | frame effect of SSTORE |
| Machine.EVM.OpJump | src/ethereum/evm/vm.py:717-728 | frame effect of JUMP, raising off a jump destination |
| Machine.EVM.OpJumpi | src/ethereum/evm/vm.py:730-743 | frame effect of JUMPI, raising only when it would jump |
| Machine.EVM.OpReturn | src/ethereum/evm/vm.py:767-793 | frame effect of RETURN and REVERT |
| Machine.EVM.DispatchLocal | src/ethereum/evm/vm.py:237-309 | every other opcode reaches the handler with its meaning |
| Machine.EVM.RunChild | src/ethereum/evm/vm.py:937-955 | a child frame on the shared state has the outcome of `Run`, and writes to its own storage dictionary and to none the state holds on to |
| Machine.EVM.RunCallee | src/ethereum/evm/vm.py:942-979 | the callee runs on a copy of its storage dictionary, and child and caller end as `Resume` after `Run` |
| Machine.EVM.RunInitCode | src/ethereum/evm/vm.py:843-877 | init code runs on an empty storage dictionary, and child and creator end as `Resume` after `Run` |
| Machine.EVM.OpCall | src/ethereum/evm/vm.py:879-979 | CALL on the shared state, child execution included, has exactly the effect of `BeginCall` and `Resume` around `Run` |
| Machine.EVM.OpCreate | src/ethereum/evm/vm.py:797-877 | CREATE on the shared state has exactly the effect of `BeginCreate` and `Resume` around `Run` |
| Machine.EVM.Step | src/ethereum/evm/vm.py:199-222 | one loop iteration has exactly the effect of one opcode |
| Machine.EVM.Execute | src/ethereum/evm/vm.py:186-235 | the mutually recursive object program terminates and its result, frame and world state are those of `Run`; OutOfGas is raised, other errors unwind |
| WorldStates.WorldState.GetAccount | src/ethereum/state/world_state.py:36-45 | the account object for an address, the shared empty one when missing |
| WorldStates.AccountRecord.Copy | src/ethereum/state/world_state.py:95 | a fresh account object with a fresh storage dictionary and the same value |
| WorldStates.WorldState.ModifyAccount | src/ethereum/state/world_state.py:80-97 | replaces one account by a changed copy; only the dictionary is written, so no account or storage object handed out earlier changes |
| WorldStates.WorldState.Snapshot | src/ethereum/state/world_state.py:99-109 | a copy of every account and of its storage dictionary in fresh objects, equal to the state |
| WorldStates.WorldState.Revert | src/ethereum/state/world_state.py:111-120 | the state is the snapshotted one |
| WorldStates.WorldState.DeductFrom | src/ethereum/state/world_state.py:131-146 | takes the amount, or fails with nothing changed when the balance is too small |
| WorldStates.WorldState.TransferValue | src/ethereum/state/world_state.py:156-169 | moves the amount, or fails with nothing changed |
| WorldStates.WorldState.PersistStorage | src/ethereum/evm/vm.py:960-963 | writing a finished storage back slot by slot, in any order, gives the merged storage |
| WorldStates.WorldState.StateRootPlaceholder | src/ethereum/state/world_state.py:205-231 | the loop hashes exactly the records of all accounts in address order |
| StateRoot.SortedHolds | src/ethereum/state/world_state.py:223 | the sorted keys list every address once, in strictly increasing order |
| StateRoot.RootPreimageInjective | src/ethereum/state/world_state.py:205-231 | two states have one preimage if and only if they have the same addresses with the same nonce, balance and code |
| StateRoot.RootBindsState | src/ethereum/state/world_state.py:205-231 | equal roots mean equal covered state, or an explicit hash collision |
| StateRoot.RootIgnoresStorage | src/ethereum/state/world_state.py:208-209 | two different states with one preimage: storage is not covered |
| Transactions.SigningPreimageInjective | src/ethereum/transactions/transaction.py:83-91 | the signed bytes determine all six unsigned fields |
| Transactions.SigningHashBindsIntent | src/ethereum/transactions/transaction.py:68-91 | equal signing hashes mean equal intents, or an explicit hash collision |
| Signing.SignedRecovers | src/ethereum/transactions/transaction.py:94-162 | a signed transaction keeps its six fields and recovers to its signer |
| Signing.AlteredIsNotSigned | src/ethereum/transactions/transaction.py:126-162 | with the signature of one transaction, another recovers to the signer if and only if it is the same or the two signing preimages collide |
| Signing.ValidSaysWhatWasSigned | src/ethereum/core/tx_validator.py:58-112 | a transaction that validates as its signer's has the six fields that were signed, or a collision is exhibited |
| Transactions.Validate | src/ethereum/core/tx_validator.py:58-112 | accepted if and only if the sender is recovered, the nonce matches, the balance covers value and all gas, and the gas limit lies between intrinsic cost and block limit |
| Transactions.CalculateIntrinsicGas | src/ethereum/core/tx_validator.py:30-55 | the loop computes the intrinsic gas |
| Transactions.IntrinsicGasByCount | src/ethereum/core/tx_validator.py:30-55 | 21000 plus 4 per zero byte and 16 per other byte |
| Executor.ValidateTransaction | src/ethereum/core/tx_validator.py:58-112 | the checks on the account objects decide as `Validate` |
| Executor.ApplyTransaction | src/ethereum/core/state_transition.py:50-156 | for every transaction it returns, and receipt and state are exactly those of the state transition function; after a failure the state is the initial one but for the sender's fee and nonce, gas used and remaining add up to the limit, and all balances are as due when the code leaves the world alone, as in every plain payment |
| Executor.Settle | src/ethereum/core/state_transition.py:101-156 | for every result of the payload, exceptions included, the snapshot is put back and charged or the gas left is refunded, as `Settled` says |
| Executor.RevertAndCharge | src/ethereum/core/state_transition.py:103-109 | after the snapshot is restored only fee and nonce differ |
| Executor.ContractCall | src/ethereum/core/state_transition.py:187-243 | running a contract on the shared state and writing storage back only on success |
| Executor.Create | src/ethereum/core/state_transition.py:246-325 | running init code and storing what it returns |
| Executor.ValueTransfer | src/ethereum/core/state_transition.py:159-184 | a plain transfer with all gas left |
| StateTransition.GasAccounting | src/ethereum/core/state_transition.py:78-121 | gas used plus gas remaining is the gas limit; use is at least the intrinsic cost; failure uses everything |
| StateTransition.FailureOnlyCharges | src/ethereum/core/state_transition.py:103-156 | after any failed execution, however deep, the state is the initial one except that the sender paid gas times price and its nonce rose by one |
| StateTransition.EtherConservedUpToGas | src/ethereum/core/state_transition.py:83-121 | every applied transaction lowers the sum of all balances by exactly gas used times gas price |
| Payments.PlainPayment | src/ethereum/core/state_transition.py:159-184 | a valid transaction to an account without code succeeds for the intrinsic gas; every account's balance is the old one minus value and fee for the sender plus value for the recipient, self-payment included; only the sender's nonce changes otherwise |
| Payments.BalancesAreDue | src/ethereum/core/state_transition.py:83-132 | after any transaction whose code carries out no CALL and no CREATE, or leaves the world alone, every account holds its old balance, minus gas used times price and the value for the sender, plus the value for the recipient or the new contract on success |
| Payments.UnusedGasGoesBack | src/ethereum/core/state_transition.py:114-121 | whatever the code did, after a success the world is the one it left except that the sender has the unused gas back |
| Payments.Returned | src/ethereum/core/state_transition.py:101-156 | return data, contract address and error of the receipt for success, revert and exception |
| Payments.ApplyPaysAsDue | src/ethereum/core/state_transition.py:83-132 | the same as one statement about all accounts, as `apply_transaction` establishes it |
| StateTransition.RunConservesEtherUpToGas | src/ethereum/core/state_transition.py:50-156 | over any run of transactions the sum of balances plus the gas paid for is constant |
| StateTransition.ApplyGrowsNonces | src/ethereum/core/state_transition.py:88-109 | an applied transaction lowers no nonce and raises the sender's |
| StateTransition.NoReplay | src/ethereum/core/tx_validator.py:91-95 | in any run a sender's applied transactions have strictly increasing nonces, so no signed transaction is applied twice |
| StateTransition.AfterKeeps | src/ethereum/core/state_transition.py:50-156 | a world property kept by execution and charging holds after any run of transactions, if the run's creations are at addresses where deployment keeps it |
| StateTransition.RunCreationNonces | src/ethereum/core/state_transition.py:246-300 | no creation of a run, by a transaction or by CREATE at any depth, failed ones included, uses a nonce its creator had used up before the run |
| StateTransition.AfterKeepsWords | src/ethereum/core/state_transition.py:50-156 | after any run of word-sized transactions every storage slot is a word |
| TokenCode.TokenIsToken | src/ethereum/contracts/token.py:122-199 | the 112 bytes are the eleven sections at their offsets |
| TokenCode.HandlersAreJumpDests | src/ethereum/contracts/token.py:75-118 | offsets 63, 92 and 98 are legal jump targets of the bytecode |
| Token.TransferTokensMeaning | src/ethereum/contracts/token.py:46-73 | the abstract transfer: within a supply below 2^256 it moves the amount, changes no third balance, and to self changes nothing |
| Token.TransferMessage | src/ethereum/contracts/token.py:75-104 | bytecode with the transfer selector on any calldata: 10301 gas and the abstract transfer when covered, 185 gas and a revert when not, out of gas below |
| Token.BalanceMessage | src/ethereum/contracts/token.py:102-118 | bytecode with the balanceOf selector returns the balance word for 179 gas |
| Token.TokenMessage | src/ethereum/contracts/token.py:122-199 | any message to the token leaves the world alone and, if it succeeds, its storage is the old one or a covered transfer of it |
| Token.TransferCallReadsBack | src/ethereum/contracts/token.py:203-214 | the calldata of `encode_transfer` is read back by DIV and CALLDATALOAD as selector, recipient and amount |
| Token.BalanceCallReadsBack | src/ethereum/contracts/token.py:217-227 | the same for `encode_balance_of` |
| Abi.SelectorReadsBack | src/ethereum/contracts/abi.py:62-72 | dividing the first calldata word by 2^224 leaves the selector |
| Abi.ArgumentReadsBack | src/ethereum/contracts/abi.py:62-72 | CALLDATALOAD at an argument's offset gives its value |
| Abi.EncodedAddressValue | src/ethereum/contracts/abi.py:45-59 | left padding keeps an address's numeric value |
| Token.TransferKeepsSupply | src/ethereum/contracts/token.py:80-98 | the abstract transfer keeps the sum of all balances, self-transfer included |
| TokenRuns.SupplyConserved | src/ethereum/contracts/token.py:154-180 | over any run of any transactions and contracts, nested calls and failures included, the token's code and supply stay, if no creation of that run derives the token's address |
| TokenRuns.DeployedSupplyConserved | src/ethereum/contracts/token.py:154-180 | for a token at an address derived from a nonce its creator has used up, code and supply stay over any run, or a creation of that run is named whose preimage is another than the token's own and collides with it |
| TokenRuns.LaunchMakesToken | scenarios/03_token.py:125-201 | a deploying transaction with the token's bytecode, and the initial balance written by hand, make a token of supply 1000000 whose nonce of origin is used up |
| TokenRuns.LaunchedSupplyConserved | scenarios/03_token.py:125-201 | from that deployment on, no run of transactions changes the supply of 1000000, or a creation of the run is named that collides with the one that made the token |
| TokenRuns.TransferMessageRefines | src/ethereum/contracts/token.py:154-180 | a message with `encode_transfer` calldata succeeds if and only if the balance covers it and it has 10301 gas, and then stores the abstract result |
| TokenRuns.TransferTransaction | src/ethereum/core/state_transition.py:187-243 | the same for a whole transaction, with its receipt and every account's ether; a failed one leaves the token's storage as it was |
| TokenRuns.BalanceMessageRefines | src/ethereum/contracts/token.py:188-199 | a message with `encode_balance_of` calldata returns the balance if and only if it has 179 gas |
| TokenCalls.TransferThroughContract | src/ethereum/evm/vm.py:879-979 | a contract that forwards `encode_transfer` spends its own tokens, not its caller's; its call reports 1 exactly when they cover the amount and 10301 gas is left, and then the balances are the abstract result and 10301 gas is gone; otherwise nothing changes and the gas sent is gone |
| TokenCalls.BalanceThroughContract | src/ethereum/evm/vm.py:879-979 | a contract that forwards `encode_balance_of` finds the balance in its memory at the return offset, for 179 gas |
| TokenCalls.BalanceTransaction | src/ethereum/core/state_transition.py:187-243 | a transaction with `encode_balance_of` data has the balance as return data on its receipt |
| InitCode.DeployerReturnsRuntime | scenarios/02_counter.py:74-103 | the 12-byte deployer returns exactly the appended runtime code for 18 gas |
| InitCode.CreationTransaction | src/ethereum/core/state_transition.py:246-325 | a creation transaction runs its data as init code, as a message from the sender with the value and no calldata; receipt, address, code and storage are what that run returns and stores |
| InitCode.ConstructorTransaction | src/ethereum/core/state_transition.py:314-325 | with a constructor that stores: exactly when 20039 gas is left the runtime code is installed and the storage names sender, value and address and holds the constructor's word |
| InitCode.DeployTransaction | src/ethereum/core/state_transition.py:302-325 | a creation transaction with that init code succeeds if and only if 18 gas is left after the intrinsic cost, and then stores exactly the runtime code at the derived address and leaves the storage there alone; every account's balance is what is due |
| Chain.HeaderPreimageInjective | src/ethereum/chain/block.py:95-101 | the hashed bytes determine the header |
| Chain.GenesisStartsChain | src/ethereum/chain/block.py:104-124 | the genesis block has the given state root and timestamp, number 0 and no transactions, and starts a chain exactly when it can be hashed, under the all-zero parent hash |
| Chain.CreatedBlockLinks | src/ethereum/chain/block.py:127-153 | a block created on the head names its hash and the next number, carries what it was given, and extends the chain exactly when it can be hashed |
| Chain.Blockchain.constructor | src/ethereum/chain/blockchain.py:31-38 | a chain of the genesis block with its hash cached |
| Chain.Blockchain.AppendBlock | src/ethereum/chain/blockchain.py:50-83 | accepts exactly a block with the head's hash and next number, keeps cached hashes equal to recomputed ones, and changes nothing on rejection |
| Chain.Blockchain.GetBlockByNumber | src/ethereum/chain/blockchain.py:85-102 | the block at that index, or none out of range; in a chain from a number-0 genesis it carries that number |
| Chain.Blockchain.ValidateChain | src/ethereum/chain/blockchain.py:104-118 | for any list of blocks: true if and only if every block names the hash of the one before, false at the first link that does not hold, an error at a block that cannot be hashed before that; so true for every chain built by appending |
| Chain.TamperingDetected | src/ethereum/chain/blockchain.py:104-118 | validation succeeds after replacing a block of such a chain if and only if, below the head, the header is the old one or names the same parent and collides with the old one, and, at the head, names the same parent; transactions are not covered |
| Chain.NumbersAreIndices | src/ethereum/chain/blockchain.py:73-78 | from a number-0 genesis, block i carries number i |
| Chain.TamperEvident | src/ethereum/chain/block.py:78-101 | two chains from genesis whose heads hash alike have identical headers throughout, or a block of the one and a block of the other are named whose headers collide |

## Left out

- Machine.EVM.OpIsZeroOrNot: NOT of an operand of 2^256 or more raises in the model, where Python would push a negative number; `EvmInvariants.AllStatesHoldWords` shows that word-sized inputs never reach this.
- Limits.FailedCallUndoneExactlyWhen: gives no condition for failed calls whose run carries out inner calls but creates nothing, because whether those cancel out depends on all the code they reach; that the world stays as the run left it holds for them too.
- Keccak-256 and secp256k1 themselves and key handling are library calls.
- `modify_account` takes a function from account value to account value instead of a callable that mutates its argument.
- The order in which `sorted` and dictionary iteration do their work is not modelled, only their result.
- Negative header and transaction numbers, which `int_to_rlp_bytes` rejects, are excluded by type.
- The TypeError of `rlp_encode` for values that are neither bytes nor lists is excluded by type.
- The counter contract uses the token's dispatcher and would add a simpler program of the same kind.
- Python's recursion limit, running time and actual memory use.
- The duplicate address and intrinsic-gas helpers in `contracts/address.py` and `evm/gas.py`: one copy of each is modelled.
- `create_genesis_state`, account convenience getters, opcode names, exception messages, timestamps and the scenario scripts' output.
