/** The token used by contracts and by transactions: who spends, what comes back, and what it costs. */
module TokenCalls {
  import opened Bytes
  import opened Words
  import opened Environment
  import opened Accounts
  import opened Transactions
  import opened Evm
  import opened WorldInvariants
  import opened StateTransition
  import opened TokenCode
  import opened Token
  import opened TokenRuns
  import opened Payments
  import opened Limits
  import opened Forwarding
  import opened Contexts
  import EvmMemory

  /** A contract that forwards `encode_transfer(to, amount)` to the token spends its own tokens, not those of whoever
      called it. Its call reports 1 exactly when its tokens cover the amount and 10301 gas is left for the token; then
      the balances are the abstract result and 10301 gas is gone. Otherwise no balance changes and all the gas sent is
      gone. */
  lemma TransferThroughContract(env: Env, token: ByteSeq, ctx: Context, storage: map<nat, nat>, gas: nat, w: World,
                                to: ByteSeq, amount: nat)
    requires |token| == 20 && Get(w, token).code == TOKEN_RUNTIME_BYTECODE
    requires SelectorsMatch(env) && EncodeTransfer(env, to, amount) == Some(ctx.data)
    requires env.maxMemory >= 160 && gas >= FORWARD_GAS && ctx.value <= Get(w, ctx.address).balance
    ensures var o := Run(env, Job(Forwarder(token), ctx, true), Fresh(gas, storage), w);
      var s, self := Get(w, token).storage, FromBE(ctx.address);
      var done := amount <= Slot(s, self) && gas >= FORWARD_GAS + TRANSFER_GAS;
      && o.Done? && !o.f.reverted && o.f.stack == [if done then 1 else 0] && o.f.storage == storage
      && Get(o.w, token).storage == (if done then TransferTokens(s, self, FromBE(to), amount) else s)
      && o.f.gas == gas - FORWARD_GAS - (if done then TRANSFER_GAS else Sent(gas))
  {
    hide Run, FromBE, Forwarder, Transfer, TransferTokens, EncodeTransfer, SelectorsMatch, Window, Persist;
    TokenNotEmpty();
    CalldataLength(env, to, amount);
    CoversValue(w, ctx.address, token, ctx.value);
    TransferKeepsCode(w, ctx.address, token, ctx.value, token);
    var w1 := Transfer(w, ctx.address, token, ctx.value).value;
    ForwardsMessage(env, token, ctx, storage, gas, w);
    TransferMessageRefines(env, w1, token, Onward(token, ctx), Sent(gas), to, amount);
    var c := Message(env, w1, token, Onward(token, ctx), Sent(gas));
    if Succeeded(c) {
      PersistStorage(c.w, token, c.f.storage);
      MergeTransfer(Get(w, token).storage, c.f.storage, FromBE(ctx.address), FromBE(to), amount);
    }
  }

  lemma CalldataLength(env: Env, to: ByteSeq, amount: nat)
    requires EncodeTransfer(env, to, amount).Some?
    ensures |EncodeTransfer(env, to, amount).value| == 68 && EvmMemory.RoundUp32(68) == 96
  {}

  lemma QueryLength(env: Env, who: ByteSeq)
    requires EncodeBalanceOf(env, who).Some?
    ensures |EncodeBalanceOf(env, who).value| == 36 && EvmMemory.RoundUp32(36) == 64
  {}

  /** A contract that forwards `encode_balance_of(who)` finds who's balance in its memory, for 179 gas. */
  lemma BalanceThroughContract(env: Env, token: ByteSeq, ctx: Context, storage: map<nat, nat>, gas: nat, w: World,
                               who: ByteSeq)
    requires |token| == 20 && Get(w, token).code == TOKEN_RUNTIME_BYTECODE
    requires SelectorsMatch(env) && EncodeBalanceOf(env, who) == Some(ctx.data)
    requires env.maxMemory >= 160 && gas >= FORWARD_GAS && ctx.value <= Get(w, ctx.address).balance
    requires IsWord(Slot(Get(w, token).storage, FromBE(who)))
    ensures var o := Run(env, Job(Forwarder(token), ctx, true), Fresh(gas, storage), w);
      var s := Get(w, token).storage; var done := gas >= FORWARD_GAS + BALANCE_GAS;
      && o.Done? && !o.f.reverted && o.f.stack == [if done then 1 else 0] && Get(o.w, token).storage == s
      && (done ==> FromBE(Window(o.f.mem, 128, 32)) == Slot(s, FromBE(who)))
      && o.f.gas == gas - FORWARD_GAS - (if done then BALANCE_GAS else Sent(gas))
  {
    hide Run, FromBE, Forwarder, Transfer, EncodeBalanceOf, SelectorsMatch, Window, Persist, WordBytes;
    TokenNotEmpty();
    QueryLength(env, who);
    CoversValue(w, ctx.address, token, ctx.value);
    TransferKeepsCode(w, ctx.address, token, ctx.value, token);
    var w1 := Transfer(w, ctx.address, token, ctx.value).value;
    var s := Get(w, token).storage;
    ForwardsMessage(env, token, ctx, storage, gas, w);
    BalanceMessageRefines(env, w1, token, Onward(token, ctx), Sent(gas), who);
    var c := Message(env, w1, token, Onward(token, ctx), Sent(gas));
    if Succeeded(c) {
      PersistStorage(c.w, token, c.f.storage);
      assert s + s == s;
      WordBytesRoundTrip(Slot(s, FromBE(who)));
      WholeWindow(c.f.ret);
      NotEmptyWord(Slot(s, FromBE(who)));
    }
  }

  lemma NotEmptyWord(v: nat)
    requires IsWord(v)
    ensures WordBytes(v) != []
  {
    assert |WordBytes(v)| == 32;
  }

  /** A transaction that asks the token for a balance has it as return data on its receipt. */
  lemma BalanceTransaction(env: Env, tx: Transaction, w: World, limit: nat, who: ByteSeq)
    requires Validate(env, tx, w, limit).Valid?
    requires tx.to != [] && Get(w, tx.to).code == TOKEN_RUNTIME_BYTECODE
    requires SelectorsMatch(env) && EncodeBalanceOf(env, who) == Some(tx.data)
    requires env.maxMemory >= 32 && IsWord(Slot(Get(w, tx.to).storage, FromBE(who)))
    ensures var r := Apply(env, tx, w, limit); var s := Get(w, tx.to).storage;
      && (r.receipt.success <==> tx.gas >= IntrinsicGas(tx.data) + BALANCE_GAS)
      && (r.receipt.success ==>
           FromBE(r.receipt.returnData) == Slot(s, FromBE(who)) && |r.receipt.returnData| == 32
           && r.receipt.gasUsed == IntrinsicGas(tx.data) + BALANCE_GAS)
      && Get(r.w, tx.to).storage == s
  {
    hide Run, FromBE, EncodeBalanceOf, SelectorsMatch, WordBytes, IntrinsicGas, Fee, Transfer, Apply, Charged, Validate;
    TokenNotEmpty();
    var sender, charged, s := Sender(env, tx), Charged(env, tx, w, limit), Get(w, tx.to).storage;
    ContractTransaction(env, tx, w, limit);
    AppliedWhenValid(env, tx, w, limit);
    GasAccounting(env, tx, w, limit);
    ChargedAccount(env, tx, w, limit, tx.to);
    TransferKeepsCode(charged, sender, tx.to, tx.value, tx.to);
    var w1 := Transfer(charged, sender, tx.to, tx.value).value;
    BalanceMessageRefines(env, w1, tx.to, Context(sender, tx.to, tx.value, tx.data), tx.gas - IntrinsicGas(tx.data),
        who);
    WordBytesRoundTrip(Slot(s, FromBE(who)));
    assert s + s == s;
    FailedStorage(env, tx, w, limit, tx.to);
  }
}
