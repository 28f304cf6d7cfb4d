/** Accounts and the world state as values: what each operation on the state means. */
module Accounts {
  import opened Bytes
  import opened MapSum

  datatype Account = Account(nonce: nat, balance: nat, code: ByteSeq, storage: map<nat, nat>)

  const EMPTY_ACCOUNT: Account := Account(0, 0, [], map[])

  type World = map<ByteSeq, Account>

  function Get(w: World, a: ByteSeq): Account {
    if a in w then w[a] else EMPTY_ACCOUNT
  }

  function AddBalance(w: World, a: ByteSeq, amount: nat): World {
    w[a := Get(w, a).(balance := Get(w, a).balance + amount)]
  }

  /** `deduct_balance`; None stands for its ValueError. */
  function DeductBalance(w: World, a: ByteSeq, amount: nat): Option<World> {
    if Get(w, a).balance < amount then None
    else Some(w[a := Get(w, a).(balance := Get(w, a).balance - amount)])
  }

  function IncrementNonce(w: World, a: ByteSeq): World {
    w[a := Get(w, a).(nonce := Get(w, a).nonce + 1)]
  }

  function Transfer(w: World, sender: ByteSeq, recipient: ByteSeq, amount: nat): Option<World> {
    if amount == 0 then Some(w) else
      var paid :- DeductBalance(w, sender, amount);
      Some(AddBalance(paid, recipient, amount))
  }

  function SetCode(w: World, a: ByteSeq, code: ByteSeq): World {
    w[a := Get(w, a).(code := code)]
  }

  function SetStorage(w: World, a: ByteSeq, key: nat, value: nat): World {
    w[a := Get(w, a).(storage := Get(w, a).storage[key := value])]
  }

  /** One `set_storage` per entry of a finished frame's storage; an empty storage touches nothing. */
  function Persist(w: World, a: ByteSeq, storage: map<nat, nat>): World {
    if storage == map[] then w else w[a := Get(w, a).(storage := Get(w, a).storage + storage)]
  }

  // ----- total ether -----

  ghost function Balances(w: World): map<ByteSeq, nat> {
    map a | a in w :: w[a].balance
  }

  ghost function TotalEther(w: World): nat {
    Sum(Balances(w))
  }

  lemma TotalAfterUpdate(w: World, a: ByteSeq, acct: Account)
    ensures TotalEther(w[a := acct]) == TotalEther(w) - Get(w, a).balance + acct.balance
  {
    SumUpdate(Balances(w), a, acct.balance);
    assert Balances(w[a := acct]) == Balances(w)[a := acct.balance];
  }

  lemma TransferConservesEther(w: World, sender: ByteSeq, recipient: ByteSeq, amount: nat)
    requires Transfer(w, sender, recipient, amount).Some?
    ensures TotalEther(Transfer(w, sender, recipient, amount).value) == TotalEther(w)
  {
    if amount > 0 {
      var paid := DeductBalance(w, sender, amount).value;
      TotalAfterUpdate(w, sender, Get(paid, sender));
      TotalAfterUpdate(paid, recipient, Get(AddBalance(paid, recipient, amount), recipient));
    }
  }
}
