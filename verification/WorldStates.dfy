/** The world state as the program keeps it: a dictionary of account objects, copied before every change. */
module WorldStates {
  import opened Bytes
  import opened Rlp
  import opened Environment
  import opened Accounts
  import opened StateRoot

  /** A storage dictionary: an object of its own, which its holders share or copy. */
  class Storage {
    var slots: map<nat, nat>

    constructor (slots: map<nat, nat>)
      ensures this.slots == slots
    {
      this.slots := slots;
    }

    method Put(key: nat, value: nat)
      modifies this
      ensures slots == old(slots)[key := value]
    {
      slots := slots[key := value];
    }
  }

  class AccountRecord {
    var nonce: nat
    var balance: nat
    var code: ByteSeq
    const storage: Storage

    constructor (a: Account)
      ensures Value() == a && fresh(storage)
    {
      nonce, balance, code := a.nonce, a.balance, a.code;
      storage := new Storage(a.storage);
    }

    function Value(): Account
      reads this, storage
    {
      Account(nonce, balance, code, storage.slots)
    }

    /** `copy.deepcopy`: a new account with a storage dictionary of its own. */
    method Copy() returns (c: AccountRecord)
      ensures fresh(c) && fresh(c.storage) && c.Value() == Value()
    {
      c := new AccountRecord(Value());
    }

    method Assign(a: Account)
      modifies this, storage
      ensures Value() == a
    {
      nonce, balance, code, storage.slots := a.nonce, a.balance, a.code, a.storage;
    }
  }

  /** A dictionary of account objects, whose storage dictionaries are among `dicts`, stands for the state `w`. */
  ghost predicate Represents(records: map<ByteSeq, AccountRecord>, dicts: set<Storage>, w: World)
    reads records.Values, dicts
  {
    && records.Keys == w.Keys
    && forall a :: a in records ==>
         records[a] in records.Values && records[a].storage in dicts && records[a].Value() == w[a]
  }

  /** `copy.deepcopy` of a dictionary of accounts. */
  method CopyRecords(records: map<ByteSeq, AccountRecord>, ghost dicts: set<Storage>, ghost w: World)
    returns (s: map<ByteSeq, AccountRecord>, ghost copies: set<Storage>)
    requires Represents(records, dicts, w)
    ensures Represents(s, copies, w) && fresh(s.Values) && fresh(copies)
    decreases |records|
  {
    hide Represents;
    if records == map[] {
      NothingRepresented(records, dicts, w);
      return map[], {};
    }
    var a :| a in records;
    RecordRemoved(records, dicts, w, a);
    var rest, others := CopyRecords(records - {a}, dicts, w - {a});
    var copied := records[a].Copy();
    s, copies := rest[a := copied], others + {copied.storage};
    RecordAdded(rest, others, w - {a}, a, copied);
    ValuesOfUpdate(rest, a, copied);
    RestoreEntry(w, a);
  }

  lemma NothingRepresented(records: map<ByteSeq, AccountRecord>, dicts: set<Storage>, w: World)
    requires Represents(records, dicts, w) && records == map[]
    ensures w == map[] && Represents(records, {}, w)
  {}

  lemma RestoreEntry(w: World, a: ByteSeq)
    requires a in w
    ensures (w - {a})[a := w[a]] == w
  {}

  lemma RecordRemoved(records: map<ByteSeq, AccountRecord>, dicts: set<Storage>, w: World, a: ByteSeq)
    requires Represents(records, dicts, w) && a in records
    ensures Represents(records - {a}, dicts, w - {a}) && |records - {a}| < |records|
    ensures a in w && records[a].Value() == w[a] && (records - {a}).Values <= records.Values
    ensures records[a] in records.Values && records[a].storage in dicts
  {
    var others := records - {a};
    forall x | x in others ensures others[x] in others.Values && others[x] in records.Values {}
    assert others.Keys == records.Keys - {a};
    assert |others.Keys| < |records.Keys|;
  }

  lemma ValuesOfUpdate<K, V>(m: map<K, V>, k: K, v: V)
    ensures m[k := v].Values <= m.Values + {v}
  {}

  lemma RecordAdded(records: map<ByteSeq, AccountRecord>, dicts: set<Storage>, w: World, a: ByteSeq, r: AccountRecord)
    requires Represents(records, dicts, w)
    ensures Represents(records[a := r], dicts + {r.storage}, w[a := r.Value()])
  {
    var s := records[a := r];
    forall x | x in s ensures s[x] in s.Values {}
  }

  class WorldState {
    var records: map<ByteSeq, AccountRecord>
    /** EMPTY_ACCOUNT, handed out for every missing address and never changed. */
    const empty: AccountRecord
    ghost var contents: World
    /** The storage dictionaries the state holds on to. */
    ghost var dicts: set<Storage>

    ghost predicate Valid()
      reads this, records.Values, empty, dicts
    {
      Represents(records, dicts, contents) && empty.storage in dicts && empty.Value() == EMPTY_ACCOUNT
    }

    constructor ()
      ensures Valid() && fresh(empty) && fresh(dicts) && contents == map[]
    {
      records := map[];
      empty := new AccountRecord(EMPTY_ACCOUNT);
      contents, dicts := map[], {};
      new;
      dicts := {empty.storage};
    }

    method GetAccount(a: ByteSeq) returns (r: AccountRecord)
      requires Valid()
      ensures r.Value() == Get(contents, a) && (r == empty || r in records.Values) && r.storage in dicts
    {
      if a in records { return records[a]; }
      return empty;
    }

    /** A deep copy is changed and put in place, so objects handed out or snapshot before keep their values. */
    method ModifyAccount(a: ByteSeq, modifier: Account -> Account)
      requires Valid()
      modifies this
      ensures Valid() && contents == old(contents)[a := modifier(Get(old(contents), a))]
      ensures fresh(dicts - old(dicts))
    {
      hide Represents;
      var current := GetAccount(a);
      var account := current.Copy();
      account.Assign(modifier(account.Value()));
      RecordAdded(records, dicts, contents, a, account);
      records := records[a := account];
      contents, dicts := contents[a := account.Value()], dicts + {account.storage};
    }

    /** A deep copy of every account and its storage: nothing done to the state later can reach it. */
    method Snapshot() returns (s: map<ByteSeq, AccountRecord>, ghost copies: set<Storage>)
      requires Valid()
      ensures Represents(s, copies, contents) && fresh(s.Values) && fresh(copies)
    {
      s, copies := CopyRecords(records, dicts, contents);
    }

    method Revert(s: map<ByteSeq, AccountRecord>, ghost copies: set<Storage>, ghost saved: World)
      requires Valid() && Represents(s, copies, saved)
      modifies this
      ensures Valid() && contents == saved && dicts == copies + {empty.storage}
    {
      records := s;
      contents, dicts := saved, copies + {empty.storage};
    }

    method AddTo(a: ByteSeq, amount: nat)
      requires Valid()
      modifies this
      ensures Valid() && contents == AddBalance(old(contents), a, amount)
      ensures fresh(dicts - old(dicts))
    {
      hide Valid, Represents;
      ModifyAccount(a, (x: Account) => x.(balance := x.balance + amount));
    }

    /** False stands for the ValueError of a balance too small; then nothing has changed. */
    method DeductFrom(a: ByteSeq, amount: nat) returns (ok: bool)
      requires Valid()
      modifies this
      ensures Valid()
      ensures fresh(dicts - old(dicts))
      ensures ok == DeductBalance(old(contents), a, amount).Some?
      ensures contents == if ok then DeductBalance(old(contents), a, amount).value else old(contents)
    {
      hide Valid, Represents;
      var account := GetAccount(a);
      if account.balance < amount { return false; }
      ModifyAccount(a, (x: Account) => x.(balance := if x.balance >= amount then x.balance - amount else 0));
      return true;
    }

    method IncrementNonceOf(a: ByteSeq)
      requires Valid()
      modifies this
      ensures Valid() && contents == IncrementNonce(old(contents), a)
      ensures fresh(dicts - old(dicts))
    {
      hide Valid, Represents;
      ModifyAccount(a, (x: Account) => x.(nonce := x.nonce + 1));
    }

    method TransferValue(sender: ByteSeq, recipient: ByteSeq, amount: nat) returns (ok: bool)
      requires Valid()
      modifies this
      ensures Valid()
      ensures fresh(dicts - old(dicts))
      ensures ok == Transfer(old(contents), sender, recipient, amount).Some?
      ensures contents == if ok then Transfer(old(contents), sender, recipient, amount).value else old(contents)
    {
      hide Valid, Represents;
      if amount == 0 { return true; }
      ok := DeductFrom(sender, amount);
      if ok { AddTo(recipient, amount); }
    }

    method StoreCode(a: ByteSeq, code: ByteSeq)
      requires Valid()
      modifies this
      ensures Valid() && contents == SetCode(old(contents), a, code)
      ensures fresh(dicts - old(dicts))
    {
      hide Valid, Represents;
      ModifyAccount(a, (x: Account) => x.(code := code));
    }

    method StoreSlot(a: ByteSeq, key: nat, value: nat)
      requires Valid()
      modifies this
      ensures Valid() && contents == SetStorage(old(contents), a, key, value)
      ensures fresh(dicts - old(dicts))
    {
      hide Valid, Represents;
      ModifyAccount(a, (x: Account) => x.(storage := x.storage[key := value]));
    }

    /** The loop that writes a finished frame's storage back, one slot at a time in any order. */
    method PersistStorage(a: ByteSeq, storage: map<nat, nat>)
      requires Valid()
      modifies this
      ensures Valid() && contents == Persist(old(contents), a, storage)
      ensures fresh(dicts - old(dicts))
    {
      hide Valid, Represents, Persist, SetStorage, Shares;
      var todo := storage;
      ghost var done: map<nat, nat> := map[];
      PersistNothing(contents, a);
      NothingDone(storage);
      while todo != map[]
        invariant Valid()
        invariant Shares(storage, done, todo)
        invariant contents == Persist(old(contents), a, done)
        invariant fresh(dicts - old(dicts))
        decreases |todo|
      {
        var key :| key in todo;
        StoreSlot(a, key, todo[key]);
        PersistOneMore(old(contents), a, done, key, todo[key]);
        MoveEntry(storage, done, todo, key);
        Shrinks(todo, key);
        done := done[key := todo[key]];
        todo := todo - {key};
      }
      AllDone(storage, done);
    }

    method StateRootPlaceholder(env: Env) returns (r: Option<Hash>)
      requires Valid()
      ensures r == Root(env, contents)
    {
      hide EncodeAll, RlpEncode, Record, Sorted, Represents, Records;
      assert EncodeAll([]) == Some([]) by { EncodeNothing(); }
      var keys := SortKeys(records.Keys);
      SortedHolds(records.Keys);
      KeysAgree(records, dicts, contents);
      ghost var recs := Records(contents, keys);
      var preimage: ByteSeq := [];
      for i := 0 to |keys|
        invariant EncodeAll(recs[..i]) == Some(preimage)
      {
        RecordOf(records, dicts, contents, keys[i]);
        var encoded := RlpEncode(Record(keys[i], records[keys[i]].Value()));
        EncodeAllAppend(recs[..i], recs[i]);
        assert recs[..i] + [recs[i]] == recs[..i + 1];
        if encoded.None? {
          EncodeAllPrefix(recs, i + 1);
          return None;
        }
        preimage := preimage + encoded.value;
      }
      assert recs[..|keys|] == recs;
      return Some(env.keccak(preimage));
    }
  }

  lemma KeysAgree(records: map<ByteSeq, AccountRecord>, dicts: set<Storage>, w: World)
    requires Represents(records, dicts, w)
    ensures records.Keys == w.Keys
  {}

  lemma RecordOf(records: map<ByteSeq, AccountRecord>, dicts: set<Storage>, w: World, a: ByteSeq)
    requires Represents(records, dicts, w) && a in w
    ensures a in records && records[a].Value() == w[a]
  {}

  lemma PersistNothing(w: World, a: ByteSeq)
    ensures Persist(w, a, map[]) == w
  {}

  /** `done` and `todo` share out the entries of `all`. */
  ghost predicate Shares(all: map<nat, nat>, done: map<nat, nat>, todo: map<nat, nat>) {
    && done.Keys + todo.Keys == all.Keys && done.Keys !! todo.Keys
    && (forall k :: k in done ==> done[k] == all[k])
    && (forall k :: k in todo ==> todo[k] == all[k])
  }

  lemma MoveEntry(all: map<nat, nat>, done: map<nat, nat>, todo: map<nat, nat>, key: nat)
    requires Shares(all, done, todo) && key in todo
    ensures Shares(all, done[key := todo[key]], todo - {key})
  {
    var d, t := done[key := todo[key]], todo - {key};
    assert d.Keys == done.Keys + {key} && t.Keys == todo.Keys - {key};
  }

  lemma Shrinks(todo: map<nat, nat>, key: nat)
    requires key in todo
    ensures |todo - {key}| < |todo|
  {
    assert (todo - {key}).Keys == todo.Keys - {key};
    assert |(todo - {key}).Keys| < |todo.Keys|;
  }

  lemma NothingDone(all: map<nat, nat>)
    ensures Shares(all, map[], all)
  {}

  lemma AllDone(all: map<nat, nat>, done: map<nat, nat>)
    requires Shares(all, done, map[])
    ensures done == all
  {}

  lemma PersistOneMore(w: World, a: ByteSeq, done: map<nat, nat>, key: nat, value: nat)
    ensures SetStorage(Persist(w, a, done), a, key, value) == Persist(w, a, done[key := value])
  {
    var before := Get(w, a).storage;
    assert (before + done)[key := value] == before + done[key := value];
    assert before + map[] == before;
    assert key in done[key := value];
    var acct := Get(w, a).(storage := before + done);
    assert w[a := acct][a := acct.(storage := acct.storage[key := value])] ==
           w[a := acct.(storage := acct.storage[key := value])];
  }

  lemma {:induction false} EncodeAllAppend(xs: seq<Item>, x: Item)
    ensures EncodeAll(xs + [x]) ==
      if EncodeAll(xs).Some? && RlpEncode(x).Some? then Some(EncodeAll(xs).value + RlpEncode(x).value) else None
  {
    hide RlpEncode;
    if xs == [] {
      assert xs + [x] == [x] && [x][1..] == [];
      if RlpEncode(x).Some? { assert RlpEncode(x).value + [] == [] + RlpEncode(x).value; }
    } else {
      EncodeAllAppend(xs[1..], x);
      assert (xs + [x])[1..] == xs[1..] + [x] && (xs + [x])[0] == xs[0];
      if EncodeAll(xs).Some? && RlpEncode(x).Some? {
        var h, t, e := RlpEncode(xs[0]).value, EncodeAll(xs[1..]).value, RlpEncode(x).value;
        assert h + (t + e) == (h + t) + e;
      }
    }
  }

  lemma EncodeNothing()
    ensures EncodeAll([]) == Some([])
  {}

  lemma {:induction false} EncodeAllPrefix(xs: seq<Item>, n: nat)
    requires n <= |xs| && EncodeAll(xs[..n]).None?
    ensures EncodeAll(xs).None?
    decreases |xs| - n
  {
    hide RlpEncode;
    if n == |xs| {
      assert xs[..n] == xs;
    } else {
      EncodeAllAppend(xs[..n], xs[n]);
      assert xs[..n] + [xs[n]] == xs[..n + 1];
      EncodeAllPrefix(xs, n + 1);
    }
  }
}
