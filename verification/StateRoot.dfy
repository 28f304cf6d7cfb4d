/** The state root: the hash of all accounts in address order. */
module StateRoot {
  import opened Bytes
  import opened Rlp
  import opened Environment
  import opened Accounts

  // ----- address order -----

  /** Python's order on byte strings. */
  predicate Before(a: ByteSeq, b: ByteSeq) {
    if a == [] then b != []
    else if b == [] then false
    else a[0] < b[0] || (a[0] == b[0] && Before(a[1..], b[1..]))
  }

  lemma {:induction false} BeforeTotal(a: ByteSeq, b: ByteSeq)
    ensures a == b || Before(a, b) || Before(b, a)
    ensures !(Before(a, b) && Before(b, a))
    ensures !Before(a, a)
  {
    if a != [] && b != [] && a[0] == b[0] {
      BeforeTotal(a[1..], b[1..]);
      assert a == [a[0]] + a[1..] && b == [b[0]] + b[1..];
    }
    if a != [] { BeforeTotal(a[1..], a[1..]); }
  }

  lemma {:induction false} BeforeTransitive(a: ByteSeq, b: ByteSeq, c: ByteSeq)
    requires Before(a, b) && Before(b, c)
    ensures Before(a, c)
  {
    if a != [] && b != [] && c != [] && a[0] == b[0] == c[0] { BeforeTransitive(a[1..], b[1..], c[1..]); }
  }

  predicate First(ks: set<ByteSeq>, m: ByteSeq) {
    m in ks && forall k :: k in ks ==> k == m || Before(m, k)
  }

  lemma {:induction false} FirstExists(ks: set<ByteSeq>)
    requires ks != {}
    ensures exists m :: First(ks, m)
    decreases |ks|
  {
    var k :| k in ks;
    var rest := ks - {k};
    if rest == {} {
      assert ks == {k};
      assert First(ks, k);
    } else {
      FirstExists(rest);
      var m :| First(rest, m);
      BeforeTotal(k, m);
      if Before(k, m) {
        forall j | j in ks ensures j == k || Before(k, j) {
          if j != k && j != m { BeforeTransitive(k, m, j); }
        }
        assert First(ks, k);
      } else {
        assert First(ks, m);
      }
    }
  }

  lemma FirstUnique(ks: set<ByteSeq>, m: ByteSeq, n: ByteSeq)
    requires First(ks, m) && First(ks, n)
    ensures m == n
  {
    BeforeTotal(m, n);
  }

  ghost function Sorted(ks: set<ByteSeq>): seq<ByteSeq> {
    if ks == {} then [] else
      FirstExists(ks);
      var m :| First(ks, m);
      [m] + Sorted(ks - {m})
  }

  lemma {:induction false} SortedHolds(ks: set<ByteSeq>)
    ensures (set k | k in Sorted(ks)) == ks
    ensures forall k :: k in Sorted(ks) <==> k in ks
    ensures forall i, j | 0 <= i < j < |Sorted(ks)| :: Before(Sorted(ks)[i], Sorted(ks)[j])
  {
    if ks != {} {
      var s := Sorted(ks);
      SortedHolds(ks - {s[0]});
      assert s == [s[0]] + Sorted(ks - {s[0]});
    }
  }

  /** `sorted(keys)` */
  method SortKeys(ks: set<ByteSeq>) returns (s: seq<ByteSeq>)
    ensures s == Sorted(ks)
  {
    s := [];
    var rest := ks;
    while rest != {}
      invariant s + Sorted(rest) == Sorted(ks)
      decreases |rest|
    {
      FirstExists(rest);
      var m :| m in rest && forall k :: k in rest ==> k == m || Before(m, k);
      assert First(rest, m);
      FirstUnique(rest, m, Sorted(rest)[0]);
      assert s + Sorted(rest) == (s + [m]) + Sorted(rest - {m});
      s := s + [m];
      rest := rest - {m};
    }
    assert s + [] == s;
  }

  // ----- the preimage -----

  function Record(address: ByteSeq, a: Account): Item {
    List([Str(address), Str(IntToRlpBytes(a.nonce)), Str(IntToRlpBytes(a.balance)), Str(a.code)])
  }

  function Records(w: World, keys: seq<ByteSeq>): (r: seq<Item>)
    requires forall k :: k in keys ==> k in w
    ensures |r| == |keys|
    ensures forall i | 0 <= i < |keys| :: r[i] == Record(keys[i], w[keys[i]])
  {
    if keys == [] then [] else Records(w, keys[..|keys| - 1]) + [Record(keys[|keys| - 1], w[keys[|keys| - 1]])]
  }

  /** What `state_root_placeholder` hashes. */
  ghost function RootPreimage(w: World): Option<ByteSeq> {
    SortedHolds(w.Keys);
    EncodeAll(Records(w, Sorted(w.Keys)))
  }

  ghost function Root(env: Env, w: World): Option<Hash> {
    var preimage :- RootPreimage(w);
    Some(env.keccak(preimage))
  }

  /** The part of an account the root covers. */
  datatype Covered = Covered(nonce: nat, balance: nat, code: ByteSeq)

  function CoveredPart(w: World): map<ByteSeq, Covered> {
    map a | a in w :: Covered(w[a].nonce, w[a].balance, w[a].code)
  }

  lemma RecordInjective(x: ByteSeq, a: Account, y: ByteSeq, b: Account)
    requires Record(x, a) == Record(y, b)
    ensures x == y && a == b.(storage := a.storage)
  {
    hide IntToRlpBytes;
    var p, q := Record(x, a).items, Record(y, b).items;
    assert p[0] == q[0] && p[1] == q[1] && p[2] == q[2] && p[3] == q[3];
    IntToRlpBytesInjective(a.nonce, b.nonce);
    IntToRlpBytesInjective(a.balance, b.balance);
  }

  lemma EqualPreimagesEqualRecords(v: World, w: World)
    requires RootPreimage(v).Some? && RootPreimage(v) == RootPreimage(w)
    ensures var kv := Sorted(v.Keys);
      kv == Sorted(w.Keys) &&
      forall i | 0 <= i < |kv| ::
        kv[i] in v && kv[i] in w && v[kv[i]] == w[kv[i]].(storage := v[kv[i]].storage)
  {
    hide EncodeAll, Record;
    SortedHolds(v.Keys);
    SortedHolds(w.Keys);
    var kv, kw := Sorted(v.Keys), Sorted(w.Keys);
    RecordsReadable(v, kv);
    RecordsReadable(w, kw);
    ConcatInjective(Records(v, kv), Records(w, kw));
    forall i | 0 <= i < |kv|
      ensures kv[i] == kw[i] && v[kv[i]] == w[kw[i]].(storage := v[kv[i]].storage)
    {
      assert Records(v, kv)[i] == Records(w, kw)[i];
      RecordInjective(kv[i], v[kv[i]], kw[i], w[kw[i]]);
    }
  }

  /** Two states have the same preimage exactly when they have the same accounts with the same nonce, balance
      and code; storage is not covered. */
  lemma RootPreimageInjective(v: World, w: World)
    requires RootPreimage(v).Some? && RootPreimage(w).Some?
    ensures RootPreimage(v) == RootPreimage(w) <==> CoveredPart(v) == CoveredPart(w)
  {
    hide EncodeAll, Records;
    SortedHolds(v.Keys);
    SortedHolds(w.Keys);
    if RootPreimage(v) == RootPreimage(w) {
      hide RootPreimage;
      EqualPreimagesEqualRecords(v, w);
      var kv := Sorted(v.Keys);
      forall a | a in v ensures a in w && CoveredPart(v)[a] == CoveredPart(w)[a] {
        var i :| 0 <= i < |kv| && kv[i] == a;
      }
    }
    if CoveredPart(v) == CoveredPart(w) {
      SameRecords(v, w, Sorted(v.Keys));
    }
  }

  lemma RecordsReadable(w: World, keys: seq<ByteSeq>)
    requires forall k :: k in keys ==> k in w
    ensures AllReadable(Records(w, keys))
  {}

  lemma SameRecords(v: World, w: World, keys: seq<ByteSeq>)
    requires CoveredPart(v) == CoveredPart(w) && forall k :: k in keys ==> k in v
    ensures v.Keys == w.Keys && Records(v, keys) == Records(w, keys)
  {
    assert CoveredPart(v).Keys == v.Keys && CoveredPart(w).Keys == w.Keys;
    forall i | 0 <= i < |keys| ensures Records(v, keys)[i] == Records(w, keys)[i] {
      assert keys[i] in keys;
      assert CoveredPart(v)[keys[i]] == CoveredPart(w)[keys[i]];
    }
  }

  /** Equal roots mean equal covered state, or an explicit hash collision. */
  lemma RootBindsState(env: Env, v: World, w: World)
    requires Root(env, v).Some? && Root(env, v) == Root(env, w)
    ensures CoveredPart(v) == CoveredPart(w) || Collision(env, RootPreimage(v).value, RootPreimage(w).value)
  {
    hide RootPreimage;
    RootPreimageInjective(v, w);
  }

  /** A root does not tell apart two states that differ only in storage. */
  lemma RootIgnoresStorage(env: Env, a: ByteSeq)
    ensures var v: World := map[a := EMPTY_ACCOUNT.(storage := map[0 := 1])];
      var w: World := map[a := EMPTY_ACCOUNT];
      v != w && RootPreimage(v) == RootPreimage(w)
  {
    var v: World := map[a := EMPTY_ACCOUNT.(storage := map[0 := 1])];
    var w: World := map[a := EMPTY_ACCOUNT];
    assert 0 in v[a].storage && 0 !in w[a].storage;
    SortedHolds(v.Keys);
    SameRecords(v, w, Sorted(v.Keys));
  }
}
