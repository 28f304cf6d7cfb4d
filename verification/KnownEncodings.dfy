/** The encodings byte by byte: prefixes, lengths and the order of the fields in everything that is hashed. */
module KnownEncodings {
  import opened Bytes
  import opened Rlp
  import opened Environment
  import opened Accounts
  import opened Transactions
  import opened StateRoot
  import opened Chain

  // ----- RLP -----

  /** Numbers are big-endian, and 0 is no byte at all. */
  lemma NumberBytes(n: nat)
    ensures IntToRlpBytes(0) == []
    ensures 0 < n < 256 ==> IntToRlpBytes(n) == [n]
    ensures 256 <= n < 65536 ==> IntToRlpBytes(n) == [n / 256, n % 256]
  {
    hide IntToRlpBytes;
    IntToRlpBytesUnique(0, []);
    if 0 < n < 256 {
      assert FromBE([n]) == n;
      IntToRlpBytesUnique(n, [n]);
    } else if 256 <= n < 65536 {
      var s := [n / 256, n % 256];
      assert s[..1] == [n / 256] && FromBE([n / 256]) == n / 256;
      IntToRlpBytesUnique(n, s);
    }
  }

  /** The four forms of a string below 64 kilobytes. */
  lemma StringForms(s: ByteSeq)
    ensures |s| == 1 && s[0] < 0x80 ==> RlpEncode(Str(s)) == Some(s)
    ensures |s| <= 55 && (|s| != 1 || s[0] >= 0x80) ==> RlpEncode(Str(s)) == Some([0x80 + |s|] + s)
    ensures 56 <= |s| < 256 ==> RlpEncode(Str(s)) == Some([0xB8, |s|] + s)
    ensures 256 <= |s| < 65536 ==> RlpEncode(Str(s)) == Some([0xB9, |s| / 256, |s| % 256] + s)
  {
    hide IntToRlpBytes;
    NumberBytes(|s|);
    if 56 <= |s| < 256 { assert [0xB8] + [|s|] == [0xB8, |s|]; }
    if 256 <= |s| < 65536 { assert [0xB9] + [|s| / 256, |s| % 256] == [0xB9, |s| / 256, |s| % 256]; }
  }

  /** The three forms of a list whose members take less than 64 kilobytes. */
  lemma ListForms(xs: seq<Item>, p: ByteSeq)
    requires EncodeAll(xs) == Some(p)
    ensures |p| <= 55 ==> RlpEncode(List(xs)) == Some([0xC0 + |p|] + p)
    ensures 56 <= |p| < 256 ==> RlpEncode(List(xs)) == Some([0xF8, |p|] + p)
    ensures 256 <= |p| < 65536 ==> RlpEncode(List(xs)) == Some([0xF9, |p| / 256, |p| % 256] + p)
  {
    hide IntToRlpBytes, EncodeAll;
    NumberBytes(|p|);
    if 56 <= |p| < 256 { assert [0xF8] + [|p|] == [0xF8, |p|]; }
    if 256 <= |p| < 65536 { assert [0xF9] + [|p| / 256, |p| % 256] == [0xF9, |p| / 256, |p| % 256]; }
  }

  lemma Join(x: Item, e: ByteSeq, xs: seq<Item>, p: ByteSeq)
    requires RlpEncode(x) == Some(e) && EncodeAll(xs) == Some(p)
    ensures EncodeAll([x] + xs) == Some(e + p)
  {
    hide RlpEncode;
    assert ([x] + xs)[1..] == xs;
  }

  lemma JoinNothing()
    ensures EncodeAll([]) == Some([])
  {}

  /** "cat" and "dog", the empty list, and lists of lists. */
  lemma WellKnown()
    ensures RlpEncode(Str([])) == Some([0x80])
    ensures RlpEncode(List([])) == Some([0xC0])
    ensures RlpEncode(List([List([])])) == Some([0xC1, 0xC0])
    ensures RlpEncode(List([Str([0x63, 0x61, 0x74]), Str([0x64, 0x6F, 0x67])])) ==
      Some([0xC8, 0x83, 0x63, 0x61, 0x74, 0x83, 0x64, 0x6F, 0x67])
  {
    hide RlpEncode, EncodeAll;
    var cat, dog := [0x63, 0x61, 0x74], [0x64, 0x6F, 0x67];
    StringForms([]);
    StringForms(cat);
    StringForms(dog);
    JoinNothing();
    ListForms([], []);
    var none: ByteSeq := [];
    assert [0x80 + |none|] + none == [0x80] && [0xC0 + |none|] + none == [0xC0] && [0xC0] + none == [0xC0];
    Join(List([]), [0xC0], [], []);
    assert [List([])] + [] == [List([])];
    ListForms([List([])], [0xC0]);
    assert [0xC0 + |[0xC0]|] + [0xC0] == [0xC1, 0xC0];
    Join(Str(dog), [0x83] + dog, [], []);
    assert [Str(dog)] + [] == [Str(dog)] && [0x83] + dog + [] == [0x83] + dog;
    Join(Str(cat), [0x83] + cat, [Str(dog)], [0x83] + dog);
    assert [Str(cat)] + [Str(dog)] == [Str(cat), Str(dog)];
    var p := [0x83] + cat + ([0x83] + dog);
    ListForms([Str(cat), Str(dog)], p);
    assert [0xC0 + |p|] + p == [0xC8, 0x83, 0x63, 0x61, 0x74, 0x83, 0x64, 0x6F, 0x67];
  }

  // ----- what is hashed, field by field -----

  predicate Small(n: nat) { 0 < n < 128 }

  lemma SmallNumber(n: nat)
    requires Small(n)
    ensures RlpEncode(Str(IntToRlpBytes(n))) == Some([n])
  {
    hide RlpEncode, IntToRlpBytes;
    NumberBytes(n);
    StringForms([n]);
  }

  lemma JoinNumber(n: nat, xs: seq<Item>, p: ByteSeq)
    requires Small(n) && EncodeAll(xs) == Some(p)
    ensures EncodeAll([Str(IntToRlpBytes(n))] + xs) == Some([n] + p)
  {
    hide RlpEncode, EncodeAll, IntToRlpBytes;
    SmallNumber(n);
    Join(Str(IntToRlpBytes(n)), [n], xs, p);
  }

  lemma JoinString(s: ByteSeq, xs: seq<Item>, p: ByteSeq)
    requires |s| <= 55 && |s| != 1 && EncodeAll(xs) == Some(p)
    ensures EncodeAll([Str(s)] + xs) == Some([0x80 + |s|] + s + p)
  {
    hide RlpEncode, EncodeAll;
    StringForms(s);
    Join(Str(s), [0x80 + |s|] + s, xs, p);
  }

  /** What is hashed for the address of a creator's contract: creator first, then the nonce. */
  lemma CreationBytes(creator: ByteSeq, nonce: nat)
    requires |creator| == 20 && (nonce == 0 || Small(nonce))
    ensures CreationPreimage(creator, nonce) ==
      Some([0xD6, 0x94] + creator + [if nonce == 0 then 0x80 else nonce])
  {
    hide RlpEncode, EncodeAll, IntToRlpBytes;
    JoinNothing();
    NumberBytes(0);
    var last := Str(IntToRlpBytes(nonce));
    var tail := [if nonce == 0 then 0x80 else nonce];
    if nonce == 0 {
      var none: ByteSeq := [];
      JoinString([], [], []);
      assert [0x80 + |none|] + none + none == [0x80];
    } else {
      JoinNumber(nonce, [], []);
      assert [nonce] + [] == [nonce];
    }
    assert [last] + [] == [last];
    assert EncodeAll([last]) == Some(tail);
    JoinString(creator, [last], tail);
    var xs := [Str(creator), last];
    assert [Str(creator)] + [last] == xs;
    var all := [0x94] + creator + tail;
    ListForms(xs, all);
    assert [0xC0 + |all|] + all == [0xD6, 0x94] + creator + tail;
  }

  /** What is signed: nonce, gas price, gas limit, recipient, value, data, in this order. */
  lemma SigningBytes(tx: Transaction)
    requires Small(tx.nonce) && Small(tx.gasPrice) && Small(tx.gas) && Small(tx.value) && |tx.to| == 20 && tx.data == []
    ensures tx.SigningPreimage() ==
      Some([0xDA, tx.nonce, tx.gasPrice, tx.gas, 0x94] + tx.to + [tx.value, 0x80])
  {
    hide RlpEncode, EncodeAll, IntToRlpBytes;
    var a, b, c, d, e, f := Str(IntToRlpBytes(tx.nonce)), Str(IntToRlpBytes(tx.gasPrice)), Str(IntToRlpBytes(tx.gas)),
      Str(tx.to), Str(IntToRlpBytes(tx.value)), Str(tx.data);
    JoinNothing();
    JoinString(tx.data, [], []);
    assert [0x80 + |tx.data|] + tx.data + [] == [0x80];
    assert [f] + [] == [f];
    var p := [0x80];
    assert EncodeAll([f]) == Some(p);
    JoinNumber(tx.value, [f], p);
    JoinString(tx.to, [e] + [f], [tx.value] + p);
    var q := [0x94] + tx.to + ([tx.value] + p);
    JoinNumber(tx.gas, [d] + ([e] + [f]), q);
    JoinNumber(tx.gasPrice, [c] + ([d] + ([e] + [f])), [tx.gas] + q);
    JoinNumber(tx.nonce, [b] + ([c] + ([d] + ([e] + [f]))), [tx.gasPrice] + ([tx.gas] + q));
    assert [a] + ([b] + ([c] + ([d] + ([e] + [f])))) == tx.UnsignedFields();
    var all := [tx.nonce] + ([tx.gasPrice] + ([tx.gas] + q));
    ListForms(tx.UnsignedFields(), all);
    assert [0xC0 + |all|] + all == [0xDA, tx.nonce, tx.gasPrice, tx.gas, 0x94] + tx.to + [tx.value, 0x80];
  }

  /** What is hashed for a block: parent hash, number, timestamp, state root, in this order. */
  lemma HeaderBytes(h: Header)
    requires |h.parentHash| == 32 && |h.stateRoot| == 32 && Small(h.number) && Small(h.timestamp)
    ensures HeaderPreimage(h) == Some([0xF8, 68, 0xA0] + h.parentHash + [h.number, h.timestamp, 0xA0] + h.stateRoot)
  {
    hide RlpEncode, EncodeAll, IntToRlpBytes;
    var a, b, c, d := Str(h.parentHash), Str(IntToRlpBytes(h.number)), Str(IntToRlpBytes(h.timestamp)),
        Str(h.stateRoot);
    JoinNothing();
    JoinString(h.stateRoot, [], []);
    assert [d] + [] == [d];
    var p := [0xA0] + h.stateRoot;
    assert EncodeAll([d]) == Some(p) by { assert [0xA0] + h.stateRoot + [] == p; }
    JoinNumber(h.timestamp, [d], p);
    JoinNumber(h.number, [c] + [d], [h.timestamp] + p);
    JoinString(h.parentHash, [b] + ([c] + [d]), [h.number] + ([h.timestamp] + p));
    var all := [0xA0] + h.parentHash + ([h.number] + ([h.timestamp] + p));
    var xs := [a, b, c, d];
    assert [a] + ([b] + ([c] + [d])) == xs;
    ListForms(xs, all);
    assert [0xF8, |all|] + all == [0xF8, 68, 0xA0] + h.parentHash + [h.number, h.timestamp, 0xA0] + h.stateRoot;
  }

  /** What is hashed for an account in the state root: address, nonce, balance, code, in this order. */
  lemma AccountBytes(address: ByteSeq, a: Account)
    requires |address| == 20 && Small(a.nonce) && Small(a.balance) && a.code == []
    ensures RlpEncode(Record(address, a)) == Some([0xD8, 0x94] + address + [a.nonce, a.balance, 0x80])
  {
    hide RlpEncode, EncodeAll, IntToRlpBytes;
    var x, n, b, c := Str(address), Str(IntToRlpBytes(a.nonce)), Str(IntToRlpBytes(a.balance)), Str(a.code);
    JoinNothing();
    JoinString(a.code, [], []);
    assert [0x80 + |a.code|] + a.code + [] == [0x80];
    assert [c] + [] == [c];
    assert EncodeAll([c]) == Some([0x80]);
    JoinNumber(a.balance, [c], [0x80]);
    JoinNumber(a.nonce, [b] + [c], [a.balance] + [0x80]);
    JoinString(address, [n] + ([b] + [c]), [a.nonce] + ([a.balance] + [0x80]));
    var all := [0x94] + address + ([a.nonce] + ([a.balance] + [0x80]));
    var xs := [x, n, b, c];
    assert [x] + ([n] + ([b] + [c])) == xs;
    ListForms(xs, all);
    assert [0xC0 + |all|] + all == [0xD8, 0x94] + address + [a.nonce, a.balance, 0x80];
  }

  /** The state root hashes the records of two accounts one after the other, the lower address first. */
  lemma TwoAccounts(w: World, low: ByteSeq, high: ByteSeq, e: ByteSeq, f: ByteSeq)
    requires w.Keys == {low, high} && Before(low, high)
    requires RlpEncode(Record(low, w[low])) == Some(e) && RlpEncode(Record(high, w[high])) == Some(f)
    ensures RootPreimage(w) == Some(e + f)
  {
    hide RlpEncode, EncodeAll, Record, Before;
    SortedHolds(w.Keys);
    SortedPair(low, high);
    var keys, recs := Sorted(w.Keys), Records(w, Sorted(w.Keys));
    assert keys == [low, high];
    JoinNothing();
    Join(Record(high, w[high]), f, [], []);
    assert [recs[1]] + [] == [recs[1]] && f + [] == f;
    Join(Record(low, w[low]), e, [recs[1]], f);
    assert recs == [recs[0]] + [recs[1]];
  }

  lemma SortedPair(low: ByteSeq, high: ByteSeq)
    requires Before(low, high)
    ensures Sorted({low, high}) == [low, high]
  {
    hide Before;
    var ks := {low, high};
    BeforeTotal(low, high);
    FirstOf(ks, low);
    assert ks - {low} == {high};
    FirstOf({high}, high);
    assert {high} - {high} == {};
  }

  lemma FirstOf(ks: set<ByteSeq>, m: ByteSeq)
    requires First(ks, m)
    ensures Sorted(ks) == [m] + Sorted(ks - {m})
  {
    FirstUnique(ks, m, Sorted(ks)[0]);
  }
}
