/** Recursive Length Prefix (Yellow Paper, Appendix B): encoder, decoder, and why the code is uniquely decodable. */
module Rlp {
  import opened Bytes

  datatype Item = Str(bytes: ByteSeq) | List(items: seq<Item>)

  const TWO_TO_64: nat := 0x1_0000_0000_0000_0000

  // ----- encoder -----

  function EncodeLength(length: nat): ByteSeq {
    if length == 0 then [0] else IntToRlpBytes(length)
  }

  /** The long prefix; `bytes([...])` fails when the first byte would exceed 255. */
  function LongPrefix(base: Byte, length: nat): Option<ByteSeq> {
    var lenBytes := EncodeLength(length);
    if base + |lenBytes| > 255 then None else Some([base + |lenBytes|] + lenBytes)
  }

  function EncodeString(data: ByteSeq): Option<ByteSeq> {
    if |data| == 1 && data[0] < 0x80 then Some(data)
    else if |data| <= 55 then Some([0x80 + |data|] + data)
    else
      var prefix :- LongPrefix(0xb7, |data|);
      Some(prefix + data)
  }

  function EncodePayload(payload: ByteSeq): Option<ByteSeq> {
    if |payload| <= 55 then Some([0xc0 + |payload|] + payload)
    else
      var prefix :- LongPrefix(0xf7, |payload|);
      Some(prefix + payload)
  }

  function RlpEncode(x: Item): Option<ByteSeq> {
    match x
    case Str(s) => EncodeString(s)
    case List(xs) =>
      var payload :- EncodeAll(xs);
      EncodePayload(payload)
  }

  function EncodeAll(xs: seq<Item>): Option<ByteSeq> {
    if xs == [] then Some([]) else
      var head :- RlpEncode(xs[0]);
      var tail :- EncodeAll(xs[1..]);
      Some(head + tail)
  }

  // ----- decoder -----

  function TakeString(d: ByteSeq, start: nat, len: nat): Option<(Item, nat)> {
    if start + len > |d| then None else Some((Str(d[start..start + len]), start + len))
  }

  /** Reads the `lenOfLen` length bytes at `start`; also yields the offset after them. */
  function TakeLength(d: ByteSeq, start: nat, lenOfLen: nat): (r: Option<(nat, nat)>)
    ensures r.Some? ==> r.value.1 == start + lenOfLen <= |d|
  {
    if start + lenOfLen > |d| then None
    else Some((FromBE(d[start..start + lenOfLen]), start + lenOfLen))
  }

  /** What decoding the item at `off` means: the item and the offset just past it. */
  function ParseItem(d: ByteSeq, off: nat): (r: Option<(Item, nat)>)
    ensures r.Some? ==> off < r.value.1 <= |d|
    decreases |d| - off, 0
  {
    if off >= |d| then None else
      var prefix := d[off];
      if prefix < 0x80 then Some((Str([prefix]), off + 1))
      else if prefix <= 0xb7 then TakeString(d, off + 1, prefix - 0x80)
      else if prefix <= 0xbf then
        var (len, start) :- TakeLength(d, off + 1, prefix - 0xb7);
        TakeString(d, start, len)
      else if prefix <= 0xf7 then ParseList(d, off + 1, prefix - 0xc0)
      else
        var (len, start) :- TakeLength(d, off + 1, prefix - 0xf7);
        ParseList(d, start, len)
  }

  function ParseList(d: ByteSeq, start: nat, len: nat): (r: Option<(Item, nat)>)
    ensures r.Some? ==> start <= r.value.1 <= |d|
    decreases |d| - start, 2
  {
    if start + len > |d| then None else
      var items :- ParseItems(d, start, start + len);
      Some((List(items), start + len))
  }

  function ParseItems(d: ByteSeq, pos: nat, end: nat): Option<seq<Item>>
    requires pos <= |d| && end <= |d|
    decreases |d| - pos, 1
  {
    if pos == end then Some([])
    else if pos > end then None
    else
      var (item, next) :- ParseItem(d, pos);
      var rest :- ParseItems(d, next, end);
      Some([item] + rest)
  }

  function Parse(d: ByteSeq): Option<Item> {
    var (item, consumed) :- ParseItem(d, 0);
    if consumed != |d| then None else Some(item)
  }

  method RlpDecode(d: ByteSeq) returns (r: Option<Item>)
    ensures r == Parse(d)
  {
    var item := DecodeItem(d, 0);
    if item.None? || item.value.1 != |d| { return None; }
    return Some(item.value.0);
  }

  method DecodeItem(d: ByteSeq, off: nat) returns (r: Option<(Item, nat)>)
    ensures r == ParseItem(d, off)
    decreases |d| - off, 0
  {
    if off >= |d| { return None; }
    var prefix := d[off];
    if prefix < 0x80 { return Some((Str([prefix]), off + 1)); }
    if prefix <= 0xb7 { return TakeString(d, off + 1, prefix - 0x80); }
    if prefix <= 0xbf {
      var len, start :- TakeLengthBytes(d, off + 1, prefix - 0xb7);
      return TakeString(d, start, len);
    }
    if prefix <= 0xf7 {
      r := DecodeList(d, off + 1, prefix - 0xc0);
    } else {
      var len, start :- TakeLengthBytes(d, off + 1, prefix - 0xf7);
      r := DecodeList(d, start, len);
    }
  }

  method TakeLengthBytes(d: ByteSeq, start: nat, lenOfLen: nat) returns (r: Option<nat>, next: nat)
    ensures (r.None? && TakeLength(d, start, lenOfLen).None?)
         || (r.Some? && TakeLength(d, start, lenOfLen) == Some((r.value, next)))
    ensures next == start + lenOfLen
  {
    next := start + lenOfLen;
    r := if next > |d| then None else Some(FromBE(d[start..next]));
  }

  method DecodeList(d: ByteSeq, start: nat, listLen: nat) returns (r: Option<(Item, nat)>)
    ensures r == ParseList(d, start, listLen)
    decreases |d| - start, 1
  {
    var items := [];
    var end := start + listLen;
    if end > |d| { return None; }
    var pos := start;
    ghost var all := ParseItems(d, start, end);
    assert all.Some? ==> items + all.value == all.value;
    while pos < end
      invariant start <= pos <= |d|
      invariant ParseItems(d, start, end) ==
                var rest := ParseItems(d, pos, end); if rest.None? then None else Some(items + rest.value)
      decreases |d| - pos
    {
      var item := DecodeItem(d, pos);
      if item.None? { return None; }
      ghost var before := items;
      items := items + [item.value.0];
      pos := item.value.1;
      assert forall rest: seq<Item> :: before + ([item.value.0] + rest) == items + rest;
    }
    if pos != end { return None; }
    assert items + [] == items;
    return Some((List(items), end));
  }

  // ----- lengths of prefixes -----

  /** Bytes the encoder spends on a payload of `len` bytes that needs a prefix. */
  function PrefixSize(len: nat): nat {
    if len <= 55 then 1 else 1 + ByteLength(len)
  }

  lemma PrefixSizeMono(m: nat, n: nat)
    requires m <= n
    ensures PrefixSize(m) <= PrefixSize(n)
  {
    ByteLengthMono(m, n);
    ByteLengthExact(n);
  }

  lemma ByteLengthUpTo8(n: nat)
    ensures n < TWO_TO_64 <==> ByteLength(n) <= 8
  {
    assert Pow256(8) == TWO_TO_64 by { Pow256Eight(); }
    ByteLengthExact(n);
    if n < TWO_TO_64 {
      if ByteLength(n) > 8 { Pow256Mono(8, ByteLength(n) - 1); }
    } else if ByteLength(n) <= 8 {
      Pow256Mono(ByteLength(n), 8);
    }
  }

  lemma Pow256Eight()
    ensures Pow256(8) == TWO_TO_64
  {
    assert Pow256(4) == 0x1_0000_0000;
    Pow256Add(4, 4);
  }

  /** A long prefix of a length below 2^64 carries exactly that length. */
  lemma LongPrefixReads(base: Byte, len: nat)
    requires base == 0xb7 || base == 0xf7
    requires 55 < len < TWO_TO_64
    ensures LongPrefix(base, len).Some?
    ensures var p := LongPrefix(base, len).value;
      |p| == PrefixSize(len) && base < p[0] <= base + 8 && |p| == 1 + p[0] - base && FromBE(p[1..]) == len
  {
    ByteLengthUpTo8(len);
    ByteLengthExact(len);
    IntToRlpBytesUnique(len, IntToRlpBytes(len));
    var p := LongPrefix(base, len).value;
    assert p[1..] == IntToRlpBytes(len);
  }

  // ----- self-delimitation -----

  /** The one shape the decoder cannot read back: a bare string of 2^64 bytes or more. */
  predicate Readable(x: Item) {
    x.Str? ==> |x.bytes| < TWO_TO_64
  }

  ghost predicate At(d: ByteSeq, off: nat, e: ByteSeq) {
    off + |e| <= |d| && d[off..off + |e|] == e
  }

  lemma AtSplit(d: ByteSeq, off: nat, a: ByteSeq, b: ByteSeq)
    requires At(d, off, a + b)
    ensures At(d, off, a) && At(d, off + |a|, b)
  {
    var e := a + b;
    assert d[off..off + |a|] == d[off..off + |e|][..|a|] == a;
    assert d[off + |a|..off + |a| + |b|] == d[off..off + |e|][|a|..] == b;
  }

  lemma AtIndex(d: ByteSeq, off: nat, e: ByteSeq, i: nat)
    requires At(d, off, e) && i < |e|
    ensures off + i < |d| && d[off + i] == e[i]
  {
    assert d[off + i] == d[off..off + |e|][i];
  }

  lemma AtTail(d: ByteSeq, off: nat, e: ByteSeq)
    requires At(d, off, e) && e != []
    ensures At(d, off + 1, e[1..])
  {
    assert e == [e[0]] + e[1..];
    AtSplit(d, off, [e[0]], e[1..]);
  }

  lemma {:induction false} EncodingNonEmpty(x: Item)
    requires RlpEncode(x).Some?
    ensures |RlpEncode(x).value| > 0
  {}

  /** A list only encodes when its payload is below 2^64 bytes, so its members are all readable. */
  lemma ListPayloadBounded(payload: ByteSeq)
    requires EncodePayload(payload).Some?
    ensures |payload| < TWO_TO_64
  {
    if |payload| > 55 {
      ByteLengthUpTo8(|payload|);
      ByteLengthExact(|payload|);
    }
  }

  lemma ShortEncodingReadable(x: Item)
    requires RlpEncode(x).Some? && |RlpEncode(x).value| < TWO_TO_64
    ensures Readable(x)
  {}

  /** Wherever the encoding of a readable item stands, the decoder returns the item and the offset after it. */
  lemma {:induction false} SelfDelimiting(x: Item, d: ByteSeq, off: nat)
    requires Readable(x) && RlpEncode(x).Some?
    requires At(d, off, RlpEncode(x).value)
    ensures ParseItem(d, off) == Some((x, off + |RlpEncode(x).value|))
    decreases x
  {
    hide ParseItem, ParseItems, EncodeAll;
    match x
    case Str(s) => StringSelfDelimiting(s, d, off);
    case List(xs) =>
      var payload := EncodeAll(xs).value;
      ListPayloadBounded(payload);
      PayloadAt(payload, d, off);
      var start := off + |RlpEncode(x).value| - |payload|;
      MembersReadable(xs);
      AllSelfDelimiting(xs, d, start);
  }

  lemma StringSelfDelimiting(s: ByteSeq, d: ByteSeq, off: nat)
    requires |s| < TWO_TO_64 && EncodeString(s).Some? && At(d, off, EncodeString(s).value)
    ensures ParseItem(d, off) == Some((Str(s), off + |EncodeString(s).value|))
  {
    hide FromBE, ByteLength, IntToRlpBytes, LongPrefix;
    var e := EncodeString(s).value;
    if |s| == 1 && s[0] < 0x80 {
      AtIndex(d, off, e, 0);
      assert s == [s[0]];
    } else if |s| <= 55 {
      AtIndex(d, off, e, 0);
      AtSplit(d, off, [0x80 + |s|], s);
    } else {
      LongPrefixReads(0xb7, |s|);
      LongPrefixAt(0xb7, |s|, s, d, off);
    }
  }

  lemma LongPrefixAt(base: Byte, len: nat, body: ByteSeq, d: ByteSeq, off: nat)
    requires base == 0xb7 || base == 0xf7
    requires 55 < len < TWO_TO_64 && LongPrefix(base, len).Some?
    requires At(d, off, LongPrefix(base, len).value + body)
    ensures var p := LongPrefix(base, len).value;
      && off < |d| && base < d[off] <= base + 8
      && TakeLength(d, off + 1, d[off] - base) == Some((len, off + |p|))
      && At(d, off + |p|, body)
  {
    hide FromBE, PrefixSize, LongPrefix;
    var p := LongPrefix(base, len).value;
    LongPrefixReads(base, len);
    AtSplit(d, off, p, body);
    AtIndex(d, off, p, 0);
    AtTail(d, off, p);
  }

  lemma PayloadAt(payload: ByteSeq, d: ByteSeq, off: nat)
    requires |payload| < TWO_TO_64 && EncodePayload(payload).Some?
    requires At(d, off, EncodePayload(payload).value)
    ensures var start := off + |EncodePayload(payload).value| - |payload|;
      && off < start
      && At(d, start, payload)
      && ParseItem(d, off) == ParseList(d, start, |payload|)
  {
    if |payload| <= 55 {
      AtIndex(d, off, EncodePayload(payload).value, 0);
      AtSplit(d, off, [0xc0 + |payload|], payload);
    } else {
      LongPrefixAt(0xf7, |payload|, payload, d, off);
    }
  }

  ghost predicate AllReadable(xs: seq<Item>) {
    forall i | 0 <= i < |xs| :: Readable(xs[i])
  }

  lemma {:induction false} MembersReadable(xs: seq<Item>)
    requires EncodeAll(xs).Some? && |EncodeAll(xs).value| < TWO_TO_64
    ensures AllReadable(xs)
  {
    hide RlpEncode;
    if xs != [] {
      ShortEncodingReadable(xs[0]);
      MembersReadable(xs[1..]);
      assert xs == [xs[0]] + xs[1..];
    }
  }

  lemma {:induction false} AllSelfDelimiting(xs: seq<Item>, d: ByteSeq, pos: nat)
    requires EncodeAll(xs).Some? && AllReadable(xs)
    requires At(d, pos, EncodeAll(xs).value)
    ensures ParseItems(d, pos, pos + |EncodeAll(xs).value|) == Some(xs)
    decreases xs
  {
    hide ParseItem, RlpEncode, Readable;
    if xs != [] {
      var head, tail := RlpEncode(xs[0]).value, EncodeAll(xs[1..]).value;
      AtSplit(d, pos, head, tail);
      EncodingNonEmpty(xs[0]);
      SelfDelimiting(xs[0], d, pos);
      AllSelfDelimiting(xs[1..], d, pos + |head|);
      assert xs == [xs[0]] + xs[1..];
    }
  }

  /** Encoding then decoding gives the item back exactly when it is not a bare string of 2^64 bytes or more. */
  lemma RoundTrip(x: Item)
    requires RlpEncode(x).Some?
    ensures Parse(RlpEncode(x).value) == Some(x) <==> Readable(x)
  {
    var e := RlpEncode(x).value;
    if Readable(x) {
      assert e[0..0 + |e|] == e;
      SelfDelimiting(x, e, 0);
    } else {
      ByteLengthUpTo8(|x.bytes|);
      ByteLengthExact(|x.bytes|);
      assert e[0] >= 0xc0;
      assert ParseItem(e, 0).Some? ==> ParseItem(e, 0).value.0.List?;
    }
  }

  /** No encoding is a proper prefix of another, nor do two items share one. */
  lemma PrefixFree(x: Item, y: Item)
    requires Readable(x) && Readable(y)
    requires RlpEncode(x).Some? && RlpEncode(y).Some?
    requires RlpEncode(x).value <= RlpEncode(y).value
    ensures x == y
  {
    var ex, ey := RlpEncode(x).value, RlpEncode(y).value;
    assert ey[0..0 + |ex|] == ex && ey[0..0 + |ey|] == ey;
    SelfDelimiting(x, ey, 0);
    SelfDelimiting(y, ey, 0);
  }

  /** Concatenated encodings determine the items: the law behind every hash preimage below. */
  lemma ConcatInjective(xs: seq<Item>, ys: seq<Item>)
    requires EncodeAll(xs).Some? && EncodeAll(xs) == EncodeAll(ys)
    requires AllReadable(xs) && AllReadable(ys)
    ensures xs == ys
  {
    var e := EncodeAll(xs).value;
    assert e[0..0 + |e|] == e;
    AllSelfDelimiting(xs, e, 0);
    AllSelfDelimiting(ys, e, 0);
  }

  lemma ListInjective(xs: seq<Item>, ys: seq<Item>)
    requires RlpEncode(List(xs)).Some? && RlpEncode(List(xs)) == RlpEncode(List(ys))
    ensures xs == ys
  {
    PrefixFree(List(xs), List(ys));
  }

  // ----- the encoder gives the unique shortest form -----

  /** e is a legal rendering of the bytes d[off..end] that is no longer, and if as long, the same. */
  ghost predicate Shortens(e: Option<ByteSeq>, d: ByteSeq, off: nat, end: nat)
    requires off <= end <= |d|
  {
    e.Some? && |e.value| <= end - off && (|e.value| == end - off ==> e.value == d[off..end])
  }

  lemma TakeLengthBounds(d: ByteSeq, start: nat, k: nat)
    requires 0 < k <= 8 && start + k <= |d|
    ensures var len := FromBE(d[start..start + k]);
      && len < TWO_TO_64
      && ByteLength(len) <= k
      && (ByteLength(len) == k ==> IntToRlpBytes(len) == d[start..start + k])
  {
    var b := d[start..start + k];
    var len := FromBE(b);
    FromBEBound(b);
    Pow256Mono(k, 8);
    Pow256Eight();
    ByteLengthExact(len);
    if ByteLength(len) > k { Pow256Mono(k, ByteLength(len) - 1); }
    if ByteLength(len) == k {
      ByteLengthNoLeadingZero(b);
      IntToRlpBytesUnique(len, b);
    }
  }

  lemma ShortFormShortens(s: ByteSeq, d: ByteSeq, off: nat, end: nat)
    requires off < end <= |d| && s == d[off + 1..end] && d[off] == 0x80 + |s| <= 0xb7
    ensures Shortens(EncodeString(s), d, off, end)
  {
    assert d[off..end] == [d[off]] + s;
  }

  lemma StringShortens(d: ByteSeq, off: nat)
    requires off < |d| && 0x80 <= d[off] <= 0xbf && ParseItem(d, off).Some?
    ensures var (x, end) := ParseItem(d, off).value; Shortens(RlpEncode(x), d, off, end)
  {
    hide FromBE, LongPrefix, EncodeString;
    var (x, end) := ParseItem(d, off).value;
    var s := x.bytes;
    if d[off] <= 0xb7 {
      ShortFormShortens(s, d, off, end);
    } else {
      LongFormShortens(s, 0xb7, d, off, off + 1 + (d[off] - 0xb7), end);
    }
  }

  /** The long form is never shorter than the encoder's choice, and equally long only when it is that choice. */
  lemma LongFormShortens(p: ByteSeq, base: Byte, d: ByteSeq, off: nat, start: nat, end: nat)
    requires base == 0xb7 || base == 0xf7
    requires off < start <= end <= |d| && base < d[off] <= base + 8 && start == off + 1 + (d[off] - base)
    requires end - start == FromBE(d[off + 1..start])
    requires Shortens(Some(p), d, start, end)
    ensures Shortens(if base == 0xb7 then EncodeString(p) else EncodePayload(p), d, off, end)
  {
    hide FromBE, ByteLength, IntToRlpBytes;
    var n := end - start;
    TakeLengthBounds(d, off + 1, d[off] - base);
    PrefixSizeMono(|p|, n);
    LongFormSplit(d, off, start, end);
    if |p| > 55 {
      LongPrefixReads(base, |p|);
      LongPrefixShape(base, |p|);
    }
  }

  lemma LongFormSplit(d: ByteSeq, off: nat, start: nat, end: nat)
    requires off < start <= end <= |d|
    ensures d[off..end] == [d[off]] + d[off + 1..start] + d[start..end]
  {}

  lemma LongPrefixShape(base: Byte, len: nat)
    requires LongPrefix(base, len).Some? && len > 0
    ensures LongPrefix(base, len).value == [base + ByteLength(len)] + IntToRlpBytes(len)
  {}

  /** Members that only shrink make a list that only shrinks. */
  lemma PayloadShortens(p: ByteSeq, d: ByteSeq, off: nat, start: nat, end: nat)
    requires off < start <= end <= |d|
    requires Shortens(Some(p), d, start, end)
    requires (d[off] == 0xc0 + (end - start) <= 0xf7 && start == off + 1)
          || (0xf7 < d[off] && start == off + 1 + (d[off] - 0xf7) && end - start == FromBE(d[off + 1..start]))
    ensures Shortens(EncodePayload(p), d, off, end)
  {
    if d[off] <= 0xf7 {
      assert d[off..end] == [d[off]] + d[start..end];
    } else {
      LongFormShortens(p, 0xf7, d, off, start, end);
    }
  }

  lemma {:induction false} ItemShortens(d: ByteSeq, off: nat)
    requires ParseItem(d, off).Some?
    ensures var (x, end) := ParseItem(d, off).value; Shortens(RlpEncode(x), d, off, end)
    decreases |d| - off, 0
  {
    var (x, end) := ParseItem(d, off).value;
    var prefix := d[off];
    if prefix < 0x80 {
      assert d[off..end] == [prefix];
    } else if prefix <= 0xbf {
      StringShortens(d, off);
    } else {
      var start := if prefix <= 0xf7 then off + 1 else off + 1 + (prefix - 0xf7);
      ItemsShorten(d, start, end);
      PayloadShortens(EncodeAll(x.items).value, d, off, start, end);
    }
  }

  lemma {:induction false} ItemsShorten(d: ByteSeq, pos: nat, end: nat)
    requires pos <= |d| && end <= |d| && ParseItems(d, pos, end).Some?
    ensures pos <= end && Shortens(EncodeAll(ParseItems(d, pos, end).value), d, pos, end)
    decreases |d| - pos, 1
  {
    if pos < end {
      var (item, next) := ParseItem(d, pos).value;
      ItemShortens(d, pos);
      ItemsShorten(d, next, end);
      var xs := ParseItems(d, pos, end).value;
      assert xs[0] == item && xs[1..] == ParseItems(d, next, end).value;
      assert d[pos..end] == d[pos..next] + d[next..end];
    }
  }

  /** Re-encoding what the decoder accepted never lengthens it, and the only input of that length is the encoding
      itself. */
  lemma ShortestForm(d: ByteSeq)
    requires Parse(d).Some?
    ensures RlpEncode(Parse(d).value).Some?
    ensures var e := RlpEncode(Parse(d).value).value; |e| <= |d| && (|e| == |d| <==> e == d)
  {
    ItemShortens(d, 0);
    assert d[0..|d|] == d;
  }
}
