/** Byte-addressable memory that grows, in 32-byte words, to cover whatever is touched. */
module EvmMemory {
  import opened Bytes
  import opened Words

  function RoundUp32(n: nat): nat {
    (n + 31) / 32 * 32
  }

  /** `_expand_to`; None stands for the exception of a bytearray that cannot grow past `limit`. */
  function Expand(limit: nat, data: ByteSeq, off: nat, size: nat): (r: Option<ByteSeq>)
    ensures r.Some? && size > 0 ==> off + size <= |r.value|
  {
    if size == 0 || off + size <= |data| then Some(data)
    else if RoundUp32(off + size) > limit then None
    else Some(data + Zeros(RoundUp32(off + size) - |data|))
  }

  function Overwrite(data: ByteSeq, off: nat, bs: ByteSeq): (r: ByteSeq)
    requires off + |bs| <= |data|
    ensures |r| == |data|
  {
    data[..off] + bs + data[off + |bs|..]
  }

  function ReadRange(limit: nat, data: ByteSeq, off: nat, size: nat): Option<(ByteSeq, ByteSeq)> {
    if size == 0 then Some((data, [])) else
      var grown :- Expand(limit, data, off, size);
      Some((grown, grown[off..off + size]))
  }

  function WriteRange(limit: nat, data: ByteSeq, off: nat, bs: ByteSeq): Option<ByteSeq> {
    if |bs| == 0 then Some(data) else
      var grown :- Expand(limit, data, off, |bs|);
      Some(Overwrite(grown, off, bs))
  }

  function Load(limit: nat, data: ByteSeq, off: nat): Option<(ByteSeq, nat)> {
    var (grown, word) :- ReadRange(limit, data, off, 32);
    Some((grown, FromBE(word)))
  }

  /** None also when the value does not fit 32 bytes (`to_bytes` overflows). */
  function Store(limit: nat, data: ByteSeq, off: nat, v: nat): Option<ByteSeq> {
    if IsWord(v) then WriteRange(limit, data, off, WordBytes(v)) else None
  }

  function Store8(limit: nat, data: ByteSeq, off: nat, v: nat): Option<ByteSeq> {
    WriteRange(limit, data, off, [v % 256])
  }

  /** A string in whole words. */
  function Padded(data: ByteSeq): ByteSeq {
    data + Zeros(RoundUp32(|data|) - |data|)
  }

  /** Writing a string into empty memory leaves it there in whole words, and reading it back gives the string. */
  lemma FirstWrite(limit: nat, data: ByteSeq)
    requires RoundUp32(|data|) <= limit
    ensures WriteRange(limit, [], 0, data) == Some(Padded(data))
    ensures ReadRange(limit, Padded(data), 0, |data|) == Some((Padded(data), data))
  {
    if data != [] {
      var n := |data|;
      var grown := [] + Zeros(RoundUp32(n));
      assert Expand(limit, [], 0, n) == Some(grown);
      assert Overwrite(grown, 0, data) == Padded(data);
      assert Padded(data)[0..n] == data;
    } else {
      assert Padded(data) == [];
    }
  }

  class Memory {
    var data: ByteSeq
    const limit: nat

    constructor (limit: nat)
      ensures data == [] && this.limit == limit
    {
      data := [];
      this.limit := limit;
    }

    method ExpandTo(off: nat, size: nat) returns (ok: bool)
      modifies this
      ensures ok == Expand(limit, old(data), off, size).Some?
      ensures data == if ok then Expand(limit, old(data), off, size).value else old(data)
    {
      if size == 0 { return true; }
      var needed := off + size;
      if needed > |data| {
        var newSize := (needed + 31) / 32 * 32;
        if newSize > limit { return false; }
        data := data + Zeros(newSize - |data|);
      }
      return true;
    }

    method LoadWord(off: nat) returns (r: Option<nat>)
      modifies this
      ensures match Load(limit, old(data), off)
              case None => r == None
              case Some((grown, v)) => r == Some(v) && data == grown
    {
      var ok := ExpandTo(off, 32);
      if !ok { return None; }
      return Some(FromBE(data[off..off + 32]));
    }

    method StoreWord(off: nat, v: nat) returns (ok: bool)
      modifies this
      ensures ok == Store(limit, old(data), off, v).Some?
      ensures ok ==> data == Store(limit, old(data), off, v).value
    {
      ok := ExpandTo(off, 32);
      if !ok || v >= MOD { return false; }
      data := data[..off] + WordBytes(v) + data[off + 32..];
    }

    method StoreByte(off: nat, v: nat) returns (ok: bool)
      modifies this
      ensures ok == Store8(limit, old(data), off, v).Some?
      ensures ok ==> data == Store8(limit, old(data), off, v).value
    {
      ok := ExpandTo(off, 1);
      if !ok { return; }
      data := data[off := v % 256];
    }

    method ReadBytes(off: nat, size: nat) returns (r: Option<ByteSeq>)
      modifies this
      ensures match ReadRange(limit, old(data), off, size)
              case None => r == None
              case Some((grown, bs)) => r == Some(bs) && data == grown
    {
      if size == 0 { return Some([]); }
      var ok := ExpandTo(off, size);
      if !ok { return None; }
      return Some(data[off..off + size]);
    }

    method WriteBytes(off: nat, bs: ByteSeq) returns (ok: bool)
      modifies this
      ensures ok == WriteRange(limit, old(data), off, bs).Some?
      ensures ok ==> data == WriteRange(limit, old(data), off, bs).value
    {
      if |bs| == 0 { return true; }
      ok := ExpandTo(off, |bs|);
      if !ok { return; }
      data := data[..off] + bs + data[off + |bs|..];
    }

    function Size(): nat
      reads this
    {
      |data|
    }
  }

  // ----- refinement of an infinite zero-initialised byte array -----

  datatype Access =
    | ReadAt(off: nat, size: nat)
    | WriteAt(off: nat, bytes: ByteSeq)
    | LoadAt(off: nat)
    | StoreAt(off: nat, word: nat)
    | Store8At(off: nat, value: nat)
  {
    /** The bytes this access leaves at `off`. */
    function Written(): ByteSeq {
      match this
      case WriteAt(_, bs) => bs
      case StoreAt(_, v) => if IsWord(v) then WordBytes(v) else []
      case Store8At(_, v) => [v % 256]
      case _ => []
    }

    function Touched(): nat {
      match this
      case ReadAt(_, size) => size
      case WriteAt(_, bs) => |bs|
      case LoadAt(_) => 32
      case StoreAt(_, _) => 32
      case Store8At(_, _) => 1
    }

    function Perform(limit: nat, data: ByteSeq): Option<ByteSeq> {
      match this
      case ReadAt(off, size) => var (d, _) :- ReadRange(limit, data, off, size); Some(d)
      case WriteAt(off, bs) => WriteRange(limit, data, off, bs)
      case LoadAt(off) => var (d, _) :- Load(limit, data, off); Some(d)
      case StoreAt(off, v) => Store(limit, data, off, v)
      case Store8At(off, v) => Store8(limit, data, off, v)
    }
  }

  function PerformAll(limit: nat, log: seq<Access>): Option<ByteSeq> {
    if log == [] then Some([]) else
      var data :- PerformAll(limit, log[..|log| - 1]);
      log[|log| - 1].Perform(limit, data)
  }

  /** What a memory cell of unlimited size holds: the byte of the last access that wrote it, else 0. */
  function CellAfter(log: seq<Access>, i: nat): Byte {
    if log == [] then 0 else
      var a := log[|log| - 1];
      if a.off <= i < a.off + |a.Written()| then a.Written()[i - a.off]
      else CellAfter(log[..|log| - 1], i)
  }

  /** The extent after touching `size` bytes at `off`. */
  function Touch(extent: nat, off: nat, size: nat): nat {
    if size > 0 && off + size > extent then off + size else extent
  }

  /** One past the highest byte touched. */
  function Extent(log: seq<Access>): nat {
    if log == [] then 0 else
      var a := log[|log| - 1];
      Touch(Extent(log[..|log| - 1]), a.off, a.Touched())
  }

  predicate StoresWords(log: seq<Access>) {
    forall a :: a in log && a.StoreAt? ==> IsWord(a.word)
  }

  function CellOf(data: ByteSeq, i: nat): Byte {
    if i < |data| then data[i] else 0
  }

  /** `data` has the given extent and was grown no further than the limit. */
  predicate Sized(limit: nat, data: ByteSeq, extent: nat) {
    |data| == RoundUp32(extent) && |data| <= limit
  }

  /** Any log of overlapping accesses succeeds exactly when its extent fits; then memory agrees with
      the unlimited array in every cell and its size is the extent rounded up to whole words. */
  lemma {:induction false} MemoryRefinesFlatArray(limit: nat, log: seq<Access>)
    ensures PerformAll(limit, log).Some? <==> StoresWords(log) && RoundUp32(Extent(log)) <= limit
    ensures PerformAll(limit, log).Some? ==>
      var data := PerformAll(limit, log).value;
      && Sized(limit, data, Extent(log))
      && forall i: nat :: CellOf(data, i) == CellAfter(log, i)
  {
    if log != [] {
      hide RoundUp32, Touch;
      var before, a := log[..|log| - 1], log[|log| - 1];
      MemoryRefinesFlatArray(limit, before);
      StoresWordsSplit(before, a);
      assert log == before + [a];
      if PerformAll(limit, before).Some? {
        PerformRefines(limit, PerformAll(limit, before).value, a, Extent(before));
        ExtentGrows(before, a);
      } else {
        ExtentGrows(before, a);
      }
    }
  }

  lemma StoresWordsSplit(before: seq<Access>, a: Access)
    ensures StoresWords(before + [a]) <==> StoresWords(before) && (a.StoreAt? ==> IsWord(a.word))
  {
    var log := before + [a];
    assert a == log[|before|];
    assert forall b :: b in before ==> b in log;
  }

  lemma ExtentGrows(before: seq<Access>, a: Access)
    ensures RoundUp32(Extent(before)) <= RoundUp32(Extent(before + [a]))
  {
    assert (before + [a])[..|before + [a]| - 1] == before;
  }

  lemma ExpandRefines(limit: nat, data: ByteSeq, extent: nat, off: nat, size: nat)
    requires Sized(limit, data, extent)
    ensures Expand(limit, data, off, size).Some? <==> RoundUp32(Touch(extent, off, size)) <= limit
    ensures Expand(limit, data, off, size).Some? ==>
      var r := Expand(limit, data, off, size).value;
      Sized(limit, r, Touch(extent, off, size)) && forall i: nat :: CellOf(r, i) == CellOf(data, i)
  {}

  lemma WriteRefines(limit: nat, data: ByteSeq, extent: nat, off: nat, bs: ByteSeq)
    requires Sized(limit, data, extent)
    ensures WriteRange(limit, data, off, bs).Some? <==> RoundUp32(Touch(extent, off, |bs|)) <= limit
    ensures WriteRange(limit, data, off, bs).Some? ==>
      var r := WriteRange(limit, data, off, bs).value;
      && Sized(limit, r, Touch(extent, off, |bs|))
      && forall i: nat :: CellOf(r, i) == if off <= i < off + |bs| then bs[i - off] else CellOf(data, i)
  {
    hide RoundUp32, Expand;
    ExpandRefines(limit, data, extent, off, |bs|);
  }

  lemma ReadRefines(limit: nat, data: ByteSeq, extent: nat, off: nat, size: nat)
    requires Sized(limit, data, extent)
    ensures ReadRange(limit, data, off, size).Some? <==> RoundUp32(Touch(extent, off, size)) <= limit
    ensures ReadRange(limit, data, off, size).Some? ==>
      var r := ReadRange(limit, data, off, size).value.0;
      Sized(limit, r, Touch(extent, off, size)) && forall i: nat :: CellOf(r, i) == CellOf(data, i)
  {
    hide RoundUp32, Expand;
    ExpandRefines(limit, data, extent, off, size);
  }

  lemma PerformRefines(limit: nat, data: ByteSeq, a: Access, extent: nat)
    requires Sized(limit, data, extent)
    ensures a.Perform(limit, data).Some? <==>
              (a.StoreAt? ==> IsWord(a.word)) && RoundUp32(Touch(extent, a.off, a.Touched())) <= limit
    ensures a.Perform(limit, data).Some? ==>
      var r := a.Perform(limit, data).value;
      && Sized(limit, r, Touch(extent, a.off, a.Touched()))
      && forall i: nat :: CellOf(r, i) ==
           if a.off <= i < a.off + |a.Written()| then a.Written()[i - a.off] else CellOf(data, i)
  {
    hide RoundUp32, Sized, WriteRange, ReadRange, FromBE, WordBytes, Touch;
    match a
    case ReadAt(off, size) => ReadRefines(limit, data, extent, off, size);
    case LoadAt(off) => ReadRefines(limit, data, extent, off, 32);
    case WriteAt(off, bs) => WriteRefines(limit, data, extent, off, bs);
    case StoreAt(off, v) => if IsWord(v) { WriteRefines(limit, data, extent, off, WordBytes(v)); }
    case Store8At(off, v) => WriteRefines(limit, data, extent, off, [v % 256]);
  }

  /** A read returns the cells of the unlimited array. */
  lemma ReadsAgree(limit: nat, log: seq<Access>, off: nat, size: nat)
    requires PerformAll(limit, log).Some?
    requires ReadRange(limit, PerformAll(limit, log).value, off, size).Some?
    ensures ReadRange(limit, PerformAll(limit, log).value, off, size).value.1
         == seq(size, i requires 0 <= i => CellAfter(log, off + i))
  {
    MemoryRefinesFlatArray(limit, log);
    var data := PerformAll(limit, log).value;
    var bs := ReadRange(limit, data, off, size).value.1;
    forall i | 0 <= i < size
      ensures bs[i] == CellAfter(log, off + i)
    {
      assert bs[i] == CellOf(data, off + i);
    }
  }

  lemma StoreThenLoad(limit: nat, data: ByteSeq, off: nat, v: nat)
    requires Store(limit, data, off, v).Some?
    ensures Load(limit, Store(limit, data, off, v).value, off) == Some((Store(limit, data, off, v).value, v))
  {
    var d := Store(limit, data, off, v).value;
    assert d[off..off + 32] == WordBytes(v);
    WordBytesRoundTrip(v);
  }
}
