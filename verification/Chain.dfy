/** Blocks linked by the hash of their parent's header. */
module Chain {
  import opened Bytes
  import opened Rlp
  import opened Environment
  import opened Transactions

  datatype Header = Header(parentHash: ByteSeq, number: nat, timestamp: nat, stateRoot: ByteSeq)
  datatype Block = Block(header: Header, transactions: seq<Transaction>)

  const GENESIS_PARENT_HASH: Hash := Zeros(32)

  function HeaderPreimage(h: Header): Option<ByteSeq> {
    RlpEncode(List([
      Str(h.parentHash), Str(IntToRlpBytes(h.number)), Str(IntToRlpBytes(h.timestamp)), Str(h.stateRoot)]))
  }

  /** `block_hash`; None when RLP cannot encode the header. */
  function BlockHash(env: Env, b: Block): Option<Hash> {
    var preimage :- HeaderPreimage(b.header);
    Some(env.keccak(preimage))
  }

  function CreateGenesisBlock(stateRoot: ByteSeq, timestamp: nat): Block {
    Block(Header(GENESIS_PARENT_HASH, 0, timestamp, stateRoot), [])
  }

  function CreateBlock(env: Env, parent: Block, transactions: seq<Transaction>, stateRoot: ByteSeq,
                       timestamp: nat): Option<Block> {
    var parentHash :- BlockHash(env, parent);
    Some(Block(Header(parentHash, parent.header.number + 1, timestamp, stateRoot), transactions))
  }

  lemma HeaderPreimageInjective(a: Header, b: Header)
    requires HeaderPreimage(a).Some? && HeaderPreimage(a) == HeaderPreimage(b)
    ensures a == b
  {
    hide RlpEncode, IntToRlpBytes;
    var x := [Str(a.parentHash), Str(IntToRlpBytes(a.number)), Str(IntToRlpBytes(a.timestamp)), Str(a.stateRoot)];
    var y := [Str(b.parentHash), Str(IntToRlpBytes(b.number)), Str(IntToRlpBytes(b.timestamp)), Str(b.stateRoot)];
    ListInjective(x, y);
    assert x[0] == y[0] && x[1] == y[1] && x[2] == y[2] && x[3] == y[3];
    IntToRlpBytesInjective(a.number, b.number);
    IntToRlpBytesInjective(a.timestamp, b.timestamp);
  }

  // ----- chains -----

  ghost predicate Linked(env: Env, blocks: seq<Block>) {
    && blocks != []
    && (forall i | 0 <= i < |blocks| :: BlockHash(env, blocks[i]).Some?)
    && (forall i | 0 <= i < |blocks| - 1 ::
          && blocks[i + 1].header.parentHash == BlockHash(env, blocks[i]).value
          && blocks[i + 1].header.number == blocks[i].header.number + 1)
  }

  /** A linked chain that starts at number 0. */
  ghost predicate FromGenesis(env: Env, blocks: seq<Block>) {
    Linked(env, blocks) && blocks[0].header.number == 0
  }

  /** A genesis block that can be hashed starts a chain. */
  lemma GenesisStartsChain(env: Env, stateRoot: ByteSeq, timestamp: nat)
    ensures var genesis := CreateGenesisBlock(stateRoot, timestamp);
      && (BlockHash(env, genesis).Some? <==> FromGenesis(env, [genesis]))
      && genesis.header.parentHash == Zeros(32) && genesis.header.number == 0 && genesis.header.timestamp == timestamp
      && genesis.header.stateRoot == stateRoot && genesis.transactions == []
  {
    hide HeaderPreimage;
    var genesis := CreateGenesisBlock(stateRoot, timestamp);
    assert [genesis][0] == genesis;
  }

  lemma {:induction false} NumbersAreIndices(env: Env, blocks: seq<Block>, i: nat)
    requires FromGenesis(env, blocks) && i < |blocks|
    ensures blocks[i].header.number == i
  {
    if i > 0 {
      NumbersAreIndices(env, blocks, i - 1);
      assert blocks[i - 1 + 1].header.number == blocks[i - 1].header.number + 1;
    }
  }

  ghost predicate SameHeaders(a: seq<Block>, b: seq<Block>) {
    |a| == |b| && forall i | 0 <= i < |a| :: a[i].header == b[i].header
  }

  /** Two different hashed headers with one hash. */
  ghost predicate HeadersCollide(env: Env, g: Header, h: Header) {
    && HeaderPreimage(g).Some? && HeaderPreimage(h).Some?
    && Collision(env, HeaderPreimage(g).value, HeaderPreimage(h).value)
  }

  /** Two headers that can be hashed have one hash exactly when they are the same or collide. */
  lemma EqualHashes(env: Env, g: Block, h: Block)
    requires BlockHash(env, h).Some?
    ensures BlockHash(env, g) == BlockHash(env, h) <==> g.header == h.header || HeadersCollide(env, g.header, h.header)
  {
    hide HeaderPreimage;
    if HeaderPreimage(g.header) == HeaderPreimage(h.header) { HeaderPreimageInjective(g.header, h.header); }
  }

  lemma LinkedPrefix(env: Env, blocks: seq<Block>)
    requires FromGenesis(env, blocks) && |blocks| > 1
    ensures FromGenesis(env, blocks[..|blocks| - 1])
    ensures blocks[|blocks| - 1].header.parentHash == BlockHash(env, blocks[|blocks| - 2]).value
  {
    hide BlockHash;
    var p := blocks[..|blocks| - 1];
    forall i | 0 <= i < |p| - 1
      ensures p[i + 1].header.parentHash == BlockHash(env, p[i]).value
          && p[i + 1].header.number == p[i].header.number + 1
    {
      assert p[i] == blocks[i] && p[i + 1] == blocks[i + 1];
    }
    assert blocks[|blocks| - 2 + 1].header.parentHash == BlockHash(env, blocks[|blocks| - 2]).value;
  }

  /** Two chains whose heads hash alike are the same from genesis on, header by header, or block i of the one and
      block j of the other collide. */
  lemma {:induction false} TamperEvident(env: Env, a: seq<Block>, b: seq<Block>) returns (i: nat, j: nat)
    requires FromGenesis(env, a) && FromGenesis(env, b)
    requires BlockHash(env, a[|a| - 1]) == BlockHash(env, b[|b| - 1])
    ensures SameHeaders(a, b) || (i < |a| && j < |b| && HeadersCollide(env, a[i].header, b[j].header))
    decreases |a|
  {
    hide FromGenesis, HeaderPreimage, BlockHash, HeadersCollide;
    HeadHashed(env, a);
    HeadHashed(env, b);
    i, j := |a| - 1, |b| - 1;
    EqualHashes(env, a[i], b[j]);
    if a[i].header == b[j].header {
      NumbersAreIndices(env, a, i);
      NumbersAreIndices(env, b, j);
      if i > 0 {
        var p, q := a[..i], b[..j];
        LinkedPrefix(env, a);
        LinkedPrefix(env, b);
        HeadHashed(env, p);
        HeadHashed(env, q);
        i, j := TamperEvident(env, p, q);
        if SameHeaders(p, q) {
          forall k | 0 <= k < |a| ensures a[k].header == b[k].header {
            if k < |a| - 1 { assert p[k].header == q[k].header; }
          }
        }
      }
    }
  }

  lemma LinkedAppend(env: Env, blocks: seq<Block>, b: Block)
    requires Linked(env, blocks) && BlockHash(env, b).Some?
    requires b.header.parentHash == BlockHash(env, blocks[|blocks| - 1]).value
    requires b.header.number == blocks[|blocks| - 1].header.number + 1
    ensures Linked(env, blocks + [b])
  {
    hide BlockHash;
    var longer := blocks + [b];
    forall i | 0 <= i < |longer| - 1
      ensures longer[i + 1].header.parentHash == BlockHash(env, longer[i]).value
      ensures longer[i + 1].header.number == longer[i].header.number + 1
    {
      if i < |blocks| - 1 { assert blocks[i + 1].header.parentHash == BlockHash(env, blocks[i]).value; }
    }
  }

  lemma HeadHashed(env: Env, blocks: seq<Block>)
    requires FromGenesis(env, blocks)
    ensures blocks != [] && BlockHash(env, blocks[|blocks| - 1]).Some?
        && HeaderPreimage(blocks[|blocks| - 1].header).Some?
  {}

  // ----- validation of arbitrary block lists -----

  /** Block i + 1 names the hash of block i. */
  ghost predicate LinkHolds(env: Env, blocks: seq<Block>, i: nat)
    requires i < |blocks| - 1
  {
    BlockHash(env, blocks[i]) == Some(blocks[i + 1].header.parentHash)
  }

  ghost predicate Validates(env: Env, blocks: seq<Block>) {
    forall i | 0 <= i < |blocks| - 1 :: LinkHolds(env, blocks, i)
  }

  /** Block i is the first whose hash the next block does not name; `hashed` tells whether it has one. */
  ghost predicate BreaksAt(env: Env, blocks: seq<Block>, i: nat, hashed: bool) {
    && i < |blocks| - 1 && !LinkHolds(env, blocks, i) && BlockHash(env, blocks[i]).Some? == hashed
    && forall j | 0 <= j < i :: LinkHolds(env, blocks, j)
  }

  lemma LinkMeans(env: Env, blocks: seq<Block>, i: nat)
    requires i < |blocks| - 1
    ensures LinkHolds(env, blocks, i) <==> BlockHash(env, blocks[i]) == Some(blocks[i + 1].header.parentHash)
  {}

  lemma LinkedValidates(env: Env, blocks: seq<Block>)
    ensures Linked(env, blocks) ==> Validates(env, blocks)
  {
    hide BlockHash;
    if Linked(env, blocks) {
      forall i | 0 <= i < |blocks| - 1 ensures LinkHolds(env, blocks, i) {
        assert blocks[i + 1].header.parentHash == BlockHash(env, blocks[i]).value;
      }
    }
  }

  /** Replacing block k of a chain that was built by appending breaks no link exactly when the links on both sides of
      the new block hold. */
  lemma ReplacedLinks(env: Env, blocks: seq<Block>, k: nat, b: Block)
    requires Linked(env, blocks) && k < |blocks|
    ensures Validates(env, blocks[k := b]) <==>
      && (k == 0 || b.header.parentHash == blocks[k].header.parentHash)
      && (k == |blocks| - 1 || BlockHash(env, b) == BlockHash(env, blocks[k]))
  {
    hide BlockHash;
    var t := blocks[k := b];
    LinkedValidates(env, blocks);
    if k > 0 {
      assert LinkHolds(env, blocks, k - 1);
      assert LinkHolds(env, t, k - 1) <==> b.header.parentHash == blocks[k].header.parentHash;
    }
    if k < |blocks| - 1 {
      assert LinkHolds(env, blocks, k);
      assert LinkHolds(env, t, k) <==> BlockHash(env, b) == BlockHash(env, blocks[k]);
    }
    forall i | 0 <= i < |t| - 1 && i != k && i + 1 != k ensures LinkHolds(env, t, i) {
      assert LinkHolds(env, blocks, i);
    }
  }

  /** In a chain that was built by appending, a replaced block passes validation exactly when: below the head, its
      header is the old one, or collides with it and names the same parent; at the head, it names the same parent,
      whatever else it says. The transactions of a block are not covered anywhere. */
  lemma TamperingDetected(env: Env, blocks: seq<Block>, k: nat, b: Block)
    requires Linked(env, blocks) && k < |blocks|
    ensures var sameParent := k == 0 || b.header.parentHash == blocks[k].header.parentHash;
      Validates(env, blocks[k := b]) <==>
        if k == |blocks| - 1 then sameParent
        else b.header == blocks[k].header || (sameParent && HeadersCollide(env, b.header, blocks[k].header))
  {
    hide BlockHash, Validates, HeadersCollide;
    ReplacedLinks(env, blocks, k, b);
    EqualHashes(env, b, blocks[k]);
  }

  // ----- the chain object -----

  datatype AppendResult = Appended(hash: Hash) | WrongParentHash | WrongNumber | NotEncodable

  class Blockchain {
    const env: Env
    var blocks: seq<Block>
    var blockHashes: seq<Hash>

    /** The cached hashes are the blocks' hashes, and each block extends the one before it. */
    ghost predicate Valid()
      reads this
    {
      && Linked(env, blocks)
      && |blockHashes| == |blocks|
      && forall i | 0 <= i < |blocks| :: BlockHash(env, blocks[i]) == Some(blockHashes[i])
    }

    constructor (env: Env, genesis: Block)
      requires BlockHash(env, genesis).Some?
      ensures Valid() && blocks == [genesis] && this.env == env
    {
      this.env := env;
      blocks := [genesis];
      blockHashes := [BlockHash(env, genesis).value];
    }

    function Height(): nat
      requires Valid()
      reads this
    {
      blocks[|blocks| - 1].header.number
    }

    method AppendBlock(block: Block) returns (r: AppendResult)
      requires Valid()
      modifies this
      ensures Valid()
      ensures var head := old(blocks)[|old(blocks)| - 1];
        r == (if block.header.parentHash != BlockHash(env, head).value then WrongParentHash
              else if block.header.number != head.header.number + 1 then WrongNumber
              else if BlockHash(env, block).None? then NotEncodable
              else Appended(BlockHash(env, block).value))
      ensures blocks == if r.Appended? then old(blocks) + [block] else old(blocks)
    {
      hide BlockHash;
      var expectedParentHash := blockHashes[|blockHashes| - 1];
      if block.header.parentHash != expectedParentHash { return WrongParentHash; }
      var expectedNumber := Height() + 1;
      if block.header.number != expectedNumber { return WrongNumber; }
      var newHash := BlockHash(env, block);
      if newHash.None? { return NotEncodable; }
      LinkedAppend(env, blocks, block);
      blocks := blocks + [block];
      blockHashes := blockHashes + [newHash.value];
      return Appended(newHash.value);
    }

    method GetBlockByNumber(number: int) returns (r: Option<Block>)
      ensures r.Some? <==> 0 <= number < |blocks|
      ensures r.Some? ==> r.value == blocks[number]
      ensures r.Some? && FromGenesis(env, blocks) ==> r.value.header.number == number
    {
      if number < 0 || number >= |blocks| { return None; }
      if FromGenesis(env, blocks) { NumbersAreIndices(env, blocks, number); }
      return Some(blocks[number]);
    }

    /** For any list of blocks, tampered with or not; None stands for a block that cannot be hashed. */
    method ValidateChain() returns (r: Option<bool>)
      ensures r == Some(true) <==> Validates(env, blocks)
      ensures r == Some(false) ==> exists i: nat :: BreaksAt(env, blocks, i, true)
      ensures r == None ==> exists i: nat :: BreaksAt(env, blocks, i, false)
      ensures Valid() ==> r == Some(true)
    {
      hide BlockHash, LinkHolds, Linked;
      LinkedValidates(env, blocks);
      var i := 1;
      while i < |blocks|
        invariant 1 <= i && (i <= |blocks| || blocks == [])
        invariant forall j | 0 <= j < i - 1 && j < |blocks| - 1 :: LinkHolds(env, blocks, j)
      {
        LinkMeans(env, blocks, i - 1);
        var expectedParent := BlockHash(env, blocks[i - 1]);
        if expectedParent != Some(blocks[i].header.parentHash) {
          assert BreaksAt(env, blocks, i - 1, expectedParent.Some?);
          return if expectedParent.None? then None else Some(false);
        }
        i := i + 1;
      }
      return Some(true);
    }
  }

  /** A block made for the head of a chain is accepted by it whenever it can be hashed. */
  lemma CreatedBlockLinks(env: Env, blocks: seq<Block>, transactions: seq<Transaction>, stateRoot: ByteSeq,
                          timestamp: nat)
    requires Linked(env, blocks)
    ensures var made := CreateBlock(env, blocks[|blocks| - 1], transactions, stateRoot, timestamp);
      && made.Some?
      && made.value.header.parentHash == BlockHash(env, blocks[|blocks| - 1]).value
      && made.value.header.number == blocks[|blocks| - 1].header.number + 1
      && made.value.header.timestamp == timestamp && made.value.header.stateRoot == stateRoot
      && made.value.transactions == transactions
      && (BlockHash(env, made.value).Some? <==> Linked(env, blocks + [made.value]))
  {
    hide BlockHash;
    var made := CreateBlock(env, blocks[|blocks| - 1], transactions, stateRoot, timestamp).value;
    if BlockHash(env, made).Some? {
      LinkedAppend(env, blocks, made);
    } else {
      assert (blocks + [made])[|blocks|] == made;
    }
  }
}
