/** The pool that blocks of bytes are taken from and given back to, and what queues of them hold. */
module DataBlocks {

  const BLOCKSIZE := 16384
  const BLOCKS_AT_ONCE := 10

  type Block = array<bv8>

  /** A block with how much of it is in use and how much of that has been consumed. */
  datatype DataBlock = DataBlock(datap: Block, datalen: nat, offset: nat) {
    function RawData(): Block { datap }

    function DataLength(): int { datalen - offset }

    function Consume(consumed: nat): DataBlock { this.(offset := offset + consumed) }

    /** There is something left in it. */
    predicate Fits() { offset < datalen <= BLOCKSIZE }
  }

  ghost predicate Distinct(s: seq<Block>) { forall i, j :: 0 <= i < j < |s| ==> s[i] != s[j] }

  class DataBlockPool {
    var blocks: seq<Block>
    var availableblocks: seq<Block>
    var totalblocks: nat

    /** Every block was allocated once, is counted, and is on offer at most once. */
    ghost predicate Valid()
      reads this
    {
      && totalblocks == |blocks| && Distinct(blocks) && Distinct(availableblocks)
      && (forall b <- availableblocks :: b in blocks)
      && (forall b <- blocks :: b.Length == BLOCKSIZE)
    }

    /** The blocks that have been taken and not given back. */
    ghost function Lent(): set<Block>
      reads this
    {
      set b | b in blocks && b !in availableblocks
    }

    constructor ()
      ensures Valid() && Lent() == {} && totalblocks == BLOCKS_AT_ONCE
      ensures forall b <- blocks :: fresh(b)
    {
      blocks, availableblocks, totalblocks := [], [], 0;
      new;
      AllocateNewBlocks();
    }

    method GetBlock() returns (block: Block)
      requires Valid()
      modifies this
      ensures Valid() && old(blocks) <= blocks && block in blocks
      ensures block !in old(Lent()) && Lent() == old(Lent()) + {block}
      ensures fresh(block) || block in old(availableblocks)
      ensures forall b <- blocks :: b in old(blocks) || fresh(b)
      ensures forall b <- availableblocks :: b in old(availableblocks) || fresh(b)
    {
      if availableblocks == [] {
        AllocateNewBlocks();
      }
      ghost var all := availableblocks;
      block := availableblocks[|availableblocks| - 1];
      availableblocks := availableblocks[..|availableblocks| - 1];
      assert all == availableblocks + [block];
    }

    /** Only a block that is out may come back. */
    method ReturnBlock(block: Block)
      requires Valid() && block in Lent()
      modifies this`availableblocks
      ensures Valid() && Lent() == old(Lent()) - {block} && availableblocks == old(availableblocks) + [block]
    {
      availableblocks := availableblocks + [block];
    }

    method AllocateNewBlocks()
      requires Valid()
      modifies this
      ensures Valid() && Lent() == old(Lent())
      ensures totalblocks == old(totalblocks) + BLOCKS_AT_ONCE
      ensures old(blocks) <= blocks && old(availableblocks) <= availableblocks
      ensures |availableblocks| == |old(availableblocks)| + BLOCKS_AT_ONCE
      ensures forall b <- blocks :: b in old(blocks) || fresh(b)
      ensures forall b <- availableblocks :: b in old(availableblocks) || fresh(b)
    {
      var i := 0;
      while i < BLOCKS_AT_ONCE
        invariant 0 <= i <= BLOCKS_AT_ONCE && Valid() && Lent() == old(Lent())
        invariant totalblocks == old(totalblocks) + i && |availableblocks| == |old(availableblocks)| + i
        invariant old(blocks) <= blocks && old(availableblocks) <= availableblocks
        invariant forall b <- blocks :: b in old(blocks) || fresh(b)
        invariant forall b <- availableblocks :: b in old(availableblocks) || fresh(b)
      {
        var block := new bv8[BLOCKSIZE];
        blocks := blocks + [block];
        availableblocks := availableblocks + [block];
        totalblocks := totalblocks + 1;
        i := i + 1;
      }
    }
  }

  // ---- queues of blocks ----

  ghost function BlocksOf(queue: seq<DataBlock>): (r: set<Block>) {
    set k | 0 <= k < |queue| :: queue[k].datap
  }

  /** Every block has something left in it, and none is queued twice. */
  ghost predicate Sound(queue: seq<DataBlock>) {
    && (forall b <- queue :: b.Fits())
    && (forall i, j :: 0 <= i < j < |queue| ==> queue[i].datap != queue[j].datap)
  }

  /** What the blocks that are out hold. */
  type Contents = map<Block, seq<bv8>>

  ghost predicate Full(held: Contents) { forall b <- held :: |held[b]| == BLOCKSIZE }

  /** What is left of one block. */
  ghost function Left(held: Contents, b: DataBlock): (r: seq<bv8>)
    requires Full(held) && b.datap in held && b.Fits()
    ensures |r| == b.DataLength()
  {
    held[b.datap][b.offset..b.datalen]
  }

  lemma LeftTaken(held: Contents, b: DataBlock, n: nat)
    requires Full(held) && b.datap in held && b.Fits() && n <= b.DataLength()
    ensures held[b.datap][b.offset..b.offset + n] == Left(held, b)[..n]
  {
  }

  /** The bytes waiting in a queue. */
  ghost function Pending(held: Contents, queue: seq<DataBlock>): (r: seq<bv8>)
    requires Full(held) && Sound(queue) && BlocksOf(queue) <= held.Keys
    decreases |queue|
  {
    if queue == [] then []
    else
      BlocksPop(queue);
      Left(held, queue[0]) + Pending(held, queue[1..])
  }

  lemma BlocksPush(queue: seq<DataBlock>, b: DataBlock)
    ensures BlocksOf(queue + [b]) == BlocksOf(queue) + {b.datap}
    ensures Sound(queue) && b.Fits() && b.datap !in BlocksOf(queue) ==> Sound(queue + [b])
  {
    assert forall k :: 0 <= k < |queue| ==> (queue + [b])[k] == queue[k];
    assert (queue + [b])[|queue|] == b;
    assert forall k :: 0 <= k < |queue| ==> queue[k].datap in BlocksOf(queue);
  }

  lemma BlocksPop(queue: seq<DataBlock>)
    requires Sound(queue) && queue != []
    ensures Sound(queue[1..]) && BlocksOf(queue[1..]) == BlocksOf(queue) - {queue[0].datap}
    ensures queue[0].datap in BlocksOf(queue) && queue[0].Fits()
  {
    assert forall k :: 1 <= k < |queue| ==> queue[1..][k - 1] == queue[k];
  }

  lemma BlocksConsume(queue: seq<DataBlock>, n: nat)
    requires Sound(queue) && queue != [] && n < queue[0].DataLength()
    ensures var after := queue[0 := queue[0].Consume(n)]; Sound(after) && BlocksOf(after) == BlocksOf(queue)
  {
    var after := queue[0 := queue[0].Consume(n)];
    forall c <- after ensures c.Fits() {
      var k :| 0 <= k < |after| && after[k] == c;
      assert queue[k] in queue;
    }
    assert forall k :: 0 <= k < |queue| ==> after[k].datap == queue[k].datap;
  }

  /** Only what a queue's own blocks hold matters. */
  lemma {:induction false} PendingSame(held: Contents, other: Contents, queue: seq<DataBlock>)
    requires Full(held) && Full(other) && Sound(queue) && BlocksOf(queue) <= held.Keys && BlocksOf(queue) <= other.Keys
    requires forall b <- BlocksOf(queue) :: held[b] == other[b]
    ensures Pending(held, queue) == Pending(other, queue)
    decreases |queue|
  {
    if queue != [] {
      BlocksPop(queue);
      PendingSame(held, other, queue[1..]);
    }
  }

  lemma {:induction false} PendingPush(held: Contents, queue: seq<DataBlock>, b: DataBlock)
    requires Full(held) && Sound(queue) && b.Fits() && b.datap !in BlocksOf(queue)
    requires BlocksOf(queue) + {b.datap} <= held.Keys
    ensures Sound(queue + [b]) && BlocksOf(queue + [b]) <= held.Keys
    ensures Pending(held, queue + [b]) == Pending(held, queue) + Left(held, b)
    decreases |queue|
  {
    BlocksPush(queue, b);
    if queue != [] {
      BlocksPop(queue);
      assert (queue + [b])[1..] == queue[1..] + [b];
      PendingPush(held, queue[1..], b);
    } else {
      assert (queue + [b])[1..] == [];
    }
  }

  lemma PendingConsume(held: Contents, queue: seq<DataBlock>, n: nat)
    requires Full(held) && Sound(queue) && BlocksOf(queue) <= held.Keys && queue != [] && n < queue[0].DataLength()
    ensures var after := queue[0 := queue[0].Consume(n)];
      Sound(after) && BlocksOf(after) == BlocksOf(queue) && queue[0].datap in held && queue[0].Fits() &&
      Pending(held, queue) == Left(held, queue[0])[..n] + Pending(held, after)
  {
    BlocksConsume(queue, n);
    BlocksPop(queue);
    var b, after := queue[0], queue[0 := queue[0].Consume(n)];
    LeftConsume(held, b, n);
    PendingFront(held, queue);
    PendingFront(held, after);
    hide Left, Pending;
    assert after[1..] == queue[1..];
  }

  lemma PendingFront(held: Contents, queue: seq<DataBlock>)
    requires Full(held) && Sound(queue) && BlocksOf(queue) <= held.Keys && queue != []
    ensures Sound(queue[1..]) && BlocksOf(queue[1..]) <= held.Keys && queue[0].datap in held && queue[0].Fits()
    ensures Pending(held, queue) == Left(held, queue[0]) + Pending(held, queue[1..])
  {
    BlocksPop(queue);
  }

  lemma LeftConsume(held: Contents, b: DataBlock, n: nat)
    requires Full(held) && b.datap in held && b.Fits() && n < b.DataLength()
    ensures Left(held, b) == Left(held, b)[..n] + Left(held, b.Consume(n))
  {
  }

  /** The number of bytes waiting. */
  function SizeOf(queue: seq<DataBlock>): int {
    if queue == [] then 0 else queue[0].DataLength() + SizeOf(queue[1..])
  }

  lemma {:induction false} PendingSize(held: Contents, queue: seq<DataBlock>)
    requires Full(held) && Sound(queue) && BlocksOf(queue) <= held.Keys
    ensures |Pending(held, queue)| == SizeOf(queue)
    decreases |queue|
  {
    if queue != [] {
      PendingFront(held, queue);
      PendingSize(held, queue[1..]);
    }
  }
}
