/** Writing a queue of blocks out, one system call at a time. */
module Writes {
  import opened DataBlocks

  /** What write() or SSL_write() answers. */
  datatype WriteResult = Wrote(n: nat) | WriteAgain | WriteFailed

  /** How a flush of a send queue ends. */
  datatype Flush = Emptied | Blocked | Broken

  /** One write: what it leaves of the queue, and whether it ends the flush or the next one follows. */
  function WriteOne(queue: seq<DataBlock>, r: WriteResult): (seq<DataBlock>, Flush)
    requires queue != []
  {
    match r
    case WriteAgain => (queue, Blocked)
    case WriteFailed => (queue, Broken)
    case Wrote(n) =>
      if n < queue[0].DataLength() then (queue[0 := queue[0].Consume(n)], Blocked) else (queue[1..], Emptied)
  }

  /** What the writes leave of a queue, from the t-th on: block after block, until one takes less than all. */
  function Flushes(queue: seq<DataBlock>, writes: nat -> WriteResult, t: nat): (seq<DataBlock>, Flush)
    decreases |queue|
  {
    if queue == [] then ([], Emptied)
    else
      WriteShrinks(queue, writes(t));
      var (rest, end) := WriteOne(queue, writes(t));
      if end == Emptied then Flushes(rest, writes, t + 1) else (rest, end)
  }

  lemma WriteShrinks(queue: seq<DataBlock>, r: WriteResult)
    requires queue != []
    ensures WriteOne(queue, r).1 == Emptied ==> |WriteOne(queue, r).0| < |queue|
  {
  }

  lemma {:induction false} FlushesEnds(queue: seq<DataBlock>, writes: nat -> WriteResult, t: nat)
    ensures Flushes(queue, writes, t).1 == Emptied ==> Flushes(queue, writes, t).0 == []
    ensures Flushes(queue, writes, t).0 == [] ==> Flushes(queue, writes, t).1 == Emptied
    ensures queue == [] ==> Flushes(queue, writes, t).0 == []
    decreases |queue|
  {
    if queue != [] {
      WriteShrinks(queue, writes(t));
      if WriteOne(queue, writes(t)).1 == Emptied {
        FlushesEnds(WriteOne(queue, writes(t)).0, writes, t + 1);
      }
    }
  }

  // ---- what the answers say was written ----

  /** An answer tells how many of the bytes offered were taken; never more than there were. */
  function Took(r: WriteResult, offered: nat): nat {
    if r.Wrote? then if r.n < offered then r.n else offered else 0
  }

  predicate TookAll(r: WriteResult, b: DataBlock) { r.Wrote? && r.n >= b.DataLength() }

  ghost predicate AllFit(queue: seq<DataBlock>) { forall i :: 0 <= i < |queue| ==> queue[i].Fits() }

  lemma SoundFits(queue: seq<DataBlock>)
    requires Sound(queue)
    ensures AllFit(queue)
  {
  }

  /** The bytes taken when block after block is offered, each after the one before it was taken whole. */
  function Taken(queue: seq<DataBlock>, writes: nat -> WriteResult, t: nat): nat
    requires AllFit(queue)
    decreases |queue|
  {
    if queue == [] then 0
    else
      Took(writes(t), queue[0].DataLength()) +
      (if TookAll(writes(t), queue[0]) then Taken(queue[1..], writes, t + 1) else 0)
  }

  /** Every block is taken whole. */
  ghost predicate AllTaken(queue: seq<DataBlock>, writes: nat -> WriteResult, t: nat) {
    forall k :: 0 <= k < |queue| ==> TookAll(writes(t + k), queue[k])
  }

  /** Block k is the first that is not taken whole. */
  ghost predicate StopsAt(queue: seq<DataBlock>, writes: nat -> WriteResult, t: nat, k: nat) {
    k < |queue| && !TookAll(writes(t + k), queue[k]) && forall j :: 0 <= j < k ==> TookAll(writes(t + j), queue[j])
  }

  /** The first answer that is not that a block was taken whole is an error. */
  ghost predicate Fails(queue: seq<DataBlock>, writes: nat -> WriteResult, t: nat) {
    exists k: nat :: StopsAt(queue, writes, t, k) && writes(t + k) == WriteFailed
  }

  lemma OneTaken(queue: seq<DataBlock>, r: WriteResult)
    requires queue != [] && AllFit(queue)
    ensures AllFit(WriteOne(queue, r).0)
    ensures SizeOf(WriteOne(queue, r).0) + Took(r, queue[0].DataLength()) == SizeOf(queue)
    ensures WriteOne(queue, r).1 == Emptied <==> TookAll(r, queue[0])
    ensures WriteOne(queue, r).1 == Broken <==> r == WriteFailed
    ensures TookAll(r, queue[0]) ==> WriteOne(queue, r).0 == queue[1..]
  {
  }

  /** A flush takes off the queue exactly what the answers say was taken; it goes on only after an answer that took the
      whole front block, and so it ends with the queue empty, with an error, or with a block not taken whole. */
  lemma {:induction false} FlushTakes(queue: seq<DataBlock>, writes: nat -> WriteResult, t: nat)
    requires AllFit(queue)
    ensures var (rest, end) := Flushes(queue, writes, t);
      && SizeOf(rest) + Taken(queue, writes, t) == SizeOf(queue)
      && (end == Emptied <==> AllTaken(queue, writes, t)) && (end == Broken <==> Fails(queue, writes, t))
    decreases |queue|
  {
    hide WriteOne;
    if queue != [] {
      OneTaken(queue, writes(t));
      if TookAll(writes(t), queue[0]) {
        FlushTakes(queue[1..], writes, t + 1);
        Later(queue, writes, t);
      } else {
        assert StopsAt(queue, writes, t, 0);
        assert forall k: nat :: StopsAt(queue, writes, t, k) ==> k == 0;
        assert !AllTaken(queue, writes, t);
      }
    }
  }

  /** The first block was taken whole: the rest of the queue decides. */
  lemma Later(queue: seq<DataBlock>, writes: nat -> WriteResult, t: nat)
    requires queue != [] && TookAll(writes(t), queue[0])
    ensures AllTaken(queue, writes, t) <==> AllTaken(queue[1..], writes, t + 1)
    ensures Fails(queue, writes, t) <==> Fails(queue[1..], writes, t + 1)
  {
    var rest := queue[1..];
    assert forall k :: 1 <= k < |queue| ==> queue[k] == rest[k - 1] && writes(t + k) == writes(t + 1 + (k - 1));
    assert forall k :: 0 <= k < |rest| ==> rest[k] == queue[k + 1];
    if Fails(queue, writes, t) {
      var k: nat :| StopsAt(queue, writes, t, k) && writes(t + k) == WriteFailed;
      assert StopsAt(rest, writes, t + 1, k - 1);
    }
    if Fails(rest, writes, t + 1) {
      var k: nat :| StopsAt(rest, writes, t + 1, k) && writes(t + 1 + k) == WriteFailed;
      assert StopsAt(queue, writes, t, k + 1);
    }
  }
}
