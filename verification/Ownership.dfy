/** Which socket's queue a block of the send pool is in. */
module Ownership {
  import opened DataBlocks
  import opened SocketTable

  /** Every queue is sound, no block is in two of them, and the blocks lent are exactly those queued. */
  ghost predicate Owned(sockets: map<int, SocketInfo>, lent: set<Block>) {
    && (forall id <- sockets :: Sound(sockets[id].sendqueue) && BlocksOf(sockets[id].sendqueue) <= lent)
    && (forall i, j, b ::
      (i in sockets && j in sockets && b in BlocksOf(sockets[i].sendqueue) && b in BlocksOf(sockets[j].sendqueue))
        ==> i == j)
    && (forall b <- lent :: exists id :: id in sockets && b in BlocksOf(sockets[id].sendqueue))
  }

  lemma OwnQueue(sockets: map<int, SocketInfo>, lent: set<Block>, id: int)
    requires Owned(sockets, lent) && id in sockets
    ensures Sound(sockets[id].sendqueue) && BlocksOf(sockets[id].sendqueue) <= lent
  {
  }

  /** The books kept of what goes through the send queues: what the blocks lent hold, and everything ever given
      to sendData for a socket and written for it. */
  datatype Ledger = Ledger(held: Contents, sent: map<int, seq<bv8>>, written: map<int, seq<bv8>>)

  /** What was written for a socket, followed by what its queue holds, is what was sent. */
  ghost predicate Flows(l: Ledger, id: int, queue: seq<DataBlock>)
    requires Full(l.held) && Sound(queue) && BlocksOf(queue) <= l.held.Keys
  {
    id in l.sent && id in l.written && l.written[id] + Pending(l.held, queue) == l.sent[id]
  }

  ghost predicate Kept(sockets: map<int, SocketInfo>, l: Ledger) {
    && Full(l.held) && Owned(sockets, l.held.Keys)
    && forall id <- sockets :: Flows(l, id, sockets[id].sendqueue)
  }

  /** A queue changes, and what is lent with it. */
  lemma OneQueue(sockets: map<int, SocketInfo>, lent: set<Block>, id: int, s: SocketInfo, after: set<Block>)
    requires Owned(sockets, lent) && id in sockets && Sound(s.sendqueue)
    requires var was, now := BlocksOf(sockets[id].sendqueue), BlocksOf(s.sendqueue);
      after == lent - was + now && forall b <- now :: b in was || b !in lent
    ensures Owned(sockets[id := s], after)
  {
    var u := sockets[id := s];
    forall b <- after ensures exists k :: k in u && b in BlocksOf(u[k].sendqueue) {
      if b in BlocksOf(s.sendqueue) {
        assert id in u && b in BlocksOf(u[id].sendqueue);
      } else {
        var k :| k in sockets && b in BlocksOf(sockets[k].sendqueue);
        assert k in u && b in BlocksOf(u[k].sendqueue);
      }
    }
    forall k, b | k in u && b in BlocksOf(u[k].sendqueue)
      ensures b in after && (b in BlocksOf(s.sendqueue) ==> k == id)
    {
      if k != id {
        assert b in lent - BlocksOf(sockets[id].sendqueue);
      }
    }
  }

  /** A socket goes, with its queue. */
  lemma OneGone(sockets: map<int, SocketInfo>, lent: set<Block>, id: int)
    requires Owned(sockets, lent) && id in sockets
    ensures Owned(sockets - {id}, lent - BlocksOf(sockets[id].sendqueue))
  {
    var u, after := sockets - {id}, lent - BlocksOf(sockets[id].sendqueue);
    forall b <- after ensures exists k :: k in u && b in BlocksOf(u[k].sendqueue) {
      var k :| k in sockets && b in BlocksOf(sockets[k].sendqueue);
      assert k in u && b in BlocksOf(u[k].sendqueue);
    }
  }

  /** A socket comes, with nothing queued. */
  lemma OneMore(sockets: map<int, SocketInfo>, lent: set<Block>, id: int, s: SocketInfo)
    requires Owned(sockets, lent) && id !in sockets && s.sendqueue == []
    ensures Owned(sockets[id := s], lent)
  {
    var u := sockets[id := s];
    assert BlocksOf(s.sendqueue) == {};
    forall b <- lent ensures exists k :: k in u && b in BlocksOf(u[k].sendqueue) {
      var k :| k in sockets && b in BlocksOf(sockets[k].sendqueue);
      assert k in u && b in BlocksOf(u[k].sendqueue);
    }
  }

  /** Sockets change, but not their queues. */
  lemma SameQueues(sockets: map<int, SocketInfo>, lent: set<Block>, after: map<int, SocketInfo>)
    requires Owned(sockets, lent) && after.Keys == sockets.Keys
    requires forall id <- sockets :: after[id].sendqueue == sockets[id].sendqueue
    ensures Owned(after, lent)
  {
    forall b <- lent ensures exists k :: k in after && b in BlocksOf(after[k].sendqueue) {
      var k :| k in sockets && b in BlocksOf(sockets[k].sendqueue);
      assert k in after && b in BlocksOf(after[k].sendqueue);
    }
    forall k | k in after ensures k in sockets && after[k].sendqueue == sockets[k].sendqueue {
      assert k in sockets.Keys;
    }
  }

  // ---- the books under every change of a queue ----

  lemma KeptSame(sockets: map<int, SocketInfo>, l: Ledger, after: map<int, SocketInfo>)
    requires Kept(sockets, l) && after.Keys == sockets.Keys
    requires forall id <- sockets :: after[id].sendqueue == sockets[id].sendqueue
    ensures Kept(after, l)
  {
    SameQueues(sockets, l.held.Keys, after);
    forall id <- after ensures Flows(l, id, after[id].sendqueue) {
      assert id in sockets.Keys;
    }
  }

  lemma KeptOne(sockets: map<int, SocketInfo>, l: Ledger, id: int, s: SocketInfo)
    requires Kept(sockets, l) && id in sockets && s.sendqueue == sockets[id].sendqueue
    ensures Kept(sockets[id := s], l)
  {
    KeptSame(sockets, l, sockets[id := s]);
  }

  function Opened(l: Ledger, id: int): Ledger { l.(sent := l.sent[id := []], written := l.written[id := []]) }

  lemma KeptNew(sockets: map<int, SocketInfo>, l: Ledger, id: int, s: SocketInfo)
    requires Kept(sockets, l) && id !in sockets && s.sendqueue == []
    ensures Kept(sockets[id := s], Opened(l, id))
  {
    OneMore(sockets, l.held.Keys, id, s);
  }

  /** Blocks not in the socket's queue hold what they held, and the other sockets' books are as they were. */
  ghost predicate OnlyItsOwn(l: Ledger, m: Ledger, id: int, was: set<Block>) {
    && (forall b <- l.held :: b !in was ==> b in m.held && m.held[b] == l.held[b])
    && (forall k <- l.sent :: k != id ==> k in m.sent && m.sent[k] == l.sent[k])
    && (forall k <- l.written :: k != id ==> k in m.written && m.written[k] == l.written[k])
  }

  lemma OtherFlows(sockets: map<int, SocketInfo>, l: Ledger, m: Ledger, id: int, k: int)
    requires Kept(sockets, l) && k in sockets && id in sockets && k != id && Full(m.held)
    requires OnlyItsOwn(l, m, id, BlocksOf(sockets[id].sendqueue))
    ensures Sound(sockets[k].sendqueue) && BlocksOf(sockets[k].sendqueue) <= m.held.Keys
    ensures Flows(m, k, sockets[k].sendqueue)
  {
    var queue := sockets[k].sendqueue;
    forall b <- BlocksOf(queue) ensures b in m.held && m.held[b] == l.held[b] {
      assert b !in BlocksOf(sockets[id].sendqueue);
    }
    PendingSame(l.held, m.held, queue);
    assert Flows(l, k, queue);
  }

  /** Nothing was sent, and written only for one socket. */
  ghost predicate OnlyWritten(l: Ledger, m: Ledger, id: int) {
    && m.sent == l.sent && m.written.Keys == l.written.Keys && id in l.written && l.written[id] <= m.written[id]
    && forall k <- l.written :: k != id ==> k in m.written && m.written[k] == l.written[k]
  }

  lemma OnlyWrittenSame(l: Ledger, m: Ledger, n: Ledger, id: int)
    requires OnlyWritten(l, m, id) && n.sent == m.sent && n.written == m.written
    ensures OnlyWritten(l, n, id)
  {
  }

  lemma OnlyWrittenOn(l: Ledger, m: Ledger, n: Ledger, id: int)
    requires OnlyWritten(l, m, id) && OnlyWritten(m, n, id)
    ensures OnlyWritten(l, n, id)
  {
    forall k | k in l.written && k != id ensures n.written[k] == l.written[k] {
      assert k in l.written.Keys;
    }
  }

  /** So only the socket's own stream needs to be looked at. */
  lemma OneFlows(sockets: map<int, SocketInfo>, l: Ledger, m: Ledger, id: int, s: SocketInfo)
    requires Kept(sockets, l) && id in sockets && Full(m.held) && Sound(s.sendqueue)
    requires var was, now := BlocksOf(sockets[id].sendqueue), BlocksOf(s.sendqueue);
      && m.held.Keys == l.held.Keys - was + now && (forall b <- now :: b in was || b !in l.held.Keys)
      && OnlyItsOwn(l, m, id, was)
    requires BlocksOf(s.sendqueue) <= m.held.Keys && Flows(m, id, s.sendqueue)
    ensures Kept(sockets[id := s], m)
  {
    hide Flows, Sound;
    OneQueue(sockets, l.held.Keys, id, s, m.held.Keys);
    forall k | k in sockets && k != id
      ensures Sound(sockets[k].sendqueue) && BlocksOf(sockets[k].sendqueue) <= m.held.Keys
      ensures Flows(m, k, sockets[k].sendqueue)
    {
      OtherFlows(sockets, l, m, id, k);
    }
  }

  lemma ItsQueue(sockets: map<int, SocketInfo>, l: Ledger, id: int)
    requires Kept(sockets, l) && id in sockets
    ensures Full(l.held) && Sound(sockets[id].sendqueue) && BlocksOf(sockets[id].sendqueue) <= l.held.Keys
    ensures Flows(l, id, sockets[id].sendqueue)
  {
  }

  /** A filled block is queued. */
  function Sent(l: Ledger, id: int, b: Block, contents: seq<bv8>, chunk: seq<bv8>): Ledger
    requires id in l.sent
  {
    l.(held := l.held[b := contents], sent := l.sent[id := l.sent[id] + chunk])
  }

  lemma KeptPush(sockets: map<int, SocketInfo>, l: Ledger, id: int, b: DataBlock, contents: seq<bv8>)
    requires Kept(sockets, l) && id in sockets && b.Fits() && b.offset == 0
    requires b.datap !in l.held && |contents| == BLOCKSIZE
    ensures id in l.sent
    ensures Kept(sockets[id := sockets[id].(sendqueue := sockets[id].sendqueue + [b])],
                 Sent(l, id, b.datap, contents, contents[..b.datalen]))
  {
    hide Kept;
    ItsQueue(sockets, l, id);
    var queue := sockets[id].sendqueue;
    var m := Sent(l, id, b.datap, contents, contents[..b.datalen]);
    BlocksPush(queue, b);
    PendingPush(m.held, queue, b);
    PendingSame(l.held, m.held, queue);
    assert m.written[id] + Pending(m.held, queue + [b]) == m.sent[id] by {
      assert l.written[id] + (Pending(l.held, queue) + contents[..b.datalen])
        == (l.written[id] + Pending(l.held, queue)) + contents[..b.datalen];
    }
    OneFlows(sockets, l, m, id, sockets[id].(sendqueue := queue + [b]));
  }

  /** The front block is written to its end and goes. */
  function Popped(l: Ledger, id: int, b: Block, bytes: seq<bv8>): Ledger
    requires id in l.written
  {
    l.(held := l.held - {b}, written := l.written[id := l.written[id] + bytes])
  }

  lemma KeptPop(sockets: map<int, SocketInfo>, l: Ledger, id: int)
    requires Kept(sockets, l) && id in sockets && sockets[id].sendqueue != []
    ensures var b := sockets[id].sendqueue[0];
      id in l.written && b.datap in l.held && b.Fits() && Full(l.held) &&
      Kept(sockets[id := sockets[id].(sendqueue := sockets[id].sendqueue[1..])],
           Popped(l, id, b.datap, Left(l.held, b)))
  {
    hide Kept;
    ItsQueue(sockets, l, id);
    var queue := sockets[id].sendqueue;
    BlocksPop(queue);
    var front := Left(l.held, queue[0]);
    var m := Popped(l, id, queue[0].datap, front);
    PendingSame(l.held, m.held, queue[1..]);
    assert m.written[id] + Pending(m.held, queue[1..]) == m.sent[id] by {
      assert (l.written[id] + front) + Pending(l.held, queue[1..])
        == l.written[id] + (front + Pending(l.held, queue[1..]));
    }
    OneFlows(sockets, l, m, id, sockets[id].(sendqueue := queue[1..]));
  }

  /** Part of the front block is written. */
  function Consumed(l: Ledger, id: int, bytes: seq<bv8>): Ledger
    requires id in l.written
  {
    l.(written := l.written[id := l.written[id] + bytes])
  }

  lemma KeptConsume(sockets: map<int, SocketInfo>, l: Ledger, id: int, n: nat)
    requires Kept(sockets, l) && id in sockets && sockets[id].sendqueue != []
    requires n < sockets[id].sendqueue[0].DataLength()
    ensures var b := sockets[id].sendqueue[0];
      id in l.written && b.datap in l.held && b.Fits() && Full(l.held) &&
      Kept(sockets[id := sockets[id].(sendqueue := sockets[id].sendqueue[0 := b.Consume(n)])],
           Consumed(l, id, Left(l.held, b)[..n]))
  {
    hide Kept;
    ItsQueue(sockets, l, id);
    var queue := sockets[id].sendqueue;
    PendingConsume(l.held, queue, n);
    var after, front := queue[0 := queue[0].Consume(n)], Left(l.held, queue[0])[..n];
    var m := Consumed(l, id, front);
    assert m.written[id] + Pending(m.held, after) == m.sent[id] by {
      assert (l.written[id] + front) + Pending(l.held, after) == l.written[id] + (front + Pending(l.held, after));
    }
    OneFlows(sockets, l, m, id, sockets[id].(sendqueue := after));
  }

  lemma KeptClose(sockets: map<int, SocketInfo>, l: Ledger, id: int)
    requires Kept(sockets, l) && id in sockets
    ensures Kept(sockets - {id}, l.(held := l.held - BlocksOf(sockets[id].sendqueue)))
  {
    var m := l.(held := l.held - BlocksOf(sockets[id].sendqueue));
    OneGone(sockets, l.held.Keys, id);
    forall k | k in sockets && k != id
      ensures BlocksOf(sockets[k].sendqueue) <= m.held.Keys && Flows(m, k, sockets[k].sendqueue)
    {
      assert Flows(l, k, sockets[k].sendqueue);
      OtherFlows(sockets, l, m, id, k);
    }
  }

  /** With nothing sent, what was written has grown by what has left the queue. */
  lemma WrittenGrows(sockets: map<int, SocketInfo>, l: Ledger, after: map<int, SocketInfo>, m: Ledger, id: int)
    requires Kept(sockets, l) && Kept(after, m) && id in sockets && id in after && m.sent == l.sent
    ensures id in l.written && id in m.written
    ensures |m.written[id]| - |l.written[id]| == SizeOf(sockets[id].sendqueue) - SizeOf(after[id].sendqueue)
  {
    hide Kept;
    ItsQueue(sockets, l, id);
    ItsQueue(after, m, id);
    PendingSize(l.held, sockets[id].sendqueue);
    PendingSize(m.held, after[id].sendqueue);
  }
}
