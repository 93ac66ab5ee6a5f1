/** The I/O manager. Its methods are what happens under its lock; what the system calls answer comes in as
    parameters, and the events handed to the work manager go out as results. */
module IOManager {
  import opened DataBlocks
  import opened SocketTable
  import opened Ownership
  import opened Sets
  import opened Writes

  const MAX_SEND_BUFFER := 1048576

  /** An event for a socket, as the work manager gets it. */
  datatype Notice =
    | Fail(id: int) | ConnectingTo(id: int) | ConnectedTo(id: int) | Disconnected(id: int)
    | Data(id: int, len: nat) | NewConnection(id: int, newid: int) | SendComplete(id: int) | SslSuccess(id: int)

  /** What becomes of a name being resolved: `fd` is the socket made for it. */
  datatype Resolution = NotFound | NoSocket | NotBound(fd: int) | NotConnected(fd: int) | UnderWay(fd: int)

  datatype ReadResult = Received(n: nat) | EndOfFile | ReadAgain | ReadFailed

  datatype Handshake = Done | Unfinished | Refused

  /** What the outcome of a name resolution makes of the table. */
  function Resolved(t: Table, id: int, r: Resolution): Table
    requires id in t.sockets
  {
    if r.UnderWay? then Connecting(t, id, r.fd) else Close(t, id)
  }

  /** A name not found is reported without the socket's id, and not once the socket is closing. */
  function ResolvedEvents(id: int, r: Resolution, gaiasync: bool, closing: bool): seq<Notice> {
    match r
    case NotFound => if closing then [] else [Fail(-1)]
    case UnderWay(_) => if gaiasync && !closing then [ConnectingTo(id)] else []
    case _ => [Fail(id)]
  }

  function HandshakeEvents(id: int, h: Handshake, closing: bool): seq<Notice> {
    if closing then []
    else
      match h
      case Done => [SslSuccess(id)]
      case Unfinished => []
      case Refused => [Disconnected(id)]
  }

  /** After so many full blocks in one go, the priority drops: with the eighteenth. */
  function AfterBlocks(t: Table, id: int, blocks: nat): Table
    requires id in t.sockets
  {
    if blocks > 17 then Lowered(t, id) else t
  }

  function ReadEnd(t: Table, id: int, bufpos: nat, ok: bool, gone: bool): Table
    requires id in t.sockets
  {
    var u := if bufpos > 0 && !ok then AutoPaused(t, id) else t;
    if gone then Close(u, id) else u
  }

  function ReadEndEvents(id: int, bufpos: nat, gone: bool): seq<Notice> {
    (if bufpos > 0 then [Data(id, bufpos)] else []) + (if gone then [Disconnected(id)] else [])
  }

  function ReadIn(t: Table, id: int, total: nat, ok: bool, gone: bool): Table
    requires id in t.sockets
  {
    ReadEnd(AfterBlocks(t, id, total / BLOCKSIZE), id, total % BLOCKSIZE, ok, gone)
  }

  function ReadInEvents(id: int, total: nat, gone: bool): seq<Notice> {
    seq(total / BLOCKSIZE, i => Data(id, BLOCKSIZE)) + ReadEndEvents(id, total % BLOCKSIZE, gone)
  }

  lemma ReadInKeeps(t: Table, id: int, total: nat, ok: bool, gone: bool)
    requires Agree(t) && id in t.sockets
    ensures Agree(t) && Agree(AfterBlocks(t, id, total / BLOCKSIZE)) && Agree(ReadIn(t, id, total, ok, gone))
  {
    hide Agree;
    LoweredKeeps(t, id);
    var u := AfterBlocks(t, id, total / BLOCKSIZE);
    AutoPauseKeeps(u, id);
    CloseKeeps(u, id);
    CloseKeeps(AutoPaused(u, id), id);
  }

  lemma Quotient(total: nat, blocks: nat, rest: nat)
    requires total == blocks * BLOCKSIZE + rest && rest < BLOCKSIZE
    ensures total / BLOCKSIZE == blocks && total % BLOCKSIZE == rest
  {
  }

  /** What an out-handler makes of the table when its flush ends. */
  function WrittenOut(t: Table, id: int, rest: seq<DataBlock>, end: Flush, readafter: bool): Table
    requires id in t.sockets
  {
    match end
    case Blocked => Flushed(t, id, rest)
    case Broken => Close(t, id)
    case Emptied =>
      if t.sockets[id].closing then Close(t, id)
      else if readafter then Redirect(Flushed(t, id, []), id, IN)
      else Flushed(t, id, [])
  }

  /** A flush that closes the socket: a write fails, or everything is written and the socket was closing. */
  predicate Closes(end: Flush, closing: bool) { end == Broken || (end == Emptied && closing) }

  function WrittenOutEvents(id: int, closing: bool, end: Flush): seq<Notice> {
    if closing || end == Blocked then [] else if end == Broken then [Disconnected(id)] else [SendComplete(id)]
  }

  class IOManager {
    var socketinfomap: map<int, SocketInfo>
    var connecttimemap: map<int, int>
    var autopaused: set<int>
    var manuallypaused: set<int>
    var polling: map<int, Poll>
    var sockidcounter: nat
    const sendblockpool: DataBlockPool
    ghost var ledger: Ledger

    ghost function Value(): Table
      reads this
    {
      Table(socketinfomap, connecttimemap, autopaused, manuallypaused, polling, sockidcounter)
    }

    /** The send queues own the blocks lent, which hold what the books say and what has not been written. */
    ghost predicate Buffered()
      reads this, sendblockpool, sendblockpool.blocks
    {
      && sendblockpool.Valid() && ledger.held.Keys == sendblockpool.Lent()
      && Kept(socketinfomap, ledger)
      && forall b <- ledger.held :: b in sendblockpool.blocks && b[..] == ledger.held[b]
    }

    ghost predicate Valid()
      reads this, sendblockpool, sendblockpool.blocks
    {
      Buffered() && Agree(Value())
    }

    constructor ()
      ensures Valid() && Value() == Table(map[], map[], {}, {}, map[], 0) && ledger == Ledger(map[], map[], map[])
      ensures fresh(sendblockpool) && forall b <- sendblockpool.blocks :: fresh(b)
    {
      socketinfomap, connecttimemap, autopaused, manuallypaused := map[], map[], {}, {};
      polling, sockidcounter := map[], 0;
      sendblockpool := new DataBlockPool();
      ledger := Ledger(map[], map[], map[]);
      new;
      EmptyAgrees();
    }

    /** Block b is at position k of the send queue of socket id. */
    ghost predicate QueuedAt(b: Block, id: int, k: nat)
      reads this
    {
      id in socketinfomap && k < |socketinfomap[id].sendqueue| && socketinfomap[id].sendqueue[k].datap == b
    }

    /** Every block ever allocated is in exactly one place: on offer, or at one position of one send queue. */
    lemma BlockInOnePlace(b: Block)
      requires Valid() && b in sendblockpool.blocks
      ensures b in sendblockpool.availableblocks <==> !(exists id, k: nat :: QueuedAt(b, id, k))
      ensures forall i, k: nat, j, l: nat :: QueuedAt(b, i, k) && QueuedAt(b, j, l) ==> i == j && k == l
      ensures sendblockpool.totalblocks == |sendblockpool.blocks|
    {
      hide Agree;
      forall id, k: nat | QueuedAt(b, id, k) ensures b in sendblockpool.Lent() {
        OwnQueue(socketinfomap, sendblockpool.Lent(), id);
        assert b in BlocksOf(socketinfomap[id].sendqueue);
      }
      if b in sendblockpool.Lent() {
        var id :| id in socketinfomap && b in BlocksOf(socketinfomap[id].sendqueue);
        var k: nat :| k < |socketinfomap[id].sendqueue| && socketinfomap[id].sendqueue[k].datap == b;
        assert QueuedAt(b, id, k);
      }
      forall i, k: nat, j, l: nat | QueuedAt(b, i, k) && QueuedAt(b, j, l) ensures i == j && k == l {
        assert b in BlocksOf(socketinfomap[i].sendqueue) && b in BlocksOf(socketinfomap[j].sendqueue);
      }
    }

    /** What was written for a socket, followed by what its blocks really hold, is what was sent. */
    lemma StreamConserved(id: int)
      requires Valid() && id in socketinfomap
      ensures Full(ledger.held) && Sound(socketinfomap[id].sendqueue)
      ensures BlocksOf(socketinfomap[id].sendqueue) <= ledger.held.Keys && id in ledger.sent && id in ledger.written
      ensures ledger.written[id] + Pending(ledger.held, socketinfomap[id].sendqueue) == ledger.sent[id]
      ensures forall b <- BlocksOf(socketinfomap[id].sendqueue) :: b[..] == ledger.held[b]
    {
      ItsQueue(socketinfomap, ledger, id);
    }

    // ---- closing ----

    method CloseSocketIntern(id: int)
      requires Buffered()
      modifies this, sendblockpool`availableblocks
      ensures Buffered() && Value() == Close(old(Value()), id)
      ensures ledger.sent == old(ledger).sent && ledger.written == old(ledger).written
    {
      hide Kept;
      if id !in socketinfomap {
        return;
      }
      ItsQueue(socketinfomap, ledger, id);
      KeptClose(socketinfomap, ledger, id);
      ReturnAll(socketinfomap[id].sendqueue);
      Erase(id);
    }

    /** The socket is forgotten everywhere. */
    method Erase(id: int)
      requires id in socketinfomap
      modifies this
      ensures Value() == Close(old(Value()), id)
      ensures ledger == old(ledger.(held := ledger.held - BlocksOf(socketinfomap[id].sendqueue)))
    {
      polling := polling - {socketinfomap[id].fd};
      connecttimemap := connecttimemap - {id};
      autopaused := autopaused - {id};
      manuallypaused := manuallypaused - {id};
      ledger := ledger.(held := ledger.held - BlocksOf(socketinfomap[id].sendqueue));
      socketinfomap := socketinfomap - {id};
    }

    /** The blocks of a queue go back to the pool. */
    method ReturnAll(queue: seq<DataBlock>)
      requires sendblockpool.Valid() && Sound(queue) && BlocksOf(queue) <= sendblockpool.Lent()
      modifies sendblockpool`availableblocks
      ensures sendblockpool.Valid() && sendblockpool.Lent() == old(sendblockpool.Lent()) - BlocksOf(queue)
    {
      var i := 0;
      while i < |queue|
        invariant 0 <= i <= |queue| && sendblockpool.Valid()
        invariant sendblockpool.Lent() == old(sendblockpool.Lent()) - BlocksOf(queue[..i])
      {
        assert queue[..i + 1] == queue[..i] + [queue[i]];
        BlocksPush(queue[..i], queue[i]);
        sendblockpool.ReturnBlock(queue[i].RawData());
        i := i + 1;
      }
      assert queue[..i] == queue;
    }

    method CloseSocketNow(id: int)
      requires Valid()
      modifies this, sendblockpool`availableblocks
      ensures Valid() && Value() == Close(old(Value()), id)
      ensures ledger.sent == old(ledger).sent && ledger.written == old(ledger).written
    {
      hide Agree;
      CloseKeeps(Value(), id);
      CloseSocketIntern(id);
    }

    method CloseSocket(id: int)
      requires Valid()
      modifies this, sendblockpool`availableblocks
      ensures Valid() && Value() == CloseLater(old(Value()), id)
      ensures ledger.sent == old(ledger).sent && ledger.written == old(ledger).written
    {
      hide Agree, Kept;
      if id !in socketinfomap {
        return;
      }
      CloseLaterKeeps(Value(), id);
      if socketinfomap[id].sendqueue != [] {
        KeptOne(socketinfomap, ledger, id, socketinfomap[id].(closing := true));
        socketinfomap := socketinfomap[id := socketinfomap[id].(closing := true)];
      } else {
        CloseSocketIntern(id);
      }
    }

    // ---- polling ----

    method PollRead(id: int)
      requires Buffered() && id in socketinfomap
      modifies `socketinfomap, `polling
      ensures Buffered() && Value() == Watch(old(Value()), id, IN)
    {
      hide Kept;
      KeptOne(socketinfomap, ledger, id, socketinfomap[id].(direction := IN));
      socketinfomap := socketinfomap[id := socketinfomap[id].(direction := IN)];
      if !socketinfomap[id].paused {
        polling := AddFD(polling, socketinfomap[id].fd, Poll(IN, id));
      }
    }

    method PollWrite(id: int)
      requires Buffered() && id in socketinfomap
      modifies `socketinfomap, `polling
      ensures Buffered() && Value() == Watch(old(Value()), id, OUT)
    {
      hide Kept;
      KeptOne(socketinfomap, ledger, id, socketinfomap[id].(direction := OUT));
      socketinfomap := socketinfomap[id := socketinfomap[id].(direction := OUT)];
      if !socketinfomap[id].paused {
        polling := AddFD(polling, socketinfomap[id].fd, Poll(OUT, id));
      }
    }

    method SetPollRead(id: int)
      requires Buffered() && id in socketinfomap
      modifies `socketinfomap, `polling
      ensures Buffered() && Value() == Redirect(old(Value()), id, IN)
    {
      hide Kept;
      KeptOne(socketinfomap, ledger, id, socketinfomap[id].(direction := IN));
      socketinfomap := socketinfomap[id := socketinfomap[id].(direction := IN)];
      if !socketinfomap[id].paused {
        polling := SetFD(polling, socketinfomap[id].fd, Poll(IN, id));
      }
    }

    method SetPollWrite(id: int)
      requires Buffered() && id in socketinfomap
      modifies `socketinfomap, `polling
      ensures Buffered() && Value() == Redirect(old(Value()), id, OUT)
    {
      hide Kept;
      KeptOne(socketinfomap, ledger, id, socketinfomap[id].(direction := OUT));
      socketinfomap := socketinfomap[id := socketinfomap[id].(direction := OUT)];
      if !socketinfomap[id].paused {
        polling := SetFD(polling, socketinfomap[id].fd, Poll(OUT, id));
      }
    }

    // ---- sending ----

    /** A block is taken and filled; the blocks lent already stay as they are. */
    method FillBlock(chunk: seq<bv8>) returns (block: Block)
      requires sendblockpool.Valid() && |chunk| <= BLOCKSIZE
      modifies sendblockpool, sendblockpool.availableblocks
      ensures sendblockpool.Valid() && block in sendblockpool.blocks
      ensures old(sendblockpool.blocks) <= sendblockpool.blocks
      ensures block !in old(sendblockpool.Lent()) && sendblockpool.Lent() == old(sendblockpool.Lent()) + {block}
      ensures block.Length == BLOCKSIZE && block[..|chunk|] == chunk
      ensures forall i :: 0 <= i < |sendblockpool.availableblocks| ==>
        sendblockpool.availableblocks[i] in old(sendblockpool.availableblocks) ||
        fresh(sendblockpool.availableblocks[i])
    {
      block := sendblockpool.GetBlock();
      forall i | 0 <= i < |chunk| {
        block[i] := chunk[i];
      }
    }

    /** One turn of the loop in sendData. */
    method QueueBlock(id: int, chunk: seq<bv8>)
      requires Buffered() && id in socketinfomap && 0 < |chunk| <= BLOCKSIZE
      modifies `socketinfomap, `ledger, sendblockpool, sendblockpool.availableblocks
      ensures Buffered() && id in old(ledger).sent && ledger.written == old(ledger).written
      ensures ledger.sent == old(ledger).sent[id := old(ledger).sent[id] + chunk]
      ensures id in socketinfomap && |socketinfomap[id].sendqueue| == |old(socketinfomap)[id].sendqueue| + 1
      ensures var s := old(socketinfomap)[id];
        var b := socketinfomap[id].sendqueue[|s.sendqueue|];
        b == DataBlock(b.datap, |chunk|, 0) && socketinfomap[id].sendqueue == s.sendqueue + [b] &&
        Value() == Flushed(old(Value()), id, socketinfomap[id].sendqueue)
      ensures forall i :: 0 <= i < |sendblockpool.availableblocks| ==>
        sendblockpool.availableblocks[i] in old(sendblockpool.availableblocks) ||
        fresh(sendblockpool.availableblocks[i])
    {
      hide Kept;
      var block := FillBlock(chunk);
      var b := DataBlock(block, |chunk|, 0);
      KeptPush(socketinfomap, ledger, id, b, block[..]);
      assert block[..][..|chunk|] == chunk;
      ledger := Sent(ledger, id, block, block[..], chunk);
      socketinfomap := socketinfomap[id := socketinfomap[id].(sendqueue := socketinfomap[id].sendqueue + [b])];
    }

    method SendData(id: int, data: seq<bv8>) returns (more: bool)
      requires Valid() && |data| <= MAX_SEND_BUFFER
      modifies this, sendblockpool, sendblockpool.availableblocks
      ensures Valid() && ledger.written == old(ledger).written
      ensures id !in old(socketinfomap) ==> more && Value() == old(Value()) && ledger == old(ledger)
      ensures id in old(socketinfomap) ==> id in socketinfomap && id in old(ledger).sent
      ensures id in old(socketinfomap) ==> ledger.sent == old(ledger).sent[id := old(ledger).sent[id] + data]
      ensures id in old(socketinfomap) ==>
        var was, now := old(socketinfomap)[id].sendqueue, socketinfomap[id].sendqueue;
        was <= now && Value() == Queued(old(Value()), id, now[|was|..]) &&
        more == (|now| * BLOCKSIZE <= MAX_SEND_BUFFER) == (|now| <= 64) &&
        forall k :: |was| <= k < |now| - 1 ==> now[k].datalen == BLOCKSIZE
    {
      hide Agree, Kept;
      if id !in socketinfomap {
        return true;
      }
      ItsQueue(socketinfomap, ledger, id);
      QueueAll(id, data);
      ghost var queue := socketinfomap[id].sendqueue;
      QueuedKeeps(old(Value()), id, queue[|old(socketinfomap)[id].sendqueue|..]);
      if Established(socketinfomap[id].ty) {
        SetPollWrite(id);
      }
      more := |socketinfomap[id].sendqueue| * BLOCKSIZE <= MAX_SEND_BUFFER;
    }

    /** The loop of sendData: the data is cut into blocks, all but the last of them full. */
    method QueueAll(id: int, data: seq<bv8>)
      requires Buffered() && id in socketinfomap && id in ledger.sent
      modifies `socketinfomap, `ledger, sendblockpool, sendblockpool.availableblocks
      ensures Buffered() && ledger.written == old(ledger).written
      ensures ledger.sent == old(ledger).sent[id := old(ledger).sent[id] + data]
      ensures id in socketinfomap && var was, now := old(socketinfomap)[id].sendqueue, socketinfomap[id].sendqueue;
        was <= now && Value() == Flushed(old(Value()), id, was + now[|was|..]) &&
        forall k :: |was| <= k < |now| - 1 ==> now[k].datalen == BLOCKSIZE
    {
      hide Kept, Flushed;
      ghost var was := socketinfomap[id].sendqueue;
      FlushedSame(Value(), id);
      var pos := 0;
      assert data[..0] == [] && ledger.sent[id] + [] == ledger.sent[id];
      while pos < |data|
        invariant 0 <= pos <= |data| && Buffered() && id in socketinfomap
        invariant ledger.written == old(ledger).written
        invariant ledger.sent == old(ledger).sent[id := old(ledger).sent[id] + data[..pos]]
        invariant was <= socketinfomap[id].sendqueue
        invariant Value() == Flushed(old(Value()), id, socketinfomap[id].sendqueue)
        invariant forall k :: |was| <= k < |socketinfomap[id].sendqueue| ==>
          socketinfomap[id].sendqueue[k].datalen == BLOCKSIZE ||
          (k == |socketinfomap[id].sendqueue| - 1 && pos == |data|)
        invariant forall i :: 0 <= i < |sendblockpool.availableblocks| ==>
          sendblockpool.availableblocks[i] in old(sendblockpool.availableblocks) ||
          fresh(sendblockpool.availableblocks[i])
      {
        var copysize := if |data| - pos < BLOCKSIZE then |data| - pos else BLOCKSIZE;
        assert data[..pos + copysize] == data[..pos] + data[pos..pos + copysize];
        assert old(ledger).sent[id] + data[..pos + copysize]
          == (old(ledger).sent[id] + data[..pos]) + data[pos..pos + copysize];
        ghost var before := socketinfomap[id].sendqueue;
        QueueBlock(id, data[pos..pos + copysize]);
        FlushedAgain(old(Value()), id, before, socketinfomap[id].sendqueue);
        pos := pos + copysize;
      }
      assert data[..pos] == data;
      assert socketinfomap[id].sendqueue == was + socketinfomap[id].sendqueue[|was|..];
    }

    // ---- the out-handlers ----

    /** The front block is written out: it goes back to the pool. */
    method PopFront(id: int)
      requires Buffered() && id in socketinfomap && socketinfomap[id].sendqueue != []
      modifies `socketinfomap, `ledger, sendblockpool`availableblocks
      ensures Buffered() && Value() == Flushed(old(Value()), id, old(socketinfomap)[id].sendqueue[1..])
      ensures ledger.sent == old(ledger).sent && id in old(ledger).written
      ensures var b := old(socketinfomap)[id].sendqueue[0];
        b.Fits() && b.datap.Length == BLOCKSIZE &&
        ledger.written == old(ledger).written[id := old(ledger).written[id] + old(b.datap[b.offset..b.datalen])]
      ensures OnlyWritten(old(ledger), ledger, id)
    {
      hide Kept, Sound;
      KeptPop(socketinfomap, ledger, id);
      var s := socketinfomap[id];
      var b := s.sendqueue[0];
      assert b.datap[..][b.offset..b.datalen] == b.datap[b.offset..b.datalen];
      sendblockpool.ReturnBlock(b.RawData());
      ledger := Popped(ledger, id, b.datap, b.datap[b.offset..b.datalen]);
      socketinfomap := socketinfomap[id := s.(sendqueue := s.sendqueue[1..])];
    }

    /** Part of the front block is written out. */
    method ConsumeFront(id: int, n: nat)
      requires Buffered() && id in socketinfomap && socketinfomap[id].sendqueue != []
      requires n < socketinfomap[id].sendqueue[0].DataLength()
      modifies `socketinfomap, `ledger
      ensures Buffered()
      ensures var q := old(socketinfomap)[id].sendqueue; Value() == Flushed(old(Value()), id, q[0 := q[0].Consume(n)])
      ensures ledger.sent == old(ledger).sent && id in old(ledger).written
      ensures var b := old(socketinfomap)[id].sendqueue[0];
        b.Fits() && b.datap.Length == BLOCKSIZE &&
        ledger.written == old(ledger).written[id := old(ledger).written[id] + old(b.datap[b.offset..b.offset + n])]
      ensures OnlyWritten(old(ledger), ledger, id)
    {
      hide Kept, Sound;
      KeptConsume(socketinfomap, ledger, id, n);
      var s := socketinfomap[id];
      var b := s.sendqueue[0];
      LeftTaken(ledger.held, b, n);
      assert b.datap[..][b.offset..b.offset + n] == b.datap[b.offset..b.offset + n];
      ledger := Consumed(ledger, id, b.datap[b.offset..b.offset + n]);
      socketinfomap := socketinfomap[id := s.(sendqueue := s.sendqueue[0 := b.Consume(n)])];
    }

    /** One turn of the loop in the out-handlers. */
    method WriteFront(id: int, r: WriteResult) returns (end: Flush)
      requires Buffered() && id in socketinfomap && socketinfomap[id].sendqueue != []
      modifies `socketinfomap, `ledger, sendblockpool`availableblocks
      ensures Buffered() && id in socketinfomap
      ensures (socketinfomap[id].sendqueue, end) == WriteOne(old(socketinfomap)[id].sendqueue, r)
      ensures Value() == Flushed(old(Value()), id, socketinfomap[id].sendqueue)
      ensures OnlyWritten(old(ledger), ledger, id)
      ensures var b := old(socketinfomap)[id].sendqueue[0];
        && id in old(ledger).written && b.Fits()
        && |ledger.written[id]| == |old(ledger).written[id]| + Took(r, b.DataLength())
        && (end == Emptied <==> TookAll(r, b)) && (end == Broken <==> r == WriteFailed)
    {
      hide Kept, Sound, OnlyWritten;
      FrontFits(id);
      match r {
        case WriteAgain =>
          WrittenNothing(id);
          end := Blocked;
        case WriteFailed =>
          WrittenNothing(id);
          end := Broken;
        case Wrote(bsent) =>
          if bsent < socketinfomap[id].sendqueue[0].DataLength() {
            ConsumeFront(id, bsent);
            end := Blocked;
          } else {
            PopFront(id);
            end := Emptied;
          }
      }
    }

    lemma FrontFits(id: int)
      requires Buffered() && id in socketinfomap && socketinfomap[id].sendqueue != []
      ensures id in ledger.written && socketinfomap[id].sendqueue[0].Fits()
    {
      ItsQueue(socketinfomap, ledger, id);
    }

    lemma WrittenNothing(id: int)
      requires Buffered() && id in socketinfomap
      ensures OnlyWritten(ledger, ledger, id)
    {
      ItsQueue(socketinfomap, ledger, id);
    }

    /** The loop of the out-handlers. */
    method FlushQueue(id: int, writes: nat -> WriteResult) returns (end: Flush)
      requires Buffered() && id in socketinfomap
      modifies `socketinfomap, `ledger, sendblockpool`availableblocks
      ensures Buffered() && id in socketinfomap
      ensures (socketinfomap[id].sendqueue, end) == Flushes(old(socketinfomap)[id].sendqueue, writes, 0)
      ensures Value() == Flushed(old(Value()), id, socketinfomap[id].sendqueue)
      ensures OnlyWritten(old(ledger), ledger, id)
      ensures FlushedAs(old(ledger), ledger, id, old(socketinfomap)[id].sendqueue, writes, end)
    {
      hide Kept, Sound, OnlyWritten, WriteOne, Flushed, FlushedAs;
      var t: nat := 0;
      FlushedSame(Value(), id);
      WrittenNothing(id);
      while socketinfomap[id].sendqueue != []
        invariant Buffered() && id in socketinfomap
        invariant Value() == Flushed(old(Value()), id, socketinfomap[id].sendqueue)
        invariant Flushes(old(socketinfomap)[id].sendqueue, writes, 0)
               == Flushes(socketinfomap[id].sendqueue, writes, t)
        invariant OnlyWritten(old(ledger), ledger, id)
        decreases |socketinfomap[id].sendqueue|
      {
        ghost var before, queue := ledger, socketinfomap[id].sendqueue;
        WriteShrinks(socketinfomap[id].sendqueue, writes(t));
        end := WriteFront(id, writes(t));
        OnlyWrittenOn(old(ledger), before, ledger, id);
        FlushedAgain(old(Value()), id, queue, socketinfomap[id].sendqueue);
        if end != Emptied {
          FlushGrew(old(socketinfomap), old(ledger), socketinfomap, ledger, id, writes, end);
          return;
        }
        t := t + 1;
      }
      end := Emptied;
      FlushGrew(old(socketinfomap), old(ledger), socketinfomap, ledger, id, writes, end);
    }

    /** What the answers to the writes say has happened to the socket: it goes after an error, and when it was closing
        and everything has been taken; that is told unless it was closing. */
    ghost predicate AsAnswered(id: int, queue: seq<DataBlock>, closing: bool, writes: nat -> WriteResult,
                               events: seq<Notice>)
      reads this
    {
      && (id in socketinfomap <==> !Fails(queue, writes, 0) && !(closing && AllTaken(queue, writes, 0)))
      && (id in socketinfomap ==> socketinfomap[id].closing == closing)
      && (id in socketinfomap ==> (socketinfomap[id].sendqueue == [] <==> AllTaken(queue, writes, 0)))
      && events == if closing then []
                   else if Fails(queue, writes, 0) then [Disconnected(id)]
                   else if AllTaken(queue, writes, 0) then [SendComplete(id)]
                   else []
    }

    /** What the two out-handlers share; they differ in the call that writes. A close put off by closeSocket
        happens once everything sent has been written. */
    method WriteOut(id: int, writes: nat -> WriteResult, readafter: bool) returns (events: seq<Notice>)
      requires Valid() && id in socketinfomap && (readafter ==> Established(socketinfomap[id].ty))
      modifies this, sendblockpool`availableblocks
      ensures Valid() && OnlyWritten(old(ledger), ledger, id)
      ensures var (rest, end) := Flushes(old(socketinfomap)[id].sendqueue, writes, 0);
        events == WrittenOutEvents(id, old(socketinfomap)[id].closing, end) &&
        Value() == WrittenOut(old(Value()), id, rest, end, readafter) &&
        (end == Emptied ==> ledger.written[id] == ledger.sent[id])
      ensures AllFit(old(socketinfomap)[id].sendqueue) && id in old(ledger).written && id in ledger.written
      ensures |ledger.written[id]| == |old(ledger).written[id]| + Taken(old(socketinfomap)[id].sendqueue, writes, 0)
      ensures AsAnswered(id, old(socketinfomap)[id].sendqueue, old(socketinfomap)[id].closing, writes, events)
    {
      hide Agree, Kept, Sound, OnlyWritten, Fails, AllTaken;
      var end := FlushQueue(id, writes);
      Flushing(old(Value()), id, writes);
      ghost var before := ledger;
      match end {
        case Blocked => events := [];
        case Broken =>
          events := if socketinfomap[id].closing then [] else [Disconnected(id)];
          CloseSocketIntern(id);
          OnlyWrittenSame(old(ledger), before, ledger, id);
        case Emptied =>
          ItsQueue(socketinfomap, ledger, id);
          EverythingWritten(id);
          if socketinfomap[id].closing {
            CloseSocketIntern(id);
            OnlyWrittenSame(old(ledger), before, ledger, id);
            return [];
          }
          if readafter {
            SetPollRead(id);
          }
          events := [SendComplete(id)];
      }
    }

    /** Before a handshake it is called with readafter false: the socket goes on waiting for output. */
    method HandleTCPPlainOut(id: int, writes: nat -> WriteResult, readafter: bool) returns (events: seq<Notice>)
      requires Valid() && id in socketinfomap && (readafter ==> Established(socketinfomap[id].ty))
      modifies this, sendblockpool`availableblocks
      ensures Valid() && OnlyWritten(old(ledger), ledger, id)
      ensures var (rest, end) := Flushes(old(socketinfomap)[id].sendqueue, writes, 0);
        events == WrittenOutEvents(id, old(socketinfomap)[id].closing, end) &&
        Value() == WrittenOut(old(Value()), id, rest, end, readafter) &&
        (end == Emptied ==> ledger.written[id] == ledger.sent[id])
      ensures AllFit(old(socketinfomap)[id].sendqueue) && id in old(ledger).written && id in ledger.written
      ensures |ledger.written[id]| == |old(ledger).written[id]| + Taken(old(socketinfomap)[id].sendqueue, writes, 0)
      ensures AsAnswered(id, old(socketinfomap)[id].sendqueue, old(socketinfomap)[id].closing, writes, events)
    {
      events := WriteOut(id, writes, readafter);
    }

    /** SSL_write never reports that it took nothing: what it did not take is to be tried again, or an error. */
    method HandleTCPSSLOut(id: int, writes: nat -> WriteResult) returns (events: seq<Notice>)
      requires Valid() && id in socketinfomap && socketinfomap[id].ty == TCP_SSL
      requires forall t: nat :: writes(t) != Wrote(0)
      modifies this, sendblockpool`availableblocks
      ensures Valid() && OnlyWritten(old(ledger), ledger, id)
      ensures var (rest, end) := Flushes(old(socketinfomap)[id].sendqueue, writes, 0);
        events == WrittenOutEvents(id, old(socketinfomap)[id].closing, end) &&
        Value() == WrittenOut(old(Value()), id, rest, end, true) &&
        (end == Emptied ==> ledger.written[id] == ledger.sent[id])
      ensures AllFit(old(socketinfomap)[id].sendqueue) && id in old(ledger).written && id in ledger.written
      ensures |ledger.written[id]| == |old(ledger).written[id]| + Taken(old(socketinfomap)[id].sendqueue, writes, 0)
      ensures AsAnswered(id, old(socketinfomap)[id].sendqueue, old(socketinfomap)[id].closing, writes, events)
    {
      events := WriteOut(id, writes, true);
    }

    /** With an empty queue there is nothing left to write. */
    lemma EverythingWritten(id: int)
      requires id in socketinfomap && Full(ledger.held) && socketinfomap[id].sendqueue == []
      requires Sound(socketinfomap[id].sendqueue) && BlocksOf(socketinfomap[id].sendqueue) <= ledger.held.Keys
      requires Flows(ledger, id, socketinfomap[id].sendqueue)
      ensures id in ledger.written && id in ledger.sent && ledger.written[id] == ledger.sent[id]
    {
      assert ledger.written[id] + [] == ledger.written[id];
    }

    // ---- opening ----

    /** `bound` is the descriptor of the listening socket, or -1 when it cannot be made or bound. The other
        descriptors somebody may want read events for are registered in the same way, and cannot fail. */
    method RegisterListener(ty: SocketType, bound: int) returns (sockid: int, events: seq<Notice>)
      requires Valid() && ty in {EXTERNAL, UDP, TCP_SERVER, TCP_SERVER_EXTERNAL}
      requires bound == -1 || NewFD(Value(), bound)
      modifies this
      ensures Valid()
      ensures bound == -1 ==> sockid == -1 && events == [Fail(-1)] && Value() == old(Value()) && ledger == old(ledger)
      ensures bound != -1 ==> sockid == old(sockidcounter) && events == [] && ledger == Opened(old(ledger), sockid)
      ensures bound != -1 ==> Value() == SocketTable.RegisterListener(old(Value()), ty, bound)
    {
      hide Agree, Kept;
      if bound == -1 {
        return -1, [Fail(-1)];
      }
      RegisterListenerKeeps(Value(), ty, bound);
      sockid := OpenSocket(NewSocket(ty, bound, sockidcounter, true, true));
      PollRead(sockid);
      events := [];
    }

    /** The address is resolved at once when it is numeric, with outcome r, else later. */
    method RegisterTCPClientSocket(numeric: bool, r: Resolution, listenimmediately: bool)
      returns (sockid: int, resolving: bool, events: seq<Notice>)
      requires Valid() && (r.NotBound? || r.NotConnected? || r.UnderWay? ==> NewFD(Value(), r.fd))
      modifies this, sendblockpool`availableblocks
      ensures Valid() && sockid == old(sockidcounter) && resolving == !numeric
      ensures ledger.sent == Opened(old(ledger), sockid).sent && ledger.written == Opened(old(ledger), sockid).written
      ensures Value() == if numeric then Resolved(RegisterClient(old(Value()), listenimmediately), sockid, r)
                         else RegisterClient(old(Value()), listenimmediately)
      ensures events == if numeric then ResolvedEvents(sockid, r, false, false) else []
    {
      hide Agree, Kept;
      RegisterClientKeeps(Value(), listenimmediately);
      sockid := OpenSocket(NewSocket(TCP_RESOLVING, -1, sockidcounter, true, listenimmediately));
      connecttimemap := connecttimemap[sockid := 0];
      resolving := !numeric;
      events := [];
      if numeric {
        events := HandleTCPNameResolution(sockid, r, false);
      }
    }

    /** Failures close the socket at once, so its descriptor never shows in the table. */
    method HandleTCPNameResolution(id: int, r: Resolution, gaiasync: bool) returns (events: seq<Notice>)
      requires Valid() && id in socketinfomap && socketinfomap[id].ty == TCP_RESOLVING
      requires r.NotBound? || r.NotConnected? || r.UnderWay? ==> NewFD(Value(), r.fd)
      modifies this, sendblockpool`availableblocks
      ensures Valid() && ledger.sent == old(ledger).sent && ledger.written == old(ledger).written
      ensures Value() == Resolved(old(Value()), id, r)
      ensures events == ResolvedEvents(id, r, gaiasync, old(socketinfomap)[id].closing)
    {
      hide Agree, Kept;
      match r {
        case NotFound =>
          events := if socketinfomap[id].closing then [] else [Fail(-1)];
          CloseKeeps(Value(), id);
          CloseSocketIntern(id);
        case UnderWay(sockfd) =>
          events := if gaiasync && !socketinfomap[id].closing then [ConnectingTo(id)] else [];
          StartConnecting(id, sockfd);
        case _ =>
          events := [Fail(id)];
          CloseKeeps(Value(), id);
          CloseSocketIntern(id);
      }
    }

    method StartConnecting(id: int, sockfd: int)
      requires Valid() && id in socketinfomap && socketinfomap[id].ty == TCP_RESOLVING && NewFD(Value(), sockfd)
      modifies `socketinfomap, `connecttimemap, `polling
      ensures Valid() && Value() == Connecting(old(Value()), id, sockfd)
    {
      hide Agree, Kept;
      ConnectingKeeps(Value(), id, sockfd);
      KeptOne(socketinfomap, ledger, id, socketinfomap[id].(fd := sockfd, ty := TCP_CONNECTING));
      socketinfomap := socketinfomap[id := socketinfomap[id].(fd := sockfd, ty := TCP_CONNECTING)];
      connecttimemap := connecttimemap[id := 0];
      PollWrite(id);
    }

    /** The resolver is done, unless the socket has gone in the meantime. */
    method AsyncTaskComplete(id: int, r: Resolution) returns (events: seq<Notice>)
      requires Valid() && (id in socketinfomap ==> socketinfomap[id].ty == TCP_RESOLVING)
      requires r.NotBound? || r.NotConnected? || r.UnderWay? ==> NewFD(Value(), r.fd)
      modifies this, sendblockpool`availableblocks
      ensures Valid() && ledger.sent == old(ledger).sent && ledger.written == old(ledger).written
      ensures Value() == if id in old(socketinfomap) then Resolved(old(Value()), id, r) else old(Value())
      ensures events ==
        if id in old(socketinfomap) then ResolvedEvents(id, r, true, old(socketinfomap)[id].closing) else []
    {
      events := [];
      if id in socketinfomap {
        events := HandleTCPNameResolution(id, r, true);
      }
    }

    method HandleTCPConnectingOut(id: int, error: bool) returns (events: seq<Notice>)
      requires Valid() && id in socketinfomap && socketinfomap[id].ty == TCP_CONNECTING
      modifies this, sendblockpool`availableblocks
      ensures Valid() && ledger.sent == old(ledger).sent && ledger.written == old(ledger).written
      ensures Value() == if error then Close(old(Value()), id) else Connected(old(Value()), id)
      ensures events == if old(socketinfomap)[id].closing then [] else if error then [Fail(id)] else [ConnectedTo(id)]
    {
      hide Agree, Kept;
      var s := socketinfomap[id];
      if error {
        events := if s.closing then [] else [Fail(id)];
        CloseKeeps(Value(), id);
        CloseSocketIntern(id);
        return;
      }
      ConnectedKeeps(Value(), id);
      KeptOne(socketinfomap, ledger, id, s.(ty := TCP_PLAIN));
      socketinfomap := socketinfomap[id := s.(ty := TCP_PLAIN)];
      connecttimemap := connecttimemap - {id};
      events := if s.closing then [] else [ConnectedTo(id)];
      if s.closing && (s.sendqueue == [] || !s.listenimmediately) {
        CloseSocketIntern(id);
        return;
      }
      if s.listenimmediately {
        if s.sendqueue == [] {
          SetPollRead(id);
        }
      } else {
        polling := polling - {s.fd};
      }
    }

    /** For a connection a server socket has accepted, at any time: operator[] makes an entry for an id that is
        not in the map. */
    method RegisterTCPServerClientSocket(id: int, listenimmediately: bool)
      requires Valid()
      modifies `socketinfomap, `polling, `ledger
      ensures Buffered() && Value() == RegisterAccepted(old(Value()), id, listenimmediately)
      ensures Valid() <==> Registrable(old(Value()), id, listenimmediately)
      ensures ledger == if id in old(socketinfomap) then old(ledger) else Opened(old(ledger), id)
    {
      hide Agree, Kept;
      RegisterAcceptedKeeps(Value(), id, listenimmediately);
      var s := BLANK;
      if id in socketinfomap {
        s := socketinfomap[id];
        KeptOne(socketinfomap, ledger, id, s.(receiver := true, listenimmediately := listenimmediately));
      } else {
        KeptNew(socketinfomap, ledger, id, s.(receiver := true, listenimmediately := listenimmediately));
        ledger := Opened(ledger, id);
      }
      socketinfomap := socketinfomap[id := s.(receiver := true, listenimmediately := listenimmediately)];
      if listenimmediately {
        PollRead(id);
      }
    }

    // ---- handshakes ----

    /** negotiateSSLConnect and negotiateSSLAccept, which differ in the type. */
    method NegotiateSSL(id: int, ty: SocketType)
      requires Valid() && (ty == TCP_SSL_NEG_CONNECT || ty == TCP_SSL_NEG_ACCEPT)
      modifies `socketinfomap, `polling
      ensures Buffered() && Value() == Negotiate(old(Value()), id, ty) && ledger == old(ledger)
      ensures Valid() <==> !(Negotiable(old(Value()), id) && WatchedEarly(old(Value()), id))
    {
      hide Agree, Kept;
      NegotiateKeeps(Value(), id, ty);
      if id in socketinfomap && (socketinfomap[id].ty == TCP_PLAIN || socketinfomap[id].ty == TCP_PLAIN_LISTEN) {
        KeptOne(socketinfomap, ledger, id, socketinfomap[id].(ty := ty));
        socketinfomap := socketinfomap[id := socketinfomap[id].(ty := ty)];
        if socketinfomap[id].listenimmediately {
          SetPollWrite(id);
        } else {
          PollWrite(id);
        }
      }
    }

    /** What is queued goes out first. When that closes the socket the handshake would begin on a reference that is
        no longer good: `dangling` says so, and the model stops there. */
    method HandleTCPSSLNegotiationOut(id: int, writes: nat -> WriteResult, h: Handshake)
      returns (events: seq<Notice>, dangling: bool)
      requires Valid() && id in socketinfomap
      requires socketinfomap[id].ty == TCP_SSL_NEG_CONNECT || socketinfomap[id].ty == TCP_SSL_NEG_ACCEPT
      modifies this, sendblockpool`availableblocks
      ensures Valid() && OnlyWritten(old(ledger), ledger, id)
      ensures var s := old(socketinfomap)[id];
        var (rest, end) := Flushes(s.sendqueue, writes, 0);
        var flushed := if s.sendqueue != [] then WrittenOutEvents(id, s.closing, end) else [];
        && dangling == (s.sendqueue != [] && Closes(end, s.closing))
        && events == flushed + (if dangling then [] else HandshakeEvents(id, h, s.closing))
        && Value() == if dangling || h == Refused then Close(old(Value()), id)
                      else NegotiatedOut(Flushed(old(Value()), id, rest), id, h == Done)
    {
      hide Agree, Kept, Sound, OnlyWritten, WrittenOut, Flushes, NegotiatedOut;
      ghost var t := Value();
      events, dangling := FlushFirst(id, writes);
      if dangling {
        return;
      }
      FlushedKind(t, id, Flushes(t.sockets[id].sendqueue, writes, 0).0);
      ghost var before := ledger;
      var more := StartHandshake(id, h);
      events := events + more;
      OnlyWrittenSame(old(ledger), before, ledger, id);
    }

    /** The flush before a handshake. */
    method FlushFirst(id: int, writes: nat -> WriteResult) returns (events: seq<Notice>, dangling: bool)
      requires Valid() && id in socketinfomap
      modifies this, sendblockpool`availableblocks
      ensures Valid() && OnlyWritten(old(ledger), ledger, id)
      ensures var s := old(socketinfomap)[id];
        var (rest, end) := Flushes(s.sendqueue, writes, 0);
        && events == (if s.sendqueue != [] then WrittenOutEvents(id, s.closing, end) else [])
        && dangling == (s.sendqueue != [] && Closes(end, s.closing))
        && Value() == if dangling then Close(old(Value()), id) else Flushed(old(Value()), id, rest)
    {
      hide Agree, Kept, Sound, OnlyWritten;
      if socketinfomap[id].sendqueue == [] {
        WrittenNothing(id);
        FlushedSame(Value(), id);
        return [], false;
      }
      FlushesEnds(socketinfomap[id].sendqueue, writes, 0);
      events := HandleTCPPlainOut(id, writes, false);
      dangling := id !in socketinfomap;
    }

    /** The rest of handleTCPSSLNegotiationOut. */
    method StartHandshake(id: int, h: Handshake) returns (events: seq<Notice>)
      requires Valid() && id in socketinfomap
      requires socketinfomap[id].ty == TCP_SSL_NEG_CONNECT || socketinfomap[id].ty == TCP_SSL_NEG_ACCEPT
      modifies this, sendblockpool`availableblocks
      ensures Valid() && ledger.sent == old(ledger).sent && ledger.written == old(ledger).written
      ensures Value() == if h == Refused then Close(old(Value()), id) else NegotiatedOut(old(Value()), id, h == Done)
      ensures events == HandshakeEvents(id, h, old(socketinfomap)[id].closing)
    {
      hide Agree, Kept;
      var s := socketinfomap[id];
      events := HandshakeEvents(id, h, s.closing);
      if h == Refused {
        CloseKeeps(Value(), id);
        CloseSocketIntern(id);
        return;
      }
      NegotiatedOutKeeps(Value(), id, h == Done);
      var ty := if h == Done then TCP_SSL
                else if s.ty == TCP_SSL_NEG_CONNECT then TCP_SSL_NEG_REDO_CONNECT
                else TCP_SSL_NEG_REDO_ACCEPT;
      KeptOne(socketinfomap, ledger, id, s.(ty := ty));
      socketinfomap := socketinfomap[id := s.(ty := ty)];
      if h == Done && s.sendqueue != [] {
        return;
      }
      SetPollRead(id);
    }

    method HandleTCPSSLNegotiationIn(id: int, h: Handshake) returns (events: seq<Notice>)
      requires Valid() && id in socketinfomap
      requires socketinfomap[id].ty == TCP_SSL_NEG_REDO_CONNECT || socketinfomap[id].ty == TCP_SSL_NEG_REDO_ACCEPT
      modifies this, sendblockpool`availableblocks
      ensures Valid() && ledger.sent == old(ledger).sent && ledger.written == old(ledger).written
      ensures Value() == match h
        case Done => NegotiatedIn(old(Value()), id)
        case Unfinished => old(Value())
        case Refused => Close(old(Value()), id)
      ensures events == HandshakeEvents(id, h, old(socketinfomap)[id].closing)
    {
      hide Agree, Kept;
      var s := socketinfomap[id];
      events := HandshakeEvents(id, h, s.closing);
      match h {
        case Refused =>
          CloseKeeps(Value(), id);
          CloseSocketIntern(id);
        case Unfinished =>
        case Done =>
          NegotiatedInKeeps(Value(), id);
          KeptOne(socketinfomap, ledger, id, s.(ty := TCP_SSL));
          socketinfomap := socketinfomap[id := s.(ty := TCP_SSL)];
          if s.sendqueue != [] {
            SetPollWrite(id);
          }
      }
    }

    // ---- the tick ----

    /** Every timer goes on; those that run out have their sockets closed, with a notice unless they were closing
        already. */
    method Tick() returns (events: seq<Notice>)
      requires Valid()
      modifies this, sendblockpool`availableblocks
      ensures Valid() && Value() == SocketTable.Tick(old(Value()))
      ensures ledger.sent == old(ledger).sent && ledger.written == old(ledger).written
      ensures forall id :: Fail(id) in events <==>
        id in Late(Advanced(old(connecttimemap))) && !old(socketinfomap)[id].closing
      ensures forall i, j :: 0 <= i < j < |events| ==> events[i] != events[j]
      ensures forall e <- events :: e.Fail?
    {
      hide Agree, Kept;
      ghost var t := Value();
      TickKeeps(t);
      TimersOfSockets(t);
      AdvanceTimers();
      ghost var u, late := t.(timers := Advanced(t.timers)), Late(Advanced(t.timers));
      ghost var done: set<int> := {};
      CloseNone(u);
      events := [];
      var changes := true;
      while changes
        invariant Buffered() && done <= late && Value() == CloseAll(u, done)
        invariant ledger.sent == old(ledger).sent && ledger.written == old(ledger).written
        invariant !changes ==> Late(connecttimemap) == {}
        invariant forall id :: Fail(id) in events <==> id in done && !t.sockets[id].closing
        invariant forall e <- events :: e.Fail?
        invariant forall i, j :: 0 <= i < j < |events| ==> events[i] != events[j]
        decreases late - done, changes
      {
        changes := false;
        var expired := Late(connecttimemap);
        if expired != {} {
          ghost var some := SomeMember(expired);
          assert some in expired;
          var id :| id in expired;
          changes := true;
          if id in socketinfomap && !socketinfomap[id].closing {
            events := events + [Fail(id)];
          }
          CloseOneMore(u, done, id);
          CloseSocketIntern(id);
          done := done + {id};
        }
      }
      assert done == late by {
        assert connecttimemap == u.timers - done;
        assert forall id <- late :: id !in done ==> id in Late(connecttimemap);
      }
    }

    /** The first loop of the tick. */
    method AdvanceTimers()
      requires Buffered()
      modifies `connecttimemap
      ensures Buffered() && Value() == old(Value()).(timers := Advanced(old(connecttimemap)))
    {
      var rest := connecttimemap.Keys;
      while rest != {}
        invariant Buffered() && rest <= old(connecttimemap).Keys && connecttimemap.Keys == old(connecttimemap).Keys
        invariant Value() == old(Value()).(timers := connecttimemap)
        invariant forall id <- rest :: connecttimemap[id] == old(connecttimemap)[id]
        invariant forall id <- connecttimemap ::
          id !in rest ==> connecttimemap[id] == NextTimer(old(connecttimemap)[id])
        decreases rest
      {
        ghost var some := SomeMember(rest);
        assert some in rest;
        var id :| id in rest;
        var timeelapsed := connecttimemap[id] + TICKPERIOD;
        if timeelapsed >= CONNECT_TIMEOUT_MS {
          timeelapsed := -1;
        }
        connecttimemap := connecttimemap[id := timeelapsed];
        rest := rest - {id};
      }
      forall id | id in old(connecttimemap) ensures connecttimemap[id] == NextTimer(old(connecttimemap)[id]) {
        assert id in connecttimemap.Keys;
      }
      AllAdvanced(old(connecttimemap), connecttimemap);
    }

    // ---- the in-handlers ----

    /** What read() returns decides; `ok` is the work manager's answer to the data. */
    method HandleTCPPlainIn(id: int, r: ReadResult, ok: bool) returns (events: seq<Notice>)
      requires Valid() && id in socketinfomap
      modifies this, sendblockpool`availableblocks
      ensures Valid() && ledger.sent == old(ledger).sent && ledger.written == old(ledger).written
      ensures match r
        case Received(n) =>
          events == [Data(id, n)] && Value() == (if ok then old(Value()) else AutoPaused(old(Value()), id))
        case ReadAgain => events == [] && Value() == old(Value())
        case _ => events == [Disconnected(id)] && Value() == Close(old(Value()), id)
      ensures r.Received? && !ok ==> Silenced(id) && OnlyFor(old(Value()), Value(), id)
    {
      hide Agree, Kept, OnlyFor;
      match r {
        case EndOfFile =>
          events := [Disconnected(id)];
          CloseKeeps(Value(), id);
          CloseSocketIntern(id);
        case ReadAgain => events := [];
        case ReadFailed =>
          events := [Disconnected(id)];
          CloseKeeps(Value(), id);
          CloseSocketIntern(id);
        case Received(n) =>
          events := [Data(id, n)];
          if !ok {
            AutoPause(id);
          }
      }
    }

    /** The inner loop of handleTCPSSLIn fills one block from what is left to read, in pieces of any size. */
    method ReadBlock(left: nat, sizes: nat -> nat) returns (bufpos: nat)
      ensures bufpos == if left < BLOCKSIZE then left else BLOCKSIZE
    {
      bufpos := 0;
      while bufpos < BLOCKSIZE
        invariant bufpos <= BLOCKSIZE && bufpos <= left
      {
        var room := if left - bufpos < BLOCKSIZE - bufpos then left - bufpos else BLOCKSIZE - bufpos;
        if room == 0 {
          return;
        }
        var asked := sizes(left - bufpos);
        bufpos := bufpos + if 0 < asked <= room then asked else room;
      }
    }

    method LowerPriority(id: int)
      requires Buffered() && id in socketinfomap
      modifies `socketinfomap
      ensures Buffered() && Value() == Lowered(old(Value()), id)
    {
      hide Kept;
      KeptOne(socketinfomap, ledger, id, socketinfomap[id].(lowprio := true));
      socketinfomap := socketinfomap[id := socketinfomap[id].(lowprio := true)];
    }

    /** What happens when SSL_read fails. */
    method EndRead(id: int, bufpos: nat, ok: bool, gone: bool) returns (events: seq<Notice>)
      requires Valid() && id in socketinfomap
      modifies this, sendblockpool`availableblocks
      ensures Buffered() && ledger.sent == old(ledger).sent && ledger.written == old(ledger).written
      ensures Value() == ReadEnd(old(Value()), id, bufpos, ok, gone) && events == ReadEndEvents(id, bufpos, gone)
      ensures bufpos > 0 && !ok && !gone ==> Silenced(id)
    {
      hide Agree, Kept, OnlyFor;
      events := [];
      if bufpos > 0 {
        events := [Data(id, bufpos)];
        if !ok {
          AutoPause(id);
        }
      }
      if gone {
        events := events + [Disconnected(id)];
        CloseSocketIntern(id);
      }
    }

    /** SSL_read delivers `total` bytes and then fails; `gone` when that means the connection is over. Full blocks
        are dispatched without looking at the answer; `ok` is the answer to the last, partly filled one. */
    method HandleTCPSSLIn(id: int, total: nat, sizes: nat -> nat, ok: bool, gone: bool) returns (events: seq<Notice>)
      requires Valid() && id in socketinfomap
      modifies this, sendblockpool`availableblocks
      ensures Valid() && ledger.sent == old(ledger).sent && ledger.written == old(ledger).written
      ensures Value() == ReadIn(old(Value()), id, total, ok, gone)
      ensures events == ReadInEvents(id, total, gone)
      ensures total % BLOCKSIZE > 0 && !ok && !gone ==> Silenced(id)
    {
      hide Agree, Kept;
      ReadInKeeps(Value(), id, total, ok, gone);
      events := [];
      var left: nat, blocknum: nat := total, 0;
      while true
        invariant Buffered() && total == blocknum * BLOCKSIZE + left
        invariant Value() == AfterBlocks(old(Value()), id, blocknum) && ledger == old(ledger) && id in socketinfomap
        invariant events == seq(blocknum, i => Data(id, BLOCKSIZE))
        decreases left
      {
        var bufpos := ReadBlock(left, sizes);
        left := left - bufpos;
        if bufpos < BLOCKSIZE {
          Quotient(total, blocknum, bufpos);
          var last := EndRead(id, bufpos, ok, gone);
          return events + last;
        }
        if blocknum > 16 {
          LowerPriority(id);
        }
        blocknum := blocknum + 1;
        events := events + [Data(id, BLOCKSIZE)];
      }
    }

    /** A connection comes in, on a descriptor that is -1 when there is none after all. */
    method HandleTCPServerIn(id: int, newfd: int, ok: bool) returns (newsockid: int, events: seq<Notice>)
      requires Valid() && id in socketinfomap && (newfd == -1 || NewFD(Value(), newfd))
      modifies this
      ensures Valid()
      ensures newfd == -1 ==> newsockid == -1 && events == [] && Value() == old(Value()) && ledger == old(ledger)
      ensures newfd != -1 ==> newsockid == old(sockidcounter) && events == [NewConnection(id, newsockid)]
      ensures newfd != -1 ==> ledger == Opened(old(ledger), newsockid)
      ensures newfd != -1 ==>
        Value() == if ok then Accepted(old(Value()), newfd) else AutoPaused(Accepted(old(Value()), newfd), id)
      ensures newfd != -1 && !ok ==> Silenced(id)
      ensures forall k <- old(socketinfomap) ::
        k != id ==> k in socketinfomap && socketinfomap[k] == old(socketinfomap)[k]
    {
      hide Agree, Kept, OnlyFor;
      if newfd == -1 {
        return -1, [];
      }
      AcceptedKeeps(Value(), newfd);
      FreshId(Value());
      newsockid := OpenSocket(NewSocket(TCP_PLAIN_LISTEN, newfd, sockidcounter, false, true));
      events := [NewConnection(id, newsockid)];
      if !ok {
        AutoPause(id);
      }
    }

    /** A new entry in the socket map. */
    method OpenSocket(s: SocketInfo) returns (id: int)
      requires Buffered() && Agree(Value()) && s.id == sockidcounter && s.sendqueue == []
      modifies `socketinfomap, `sockidcounter, `ledger
      ensures Buffered() && id == old(sockidcounter) && ledger == Opened(old(ledger), id)
      ensures Value() == Put(old(Value()), s).(next := old(sockidcounter) + 1)
    {
      hide Kept;
      id := sockidcounter;
      FreshId(Value());
      KeptNew(socketinfomap, ledger, id, s);
      sockidcounter := sockidcounter + 1;
      socketinfomap := socketinfomap[id := s];
      ledger := Opened(ledger, id);
    }

    // ---- pausing ----

    /** The socket is paused for the work manager's sake, and nothing is read from it or written to it. */
    ghost predicate Silenced(id: int)
      reads this
    {
      id in socketinfomap && id in autopaused && socketinfomap[id].paused && socketinfomap[id].fd !in polling
    }

    method AutoPause(id: int)
      requires Valid() && id in socketinfomap
      modifies `autopaused, `socketinfomap, `polling
      ensures Valid() && Value() == AutoPaused(old(Value()), id)
      ensures Silenced(id) && OnlyFor(old(Value()), Value(), id)
      ensures socketinfomap[id] == old(socketinfomap)[id].(paused := true)
    {
      hide Agree, Kept;
      AutoPauseKeeps(Value(), id);
      AutoPausedAlone(Value(), id);
      KeptOne(socketinfomap, ledger, id, socketinfomap[id].(paused := true));
      autopaused := autopaused + {id};
      socketinfomap := socketinfomap[id := socketinfomap[id].(paused := true)];
      polling := polling - {socketinfomap[id].fd};
    }

    method Pause(id: int)
      requires Valid()
      modifies `manuallypaused, `socketinfomap, `polling
      ensures Valid() && Value() == ManuallyPaused(old(Value()), id)
    {
      hide Agree, Kept;
      if id !in socketinfomap {
        return;
      }
      ManualPauseKeeps(Value(), id);
      KeptOne(socketinfomap, ledger, id, socketinfomap[id].(paused := true));
      if id !in manuallypaused {
        manuallypaused := manuallypaused + {id};
        socketinfomap := socketinfomap[id := socketinfomap[id].(paused := true)];
        polling := polling - {socketinfomap[id].fd};
      }
    }

    method Resume(id: int)
      requires Valid()
      modifies `manuallypaused, `socketinfomap, `polling
      ensures Valid() && Value() == Resumed(old(Value()), id)
    {
      hide Agree, Kept;
      if id !in socketinfomap {
        return;
      }
      ResumeKeeps(Value(), id);
      KeptOne(socketinfomap, ledger, id, socketinfomap[id].(paused := false));
      manuallypaused := manuallypaused - {id};
      if id !in autopaused {
        var s := socketinfomap[id];
        socketinfomap := socketinfomap[id := s.(paused := false)];
        polling := AddFD(polling, s.fd, Poll(s.direction, id));
      }
    }

    /** One turn of the loop in workerReady. */
    method Unpause(id: int)
      requires Buffered()
      modifies `socketinfomap, `polling
      ensures Buffered() && Value() == ReadyOne(old(Value()), id)
    {
      hide Kept;
      if id !in socketinfomap {
        return;
      }
      if id !in manuallypaused {
        var s := socketinfomap[id];
        KeptOne(socketinfomap, ledger, id, s.(paused := false));
        socketinfomap := socketinfomap[id := s.(paused := false)];
        if !s.receiver {
          return;
        }
        polling := AddFD(polling, s.fd, Poll(s.direction, id));
      }
    }

    /** Every auto-paused socket is un-paused, unless it is paused by hand as well, and watched again in its
        recorded direction when somebody receives its events. */
    method WorkerReady()
      requires Valid()
      modifies `socketinfomap, `polling, `autopaused
      ensures Valid() && autopaused == {} && manuallypaused == old(manuallypaused)
      ensures ReadyFor(old(Value()), old(autopaused), Value().(auto := old(autopaused)))
      ensures forall id <- socketinfomap :: socketinfomap[id].paused <==> id in manuallypaused
    {
      hide Agree, Kept, ReadyFor, ReadyOne;
      ghost var t := Value();
      NobodyReady(t);
      var rest := autopaused;
      assert t.auto - rest == {};
      while rest != {}
        invariant Buffered() && rest <= autopaused == t.auto && ReadyFor(t, t.auto - rest, Value())
        decreases rest
      {
        ghost var some := SomeMember(rest);
        assert some in rest;
        var sockid :| sockid in rest;
        ReadyNext(t, t.auto - rest, Value(), sockid);
        assert t.auto - rest + {sockid} == t.auto - (rest - {sockid});
        Unpause(sockid);
        AutoKept(t, t.auto - (rest - {sockid}), Value());
        rest := rest - {sockid};
      }
      assert t.auto - rest == t.auto;
      ReadyKeeps(t, Value());
      autopaused := {};
    }
  }

  /** What was written has grown by exactly what the answers say was taken; and only an answer that took a whole block
      lets a flush go on. */
  ghost predicate FlushedAs(l: Ledger, m: Ledger, id: int, queue: seq<DataBlock>, writes: nat -> WriteResult,
                            end: Flush) {
    && AllFit(queue) && id in l.written && id in m.written
    && |m.written[id]| == |l.written[id]| + Taken(queue, writes, 0)
    && (end == Emptied <==> AllTaken(queue, writes, 0)) && (end == Broken <==> Fails(queue, writes, 0))
  }

  lemma FlushGrew(sockets: map<int, SocketInfo>, l: Ledger, after: map<int, SocketInfo>, m: Ledger, id: int,
                  writes: nat -> WriteResult, end: Flush)
    requires Kept(sockets, l) && Kept(after, m) && id in sockets && id in after && OnlyWritten(l, m, id)
    requires (after[id].sendqueue, end) == Flushes(sockets[id].sendqueue, writes, 0)
    ensures FlushedAs(l, m, id, sockets[id].sendqueue, writes, end)
  {
    hide Kept, Fails, AllTaken;
    ItsQueue(sockets, l, id);
    SoundFits(sockets[id].sendqueue);
    FlushTakes(sockets[id].sendqueue, writes, 0);
    WrittenGrows(sockets, l, after, m, id);
  }

  /** A flush that leaves a socket open changes nothing but its queue. */
  lemma FlushedKind(t: Table, id: int, rest: seq<DataBlock>)
    requires id in t.sockets
    ensures Flushed(t, id, rest).sockets.Keys == t.sockets.Keys
    ensures Flushed(t, id, rest).sockets[id] == t.sockets[id].(sendqueue := rest)
    ensures Close(Flushed(t, id, rest), id) == Close(t, id)
  {
    assert Flushed(t, id, rest).sockets - {id} == t.sockets - {id};
  }

  /** What a flush may leave agrees, and so does what the handlers go on to do. */
  lemma Flushing(t: Table, id: int, writes: nat -> WriteResult)
    requires Agree(t) && id in t.sockets
    ensures Established(t.sockets[id].ty) ==> Agree(Redirect(Flushed(t, id, []), id, IN))
    ensures var (rest, end) := Flushes(t.sockets[id].sendqueue, writes, 0);
      && Agree(Flushed(t, id, rest)) && Agree(Flushed(t, id, [])) && Agree(Close(t, id))
      && Close(Flushed(t, id, rest), id) == Close(t, id)
      && (end == Emptied <==> rest == [])
  {
    hide Agree;
    var (rest, end) := Flushes(t.sockets[id].sendqueue, writes, 0);
    FlushesEnds(t.sockets[id].sendqueue, writes, 0);
    FlushedKeeps(t, id, rest);
    FlushedKeeps(t, id, []);
    CloseKeeps(t, id);
    if Established(t.sockets[id].ty) {
      DrainedKeeps(Flushed(t, id, []), id);
    }
    assert Flushed(t, id, rest).sockets - {id} == t.sockets - {id};
  }
}
