/** What the I/O manager's handlers are for, said without them: what becomes of the socket, and what the outside is
    told. */
module HandlerLaws {
  import opened DataBlocks
  import opened Writes
  import opened SocketTable
  import opened IOManager

  // ---- connecting ----

  /** A name that is resolved leads to a socket that waits for its connection with its timer at zero; any failure closes
      the socket and is told once, without its id if the name was not found, and not at all then if it was closing. */
  lemma ResolutionLaw(t: Table, id: int, r: Resolution, gaiasync: bool)
    requires Agree(t) && id in t.sockets && t.sockets[id].ty == TCP_RESOLVING && (r.UnderWay? ==> NewFD(t, r.fd))
    ensures var u := Resolved(t, id, r);
      && (id in u.sockets <==> r.UnderWay?)
      && (r.UnderWay? ==>
           var s := u.sockets[id];
           && s.ty == TCP_CONNECTING && s.fd == r.fd && s.direction == OUT && id in u.timers && u.timers[id] == 0
           && (!s.paused ==> s.fd in u.polled && u.polled[s.fd] == Poll(OUT, id)))
    ensures var events, closing := ResolvedEvents(id, r, gaiasync, t.sockets[id].closing), t.sockets[id].closing;
      && |events| <= 1
      && (Fail(-1) in events <==> r.NotFound? && !closing)
      && (Fail(id) in events <==> r.NoSocket? || r.NotBound? || r.NotConnected?)
      && (ConnectingTo(id) in events <==> r.UnderWay? && gaiasync && !closing)
  {
    assert Fits(t, id);
  }

  /** A connection that stands is plain and has no timer any more; one that failed is closed; both are told unless the
      socket was closing, and a socket that was closing goes once nothing is left to send. */
  lemma ConnectionLaw(t: Table, id: int)
    requires Agree(t) && id in t.sockets && t.sockets[id].ty == TCP_CONNECTING
    ensures var u, s := Connected(t, id), t.sockets[id];
      && id !in u.timers
      && (id in u.sockets <==> !(s.closing && (s.sendqueue == [] || !s.listenimmediately)))
      && (id in u.sockets ==> u.sockets[id].ty == TCP_PLAIN && u.sockets[id].sendqueue == s.sendqueue)
      && (id in u.sockets && !s.listenimmediately ==> s.fd !in u.polled)
      && (id in u.sockets && s.listenimmediately && s.sendqueue != [] ==> u.sockets[id].direction == OUT)
      && (id in u.sockets && s.listenimmediately && s.sendqueue == [] ==> u.sockets[id].direction == IN)
  {
    assert Fits(t, id);
  }

  // ---- handshakes ----

  /** A handshake that is done is told as a success and one refused as the end of the connection, unless the socket was
      closing; an unfinished one is not told. */
  lemma HandshakeLaw(id: int, h: Handshake, closing: bool)
    ensures var events := HandshakeEvents(id, h, closing);
      && |events| <= 1
      && (SslSuccess(id) in events <==> h == Done && !closing)
      && (Disconnected(id) in events <==> h == Refused && !closing)
  {
  }

  // ---- reading ----

  function Bytes(events: seq<Notice>): nat {
    if events == [] then 0 else (if events[0].Data? then events[0].len else 0) + Bytes(events[1..])
  }

  lemma {:induction false} BytesOfBlocks(n: nat, id: int, rest: seq<Notice>)
    ensures Bytes(seq(n, i => Data(id, BLOCKSIZE)) + rest) == n * BLOCKSIZE + Bytes(rest)
  {
    var all := seq(n, i => Data(id, BLOCKSIZE));
    if n == 0 {
      assert all + rest == rest;
    } else {
      BytesOfBlocks(n - 1, id, rest);
      assert (all + rest)[1..] == seq(n - 1, i => Data(id, BLOCKSIZE)) + rest;
      assert n * BLOCKSIZE == (n - 1) * BLOCKSIZE + BLOCKSIZE;
    }
  }

  /** Every byte read is handed on, in pieces of one to 16384 bytes that are all of one socket; when the connection is
      over that is told once, and last. */
  lemma ReadLaw(id: int, total: nat, gone: bool)
    ensures var events := ReadInEvents(id, total, gone);
      && Bytes(events) == total
      && (forall e <- events :: e.id == id && (e.Data? ==> 0 < e.len <= 16384) && (e.Data? || e == Disconnected(id)))
      && (forall i :: 0 <= i < |events| && events[i] == Disconnected(id) ==> i == |events| - 1)
      && (Disconnected(id) in events <==> gone)
  {
    var n := total / BLOCKSIZE;
    var rest := ReadEndEvents(id, total % BLOCKSIZE, gone);
    BytesOfBlocks(n, id, rest);
    var end: seq<Notice> := if gone then [Disconnected(id)] else [];
    var part: seq<Notice> := if total % BLOCKSIZE > 0 then [Data(id, total % BLOCKSIZE)] else [];
    assert rest == part + end;
    BytesOf(part, end);
    assert n * BLOCKSIZE + total % BLOCKSIZE == total;
    var events := ReadInEvents(id, total, gone);
    assert gone ==> events[|events| - 1] == Disconnected(id);
  }

  lemma BytesOf(part: seq<Notice>, end: seq<Notice>)
    requires |part| <= 1 && |end| <= 1 && forall e <- end :: !e.Data?
    ensures Bytes(part + end) == if part != [] && part[0].Data? then part[0].len else 0
  {
    assert part != [] ==> (part + end)[1..] == end;
    assert part == [] ==> part + end == end;
    assert end != [] ==> end[0] in end && end[1..] == [];
  }

  /** The socket goes exactly when the connection is over; else its priority drops with the eighteenth full block and
      never rises, and it is paused exactly when it was, or the answer to the part behind the last full block was no. */
  lemma AfterReadLaw(t: Table, id: int, total: nat, ok: bool, gone: bool)
    requires Agree(t) && id in t.sockets
    ensures var u := ReadIn(t, id, total, ok, gone);
      && (id in u.sockets <==> !gone)
      && (!gone ==>
           var s, r := t.sockets[id], u.sockets[id];
           && r == s.(lowprio := r.lowprio, paused := r.paused) && r.lowprio == (s.lowprio || total >= 18 * 16384)
           && r.paused == (s.paused || (total % 16384 > 0 && !ok))
           && (id in u.auto <==> id in t.auto || (total % 16384 > 0 && !ok))
           && (r.paused ==> r.fd !in u.polled))
  {
    assert Fits(t, id);
  }

  // ---- writing ----

  /** After an out-handler's flush: what is left of the queue stays queued, the socket goes after an error, and when it
      was closing and nothing is left; an open one waits for input once nothing is left, if it is to read then. */
  lemma WriteLaw(t: Table, id: int, writes: nat -> WriteResult, readafter: bool)
    requires Agree(t) && id in t.sockets && AllFit(t.sockets[id].sendqueue)
    ensures var q, closing := t.sockets[id].sendqueue, t.sockets[id].closing;
      var (rest, end) := Flushes(q, writes, 0);
      var u, events := WrittenOut(t, id, rest, end, readafter), WrittenOutEvents(id, closing, end);
      && (id in u.sockets <==> !Fails(q, writes, 0) && !(closing && AllTaken(q, writes, 0)))
      && (id in u.sockets ==>
           var s, r := t.sockets[id], u.sockets[id];
           && r == s.(sendqueue := rest, direction := r.direction)
           && r.direction == (if readafter && AllTaken(q, writes, 0) then IN else s.direction))
      && (SendComplete(id) in events <==> AllTaken(q, writes, 0) && !closing)
      && (Disconnected(id) in events <==> Fails(q, writes, 0) && !closing) && |events| <= 1
  {
    hide AllTaken, Fails;
    var q := t.sockets[id].sendqueue;
    FlushTakes(q, writes, 0);
    FlushesEnds(q, writes, 0);
    assert Fits(t, id);
  }
}
