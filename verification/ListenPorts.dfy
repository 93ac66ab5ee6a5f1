/** The passive port allocator every control connection shares. */
module ListenPorts {
  import opened Sets

  const BLOCK_SECONDS := 3600

  // ---- the allocator as a value ----

  datatype Ports = Ports(first: nat, available: seq<bool>, unavailable: map<int, nat>) {
    predicate InRange(port: int) { first <= port < first + |available| }

    predicate Free(port: int) { InRange(port) && available[port - first] }

    predicate Blocked(port: int) { port in unavailable }

    /** A port that is out: neither free nor blocked. */
    predicate Out(port: int) { InRange(port) && !Free(port) && !Blocked(port) }

    /** Blocked ports are ports of the range, and not free. */
    ghost predicate Valid() {
      |available| >= 2 && forall port <- unavailable :: InRange(port) && !Free(port)
    }

    function Release(port: int): Ports {
      if !InRange(port) then this
      else this.(available := available[port - first := true], unavailable := unavailable - {port})
    }

    function Mark(port: int, now: nat): Ports {
      if !InRange(port) then this
      else this.(available := available[port - first := false], unavailable := unavailable[port := now])
    }

    lemma ReleaseFrees(port: int)
      ensures var r := Release(port);
        && (forall k :: r.Free(k) <==> Free(k) || (k == port && InRange(port)))
        && (forall k :: r.Blocked(k) <==> Blocked(k) && !(k == port && InRange(port)))
    {
    }

    lemma MarkBlocks(port: int, now: nat)
      requires InRange(port)
      ensures var r := Mark(port, now);
        && (forall k :: r.Free(k) <==> Free(k) && k != port)
        && (forall k :: r.Blocked(k) <==> Blocked(k) || k == port) && r.unavailable[port] == now
    {
    }

    /** A block is over once more than an hour has passed. */
    predicate Expired(port: int, now: nat) { port in unavailable && unavailable[port] + BLOCK_SECONDS < now }

    function Tick(now: nat): Ports {
      this.(available := seq(|available|, i requires 0 <= i < |available| => available[i] || Expired(first + i, now)),
            unavailable := map port | port in unavailable && !Expired(port, now) :: unavailable[port])
    }

    /** The ports listed are free again. */
    function Freed(ports: seq<int>): Ports {
      this.(available := seq(|available|, i requires 0 <= i < |available| => available[i] || first + i in ports),
            unavailable := map port | port in unavailable && port !in ports :: unavailable[port])
    }

    lemma FreedNone()
      ensures Freed([]) == this
    {
      assert Freed([]).available == available;
      assert Freed([]).unavailable == unavailable;
    }

    lemma FreedNext(ports: seq<int>, port: int)
      requires Valid()
      ensures var p := Freed(ports);
        p.(unavailable := p.unavailable - {port}).Release(port) == Freed(ports + [port])
    {
      var p := Freed(ports);
      var q, r := p.(unavailable := p.unavailable - {port}).Release(port), Freed(ports + [port]);
      assert forall k :: k in ports + [port] <==> k in ports || k == port;
      assert q.available == r.available;
      assert q.unavailable == r.unavailable;
    }

    lemma FreedExpired(ports: seq<int>, now: nat)
      requires forall p :: p in ports <==> Expired(p, now)
      ensures Freed(ports) == Tick(now)
    {
      assert Freed(ports).available == Tick(now).available;
      assert Freed(ports).unavailable == Tick(now).unavailable;
    }

    /** The port at distance k from start, going round the range. */
    function Round(start: nat, k: nat): nat
      requires start < |available|
    {
      if start + k < |available| then start + k else start + k - |available|
    }

    /** The first free position from start on, going round once; the size of the range when there is none. */
    function NextFree(start: nat, k: nat): (pos: nat)
      requires start < |available| && k <= |available|
      ensures pos <= |available| && (pos < |available| ==> available[pos])
      decreases |available| - k
    {
      if k == |available| then |available|
      else if available[Round(start, k)] then Round(start, k)
      else NextFree(start, k + 1)
    }

    /** The port handed out, -1 when there is none, for a random number. */
    function Acquired(rand: nat): int
      requires available != []
    {
      var pos := NextFree(rand % |available|, 0);
      if pos == |available| then -1 else first + pos
    }

    function Acquire(rand: nat): Ports
      requires available != []
    {
      var pos := NextFree(rand % |available|, 0);
      if pos == |available| then this else this.(available := available[pos := false])
    }

    lemma {:induction false} NothingFree(start: nat, k: nat, i: nat)
      requires start < |available| && k <= i < |available| && NextFree(start, k) == |available|
      ensures !available[Round(start, i)]
      decreases |available| - k
    {
      if k < i {
        NothingFree(start, k + 1, i);
      }
    }

    /** A port is handed out whenever one is free, and it is a free one. */
    lemma AcquireFindsFree(rand: nat)
      requires available != []
      ensures Acquired(rand) == -1 <==> forall port :: !Free(port)
      ensures Acquired(rand) == -1 ==> Acquire(rand) == this
      ensures Acquired(rand) != -1 ==> Free(Acquired(rand))
    {
      var start := rand % |available|;
      if NextFree(start, 0) == |available| {
        forall port ensures !Free(port) {
          if InRange(port) {
            var pos := port - first;
            var i := if start <= pos then pos - start else pos + |available| - start;
            NothingFree(start, 0, i);
          }
        }
      } else {
        assert Free(Acquired(rand));
      }
    }

    /** How far a port is from the random place, going round the range. */
    function Distance(rand: nat, port: int): int
      requires available != []
    {
      var start, pos := rand % |available|, port - first;
      if pos >= start then pos - start else pos + |available| - start
    }

    lemma {:induction false} NoneNearer(start: nat, k: nat, i: nat)
      requires start < |available| && k <= i < |available| && available[Round(start, i)]
      ensures exists j: nat :: k <= j <= i && NextFree(start, k) == Round(start, j)
      decreases |available| - k
    {
      if available[Round(start, k)] {
        assert NextFree(start, k) == Round(start, k);
      } else {
        NoneNearer(start, k + 1, i);
      }
    }

    /** The port handed out is the free one nearest to the random place, going round the range. */
    lemma NearestFree(rand: nat, port: int)
      requires available != [] && Free(port)
      ensures Acquired(rand) != -1 && Distance(rand, Acquired(rand)) <= Distance(rand, port)
    {
      var start, d := rand % |available|, Distance(rand, port);
      AcquireFindsFree(rand);
      NoneNearer(start, 0, d);
    }
  }

  /** One position further, going round. */
  lemma NextRound(n: nat, start: nat, k: nat, pos: nat)
    requires start < n && k < n && pos == if start + k < n then start + k else start + k - n
    ensures (pos + 1) % n == if pos + 1 < n then pos + 1 else 0
    ensures (pos + 1) % n == start <==> k + 1 == n
    ensures k + 1 < n ==> (pos + 1) % n == if start + k + 1 < n then start + k + 1 else start + k + 1 - n
  {
    if pos + 1 == n {
      assert n % n == 0;
    }
  }

  /** A fresh range: everything is free. */
  function FreshPorts(first: nat, last: nat): (r: Ports)
    requires first < last
    ensures forall port :: r.Free(port) <==> first <= port <= last
    ensures forall port :: !r.Blocked(port)
  {
    Ports(first, seq(last - first + 1, i => true), map[])
  }

  /** How many positions are free, which bounds every retry loop. */
  function FreeCount(available: seq<bool>): nat {
    if available == [] then 0 else (if available[0] then 1 else 0) + FreeCount(available[1..])
  }

  lemma {:induction false} FreeCountUpdate(available: seq<bool>, i: nat, v: bool)
    requires i < |available|
    ensures FreeCount(available[i := v])
         == FreeCount(available) + (if v then 1 else 0) - (if available[i] then 1 else 0)
  {
    if i > 0 {
      assert available[i := v][1..] == available[1..][i - 1 := v];
      FreeCountUpdate(available[1..], i - 1, v);
    } else {
      assert available[0 := v][1..] == available[1..];
    }
  }

  // ---- the allocator ----

  class ListenPortManager {
    var availableports: seq<bool>
    var unavailableports: map<int, nat>
    var firstport: nat
    var lastport: nat

    ghost predicate Valid()
      reads this
    {
      |availableports| == lastport - firstport + 1 && Value().Valid()
    }

    ghost function Value(): Ports
      reads this
    {
      Ports(firstport, availableports, unavailableports)
    }

    constructor (first: nat, last: nat)
      requires first < last
      ensures Valid() && Value() == FreshPorts(first, last)
    {
      availableports := [];
      unavailableports := map[];
      firstport := first;
      lastport := last;
      new;
      SetPortRange(first, last);
    }

    method SetPortRange(first: nat, last: nat)
      requires first < last
      modifies this
      ensures Valid() && Value() == FreshPorts(first, last)
    {
      firstport := first;
      lastport := last;
      var n := last - first + 1;
      availableports := if |availableports| >= n then availableports[..n]
                        else availableports + seq(n - |availableports|, i => false);
      var i := 0;
      while i < |availableports|
        invariant 0 <= i <= n == |availableports| && firstport == first && lastport == last
        invariant forall k :: 0 <= k < i ==> availableports[k]
      {
        availableports := availableports[i := true];
        i := i + 1;
      }
      unavailableports := map[];
    }

    /** `rand` is what rand() returns. */
    method AcquirePort(rand: nat) returns (port: int)
      requires Valid()
      modifies this`availableports
      ensures Valid()
      ensures port == old(Value()).Acquired(rand) && Value() == old(Value()).Acquire(rand)
    {
      ghost var before := Value();
      var startpos := rand % |availableports|;
      var pos := startpos;
      ghost var k: nat := 0;
      while true
        invariant Value() == before && k < |availableports| && pos == before.Round(startpos, k)
        invariant before.NextFree(startpos, 0) == before.NextFree(startpos, k)
        decreases |availableports| - k
      {
        if availableports[pos] {
          availableports := availableports[pos := false];
          return firstport + pos;
        }
        NextRound(|availableports|, startpos, k, pos);
        pos := (pos + 1) % |availableports|;
        if pos == startpos {
          return -1;
        }
        k := k + 1;
      }
    }

    method ReleasePort(port: int)
      requires Valid()
      modifies this
      ensures Valid() && Value() == old(Value()).Release(port)
      ensures lastport == old(lastport)
    {
      if port < firstport || port > lastport {
        return;
      }
      availableports := availableports[port - firstport := true];
      unavailableports := unavailableports - {port};
    }

    /** `now` is what time() returns. */
    method MarkPortUnavailable(port: int, now: nat)
      requires Valid()
      modifies this
      ensures Valid() && Value() == old(Value()).Mark(port, now)
      ensures lastport == old(lastport)
    {
      if port < firstport || port > lastport {
        return;
      }
      availableports := availableports[port - firstport := false];
      unavailableports := unavailableports[port := now];
    }

    /** The first loop of the tick. */
    method Expired(now: nat) returns (expiredlist: seq<int>)
      ensures forall p :: p in expiredlist <==> Value().Expired(p, now)
    {
      expiredlist := [];
      var rest := unavailableports.Keys;
      while rest != {}
        invariant rest <= unavailableports.Keys
        invariant forall p :: p in expiredlist <==> p in unavailableports && p !in rest && Value().Expired(p, now)
        decreases rest
      {
        ghost var some := SomeMember(rest);
        assert some in rest;
        var port :| port in rest;
        if unavailableports[port] + BLOCK_SECONDS < now {
          expiredlist := expiredlist + [port];
        }
        rest := rest - {port};
      }
    }

    method Tick(now: nat)
      requires Valid()
      modifies this
      ensures Valid() && Value() == old(Value()).Tick(now)
    {
      ghost var before := Value();
      hide Ports.Freed, Ports.Tick;
      var expiredlist := Expired(now);
      before.FreedNone();
      var i := 0;
      while i < |expiredlist|
        invariant 0 <= i <= |expiredlist| && Valid() && Value() == before.Freed(expiredlist[..i])
      {
        assert expiredlist[..i + 1] == expiredlist[..i] + [expiredlist[i]];
        before.FreedNext(expiredlist[..i], expiredlist[i]);
        unavailableports := unavailableports - {expiredlist[i]};
        ReleasePort(expiredlist[i]);
        i := i + 1;
      }
      assert expiredlist[..i] == expiredlist;
      before.FreedExpired(expiredlist, now);
    }
  }
}
