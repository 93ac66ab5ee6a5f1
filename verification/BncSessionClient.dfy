/** The site side of a bounced control connection: commands and replies that announce a data connection are
    rewritten to announce one of our own ports. */
module BncSessionClient {
  import opened Text
  import opened Fields
  import opened PasvString
  import P = ResponseParser
  import C = CommandParser
  import B = Bounce

  const EXHAUSTED := "502 cbbncd: passive port range exhausted.\r\n"

  datatype TLSState = TlsNone | TlsQuery | TlsInProgress

  datatype ResponseCatch = CatchNone | CatchAuthTls | CatchPasv | CatchEpsv | CatchPort | CatchEprt

  datatype OriginCatch = OriginNone | OriginPasv | OriginEpsv1 | OriginEpsv2 | OriginPort

  /** The addresses involved: the client's, the site's, ours towards the site, and ours towards the client. */
  datatype Parties = Parties(
    clientaddrfam: AddressFamily, clientaddr: string,
    siteaddrfam: AddressFamily, sitehost: string, siteifaddr: string,
    ifaddr4: string, ifaddr6: string)

  /** What a traffic-bounce session is asked for: the family to listen on, and whom to dial. */
  datatype Request = Request(pasvaddrfam: AddressFamily, portaddrfam: AddressFamily, host: string, port: int)

  // ---- replies ----

  /** Where the text between the parentheses starts and ends. */
  function Start(response: string): (start: nat)
    ensures start <= |response|
  {
    Find(response, '(', 0) + 1
  }

  function End(response: string): int { Find(response, ')', 0) }

  function Inside(response: string): string {
    Substr(response, Start(response), End(response) - Start(response))
  }

  /** The reply with other text between the parentheses; there is none when the second substr throws. */
  function InPlace(response: string, text: string): Option<string> {
    var start, end := Start(response), End(response);
    if end == NPOS then Option.None else Some(response[..start] + text + response[end..])
  }

  /** A site may leave its own address out of a PASV reply. */
  function PasvText(a: Parties, response: string): string {
    var inside := Inside(response);
    if CountOf(inside, ',') == 2 && |inside| >= 2 && inside[..2] == "1," then
      Replace(a.sitehost, '.', ',') + "," + inside[2..]
    else inside
  }

  /** The family to listen on for an EPSV reply. */
  function OriginFamily(origin: OriginCatch, addrfam: AddressFamily): AddressFamily {
    if origin == OriginEpsv1 || origin == OriginPasv then IPV4 else if origin == OriginEpsv2 then IPV6 else addrfam
  }

  function Interface(a: Parties, addrfam: AddressFamily): string { if addrfam == IPV4 then a.ifaddr4 else a.ifaddr6 }

  /** The data connection a caught reply announces: none when it is to be passed on as it is, and no answer at
      all when reading it throws. */
  function Announced(a: Parties, catch: ResponseCatch, origin: OriginCatch, code: int, response: string)
    : Parse<Request>
  {
    if catch == CatchPasv && code == 227 then
      match DecodePasv(PasvText(a, response))
      case Parsed(e) => Parsed(Request(IPV4, IPV4, e.addr, e.port))
      case Malformed => Malformed
      case Threw => Threw
    else if catch == CatchEpsv && code == 229 then
      match FromExtendedPASVString(Inside(response))
      case Parsed(e) =>
        var addrfam := if e.addr == "" then a.siteaddrfam else e.addrfam;
        Parsed(Request(OriginFamily(origin, addrfam), addrfam, if e.addr == "" then a.sitehost else e.addr, e.port))
      case Malformed => Malformed
      case Threw => Threw
    else Malformed
  }

  /** The reply passed on instead, once the sessions have answered with a port; none when that throws. */
  function Announcement(a: Parties, catch: ResponseCatch, origin: OriginCatch, response: string,
                        r: Request, port: int): Option<string>
  {
    if port == -1 then Some(EXHAUSTED)
    else if catch == CatchPasv then InPlace(response, EncodePasv(a.ifaddr4, port))
    else if origin == OriginPasv then
      Some("227 Entering Passive Mode (" + EncodePasv(Interface(a, r.pasvaddrfam), port) + ")\r\n")
    else
      var e := FromExtendedPASVString(Inside(response));
      if e.Parsed? && e.value.addr == "" then InPlace(response, ToExtendedPASVString(NONE, "", port))
      else InPlace(response, ToExtendedPASVString(r.pasvaddrfam, Interface(a, r.pasvaddrfam), port))
  }

  /** A reply that needs no port. */
  function Plain(catch: ResponseCatch, origin: OriginCatch, response: string): string {
    if catch == CatchEprt && origin == OriginPort then "200 PORT command successful.\r\n"
    else if catch == CatchPort || catch == CatchEprt then EXHAUSTED
    else response
  }

  // ---- commands ----

  /** What is to be caught after a command, and what is sent instead when that needs no port. */
  datatype Plan = Plan(catch: ResponseCatch, origin: OriginCatch, tls: TLSState, instead: string)

  function CommandPlan(a: Parties, p: Plan, command: string, words: seq<string>): Plan
    requires words != []
  {
    if p.tls == TlsNone && (command == "AUTH TLS" || command == "AUTH SSL") then
      p.(tls := TlsQuery, catch := CatchAuthTls)
    else if command == "PASV" || command == "CPSV" then
      if a.siteaddrfam == IPV6 then p.(catch := CatchEpsv, origin := OriginPasv, instead := "EPSV 2")
      else p.(catch := CatchPasv)
    else if words[0] == "EPSV" then
      if a.siteaddrfam == IPV4 && command == "EPSV 2" then
        p.(catch := CatchEpsv, origin := OriginEpsv2, instead := "EPSV 1")
      else if a.siteaddrfam == IPV6 && command != "EPSV 2" then
        p.(catch := CatchEpsv, origin := OriginEpsv1, instead := "EPSV 2")
      else p.(catch := CatchEpsv)
    else p
  }

  /** The data connection a PORT or EPRT command asks for. */
  function Asked(a: Parties, p: Plan, command: string, words: seq<string>): Parse<Request>
    requires words != [] && (words[0] == "PORT" || words[0] == "EPRT" ==> |words| > 1)
  {
    if p.tls == TlsNone && (command == "AUTH TLS" || command == "AUTH SSL") then Malformed
    else if command == "PASV" || command == "CPSV" then Malformed
    else if words[0] == "PORT" then
      match DecodePasv(words[1])
      case Parsed(e) => Parsed(Request(a.siteaddrfam, IPV4, e.addr, e.port))
      case Malformed => Malformed
      case Threw => Threw
    else if words[0] == "EPRT" then
      match FromExtendedPASVString(words[1])
      case Parsed(e) =>
        Parsed(Request(a.siteaddrfam, if e.addr == "" then a.clientaddrfam else e.addrfam,
                       if e.addr == "" then a.clientaddr else e.addr, e.port))
      case Malformed => Malformed
      case Threw => Threw
    else Malformed
  }

  /** The command sent instead once the sessions have answered with a port, and what to catch then. */
  function AskedInstead(a: Parties, p: Plan, words: seq<string>, port: int): Plan
    requires words != []
  {
    if words[0] == "PORT" then
      if port == -1 then p.(catch := CatchPort, instead := "NOOP")
      else if a.siteaddrfam == IPV4 then p.(instead := words[0] + " " + EncodePasv(a.siteifaddr, port))
      else
        var eprt := "EPRT " + ToExtendedPASVString(IPV6, a.siteifaddr, port);
        p.(catch := CatchEprt, origin := OriginPort, instead := eprt)
    else
      if port == -1 then p.(catch := CatchEprt, instead := "NOOP")
      else p.(instead := words[0] + " " + ToExtendedPASVString(a.siteaddrfam, a.siteifaddr, port))
  }

  // ---- one chunk from either side ----

  /** What comes of a chunk: held back for more, text passed on, an exception, or, past the words of a command, no
      defined behaviour at all. */
  datatype Outcome = Held | Passed(text: string) | Thrown | Undefined

  /** `asked` is what the sessions were asked for, and the port they answered with. */
  datatype Effect = Effect(out: Outcome, asked: Option<(Request, int)>, starttls: bool)

  /** What the client object remembers. */
  datatype Talk = Talk(
    catch: ResponseCatch, origin: OriginCatch, tls: TLSState,
    response: P.State, command: C.State, pool: seq<B.Session>)

  function Quiet(out: Outcome): Effect { Effect(out, Option.None, false) }

  function TextOrThrown(text: Option<string>): Outcome { if text.Some? then Passed(text.value) else Thrown }

  /** The answer for a complete reply, and what it makes of the sessions: they are asked for a port exactly when
      the reply announces a data connection. */
  function Answer(a: Parties, catch: ResponseCatch, origin: OriginCatch, code: int, response: string,
                  attempts: nat -> B.Attempt, g: B.Shared, pool: seq<B.Session>)
    : (r: (Effect, B.Shared, seq<B.Session>))
    requires g.ports.Valid()
    ensures r.0.out.Passed? || r.0.out.Thrown?
  {
    match Announced(a, catch, origin, code, response)
    case Threw => (Quiet(Thrown), g, pool)
    case Malformed =>
      (Effect(Passed(Plain(catch, origin, response)), Option.None, catch == CatchAuthTls && code == 234), g, pool)
    case Parsed(request) =>
      var (port, k, sessions) := B.PoolActivate(g, pool, attempts);
      var text := Announcement(a, catch, origin, response, request, port);
      (Effect(TextOrThrown(text), Some((request, port)), false), k, sessions)
  }

  /** A complete reply is answered for, and forgotten unless that throws. */
  function Answering(a: Parties, t: Talk, now: P.State, attempts: nat -> B.Attempt, g: B.Shared)
    : (Effect, Talk, B.Shared)
    requires g.ports.Valid()
  {
    var (e, h, sessions) := Answer(a, t.catch, t.origin, now.code, now.data, attempts, g, t.pool);
    (e, if e.out.Thrown? then t.(response := now, pool := sessions)
        else t.(catch := CatchNone, origin := OriginNone, tls := if e.starttls then TlsInProgress else t.tls,
                response := P.State("", now.code, false), pool := sessions),
     h)
  }

  /** A chunk from the site: passed on as it is unless a reply is being caught, held back until the reply is
      complete, and then answered for. */
  function FromSite(a: Parties, t: Talk, data: string, room: string, attempts: nat -> B.Attempt, g: B.Shared)
    : (Effect, Talk, B.Shared)
    requires g.ports.Valid()
  {
    if t.catch == CatchNone then (Quiet(Passed(data)), t, g)
    else
      var (now, done) := P.Step(t.response, data, room);
      if done then Answering(a, t, now, attempts, g) else (Quiet(Held), t.(response := now), g)
  }

  function Line(q: Plan, line: string): string { if q.instead == "" then line else q.instead + "\r\n" }

  /** A command goes out, and the next one is awaited. */
  function Sent(t: Talk, q: Plan): Talk {
    t.(catch := q.catch, origin := q.origin, tls := q.tls, command := C.EMPTY)
  }

  /** The source reads the second word of PORT and EPRT without asking whether there is one. */
  predicate Worded(words: seq<string>) { words != [] && (words[0] == "PORT" || words[0] == "EPRT" ==> |words| > 1) }

  /** What a command of that line makes of the plan, the sessions and the allocator, and what goes out. */
  function Instructed(a: Parties, p: Plan, command: string, words: seq<string>, line: string,
                      attempts: nat -> B.Attempt, g: B.Shared, pool: seq<B.Session>)
    : (Effect, Plan, B.Shared, seq<B.Session>)
    requires g.ports.Valid() && Worded(words)
  {
    match Asked(a, p, command, words)
    case Threw => (Quiet(Thrown), p, g, pool)
    case Malformed =>
      var q := CommandPlan(a, p, command, words);
      (Quiet(Passed(Line(q, line))), q, g, pool)
    case Parsed(request) =>
      var (port, k, sessions) := B.PoolActivate(g, pool, attempts);
      var q := AskedInstead(a, p, words, port);
      (Effect(Passed(Line(q, line)), Some((request, port)), false), q, k, sessions)
  }

  /** A complete command of the client. */
  function Commanded(a: Parties, t: Talk, attempts: nat -> B.Attempt, g: B.Shared): (Effect, Talk, B.Shared)
    requires g.ports.Valid()
  {
    var command := C.TrimmedUpper(t.command.data);
    if command == "PORT" || command == "EPRT" then (Quiet(Undefined), t, g)
    else
      C.NoSecondWord(command);
      var p := Plan(t.catch, t.origin, t.tls, "");
      var (e, q, h, sessions) := Instructed(a, p, command, Split(command, ' '), t.command.data, attempts, g, t.pool);
      (e, if e.out.Thrown? then t else Sent(t, q).(pool := sessions), h)
  }

  /** A chunk from the client: held back until the command is complete. */
  function FromClient(a: Parties, t: Talk, data: string, attempts: nat -> B.Attempt, g: B.Shared)
    : (Effect, Talk, B.Shared)
    requires g.ports.Valid() && data != ""
  {
    var command := C.Step(t.command, data);
    if command.complete then Commanded(a, t.(command := command), attempts, g)
    else (Quiet(Held), t.(command := command), g)
  }

  // ---- the client ----

  /** The pool of sessions and the allocator appear as values here: what TrafficBncSessions.Activate does to them is
      PoolActivate. */
  class BncSessionClient {
    const addresses: Parties
    const traffic: bool
    const commandparser: C.FTPCommandParser
    const responseparser: P.FTPResponseParser
    var tbncsessions: seq<B.Session>
    var responsecatch: ResponseCatch
    var origincatch: OriginCatch
    var tlsstate: TLSState
    var paused: bool

    ghost predicate Valid()
      reads this, commandparser, commandparser.databuf, responseparser, responseparser.databuf
    {
      commandparser.Valid() && responseparser.Valid() && commandparser.databuf != responseparser.databuf
    }

    ghost function Value(): Talk
      requires Valid()
      reads this, commandparser, commandparser.databuf, responseparser, responseparser.databuf
    {
      Talk(responsecatch, origincatch, tlsstate, responseparser.Value(), commandparser.Value(), tbncsessions)
    }

    constructor (addresses: Parties, traffic: bool)
      ensures this.addresses == addresses && this.traffic == traffic && !paused && Valid()
      ensures fresh(commandparser) && fresh(commandparser.databuf)
      ensures fresh(responseparser) && fresh(responseparser.databuf)
      ensures Value() == Talk(CatchNone, OriginNone, TlsNone, P.State("", 0, false), C.EMPTY, [])
    {
      this.addresses, this.traffic := addresses, traffic;
      var commands := new C.FTPCommandParser();
      var responses := new P.FTPResponseParser();
      commandparser, responseparser := commands, responses;
      tbncsessions := [];
      responsecatch, origincatch, tlsstate, paused := CatchNone, OriginNone, TlsNone, false;
    }

    /** The other side has room again. */
    method SendComplete() returns (resume: bool)
      modifies `paused
      ensures resume == old(paused) && !paused
    {
      resume := paused;
      if paused {
        paused := false;
      }
    }

    // ---- from the site ----

    /** `accepted` is the answer of the client's socket to what is passed on; the site's socket is paused when
        that is no, unless it is paused already. */
    method FDData(data: string, accepted: bool, g: B.Shared, attempts: nat -> B.Attempt)
      returns (r: Effect, pause: bool, h: B.Shared, ghost room: string)
      requires data != "" && Valid() && g.ports.Valid()
      modifies this, responseparser, responseparser.databuf
      ensures Valid() && commandparser.Value() == old(commandparser.Value())
      ensures responseparser.databuf == old(responseparser.databuf) || fresh(responseparser.databuf)
      ensures traffic ==> (r, Value(), h) == FromSite(addresses, old(Value()), data, room, attempts, g)
      ensures !traffic ==> r == Quiet(Passed(data)) && Value() == old(Value()) && h == g
      ensures pause == (r.out.Passed? && !accepted && !old(paused)) && paused == (old(paused) || pause)
    {
      hide Answer;
      pause, h, room := false, g, "";
      if !traffic || responsecatch == CatchNone {
        r := Quiet(Passed(data));
        pause := MustPause(accepted);
        return;
      }
      var done;
      done, room := responseparser.Parse(data);
      if !done {
        r := Quiet(Held);
        return;
      }
      r, pause, h := Answered(accepted, g, attempts);
    }

    /** The pausing that follows every text passed on. */
    method MustPause(accepted: bool) returns (pause: bool)
      modifies `paused
      ensures pause == (!accepted && !old(paused)) && paused == (old(paused) || pause)
    {
      pause := !accepted && !paused;
      if pause {
        paused := true;
      }
    }

    /** A complete reply while one is being caught: the rest of FDData. */
    method Answered(accepted: bool, g: B.Shared, attempts: nat -> B.Attempt)
      returns (r: Effect, pause: bool, h: B.Shared)
      requires Valid() && g.ports.Valid() && responsecatch != CatchNone
      modifies this, responseparser
      ensures Valid() && commandparser.Value() == old(commandparser.Value())
      ensures responseparser.databuf == old(responseparser.databuf)
      ensures (r, Value(), h) == Answering(addresses, old(Value()), old(responseparser.Value()), attempts, g)
      ensures pause == (r.out.Passed? && !accepted && !old(paused)) && paused == (old(paused) || pause)
    {
      hide Answer;
      pause := false;
      var respdata := responseparser.databuf[..responseparser.databufpos];
      r, h := Reply(responseparser.databufcode, respdata, g, attempts);
      if r.out.Thrown? {
        return;
      }
      pause := MustPause(accepted);
      responseparser.Reset();
      responsecatch := CatchNone;
      origincatch := OriginNone;
      if r.starttls {
        tlsstate := TlsInProgress;
      }
    }

    /** What is passed on for the reply. */
    method Reply(code: int, response: string, g: B.Shared, attempts: nat -> B.Attempt) returns (r: Effect, h: B.Shared)
      requires g.ports.Valid() && responsecatch != CatchNone
      modifies `tbncsessions
      ensures (r, h, tbncsessions) ==
        Answer(addresses, responsecatch, origincatch, code, response, attempts, g, old(tbncsessions))
    {
      hide Answer, Announced;
      h := g;
      if responsecatch == CatchPasv && code == 227 {
        r, h := PasvReply(response, g, attempts);
        return;
      }
      if responsecatch == CatchEpsv && code == 229 {
        r, h := EpsvReply(response, g, attempts);
        return;
      }
      var text, starttls := response, false;
      match responsecatch {
        case CatchAuthTls => starttls := code == 234;
        case CatchPort => text := EXHAUSTED;
        case CatchEprt =>
          if origincatch == OriginPort {
            text := "200 PORT command successful.\r\n";
          } else {
            text := EXHAUSTED;
          }
        case _ =>
      }
      r := Effect(Passed(text), Option.None, starttls);
      NothingAnnounced(addresses, responsecatch, origincatch, code, response, attempts, g, tbncsessions, r);
    }

    /** Reading a PASV reply. */
    method ReadPasv(response: string) returns (e: Parse<Endpoint>)
      ensures e == DecodePasv(PasvText(addresses, response))
    {
      var start := Find(response, '(', 0) + 1;
      var end := Find(response, ')', 0);
      var pasvstring := Substr(response, start, end - start);
      var count := Commas(pasvstring);
      FirstTwo(pasvstring);
      if count == 2 && Substr(pasvstring, 0, 2) == "1," {
        pasvstring := Replace(addresses.sitehost, '.', ',') + "," + pasvstring[2..];
      }
      e := FromPASVString(pasvstring);
    }

    /** The loop that counts commas. */
    method Commas(s: string) returns (count: nat)
      ensures count == CountOf(s, ',')
    {
      count := 0;
      var i := 0;
      assert s[0..] == s;
      while i < |s|
        invariant 0 <= i <= |s| && count + CountOf(s[i..], ',') == CountOf(s, ',')
      {
        DropOne(s, i + 1);
        if s[i] == ',' {
          count := count + 1;
        }
        i := i + 1;
      }
    }

    method PasvReply(response: string, g: B.Shared, attempts: nat -> B.Attempt) returns (r: Effect, h: B.Shared)
      requires g.ports.Valid()
      modifies `tbncsessions
      ensures (r, h, tbncsessions) ==
        Answer(addresses, CatchPasv, origincatch, 227, response, attempts, g, old(tbncsessions))
    {
      hide B.PoolActivate, DecodePasv, PasvText, EncodePasv;
      h := g;
      var e := ReadPasv(response);
      match e {
        case Threw => r := Quiet(Thrown);
        case Malformed => r := Quiet(Passed(response));
        case Parsed(endpoint) =>
          var activated := B.PoolActivate(g, tbncsessions, attempts);
          var boundport := activated.0;
          h, tbncsessions := activated.1, activated.2;
          var text := Some(EXHAUSTED);
          if boundport != -1 {
            var ours := ToPASVString(addresses.ifaddr4, boundport);
            text := InPlace(response, ours);
          }
          r := Effect(TextOrThrown(text), Some((Request(IPV4, IPV4, endpoint.addr, endpoint.port), boundport)), false);
      }
    }

    /** Reading an EPSV reply. */
    method ReadEpsv(response: string) returns (request: Parse<Request>, addr: string)
      ensures request == Announced(addresses, CatchEpsv, origincatch, 229, response)
      ensures request.Parsed? ==> FromExtendedPASVString(Inside(response)).Parsed?
      ensures request.Parsed? ==> addr == FromExtendedPASVString(Inside(response)).value.addr
    {
      hide FromExtendedPASVString;
      addr := "";
      var start := Find(response, '(', 0) + 1;
      var end := Find(response, ')', 0);
      var e := FromExtendedPASVString(Substr(response, start, end - start));
      match e {
        case Threw => request := Threw;
        case Malformed => request := Malformed;
        case Parsed(endpoint) =>
          addr := endpoint.addr;
          var addrfam, useaddr := endpoint.addrfam, endpoint.addr;
          if endpoint.addr == "" {
            addrfam, useaddr := addresses.siteaddrfam, addresses.sitehost;
          }
          var originaddrfam := addrfam;
          if origincatch == OriginEpsv1 || origincatch == OriginPasv {
            originaddrfam := IPV4;
          } else if origincatch == OriginEpsv2 {
            originaddrfam := IPV6;
          }
          request := Parsed(Request(originaddrfam, addrfam, useaddr, endpoint.port));
      }
    }

    /** The rewritten EPSV reply. */
    method WriteEpsv(response: string, request: Request, addr: string, boundport: int) returns (text: Option<string>)
      requires boundport != -1 && FromExtendedPASVString(Inside(response)).Parsed?
      requires addr == FromExtendedPASVString(Inside(response)).value.addr
      ensures text == Announcement(addresses, CatchEpsv, origincatch, response, request, boundport)
    {
      hide FromExtendedPASVString, Inside, EncodePasv, ToExtendedPASVString, InPlace;
      var ifaddr := if request.pasvaddrfam == IPV4 then addresses.ifaddr4 else addresses.ifaddr6;
      if origincatch == OriginPasv {
        var ours := ToPASVString(ifaddr, boundport);
        text := Some("227 Entering Passive Mode (" + ours + ")\r\n");
      } else if addr == "" {
        text := InPlace(response, ToExtendedPASVString(NONE, "", boundport));
      } else {
        text := InPlace(response, ToExtendedPASVString(request.pasvaddrfam, ifaddr, boundport));
      }
    }

    method EpsvReply(response: string, g: B.Shared, attempts: nat -> B.Attempt) returns (r: Effect, h: B.Shared)
      requires g.ports.Valid()
      modifies `tbncsessions
      ensures (r, h, tbncsessions) ==
        Answer(addresses, CatchEpsv, origincatch, 229, response, attempts, g, old(tbncsessions))
    {
      hide B.PoolActivate, Announced, Announcement;
      h := g;
      var e, addr := ReadEpsv(response);
      match e {
        case Threw => r := Quiet(Thrown);
        case Malformed => r := Quiet(Passed(response));
        case Parsed(request) =>
          var activated := B.PoolActivate(g, tbncsessions, attempts);
          var boundport := activated.0;
          h, tbncsessions := activated.1, activated.2;
          var text := WriteOrExhausted(response, request, addr, boundport);
          r := Effect(TextOrThrown(text), Some((request, boundport)), false);
      }
    }

    method WriteOrExhausted(response: string, request: Request, addr: string, boundport: int)
      returns (text: Option<string>)
      requires FromExtendedPASVString(Inside(response)).Parsed?
      requires addr == FromExtendedPASVString(Inside(response)).value.addr
      ensures text == Announcement(addresses, CatchEpsv, origincatch, response, request, boundport)
    {
      hide FromExtendedPASVString, Inside, EncodePasv, ToExtendedPASVString, InPlace;
      if boundport == -1 {
        text := Some(EXHAUSTED);
      } else {
        text := WriteEpsv(response, request, addr, boundport);
      }
    }

    // ---- from the client ----

    /** `ok` is the answer of the site's socket to what is sent; `more` tells whether the client may go on. */
    method SendData(data: string, ok: bool, g: B.Shared, attempts: nat -> B.Attempt)
      returns (r: Effect, more: bool, h: B.Shared)
      requires data != "" && Valid() && g.ports.Valid()
      modifies this, commandparser, commandparser.databuf
      ensures Valid() && responseparser.Value() == old(responseparser.Value())
      ensures commandparser.databuf == old(commandparser.databuf) || fresh(commandparser.databuf)
      ensures traffic ==> (r, Value(), h) == FromClient(addresses, old(Value()), data, attempts, g)
      ensures !traffic ==> r == Quiet(Passed(data)) && Value() == old(Value()) && h == g
      ensures more == (r.out.Passed? ==> ok) && paused == old(paused)
    {
      hide Commanded;
      r, more, h := Quiet(Held), true, g;
      if !traffic {
        return Quiet(Passed(data)), ok, g;
      }
      var complete := commandparser.Parse(data);
      if complete {
        r, h := Command(g, attempts);
        if r.out.Passed? {
          more := ok;
        }
      }
    }

    /** A complete command: the rest of sendData. */
    method Command(g: B.Shared, attempts: nat -> B.Attempt) returns (r: Effect, h: B.Shared)
      requires Valid() && g.ports.Valid()
      modifies this, commandparser
      ensures Valid() && responseparser.Value() == old(responseparser.Value())
      ensures commandparser.databuf == old(commandparser.databuf) && paused == old(paused)
      ensures (r, Value(), h) == Commanded(addresses, old(Value()), attempts, g)
    {
      hide Asked, CommandPlan, AskedInstead, B.PoolActivate, C.TrimmedUpper;
      var command := commandparser.CommandTrimmedUpper();
      var line := commandparser.databuf[..commandparser.databufpos];
      var words := C.SplitVec(command);
      if command == "PORT" || command == "EPRT" {
        return Quiet(Undefined), g;
      }
      C.NoSecondWord(command);
      var instead;
      r, h, instead := Dispatch(command, words, line, g, attempts);
      if r.out.Passed? {
        commandparser.Reset();
      }
    }

    /** What a command makes of the sessions and of what is to be caught; `instead` is what is sent in its place, if
        anything. */
    method Dispatch(command: string, words: seq<string>, line: string, g: B.Shared, attempts: nat -> B.Attempt)
      returns (r: Effect, h: B.Shared, instead: string)
      requires g.ports.Valid() && Worded(words)
      modifies `tbncsessions, `responsecatch, `origincatch, `tlsstate
      ensures (r, Plan(responsecatch, origincatch, tlsstate, instead), h, tbncsessions) ==
        Instructed(addresses, Plan(old(responsecatch), old(origincatch), old(tlsstate), ""), command, words, line,
                   attempts, g, old(tbncsessions))
    {
      hide DecodePasv, FromExtendedPASVString, B.PoolActivate, EncodePasv, ToExtendedPASVString;
      h, instead := g, "";
      if tlsstate == TlsNone && (command == "AUTH TLS" || command == "AUTH SSL") {
        tlsstate := TlsQuery;
        responsecatch := CatchAuthTls;
      } else if command == "PASV" || command == "CPSV" {
        responsecatch := CatchPasv;
        if addresses.siteaddrfam == IPV6 {
          responsecatch := CatchEpsv;
          instead := "EPSV 2";
          origincatch := OriginPasv;
        }
      } else if words[0] == "EPSV" {
        responsecatch := CatchEpsv;
        if addresses.siteaddrfam == IPV4 && command == "EPSV 2" {
          instead := "EPSV 1";
          origincatch := OriginEpsv2;
        }
        if addresses.siteaddrfam == IPV6 && command != "EPSV 2" {
          instead := "EPSV 2";
          origincatch := OriginEpsv1;
        }
      } else if words[0] == "PORT" {
        r, h, instead := PortCommand(command, words, line, g, attempts);
        return;
      } else if words[0] == "EPRT" {
        r, h, instead := EprtCommand(command, words, line, g, attempts);
        return;
      }
      r := Quiet(Passed(if instead == "" then line else instead + "\r\n"));
    }

    method PortCommand(command: string, words: seq<string>, line: string, g: B.Shared, attempts: nat -> B.Attempt)
      returns (r: Effect, h: B.Shared, instead: string)
      requires g.ports.Valid() && Worded(words) && words[0] == "PORT" && command != "PASV" && command != "CPSV"
      requires !(tlsstate == TlsNone && (command == "AUTH TLS" || command == "AUTH SSL"))
      modifies `tbncsessions, `responsecatch, `origincatch
      ensures (r, Plan(responsecatch, origincatch, tlsstate, instead), h, tbncsessions) ==
        Instructed(addresses, Plan(old(responsecatch), old(origincatch), tlsstate, ""), command, words, line,
                   attempts, g, old(tbncsessions))
    {
      hide DecodePasv, EncodePasv, ToExtendedPASVString, B.PoolActivate;
      h, instead := g, "";
      var e := FromPASVString(words[1]);
      match e {
        case Threw => r := Quiet(Thrown);
        case Malformed => r := Quiet(Passed(line));
        case Parsed(endpoint) =>
          var activated := B.PoolActivate(g, tbncsessions, attempts);
          var boundport := activated.0;
          h, tbncsessions := activated.1, activated.2;
          if boundport != -1 {
            if addresses.siteaddrfam == IPV4 {
              var ours := ToPASVString(addresses.siteifaddr, boundport);
              instead := words[0] + " " + ours;
            } else {
              instead := "EPRT " + ToExtendedPASVString(IPV6, addresses.siteifaddr, boundport);
              responsecatch := CatchEprt;
              origincatch := OriginPort;
            }
          } else {
            responsecatch := CatchPort;
            instead := "NOOP";
          }
          var request := Request(addresses.siteaddrfam, IPV4, endpoint.addr, endpoint.port);
          r := Effect(Passed(instead + "\r\n"), Some((request, boundport)), false);
      }
    }

    method EprtCommand(command: string, words: seq<string>, line: string, g: B.Shared, attempts: nat -> B.Attempt)
      returns (r: Effect, h: B.Shared, instead: string)
      requires g.ports.Valid() && Worded(words) && words[0] == "EPRT" && command != "PASV" && command != "CPSV"
      requires !(tlsstate == TlsNone && (command == "AUTH TLS" || command == "AUTH SSL"))
      modifies `tbncsessions, `responsecatch
      ensures (r, Plan(responsecatch, origincatch, tlsstate, instead), h, tbncsessions) ==
        Instructed(addresses, Plan(old(responsecatch), origincatch, tlsstate, ""), command, words, line,
                   attempts, g, old(tbncsessions))
    {
      hide FromExtendedPASVString, ToExtendedPASVString, B.PoolActivate;
      h, instead := g, "";
      var e := FromExtendedPASVString(words[1]);
      match e {
        case Threw => r := Quiet(Thrown);
        case Malformed => r := Quiet(Passed(line));
        case Parsed(endpoint) =>
          var addrfam, useaddr := endpoint.addrfam, endpoint.addr;
          if useaddr == "" {
            addrfam, useaddr := addresses.clientaddrfam, addresses.clientaddr;
          }
          var activated := B.PoolActivate(g, tbncsessions, attempts);
          var boundport := activated.0;
          h, tbncsessions := activated.1, activated.2;
          if boundport != -1 {
            instead := words[0] + " " + ToExtendedPASVString(addresses.siteaddrfam, addresses.siteifaddr, boundport);
          } else {
            responsecatch := CatchEprt;
            instead := "NOOP";
          }
          var request := Request(addresses.siteaddrfam, addrfam, useaddr, endpoint.port);
          r := Effect(Passed(instead + "\r\n"), Some((request, boundport)), false);
      }
    }
  }

  lemma FirstTwo(s: string)
    ensures Substr(s, 0, 2) == "1," <==> |s| >= 2 && s[..2] == "1,"
  {
  }

  lemma NothingAnnounced(a: Parties, catch: ResponseCatch, origin: OriginCatch, code: int, response: string,
                         attempts: nat -> B.Attempt, g: B.Shared, pool: seq<B.Session>, r: Effect)
    requires g.ports.Valid() && !(catch == CatchPasv && code == 227) && !(catch == CatchEpsv && code == 229)
    requires r == Effect(Passed(Plain(catch, origin, response)), Option.None, catch == CatchAuthTls && code == 234)
    ensures Answer(a, catch, origin, code, response, attempts, g, pool) == (r, g, pool)
  {
  }
}
