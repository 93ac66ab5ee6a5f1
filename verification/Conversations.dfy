/** What else a control connection that is bounced comes to: no port left, a command or reply nobody has to change, and
    AUTH TLS. */
module Conversations {
  import opened Text
  import opened Fields
  import opened PasvString
  import opened BncSessionClient
  import opened B = Bounce
  import opened BounceRuns
  import opened Rewriting
  import opened Lockstep
  import G = BounceGuarantees
  import P = ResponseParser
  import C = CommandParser

  const SORRY := "502 cbbncd: passive port range exhausted.\r\n"

  // ---- replies ----

  /** A reply with code n in any pieces, which meet any pools and allocators. */
  ghost predicate AReply(inputs: seq<Input>, msg: string, p: nat, n: nat) {
    Usable(inputs) && P.Pieces(Texts(inputs), msg) && P.RfcReply(msg, p, n) && n != 550
  }

  /** A caught reply is answered for as a whole, and then nothing is caught any more. */
  lemma {:induction false} CaughtReply(a: Parties, t: Talk, inputs: seq<Input>, msg: string, p: nat, n: nat)
    requires AReply(inputs, msg, p, n) && t.catch != CatchNone && t.response.data == "" && !t.response.complete
    ensures var (es, u, h) := Feed(a, t, inputs);
      var last := inputs[|inputs| - 1];
      var (e, k, sessions) := Answer(a, t.catch, t.origin, n, msg, last.attempts, last.g, last.pool);
      && (forall i :: 0 <= i < |es| - 1 ==> es[i] == Quiet(Held)) && es != [] && es[|es| - 1] == e
      && h == k && u.pool == sessions
      && (e.out.Passed? ==> AtRest(u) && u.command == t.command && u.tls == if e.starttls then TlsInProgress else t.tls)
  {
    hide Answer, P.RfcReply, P.Results, P.Final, P.OnlyLast;
    P.RfcReplyAnySplit(t.response, Texts(inputs), Rooms(inputs), msg, p, n);
    FeedAnswers(a, t, inputs);
  }

  /** While nothing is being caught every chunk is passed on as it is. */
  lemma {:induction false} NothingCaught(a: Parties, t: Talk, data: string, room: string,
                                         attempts: nat -> Attempt, g: Shared)
    requires t.catch == CatchNone && g.ports.Valid()
    ensures FromSite(a, t, data, room, attempts, g) == (Quiet(Passed(data)), t, g)
  {
  }

  /** A reply to PASV with another code than 227, or to EPSV with another than 229, or that announces nothing that can
      be read, is passed on as it is, and nobody is asked for a port. */
  lemma {:induction false} OtherReply(a: Parties, t: Talk, inputs: seq<Input>, msg: string, p: nat, n: nat)
    requires AReply(inputs, msg, p, n) && t.response.data == "" && !t.response.complete
    requires t.catch == CatchPasv || t.catch == CatchEpsv
    requires t.catch == CatchPasv && n == 227 ==> CountOf(PasvText(a, msg), ',') < 5
    requires t.catch == CatchEpsv && n == 229 ==> CountOf(Inside(msg), '|') < 4
    ensures var (es, u, h) := Feed(a, t, inputs);
      OneText(es, msg) && es[|es| - 1].asked == Option.None && AtRest(u) && h == inputs[|inputs| - 1].g
  {
    hide P.RfcReply, Feed, PasvText, Inside, FromExtendedPASVString;
    CaughtReply(a, t, inputs, msg, p, n);
    SplitCount(PasvText(a, msg), ',');
    SplitCount(Inside(msg), '|');
    ExtendedByFields(Inside(msg));
  }

  // ---- no port left ----

  /** The site's reply announces a connection, but there is no port: the client reads a 502 in its place. */
  lemma {:induction false} NoPortForReply(x: Exchange, r: Request)
    requires x.Ready() && AsksPassive(x.Command()) && x.Port() == -1
    requires var q := x.Caught();
      Awaited(q.catch, x.code) && Announced(x.a, q.catch, q.origin, x.code, x.msg) == Parsed(r)
    ensures var (e, asked, _) := FromClient(x.a, x.t, x.data, x.earlier, x.g);
      var (es, u, h) := Feed(x.a, asked, x.inputs);
      OneText(es, SORRY) && es[|es| - 1].asked == Some((r, -1)) && AtRest(u)
  {
    hide Announced, CommandPlan, Step, Enabled, C.TrimmedUpper, AsksPassive, Feed, P.RfcReply;
    CommandGoesOut(x.a, x.t, x.data, x.earlier, x.g);
    ReplyIsAnswered(x.w, x.i, x.attempts, x.until, x.a, Sent(x.t, x.Caught()), x.inputs, x.msg, x.p, x.code);
  }

  /** A PORT or EPRT that can be read, but there is no port: the site gets a NOOP, and whatever it answers to that the
      client reads a 502. */
  lemma {:induction false} NoPortForCommand(a: Parties, t: Talk, data: string, attempts: nat -> Attempt, g: Shared,
                         inputs: seq<Input>, msg: string, p: nat, n: nat)
    requires AtRest(t) && C.EndsWithLine(data) && g.ports.Valid() && AReply(inputs, msg, p, n)
    requires var command := C.TrimmedUpper(t.command.data + data);
      var words := Split(command, ' ');
      |words| > 1 && words[0] in {"PORT", "EPRT"} &&
      Asked(a, Plan(t.catch, t.origin, t.tls, ""), command, words).Parsed?
    requires PoolActivate(g, t.pool, attempts).0 == -1
    ensures var (e, asking, _) := FromClient(a, t, data, attempts, g);
      var (es, u, h) := Feed(a, asking, inputs);
      e.out == Passed("NOOP\r\n") && OneText(es, SORRY) && es[|es| - 1].asked == Option.None && AtRest(u)
  {
    hide C.TrimmedUpper, Asked, PoolActivate, Split, P.RfcReply, Feed;
    var command := C.TrimmedUpper(t.command.data + data);
    C.NoSecondWord(command);
    var (e, asking, _) := FromClient(a, t, data, attempts, g);
    assert "NOOP" + "\r\n" == "NOOP\r\n";
    assert asking.catch in {CatchPort, CatchEprt} && asking.origin == OriginNone;
    CaughtReply(a, asking, inputs, msg, p, n);
  }

  /** A PORT to an IPv6 site goes out as EPRT, and whatever the site answers the client reads that its PORT was
      successful: also when the site has refused. */
  lemma {:induction false} PortAlwaysSucceeds(a: Parties, t: Talk, data: string, attempts: nat -> Attempt, g: Shared,
                           inputs: seq<Input>, msg: string, p: nat, n: nat)
    requires AtRest(t) && C.EndsWithLine(data) && g.ports.Valid() && AReply(inputs, msg, p, n) && a.siteaddrfam != IPV4
    requires var command := C.TrimmedUpper(t.command.data + data);
      var words := Split(command, ' ');
      |words| > 1 && words[0] == "PORT" && Asked(a, Plan(t.catch, t.origin, t.tls, ""), command, words).Parsed?
    requires PoolActivate(g, t.pool, attempts).0 != -1
    ensures var (e, asking, _) := FromClient(a, t, data, attempts, g);
      var (es, u, h) := Feed(a, asking, inputs);
      OneText(es, "200 PORT command successful.\r\n") && es[|es| - 1].asked == Option.None && AtRest(u)
  {
    hide C.TrimmedUpper, Asked, PoolActivate, Split, P.RfcReply, Feed, ToExtendedPASVString;
    var command := C.TrimmedUpper(t.command.data + data);
    C.NoSecondWord(command);
    var (e, asking, _) := FromClient(a, t, data, attempts, g);
    assert asking.catch == CatchEprt && asking.origin == OriginPort;
    CaughtReply(a, asking, inputs, msg, p, n);
  }

  // ---- AUTH TLS, and everything else ----

  /** The first AUTH TLS or AUTH SSL goes out as it is, and so does the reply come back; TLS begins exactly when its
      code is 234. */
  lemma {:induction false} AuthTls(a: Parties, t: Talk, data: string, attempts: nat -> Attempt, g: Shared,
                inputs: seq<Input>, msg: string, p: nat, n: nat)
    requires AtRest(t) && C.EndsWithLine(data) && g.ports.Valid() && AReply(inputs, msg, p, n) && t.tls == TlsNone
    requires C.TrimmedUpper(t.command.data + data) in {"AUTH TLS", "AUTH SSL"}
    ensures var (e, asking, k) := FromClient(a, t, data, attempts, g);
      var (es, u, h) := Feed(a, asking, inputs);
      && e == Quiet(Passed(t.command.data + data)) && k == g
      && OneText(es, msg) && es[|es| - 1].asked == Option.None && AtRest(u)
      && es[|es| - 1].starttls == (n == 234) && u.tls == (if n == 234 then TlsInProgress else TlsQuery)
  {
    hide C.TrimmedUpper, P.RfcReply, Feed, Split;
    var command := C.TrimmedUpper(t.command.data + data);
    C.NoSecondWord(command);
    FirstWord(command);
    var (e, asking, _) := FromClient(a, t, data, attempts, g);
    CaughtReply(a, asking, inputs, msg, p, n);
  }

  /** The commands that are looked at. */
  predicate Known(command: string, tls: TLSState) {
    || (tls == TlsNone && command in {"AUTH TLS", "AUTH SSL"})
    || command in {"PASV", "CPSV"} || Split(command, ' ')[0] in {"EPSV", "PORT", "EPRT"}
  }

  /** A piece of a command that does not end its line goes nowhere yet, and nothing else happens. */
  lemma {:induction false} PieceOfCommand(a: Parties, t: Talk, data: string, attempts: nat -> Attempt, g: Shared)
    requires data != "" && g.ports.Valid() && !t.command.complete && data[|data| - 1] != '\n'
    ensures FromClient(a, t, data, attempts, g) ==
      (Quiet(Held), t.(command := C.State(t.command.data + data, false)), g)
  {
  }

  /** Any other command goes out as it is, nobody is asked for a port, and nothing is caught that was not before. */
  lemma {:induction false} OtherCommand(a: Parties, t: Talk, data: string, attempts: nat -> Attempt, g: Shared)
    requires C.EndsWithLine(data) && g.ports.Valid() && !Known(C.TrimmedUpper(t.command.data + data), t.tls)
    ensures FromClient(a, t, data, attempts, g) ==
      (Quiet(Passed(t.command.data + data)), t.(command := C.State("", false)), g)
  {
    hide C.TrimmedUpper, Split;
    var command := C.TrimmedUpper(t.command.data + data);
    C.NoSecondWord(command);
  }
}
