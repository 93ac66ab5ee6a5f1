/** A control connection end to end: a client that waits for each reply sends a command for a passive data
    connection, the site's reply comes in pieces, and what the client then reads is a port that is really held. */
module Lockstep {
  import opened Text
  import opened Fields
  import opened PasvString
  import opened BncSessionClient
  import opened B = Bounce
  import opened BounceRuns
  import opened Rewriting
  import G = BounceGuarantees
  import P = ResponseParser
  import C = CommandParser

  // ---- the reply in pieces ----

  /** A chunk from the site, with what it meets: the rest of the parser's buffer, the pool and the allocator as other
      events have left them by then, and the outside world of an activation. */
  datatype Input = Input(data: string, room: string, pool: seq<Session>, g: Shared, attempts: nat -> Attempt)

  function Received(a: Parties, t: Talk, x: Input): (Effect, Talk, Shared)
    requires x.g.ports.Valid()
  {
    FromSite(a, t.(pool := x.pool), x.data, x.room, x.attempts, x.g)
  }

  ghost predicate Usable(inputs: seq<Input>) {
    inputs != [] && forall i :: 0 <= i < |inputs| ==> inputs[i].g.ports.Valid()
  }

  /** The effects of the chunks, and what the last one leaves. */
  ghost function Feed(a: Parties, t: Talk, inputs: seq<Input>): (r: (seq<Effect>, Talk, Shared))
    requires Usable(inputs)
    ensures |r.0| == |inputs|
    decreases |inputs|
  {
    var (e, u, h) := Received(a, t, inputs[0]);
    if |inputs| == 1 then ([e], u, h)
    else
      var (es, v, k) := Feed(a, u, inputs[1..]);
      ([e] + es, v, k)
  }

  function Texts(inputs: seq<Input>): seq<string> {
    seq(|inputs|, i requires 0 <= i < |inputs| => inputs[i].data)
  }

  function Rooms(inputs: seq<Input>): seq<string> {
    seq(|inputs|, i requires 0 <= i < |inputs| => inputs[i].room)
  }

  /** A reply that is being caught is held back piece by piece and answered for as a whole, with the sessions as the
      last piece finds them. */
  lemma {:induction false} FeedAnswers(a: Parties, t: Talk, inputs: seq<Input>)
    requires Usable(inputs) && t.catch != CatchNone
    requires P.OnlyLast(P.Results(t.response, Texts(inputs), Rooms(inputs)))
    ensures var (es, u, h) := Feed(a, t, inputs);
      var last, now := inputs[|inputs| - 1], P.Final(t.response, Texts(inputs), Rooms(inputs));
      && (forall k :: 0 <= k < |inputs| - 1 ==> es[k] == Quiet(Held))
      && (es[|inputs| - 1], u, h) == Answering(a, t.(pool := last.pool), now, last.attempts, last.g)
    decreases |inputs|
  {
    hide Answer, P.Step;
    var (now, done) := P.Step(t.response, inputs[0].data, inputs[0].room);
    if |inputs| > 1 {
      P.Unroll(t.response, Texts(inputs), Rooms(inputs));
      assert Texts(inputs)[1..] == Texts(inputs[1..]) && Rooms(inputs)[1..] == Rooms(inputs[1..]);
      FeedAnswers(a, t.(response := now, pool := inputs[0].pool), inputs[1..]);
    }
  }

  // ---- the whole way ----

  predicate AsksPassive(command: string) {
    command == "PASV" || command == "CPSV" || Split(command, ' ')[0] == "EPSV"
  }

  lemma {:induction false} NothingAsked(a: Parties, p: Plan, command: string)
    requires AsksPassive(command)
    ensures command != "PORT" && command != "EPRT" && Worded(Split(command, ' '))
    ensures Asked(a, p, command, Split(command, ' ')) == Malformed
    ensures CommandPlan(a, p, command, Split(command, ' ')).tls == p.tls
  {
    C.NoSecondWord(command);
    FirstWord(command);
    assert command[0] in {'P', 'C', 'E'};
  }

  /** A command for a passive data connection, its last piece being data: it goes out at once, as planned. */
  lemma {:induction false} CommandGoesOut(a: Parties, t: Talk, data: string, attempts: nat -> Attempt, g: Shared)
    requires g.ports.Valid() && C.EndsWithLine(data) && AsksPassive(C.TrimmedUpper(t.command.data + data))
    ensures var line := t.command.data + data;
      var command := C.TrimmedUpper(line);
      var q := CommandPlan(a, Plan(t.catch, t.origin, t.tls, ""), command, Split(command, ' '));
      FromClient(a, t, data, attempts, g) == (Quiet(Passed(Line(q, line))), Sent(t, q), g)
  {
    hide C.TrimmedUpper, Asked, CommandPlan, PoolActivate, AsksPassive;
    var command := C.TrimmedUpper(t.command.data + data);
    NothingAsked(a, Plan(t.catch, t.origin, t.tls, ""), command);
  }

  /** Nothing is being caught, and no part of a reply is held back. */
  predicate AtRest(t: Talk) {
    t.catch == CatchNone && t.origin == OriginNone && t.response.data == "" && !t.response.complete
  }

  /** The last line of the reply carries the code the caught command waits for. */
  predicate Awaited(catch: ResponseCatch, code: int) {
    (catch == CatchPasv && code == 227) || (catch == CatchEpsv && code == 229)
  }

  /** The site's reply, a reply of section 4.2 of RFC 959 with code n, in any pieces, the last of which meets the
      world w. */
  ghost predicate ReplyComes(inputs: seq<Input>, msg: string, p: nat, n: nat,
                             w: World, i: nat, attempts: nat -> Attempt) {
    && Usable(inputs) && P.Pieces(Texts(inputs), msg) && P.RfcReply(msg, p, n)
    && i < |w.pools|
    && var last := inputs[|inputs| - 1];
      last.pool == w.pools[i].sessions && last.g == w.g && last.attempts == attempts
  }

  /** The client receives nothing until the reply is complete. Then the sessions of its pool are asked for a port, as
      in a step of BounceRuns, it receives the announcement of that port, and the next command may come. */
  lemma {:induction false} ReplyIsAnswered(w: World, i: nat, attempts: nat -> Attempt, until: nat,
                        a: Parties, t: Talk, inputs: seq<Input>, msg: string, p: nat, n: nat)
    requires Inv(w) && Enabled(w, Activated(i, attempts, until)) && ReplyComes(inputs, msg, p, n, w, i, attempts)
    requires t.response.data == "" && !t.response.complete && Awaited(t.catch, n)
    requires Announced(a, t.catch, t.origin, n, msg).Parsed?
    ensures var (es, u, h) := Feed(a, t, inputs);
      var v, port := Step(w, Activated(i, attempts, until)), G.Returned(w, i, attempts);
      var r := Announced(a, t.catch, t.origin, n, msg).value;
      var text := Announcement(a, t.catch, t.origin, msg, r, port);
      && (forall k :: 0 <= k < |inputs| - 1 ==> es[k] == Quiet(Held))
      && es[|inputs| - 1] == Effect(TextOrThrown(text), Some((r, port)), false)
      && h == v.g && u.pool == v.pools[i].sessions
      && (text.Some? ==> AtRest(u) && u.tls == t.tls && u.command == t.command)
  {
    hide P.RfcReply, P.Results, P.Final, P.OnlyLast, Announced, Announcement, PoolActivate, Inv;
    P.RfcReplyAnySplit(t.response, Texts(inputs), Rooms(inputs), msg, p, n);
    FeedAnswers(a, t, inputs);
  }

  /** What comes of the chunks for the client: one text, with the last of them. */
  ghost predicate OneText(es: seq<Effect>, text: string) {
    && es != [] && es[|es| - 1].out == Passed(text)
    && forall k :: 0 <= k < |es| - 1 ==> es[k] == Quiet(Held)
  }

  /** A session of pool i, and of no other pool, listens on the port. */
  ghost predicate HeldBy(v: World, i: nat, port: int) {
    && (exists j: nat :: G.Awaiting(v, i, j, port))
    && (forall k: nat, l: nat :: G.Awaiting(v, k, l, port) ==> k == i)
  }

  /** A command and its reply: the client object t gets data, the last piece of a command, while the allocator is g;
      then the inputs come, which make up the reply msg with that code, its last line at p, the last of them in the
      world w. */
  datatype Exchange = Exchange(
    a: Parties, t: Talk, data: string, g: Shared, earlier: nat -> Attempt,
    inputs: seq<Input>, msg: string, p: nat, code: nat,
    w: World, i: nat, attempts: nat -> Attempt, until: nat)
  {
    function Command(): string { C.TrimmedUpper(t.command.data + data) }

    /** What is caught after the command. */
    function Caught(): Plan {
      CommandPlan(a, Plan(t.catch, t.origin, t.tls, ""), Command(), Split(Command(), ' '))
    }

    /** The world is one a run can lead to, and nothing is being caught when the command comes. */
    ghost predicate Ready() {
      && Inv(w) && i < |w.pools| && Enabled(w, Activated(i, attempts, until))
      && ReplyComes(inputs, msg, p, code, w, i, attempts)
      && AtRest(t) && g.ports.Valid() && C.EndsWithLine(data)
    }

    /** The port the sessions answer with. */
    ghost function Port(): int
      requires Ready()
    {
      G.Returned(w, i, attempts)
    }

    /** The command went out as `sent`, the client read one text, the sessions were asked for r once, the one that
        answered listens on the port, and the next command may come. */
    ghost predicate Ends(sent: string, text: string, r: Request)
      requires Ready()
    {
      var (e, asked, _) := FromClient(a, t, data, earlier, g);
      var (es, u, h) := Feed(a, asked, inputs);
      var v := Step(w, Activated(i, attempts, until));
      && e == Quiet(Passed(sent)) && OneText(es, text) && es[|es| - 1].asked == Some((r, Port()))
      && h == v.g && u.pool == v.pools[i].sessions && HeldBy(v, i, Port())
      && AtRest(u) && u.command == C.EMPTY
    }
  }

  /** The command and the reply put together: everything but what the text says. */
  lemma {:induction false} Bounced(x: Exchange, r: Request, text: string)
    requires x.Ready() && AsksPassive(x.Command()) && x.Port() != -1
    requires var q := x.Caught();
      Awaited(q.catch, x.code) && Announced(x.a, q.catch, q.origin, x.code, x.msg) == Parsed(r) &&
      Announcement(x.a, q.catch, q.origin, x.msg, r, x.Port()) == Some(text)
    ensures x.Ends(Line(x.Caught(), x.t.command.data + x.data), text, r)
  {
    hide Announced, Announcement, CommandPlan, Step, Enabled, C.TrimmedUpper, AsksPassive, Feed, P.RfcReply;
    CommandGoesOut(x.a, x.t, x.data, x.earlier, x.g);
    ReplyIsAnswered(x.w, x.i, x.attempts, x.until, x.a, Sent(x.t, x.Caught()), x.inputs, x.msg, x.p, x.code);
    ReturnedPortHeld(x.w, x.i, x.attempts, x.until);
  }

  predicate FourParted(s: string) { ',' !in s && CountOf(s, '.') == 3 }

  predicate DottedQuad(s: string) { NoParentheses(s) && FourParted(s) }

  /** How a site that leaves its address out of a 227 writes a port. */
  function WithoutAddress(port: nat): string { "1," + ToString(port / 256) + "," + ToString(port % 256) }

  /** What the site's 227 asks the session to dial: the host and port between the parentheses, or the site itself when
      its address is left out there. */
  ghost predicate DialsFrom227(a: Parties, inside: string, r: Request) {
    && (forall host, port :: FourParted(host) && IsPort(port) && inside == EncodePasv(host, port) ==>
      r == Request(IPV4, IPV4, host, port))
    && (forall port :: (IsPort(port) && port >= 0 && FourParted(a.sitehost) && inside == WithoutAddress(port)) ==>
      r == Request(IPV4, IPV4, a.sitehost, port))
  }

  lemma {:induction false} WholeAddress(a: Parties, response: string, host: string, port: int)
    requires FourParted(host) && IsPort(port) && Inside(response) == EncodePasv(host, port)
    ensures DecodePasv(PasvText(a, response)) == Parsed(Endpoint(host, port))
  {
    hide Inside, Split, CountOf, DecodePasv;
    PasvRoundTrip(host, port);
    SplitEncoded(host, port);
    FourParts(host);
    SplitCount(EncodePasv(host, port), ',');
  }

  lemma {:induction false} FourParts(host: string)
    requires FourParted(host)
    ensures |Split(Replace(host, '.', ','), ',')| == 4
  {
    CommasPlusDots(host);
    SplitCount(Replace(host, '.', ','), ',');
    SplitCount(host, ',');
    OneField(host, ',');
  }

  lemma {:induction false} LeftOutAddress(a: Parties, response: string, port: int)
    requires FourParted(a.sitehost) && IsPort(port) && port >= 0
    requires Inside(response) == WithoutAddress(port)
    ensures DecodePasv(PasvText(a, response)) == Parsed(Endpoint(a.sitehost, port))
  {
    hide Inside, Split, CountOf, DecodePasv, ToString;
    var high, low := ToString(port / 256), ToString(port % 256);
    ToStringIsPlain(port / 256);
    ToStringIsPlain(port % 256);
    OneField("1", ',');
    OneField(high, ',');
    OneField(low, ',');
    SplitAtSeparator(high, ',', low);
    SplitAtSeparator("1", ',', high + [','] + low);
    var inside := "1" + [','] + (high + [','] + low);
    assert Inside(response) == inside && inside[..2] == "1," && inside[2..] == high + "," + low;
    SplitCount(inside, ',');
    assert Replace(a.sitehost, '.', ',') + "," + inside[2..] == EncodePasv(a.sitehost, port);
    PasvRoundTrip(a.sitehost, port);
  }

  lemma {:induction false} AsksWhat227Says(a: Parties, response: string, r: Request)
    requires Announced(a, CatchPasv, OriginNone, 227, response) == Parsed(r)
    ensures DialsFrom227(a, Inside(response), r)
  {
    hide Inside, DecodePasv, PasvText, FourParted;
    forall host, port | FourParted(host) && IsPort(port) && Inside(response) == EncodePasv(host, port)
      ensures r == Request(IPV4, IPV4, host, port)
    {
      WholeAddress(a, response, host, port);
    }
    forall port | IsPort(port) && port >= 0 && FourParted(a.sitehost) && Inside(response) == WithoutAddress(port)
      ensures r == Request(IPV4, IPV4, a.sitehost, port)
    {
      LeftOutAddress(a, response, port);
    }
  }

  /** What the site's 229 asks it to dial: the port, at the host given, or the site itself when none is given. */
  ghost predicate DialsFrom229(a: Parties, inside: string, r: Request) {
    forall family, host, port ::
      (family != IPV4_IPV6 && '|' !in host && IsPort(port) && inside == ToExtendedPASVString(family, host, port)) ==>
      && r.portaddrfam == (if host == "" then a.siteaddrfam else family)
      && r.host == (if host == "" then a.sitehost else host) && r.port == port
  }

  lemma {:induction false} AsksWhat229Says(a: Parties, origin: OriginCatch, response: string, r: Request)
    requires Announced(a, CatchEpsv, origin, 229, response) == Parsed(r)
    ensures DialsFrom229(a, Inside(response), r)
  {
    hide Inside, FromExtendedPASVString, ToExtendedPASVString;
    forall family, host, port | family != IPV4_IPV6 && '|' !in host && IsPort(port)
        && Inside(response) == ToExtendedPASVString(family, host, port)
      ensures r.portaddrfam == (if host == "" then a.siteaddrfam else family)
      ensures r.host == (if host == "" then a.sitehost else host) && r.port == port
    {
      ExtendedRoundTrip(family, host, port);
    }
  }

  /** PASV and CPSV to an IPv4 site: the command goes out unchanged, what the client reads is our address and a port its
      own control connection's session listens on, and that session dials what the site said. */
  lemma {:induction false} PasvEndToEnd(x: Exchange) returns (text: string, r: Request)
    requires x.Ready() && x.Command() in {"PASV", "CPSV"} && x.a.siteaddrfam != IPV6 && x.code == 227
    requires DecodePasv(PasvText(x.a, x.msg)).Parsed? && Enclosed(x.msg) && DottedQuad(x.a.ifaddr4)
    requires x.Port() != -1 && IsPort(x.Port())
    ensures x.Ends(x.t.command.data + x.data, text, r)
    ensures DecodePasv(Inside(text)) == Parsed(Endpoint(x.a.ifaddr4, x.Port()))
    ensures DialsFrom227(x.a, Inside(x.msg), r)
  {
    hide Announcement, DecodePasv, PasvText, Exchange.Ends, Exchange.Port, C.TrimmedUpper, DialsFrom227;
    hide Split, Enclosed, Inside, CountOf;
    r := Announced(x.a, CatchPasv, OriginNone, 227, x.msg).value;
    PasvRewritten(x.a, OriginNone, x.msg, r, x.Port());
    text := Announcement(x.a, CatchPasv, OriginNone, x.msg, r, x.Port()).value;
    AsksWhat227Says(x.a, x.msg, r);
    Bounced(x, r, text);
  }

  /** PASV and CPSV to an IPv6 site: EPSV 2 goes out instead, from the site's 229 the client gets a 227 that reads as
      our IPv4 address and such a port, and the session listens on IPv4 and dials what the site said. */
  lemma {:induction false} PasvOverIpv6EndToEnd(x: Exchange) returns (text: string, r: Request)
    requires x.Ready() && x.Command() in {"PASV", "CPSV"} && x.a.siteaddrfam == IPV6 && x.code == 229
    requires FromExtendedPASVString(Inside(x.msg)).Parsed? && DottedQuad(x.a.ifaddr4)
    requires x.Port() != -1 && IsPort(x.Port())
    ensures x.Ends("EPSV 2\r\n", text, r)
    ensures |text| >= 4 && text[..4] == "227 " && DecodePasv(Inside(text)) == Parsed(Endpoint(x.a.ifaddr4, x.Port()))
    ensures r.pasvaddrfam == IPV4 && DialsFrom229(x.a, Inside(x.msg), r)
  {
    hide Announcement, DecodePasv, FromExtendedPASVString, Exchange.Ends, Exchange.Port, C.TrimmedUpper, DialsFrom229;
    hide Split, Inside, CountOf;
    PasvOverIpv6(x.a, x.t.tls, x.Command(), x.t.command.data + x.data, x.msg, x.Port());
    r := Announced(x.a, CatchEpsv, OriginPasv, 229, x.msg).value;
    text := Announcement(x.a, CatchEpsv, OriginPasv, x.msg, r, x.Port()).value;
    AsksWhat229Says(x.a, OriginPasv, x.msg, r);
    Bounced(x, r, text);
  }

  lemma {:induction false} EpsvCaught(a: Parties, p: Plan, command: string)
    requires Split(command, ' ')[0] == "EPSV" && (a.siteaddrfam == IPV4 || a.siteaddrfam == IPV6)
    ensures AsksPassive(command)
    ensures var q := CommandPlan(a, p, command, Split(command, ' '));
      && q.catch == CatchEpsv
      && q.origin == if AskedFamily(command) == a.siteaddrfam then p.origin
                     else if a.siteaddrfam == IPV6 then OriginEpsv1
                     else OriginEpsv2
  {
    hide Split;
    FirstWord(command);
    assert command[0] == 'E';
  }

  /** EPSV: it goes out for the site's own family, what the client reads is such a port, with one of our addresses and
      its family when the site gave an address of its own, and the session dials what the site said. */
  lemma {:induction false} EpsvEndToEnd(x: Exchange) returns (text: string, r: Request)
    requires x.Ready() && Split(x.Command(), ' ')[0] == "EPSV" && x.code == 229
    requires (x.a.siteaddrfam == IPV4 || x.a.siteaddrfam == IPV6) && FromExtendedPASVString(Inside(x.msg)).Parsed?
    requires Enclosed(x.msg) && NoParentheses(x.a.ifaddr4) && NoParentheses(x.a.ifaddr6)
    requires '|' !in x.a.ifaddr4 && '|' !in x.a.ifaddr6 && x.Port() != -1 && IsPort(x.Port())
    ensures var asked, site := AskedFamily(x.Command()), x.a.siteaddrfam;
      x.Ends(if asked == site then x.t.command.data + x.data
             else if site == IPV6 then "EPSV 2\r\n"
             else "EPSV 1\r\n", text, r)
    ensures var e := FromExtendedPASVString(Inside(x.msg)).value;
      var family := if AskedFamily(x.Command()) == x.a.siteaddrfam then e.addrfam else AskedFamily(x.Command());
      FromExtendedPASVString(Inside(text)) == Parsed(
        if e.addr == "" then ExtendedEndpoint(NONE, "", x.Port())
        else ExtendedEndpoint(family, if family == IPV4 then x.a.ifaddr4 else x.a.ifaddr6, x.Port()))
    ensures DialsFrom229(x.a, Inside(x.msg), r)
  {
    hide Announcement, FromExtendedPASVString, Exchange.Ends, Exchange.Port, C.TrimmedUpper, DialsFrom229;
    hide Split, Enclosed, Inside, CommandPlan, AsksPassive;
    var q := x.Caught();
    EpsvCaught(x.a, Plan(x.t.catch, x.t.origin, x.t.tls, ""), x.Command());
    EpsvAcrossFamilies(x.a, x.t.tls, x.Command(), x.t.command.data + x.data, x.msg);
    r := Announced(x.a, CatchEpsv, q.origin, 229, x.msg).value;
    EpsvRewritten(x.a, q.origin, x.msg, x.Port());
    text := Announcement(x.a, CatchEpsv, q.origin, x.msg, r, x.Port()).value;
    AsksWhat229Says(x.a, q.origin, x.msg, r);
    Bounced(x, r, text);
  }

  // ---- the other direction ----

  /** What a PORT asks the session to dial: the host and port it names, over IPv4. */
  ghost predicate DialsFromPort(a: Parties, argument: string, r: Request) {
    forall host, port :: FourParted(host) && IsPort(port) && argument == EncodePasv(host, port) ==>
      r == Request(a.siteaddrfam, IPV4, host, port)
  }

  /** And an EPRT: the host and port it names, or the client itself when it names no host. */
  ghost predicate DialsFromEprt(a: Parties, argument: string, r: Request) {
    forall family, host, port ::
      (family != IPV4_IPV6 && '|' !in host && IsPort(port) && argument == ToExtendedPASVString(family, host, port)) ==>
      r == (if host == "" then Request(a.siteaddrfam, a.clientaddrfam, a.clientaddr, port)
            else Request(a.siteaddrfam, family, host, port))
  }

  lemma {:induction false} AsksWhatPortSays(a: Parties, p: Plan, command: string, words: seq<string>, r: Request)
    requires |words| > 1 && words[0] == "PORT" && Asked(a, p, command, words) == Parsed(r)
    ensures DialsFromPort(a, words[1], r)
  {
    hide DecodePasv, EncodePasv;
    forall host, port | FourParted(host) && IsPort(port) && words[1] == EncodePasv(host, port)
      ensures r == Request(a.siteaddrfam, IPV4, host, port)
    {
      PasvRoundTrip(host, port);
    }
  }

  lemma {:induction false} AsksWhatEprtSays(a: Parties, p: Plan, command: string, words: seq<string>, r: Request)
    requires |words| > 1 && words[0] == "EPRT" && Asked(a, p, command, words) == Parsed(r)
    ensures DialsFromEprt(a, words[1], r)
  {
    hide FromExtendedPASVString, ToExtendedPASVString;
    forall family, host, port | family != IPV4_IPV6 && '|' !in host && IsPort(port)
        && words[1] == ToExtendedPASVString(family, host, port)
      ensures r == if host == "" then Request(a.siteaddrfam, a.clientaddrfam, a.clientaddr, port)
                   else Request(a.siteaddrfam, family, host, port)
    {
      ExtendedRoundTrip(family, host, port);
    }
  }

  lemma {:induction false} SentLine(command: string)
    requires |command| > 5
    ensures var text := command + "\r\n";
      |text| > 7 && text[..5] == command[..5] && text[5..|text| - 2] == command[5..] && text[|text| - 2..] == "\r\n"
  {
  }

  /** PORT and EPRT: what the site reads is our address towards it and a port that this control connection's session
      listens on, on the family of the site; that session dials what the client said. To an IPv6 site a PORT goes out as
      an EPRT. */
  lemma {:induction false} PortEndToEnd(w: World, i: nat, attempts: nat -> Attempt, until: nat,
                                        a: Parties, t: Talk, data: string)
    requires Inv(w) && i < |w.pools| && Enabled(w, Activated(i, attempts, until)) && t.pool == w.pools[i].sessions
    requires C.EndsWithLine(data) && a.siteaddrfam != IPV4_IPV6 && '|' !in a.siteifaddr
    requires a.siteaddrfam == IPV4 ==> ',' !in a.siteifaddr && CountOf(a.siteifaddr, '.') == 3
    requires var command := C.TrimmedUpper(t.command.data + data);
      var words := Split(command, ' ');
      |words| > 1 && words[0] in {"PORT", "EPRT"} &&
      Asked(a, Plan(t.catch, t.origin, t.tls, ""), command, words).Parsed?
    requires G.Returned(w, i, attempts) != -1 && IsPort(G.Returned(w, i, attempts))
    ensures var words := Split(C.TrimmedUpper(t.command.data + data), ' ');
      var word := words[0];
      var (e, u, h) := FromClient(a, t, data, attempts, w.g);
      var v, port := Step(w, Activated(i, attempts, until)), G.Returned(w, i, attempts);
      && e.out.Passed? && |e.out.text| > 7 && e.out.text[|e.out.text| - 2..] == "\r\n"
      && var verb, body := e.out.text[..5], e.out.text[5..|e.out.text| - 2];
        var plain, family := word == "PORT" && a.siteaddrfam == IPV4, if word == "PORT" then IPV6 else a.siteaddrfam;
        && verb == (if plain then "PORT " else "EPRT ")
        && (plain ==> DecodePasv(body) == Parsed(Endpoint(a.siteifaddr, port)))
        && (!plain ==> FromExtendedPASVString(body) == Parsed(ExtendedEndpoint(family, a.siteifaddr, port)))
        && h == v.g && u.pool == v.pools[i].sessions && HeldBy(v, i, port)
        && e.asked.Some? && e.asked.value.1 == port
        && (word == "PORT" ==> DialsFromPort(a, words[1], e.asked.value.0))
        && (word == "EPRT" ==> DialsFromEprt(a, words[1], e.asked.value.0))
  {
    hide C.TrimmedUpper, Asked, AskedInstead, DecodePasv, FromExtendedPASVString, PoolActivate, CountOf, Split;
    hide DialsFromPort, DialsFromEprt;
    var command := C.TrimmedUpper(t.command.data + data);
    var words, p, port := Split(command, ' '), Plan(t.catch, t.origin, t.tls, ""), G.Returned(w, i, attempts);
    C.NoSecondWord(command);
    CommandRewritten(a, p, words, port);
    SentLine(AskedInstead(a, p, words, port).instead);
    var r := Asked(a, p, command, words).value;
    if words[0] == "PORT" {
      AsksWhatPortSays(a, p, command, words, r);
    } else {
      AsksWhatEprtSays(a, p, command, words, r);
    }
    ReturnedPortHeld(w, i, attempts, until);
  }

  // ---- an exchange ----

  const REPLY := "227 Entering Passive Mode (10,0,0,1,4,1)\r\n"

  const PARTIES := Parties(IPV4, "198.51.100.7", IPV4, "10.0.0.1", "203.0.113.2", "192.0.2.1", "2001:db8::1")

  lemma {:induction false} ReplyParts()
    ensures Enclosed(REPLY) && Inside(REPLY) == "10,0,0,1,4,1"
  {
    hide Enclosed, Inside;
    MadeUpReply("10,0,0,1,4,1");
    assert REPLY == OPENING + "10,0,0,1,4,1" + ")\r\n";
  }

  lemma {:induction false} ItsOneLine()
    ensures P.RfcReply(REPLY, 0, 227)
  {
    ItsCode();
    hide ToString;
    OneLineEnd();
    assert "227" + " " <= REPLY[0..];
  }

  lemma {:induction false} OneLineEnd()
    ensures |REPLY| >= 5 && REPLY[|REPLY| - 1] == '\n' && forall i :: 0 <= i < |REPLY| - 1 ==> REPLY[i] != '\n'
  {
  }

  lemma {:induction false} ItsCode()
    ensures ToString(227) == "227"
  {
    OneMoreDigit(22, 7);
    OneMoreDigit(2, 2);
  }

  lemma {:induction false} OneMoreDigit(n: nat, d: nat)
    requires n > 0 && d < 10
    ensures ToString(10 * n + d) == ToString(n) + [DigitChar(d)]
  {
  }

  lemma {:induction false} ItsAddress()
    ensures EncodePasv("10.0.0.1", 1025) == "10,0,0,1,4,1"
  {
    assert Replace("10.0.0.1", '.', ',') == "10,0,0,1";
    assert ToString(4) == "4" && ToString(1) == "1";
  }

  lemma {:induction false} ReplyFields()
    ensures Split("10,0,0,1,4,1", ',') == ["10", "0", "0", "1", "4", "1"]
  {
    hide Split;
    var four := "4" + "," + "1";
    var one := "1" + "," + four;
    var zero := "0" + "," + one;
    OneField("1", ',');
    NextPart("4", "1");
    NextPart("1", four);
    NextPart("0", one);
    NextPart("0", zero);
    NextPart("10", "0" + "," + zero);
    assert "10,0,0,1,4,1" == "10" + "," + ("0" + "," + zero);
  }

  lemma {:induction false} ReplyReads()
    ensures DecodePasv(PasvText(PARTIES, REPLY)).Parsed?
  {
    hide Split, CountOf, Stoi, Inside;
    ReplyParts();
    ReplyFields();
    SplitCount("10,0,0,1,4,1", ',');
    OneNumber(4, "");
    OneNumber(1, "");
    assert [DigitChar(4)] + "" == "4" && [DigitChar(1)] + "" == "1";
  }

  lemma {:induction false} OurQuad()
    ensures DottedQuad("192.0.2.1")
  {
    hide CountOf, Split;
    OneField("192", '.');
    OneField("0", '.');
    OneField("2", '.');
    OneField("1", '.');
    SplitAtSeparator("2", '.', "1");
    SplitAtSeparator("0", '.', "2" + ['.'] + "1");
    SplitAtSeparator("192", '.', "0" + ['.'] + ("2" + ['.'] + "1"));
    assert "192.0.2.1" == "192" + ['.'] + ("0" + ['.'] + ("2" + ['.'] + "1"));
    SplitCount("192.0.2.1", '.');
  }

  lemma {:induction false} PasvLine()
    ensures C.TrimmedUpper("PASV\r\n") == "PASV" && C.EndsWithLine("PASV\r\n")
  {
    C.TrimmedIs("PASV\r\n", 4);
    assert "PASV\r\n"[..4] == "PASV";
    assert C.Upper("PASV") == "PASV";
  }

  lemma {:induction false} OnePiece(room: string, pool: seq<Session>, g: Shared, attempts: nat -> Attempt)
    ensures P.Pieces(Texts([Input(REPLY, room, pool, g, attempts)]), REPLY)
  {
    assert Texts([Input(REPLY, room, pool, g, attempts)]) == [REPLY];
    assert Concat([REPLY]) == REPLY + "";
  }

  lemma {:induction false} TheirQuad()
    ensures FourParted("10.0.0.1")
  {
    hide CountOf, Split;
    OneField("10", '.');
    OneField("0", '.');
    OneField("1", '.');
    SplitAtSeparator("0", '.', "1");
    SplitAtSeparator("0", '.', "0" + ['.'] + "1");
    SplitAtSeparator("10", '.', "0" + ['.'] + ("0" + ['.'] + "1"));
    assert "10.0.0.1" == "10" + ['.'] + ("0" + ['.'] + ("0" + ['.'] + "1"));
    SplitCount("10.0.0.1", '.');
  }

  /** From every start: the first control connection sends PASV, and reads our address and the first port, while the
      session is asked to dial 10.0.0.1:1025. */
  lemma {:induction false} AnExchange(w: World, room: string) returns (x: Exchange, text: string)
    requires Initial(w) && IsPort(w.g.ports.first)
    ensures x.Ready() && Runs(w, [Opened], x.w) && x.Port() == w.g.ports.first
    ensures x.Ends("PASV\r\n", text, Request(IPV4, IPV4, "10.0.0.1", 1025))
    ensures DecodePasv(Inside(text)) == Parsed(Endpoint("192.0.2.1", w.g.ports.first))
  {
    hide Split, DecodePasv, PasvText, Enclosed, Inside, C.TrimmedUpper, P.RfcReply, CountOf;
    hide Exchange.Ends, PoolActivate, EncodePasv;
    var attempts := (t: nat) => Attempt(0, true, w.clock);
    InitialInv(w);
    StepKeeps(w, Opened);
    var v := Step(w, Opened);
    G.RunsMore(w, [], w, Opened);
    G.ListensFirst(v.g, [], attempts);
    ReplyParts();
    ItsOneLine();
    ReplyReads();
    OurQuad();
    TheirQuad();
    ItsAddress();
    PasvLine();
    OnePiece(room, [], v.g, attempts);
    var t := Talk(CatchNone, OriginNone, TlsNone, P.State("", 0, false), C.EMPTY, []);
    x := Exchange(PARTIES, t, "PASV\r\n", v.g, attempts, [Input(REPLY, room, [], v.g, attempts)], REPLY, 0, 227,
                  v, 0, attempts, w.clock);
    assert "" + "PASV\r\n" == "PASV\r\n";
    var r;
    text, r := PasvEndToEnd(x);
  }
}
