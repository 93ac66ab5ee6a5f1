/** End to end: what the client reads from a rewritten reply is an address of ours and a port we really hold. */
module Rewriting {
  import opened Text
  import opened Fields
  import opened PasvString
  import opened BncSessionClient
  import opened B = Bounce
  import opened BounceRuns
  import G = BounceGuarantees
  import P = ResponseParser

  // ---- rewriting between the parentheses ----

  predicate NoParentheses(s: string) { '(' !in s && ')' !in s }

  /** A reply with a closing parenthesis behind the opening one, if there is an opening one. */
  predicate Enclosed(response: string) { Start(response) <= End(response) }

  lemma StartKept(response: string, text: string)
    requires Enclosed(response) && NoParentheses(text)
    ensures Start(response[..Start(response)] + text + response[End(response)..]) == Start(response)
  {
    var start, end := Start(response), End(response);
    var nr := response[..start] + text + response[end..];
    if start == 0 {
      assert Absent(response, '(', 0, |response|);
      forall i | 0 <= i < |nr| ensures nr[i] != '(' {
        assert i >= |text| ==> nr[i] == response[end + (i - |text|)];
        assert i < |text| ==> nr[i] in text;
      }
      FindIs(nr, '(', 0, NPOS);
    } else {
      assert nr[start - 1] == response[start - 1];
      assert Absent(nr, '(', 0, start - 1) by {
        assert forall i :: 0 <= i < start - 1 ==> nr[i] == response[i];
      }
      FindIs(nr, '(', 0, start - 1);
    }
  }

  lemma EndMoved(response: string, text: string)
    requires Enclosed(response) && NoParentheses(text)
    ensures End(response[..Start(response)] + text + response[End(response)..]) == Start(response) + |text|
  {
    var start, end := Start(response), End(response);
    var nr := response[..start] + text + response[end..];
    forall i | 0 <= i < start + |text| ensures nr[i] != ')' {
      assert i < start ==> nr[i] == response[i];
      assert i >= start ==> nr[i] in text;
    }
    assert nr[start + |text|] == response[end];
    FindIs(nr, ')', 0, start + |text|);
  }

  /** Rewriting in place changes what is between the parentheses and nothing else. */
  lemma OnlyInside(response: string, text: string)
    requires Enclosed(response) && NoParentheses(text)
    ensures InPlace(response, text).Some?
    ensures var nr := InPlace(response, text).value;
      && Inside(nr) == text && Start(nr) == Start(response)
      && nr[..Start(nr)] == response[..Start(response)]
      && 0 <= End(nr) <= |nr| && nr[End(nr)..] == response[End(response)..]
  {
    hide Text.Find;
    StartKept(response, text);
    EndMoved(response, text);
    var start, end := Start(response), End(response);
    var nr := response[..start] + text + response[end..];
    assert nr[start..start + |text|] == text;
    assert nr[start + |text|..] == response[end..];
    assert nr[..start] == response[..start];
  }

  // ---- replies that make the rewriting throw ----

  /** std::stoi finds no number, or one that is no int, in a field that must hold one. */
  predicate PasvThrows(pasv: string) {
    var f := Split(pasv, ',');
    |f| >= 6 && (Stoi(f[4]).None? || Stoi(f[5]).None?)
  }

  predicate EpsvThrows(epsv: string) {
    var f := Split(epsv, '|');
    |f| >= 5 && Stol(f[3]).None?
  }

  lemma AnnouncedThrows(a: Parties, catch: ResponseCatch, origin: OriginCatch, code: int, response: string)
    ensures Announced(a, catch, origin, code, response).Threw? <==>
      (catch == CatchPasv && code == 227 && PasvThrows(PasvText(a, response)))
      || (catch == CatchEpsv && code == 229 && EpsvThrows(Inside(response)))
  {
    hide FromExtendedPASVString;
    ExtendedByFields(Inside(response));
  }

  /** A reply makes an exception go through exactly when one of the fields that must hold a number holds none, or
      when there is no closing parenthesis to rewrite in front of, once a port has been taken, unless the whole line
      is replaced. */
  lemma ThrownExactly(a: Parties, catch: ResponseCatch, origin: OriginCatch, code: int, response: string,
                      attempts: nat -> Attempt, g: Shared, pool: seq<Session>)
    requires g.ports.Valid()
    ensures Answer(a, catch, origin, code, response, attempts, g, pool).0.out.Thrown? <==>
      (catch == CatchPasv && code == 227 && PasvThrows(PasvText(a, response)))
      || (catch == CatchEpsv && code == 229 && EpsvThrows(Inside(response)))
      || (Announced(a, catch, origin, code, response).Parsed? && PoolActivate(g, pool, attempts).0 != -1
          && !(catch == CatchEpsv && origin == OriginPasv) && End(response) == NPOS)
  {
    AnnouncedThrows(a, catch, origin, code, response);
    hide PasvThrows, EpsvThrows, PoolActivate, FromExtendedPASVString, EncodePasv, ToExtendedPASVString, PasvText;
  }

  const OPENING_WORDS := "227 Entering Passive Mode 10"
  const WITHOUT_PARENTHESES := "227 Entering Passive Mode 10,0,0,1,4,1\r\n"

  lemma OneNumber(d: nat, rest: string)
    requires d < 10 && (rest == "" || !IsDigit(rest[0]))
    ensures Stoi([DigitChar(d)] + rest) == Some(d as int)
  {
    ReadBack(d, rest);
    assert ToString(d) == [DigitChar(d)];
  }

  lemma NextPart(x: string, y: string)
    requires ',' !in x
    ensures Split(x + "," + y, ',') == [x] + Split(y, ',')
  {
    OneField(x, ',');
    SplitAtSeparator(x, ',', y);
  }

  lemma ItsFields()
    ensures Split(WITHOUT_PARENTHESES, ',') == [OPENING_WORDS, "0", "0", "1", "4", "1\r\n"]
  {
    hide Split;
    var four := "4" + "," + "1\r\n";
    var one := "1" + "," + four;
    var zero := "0" + "," + one;
    OneField("1\r\n", ',');
    NextPart("4", "1\r\n");
    NextPart("1", four);
    NextPart("0", one);
    NextPart("0", zero);
    NextPart(OPENING_WORDS, "0" + "," + zero);
    assert WITHOUT_PARENTHESES == OPENING_WORDS + "," + ("0" + "," + zero);
  }

  lemma ItsText(a: Parties)
    ensures PasvText(a, WITHOUT_PARENTHESES) == WITHOUT_PARENTHESES && End(WITHOUT_PARENTHESES) == NPOS
  {
    hide Split, CountOf;
    var s := WITHOUT_PARENTHESES;
    FindIs(s, '(', 0, NPOS);
    FindIs(s, ')', 0, NPOS);
    assert Inside(s) == s[0..] == s;
    ItsFields();
    SplitCount(s, ',');
  }

  lemma ItsReading(a: Parties, origin: OriginCatch)
    ensures Announced(a, CatchPasv, origin, 227, WITHOUT_PARENTHESES)
         == Parsed(Request(IPV4, IPV4, OPENING_WORDS + ".0.0.1", 1025))
  {
    hide Split, PasvText, Stoi;
    ItsText(a);
    ItsFields();
    OneNumber(4, "");
    OneNumber(1, "\r\n");
    assert [DigitChar(4)] + "" == "4" && [DigitChar(1)] + "\r\n" == "1\r\n";
    assert Dotted(OPENING_WORDS, "0", "0", "1") == OPENING_WORDS + ".0.0.1";
  }

  /** There is such a reply: sections 4.1.2 and 4.2 of RFC 959 do not ask for the parentheses. The recogniser takes
      it for a reply, the sessions listen on a port for it, and then the exception goes through. */
  lemma ThrowsWithoutEnd(a: Parties, t: Talk, room: string, attempts: nat -> Attempt, g: Shared)
    requires t.catch == CatchPasv && t.response.data == "" && !t.response.complete && g.ports.Valid()
    requires PoolActivate(g, t.pool, attempts).0 != -1
    ensures var (e, u, h) := FromSite(a, t, WITHOUT_PARENTHESES, room, attempts, g);
      var (port, k, sessions) := PoolActivate(g, t.pool, attempts);
      e.out == Thrown && h == k && u.pool == sessions && u.catch == CatchPasv
  {
    hide PoolActivate, Announced, P.Step, P.CodeAt, EncodePasv, Start, End;
    ItsReading(a, t.origin);
    ItsText(a);
    ItIsAReply(t.response, room);
  }

  lemma ItIsAReply(s: P.State, room: string)
    requires s.data == "" && !s.complete
    ensures P.Step(s, WITHOUT_PARENTHESES, room) == (P.State(WITHOUT_PARENTHESES, 227, true), true)
  {
    var msg := WITHOUT_PARENTHESES;
    assert P.CodeLine(msg, 0) && P.CodeAt(msg, 0) == 227;
    assert P.ReplyEnding(msg, 0);
    assert "" + msg == msg;
    P.Completed(s, msg, room, msg, 0);
  }

  // ---- what the client reads ----

  lemma EncodedPlain(addr: string, port: int)
    requires NoParentheses(addr)
    ensures NoParentheses(EncodePasv(addr, port))
  {
    ToStringIsPlain(High(port));
    ToStringIsPlain(Low(port));
    var x := Replace(addr, '.', ',');
    assert forall i :: 0 <= i < |x| ==> x[i] == ',' || x[i] in addr;
  }

  lemma ExtendedPlain(addrfam: AddressFamily, addr: string, port: int)
    requires NoParentheses(addr)
    ensures NoParentheses(ToExtendedPASVString(addrfam, addr, port))
  {
    ToStringIsPlain(port);
  }

  /** A PASV reply, rewritten, reads as our address and the port, and as nothing else, exactly when our address is
      a dotted quad. */
  lemma PasvRewritten(a: Parties, origin: OriginCatch, response: string, r: Request, port: int)
    requires Enclosed(response) && NoParentheses(a.ifaddr4) && port != -1 && IsPort(port)
    ensures var nr := Announcement(a, CatchPasv, origin, response, r, port);
      && nr.Some? && Start(nr.value) == Start(response) && nr.value[..Start(nr.value)] == response[..Start(response)]
      && 0 <= End(nr.value) <= |nr.value| && nr.value[End(nr.value)..] == response[End(response)..]
      && (DecodePasv(Inside(nr.value)) == Parsed(Endpoint(a.ifaddr4, port)) <==>
            ',' !in a.ifaddr4 && CountOf(a.ifaddr4, '.') == 3)
  {
    hide DecodePasv, EncodePasv, Inside, InPlace;
    EncodedPlain(a.ifaddr4, port);
    OnlyInside(response, EncodePasv(a.ifaddr4, port));
    PasvRoundTrip(a.ifaddr4, port);
  }

  lemma FamilyRead(epsv: string)
    ensures FromExtendedPASVString(epsv).Parsed? ==> FromExtendedPASVString(epsv).value.addrfam != IPV4_IPV6
  {
  }

  /** An EPSV reply, rewritten in place, reads as the port, with the interface's family and address when the site
      gave an address. */
  lemma EpsvRewritten(a: Parties, origin: OriginCatch, response: string, port: int)
    requires Enclosed(response) && port != -1 && IsPort(port) && origin != OriginPasv
    requires Announced(a, CatchEpsv, origin, 229, response).Parsed?
    requires NoParentheses(a.ifaddr4) && NoParentheses(a.ifaddr6) && '|' !in a.ifaddr4 && '|' !in a.ifaddr6
    ensures var e, r := FromExtendedPASVString(Inside(response)), Announced(a, CatchEpsv, origin, 229, response).value;
      var nr := Announcement(a, CatchEpsv, origin, response, r, port);
      && e.Parsed? && nr.Some? && Start(nr.value) == Start(response)
      && nr.value[..Start(nr.value)] == response[..Start(response)]
      && 0 <= End(nr.value) <= |nr.value| && nr.value[End(nr.value)..] == response[End(response)..]
      && FromExtendedPASVString(Inside(nr.value)) == Parsed(
           if e.value.addr == "" then ExtendedEndpoint(NONE, "", port)
           else ExtendedEndpoint(r.pasvaddrfam, if r.pasvaddrfam == IPV4 then a.ifaddr4 else a.ifaddr6, port))
  {
    hide FromExtendedPASVString, ToExtendedPASVString, Inside, InPlace;
    var r := Announced(a, CatchEpsv, origin, 229, response).value;
    var ifaddr := Interface(a, r.pasvaddrfam);
    ExtendedPlain(NONE, "", port);
    ExtendedPlain(r.pasvaddrfam, ifaddr, port);
    OnlyInside(response, ToExtendedPASVString(NONE, "", port));
    OnlyInside(response, ToExtendedPASVString(r.pasvaddrfam, ifaddr, port));
    ExtendedRoundTrip(NONE, "", port);
    ExtendedRoundTrip(r.pasvaddrfam, ifaddr, port);
    FamilyRead(Inside(response));
  }

  // ---- PASV to an IPv6 site ----

  const OPENING := "227 Entering Passive Mode ("

  /** The 227 line made up for such a client. */
  lemma MadeUpReply(text: string)
    requires NoParentheses(text)
    ensures var nr := OPENING + text + ")\r\n"; nr[..4] == "227 " && Enclosed(nr) && Inside(nr) == text
  {
    var nr := OPENING + text + ")\r\n";
    var k := |OPENING| - 1;
    assert nr[..|OPENING|] == OPENING;
    assert forall i :: 0 <= i < |OPENING| ==> nr[i] == OPENING[i];
    FindIs(nr, '(', 0, k);
    forall i | 0 <= i < |OPENING| + |text| ensures nr[i] != ')' {
      assert i >= |OPENING| ==> nr[i] in text;
    }
    assert nr[|OPENING| + |text|] == ')';
    FindIs(nr, ')', 0, |OPENING| + |text|);
    assert nr[|OPENING|..|OPENING| + |text|] == text;
  }

  /** PASV and CPSV towards an IPv6 site go out as EPSV 2; whatever address and port the site's 229 gives, the client
      gets a 227 that reads as our IPv4 address and the port, and the session listens on IPv4. */
  lemma PasvOverIpv6(a: Parties, tls: TLSState, command: string, line: string, response: string, port: int)
    requires a.siteaddrfam == IPV6 && (command == "PASV" || command == "CPSV")
    requires FromExtendedPASVString(Inside(response)).Parsed?
    requires NoParentheses(a.ifaddr4) && ',' !in a.ifaddr4 && CountOf(a.ifaddr4, '.') == 3 && port != -1 && IsPort(port)
    ensures var q := CommandPlan(a, Plan(CatchNone, OriginNone, tls, ""), command, Split(command, ' '));
      && Line(q, line) == "EPSV 2\r\n" && q.catch == CatchEpsv && q.origin == OriginPasv
      && var r := Announced(a, q.catch, q.origin, 229, response);
        && r.Parsed? && r.value.pasvaddrfam == IPV4
        && var nr := Announcement(a, q.catch, q.origin, response, r.value, port);
          nr.Some? && |nr.value| >= 4 && nr.value[..4] == "227 " &&
          DecodePasv(Inside(nr.value)) == Parsed(Endpoint(a.ifaddr4, port))
  {
    hide FromExtendedPASVString, DecodePasv, EncodePasv, Inside, Split;
    EncodedPlain(a.ifaddr4, port);
    MadeUpReply(EncodePasv(a.ifaddr4, port));
    PasvRoundTrip(a.ifaddr4, port);
    assert "EPSV 2" + "\r\n" == "EPSV 2\r\n";
  }

  // ---- EPSV ----

  /** The first word is how the command starts. */
  lemma FirstWord(command: string)
    ensures Split(command, ' ')[0] <= command
  {
    FindFirstField(command, ' ');
  }

  /** The family a client asks for: IPv6 with EPSV 2, and IPv4 with any other EPSV. */
  function AskedFamily(command: string): AddressFamily { if command == "EPSV 2" then IPV6 else IPV4 }

  /** EPSV goes to the site for the site's own family, and the session dials what the reply says, or the site itself
      when it says nothing. It listens on the family the client asked for exactly when the reply leaves the address
      out, or the command had to be changed, or the address is of that family. */
  lemma EpsvAcrossFamilies(a: Parties, tls: TLSState, command: string, line: string, response: string)
    requires Split(command, ' ')[0] == "EPSV" && (a.siteaddrfam == IPV4 || a.siteaddrfam == IPV6)
    requires FromExtendedPASVString(Inside(response)).Parsed?
    ensures var q := CommandPlan(a, Plan(CatchNone, OriginNone, tls, ""), command, Split(command, ' '));
      var e, r := FromExtendedPASVString(Inside(response)).value, Announced(a, q.catch, q.origin, 229, response);
      && q.catch == CatchEpsv && r.Parsed? && r.value.port == e.port
      && r.value.portaddrfam == (if e.addr == "" then a.siteaddrfam else e.addrfam)
      && r.value.host == (if e.addr == "" then a.sitehost else e.addr)
      && (r.value.pasvaddrfam == AskedFamily(command) <==>
            e.addr == "" || AskedFamily(command) != a.siteaddrfam || e.addrfam == AskedFamily(command))
      && Line(q, line) == (if AskedFamily(command) == a.siteaddrfam then line
                           else if a.siteaddrfam == IPV6 then "EPSV 2\r\n"
                           else "EPSV 1\r\n")
  {
    hide FromExtendedPASVString, Inside, Split;
    FirstWord(command);
    assert command[0] == 'E';
    assert "EPSV 2" + "\r\n" == "EPSV 2\r\n" && "EPSV 1" + "\r\n" == "EPSV 1\r\n";
  }

  // ---- PORT and EPRT ----

  /** What the site reads from a rewritten PORT or EPRT command: our address towards the site, and the port. A PORT
      to an IPv6 site becomes an EPRT, whose 200 the client sees as that of its PORT. */
  lemma CommandRewritten(a: Parties, p: Plan, words: seq<string>, port: int)
    requires words != [] && (words[0] == "PORT" || words[0] == "EPRT") && port != -1 && IsPort(port)
    requires a.siteaddrfam != IPV4_IPV6 && '|' !in a.siteifaddr
    requires a.siteaddrfam == IPV4 ==> ',' !in a.siteifaddr && CountOf(a.siteifaddr, '.') == 3
    ensures var q := AskedInstead(a, p, words, port);
      && |q.instead| > 5
      && (words[0] == "PORT" && a.siteaddrfam == IPV4 ==>
        q.instead[..5] == "PORT " && DecodePasv(q.instead[5..]) == Parsed(Endpoint(a.siteifaddr, port)))
      && (words[0] == "PORT" && a.siteaddrfam != IPV4 ==>
        q.instead[..5] == "EPRT " &&
        FromExtendedPASVString(q.instead[5..]) == Parsed(ExtendedEndpoint(IPV6, a.siteifaddr, port))
        && forall response :: Plain(q.catch, q.origin, response) == "200 PORT command successful.\r\n")
      && (words[0] == "EPRT" ==>
        q.instead[..5] == "EPRT " &&
        FromExtendedPASVString(q.instead[5..]) == Parsed(ExtendedEndpoint(a.siteaddrfam, a.siteifaddr, port)))
  {
    hide DecodePasv, EncodePasv, FromExtendedPASVString;
    var q := AskedInstead(a, p, words, port);
    var x := EncodePasv(a.siteifaddr, port);
    var y := ToExtendedPASVString(if words[0] == "PORT" then IPV6 else a.siteaddrfam, a.siteifaddr, port);
    PasvRoundTrip(a.siteifaddr, port);
    ExtendedRoundTrip(if words[0] == "PORT" then IPV6 else a.siteaddrfam, a.siteifaddr, port);
    Encoded(a.siteifaddr, port);
    assert ("PORT" + " " + x)[5..] == x && ("PORT" + " " + x)[..5] == "PORT ";
    assert ("EPRT" + " " + y)[5..] == y && ("EPRT" + " " + y)[..5] == "EPRT ";
    assert ("EPRT " + y)[5..] == y && ("EPRT " + y)[..5] == "EPRT ";
  }

  lemma Encoded(addr: string, port: int)
    ensures EncodePasv(addr, port) != ""
  {
  }

  // ---- the port is held ----

  /** The port an activation returns is the listen port of a session of that pool now awaiting its connection, and
      of no other session anywhere. */
  lemma ReturnedPortHeld(w: World, i: nat, attempts: nat -> Attempt, until: nat)
    requires Inv(w) && Enabled(w, Activated(i, attempts, until)) && G.Returned(w, i, attempts) != -1
    ensures var v, port := Step(w, Activated(i, attempts, until)), G.Returned(w, i, attempts);
      && (exists j: nat :: G.Awaiting(v, i, j, port))
      && (forall k: nat, l: nat :: G.Awaiting(v, k, l, port) ==> k == i)
      && v.g.ports.Out(port)
  {
    hide PoolActivate, BoundFrom;
    var v, port := Step(w, Activated(i, attempts, until)), G.Returned(w, i, attempts);
    PoolActivates(w.g, w.pools[i].sessions, attempts, w.reported, w.clock, until);
    StepKeeps(w, Activated(i, attempts, until));
    var slots := Slots(v);
    assert slots[i].On? && slots[i].port == port;
    G.SlotIsAwaiting(v, i);
    forall k: nat, l: nat | G.Awaiting(v, k, l, port) ensures k == i {
      G.SlotIsAwaiting(v, k);
      assert slots[k].On? && slots[k].port == port;
    }
  }
}
