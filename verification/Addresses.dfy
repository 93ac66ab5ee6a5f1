/** Site addresses in text form: an optional family mark, a host with or without brackets, a port. */
module Addresses {
  import opened Text
  import opened Fields
  import opened PasvString

  const DEFAULT_PORT := 21

  datatype Address = Address(addrfam: AddressFamily, brackets: bool, host: string, port: nat)

  /** The port is an unsigned short. */
  predicate IsAddress(a: Address) { a.port < 0x1_0000 }

  // ---- printing ----

  function FamilyMark(addrfam: AddressFamily): string {
    match addrfam
    case IPV4 => "(4)"
    case IPV6 => "(6)"
    case _ => ""
  }

  function HostText(a: Address): string { if a.brackets then "[" + a.host + "]" else a.host }

  function PortText(a: Address): string { if a.port != DEFAULT_PORT then ":" + ToString(a.port) else "" }

  function Print(a: Address): string { FamilyMark(a.addrfam) + (HostText(a) + PortText(a)) }

  // ---- parsing ----

  predicate HasMark(s: string, mark: string)
    requires |mark| == 3
  {
    |s| > 3 && s[..3] == mark
  }

  /** The family the text is marked with, and the text behind the mark. */
  function Unmark(s: string): (AddressFamily, string) {
    if HasMark(s, "(4)") then (IPV4, s[3..])
    else if HasMark(s, "(6)") then (IPV6, s[3..])
    else (IPV4_IPV6, s)
  }

  predicate IsNumeric(c: char) { IsDigit(c) || c == '.' || c == ':' }

  /** The part of the text that decides whether it can be an IPv4 address: a leading 0x is passed over. */
  function Decisive(s: string): string {
    if |s| >= 2 && s[0] == '0' && s[1] == 'x' then s[2..] else s
  }

  predicate AllNumeric(s: string) { forall i :: 0 <= i < |s| ==> IsNumeric(s[i]) }

  /** The guess for a text without a mark: two colons make IPv6, digits and dots IPv4. */
  function GuessFamily(s: string): AddressFamily {
    if CountOf(s, ':') >= 2 then IPV6
    else if AllNumeric(Decisive(s)) then IPV4
    else IPV4_IPV6
  }

  function Family(s: string): (AddressFamily, string) {
    var (marked, rest) := Unmark(s);
    (if marked == IPV4_IPV6 then GuessFamily(rest) else marked, rest)
  }

  /** A text that starts with a bracket closed somewhere. */
  predicate Bracketed(s: string) { s != "" && s[0] == '[' && ']' in s }

  function PortValue(s: string, portpos: int): (r: nat)
    requires NPOS <= portpos < |s|
    ensures r < 0x1_0000
  {
    if portpos == NPOS then DEFAULT_PORT
    else match Stoi(s[portpos + 1..]) case Some(v) => v % 0x1_0000 case None => DEFAULT_PORT
  }

  /** Brackets, host and port of the text behind the mark. */
  function HostAndPort(addrfam: AddressFamily, s: string): (bool, string, nat) {
    if s != "" && s[0] == '[' && Find(s, ']', 0) != NPOS then
      var end := Find(s, ']', 0);
      var port := PortValue(s, Find(s, ':', end));
      (port != DEFAULT_PORT, s[1..end], port)
    else
      var portpos := if addrfam != IPV6 then Find(s, ':', 0) else NPOS;
      (false, if portpos == NPOS then s else s[..portpos], PortValue(s, portpos))
  }

  function AddressOf(s: string): Address {
    var (addrfam, rest) := Family(s);
    var (brackets, host, port) := HostAndPort(addrfam, rest);
    Address(addrfam, brackets, host, port)
  }

  method ParseAddress(text: string) returns (addr: Address)
    ensures addr == AddressOf(text)
  {
    var address := text;
    var addrfam := IPV4_IPV6;
    if |address| > 3 {
      var prefix := Substr(address, 0, 3);
      if prefix == "(4)" {
        addrfam := IPV4;
        address := address[3..];
      } else if prefix == "(6)" {
        addrfam := IPV6;
        address := address[3..];
      }
    }
    if addrfam == IPV4_IPV6 {
      addrfam := Guess(address);
    }
    var brackets, host, port := ParseBody(addrfam, address);
    addr := Address(addrfam, brackets, host, port);
  }

  /** The second half of the parser, behind the mark. */
  method ParseBody(addrfam: AddressFamily, address: string) returns (brackets: bool, host: string, port: nat)
    ensures (brackets, host, port) == HostAndPort(addrfam, address)
  {
    brackets, host, port := false, "", DEFAULT_PORT;
    var portpos := NPOS;
    if address != "" && address[0] == '[' {
      var bracketendpos := Find(address, ']', 0);
      if bracketendpos != NPOS {
        brackets := true;
        host := Substr(address, 1, bracketendpos - 1);
        portpos := Find(address, ':', bracketendpos);
      }
    }
    if !brackets {
      if addrfam != IPV6 {
        portpos := Find(address, ':', 0);
      }
      if portpos != NPOS {
        host := Substr(address, 0, portpos);
      } else {
        host := address;
      }
    }
    if portpos != NPOS {
      var number := Stoi(address[portpos + 1..]);
      if number.Some? {
        port := number.value % 0x1_0000;
      }
    }
    if port == DEFAULT_PORT {
      brackets := false;
    }
  }

  /** The scan that guesses the family. */
  method Guess(address: string) returns (addrfam: AddressFamily)
    ensures addrfam == GuessFamily(address)
  {
    var colons, canbeipv4 := 0, true;
    var i := 0;
    ghost var skipped := |address| - |Decisive(address)|;
    while i < |address|
      invariant 0 <= i <= |address| && (0 < i ==> skipped <= i)
      invariant colons == CountOf(address, ':') - CountOf(address[i..], ':')
      invariant canbeipv4 == (colons < 2 && forall k :: skipped <= k < i ==> IsNumeric(address[k]))
    {
      if i == 0 && address[i] == '0' && |address| >= 2 && address[i + 1] == 'x' {
        assert address[0..] == address && address[0..][1..] == address[1..] && address[1..][1..] == address[2..];
        i := i + 2;
        continue;
      }
      assert address[i..][1..] == address[i + 1..];
      if address[i] == ':' {
        colons := colons + 1;
        if colons >= 2 {
          canbeipv4 := false;
        }
      }
      if canbeipv4 && !(IsDigit(address[i]) || address[i] == '.' || address[i] == ':') {
        canbeipv4 := false;
      }
      i := i + 1;
    }
    assert AllNumeric(Decisive(address)) == forall k :: skipped <= k < |address| ==> IsNumeric(address[k]) by {
      assert forall k :: skipped <= k < |address| ==> address[k] == Decisive(address)[k - skipped];
      assert forall k :: 0 <= k < |Decisive(address)| ==> Decisive(address)[k] == address[k + skipped];
    }
    if colons >= 2 {
      addrfam := IPV6;
    } else if canbeipv4 {
      addrfam := IPV4;
    } else {
      addrfam := IPV4_IPV6;
    }
  }

  // ---- what comes back ----

  /** Host, brackets and port survive: a bracketed host is closed by its first bracket, only a port
      other than 21 keeps the brackets, and a bare host is not cut at a colon or mistaken for a
      bracketed one. */
  predicate BodyKept(a: Address) {
    if a.brackets then a.port != DEFAULT_PORT && ']' !in a.host
    else !Bracketed(a.host) && (a.addrfam != IPV6 ==> ':' !in a.host) && (a.addrfam == IPV6 ==> a.port == DEFAULT_PORT)
  }

  /** The family survives: a mark is only read when something follows it, and a text without a mark must
      neither look marked nor numeric nor like IPv6. */
  predicate FamilyKept(a: Address) {
    match a.addrfam
    case IPV4 => HostText(a) + PortText(a) != ""
    case IPV6 => HostText(a) + PortText(a) != ""
    case NONE => false
    case IPV4_IPV6 =>
      ':' !in a.host && (a.brackets || !AllNumeric(Decisive(a.host))) && !LooksMarked(a)
  }

  predicate LooksMarked(a: Address) {
    !a.brackets && |a.host| >= 3 && a.host[..3] in {"(4)", "(6)"} && (|a.host| > 3 || a.port != DEFAULT_PORT)
  }

  predicate WellFormed(a: Address) { BodyKept(a) && FamilyKept(a) }

  lemma PortTextPlain(a: Address)
    ensures a.port != DEFAULT_PORT ==> PortText(a) == [':'] + ToString(a.port) && AllDigits(ToString(a.port))
    ensures AllNumeric(PortText(a)) && ']' !in PortText(a) && '[' !in PortText(a)
  {
    ToStringIsPlain(a.port);
  }

  lemma PortRead(a: Address, s: string, p: int)
    requires IsAddress(a) && a.port != DEFAULT_PORT
    requires 0 <= p < |s| && s[p..] == PortText(a)
    ensures PortValue(s, p) == a.port
  {
    assert s[p + 1..] == s[p..][1..] == ToString(a.port);
    ReadBack(a.port, "");
    assert ToString(a.port) + "" == ToString(a.port);
  }

  /** The bracketed text, taken apart. */
  lemma BracketedText(a: Address, s: string)
    requires a.brackets && s == HostText(a) + PortText(a)
    ensures var close := |a.host| + 1;
      close < |s| && s[0] == '[' && s[close] == ']' && s[1..close] == a.host && s[close + 1..] == PortText(a)
  {
  }

  lemma ClosingBracket(a: Address, s: string)
    requires a.brackets && s == HostText(a) + PortText(a)
    ensures Find(s, ']', 0) == |a.host| + 1 <==> ']' !in a.host
    ensures 0 <= Find(s, ']', 0) <= |a.host| + 1
  {
    var close := |a.host| + 1;
    BracketedText(a, s);
    assert forall i :: 0 <= i < |a.host| ==> s[i + 1] == a.host[i];
    if ']' in a.host {
      var i :| 0 <= i < |a.host| && a.host[i] == ']';
      assert s[i + 1] == ']';
    } else {
      assert forall i :: 0 <= i < |a.host| ==> a.host[i] in a.host;
      FindIs(s, ']', 0, close);
    }
  }

  lemma BracketedPort(a: Address, s: string)
    requires IsAddress(a) && a.brackets && s == HostText(a) + PortText(a)
    ensures PortValue(s, Find(s, ':', |a.host| + 1)) == a.port
  {
    var close := |a.host| + 1;
    BracketedText(a, s);
    if a.port == DEFAULT_PORT {
      FindIs(s, ':', close, NPOS);
    } else {
      FindIs(s, ':', close, close + 1);
      PortRead(a, s, close + 1);
    }
  }

  /** The bracketed form: the first closing bracket must be the one that was printed. */
  lemma BracketedBody(a: Address)
    requires IsAddress(a) && a.brackets
    ensures HostAndPort(a.addrfam, HostText(a) + PortText(a)) == (a.brackets, a.host, a.port) <==> BodyKept(a)
  {
    hide Text.Find, PortText, HostText, PortValue;
    var s := HostText(a) + PortText(a);
    BracketedText(a, s);
    ClosingBracket(a, s);
    BracketedPort(a, s);
  }

  /** The bare form: nothing in the host may be taken for the port separator or for a bracket pair. */
  lemma BareBody(a: Address)
    requires IsAddress(a) && !a.brackets
    ensures HostAndPort(a.addrfam, a.host + PortText(a)) == (a.brackets, a.host, a.port) <==> BodyKept(a)
  {
    var s := a.host + PortText(a);
    PortTextPlain(a);
    assert forall i :: 0 <= i < |a.host| ==> s[i] == a.host[i];
    assert forall i :: |a.host| <= i < |s| ==> s[i] == PortText(a)[i - |a.host|] && s[i] in PortText(a);
    var end := Find(s, ']', 0);
    assert (s != "" && s[0] == '[' && end != NPOS) <==> Bracketed(a.host) by {
      if Bracketed(a.host) {
        var i :| 0 <= i < |a.host| && a.host[i] == ']';
        assert s[i] == ']' && s[0] == '[';
      }
    }
    if Bracketed(a.host) {
      assert |s[1..end]| < |a.host|;
    } else if a.addrfam == IPV6 {
      assert a.port == DEFAULT_PORT ==> s == a.host;
    } else {
      BareSeparator(a, s);
    }
  }

  lemma BareSeparator(a: Address, s: string)
    requires IsAddress(a) && !a.brackets && s == a.host + PortText(a)
    ensures var p := Find(s, ':', 0);
      ((if p == NPOS then s else s[..p]) == a.host && PortValue(s, p) == a.port) <==> ':' !in a.host
  {
    PortTextPlain(a);
    assert forall i :: 0 <= i < |a.host| ==> s[i] == a.host[i];
    if ':' in a.host {
      var i :| 0 <= i < |a.host| && a.host[i] == ':';
      assert s[i] == ':';
      assert Find(s, ':', 0) != NPOS && Find(s, ':', 0) <= i;
    } else {
      assert forall i :: 0 <= i < |a.host| ==> a.host[i] in a.host;
      if a.port == DEFAULT_PORT {
        assert s == a.host;
        FindIs(s, ':', 0, NPOS);
      } else {
        FindIs(s, ':', 0, |a.host|);
        assert s[|a.host|..] == PortText(a) && s[..|a.host|] == a.host;
        PortRead(a, s, |a.host|);
      }
    }
  }

  /** When the family comes back, so does the text behind the mark. */
  lemma MarkedFamily(a: Address)
    requires a.addrfam == IPV4 || a.addrfam == IPV6
    ensures var t := HostText(a) + PortText(a);
      (t != "" ==> Family(Print(a)) == (a.addrfam, t)) && (t == "" ==> Family(Print(a)).0 == IPV4_IPV6)
  {
    var t, s := HostText(a) + PortText(a), Print(a);
    assert s[..3] == FamilyMark(a.addrfam) && s[3..] == t;
    if t == "" {
      assert s == FamilyMark(a.addrfam);
      assert !IsNumeric(s[0]) && Decisive(s) == s;
      NoColons(s);
      assert s[0] == '(' && s[1] in {'4', '6'} && s[2] == ')' && |s| == 3;
      assert ':' !in s;
    }
  }

  lemma {:induction false} ColonsAdd(s: string, t: string)
    ensures CountOf(s + t, ':') == CountOf(s, ':') + CountOf(t, ':')
  {
    if s == "" {
      assert s + t == t;
    } else {
      assert (s + t)[1..] == s[1..] + t;
      ColonsAdd(s[1..], t);
    }
  }

  lemma {:induction false} NoColons(s: string)
    ensures CountOf(s, ':') == 0 <==> ':' !in s
  {
    if s != "" {
      assert s == [s[0]] + s[1..];
      NoColons(s[1..]);
    }
  }

  lemma PortColons(a: Address)
    ensures CountOf(PortText(a), ':') == if a.port == DEFAULT_PORT then 0 else 1
  {
    if a.port != DEFAULT_PORT {
      PortTextPlain(a);
      NoColons(ToString(a.port));
      assert PortText(a)[1..] == ToString(a.port);
    }
  }

  /** Without a mark, and with host and port intact, the guess fails to settle on a family exactly when
      FamilyKept says so. */
  lemma UnmarkedFamily(a: Address)
    requires a.addrfam == IPV4_IPV6 && BodyKept(a)
    ensures Family(Print(a)).0 == IPV4_IPV6 <==> FamilyKept(a)
  {
    var t := HostText(a) + PortText(a);
    assert Print(a) == t;
    PortTextPlain(a);
    NoColons(a.host);
    PortColons(a);
    ColonsAdd(HostText(a), PortText(a));
    if a.brackets {
      assert t[0] == '[' && Decisive(t) == t && !IsNumeric(t[0]);
      ColonsAdd("[" + a.host, "]");
      ColonsAdd("[", a.host);
      assert "]"[1..] == "" && "["[1..] == "";
      assert HostText(a) == "[" + a.host + "]";
      if HasMark(t, "(4)") || HasMark(t, "(6)") {
        assert t[..3][0] == '[';
      }
    } else {
      MarkOfBare(a, t);
      NumericOfBare(a, t);
    }
  }

  lemma MarkOfBare(a: Address, t: string)
    requires !a.brackets && ':' !in a.host && t == a.host + PortText(a)
    ensures (HasMark(t, "(4)") || HasMark(t, "(6)")) <==> LooksMarked(a)
  {
    if |a.host| >= 3 {
      assert t[..3] == a.host[..3];
    } else if |t| > 3 {
      assert t[..3][|a.host|] == ':';
      assert "(4)"[0] != ':' && "(4)"[1] != ':' && "(4)"[2] != ':';
      assert "(6)"[0] != ':' && "(6)"[1] != ':' && "(6)"[2] != ':';
    }
  }

  lemma NumericOfBare(a: Address, t: string)
    requires !a.brackets && ':' !in a.host && t == a.host + PortText(a)
    ensures AllNumeric(Decisive(t)) <==> AllNumeric(Decisive(a.host))
  {
    PortTextPlain(a);
    assert Decisive(t) == Decisive(a.host) + PortText(a) by {
      if |a.host| >= 2 {
        assert t[0] == a.host[0] && t[1] == a.host[1] && t[2..] == a.host[2..] + PortText(a);
      } else if |t| >= 2 {
        assert PortText(a)[0] == ':' && AllNumeric(PortText(a));
        assert t[1] == PortText(a)[1 - |a.host|];
      }
    }
    var d := Decisive(a.host);
    assert forall i :: 0 <= i < |d| ==> (d + PortText(a))[i] == d[i];
    assert forall i :: |d| <= i < |d + PortText(a)| ==> (d + PortText(a))[i] == PortText(a)[i - |d|];
  }

  /** A printed address is parsed into what its family and its body give. */
  lemma ParsedParts(a: Address, t: string)
    requires Family(Print(a)).1 == t
    ensures AddressOf(Print(a)) == a <==>
      Family(Print(a)).0 == a.addrfam && HostAndPort(Family(Print(a)).0, t) == (a.brackets, a.host, a.port)
  {
  }

  /** A text without a mark is its own body. */
  lemma UnmarkedBody(a: Address)
    requires a.addrfam == IPV4_IPV6 || a.addrfam == NONE
    ensures Print(a) == HostText(a) + PortText(a) && Family(Print(a)).0 != NONE
    ensures Family(Print(a)).0 == IPV4_IPV6 ==> Family(Print(a)).1 == Print(a)
  {
    assert "" + (HostText(a) + PortText(a)) == HostText(a) + PortText(a);
  }

  lemma Body(a: Address)
    requires IsAddress(a)
    ensures HostAndPort(a.addrfam, HostText(a) + PortText(a)) == (a.brackets, a.host, a.port) <==> BodyKept(a)
  {
    if a.brackets {
      BracketedBody(a);
    } else {
      BareBody(a);
    }
  }

  /** Parsing a printed address gives it back exactly when it is well-formed. */
  lemma AddressRoundTrip(a: Address)
    requires IsAddress(a)
    ensures AddressOf(Print(a)) == a <==> WellFormed(a)
  {
    hide HostAndPort, BodyKept, Family, Print, AddressOf, PortText, HostText;
    Body(a);
    ParsedParts(a, Family(Print(a)).1);
    if a.addrfam == IPV4 || a.addrfam == IPV6 {
      MarkedFamily(a);
    } else {
      UnmarkedBody(a);
      if a.addrfam == IPV4_IPV6 && BodyKept(a) {
        UnmarkedFamily(a);
      }
    }
  }

  // ---- some addresses ----

  lemma OneColon(host: string, port: string)
    requires ':' !in host && ':' !in port
    ensures CountOf(host + (":" + port), ':') == 1 && CountOf(host, ':') == 0
  {
    ColonsAdd(host, ":" + port);
    NoColons(host);
    NoColons(port);
    assert (":" + port)[1..] == port;
  }

  lemma HostWithPort()
    ensures AddressOf("1.2:990") == Address(IPV4, false, "1.2", 990)
  {
    hide CountOf, Stoi, Text.Find;
    var s := "1.2:990";
    OneColon("1.2", "990");
    assert s == "1.2" + (":" + "990") && s[0] == '1' && s[1] == '.';
    assert Unmark(s) == (IPV4_IPV6, s) && Decisive(s) == s && AllNumeric(s);
    FindIs(s, ':', 0, 3);
    assert s[..3] == "1.2" && s[4..] == "990";
    ThreeDigits(9, 9, 0);
    assert [DigitChar(9), DigitChar(9), DigitChar(0)] == "990";
  }

  lemma ThreeDigits(a: nat, b: nat, c: nat)
    requires 0 < a < 10 && b < 10 && c < 10
    ensures Stoi([DigitChar(a), DigitChar(b), DigitChar(c)]) == Some(100 * a + 10 * b + c)
  {
    var n := 100 * a + 10 * b + c;
    assert NatToString(10 * a + b) == [DigitChar(a)] + [DigitChar(b)];
    assert NatToString(n) == NatToString(10 * a + b) + [DigitChar(c)];
    ReadBack(n, "");
    assert ToString(n) + "" == [DigitChar(a), DigitChar(b), DigitChar(c)];
  }

  lemma NameAlone()
    ensures AddressOf("ftp") == Address(IPV4_IPV6, false, "ftp", 21)
  {
    hide CountOf, Stoi, Text.Find;
    OneColon("ftp", "");
    assert !IsNumeric("ftp"[0]);
    FindIs("ftp", ':', 0, NPOS);
  }

  lemma MarkedAndBracketed()
    ensures AddressOf("(6)[::1]:990") == Address(IPV6, true, "::1", 990)
  {
    var s := "(6)[::1]:990";
    assert s[..3] == "(6)" && s[3..] == "[::1]:990";
    var t := "[::1]:990";
    FindIs(t, ']', 0, 4);
    FindIs(t, ':', 4, 5);
    assert t[1..4] == "::1" && t[6..] == "990";
    ThreeDigits(9, 9, 0);
  }

  lemma TwoColons()
    ensures AddressOf("::1") == Address(IPV6, false, "::1", 21)
  {
    var s := "::1";
    assert s[1..] == ":1" && s[1..][1..] == "1";
    NoColons("1");
  }

  /** A port that cannot be read counts as 21. */
  lemma UnreadablePort()
    ensures AddressOf("ftp:x") == Address(IPV4_IPV6, false, "ftp", 21)
  {
    hide CountOf, Text.Find;
    var s := "ftp:x";
    OneColon("ftp", "x");
    assert s == "ftp" + (":" + "x") && !IsNumeric(s[0]);
    FindIs(s, ':', 0, 3);
    assert s[..3] == "ftp" && s[4..] == "x";
  }

  /** A leading 0x is passed over when the family is guessed. */
  lemma HexadecimalGuess()
    ensures GuessFamily("0x1") == IPV4 && GuessFamily("x1") == IPV4_IPV6
  {
    hide CountOf;
    OneColon("0x1", "");
    OneColon("x1", "");
    assert "0x1"[2..] == "1" && !IsNumeric("x1"[0]);
  }
}
