/** The PASV and EPSV address strings of FTP: section 4.1.2 of RFC 959 and sections 2 and 3 of RFC 2428. */
module PasvString {
  import opened Text
  import opened Fields

  datatype AddressFamily = NONE | IPV4 | IPV6 | IPV4_IPV6

  /** What a parser does: it returns true with its results, returns false, or lets an exception of
      std::stoi or std::stol through. */
  datatype Parse<+T> = Parsed(value: T) | Malformed | Threw

  datatype Endpoint = Endpoint(addr: string, port: int)
  datatype ExtendedEndpoint = ExtendedEndpoint(addrfam: AddressFamily, addr: string, port: int)

  predicate IsPort(port: int) { INT_MIN <= port <= INT_MAX }

  /** C division and remainder by 256, which round toward zero. */
  function High(port: int): int { if port >= 0 then port / 256 else -(-port / 256) }

  function Low(port: int): int { if port >= 0 then port % 256 else -(-port % 256) }

  // ---- PASV ----

  function Dotted(a: string, b: string, c: string, d: string): string {
    a + "." + b + "." + c + "." + d
  }

  /** The reading of a PASV string field by field: h1,h2,h3,h4,p1,p2 and whatever follows. */
  function DecodePasv(pasv: string): Parse<Endpoint> {
    var f := Split(pasv, ',');
    if |f| < 6 then Malformed
    else
      var major, minor := Stoi(f[4]), Stoi(f[5]);
      if major.None? || minor.None? then Threw
      else Parsed(Endpoint(Dotted(f[0], f[1], f[2], f[3]), ToInt32(major.value * 256 + minor.value)))
  }

  function EncodePasv(addr: string, port: int): string {
    Replace(addr, '.', ',') + "," + ToString(High(port)) + "," + ToString(Low(port))
  }

  /** Editing the first three commas in place rejoins the first four fields with dots. */
  lemma DotsReplaced(s: string, a: int, b: int, c: int, d: int, f: seq<string>)
    requires 0 <= a < b < c < d < |s| && |f| >= 4
    requires f[0] == s[0..a] && f[1] == s[a + 1..b] && f[2] == s[b + 1..c] && f[3] == s[c + 1..d]
    ensures Substr(s[a := '.'][b := '.'][c := '.'], 0, d) == Dotted(f[0], f[1], f[2], f[3])
  {
    assert Substr(s[a := '.'][b := '.'][c := '.'], 0, d) == Dotted(s[0..a], s[a + 1..b], s[b + 1..c], s[c + 1..d]);
  }

  method FromPASVString(pasv: string) returns (r: Parse<Endpoint>)
    ensures r == DecodePasv(pasv)
  {
    var sep1 := Find(pasv, ',', 0);
    NextStart(pasv, ',', 0, 0);
    if sep1 == NPOS { return Malformed; }
    var sep2 := Find(pasv, ',', sep1 + 1);
    NextStart(pasv, ',', 1, sep1 + 1);
    if sep2 == NPOS { return Malformed; }
    var sep3 := Find(pasv, ',', sep2 + 1);
    NextStart(pasv, ',', 2, sep2 + 1);
    if sep3 == NPOS { return Malformed; }
    var sep4 := Find(pasv, ',', sep3 + 1);
    NextStart(pasv, ',', 3, sep3 + 1);
    if sep4 == NPOS { return Malformed; }
    var sep5 := Find(pasv, ',', sep4 + 1);
    NextStart(pasv, ',', 4, sep4 + 1);
    if sep5 == NPOS { return Malformed; }
    r := ReadFields(pasv, sep1, sep2, sep3, sep4, sep5);
  }

  /** The second half of the parser, once the five separators are known. */
  method ReadFields(pasv: string, sep1: int, sep2: int, sep3: int, sep4: int, sep5: int)
    returns (r: Parse<Endpoint>)
    requires 0 <= sep1 < sep2 < sep3 < sep4 < sep5 < |pasv|
    requires StartsAt(pasv, ',', 1, sep1 + 1) && StartsAt(pasv, ',', 2, sep2 + 1) && StartsAt(pasv, ',', 3, sep3 + 1)
    requires StartsAt(pasv, ',', 4, sep4 + 1) && StartsAt(pasv, ',', 5, sep5 + 1)
    requires sep1 == Find(pasv, ',', 0) && sep2 == Find(pasv, ',', sep1 + 1) && sep3 == Find(pasv, ',', sep2 + 1)
    requires sep4 == Find(pasv, ',', sep3 + 1) && sep5 == Find(pasv, ',', sep4 + 1)
    ensures r == DecodePasv(pasv)
  {
    var addr := pasv;
    addr := addr[sep1 := '.'];
    addr := addr[sep2 := '.'];
    addr := addr[sep3 := '.'];
    addr := Substr(addr, 0, sep4);
    HostBetween(pasv, sep1, sep2, sep3, sep4);
    OverlongField(pasv, sep4, sep5);
    LastField(pasv, sep5);
    var major := Stoi(Substr(pasv, sep4 + 1, sep5 - sep4 + 1));
    var minor := Stoi(Substr(pasv, sep5 + 1, |pasv|));
    DecodeIs(pasv, addr, major, minor);
    r := if major.None? || minor.None? then Threw
         else Parsed(Endpoint(addr, ToInt32(major.value * 256 + minor.value)));
  }

  lemma DecodeIs(s: string, host: string, major: Option<int>, minor: Option<int>)
    requires |Split(s, ',')| > 5
    requires host == Dotted(Split(s, ',')[0], Split(s, ',')[1], Split(s, ',')[2], Split(s, ',')[3])
    requires major == Stoi(Split(s, ',')[4]) && minor == Stoi(Split(s, ',')[5])
    ensures DecodePasv(s) ==
      if major.None? || minor.None? then Threw
      else Parsed(Endpoint(host, ToInt32(major.value * 256 + minor.value)))
  {
  }

  lemma HostBetween(s: string, sep1: int, sep2: int, sep3: int, sep4: int)
    requires 0 <= sep1 < sep2 < sep3 < sep4 < |s|
    requires StartsAt(s, ',', 1, sep1 + 1) && StartsAt(s, ',', 2, sep2 + 1) && StartsAt(s, ',', 3, sep3 + 1)
    requires sep1 == Find(s, ',', 0) && sep2 == Find(s, ',', sep1 + 1) && sep3 == Find(s, ',', sep2 + 1)
    requires sep4 == Find(s, ',', sep3 + 1)
    ensures |Split(s, ',')| > 4
    ensures Substr(s[sep1 := '.'][sep2 := '.'][sep3 := '.'], 0, sep4)
         == Dotted(Split(s, ',')[0], Split(s, ',')[1], Split(s, ',')[2], Split(s, ',')[3])
  {
    FieldAt(s, ',', 0, 0, sep1);
    FieldAt(s, ',', 1, sep1 + 1, sep2);
    FieldAt(s, ',', 2, sep2 + 1, sep3);
    FieldAt(s, ',', 3, sep3 + 1, sep4);
    DotsReplaced(s, sep1, sep2, sep3, sep4, Split(s, ','));
  }

  lemma UnsplitFour(f: seq<string>)
    requires |f| >= 4
    ensures |f| == 4 ==> Unsplit(f, '.') == Dotted(f[0], f[1], f[2], f[3])
    ensures |f| > 4 ==> |Unsplit(f, '.')| > |Dotted(f[0], f[1], f[2], f[3])|
  {
    var g, h := f[1..], f[2..];
    assert g[1..] == h && h[1..] == f[3..];
    assert Unsplit(h, '.') == h[0] + ['.'] + Unsplit(f[3..], '.');
    assert Unsplit(g, '.') == g[0] + ['.'] + Unsplit(h, '.');
    assert Unsplit(f, '.') == f[0] + ['.'] + Unsplit(g, '.');
    if |f| == 4 {
      assert Unsplit(f[3..], '.') == f[3];
      assert Unsplit(f, '.') == f[0] + "." + f[1] + "." + f[2] + "." + f[3];
    } else {
      assert Unsplit(f[3..], '.') == f[3] + ['.'] + Unsplit(f[3..][1..], '.');
    }
  }

  /** The substring taken for the high byte runs past the separator, which does not change the number. */
  lemma OverlongField(s: string, sep4: int, sep5: int)
    requires 0 <= sep4 < sep5 < |s| && StartsAt(s, ',', 4, sep4 + 1) && sep5 == Find(s, ',', sep4 + 1)
    ensures |Split(s, ',')| > 5 && Stoi(Substr(s, sep4 + 1, sep5 - sep4 + 1)) == Stoi(Split(s, ',')[4])
  {
    var t := Substr(s, sep4 + 1, sep5 - sep4 + 1);
    var x := s[sep4 + 1..sep5];
    CutAt(t, |x|);
    assert t[..|x|] == x;
    StoiStopsAt(x, ',', t[|x| + 1..]);
    FieldAt(s, ',', 4, sep4 + 1, sep5);
  }

  /** Text after a further separator does not change the low byte either. */
  lemma LastField(pasv: string, sep5: nat)
    requires sep5 < |pasv| && StartsAt(pasv, ',', 5, sep5 + 1)
    ensures |Split(pasv, ',')| > 5 && Stoi(Substr(pasv, sep5 + 1, |pasv|)) == Stoi(Split(pasv, ',')[5])
  {
    FieldOnward(pasv, ',', 5, sep5 + 1);
    var s := pasv[sep5 + 1..];
    assert Substr(pasv, sep5 + 1, |pasv|) == s;
    FindFirstField(s, ',');
    var f := Find(s, ',', 0);
    if f != NPOS {
      CutAt(s, f);
      StoiStopsAt(s[..f], ',', s[f + 1..]);
    }
  }

  method ToPASVString(addr: string, port: int) returns (r: string)
    ensures r == EncodePasv(addr, port)
  {
    var pasv := addr;
    var pos := Find(pasv, '.', 0);
    while pos != NPOS
      invariant |pasv| == |addr|
      invariant forall i :: 0 <= i < |addr| ==> pasv[i] == addr[i] || (addr[i] == '.' && pasv[i] == ',')
      invariant pos == Find(pasv, '.', 0)
      invariant pos != NPOS ==> forall i :: 0 <= i < pos ==> pasv[i] != '.'
      decreases if pos == NPOS then 0 else |addr| - pos
    {
      pasv := pasv[pos := ','];
      pos := Find(pasv, '.', 0);
    }
    assert pasv == Replace(addr, '.', ',');
    r := pasv + "," + ToString(High(port)) + "," + ToString(Low(port));
  }

  lemma {:induction false} CommasPlusDots(s: string)
    ensures CountOf(Replace(s, '.', ','), ',') == CountOf(s, '.') + CountOf(s, ',')
  {
    if s != "" {
      CommasPlusDots(s[1..]);
      assert Replace(s, '.', ',')[1..] == Replace(s[1..], '.', ',');
    }
  }

  lemma SplitEncoded(addr: string, port: int)
    ensures Split(EncodePasv(addr, port), ',')
         == Split(Replace(addr, '.', ','), ',') + [ToString(High(port)), ToString(Low(port))]
  {
    var x, a, b := Replace(addr, '.', ','), ToString(High(port)), ToString(Low(port));
    ToStringIsPlain(High(port));
    ToStringIsPlain(Low(port));
    OneField(a, ',');
    OneField(b, ',');
    SplitAtSeparator(x + "," + a, ',', b);
    SplitAtSeparator(x, ',', a);
    assert x + "," + a == x + [','] + a;
    assert EncodePasv(addr, port) == x + "," + a + [','] + b;
  }

  lemma CommasComeBackAsDots(addr: string)
    ensures Replace(Replace(addr, '.', ','), ',', '.') == addr <==> ',' !in addr
  {
    var back := Replace(Replace(addr, '.', ','), ',', '.');
    if ',' in addr {
      var i :| 0 <= i < |addr| && addr[i] == ',';
      assert back[i] == '.';
    } else {
      assert forall i :: 0 <= i < |addr| ==> addr[i] in addr && back[i] == addr[i];
    }
  }

  lemma PortSplit(port: int)
    requires IsPort(port)
    ensures Stoi(ToString(High(port))) == Some(High(port)) && Stoi(ToString(Low(port))) == Some(Low(port))
    ensures ToInt32(High(port) * 256 + Low(port)) == port
  {
    ReadBack(High(port), "");
    ReadBack(Low(port), "");
    assert ToString(High(port)) + "" == ToString(High(port)) && ToString(Low(port)) + "" == ToString(Low(port));
  }

  /** What is read back from a printed string, by the number of fields the address has. */
  lemma DecodeEncoded(addr: string, port: int)
    requires IsPort(port)
    ensures var fx := Split(Replace(addr, '.', ','), ',');
      && (|fx| < 4 ==> DecodePasv(EncodePasv(addr, port)) == Malformed)
      && (|fx| == 4 ==>
            DecodePasv(EncodePasv(addr, port)) == Parsed(Endpoint(Dotted(fx[0], fx[1], fx[2], fx[3]), port)))
      && (|fx| > 4 && DecodePasv(EncodePasv(addr, port)).Parsed? ==>
            DecodePasv(EncodePasv(addr, port)).value.addr == Dotted(fx[0], fx[1], fx[2], fx[3]))
  {
    SplitEncoded(addr, port);
    PortSplit(port);
  }

  /** Parsing what was printed gives the address and port back exactly for addresses with three dots
      and no comma, whatever the port. */
  lemma PasvRoundTrip(addr: string, port: int)
    requires IsPort(port)
    ensures DecodePasv(EncodePasv(addr, port)) == Parsed(Endpoint(addr, port))
       <==> ',' !in addr && CountOf(addr, '.') == 3
  {
    var x := Replace(addr, '.', ',');
    DecodeEncoded(addr, port);
    SplitCount(x, ',');
    CommasPlusDots(addr);
    CommaCounted(addr);
    UnsplitReplaces(x, ',', '.');
    CommasComeBackAsDots(addr);
    if |Split(x, ',')| >= 4 {
      UnsplitFour(Split(x, ','));
    }
  }

  lemma {:induction false} CommaCounted(s: string)
    ensures ',' in s <==> CountOf(s, ',') > 0
  {
    if s != "" {
      assert s == [s[0]] + s[1..];
      CommaCounted(s[1..]);
    }
  }

  /** The PASV strings the printer writes. */
  ghost predicate CanonicalPasv(pasv: string) {
    var f := Split(pasv, ',');
    |f| == 6 && '.' !in pasv && exists port :: IsPort(port) && PortFields(f[4], f[5], port)
  }

  predicate PortFields(high: string, low: string, port: int) {
    high == ToString(High(port)) && low == ToString(Low(port))
  }

  lemma UnsplitSix(f: seq<string>)
    requires |f| == 6
    ensures Unsplit(f, ',') == f[0] + "," + f[1] + "," + f[2] + "," + f[3] + "," + f[4] + "," + f[5]
  {
    var g, h := f[3..], f[4..];
    assert g[1..] == h && h[1..] == f[5..] && f[1..][1..] == f[2..] && f[2..][1..] == g;
    assert Unsplit(h, ',') == f[4] + [','] + f[5];
    assert Unsplit(g, ',') == f[3] + [','] + Unsplit(h, ',');
    assert Unsplit(f[2..], ',') == f[2] + [','] + Unsplit(g, ',');
    assert Unsplit(f[1..], ',') == f[1] + [','] + Unsplit(f[2..], ',');
    assert Unsplit(f, ',') == f[0] + [','] + Unsplit(f[1..], ',');
  }

  lemma Undotted(a: string, b: string, c: string, d: string)
    requires '.' !in a && '.' !in b && '.' !in c && '.' !in d
    ensures Replace(Dotted(a, b, c, d), '.', ',') == a + "," + b + "," + c + "," + d
  {
    var s, r := Dotted(a, b, c, d), a + "," + b + "," + c + "," + d;
    forall i | 0 <= i < |s| ensures r[i] == if s[i] == '.' then ',' else s[i] {
    }
  }

  lemma {:induction false} FieldsWithin(s: string, c: char, d: char)
    requires d !in s
    ensures forall i :: 0 <= i < |Split(s, c)| ==> d !in Split(s, c)[i]
  {
    if s != "" {
      assert s == [s[0]] + s[1..];
      FieldsWithin(s[1..], c, d);
    }
  }

  lemma CanonicalPasvReprinted(pasv: string, port: int)
    requires |Split(pasv, ',')| == 6 && '.' !in pasv && IsPort(port)
    requires PortFields(Split(pasv, ',')[4], Split(pasv, ',')[5], port)
    ensures DecodePasv(pasv).Parsed? && DecodePasv(pasv).value.port == port
    ensures EncodePasv(DecodePasv(pasv).value.addr, port) == pasv
  {
    var f := Split(pasv, ',');
    PortSplit(port);
    UnsplitReplaces(pasv, ',', ',');
    assert Replace(pasv, ',', ',') == pasv;
    UnsplitSix(f);
    FieldsWithin(pasv, ',', '.');
    Undotted(f[0], f[1], f[2], f[3]);
  }

  /** Printing what was parsed gives a string back exactly for the strings the printer writes. */
  lemma PasvReprint(pasv: string)
    ensures DecodePasv(pasv).Parsed? && EncodePasv(DecodePasv(pasv).value.addr, DecodePasv(pasv).value.port) == pasv
       <==> CanonicalPasv(pasv)
  {
    if CanonicalPasv(pasv) {
      var port :| IsPort(port) && PortFields(Split(pasv, ',')[4], Split(pasv, ',')[5], port);
      CanonicalPasvReprinted(pasv, port);
    }
    var r := DecodePasv(pasv);
    if r.Parsed? && EncodePasv(r.value.addr, r.value.port) == pasv {
      SplitEncoded(r.value.addr, r.value.port);
      EncodedHasNoDot(r.value.addr, r.value.port);
      var f := Split(pasv, ',');
      FieldsWithin(pasv, ',', '.');
      FieldsHaveNoSeparator(pasv, ',');
      Undotted(f[0], f[1], f[2], f[3]);
      FourFields(f[0], f[1], f[2], f[3]);
      assert PortFields(f[4], f[5], r.value.port);
    }
  }

  lemma EncodedHasNoDot(addr: string, port: int)
    ensures '.' !in EncodePasv(addr, port)
  {
    ToStringIsPlain(High(port));
    ToStringIsPlain(Low(port));
    assert '.' !in Replace(addr, '.', ',');
  }

  lemma FourFields(a: string, b: string, c: string, d: string)
    requires ',' !in a && ',' !in b && ',' !in c && ',' !in d
    ensures |Split(a + "," + b + "," + c + "," + d, ',')| == 4
  {
    OneField(a, ',');
    OneField(b, ',');
    OneField(c, ',');
    OneField(d, ',');
    SplitAtSeparator(a, ',', b);
    SplitAtSeparator(a + [','] + b, ',', c);
    SplitAtSeparator(a + [','] + b + [','] + c, ',', d);
  }

  // ---- EPSV and EPRT ----

  function AddressFamilyToString(addrfam: AddressFamily): string {
    match addrfam
    case NONE => ""
    case IPV4 => "1"
    case IPV6 => "2"
    case IPV4_IPV6 => "?"
  }

  function StringToAddressFamily(str: string): AddressFamily {
    if str == "1" then IPV4 else if str == "2" then IPV6 else NONE
  }

  function FromExtendedPASVString(epsv: string): Parse<ExtendedEndpoint> {
    var sep1 := Find(epsv, '|', 0);
    if sep1 == NPOS then Malformed else
    var sep2 := Find(epsv, '|', sep1 + 1);
    if sep2 == NPOS then Malformed else
    var sep3 := Find(epsv, '|', sep2 + 1);
    if sep3 == NPOS then Malformed else
    var sep4 := Find(epsv, '|', sep3 + 1);
    if sep4 == NPOS then Malformed
    else ReadExtended(epsv, sep1, sep2, sep3, sep4)
  }

  function ReadExtended(epsv: string, sep1: int, sep2: int, sep3: int, sep4: int): Parse<ExtendedEndpoint>
    requires 0 <= sep1 < sep2 < sep3 < sep4 < |epsv|
  {
    var addrfam := StringToAddressFamily(Substr(epsv, sep1 + 1, sep2 - (sep1 + 1)));
    var addr := Substr(epsv, sep2 + 1, sep3 - (sep2 + 1));
    var port := Stol(Substr(epsv, sep3 + 1, sep4 - (sep3 + 1)));
    if port.None? then Threw
    else Parsed(ExtendedEndpoint(addrfam, addr, ToInt32(port.value)))
  }

  function ToExtendedPASVString(addrfam: AddressFamily, addr: string, port: int): string {
    "|" + AddressFamilyToString(addrfam) + "|" + addr + "|" + ToString(port) + "|"
  }

  /** The reading of an EPSV string field by field: what is before the first bar and behind the fourth
      does not matter. */
  function DecodeExtended(epsv: string): Parse<ExtendedEndpoint> {
    var f := Split(epsv, '|');
    if |f| < 5 then Malformed
    else if Stol(f[3]).None? then Threw
    else Parsed(ExtendedEndpoint(StringToAddressFamily(f[1]), f[2], ToInt32(Stol(f[3]).value)))
  }

  lemma ExtendedByFields(epsv: string)
    ensures FromExtendedPASVString(epsv) == DecodeExtended(epsv)
  {
    hide Text.Substr, Text.Stol, ReadExtended;
    var sep1 := Find(epsv, '|', 0);
    NextStart(epsv, '|', 0, 0);
    if sep1 == NPOS { return; }
    var sep2 := Find(epsv, '|', sep1 + 1);
    NextStart(epsv, '|', 1, sep1 + 1);
    if sep2 == NPOS { return; }
    var sep3 := Find(epsv, '|', sep2 + 1);
    NextStart(epsv, '|', 2, sep2 + 1);
    if sep3 == NPOS { return; }
    var sep4 := Find(epsv, '|', sep3 + 1);
    NextStart(epsv, '|', 3, sep3 + 1);
    if sep4 == NPOS { return; }
    ReadByFields(epsv, sep1, sep2, sep3, sep4);
  }

  lemma ReadByFields(s: string, sep1: int, sep2: int, sep3: int, sep4: int)
    requires 0 <= sep1 < sep2 < sep3 < sep4 < |s|
    requires StartsAt(s, '|', 1, sep1 + 1) && StartsAt(s, '|', 2, sep2 + 1) && StartsAt(s, '|', 3, sep3 + 1)
    requires sep2 == Find(s, '|', sep1 + 1) && sep3 == Find(s, '|', sep2 + 1) && sep4 == Find(s, '|', sep3 + 1)
    ensures ReadExtended(s, sep1, sep2, sep3, sep4) == DecodeExtended(s)
  {
    hide Text.Substr, Text.Stol;
    FieldText(s, '|', 1, sep1 + 1, sep2);
    FieldText(s, '|', 2, sep2 + 1, sep3);
    FieldText(s, '|', 3, sep3 + 1, sep4);
    DecodeExtendedIs(s, Substr(s, sep1 + 1, sep2 - (sep1 + 1)), Substr(s, sep2 + 1, sep3 - (sep2 + 1)),
                     Substr(s, sep3 + 1, sep4 - (sep3 + 1)));
  }

  lemma DecodeExtendedIs(s: string, addrfam: string, addr: string, port: string)
    requires |Split(s, '|')| >= 5
    requires addrfam == Split(s, '|')[1] && addr == Split(s, '|')[2] && port == Split(s, '|')[3]
    ensures DecodeExtended(s) ==
      if Stol(port).None? then Threw
      else Parsed(ExtendedEndpoint(StringToAddressFamily(addrfam), addr, ToInt32(Stol(port).value)))
  {
  }

  lemma SplitExtended(addrfam: AddressFamily, addr: string, port: int)
    ensures Split(ToExtendedPASVString(addrfam, addr, port), '|')
         == [""] + [AddressFamilyToString(addrfam)] + Split(addr, '|') + [ToString(port)] + [""]
  {
    var a, p := AddressFamilyToString(addrfam), ToString(port);
    ToStringIsPlain(port);
    OneField(a, '|');
    OneField(p, '|');
    SplitAtSeparator("", '|', a);
    SplitAtSeparator("|" + a, '|', addr);
    SplitAtSeparator("|" + a + "|" + addr, '|', p);
    SplitAtSeparator("|" + a + "|" + addr + "|" + p, '|', "");
    assert "" + ['|'] + a == "|" + a;
    assert ToExtendedPASVString(addrfam, addr, port) == "|" + a + "|" + addr + "|" + p + ['|'] + "";
  }

  lemma PortRead(port: int)
    requires IsPort(port)
    ensures Stol(ToString(port)) == Some(port)
  {
    ReadBack(port, "");
    assert ToString(port) + "" == ToString(port);
  }

  /** What is read back from a printed string. */
  lemma DecodeExtendedPrinted(addrfam: AddressFamily, addr: string, port: int)
    requires IsPort(port)
    ensures '|' !in addr ==>
      DecodeExtended(ToExtendedPASVString(addrfam, addr, port))
      == Parsed(ExtendedEndpoint(if addrfam == IPV4_IPV6 then NONE else addrfam, addr, port))
    ensures '|' in addr && DecodeExtended(ToExtendedPASVString(addrfam, addr, port)).Parsed? ==>
      DecodeExtended(ToExtendedPASVString(addrfam, addr, port)).value.addr != addr
  {
    SplitExtended(addrfam, addr, port);
    FieldsHaveNoSeparator(addr, '|');
    PortRead(port);
    if '|' !in addr {
      OneField(addr, '|');
    }
  }

  /** Parsing what was printed gives family, address and port back exactly for a family with a number
      or none and an address without a bar. */
  lemma ExtendedRoundTrip(addrfam: AddressFamily, addr: string, port: int)
    requires IsPort(port)
    ensures FromExtendedPASVString(ToExtendedPASVString(addrfam, addr, port))
         == Parsed(ExtendedEndpoint(addrfam, addr, port))
       <==> addrfam != IPV4_IPV6 && '|' !in addr
  {
    ExtendedByFields(ToExtendedPASVString(addrfam, addr, port));
    DecodeExtendedPrinted(addrfam, addr, port);
  }

  /** The EPSV strings the printer writes for families with a number or none. */
  ghost predicate CanonicalExtended(epsv: string) {
    var f := Split(epsv, '|');
    && |f| == 5 && f[0] == "" && f[4] == "" && f[1] in {"", "1", "2"}
    && exists port :: IsPort(port) && f[3] == ToString(port)
  }

  lemma UnsplitFive(f: seq<string>)
    requires |f| == 5
    ensures Unsplit(f, '|') == f[0] + "|" + f[1] + "|" + f[2] + "|" + f[3] + "|" + f[4]
  {
    assert f[1..][1..] == f[2..] && f[2..][1..] == f[3..] && f[3..][1..] == f[4..];
    assert Unsplit(f[3..], '|') == f[3] + ['|'] + f[4];
    assert Unsplit(f[2..], '|') == f[2] + ['|'] + Unsplit(f[3..], '|');
    assert Unsplit(f[1..], '|') == f[1] + ['|'] + Unsplit(f[2..], '|');
    assert Unsplit(f, '|') == f[0] + ['|'] + Unsplit(f[1..], '|');
  }

  lemma CanonicalExtendedText(epsv: string)
    requires CanonicalExtended(epsv)
    ensures epsv == "|" + Split(epsv, '|')[1] + "|" + Split(epsv, '|')[2] + "|" + Split(epsv, '|')[3] + "|"
  {
    UnsplitReplaces(epsv, '|', '|');
    assert Replace(epsv, '|', '|') == epsv;
    UnsplitFive(Split(epsv, '|'));
  }

  lemma CanonicalExtendedReprinted(epsv: string)
    requires CanonicalExtended(epsv)
    ensures var r := DecodeExtended(epsv);
      r.Parsed? && ToExtendedPASVString(r.value.addrfam, r.value.addr, r.value.port) == epsv
  {
    var port :| IsPort(port) && Split(epsv, '|')[3] == ToString(port);
    PortRead(port);
    CanonicalExtendedText(epsv);
  }

  lemma ReprintedIsCanonical(epsv: string, addrfam: AddressFamily, addr: string, port: int)
    requires epsv == ToExtendedPASVString(addrfam, addr, port) && IsPort(port)
    requires addrfam != IPV4_IPV6 && '|' !in addr
    ensures CanonicalExtended(epsv)
  {
    SplitExtended(addrfam, addr, port);
    OneField(addr, '|');
  }

  /** Printing what was parsed gives a string back exactly for those strings. */
  lemma ExtendedReprint(epsv: string)
    ensures var r := FromExtendedPASVString(epsv);
      (r.Parsed? && ToExtendedPASVString(r.value.addrfam, r.value.addr, r.value.port) == epsv)
      <==> CanonicalExtended(epsv)
  {
    var r := FromExtendedPASVString(epsv);
    ExtendedByFields(epsv);
    if CanonicalExtended(epsv) {
      CanonicalExtendedReprinted(epsv);
    }
    if r.Parsed? && ToExtendedPASVString(r.value.addrfam, r.value.addr, r.value.port) == epsv {
      FieldsHaveNoSeparator(epsv, '|');
      ReprintedIsCanonical(epsv, r.value.addrfam, r.value.addr, r.value.port);
    }
  }

  /** The protocol numbers of section 2 of RFC 2428: 1 for IPv4 and 2 for IPv6, and nothing where the family goes
      without saying. */
  lemma ProtocolNumbers(host: string, port: int)
    ensures ToExtendedPASVString(IPV4, host, port) == "|1|" + host + "|" + ToString(port) + "|"
    ensures ToExtendedPASVString(IPV6, host, port) == "|2|" + host + "|" + ToString(port) + "|"
    ensures ToExtendedPASVString(NONE, "", port) == "|||" + ToString(port) + "|"
  {
    assert "|" + "1" + "|" == "|1|" && "|" + "2" + "|" == "|2|" && "|" + "" + "|" + "" + "|" == "|||";
  }
}
