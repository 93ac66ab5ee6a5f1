/** The parts of C and C++ text handling the program relies on: `find` and `substr` on std::string,
    `std::to_string`, and the number reading of `std::stoi` and `std::stol`.

    A position is an int and `npos` is -1, so that `npos + 1` is 0 as it is for the unsigned original. */
module Text {
  datatype Option<+T> = None | Some(value: T)

  const NPOS := -1
  const INT_MIN := -0x8000_0000
  const INT_MAX := 0x7fff_ffff
  const LONG_MIN := -0x8000_0000_0000_0000
  const LONG_MAX := 0x7fff_ffff_ffff_ffff

  predicate Absent(s: string, c: char, from: nat, to: int)
    requires to <= |s|
  {
    forall i :: from <= i < to ==> s[i] != c
  }

  /** r is where c first occurs in s at or after from, npos when it does not. */
  predicate First(s: string, c: char, from: nat, r: int) {
    if r == NPOS then Absent(s, c, from, |s|) else from <= r < |s| && s[r] == c && Absent(s, c, from, r)
  }

  lemma FirstExists(s: string, c: char, from: nat) returns (r: int)
    ensures First(s, c, from, r)
  {
    if from >= |s| {
      return NPOS;
    }
    r := from;
    while r < |s| && s[r] != c
      invariant from <= r <= |s| && Absent(s, c, from, r)
    {
      r := r + 1;
    }
    if r >= |s| {
      r := NPOS;
    }
  }

  /** `s.find(c, from)` */
  function Find(s: string, c: char, from: nat): (r: int)
    ensures First(s, c, from, r)
  {
    assert exists r :: First(s, c, from, r) by { var r := FirstExists(s, c, from); }
    var r: int :| First(s, c, from, r);
    r
  }

  /** A search is decided by what stands before the first occurrence. */
  lemma FindIs(s: string, c: char, from: nat, r: int)
    requires First(s, c, from, r)
    ensures Find(s, c, from) == r
  {
  }

  /** `s.substr(pos, count)`; a count that went below zero is a huge unsigned one and reaches the end. */
  function Substr(s: string, pos: nat, count: int): string
    requires pos <= |s|
  {
    if 0 <= count <= |s| - pos then s[pos..pos + count] else s[pos..]
  }

  /** s with every `from` turned into `to`. */
  function Replace(s: string, from: char, to: char): (r: string)
    ensures |r| == |s|
    ensures forall i :: 0 <= i < |s| ==> r[i] == if s[i] == from then to else s[i]
  {
    seq(|s|, i requires 0 <= i < |s| => if s[i] == from then to else s[i])
  }

  /** Chunks put together. */
  function Concat(chunks: seq<string>): string {
    if chunks == [] then "" else chunks[0] + Concat(chunks[1..])
  }

  predicate IsDigit(c: char) { '0' <= c <= '9' }

  predicate AllDigits(s: string) { forall i :: 0 <= i < |s| ==> IsDigit(s[i]) }

  predicate IsSpace(c: char) { c == ' ' || '\t' <= c <= '\r' }

  function DigitChar(d: nat): (c: char)
    requires d < 10
    ensures IsDigit(c) && c as int - '0' as int == d
  {
    '0' + d as char
  }

  function NatToString(n: nat): (s: string)
    ensures s != "" && AllDigits(s)
  {
    if n < 10 then [DigitChar(n)] else NatToString(n / 10) + [DigitChar(n % 10)]
  }

  /** `std::to_string` */
  function ToString(n: int): string {
    if n < 0 then "-" + NatToString(-n) else NatToString(n)
  }

  /** Reads digits into acc until something else comes. */
  function ReadDigits(s: string, acc: nat): nat {
    if s != "" && IsDigit(s[0]) then ReadDigits(s[1..], 10 * acc + (s[0] as int - '0' as int)) else acc
  }

  /** What strtol base 10 reads once blanks are skipped: None when there is no digit. */
  function ReadNumber(s: string): Option<int> {
    var signed := s != "" && (s[0] == '-' || s[0] == '+');
    var body := if signed then s[1..] else s;
    if body == "" || !IsDigit(body[0]) then None
    else
      var v: int := ReadDigits(body, 0);
      Some(if signed && s[0] == '-' then -v else v)
  }

  function SkipSpace(s: string): string {
    if s != "" && IsSpace(s[0]) then SkipSpace(s[1..]) else s
  }

  /** `std::stoi`: None where it throws, for lack of a number or because it does not fit an int. */
  function Stoi(s: string): (r: Option<int>)
    ensures r.Some? ==> INT_MIN <= r.value <= INT_MAX
  {
    var r := ReadNumber(SkipSpace(s));
    if r.Some? && !(INT_MIN <= r.value <= INT_MAX) then None else r
  }

  /** `std::stol` with a 64-bit long. */
  function Stol(s: string): (r: Option<int>)
    ensures r.Some? ==> LONG_MIN <= r.value <= LONG_MAX
  {
    var r := ReadNumber(SkipSpace(s));
    if r.Some? && !(LONG_MIN <= r.value <= LONG_MAX) then None else r
  }

  /** The conversion of a long to a 32-bit int. */
  function ToInt32(n: int): (r: int)
    ensures INT_MIN <= r <= INT_MAX
    ensures INT_MIN <= n <= INT_MAX ==> r == n
  {
    var m := n % 0x1_0000_0000;
    if m > INT_MAX then m - 0x1_0000_0000 else m
  }

  lemma {:induction false} ReadDigitsBack(n: nat, rest: string)
    ensures ReadDigits(NatToString(n) + rest, 0) == ReadDigits(rest, n)
  {
    if n < 10 {
      assert ([DigitChar(n)] + rest)[1..] == rest;
    } else {
      var last := [DigitChar(n % 10)] + rest;
      assert NatToString(n) + rest == NatToString(n / 10) + last;
      ReadDigitsBack(n / 10, last);
      assert last[1..] == rest;
    }
  }

  /** Reading back a printed number ignores whatever follows it, up to the next digit. */
  lemma ReadBack(n: int, rest: string)
    requires rest == "" || !IsDigit(rest[0])
    ensures INT_MIN <= n <= INT_MAX ==> Stoi(ToString(n) + rest) == Some(n) && Stol(ToString(n) + rest) == Some(n)
  {
    hide NatToString, ReadDigits;
    NumberBack(n, rest);
    assert SkipSpace(ToString(n) + rest) == ToString(n) + rest;
  }

  lemma NumberBack(n: int, rest: string)
    requires rest == "" || !IsDigit(rest[0])
    ensures ReadNumber(ToString(n) + rest) == Some(n)
  {
    var m := if n < 0 then -n else n;
    ReadDigitsBack(m, rest);
    var s := ToString(n) + rest;
    if n < 0 {
      assert s[0] == '-' && s[1..] == NatToString(m) + rest;
    } else {
      assert s == NatToString(m) + rest;
    }
  }

  lemma ToStringIsPlain(n: int)
    ensures forall c :: c in ToString(n) ==> IsDigit(c) || c == '-'
    ensures n >= 0 ==> AllDigits(ToString(n))
  {
  }

  /** Decimal notation, the most significant digit first. */
  lemma Decimal()
    ensures ToString(1025) == "1025" && ToString(-7) == "-7" && Stoi("1025") == Some(1025) && Stoi(" -7x") == Some(-7)
  {
    assert NatToString(1) == "1" && NatToString(10) == "10" && NatToString(102) == "102";
    ReadBack(1025, "");
    ReadBack(-7, "x");
    assert "1025" + "" == "1025" && " -7x"[1..] == "-7" + "x";
  }

  /** What does not fit an int or a long is not read. */
  lemma OutOfRange(n: int)
    ensures Stoi(ToString(n)).Some? <==> -0x8000_0000 <= n < 0x8000_0000
    ensures Stol(ToString(n)).Some? <==> -0x8000_0000_0000_0000 <= n < 0x8000_0000_0000_0000
  {
    hide NatToString, ReadDigits;
    NumberBack(n, "");
    assert ToString(n) + "" == ToString(n) && SkipSpace(ToString(n)) == ToString(n);
  }

  /** The conversion to int goes round modulo 2 to the 32nd. */
  lemma WrapsRound(n: int)
    ensures -0x8000_0000 <= ToInt32(n) < 0x8000_0000 && (n - ToInt32(n)) % 0x1_0000_0000 == 0
  {
  }

  /** A huge or negative count reaches the end of the text, any other takes that many characters. */
  lemma SubstrLaw(s: string, pos: nat, count: int)
    requires pos <= |s|
    ensures Substr(s, pos, count) <= s[pos..]
    ensures |Substr(s, pos, count)| == if 0 <= count <= |s| - pos then count else |s| - pos
  {
  }

  /** Blanks of every kind before a number are passed over. */
  lemma BlanksBefore(blank: char, s: string)
    requires blank as int in {9, 10, 11, 12, 13, 32}
    ensures Stoi([blank] + s) == Stoi(s) && Stol([blank] + s) == Stol(s)
  {
    assert ([blank] + s)[1..] == s;
  }
}
