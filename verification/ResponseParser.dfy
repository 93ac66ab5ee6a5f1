/** The incremental recogniser of FTP replies (section 4.2 of RFC 959): a growing buffer and a backward
    scan for the last line that starts with a reply code. */
module ResponseParser {
  import opened Text

  const DATA_BUF_SIZE := 2048

  // ---- what one call does, on values ----

  datatype State = State(data: string, code: int, complete: bool)

  predicate ThreeDigits(s: string, i: int) {
    0 <= i <= |s| - 3 && IsDigit(s[i]) && IsDigit(s[i + 1]) && IsDigit(s[i + 2])
  }

  /** A line starts at i with a code and a blank or line end, and at least one more character before the end. */
  predicate CodeLine(s: string, i: int) {
    0 <= i <= |s| - 5 && ThreeDigits(s, i) && s[i + 3] in {' ', '\n'} && (i == 0 || s[i - 1] == '\n')
  }

  function CodeAt(s: string, i: int): int
    requires ThreeDigits(s, i)
  {
    100 * Digit(s[i]) + 10 * Digit(s[i + 1]) + Digit(s[i + 2])
  }

  function Digit(c: char): int { c as int - '0' as int }

  /** The last code line at or before i, -1 when there is none. */
  function LastCodeLine(s: string, i: int): (r: int)
    ensures -1 <= r && (r >= 0 ==> r <= i && CodeLine(s, r))
    decreases if i < 0 then 0 else i + 1
  {
    if i < 0 then -1 else if CodeLine(s, i) then i else LastCodeLine(s, i - 1)
  }

  /** The code line a call reports for the text it has: only a text that ends a line is looked at. */
  function Reported(s: string): (r: int)
    ensures -1 <= r && (r >= 0 ==> CodeLine(s, r))
  {
    if s != "" && s[|s| - 1] == '\n' then LastCodeLine(s, |s| - 5) else -1
  }

  function CharAt(s: string, i: int): char { if 0 <= i < |s| then s[i] else '\0' }

  /** The text that makes a 550 reply look like the line glftpd repeats. `room` is what the buffer holds
      behind the text. */
  predicate GlftpdLine(s: string, room: string, i: nat) {
    var b := s + room;
    CharAt(b, i + 4) == 'U' && CharAt(b, i + 5) == 'n' && CharAt(b, i + 28) == 'u' && CharAt(b, i + 33) == 'f'
  }

  /** What a call makes of the text once the chunk is appended; `first` when the chunk is all of it. */
  function Judge(s: State, first: bool, room: string): (State, bool) {
    var loc := Reported(s.data);
    if loc >= 0 then
      var code := CodeAt(s.data, loc);
      if code == 550 then
        if GlftpdLine(s.data, room, loc) then (State("", code, false), false) else (s.(code := code), true)
      else (State(s.data, code, true), true)
    else if first && |s.data| >= 3 && !ThreeDigits(s.data, 0) then (s.(code := 0), true)
    else (s, false)
  }

  /** The state after a call and the value it returns. */
  function Step(s: State, chunk: string, room: string): (State, bool) {
    Judge(s.(data := s.data + chunk), s.data == "", room)
  }

  class FTPResponseParser {
    var databuflen: nat
    var databuf: array<char>
    var databufpos: nat
    var databufcode: int
    var complete: bool

    ghost predicate Valid()
      reads this, databuf
    {
      databuf.Length == databuflen && databuflen > 0 && databufpos <= databuflen
    }

    ghost function Data(): string
      reads this, databuf
      requires Valid()
    {
      databuf[..databufpos]
    }

    ghost function Value(): State
      reads this, databuf
      requires Valid()
    {
      State(Data(), databufcode, complete)
    }

    constructor ()
      ensures Valid() && Value() == State("", 0, false) && fresh(databuf)
    {
      databuflen := DATA_BUF_SIZE;
      databuf := new char[DATA_BUF_SIZE];
      databufpos := 0;
      databufcode := 0;
      complete := false;
    }

    method Reset()
      requires Valid()
      modifies this
      ensures Valid() && databuf == old(databuf) && Value() == State("", old(databufcode), false)
    {
      databufpos := 0;
      complete := false;
    }

    /** Makes room by doubling and appends. */
    method Append(newdata: string)
      requires Valid()
      modifies this, databuf
      ensures Valid() && (databuf == old(databuf) || fresh(databuf))
      ensures Data() == old(Data()) + newdata
      ensures databufcode == old(databufcode) && complete == old(complete)
    {
      if databufpos + |newdata| > databuflen {
        while databufpos + |newdata| > databuflen
          invariant databuflen > 0
          invariant databufpos == old(databufpos) && databuf == old(databuf) && databuf.Length <= databuflen
          invariant databufcode == old(databufcode) && complete == old(complete)
          invariant databuf[..] == old(databuf[..])
          decreases databufpos + |newdata| - databuflen
        {
          databuflen := databuflen * 2;
        }
        var newdatabuf := new char[databuflen];
        forall i | 0 <= i < databufpos {
          newdatabuf[i] := databuf[i];
        }
        databuf := newdatabuf;
        assert databuf[..databufpos] == old(databuf[..databufpos]);
      }
      ghost var before := databuf[..databufpos];
      forall i | 0 <= i < |newdata| {
        databuf[databufpos + i] := newdata[i];
      }
      assert databuf[..databufpos] == before;
      databufpos := databufpos + |newdata|;
      assert databuf[..databufpos] == before + newdata;
    }

    /** A read through the buffer pointer; past the allocation it yields NUL here. */
    method Peek(i: nat) returns (c: char)
      requires Valid()
      ensures c == CharAt(databuf[..], i)
    {
      c := if i < databuf.Length then databuf[i] else '\0';
    }

    /** The backward scan for a code line. */
    method Scan() returns (loc: int)
      requires Valid() && databufpos > 0
      modifies `databufcode
      ensures loc == Reported(Data())
      ensures databufcode == if loc >= 0 then CodeAt(Data(), loc) else old(databufcode)
    {
      ghost var data := Data();
      loc := -1;
      if databuf[databufpos - 1] == '\n' {
        loc := databufpos - 5;
        while loc >= 0
          invariant loc <= databufpos - 5 && databufcode == old(databufcode)
          invariant Reported(data) == LastCodeLine(data, loc)
        {
          if IsDigit(databuf[loc]) && IsDigit(databuf[loc + 1]) && IsDigit(databuf[loc + 2]) {
            if (databuf[loc + 3] == ' ' || databuf[loc + 3] == '\n') && (loc == 0 || databuf[loc - 1] == '\n') {
              databufcode := 100 * Digit(databuf[loc]) + 10 * Digit(databuf[loc + 1]) + Digit(databuf[loc + 2]);
              return;
            }
          }
          loc := loc - 1;
        }
        loc := -1;
      }
    }

    /** Whether the reply at loc is the line glftpd repeats. */
    method Repeats(loc: nat) returns (r: bool)
      requires Valid()
      ensures r == GlftpdLine(Data(), databuf[databufpos..], loc)
    {
      assert databuf[..] == Data() + databuf[databufpos..];
      var c4 := Peek(loc + 4);
      var c5 := Peek(loc + 5);
      var c28 := Peek(loc + 28);
      var c33 := Peek(loc + 33);
      r := c4 == 'U' && c5 == 'n' && c28 == 'u' && c33 == 'f';
    }

    /** The part of `parse` that follows the copying. */
    method Examine(newdatalen: nat) returns (r: bool)
      requires Valid() && 0 < newdatalen <= databufpos
      modifies this
      ensures Valid() && databuf == old(databuf)
      ensures (Value(), r) == Judge(old(Value()), newdatalen == old(databufpos), old(databuf[databufpos..]))
    {
      var loc := Scan();
      if loc >= 0 {
        r := true;
        if databufcode == 550 {
          var repeated := Repeats(loc);
          if repeated {
            databufpos := 0;
            complete := false;
            r := false;
          }
        } else {
          complete := true;
        }
      } else if newdatalen == databufpos && newdatalen >= 3
        && (!IsDigit(databuf[0]) || !IsDigit(databuf[1]) || !IsDigit(databuf[2])) {
        databufcode := 0;
        r := true;
      } else {
        r := false;
      }
    }

    /** One step, with `room` for what the buffer holds behind the text by then. */
    method Parse(newdata: string) returns (r: bool, ghost room: string)
      requires Valid() && newdata != ""
      modifies this, databuf
      ensures Valid() && (databuf == old(databuf) || fresh(databuf))
      ensures (Value(), r) == Step(old(Value()), newdata, room)
    {
      Append(newdata);
      room := databuf[databufpos..];
      r := Examine(|newdata|);
    }
  }

  // ---- replies that arrive in pieces ----

  /** A reply whose last line starts at p: that line alone starts with a code and a blank, as the last
      line of a reply does, and the text ends with it. */
  ghost predicate ReplyEnding(msg: string, p: int) {
    && CodeLine(msg, p)
    && msg[|msg| - 1] == '\n'
    && (forall i :: p <= i < |msg| - 1 ==> msg[i] != '\n')
    && (forall i :: i < p ==> !CodeLine(msg, i))
  }

  /** The character at i is c, or not part of the reply. */
  predicate MayBe(msg: string, i: nat, c: char) { i < |msg| ==> msg[i] == c }

  /** Nothing in the reply rules out that it is the line a broken glftpd repeats. */
  predicate MayBeRepeated(msg: string, p: int)
    requires CodeLine(msg, p)
  {
    && CodeAt(msg, p) == 550
    && MayBe(msg, p + 4, 'U') && MayBe(msg, p + 5, 'n') && MayBe(msg, p + 28, 'u') && MayBe(msg, p + 33, 'f')
  }

  /** What the calls return, one for each chunk. */
  function Results(s: State, chunks: seq<string>, rooms: seq<string>): (r: seq<bool>)
    requires |rooms| == |chunks|
    ensures |r| == |chunks|
    decreases |chunks|
  {
    if chunks == [] then [] else
    var (t, b) := Step(s, chunks[0], rooms[0]);
    [b] + Results(t, chunks[1..], rooms[1..])
  }

  function Final(s: State, chunks: seq<string>, rooms: seq<string>): State
    requires |rooms| == |chunks|
    decreases |chunks|
  {
    if chunks == [] then s else Final(Step(s, chunks[0], rooms[0]).0, chunks[1..], rooms[1..])
  }

  /** The chunks are not empty and make up msg. */
  ghost predicate Pieces(chunks: seq<string>, msg: string) {
    chunks != [] && Concat(chunks) == msg && forall i :: 0 <= i < |chunks| ==> chunks[i] != ""
  }

  ghost predicate OnlyLast(r: seq<bool>) {
    r != [] && r[|r| - 1] && forall i :: 0 <= i < |r| - 1 ==> !r[i]
  }

  lemma CodeLineKept(msg: string, k: nat, r: int)
    requires k <= |msg| && CodeLine(msg[..k], r)
    ensures CodeLine(msg, r)
  {
  }

  /** No part of a reply that stops short of its end is taken for a reply. */
  lemma NothingInside(msg: string, p: int, k: nat)
    requires ReplyEnding(msg, p) && k < |msg|
    ensures Reported(msg[..k]) == -1
  {
    var r := Reported(msg[..k]);
    if r >= 0 {
      CodeLineKept(msg, k, r);
    }
  }

  lemma {:induction false} LastLineFound(msg: string, p: int, i: int)
    requires ReplyEnding(msg, p) && p <= i <= |msg| - 5
    ensures LastCodeLine(msg, i) == p
    decreases i
  {
    if i > p {
      assert msg[i - 1] != '\n';
      LastLineFound(msg, p, i - 1);
    }
  }

  /** The last chunk completes the reply. */
  lemma Completed(s: State, chunk: string, room: string, msg: string, p: int)
    requires ReplyEnding(msg, p) && !MayBeRepeated(msg, p) && s.data + chunk == msg
    ensures var code := CodeAt(msg, p);
      Step(s, chunk, room) == (State(msg, code, if code == 550 then s.complete else true), true)
  {
    LastLineFound(msg, p, |msg| - 5);
    assert forall i :: 0 <= i < |msg| ==> (msg + room)[i] == msg[i];
  }

  /** And if the reply may be such a line, then what lies behind the text can have it dropped. */
  lemma Dropped(s: State, chunk: string, msg: string, p: int) returns (room: string)
    requires ReplyEnding(msg, p) && MayBeRepeated(msg, p) && s.data + chunk == msg
    ensures Step(s, chunk, room) == (State("", 550, false), false)
  {
    room := seq(34, k => if |msg| + k == p + 5 then 'n' else if |msg| + k == p + 28 then 'u' else 'f');
    LastLineFound(msg, p, |msg| - 5);
    assert forall i :: 0 <= i < |msg| ==> (msg + room)[i] == msg[i];
    assert forall k :: 0 <= k < 34 ==> (msg + room)[|msg| + k] == room[k];
  }

  const GLFTPD := "550 Unable to load your own user file!.\r\n"

  lemma GlftpdIsReply()
    ensures ReplyEnding(GLFTPD, 0) && CodeAt(GLFTPD, 0) == 550
  {
    assert CodeLine(GLFTPD, 0);
  }

  lemma GlftpdLooksIt(room: string)
    ensures GlftpdLine(GLFTPD, room, 0)
  {
    var b := GLFTPD + room;
    assert b[4] == GLFTPD[4] && b[5] == GLFTPD[5] && b[28] == GLFTPD[28] && b[33] == GLFTPD[33];
  }

  /** The line a broken glftpd adds is such a reply, and is dropped whatever lies behind it. */
  lemma GlftpdDropped(s: State, room: string)
    requires s.data == ""
    ensures Step(s, GLFTPD, room) == (State("", 550, false), false)
  {
    GlftpdIsReply();
    GlftpdLooksIt(room);
    LastLineFound(GLFTPD, 0, |GLFTPD| - 5);
    hide ReplyEnding, CodeAt, GlftpdLine, LastCodeLine, CodeLine;
    assert "" + GLFTPD == GLFTPD;
  }

  /** A chunk before the last leaves the recogniser waiting, unless it is the first one and shows three
      bytes that are no code. */
  lemma Waiting(s: State, chunk: string, room: string, msg: string, p: int, k: nat)
    requires ReplyEnding(msg, p) && chunk != "" && k < |msg| && s.data + chunk == msg[..k]
    ensures var alarmed := s.data == "" && |chunk| >= 3 && !ThreeDigits(chunk, 0);
      Step(s, chunk, room) == (State(msg[..k], if alarmed then 0 else s.code, s.complete), alarmed)
  {
    NothingInside(msg, p, k);
  }

  lemma FirstPiece(chunks: seq<string>, msg: string)
    requires Pieces(chunks, msg) && |chunks| > 1
    ensures 0 < |chunks[0]| < |msg| && msg[..|chunks[0]|] == chunks[0]
    ensures Pieces(chunks[1..], msg[|chunks[0]|..])
  {
    assert chunks[1..][0] == chunks[1];
    assert msg == chunks[0] + Concat(chunks[1..]);
  }

  lemma OneMoreResult(b: bool, rest: seq<bool>)
    requires rest != []
    ensures OnlyLast([b] + rest) <==> !b && OnlyLast(rest)
  {
    var all := [b] + rest;
    assert forall i :: 0 <= i < |rest| ==> rest[i] == all[i + 1];
    if OnlyLast(all) {
      assert !all[0];
    }
  }

  /** A run is its first call and the run of the rest. */
  lemma Unroll(s: State, chunks: seq<string>, rooms: seq<string>)
    requires |rooms| == |chunks| > 1
    ensures var (t, b) := Step(s, chunks[0], rooms[0]);
      && (OnlyLast(Results(s, chunks, rooms)) <==> !b && OnlyLast(Results(t, chunks[1..], rooms[1..])))
      && Final(s, chunks, rooms) == Final(t, chunks[1..], rooms[1..])
  {
    hide Step, OnlyLast;
    var (t, b) := Step(s, chunks[0], rooms[0]);
    OneMoreResult(b, Results(t, chunks[1..], rooms[1..]));
  }

  lemma Joined(msg: string, i: nat, k: nat, head: string, piece: string)
    requires i <= k <= |msg| && head == msg[..i] && piece == msg[i..][..k - i]
    ensures head + piece == msg[..k] && msg[i..][k - i..] == msg[k..]
  {
  }

  /** Once the beginning is buffered every further split gives the same answer. */
  lemma {:induction false} RestOfReply(s: State, chunks: seq<string>, rooms: seq<string>, msg: string, p: int)
    requires ReplyEnding(msg, p) && !MayBeRepeated(msg, p)
    requires |rooms| == |chunks| && 0 < |s.data| <= |msg|
    requires s.data == msg[..|s.data|] && Pieces(chunks, msg[|s.data|..])
    ensures OnlyLast(Results(s, chunks, rooms))
    ensures Final(s, chunks, rooms) == State(msg, CodeAt(msg, p), if CodeAt(msg, p) == 550 then s.complete else true)
    decreases |chunks|
  {
    if |chunks| == 1 {
      assert Concat(chunks) == chunks[0];
      Completed(s, chunks[0], rooms[0], msg, p);
    } else {
      FirstPiece(chunks, msg[|s.data|..]);
      Unroll(s, chunks, rooms);
      var k := |s.data| + |chunks[0]|;
      Joined(msg, |s.data|, k, s.data, chunks[0]);
      Waiting(s, chunks[0], rooms[0], msg, p, k);
      RestOfReply(State(msg[..k], s.code, s.complete), chunks[1..], rooms[1..], msg, p);
    }
  }

  /** A reply in one piece. */
  lemma OnlyChunk(s: State, chunks: seq<string>, rooms: seq<string>, msg: string, p: int)
    requires ReplyEnding(msg, p) && !MayBeRepeated(msg, p) && |chunks| == 1
    requires Pieces(chunks, msg) && |rooms| == |chunks| && s.data == "" && !s.complete
    ensures OnlyLast(Results(s, chunks, rooms))
    ensures Final(s, chunks, rooms) == State(msg, CodeAt(msg, p), CodeAt(msg, p) != 550)
  {
    assert Concat(chunks) == chunks[0];
    Completed(s, chunks[0], rooms[0], msg, p);
  }

  /** The first of several chunks. */
  lemma FirstChunk(s: State, chunks: seq<string>, rooms: seq<string>, msg: string, p: int)
    requires ReplyEnding(msg, p) && !MayBeRepeated(msg, p) && |chunks| > 1
    requires Pieces(chunks, msg) && |rooms| == |chunks| && s.data == "" && !s.complete
    ensures OnlyLast(Results(s, chunks, rooms)) <==> |chunks[0]| < 3 || ThreeDigits(chunks[0], 0)
    ensures OnlyLast(Results(s, chunks, rooms)) ==>
      Final(s, chunks, rooms) == State(msg, CodeAt(msg, p), CodeAt(msg, p) != 550)
  {
    hide ReplyEnding, MayBeRepeated, Step, Results, Final, OnlyLast;
    FirstPiece(chunks, msg);
    Unroll(s, chunks, rooms);
    var k := |chunks[0]|;
    assert s.data + chunks[0] == msg[..k];
    Waiting(s, chunks[0], rooms[0], msg, p, k);
    if k < 3 || ThreeDigits(chunks[0], 0) {
      RestOfReply(State(msg[..k], s.code, s.complete), chunks[1..], rooms[1..], msg, p);
    }
  }

  /** How a reply is cut into chunks makes no difference: every call but the last answers no and the last
      yes, exactly when it comes in one piece, or its first chunk is under three bytes or starts with a
      code; and then the buffer holds the whole reply and the code is that of its last line. */
  lemma FragmentationIndependence(s: State, chunks: seq<string>, rooms: seq<string>, msg: string, p: int)
    requires ReplyEnding(msg, p) && !MayBeRepeated(msg, p)
    requires Pieces(chunks, msg) && |rooms| == |chunks| && s.data == "" && !s.complete
    ensures OnlyLast(Results(s, chunks, rooms))
       <==> |chunks| == 1 || |chunks[0]| < 3 || ThreeDigits(chunks[0], 0)
    ensures OnlyLast(Results(s, chunks, rooms)) ==>
      Final(s, chunks, rooms) == State(msg, CodeAt(msg, p), CodeAt(msg, p) != 550)
  {
    hide ReplyEnding, MayBeRepeated, Step, Results, Final, OnlyLast;
    if |chunks| == 1 {
      OnlyChunk(s, chunks, rooms, msg, p);
    } else {
      FirstChunk(s, chunks, rooms, msg, p);
    }
  }

  /** A reply that starts with a code, so that no split of it is misjudged. */
  lemma CodedReplyAnySplit(s: State, chunks: seq<string>, rooms: seq<string>, msg: string, p: int)
    requires ReplyEnding(msg, p) && !MayBeRepeated(msg, p) && ThreeDigits(msg, 0)
    requires Pieces(chunks, msg) && |rooms| == |chunks| && s.data == "" && !s.complete
    ensures OnlyLast(Results(s, chunks, rooms))
    ensures Final(s, chunks, rooms) == State(msg, CodeAt(msg, p), CodeAt(msg, p) != 550)
  {
    FragmentationIndependence(s, chunks, rooms, msg, p);
    if |chunks| > 1 && |chunks[0]| >= 3 {
      FirstPiece(chunks, msg);
      assert chunks[0][0] == msg[0] && chunks[0][1] == msg[1] && chunks[0][2] == msg[2];
    }
  }

  // ---- replies as section 4.2 of RFC 959 has them ----

  /** A line is opened at i by three digits and a blank, or consists of them, and one more character follows. */
  predicate CodeLineAt(s: string, i: nat) {
    && i + 5 <= |s| && LineStart(s, i)
    && IsDigit(s[i]) && IsDigit(s[i + 1]) && IsDigit(s[i + 2]) && (s[i + 3] == ' ' || s[i + 3] == '\n')
  }

  /** A call looks only at a text that ends a line, and there reports the last such line. */
  lemma {:induction false} ReportsLast(s: string)
    ensures var r := Reported(s);
      && (r >= 0 ==> s[|s| - 1] == '\n' && CodeLineAt(s, r))
      && (s != "" && s[|s| - 1] == '\n' ==> forall i: nat :: i > r ==> !CodeLineAt(s, i))
  {
    if s != "" && s[|s| - 1] == '\n' {
      NoneLater(s, |s| - 5);
    }
  }

  lemma {:induction false} NoneLater(s: string, k: int)
    ensures forall i: nat :: LastCodeLine(s, k) < i <= k ==> !CodeLineAt(s, i)
    decreases if k < 0 then 0 else k + 1
  {
    if k >= 0 && !CodeLine(s, k) {
      NoneLater(s, k - 1);
    }
  }

  /** What three digits of a text say. */
  lemma CodeIsNumber(s: string, i: int)
    requires ThreeDigits(s, i)
    ensures Stoi(s[i..i + 3]) == Some(CodeAt(s, i))
  {
    var t := s[i..i + 3];
    assert t[0] == s[i] && t[1..][0] == s[i + 1] && t[1..][1..][0] == s[i + 2] && t[1..][1..][1..] == "";
    assert SkipSpace(t) == t;
    assert ReadDigits(t[1..][1..], Digit(s[i]) * 10 + Digit(s[i + 1])) == CodeAt(s, i);
    assert ReadDigits(t[1..], Digit(s[i])) == CodeAt(s, i);
  }

  lemma PrintedCode(n: nat)
    requires 100 <= n <= 999
    ensures |ToString(n)| == 3 && ThreeDigits(ToString(n), 0) && CodeAt(ToString(n), 0) == n
  {
    assert NatToString(n / 10) == NatToString(n / 100) + [DigitChar(n / 10 % 10)];
    assert NatToString(n) == NatToString(n / 10) + [DigitChar(n % 10)];
    ToStringIsPlain(n);
    ReadBack(n, "");
    assert ToString(n) + "" == ToString(n)[0..3] == ToString(n);
    CodeIsNumber(ToString(n), 0);
  }

  /** A line starts at i. */
  predicate LineStart(msg: string, i: nat) { i <= |msg| && (i == 0 || msg[i - 1] == '\n') }

  /** A reply with code n whose last line starts at p: the code and a blank open that line; several lines are opened by
      the code and a hyphen, and none in between begins with three digits and a blank or a line end. */
  ghost predicate RfcReply(msg: string, p: nat, n: nat) {
    && 100 <= n <= 999 && LineStart(msg, p) && ToString(n) + " " <= msg[p..]
    && |msg| >= p + 5 && msg[|msg| - 1] == '\n' && (forall i :: p <= i < |msg| - 1 ==> msg[i] != '\n')
    && (p > 0 ==> ToString(n) + "-" <= msg)
    && forall i: nat :: i < p && LineStart(msg, i) ==>
      !(IsDigit(msg[i]) && IsDigit(msg[i + 1]) && IsDigit(msg[i + 2]) && msg[i + 3] in {' ', '\n'})
  }

  lemma CodeOpens(msg: string, p: nat, n: nat, c: char)
    requires p <= |msg| && 100 <= n <= 999 && ToString(n) + [c] <= msg[p..]
    ensures ThreeDigits(msg, p) && CodeAt(msg, p) == n && p + 4 <= |msg| && msg[p + 3] == c
  {
    hide ToString;
    PrintedCode(n);
    var code := ToString(n);
    assert code[0] == msg[p] && code[1] == msg[p + 1] && code[2] == msg[p + 2] && (code + [c])[3] == msg[p + 3];
  }

  lemma NoneBefore(msg: string, p: nat, n: nat, i: int)
    requires RfcReply(msg, p, n) && i < p
    ensures !CodeLine(msg, i)
  {
    assert i >= 0 && LineStart(msg, i) ==>
      !(IsDigit(msg[i]) && IsDigit(msg[i + 1]) && IsDigit(msg[i + 2]) && msg[i + 3] in {' ', '\n'});
  }

  lemma LastLineOpens(msg: string, p: nat, n: nat)
    requires RfcReply(msg, p, n)
    ensures CodeLine(msg, p) && CodeAt(msg, p) == n
  {
    hide ToString, CodeAt;
    CodeOpens(msg, p, n, ' ');
  }

  lemma FirstLineOpens(msg: string, p: nat, n: nat)
    requires RfcReply(msg, p, n)
    ensures ThreeDigits(msg, 0)
  {
    hide ToString, CodeAt;
    assert msg[0..] == msg;
    CodeOpens(msg, 0, n, if p > 0 then '-' else ' ');
  }

  lemma RfcReplyEnds(msg: string, p: nat, n: nat)
    requires RfcReply(msg, p, n)
    ensures ReplyEnding(msg, p) && ThreeDigits(msg, 0) && CodeAt(msg, p) == n
  {
    hide RfcReply, CodeLine, CodeAt, ToString, ThreeDigits;
    LastLineOpens(msg, p, n);
    FirstLineOpens(msg, p, n);
    LastLineAlone(msg, p, n);
    forall i | i < p ensures !CodeLine(msg, i) {
      NoneBefore(msg, p, n, i);
    }
  }

  lemma LastLineAlone(msg: string, p: nat, n: nat)
    requires RfcReply(msg, p, n)
    ensures p < |msg| && msg[|msg| - 1] == '\n' && forall i :: p <= i < |msg| - 1 ==> msg[i] != '\n'
  {
  }

  /** No split of such a reply is ever misjudged: every call but the last answers no and the last yes, and then the
      buffer holds the whole reply and the code is its number. */
  lemma RfcReplyAnySplit(s: State, chunks: seq<string>, rooms: seq<string>, msg: string, p: nat, n: nat)
    requires RfcReply(msg, p, n) && (n == 550 ==> CodeLine(msg, p) && !MayBeRepeated(msg, p))
    requires Pieces(chunks, msg) && |rooms| == |chunks| && s.data == "" && !s.complete
    ensures OnlyLast(Results(s, chunks, rooms))
    ensures Final(s, chunks, rooms) == State(msg, n, n != 550)
  {
    hide RfcReply, ReplyEnding, Results, Final, OnlyLast, CodeAt;
    RfcReplyEnds(msg, p, n);
    CodedReplyAnySplit(s, chunks, rooms, msg, p);
  }
}
