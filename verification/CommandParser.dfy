/** The collector of client commands: a growing buffer that is complete once a chunk ends a line. */
module CommandParser {
  import opened Text
  import opened Fields

  const DATA_BUF_SIZE := 256

  // ---- what the calls do, on values ----

  datatype State = State(data: string, complete: bool)

  const EMPTY := State("", false)

  predicate EndsWithLine(chunk: string) { chunk != "" && chunk[|chunk| - 1] == '\n' }

  function Step(s: State, chunk: string): State
    requires chunk != ""
  {
    State(s.data + chunk, s.complete || EndsWithLine(chunk))
  }

  predicate Filled(chunks: seq<string>) { forall i :: 0 <= i < |chunks| ==> chunks[i] != "" }

  function Collected(s: State, chunks: seq<string>): State
    requires Filled(chunks)
    decreases |chunks|
  {
    if chunks == [] then s else Collected(Step(s, chunks[0]), chunks[1..])
  }

  /** However a command is cut into chunks, all of it is collected, and it is complete exactly when some chunk
      ends with a line end. */
  lemma {:induction false} AllCollected(s: State, chunks: seq<string>)
    requires Filled(chunks)
    ensures Collected(s, chunks).data == s.data + Concat(chunks)
    ensures Collected(s, chunks).complete <==> s.complete || exists i :: 0 <= i < |chunks| && EndsWithLine(chunks[i])
    decreases |chunks|
  {
    if chunks == [] {
      assert s.data + Concat(chunks) == s.data;
    } else {
      AllCollected(Step(s, chunks[0]), chunks[1..]);
      assert forall i :: 1 <= i < |chunks| ==> chunks[i] == chunks[1..][i - 1];
      assert s.data + Concat(chunks) == (s.data + chunks[0]) + Concat(chunks[1..]);
    }
  }

  predicate EndsLine(c: char) { c == '\n' || c == '\r' }

  /** Without the line ends at its end. */
  function Trimmed(s: string): (r: string)
    ensures r <= s && (r == "" || !EndsLine(r[|r| - 1])) && forall i :: |r| <= i < |s| ==> EndsLine(s[i])
  {
    if s == "" || !EndsLine(s[|s| - 1]) then s else Trimmed(s[..|s| - 1])
  }

  function UpperChar(c: char): char { if 'a' <= c <= 'z' then c - 'a' + 'A' else c }

  function Upper(s: string): (r: string)
    ensures |r| == |s| && forall i :: 0 <= i < |s| ==> r[i] == UpperChar(s[i])
  {
    seq(|s|, i requires 0 <= i < |s| => UpperChar(s[i]))
  }

  function TrimmedUpper(s: string): string { Upper(Trimmed(s)) }

  lemma {:induction false} TrimmedIs(s: string, n: nat)
    requires n <= |s| && (n == 0 || !EndsLine(s[n - 1])) && forall i :: n <= i < |s| ==> EndsLine(s[i])
    ensures Trimmed(s) == s[..n]
  {
    if n < |s| {
      TrimmedIs(s[..|s| - 1], n);
      assert s[..|s| - 1][..n] == s[..n];
    }
  }

  /** The line end goes, whatever its form, and letters become capitals. */
  lemma CommandOfLine()
    ensures TrimmedUpper("pasv\r\n") == "PASV" && TrimmedUpper("Epsv 2\n") == "EPSV 2" && TrimmedUpper("\r\n") == ""
  {
    TrimmedIs("pasv\r\n", 4);
    TrimmedIs("Epsv 2\n", 6);
    TrimmedIs("\r\n", 0);
    assert "pasv\r\n"[..4] == "pasv" && "Epsv 2\n"[..6] == "Epsv 2";
    assert Upper("pasv") == "PASV" && Upper("Epsv 2") == "EPSV 2";
  }

  class FTPCommandParser {
    var databuflen: nat
    var databuf: array<char>
    var databufpos: nat
    var complete: bool

    ghost predicate Valid()
      reads this, databuf
    {
      databuf.Length == databuflen && databuflen > 0 && databufpos <= databuflen
    }

    ghost function Value(): State
      reads this, databuf
      requires Valid()
    {
      State(databuf[..databufpos], complete)
    }

    constructor ()
      ensures Valid() && Value() == EMPTY && fresh(databuf)
    {
      databuflen := DATA_BUF_SIZE;
      databuf := new char[DATA_BUF_SIZE];
      databufpos := 0;
      complete := false;
    }

    method Reset()
      requires Valid()
      modifies this
      ensures Valid() && databuf == old(databuf) && Value() == EMPTY
    {
      databufpos := 0;
      complete := false;
    }

    /** Makes room by doubling. */
    method Grow(newdatalen: nat)
      requires Valid()
      modifies this
      ensures Valid() && databufpos + newdatalen <= databuflen && Value() == old(Value())
      ensures databufpos == old(databufpos) && (databuf == old(databuf) || fresh(databuf))
    {
      if databufpos + newdatalen > databuflen {
        while databufpos + newdatalen > databuflen
          invariant databuf.Length <= databuflen && databuflen > 0
          invariant databufpos == old(databufpos) && databuf == old(databuf) && complete == old(complete)
          decreases databufpos + newdatalen - databuflen
        {
          databuflen := databuflen * 2;
        }
        var newdatabuf := new char[databuflen];
        forall i | 0 <= i < databufpos {
          newdatabuf[i] := databuf[i];
        }
        databuf := newdatabuf;
        assert databuf[..databufpos] == old(databuf[..databufpos]);
      }
    }

    method Parse(newdata: string) returns (r: bool)
      requires Valid() && newdata != ""
      modifies this, databuf
      ensures Valid() && (databuf == old(databuf) || fresh(databuf))
      ensures Value() == Step(old(Value()), newdata) && r == complete
    {
      Grow(|newdata|);
      ghost var before := databuf[..databufpos];
      forall i | 0 <= i < |newdata| {
        databuf[databufpos + i] := newdata[i];
      }
      assert databuf[..databufpos] == before;
      databufpos := databufpos + |newdata|;
      assert databuf[..databufpos] == before + newdata;
      if databuf[databufpos - 1] == '\n' {
        complete := true;
      }
      r := complete;
    }

    method CommandTrimmedUpper() returns (command: string)
      requires Valid()
      ensures command == TrimmedUpper(Value().data)
    {
      var whole := databuf[..databufpos];
      command := whole;
      var cutafterpos: int := |command| - 1;
      while cutafterpos >= 0 && (command[cutafterpos] == '\n' || command[cutafterpos] == '\r')
        invariant -1 <= cutafterpos < |command| && command == whole
        invariant forall i :: cutafterpos < i < |whole| ==> EndsLine(whole[i])
      {
        cutafterpos := cutafterpos - 1;
      }
      TrimmedIs(whole, cutafterpos + 1);
      var i := 0;
      while i <= cutafterpos
        invariant 0 <= i <= cutafterpos + 1 && |command| == |whole|
        invariant forall k :: 0 <= k < i ==> command[k] == UpperChar(whole[k])
        invariant forall k :: i <= k < |whole| ==> command[k] == whole[k]
      {
        command := command[i := UpperChar(command[i])];
        i := i + 1;
      }
      command := command[..cutafterpos + 1];
      assert command == Upper(whole[..cutafterpos + 1]);
    }
  }

  lemma Regroup<T>(xs: seq<T>, y: T, zs: seq<T>)
    ensures xs + ([y] + zs) == xs + [y] + zs
  {
  }

  /** One word more is cut off. */
  lemma {:induction false} WordCut(text: string, start: nat, end: int, words: seq<string>)
    requires start <= |text| && end == Find(text, ' ', start) && end != NPOS
    requires words + Split(text[start..], ' ') == Split(text, ' ')
    ensures start <= end < |text| && words + [text[start..end]] + Split(text[end + 1..], ' ') == Split(text, ' ')
  {
    hide Split, Text.Find, First;
    EndsBehind(text, start);
    NextField(text, ' ', start);
    Regroup(words, text[start..end], Split(text[end + 1..], ' '));
  }

  lemma {:induction false} EndsBehind(text: string, start: nat)
    ensures Find(text, ' ', start) != NPOS ==> start <= Find(text, ' ', start) < |text|
  {
  }

  /** The words of a command between single blanks. */
  method SplitVec(text: string) returns (words: seq<string>)
    ensures words == Split(text, ' ')
  {
    hide Split;
    words := [];
    var start := 0;
    var end := Find(text, ' ', start);
    assert text[0..] == text && words + Split(text, ' ') == Split(text, ' ');
    while end != NPOS
      invariant 0 <= start <= |text| && end == Find(text, ' ', start)
      invariant words + Split(text[start..], ' ') == Split(text, ' ')
      decreases |text| - start
    {
      WordCut(text, start, end, words);
      words := words + [text[start..end]];
      start := end + 1;
      end := Find(text, ' ', start);
    }
    NextField(text, ' ', start);
    words := words + [text[start..]];
  }

  /** PORT or EPRT has no second word exactly when it is all there is. */
  lemma NoSecondWord(command: string)
    ensures var words := Split(command, ' ');
      words[0] in {"PORT", "EPRT"} && |words| == 1 <==> command in {"PORT", "EPRT"}
  {
    FindFirstField(command, ' ');
    var words := Split(command, ' ');
    if Find(command, ' ', 0) != NPOS {
      assert |words| == 1 + |Split(command[Find(command, ' ', 0) + 1..], ' ')|;
    }
    if command in {"PORT", "EPRT"} {
      OneField(command, ' ');
    }
  }
}
