/** The wildcard matcher of the core library: a backtracking loop that remembers only its last star,
    proved equal to the declarative meaning of a pattern. */
module Wildcard {
  type CString = s: string | '\0' !in s

  /** Reading through a pointer: the terminating NUL sits at index |s|. */
  function At(s: CString, i: nat): char
    requires i <= |s|
  {
    if i < |s| then s[i] else '\0'
  }

  predicate IsUpper(c: char) { 'A' <= c <= 'Z' }

  predicate IsLower(c: char) { 'a' <= c <= 'z' }

  function FoldChar(c: char): char {
    if IsUpper(c) then c + 32 as char else c
  }

  /** ASCII case folding. */
  function Fold(s: CString): (r: CString)
    ensures |r| == |s| && forall i :: 0 <= i < |s| ==> r[i] == FoldChar(s[i])
  {
    seq(|s|, i requires 0 <= i < |s| => FoldChar(s[i]))
  }

  /** Two characters are the same but for case when they are the same, or the small and the capital form of a letter. */
  lemma FoldsLetters(c: char, d: char)
    ensures FoldChar(c) == FoldChar(d) <==>
      c == d || ('A' <= c <= 'Z' && d as int == c as int + 32) || ('A' <= d <= 'Z' && c as int == d as int + 32)
  {
  }

  // ---- what a pattern means ----

  /** The text a single pattern character may stand for. */
  ghost predicate StandsFor(c: char, part: string) {
    c == '*' || (|part| == 1 && (c == '?' || c == part[0]))
  }

  ghost function Join(parts: seq<string>): string {
    if parts == [] then "" else parts[0] + Join(parts[1..])
  }

  ghost predicate Expands(pattern: string, parts: seq<string>) {
    |parts| == |pattern| && forall i :: 0 <= i < |parts| ==> StandsFor(pattern[i], parts[i])
  }

  /** A text matches when it is cut into parts, one for each pattern character. */
  ghost predicate Glob(pattern: string, text: string) {
    exists parts :: Expands(pattern, parts) && Join(parts) == text
  }

  // ---- the same by position ----

  predicate Same(c: char, d: char, nocase: bool) {
    c == d || (nocase && FoldChar(c) == FoldChar(d))
  }

  /** The pattern from w on matches the text from i on. */
  ghost predicate Match(p: string, w: nat, s: string, i: nat, nocase: bool)
    requires w <= |p| && i <= |s|
    decreases |p| - w
  {
    if w == |p| then i == |s|
    else if p[w] == '*' then var next := w + 1; exists k: nat :: i <= k <= |s| && Match(p, next, s, k, nocase)
    else i < |s| && (p[w] == '?' || Same(p[w], s[i], nocase)) && Match(p, w + 1, s, i + 1, nocase)
  }

  /** The pattern from w on matches the text from some position at or after i. */
  ghost predicate MatchBeyond(p: string, w: nat, s: string, i: nat, nocase: bool)
    requires w <= |p|
  {
    exists k: nat :: i <= k <= |s| && Match(p, w, s, k, nocase)
  }

  ghost predicate StarFree(p: string, from: nat, to: nat) {
    forall k :: from <= k < to && k < |p| ==> p[k] != '*'
  }

  /** A stretch without stars matches character by character. */
  lemma {:induction false} MatchThroughStarFree(p: string, m: nat, w: nat, s: string, k: nat, nocase: bool)
    requires m <= w <= |p| && k <= |s|
    requires StarFree(p, m, w) && Match(p, m, s, k, nocase)
    ensures k + (w - m) <= |s| && Match(p, w, s, k + (w - m), nocase)
    decreases w - m
  {
    if m < w {
      assert p[m] != '*';
      MatchThroughStarFree(p, m + 1, w, s, k + 1, nocase);
    }
  }

  /** At the next star the earliest position reached is as good as any later one. */
  lemma EarliestSuffices(p: string, m: nat, w: nat, s: string, i: nat, cp: nat, nocase: bool)
    requires m <= w < |p| && i <= |s| && i - (w - m) < cp
    requires StarFree(p, m, w) && p[w] == '*' && MatchBeyond(p, m, s, cp, nocase)
    ensures Match(p, w, s, i, nocase)
  {
    var k: nat :| cp <= k <= |s| && Match(p, m, s, k, nocase);
    MatchThroughStarFree(p, m, w, s, k, nocase);
  }

  /** Once the text is used up no later start of the stretch can fit. */
  lemma NothingBeyond(p: string, m: nat, w: nat, s: string, cp: nat, nocase: bool)
    requires m <= w <= |p| && |s| - (w - m) < cp
    requires StarFree(p, m, w)
    ensures !MatchBeyond(p, m, s, cp, nocase)
  {
    if MatchBeyond(p, m, s, cp, nocase) {
      var k: nat :| cp <= k <= |s| && Match(p, m, s, k, nocase);
      MatchThroughStarFree(p, m, w, s, k, nocase);
      assert false;
    }
  }

  /** From a position on: either right here or further on. */
  lemma BeyondUnfold(p: string, w: nat, s: string, i: nat, nocase: bool)
    requires w <= |p| && i <= |s|
    ensures MatchBeyond(p, w, s, i, nocase) == (Match(p, w, s, i, nocase) || MatchBeyond(p, w, s, i + 1, nocase))
  {
  }

  // ---- both meanings agree ----

  lemma {:induction false} CutExists(p: CString, w: nat, s: string, i: nat) returns (parts: seq<string>)
    requires w <= |p| && i <= |s| && Match(p, w, s, i, false)
    ensures Expands(p[w..], parts) && Join(parts) == s[i..]
    decreases |p| - w
  {
    if w == |p| {
      parts := [];
    } else {
      var k: nat := i + 1;
      if p[w] == '*' {
        k :| i <= k <= |s| && Match(p, w + 1, s, k, false);
      }
      var rest := CutExists(p, w + 1, s, k);
      parts := [s[i..k]] + rest;
      assert p[w..][1..] == p[w + 1..] && parts[1..] == rest;
      assert s[i..k] + s[k..] == s[i..];
    }
  }

  lemma {:induction false} CutMatches(p: CString, w: nat, s: string, i: nat, parts: seq<string>)
    requires w <= |p| && i <= |s| && Expands(p[w..], parts) && Join(parts) == s[i..]
    ensures Match(p, w, s, i, false)
    decreases |p| - w
  {
    if w < |p| {
      var k := i + |parts[0]|;
      assert p[w..][1..] == p[w + 1..] && StandsFor(p[w..][0], parts[0]);
      assert s[i..] == parts[0] + Join(parts[1..]);
      assert s[k..] == s[i..][|parts[0]|..] == Join(parts[1..]);
      assert forall j :: 0 <= j < |parts| - 1 ==> StandsFor(p[w..][1..][j], parts[1..][j]) by {
        assert forall j :: 0 <= j < |parts| - 1 ==> p[w..][1..][j] == p[w..][j + 1] && parts[1..][j] == parts[j + 1];
      }
      CutMatches(p, w + 1, s, k, parts[1..]);
      if p[w] != '*' {
        assert parts[0][0] == s[i..][0] == s[i];
      }
    }
  }

  /** The positional relation is the declarative one. */
  lemma MatchIsGlob(p: CString, s: string)
    ensures Match(p, 0, s, 0, false) <==> Glob(p, s)
  {
    assert p[0..] == p && s[0..] == s;
    if Match(p, 0, s, 0, false) {
      var parts := CutExists(p, 0, s, 0);
    }
    if Glob(p, s) {
      var parts :| Expands(p, parts) && Join(parts) == s;
      CutMatches(p, 0, s, 0, parts);
    }
  }

  /** Matching without regard to case is matching the folded pattern against the folded text. */
  lemma {:induction false} FoldedMatch(p: CString, w: nat, s: CString, i: nat)
    requires w <= |p| && i <= |s|
    ensures Match(p, w, s, i, true) == Match(Fold(p), w, Fold(s), i, false)
    decreases |p| - w
  {
    if w < |p| {
      var v := w + 1;
      forall k: nat | i <= k <= |s|
        ensures Match(p, v, s, k, true) == Match(Fold(p), v, Fold(s), k, false)
      {
        FoldedMatch(p, v, s, k);
      }
    }
  }

  // ---- the matcher ----

  method WildcmpCase(wild: CString, text: CString) returns (r: bool)
    ensures r <==> Glob(wild, text)
  {
    MatchIsGlob(wild, text);
    r := Backtrack(wild, text, false);
  }

  method Wildcmp(wild: CString, text: CString) returns (r: bool)
    ensures r <==> Glob(Fold(wild), Fold(text))
  {
    MatchIsGlob(Fold(wild), Fold(text));
    FoldedMatch(wild, 0, text, 0);
    r := Backtrack(wild, text, true);
  }

  /** The test of one pattern character: `wildcmpCase` compares plainly, `wildcmp` lets a letter also
      match its other case. */
  predicate Fits(c: char, d: char, nocase: bool)
    ensures Fits(c, d, nocase) <==> c == '?' || Same(c, d, nocase)
  {
    c == d || c == '?' || (nocase && ((IsUpper(c) && c + 32 as char == d) || (IsLower(c) && c - 32 as char == d)))
  }

  /** The loops of `wildcmp` and `wildcmpCase`, which differ in the character test alone. */
  method Backtrack(wild: CString, text: CString, nocase: bool) returns (r: bool)
    ensures r <==> Match(wild, 0, text, 0, nocase)
  {
    var w: nat, i: nat := 0, 0;
    while At(text, i) != '\0' && At(wild, w) != '*'
      invariant w <= |wild| && i <= |text|
      invariant Match(wild, 0, text, 0, nocase) == Match(wild, w, text, i, nocase)
      decreases |text| - i
    {
      if !Fits(At(wild, w), At(text, i), nocase) {
        return false;
      }
      w, i := w + 1, i + 1;
    }
    var mp, cp := -1, -1; // null until the first star
    while At(text, i) != '\0'
      invariant w <= |wild| && i <= |text|
      invariant mp == -1 ==> i == |text| || At(wild, w) == '*'
      invariant mp == -1 ==> Match(wild, 0, text, 0, nocase) == Match(wild, w, text, i, nocase)
      invariant mp != -1 ==> 0 < cp <= i + 1 && 0 <= mp <= w && w - mp == i - (cp - 1) && StarFree(wild, mp, w)
      invariant mp != -1 ==>
        Match(wild, 0, text, 0, nocase) == (Match(wild, w, text, i, nocase) || MatchBeyond(wild, mp, text, cp, nocase))
      decreases |wild| - mp, |text| - cp, |text| - i
    {
      if At(wild, w) == '*' {
        if mp != -1 && MatchBeyond(wild, mp, text, cp, nocase) {
          EarliestSuffices(wild, mp, w, text, i, cp, nocase);
        }
        BeyondUnfold(wild, w + 1, text, i, nocase);
        w := w + 1;
        if At(wild, w) == '\0' {
          assert Match(wild, w, text, |text|, nocase);
          return true;
        }
        mp := w;
        cp := i + 1;
      } else if Fits(At(wild, w), At(text, i), nocase) {
        w, i := w + 1, i + 1;
      } else {
        BeyondUnfold(wild, mp, text, cp, nocase);
        w := mp;
        i, cp := cp, cp + 1;
      }
    }
    if mp != -1 {
      NothingBeyond(wild, mp, w, text, cp, nocase);
    }
    while At(wild, w) == '*'
      invariant w <= |wild|
      invariant Match(wild, 0, text, 0, nocase) == Match(wild, w, text, |text|, nocase)
      decreases |wild| - w
    {
      BeyondUnfold(wild, w + 1, text, |text|, nocase);
      w := w + 1;
    }
    r := At(wild, w) == '\0';
  }

  // ---- what the relation means, without its parts ----

  lemma Stars(text: string)
    ensures Glob("*", text)
  {
    var parts := [text];
    assert Join(parts) == text + Join([]) == text;
    assert Expands("*", parts);
  }

  lemma OneAny(text: string)
    ensures Glob("?", text) <==> |text| == 1
  {
    if Glob("?", text) {
      var parts :| Expands("?", parts) && Join(parts) == text;
      assert StandsFor('?', parts[0]) && parts[1..] == [] && Join(parts) == parts[0] + Join([]);
    }
    if |text| == 1 {
      assert Expands("?", [text]) && Join([text]) == text + Join([]) == text;
    }
  }

  /** A pattern without wildcards matches itself alone. */
  lemma {:induction false} Literal(pattern: string, text: string)
    requires '*' !in pattern && '?' !in pattern
    ensures Glob(pattern, text) <==> pattern == text
  {
    if Glob(pattern, text) {
      var parts :| Expands(pattern, parts) && Join(parts) == text;
      LiteralParts(pattern, parts);
    }
    if pattern == text {
      var parts := seq(|text|, i requires 0 <= i < |text| => [text[i]]);
      assert Expands(pattern, parts);
      LiteralParts(pattern, parts);
    }
  }

  lemma {:induction false} LiteralParts(pattern: string, parts: seq<string>)
    requires '*' !in pattern && '?' !in pattern && Expands(pattern, parts)
    ensures Join(parts) == pattern
    decreases |pattern|
  {
    if pattern != "" {
      assert pattern[0] in pattern && StandsFor(pattern[0], parts[0]);
      assert forall i :: 0 <= i < |parts[1..]| ==> StandsFor(pattern[1..][i], parts[1..][i]);
      LiteralParts(pattern[1..], parts[1..]);
      assert pattern == [pattern[0]] + pattern[1..];
    }
  }

  lemma {:induction false} JoinBoth(xs: seq<string>, ys: seq<string>)
    ensures Join(xs + ys) == Join(xs) + Join(ys)
  {
    if xs == [] {
      assert xs + ys == ys;
    } else {
      JoinBoth(xs[1..], ys);
      assert (xs + ys)[1..] == xs[1..] + ys && (xs + ys)[0] == xs[0];
      Regroup(xs[0], Join(xs[1..]), Join(ys));
    }
  }

  lemma Regroup(x: string, y: string, z: string)
    ensures x + (y + z) == (x + y) + z
  {
  }

  lemma {:induction false} ExpandsBoth(p: string, q: string, xs: seq<string>, ys: seq<string>)
    requires |xs| == |p|
    ensures Expands(p + q, xs + ys) <==> Expands(p, xs) && Expands(q, ys)
  {
    hide StandsFor;
    if Expands(p + q, xs + ys) {
      forall i | 0 <= i < |xs| ensures StandsFor(p[i], xs[i]) {
        assert (p + q)[i] == p[i] && (xs + ys)[i] == xs[i];
      }
      forall i | 0 <= i < |ys| ensures StandsFor(q[i], ys[i]) {
        assert (p + q)[|p| + i] == q[i] && (xs + ys)[|p| + i] == ys[i];
      }
    }
  }

  lemma {:induction false} CutBehind(p: string, q: string, text: string) returns (k: nat)
    requires Glob(p + q, text)
    ensures k <= |text| && Glob(p, text[..k]) && Glob(q, text[k..])
  {
    hide Join, Expands;
    var parts :| Expands(p + q, parts) && Join(parts) == text;
    SameNumber(p + q, parts);
    var xs, ys := parts[..|p|], parts[|p|..];
    assert xs + ys == parts;
    JoinBoth(xs, ys);
    ExpandsBoth(p, q, xs, ys);
    k := |Join(xs)|;
    assert text[..k] == Join(xs) && text[k..] == Join(ys);
  }

  lemma SameNumber(pattern: string, parts: seq<string>)
    requires Expands(pattern, parts)
    ensures |parts| == |pattern|
  {
  }

  lemma {:induction false} PutBehind(p: string, q: string, s: string, t: string)
    requires Glob(p, s) && Glob(q, t)
    ensures Glob(p + q, s + t)
  {
    hide Join, Expands;
    var xs :| Expands(p, xs) && Join(xs) == s;
    var ys :| Expands(q, ys) && Join(ys) == t;
    SameNumber(p, xs);
    JoinBoth(xs, ys);
    ExpandsBoth(p, q, xs, ys);
  }

  /** Two patterns one behind the other match what is cut into a match of the first and a match of the second. */
  lemma {:induction false} Behind(p: string, q: string, text: string)
    ensures Glob(p + q, text) <==> exists k: nat :: k <= |text| && Glob(p, text[..k]) && Glob(q, text[k..])
  {
    hide Glob;
    if Glob(p + q, text) {
      var k := CutBehind(p, q, text);
    }
    if exists k: nat :: k <= |text| && Glob(p, text[..k]) && Glob(q, text[k..]) {
      var k: nat :| k <= |text| && Glob(p, text[..k]) && Glob(q, text[k..]);
      PutBehind(p, q, text[..k], text[k..]);
      assert text[..k] + text[k..] == text;
    }
  }
}
