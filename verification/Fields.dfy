/** Cutting a text at a separator, and the laws that relate cuts to `find`. */
module Fields {
  import opened Text

  /** The fields of s between occurrences of c; never empty. */
  function Split(s: string, c: char): (r: seq<string>)
    ensures |r| > 0
  {
    if s == "" then [""]
    else
      var rest := Split(s[1..], c);
      if s[0] == c then [""] + rest else [[s[0]] + rest[0]] + rest[1..]
  }

  function Unsplit(fields: seq<string>, c: char): string {
    if fields == [] then ""
    else if |fields| == 1 then fields[0]
    else fields[0] + [c] + Unsplit(fields[1..], c)
  }

  function CountOf(s: string, c: char): nat {
    if s == "" then 0 else (if s[0] == c then 1 else 0) + CountOf(s[1..], c)
  }

  lemma CutAt<T>(s: seq<T>, k: nat)
    requires k < |s|
    ensures s == s[..k] + [s[k]] + s[k + 1..]
  {
  }

  lemma DropOne<T>(s: seq<T>, k: nat)
    requires 0 < k <= |s|
    ensures s[k - 1] == s[k - 1..][0] && s[k..] == s[k - 1..][1..]
  {
  }

  lemma {:induction false} FieldsHaveNoSeparator(s: string, c: char)
    ensures forall i :: 0 <= i < |Split(s, c)| ==> c !in Split(s, c)[i]
  {
    if s != "" {
      FieldsHaveNoSeparator(s[1..], c);
    }
  }

  lemma {:induction false} OneField(s: string, c: char)
    requires c !in s
    ensures Split(s, c) == [s]
  {
    if s != "" {
      assert s[0] in s && s == [s[0]] + s[1..];
      OneField(s[1..], c);
    }
  }

  lemma {:induction false} SplitAtSeparator(x: string, c: char, y: string)
    ensures Split(x + [c] + y, c) == Split(x, c) + Split(y, c)
  {
    var s := x + [c] + y;
    if x == "" {
      assert s[1..] == y;
    } else {
      assert s[1..] == x[1..] + [c] + y;
      SplitAtSeparator(x[1..], c, y);
    }
  }

  /** `find` delivers the first field and leaves the other fields behind it. */
  lemma {:induction false} FindFirstField(s: string, c: char)
    ensures Find(s, c, 0) == NPOS ==> Split(s, c) == [s]
    ensures Find(s, c, 0) != NPOS ==>
      Split(s, c) == [s[..Find(s, c, 0)]] + Split(s[Find(s, c, 0) + 1..], c)
  {
    var f := Find(s, c, 0);
    if f == NPOS {
      OneField(s, c);
    } else {
      OneField(s[..f], c);
      SplitAtSeparator(s[..f], c, s[f + 1..]);
      CutAt(s, f);
    }
  }

  lemma {:induction false} FindInSuffix(s: string, c: char, from: nat)
    requires from <= |s|
    ensures Find(s, c, from) == if Find(s[from..], c, 0) == NPOS then NPOS else from + Find(s[from..], c, 0)
  {
    var f := Find(s[from..], c, 0);
    assert forall i :: from <= i < |s| ==> s[i] == s[from..][i - from];
    assert First(s, c, from, if f == NPOS then NPOS else from + f);
  }

  /** A search from position p on splits the rest of the text. */
  lemma NextField(s: string, c: char, p: nat)
    requires p <= |s|
    ensures Find(s, c, p) == NPOS ==> Split(s[p..], c) == [s[p..]]
    ensures Find(s, c, p) != NPOS ==>
      Split(s[p..], c) == [s[p..Find(s, c, p)]] + Split(s[Find(s, c, p) + 1..], c)
  {
    FindInSuffix(s, c, p);
    FindFirstField(s[p..], c);
    var f := Find(s, c, p);
    if f != NPOS {
      assert s[p..][..f - p] == s[p..f];
      assert s[p..][f - p + 1..] == s[f + 1..];
    }
  }

  /** Where field n starts when one separator after the other is searched for; npos when there are
      not so many. */
  function FieldStart(s: string, c: char, n: nat): (r: int)
    ensures r == NPOS || 0 <= r <= |s|
  {
    if n == 0 then 0
    else
      var before := FieldStart(s, c, n - 1);
      if before == NPOS || Find(s, c, before) == NPOS then NPOS else Find(s, c, before) + 1
  }

  ghost predicate StartsAt(s: string, c: char, n: nat, p: int) {
    p == FieldStart(s, c, n) && p != NPOS
  }

  /** The searches find exactly the fields. */
  lemma {:induction false} FieldsFound(s: string, c: char, n: nat, p: int)
    requires StartsAt(s, c, n, p)
    ensures 0 <= p <= |s| && n < |Split(s, c)| && Split(s, c)[n..] == Split(s[p..], c)
  {
    var f := Split(s, c);
    if n == 0 {
      assert f[0..] == f && s[0..] == s;
    } else {
      var q := FieldStart(s, c, n - 1);
      FieldsFound(s, c, n - 1, q);
      NextField(s, c, q);
      DropOne(f, n);
    }
  }

  /** A search from the start of a field finds the start of the next one, or that there is none. */
  lemma NextStart(s: string, c: char, n: nat, p: int)
    requires StartsAt(s, c, n, p)
    ensures 0 <= p <= |s|
    ensures Find(s, c, p) == NPOS ==> |Split(s, c)| == n + 1
    ensures Find(s, c, p) != NPOS ==> StartsAt(s, c, n + 1, Find(s, c, p) + 1)
  {
    FieldsFound(s, c, n, p);
    NextField(s, c, p);
  }

  /** The field between two separators. */
  lemma FieldAt(s: string, c: char, n: nat, p: int, q: int)
    requires StartsAt(s, c, n, p) && 0 <= p <= |s| && q == Find(s, c, p) && q != NPOS
    ensures p <= q < |s| && n + 1 < |Split(s, c)| && Split(s, c)[n] == s[p..q]
  {
    FieldsFound(s, c, n, p);
    NextField(s, c, p);
    assert |Split(s, c)[n..]| == |Split(s, c)| - n;
    assert Split(s, c)[n] == Split(s, c)[n..][0];
  }

  lemma FieldText(s: string, c: char, n: nat, p: int, q: int)
    requires StartsAt(s, c, n, p) && 0 <= p <= |s| && q == Find(s, c, p) && q != NPOS
    ensures p <= q < |s| && n + 1 < |Split(s, c)| && Split(s, c)[n] == Substr(s, p, q - p)
  {
    FieldAt(s, c, n, p, q);
  }

  /** The last field looked at may itself be followed by more. */
  lemma FieldOnward(s: string, c: char, n: nat, p: int)
    requires StartsAt(s, c, n, p)
    ensures 0 <= p <= |s| && n < |Split(s, c)| && Split(s, c)[n] == Split(s[p..], c)[0]
  {
    FieldsFound(s, c, n, p);
    assert Split(s, c)[n] == Split(s, c)[n..][0];
  }

  lemma {:induction false} SplitCount(s: string, c: char)
    ensures |Split(s, c)| == 1 + CountOf(s, c)
  {
    if s != "" {
      SplitCount(s[1..], c);
    }
  }

  /** Rejoining the fields with another separator replaces the separator. */
  lemma {:induction false} UnsplitReplaces(s: string, c: char, d: char)
    ensures Unsplit(Split(s, c), d) == Replace(s, c, d)
  {
    if s == "" {
      assert Replace(s, c, d) == "";
    } else {
      UnsplitReplaces(s[1..], c, d);
      assert Replace(s, c, d) == [if s[0] == c then d else s[0]] + Replace(s[1..], c, d);
      UnsplitGrows(Split(s[1..], c), s[0], d);
    }
  }

  lemma UnsplitGrows(fields: seq<string>, a: char, d: char)
    requires |fields| > 0
    ensures Unsplit([""] + fields, d) == [d] + Unsplit(fields, d)
    ensures Unsplit([[a] + fields[0]] + fields[1..], d) == [a] + Unsplit(fields, d)
  {
    assert ([""] + fields)[1..] == fields;
    assert ([[a] + fields[0]] + fields[1..])[1..] == fields[1..];
  }

  /** A number is read up to the separator only. */
  lemma StoiStopsAt(x: string, c: char, y: string)
    requires !IsDigit(c) && !IsSpace(c) && c != '-' && c != '+'
    ensures Stoi(x + [c] + y) == Stoi(x)
  {
    SkipSpaceStops(x, c, y);
    var z := SkipSpace(x);
    var s := z + [c] + y;
    var signed := z != "" && (z[0] == '-' || z[0] == '+');
    var body := if signed then z[1..] else z;
    assert (if signed then s[1..] else s) == body + [c] + y;
    ReadDigitsStops(body, c, y, 0);
    assert ReadNumber(s) == ReadNumber(z);
  }

  lemma {:induction false} SkipSpaceStops(x: string, c: char, y: string)
    requires !IsSpace(c)
    ensures SkipSpace(x + [c] + y) == SkipSpace(x) + [c] + y
  {
    if x != "" && IsSpace(x[0]) {
      assert (x + [c] + y)[1..] == x[1..] + [c] + y;
      SkipSpaceStops(x[1..], c, y);
    }
  }

  lemma {:induction false} ReadDigitsStops(x: string, c: char, y: string, acc: nat)
    requires !IsDigit(c)
    ensures ReadDigits(x + [c] + y, acc) == ReadDigits(x, acc)
  {
    if x != "" && IsDigit(x[0]) {
      assert (x + [c] + y)[1..] == x[1..] + [c] + y;
      ReadDigitsStops(x[1..], c, y, 10 * acc + (x[0] as int - '0' as int));
    }
  }
}
