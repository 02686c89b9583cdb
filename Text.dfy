/**
 * String helpers standing in for the .NET and Go string library calls the core
 * relies on (IndexOf, Split, Join, Replace, TrimStart, ToLower). Each compares
 * characters exactly, one by one.
 */
module Text {

  /** `pat` occurs in `text` starting at index `i`. */
  predicate OccursAt(text: string, pat: string, i: int) {
    0 <= i && i + |pat| <= |text| && text[i..i + |pat|] == pat
  }

  /**
   * `text.IndexOf(pat, from)`, comparing characters exactly: the first index at or
   * after `from` where `pat` occurs, or -1 when there is none.
   */
  function IndexOf(text: string, pat: string, from: nat): (r: int)
    requires from <= |text|
    ensures r == -1 || (from <= r && OccursAt(text, pat, r))
    decreases |text| - from
  {
    if from + |pat| > |text| then -1
    else if text[from..from + |pat|] == pat then from
    else IndexOf(text, pat, from + 1)
  }

  /** `IndexOf` finds the first occurrence, and -1 exactly when there is none. */
  lemma {:induction false} IndexOfFirst(text: string, pat: string, from: nat)
    requires from <= |text|
    ensures var r := IndexOf(text, pat, from);
      (r == -1 <==> forall i :: from <= i ==> !OccursAt(text, pat, i))
      && (r != -1 ==> forall i :: from <= i < r ==> !OccursAt(text, pat, i))
    decreases |text| - from
  {
    if from + |pat| <= |text| && text[from..from + |pat|] != pat {
      IndexOfFirst(text, pat, from + 1);
      assert !OccursAt(text, pat, from);
    }
  }

  /** `n` copies of `c`. */
  function Repeat(c: char, n: nat): (r: string)
    ensures |r| == n
    ensures forall i :: 0 <= i < n ==> r[i] == c
  {
    if n == 0 then "" else [c] + Repeat(c, n - 1)
  }

  /** The length of the run of `c` characters in `text` starting at `from`. */
  function RunLength(text: string, from: nat, c: char): (n: nat)
    requires from <= |text|
    ensures from + n <= |text|
    ensures forall i :: from <= i < from + n ==> text[i] == c
    ensures from + n == |text| || text[from + n] != c
    decreases |text| - from
  {
    if from < |text| && text[from] == c then 1 + RunLength(text, from + 1, c) else 0
  }

  /** A run of exactly `n` characters `c` ends where the first other character is. */
  lemma {:induction false} RunLengthExact(text: string, from: nat, c: char, n: nat)
    requires from + n <= |text|
    requires forall i :: from <= i < from + n ==> text[i] == c
    requires from + n == |text| || text[from + n] != c
    ensures RunLength(text, from, c) == n
    decreases n
  {
    if n > 0 {
      RunLengthExact(text, from + 1, c, n - 1);
    }
  }

  /** `char.ToLower` restricted to ASCII letters (other characters are left as they are). */
  function AsciiLower(c: char): (r: char)
    ensures 'A' <= c <= 'Z' ==> r as int == c as int + 32
    ensures !('A' <= c <= 'Z') ==> r == c
    ensures !('A' <= r <= 'Z')
  {
    if 'A' <= c <= 'Z' then (c as int + 32) as char else c
  }

  /** `strings.ToLower` / `ToLowerInvariant` on ASCII text. */
  function LowerAscii(s: string): (r: string)
    ensures |r| == |s|
    ensures forall i :: 0 <= i < |s| ==> r[i] == AsciiLower(s[i])
  {
    if s == [] then [] else [AsciiLower(s[0])] + LowerAscii(s[1..])
  }

  lemma {:induction false} LowerAsciiIdempotent(s: string)
    ensures LowerAscii(LowerAscii(s)) == LowerAscii(s)
  {
  }

  /** The parts of `s` between the occurrences of `sep`, as `String.Split(char)` returns them. */
  function Split(s: string, sep: char): (parts: seq<string>)
    ensures |parts| >= 1
    ensures forall i :: 0 <= i < |parts| ==> sep !in parts[i]
    ensures JoinWith(parts, sep) == s
  {
    if |s| == 0 then [""]
    else
      var rest := Split(s[1..], sep);
      if s[0] == sep then [""] + rest
      else [[s[0]] + rest[0]] + rest[1..]
  }

  /** The parts separated by `sep`: the inverse of `Split`. */
  function JoinWith(parts: seq<string>, sep: char): string
    requires |parts| >= 1
  {
    if |parts| == 1 then parts[0] else parts[0] + [sep] + JoinWith(parts[1..], sep)
  }

  /** Splitting a joined list of separator-free parts gives the parts back. */
  lemma {:induction false} SplitJoinWith(parts: seq<string>, sep: char)
    requires |parts| >= 1
    requires forall i :: 0 <= i < |parts| ==> sep !in parts[i]
    ensures Split(JoinWith(parts, sep), sep) == parts
    decreases |parts|
  {
    if |parts| == 1 {
      SplitPrefix(parts[0], "", sep);
      assert parts[0] + "" == parts[0];
    } else {
      SplitJoinWith(parts[1..], sep);
      SplitAfterSeparator(parts[0], JoinWith(parts[1..], sep), sep);
      assert parts == [parts[0]] + parts[1..];
    }
  }

  /** A separator-free part followed by the separator splits off as the first part. */
  lemma {:induction false} SplitAfterSeparator(p: string, tail: string, sep: char)
    requires sep !in p
    ensures Split(p + [sep] + tail, sep) == [p] + Split(tail, sep)
  {
    var r := [sep] + tail;
    assert r[1..] == tail;
    assert Split(r, sep) == [""] + Split(tail, sep);
    SplitPrefix(p, r, sep);
    assert p + [sep] + tail == p + r;
    assert p + "" == p;
  }

  /** A separator-free prefix is glued onto the first part. */
  lemma {:induction false} SplitPrefix(p: string, r: string, sep: char)
    requires sep !in p
    ensures Split(p + r, sep) == [p + Split(r, sep)[0]] + Split(r, sep)[1..]
  {
    if |p| > 0 {
      SplitPrefix(p[1..], r, sep);
      var q := Split(r, sep);
      var rest := Split(p[1..] + r, sep);
      assert (p + r)[1..] == p[1..] + r;
      assert (p + r)[0] == p[0] && p[0] != sep;
      assert Split(p + r, sep) == [[p[0]] + rest[0]] + rest[1..];
      assert rest[0] == p[1..] + q[0] && rest[1..] == q[1..];
      assert [p[0]] + (p[1..] + q[0]) == p + q[0];
    } else {
      var q := Split(r, sep);
      assert p + r == r;
      assert p + q[0] == q[0];
      assert q == [q[0]] + q[1..];
    }
  }

  /** Joining one more part puts a separator before it. */
  lemma {:induction false} JoinWithSnoc(parts: seq<string>, last: string, sep: char)
    requires |parts| >= 1
    ensures JoinWith(parts + [last], sep) == JoinWith(parts, sep) + [sep] + last
    decreases |parts|
  {
    if |parts| == 1 {
      assert parts + [last] == [parts[0], last];
      assert [parts[0], last][1..] == [last];
    } else {
      assert (parts + [last])[1..] == parts[1..] + [last];
      JoinWithSnoc(parts[1..], last, sep);
    }
  }

  /** `string.Join(string.Empty, parts)`. */
  function Concat(parts: seq<string>): string {
    if |parts| == 0 then "" else parts[0] + Concat(parts[1..])
  }

  lemma {:induction false} ConcatAppend(a: seq<string>, b: seq<string>)
    ensures Concat(a + b) == Concat(a) + Concat(b)
  {
    if |a| == 0 {
      assert a + b == b;
    } else {
      ConcatAppend(a[1..], b);
      assert (a + b)[1..] == a[1..] + b;
    }
  }

  /** `s.Replace("\r\n", "\n")`: each CR LF pair, scanned left to right without overlap, becomes LF. */
  function NormalizeNewlines(s: string): (r: string)
    ensures |r| <= |s|
    ensures '\r' !in s ==> r == s
  {
    if |s| < 2 then s
    else if s[0] == '\r' && s[1] == '\n' then "\n" + NormalizeNewlines(s[2..])
    else [s[0]] + NormalizeNewlines(s[1..])
  }

  /** A prefix without CR is left as it is by `NormalizeNewlines`. */
  lemma {:induction false} NormalizeNewlinesAfter(a: string, rest: string)
    requires '\r' !in a
    ensures NormalizeNewlines(a + rest) == a + NormalizeNewlines(rest)
    decreases |a|
  {
    if a == [] {
      assert a + rest == rest;
    } else if |a + rest| < 2 {
      assert rest == [] && a + rest == a;
    } else {
      var s := a + rest;
      assert s[0] == a[0] && s[1..] == a[1..] + rest;
      assert a[0] in a;
      NormalizeNewlinesAfter(a[1..], rest);
      var n := NormalizeNewlines(rest);
      assert NormalizeNewlines(s) == [a[0]] + (a[1..] + n);
      assert [a[0]] + (a[1..] + n) == ([a[0]] + a[1..]) + n;
      assert [a[0]] + a[1..] == a;
    }
  }

  /** `s.TrimStart(cs)`: `s` without its longest prefix made of characters of `cs`. */
  function TrimStart(s: string, cs: set<char>): (r: string)
    ensures |r| <= |s|
    ensures forall i :: 0 <= i < |s| - |r| ==> s[i] in cs
    ensures |r| == 0 || r[0] !in cs
  {
    if |s| > 0 && s[0] in cs then TrimStart(s[1..], cs) else s
  }

  /** What `TrimStart` leaves is a suffix of `s`: only a prefix is removed. */
  lemma {:induction false} TrimStartSuffix(s: string, cs: set<char>)
    ensures TrimStart(s, cs) == s[|s| - |TrimStart(s, cs)|..]
  {
    if |s| > 0 && s[0] in cs {
      TrimStartSuffix(s[1..], cs);
      assert s[1..][|s| - 1 - |TrimStart(s, cs)|..] == s[|s| - |TrimStart(s, cs)|..];
    }
  }

  /** A prefix made of characters of `cs` is exactly what `TrimStart` removes. */
  lemma {:induction false} TrimStartPrefix(p: string, r: string, cs: set<char>)
    requires forall i :: 0 <= i < |p| ==> p[i] in cs
    requires r == [] || r[0] !in cs
    ensures TrimStart(p + r, cs) == r
    decreases |p|
  {
    if p == [] {
      assert p + r == r;
    } else {
      assert (p + r)[1..] == p[1..] + r;
      TrimStartPrefix(p[1..], r, cs);
    }
  }
}
