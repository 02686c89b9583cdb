/**
 * Lua long brackets: an opener `[`, n `=` signs and `[`; and a closer `]`, the
 * same n `=` signs and `]`. This module gives the character-level meaning of the two
 * regular expressions the lexer uses, `\[(=*)\[` and `--\[(=*)\[`, and of the
 * replacement `]$1]` that turns an opener into its closer.
 */
module LongBrackets {
  import opened Wrappers
  import opened Text

  /**
   * The pattern `<prefix>(=*)\[` matches at index `i`: `prefix` occurs there, then
   * the longest run of `=` is followed by `[`. (A shorter run cannot match, since
   * the character after it is `=`, so the greedy match is the only one.)
   */
  predicate OpenerAt(text: string, prefix: string, i: nat) {
    OccursAt(text, prefix, i)
    && var e := i + |prefix| + RunLength(text, i + |prefix|, '=');
    e < |text| && text[e] == '['
  }

  /** The number of `=` signs of the opener at `i` (the length of group 1). */
  function Level(text: string, prefix: string, i: nat): (n: nat)
    requires OpenerAt(text, prefix, i)
    ensures i + |prefix| + n < |text|
    ensures text[i + |prefix| + n] == '['
  {
    RunLength(text, i + |prefix|, '=')
  }

  /** The length of the whole match at `i`. */
  function OpenerLength(text: string, prefix: string, i: nat): (len: nat)
    requires OpenerAt(text, prefix, i)
    ensures i + len <= |text|
  {
    |prefix| + Level(text, prefix, i) + 1
  }

  /** The text of the match at `i` is the prefix, `Level` equals signs and `[`. */
  lemma {:induction false} OpenerShape(text: string, prefix: string, i: nat)
    requires OpenerAt(text, prefix, i)
    ensures text[i..i + OpenerLength(text, prefix, i)] == prefix + Repeat('=', Level(text, prefix, i)) + "["
  {
    var n := Level(text, prefix, i);
    var s := text[i..i + OpenerLength(text, prefix, i)];
    var t := prefix + Repeat('=', n) + "[";
    assert |s| == |t|;
    forall j | 0 <= j < |s|
      ensures s[j] == t[j]
    {
      if j < |prefix| {
        assert text[i..i + |prefix|][j] == prefix[j];
      }
    }
  }

  /** The closer of level `n`: `]`, n `=` signs and `]`. */
  function Closer(n: nat): (c: string)
    ensures |c| == n + 2
    ensures c[0] == ']' && c[n + 1] == ']'
    ensures forall i :: 1 <= i <= n ==> c[i] == '='
  {
    "]" + Repeat('=', n) + "]"
  }

  /**
   * `Regex.Match(text, from)` for `<prefix>(=*)\[`: the leftmost index at or after
   * `from` where the pattern matches, or `None`.
   */
  function FindOpener(text: string, prefix: string, from: nat): (r: Option<nat>)
    requires from <= |text|
    ensures r.Some? ==> from <= r.value && OpenerAt(text, prefix, r.value)
    ensures r.Some? ==> forall i: nat :: from <= i < r.value ==> !OpenerAt(text, prefix, i)
    ensures r.None? ==> forall i: nat :: from <= i ==> !OpenerAt(text, prefix, i)
    decreases |text| - from
  {
    if OpenerAt(text, prefix, from) then Some(from)
    else if from == |text| then None
    else FindOpener(text, prefix, from + 1)
  }

  /**
   * `Regex.Replace(s, @"\[(=*)\[", "]$1]")` from index `from`: every opener found
   * scanning left to right, without overlap, becomes the closer of its level.
   */
  function ReplaceOpeners(s: string, from: nat): (r: string)
    ensures from < |s| ==> |r| > 0
    decreases |s| - from
  {
    if from >= |s| then ""
    else if OpenerAt(s, "[", from) then
      Closer(Level(s, "[", from)) + ReplaceOpeners(s, from + OpenerLength(s, "[", from))
    else [s[from]] + ReplaceOpeners(s, from + 1)
  }

  /** An opener is the whole text it matches in, and its level is its number of `=` signs. */
  lemma {:induction false} OpenerOfLevel(n: nat)
    ensures OpenerAt("[" + Repeat('=', n) + "[", "[", 0)
    ensures Level("[" + Repeat('=', n) + "[", "[", 0) == n
    ensures OpenerLength("[" + Repeat('=', n) + "[", "[", 0) == n + 2
  {
    var s := "[" + Repeat('=', n) + "[";
    assert s[0..1] == "[";
    RunLengthExact(s, 1, '=', n);
  }

  /** The replacement turns an opener of level n into the closer of level n. */
  lemma {:induction false} ReplaceOpenerGivesCloser(n: nat)
    ensures ReplaceOpeners("[" + Repeat('=', n) + "[", 0) == Closer(n)
  {
    OpenerOfLevel(n);
    var s := "[" + Repeat('=', n) + "[";
    assert ReplaceOpeners(s, 0) == Closer(n) + ReplaceOpeners(s, n + 2);
  }

  /** `prefix`, n `=` signs and `[` at the start of a text is an opener of level n. */
  lemma {:induction false} OpenerBefore(prefix: string, n: nat, rest: string)
    ensures var s := prefix + Repeat('=', n) + "[" + rest;
      OpenerAt(s, prefix, 0) && Level(s, prefix, 0) == n && OpenerLength(s, prefix, 0) == |prefix| + n + 1
  {
    var s := prefix + Repeat('=', n) + "[" + rest;
    assert s[0..|prefix|] == prefix;
    RunLengthExact(s, |prefix|, '=', n);
  }

  /** In `opener + body + c + rest`, the first `c` after the opener is the one after the body. */
  lemma {:induction false} FirstCloserAfterBody(opener: string, body: string, c: string, rest: string)
    requires forall i :: 0 <= i < |body| ==> !OccursAt(body + c, c, i)
    ensures var s := opener + body + c + rest;
      && OccursAt(s, c, |opener| + |body|)
      && forall i :: |opener| <= i < |opener| + |body| ==> !OccursAt(s, c, i)
  {
    var t := body + c;
    var s := opener + t + rest;
    assert s == opener + body + c + rest;
    var e := |opener| + |body|;
    assert s[|opener|..|opener| + |t|] == t;
    assert s[e..e + |c|] == s[|opener|..|opener| + |t|][|body|..|t|];
    forall i | |opener| <= i < e
      ensures !OccursAt(s, c, i)
    {
      var j := i - |opener|;
      assert !OccursAt(t, c, j);
      assert s[i..i + |c|] == s[|opener|..|opener| + |t|][j..j + |c|];
    }
  }

  /** The same, with the rest of the text in three parts. */
  lemma {:induction false} OpenerBeforeBody(prefix: string, n: nat, body: string, c: string, rest: string)
    ensures var s := prefix + Repeat('=', n) + "[" + body + c + rest;
      OpenerAt(s, prefix, 0) && Level(s, prefix, 0) == n && OpenerLength(s, prefix, 0) == |prefix| + n + 1
  {
    var t := body + c + rest;
    assert prefix + Repeat('=', n) + "[" + body + c + rest == prefix + Repeat('=', n) + "[" + t;
    OpenerBefore(prefix, n, t);
  }

  /** The body sits between the opener and the closer. */
  lemma {:induction false} BodyBetween(opener: string, body: string, c: string, rest: string)
    ensures var s := opener + body + c + rest;
      s[|opener|..|opener| + |body|] == body
  {
    var s := opener + body + c + rest;
    forall i | 0 <= i < |body|
      ensures s[|opener| + i] == body[i]
    {
    }
  }
}
