/**
 * `LuaStringLiteral`: the terminal that scans Lua string literals, quoted with
 * `'` or `"` or enclosed in long brackets `[==[ ... ]==]`, and decodes the escape
 * sequences of the quoted forms.
 */
module LuaStringLiteral {
  import opened Wrappers
  import opened Text
  import opened Errors
  import opened Lexing
  import opened LongBrackets

  // ---------------------------------------------------------------------------
  // Matchers
  // ---------------------------------------------------------------------------

  /**
   * The `StringOptions` flags of a matcher. `allowsLineBreak` and
   * `allowsOctalEscapes` are carried but never consulted by this terminal.
   */
  datatype StringOptions = StringOptions(
    allowsLineBreak: bool,
    noEscapes: bool,
    allowsUEscapes: bool,
    allowsXEscapes: bool,
    allowsOctalEscapes: bool)

  /** `StringOptions.AllowsAllEscapes`. */
  const AllowsAllEscapes := StringOptions(false, false, true, true, true)
  /** `StringOptions.AllowsLineBreak | StringOptions.NoEscapes`. */
  const LongBracketOptions := StringOptions(true, true, false, false, false)

  /**
   * A `StandardStringMatcher` (fixed start and end) or the `RegexStringMatcher`
   * whose start pattern is `\[(=*)\[` and whose end format is `]$1]`.
   */
  datatype Matcher =
    | StandardMatcher(start: string, end: string, flags: StringOptions)
    | RegexMatcher(shortcut: string, flags: StringOptions)

  /** The matchers in the order `Init` adds them. */
  const Matchers: seq<Matcher> := [
    StandardMatcher("'", "'", AllowsAllEscapes),
    StandardMatcher("\"", "\"", AllowsAllEscapes),
    RegexMatcher("[", LongBracketOptions)
  ]

  predicate WellFormed(m: Matcher) {
    m.StandardMatcher? ==> |m.end| > 0
  }

  lemma {:induction false} MatchersWellFormed(k: nat)
    requires k < |Matchers|
    ensures WellFormed(Matchers[k])
  {
    assert k == 0 || k == 1 || k == 2;
  }

  /**
   * `Escapes.TryGetValue` on the table of `GetDefaultEscapes`: what the character
   * after a backslash stands for, or `None` for a character not in the table.
   */
  function Escape(c: char): Option<char> {
    match c
    case 'a' => Some('\U{7}')
    case 'b' => Some('\U{8}')
    case 't' => Some('\t')
    case 'n' => Some('\n')
    case 'v' => Some('\U{B}')
    case 'f' => Some('\U{C}')
    case 'r' => Some('\r')
    case '"' => Some('"')
    case '\'' => Some('\'')
    case '\\' => Some('\\')
    case '[' => Some('[')
    case ']' => Some(']')
    case _ => None
  }

  /** Two characters are equal, or equal after `char.ToLower` when case is ignored. */
  predicate SameChar(a: char, b: char, ignoreCase: bool) {
    if ignoreCase then AsciiLower(a) == AsciiLower(b) else a == b
  }

  /** `pat` occurs in `source` at `at`, comparing with `SameChar`. */
  predicate StartsAt(pat: string, source: string, at: nat, ignoreCase: bool) {
    at + |pat| <= |source| && forall j :: 0 <= j < |pat| ==> SameChar(source[at + j], pat[j], ignoreCase)
  }

  /** Compared case-sensitively, `StartsAt` is an exact occurrence, character by character. */
  lemma {:induction false} StartsAtExactly(pat: string, source: string, at: nat)
    ensures StartsAt(pat, source, at, false) <==> OccursAt(source, pat, at)
  {
    if StartsAt(pat, source, at, false) {
      assert source[at..at + |pat|] == pat;
    }
    if OccursAt(source, pat, at) {
      forall j | 0 <= j < |pat|
        ensures source[at + j] == pat[j]
      {
        assert source[at..at + |pat|][j] == pat[j];
      }
    }
  }

  /** `StringMatcher.StartsWith`: compare `text` with `source` from `startAt`. */
  method StartsWith(text: string, source: string, startAt: nat, ignoreCase: bool) returns (r: bool)
    requires startAt <= |source|
    ensures r <==> StartsAt(text, source, startAt, ignoreCase)
  {
    if |source| - startAt < |text| {
      return false;
    }
    var i := startAt;
    var j := 0;
    while j < |text|
      invariant 0 <= j <= |text| && i == startAt + j
      invariant forall jj :: 0 <= jj < j ==> SameChar(source[startAt + jj], text[jj], ignoreCase)
    {
      if !ignoreCase && source[i] != text[j] {
        return false;
      }
      if ignoreCase && AsciiLower(source[i]) != AsciiLower(text[j]) {
        return false;
      }
      i := i + 1;
      j := j + 1;
    }
    return true;
  }

  /**
   * `TryGetInitiator`: the opening delimiter of `m` at `at`. The regex matcher
   * first checks its shortcut `[`, then asks the regex for its leftmost match at
   * or after `at` and accepts it only when it starts at `at`; that is, when the
   * opener pattern matches at `at` itself.
   */
  function Initiator(m: Matcher, text: string, at: nat, ignoreCase: bool): (r: Option<string>)
    requires at <= |text|
    ensures r.Some? ==> at + |r.value| <= |text|
    ensures m.RegexMatcher? && r.Some? ==> OpenerAt(text, "[", at) && |r.value| == OpenerLength(text, "[", at)
    ensures m.RegexMatcher? && r.Some? ==> |r.value| > 0
  {
    match m
    case StandardMatcher(start, _, _) =>
      if StartsAt(start, text, at, ignoreCase) then Some(start) else None
    case RegexMatcher(shortcut, _) =>
      if StartsAt(shortcut, text, at, ignoreCase) && OpenerAt(text, "[", at) then
        Some(text[at..at + OpenerLength(text, "[", at)])
      else None
  }

  /**
   * A quote matcher finds its quote; the long-bracket matcher finds the opener
   * `[`, n `=` and `[` that starts exactly at `at`.
   */
  lemma {:induction false} InitiatorMeaning(m: Matcher, text: string, at: nat, ignoreCase: bool)
    requires at <= |text|
    ensures var r := Initiator(m, text, at, ignoreCase);
      && (m.StandardMatcher? ==> (r.Some? <==> StartsAt(m.start, text, at, ignoreCase)))
      && (m.StandardMatcher? && r.Some? ==> r.value == m.start)
      && (m.RegexMatcher? ==> (r.Some? <==> StartsAt(m.shortcut, text, at, ignoreCase) && OpenerAt(text, "[", at)))
      && (m.RegexMatcher? && r.Some? ==> r.value == "[" + Repeat('=', Level(text, "[", at)) + "[")
  {
    if m.RegexMatcher? && StartsAt(m.shortcut, text, at, ignoreCase) && OpenerAt(text, "[", at) {
      OpenerShape(text, "[", at);
    }
  }

  method TryGetInitiator(m: Matcher, text: string, startAt: nat, ignoreCase: bool) returns (r: Option<string>)
    requires startAt <= |text|
    ensures r == Initiator(m, text, startAt, ignoreCase)
  {
    match m
    case StandardMatcher(start, _, _) =>
      var ok := StartsWith(start, text, startAt, ignoreCase);
      r := if ok then Some(start) else None;
    case RegexMatcher(shortcut, _) =>
      var ok := StartsWith(shortcut, text, startAt, ignoreCase);
      if !ok {
        return None;
      }
      var found := FindOpener(text, "[", startAt);
      if found.None? || found.value != startAt {
        assert !OpenerAt(text, "[", startAt);
        return None;
      }
      r := Some(text[startAt..startAt + OpenerLength(text, "[", startAt)]);
  }

  /**
   * `TryGetTerminator`: the closing delimiter for an opening one. The regex
   * matcher computes it by replacing the opener's match with `]$1]`.
   */
  function Terminator(m: Matcher, initiator: string): (end: string)
    ensures m.StandardMatcher? ==> end == m.end
    ensures m.RegexMatcher? && |initiator| > 0 ==> |end| > 0
  {
    match m
    case StandardMatcher(_, end, _) => end
    case RegexMatcher(_, _) => ReplaceOpeners(initiator, 0)
  }

  /**
   * The closer the matcher looks for after its opener at `at`: the fixed end
   * quote, or for a long bracket the closer of the opener's level.
   */
  function Closing(m: Matcher, text: string, at: nat): (close: string)
    requires m.RegexMatcher? ==> OpenerAt(text, "[", at)
    ensures m.StandardMatcher? ==> close == m.end
    ensures m.RegexMatcher? ==> |close| == Level(text, "[", at) + 2
  {
    match m
    case StandardMatcher(_, end, _) => end
    case RegexMatcher(_, _) => Closer(Level(text, "[", at))
  }

  /** `TryGetTerminator` applied to the opener `TryGetInitiator` found gives `Closing`. */
  lemma {:induction false} TerminatorOfInitiator(m: Matcher, text: string, at: nat, ignoreCase: bool)
    requires at <= |text| && Initiator(m, text, at, ignoreCase).Some?
    ensures m.RegexMatcher? ==> OpenerAt(text, "[", at)
    ensures Terminator(m, Initiator(m, text, at, ignoreCase).value) == Closing(m, text, at)
  {
    if m.RegexMatcher? {
      InitiatorMeaning(m, text, at, ignoreCase);
      ReplaceOpenerGivesCloser(Level(text, "[", at));
    }
  }

  /** A long-bracket opener of level n is closed only by the closer of level n. */
  lemma {:induction false} LongBracketTerminator(n: nat)
    ensures Terminator(Matchers[2], "[" + Repeat('=', n) + "[") == Closer(n)
  {
    ReplaceOpenerGivesCloser(n);
  }

  // ---------------------------------------------------------------------------
  // The end-quote search
  // ---------------------------------------------------------------------------

  /**
   * The number of backslashes right before position `q`, counted down to index 1
   * (the character at index 0 is never examined).
   */
  function BackslashesBefore(text: string, q: int): (n: nat)
    requires q <= |text|
    decreases q
  {
    if q - 1 > 0 && text[q - 1] == '\\' then 1 + BackslashesBefore(text, q - 1) else 0
  }

  /** The quote at `q` is escaped: an odd run of backslashes precedes it. */
  predicate Escaped(text: string, q: int)
    requires q <= |text|
  {
    BackslashesBefore(text, q) % 2 == 1
  }

  /** `IsEndQuoteEscaped`. */
  method IsEndQuoteEscaped(text: string, quotePosition: int) returns (escaped: bool)
    requires quotePosition <= |text|
    ensures escaped == Escaped(text, quotePosition)
  {
    escaped := false;
    var p := quotePosition - 1;
    while p > 0 && text[p] == '\\'
      invariant p <= quotePosition - 1
      invariant escaped == ((quotePosition - 1 - p) % 2 == 1)
      invariant BackslashesBefore(text, quotePosition) == (quotePosition - 1 - p) + BackslashesBefore(text, p + 1)
      decreases p
    {
      escaped := !escaped;
      p := p - 1;
    }
  }

  /**
   * A run of backslashes from `lo` up to `q` that starts the text or follows
   * another character: `BackslashesBefore` counts the whole run, except a
   * backslash at index 0.
   */
  lemma {:induction false} RunBefore(text: string, lo: nat, q: nat)
    requires lo <= q <= |text|
    requires forall i :: lo <= i < q ==> text[i] == '\\'
    requires lo <= 1 || text[lo - 1] != '\\'
    ensures BackslashesBefore(text, q) == if lo == 0 && q > 0 then q - 1 else q - lo
    decreases q
  {
    if q > lo && q - 1 > 0 {
      RunBefore(text, lo, q - 1);
    }
  }

  /**
   * Backslashes opening the text escape the quote after them only when there is an
   * even number of them: the one at index 0 is not counted.
   */
  lemma {:induction false} BackslashAtStartIgnored(n: nat, rest: string)
    requires n > 0
    ensures Escaped(Repeat('\\', n) + rest, n) <==> n % 2 == 0
  {
    RunBefore(Repeat('\\', n) + rest, 0, n);
  }

  /** After any other character, a quote is escaped exactly when an odd number of backslashes precedes it. */
  lemma {:induction false} EscapedAfterRun(before: string, n: nat, rest: string)
    requires |before| > 0 && before[|before| - 1] != '\\'
    ensures Escaped(before + Repeat('\\', n) + rest, |before| + n) <==> n % 2 == 1
  {
    var text := before + Repeat('\\', n) + rest;
    assert forall i :: |before| <= i < |before| + n ==> text[i] == Repeat('\\', n)[i - |before|];
    RunBefore(text, |before|, |before| + n);
  }

  /**
   * The retry loop of `TryMatch`: search `end` from `from`; when escapes are
   * enabled and the occurrence is escaped, resume after it. The result is the
   * end position (or -1) and the preview position the search finished at.
   */
  function SearchEnd(text: string, end: string, from: nat, noEscapes: bool): (r: (int, nat))
    requires from <= |text| && |end| > 0
    ensures from <= r.1 <= |text|
    ensures r.0 == -1 || (r.1 <= r.0 && OccursAt(text, end, r.0))
    decreases |text| - from
  {
    var e := IndexOf(text, end, from);
    if !noEscapes && e != -1 && Escaped(text, e) then SearchEnd(text, end, e + |end|, noEscapes)
    else (e, from)
  }

  /** `q` at `p` is not escaped. */
  predicate UnescapedAt(text: string, q: char, p: nat) {
    p < |text| && text[p] == q && !Escaped(text, p)
  }

  /**
   * For a one-character delimiter, the search finds the first unescaped
   * occurrence at or after `from`, or reports -1 exactly when there is none.
   */
  lemma {:induction false} FirstUnescapedQuote(text: string, q: char, from: nat)
    requires from <= |text|
    ensures var e := SearchEnd(text, [q], from, false).0;
      (e == -1 <==> forall p: nat :: from <= p ==> !UnescapedAt(text, q, p))
      && (e != -1 ==>
            from <= e && UnescapedAt(text, q, e) && forall p: nat :: from <= p < e ==> !UnescapedAt(text, q, p))
    decreases |text| - from
  {
    var e := IndexOf(text, [q], from);
    NoQuoteBefore(text, q, from);
    var r := SearchEnd(text, [q], from, false).0;
    if e == -1 {
      SearchEndStop(text, [q], from, false, e);
      forall p: nat | from <= p
        ensures !UnescapedAt(text, q, p)
      {
      }
    } else {
      assert text[e..e + 1] == [q];
      if Escaped(text, e) {
        SearchEndSkip(text, [q], from, false, e);
        FirstUnescapedQuote(text, q, e + 1);
        var r2 := SearchEnd(text, [q], e + 1, false).0;
        assert r == r2;
        assert !UnescapedAt(text, q, e);
        forall p: nat | from <= p && (r2 == -1 || p < r2)
          ensures !UnescapedAt(text, q, p)
        {
          if p < e {
            assert p < |text| ==> text[p] != q;
          } else if p > e {
            assert e + 1 <= p;
          }
        }
      } else {
        SearchEndStop(text, [q], from, false, e);
        assert UnescapedAt(text, q, e);
      }
    }
  }

  /** No occurrence of `q` lies between `from` and the one `IndexOf` finds. */
  lemma {:induction false} NoQuoteBefore(text: string, q: char, from: nat)
    requires from <= |text|
    ensures var e := IndexOf(text, [q], from);
      forall p: nat :: from <= p < |text| && (e == -1 || p < e) ==> text[p] != q
  {
    var e := IndexOf(text, [q], from);
    IndexOfFirst(text, [q], from);
    forall p: nat | from <= p < |text| && (e == -1 || p < e)
      ensures text[p] != q
    {
      assert !OccursAt(text, [q], p);
      assert text[p..p + 1] == [text[p]];
    }
  }

  // ---------------------------------------------------------------------------
  // Scanning
  // ---------------------------------------------------------------------------

  /**
   * What one matcher finds at a position: no opener; an opener without a closer,
   * with the preview position the closer search stopped at; or a literal whose
   * body is `text[bodyStart..bodyEnd]` and after whose closer the preview
   * position is left.
   */
  datatype Attempt =
    | NoOpener
    | Unclosed(resume: nat)
    | Closed(bodyStart: nat, bodyEnd: nat, position: nat)

  /** Where the preview position is after attempt `a` from `pos`. */
  function StopOf(a: Attempt, pos: nat): nat {
    match a
    case NoOpener => pos
    case Unclosed(resume) => resume
    case Closed(_, _, position) => position
  }

  /** One round of the matcher loop of `TryMatch`: matcher `m` tried at `pos`. */
  function AttemptAt(m: Matcher, text: string, pos: nat, ignoreCase: bool): (a: Attempt)
    requires pos <= |text| && WellFormed(m)
    ensures a.Unclosed? ==> pos <= a.resume <= |text|
    ensures a.Closed? ==> pos <= a.bodyStart <= a.bodyEnd < a.position <= |text|
  {
    match Initiator(m, text, pos, ignoreCase)
    case None => NoOpener
    case Some(open) => CloseFrom(text, pos + |open|, Terminator(m, open), m.flags.noEscapes)
  }

  /** The second half of an attempt: the search for the closer `close` from the end of the opener. */
  function CloseFrom(text: string, bodyStart: nat, close: string, noEscapes: bool): (a: Attempt)
    requires bodyStart <= |text| && |close| > 0
    ensures a.Unclosed? ==> bodyStart <= a.resume <= |text|
    ensures a.Closed? ==> bodyStart <= a.bodyEnd < a.position <= |text| && a.bodyStart == bodyStart
    ensures !a.NoOpener?
  {
    var found := SearchEnd(text, close, bodyStart, noEscapes);
    if found.0 == -1 then Unclosed(found.1) else Closed(bodyStart, found.0, found.0 + |close|)
  }

  /** The closer search from `bodyStart` gave `(e, resume)`. */
  lemma {:induction false} CloseFromSearch(text: string, bodyStart: nat, close: string, noEscapes: bool, e: int, resume: nat)
    requires bodyStart <= |text| && |close| > 0
    requires (e, resume) == SearchEnd(text, close, bodyStart, noEscapes)
    ensures e == -1 ==> CloseFrom(text, bodyStart, close, noEscapes) == Unclosed(resume)
    ensures e != -1 ==> CloseFrom(text, bodyStart, close, noEscapes) == Closed(bodyStart, e, e + |close|)
  {
  }

  /**
   * What the matcher loop of `TryMatch` finds: nothing, with the preview position
   * where it was left, or a literal found by matcher `matcher` whose opener starts
   * at `start`, whose body is `text[bodyStart..bodyEnd]` and after whose closer
   * the preview position is left.
   */
  datatype ScanOutcome =
    | NoMatch(position: nat)
    | Matched(matcher: nat, start: nat, bodyStart: nat, bodyEnd: nat, position: nat)

  /**
   * The matchers from `k` on, tried in order at `pos`. A matcher whose opener is
   * found but whose closer is not moves the position past the opener (and past
   * every escaped closer it skipped), and the next matcher starts from there.
   */
  function Scan(text: string, pos: nat, ignoreCase: bool, k: nat): (r: ScanOutcome)
    requires pos <= |text| && k <= |Matchers|
    ensures pos <= r.position <= |text|
    ensures r.Matched? ==> k <= r.matcher < |Matchers| && pos <= r.start <= r.bodyStart <= r.bodyEnd < r.position
    decreases |Matchers| - k
  {
    if k == |Matchers| then NoMatch(pos)
    else
      MatchersWellFormed(k);
      match AttemptAt(Matchers[k], text, pos, ignoreCase)
      case NoOpener => Scan(text, pos, ignoreCase, k + 1)
      case Unclosed(resume) => Scan(text, resume, ignoreCase, k + 1)
      case Closed(bodyStart, bodyEnd, position) => Matched(k, pos, bodyStart, bodyEnd, position)
  }

  /** A literal the scan finds is the one its matcher finds at its start. */
  lemma {:induction false} ScanFindsLiteral(text: string, pos: nat, ignoreCase: bool, k: nat)
    requires pos <= |text| && k <= |Matchers|
    ensures var r := Scan(text, pos, ignoreCase, k);
      r.Matched? ==>
        AttemptAt(Matchers[r.matcher], text, r.start, ignoreCase) == Closed(r.bodyStart, r.bodyEnd, r.position)
    decreases |Matchers| - k
  {
    if k < |Matchers| {
      MatchersWellFormed(k);
      var a := AttemptAt(Matchers[k], text, pos, ignoreCase);
      if a.NoOpener? {
        ScanFindsLiteral(text, pos, ignoreCase, k + 1);
      } else if a.Unclosed? {
        ScanFindsLiteral(text, a.resume, ignoreCase, k + 1);
      }
    }
  }

  /** What `TryMatch` returns and the parser errors it reports. */
  datatype Lexed = Lexed(result: Result<Option<Token>, Exception>, errors: seq<LexError>)

  /** The token for the outcome `s` of a scan, for a token starting at `location`. */
  function LexOutcome(text: string, location: nat, s: ScanOutcome): (l: Lexed)
    requires s.Matched? ==> s.bodyStart <= s.bodyEnd <= |text| && s.matcher < |Matchers|
    ensures s.NoMatch? ==> l == Lexed(Success(None), [])
    ensures s.Matched? && Matchers[s.matcher].flags.noEscapes ==>
      (l.errors == [] && l.result == Success(Some(Token(StringLiteral, location, s.position, StringValue(text[s.bodyStart..s.bodyEnd]), false))))
    ensures s.Matched? && !Matchers[s.matcher].flags.noEscapes ==>
      (var c := Converted(text[s.bodyStart..s.bodyEnd], Matchers[s.matcher].flags);
       l.errors == c.errors
       && (c.value.Failure? ==> l.result == Failure(c.value.error))
       && (c.value.Success? ==> l.result == Success(Some(Token(StringLiteral, location, s.position, StringValue(c.value.value), false)))))
  {
    match s
    case NoMatch(_) => Lexed(Success(None), [])
    case Matched(k, _, bodyStart, bodyEnd, position) =>
      var body := text[bodyStart..bodyEnd];
      var flags := Matchers[k].flags;
      if flags.noEscapes then
        Lexed(Success(Some(Token(StringLiteral, location, position, StringValue(body), false))), [])
      else
        var c := Converted(body, flags);
        match c.value
        case Failure(x) => Lexed(Failure(x), c.errors)
        case Success(v) => Lexed(Success(Some(Token(StringLiteral, location, position, StringValue(v), false))), c.errors)
  }

  /**
   * The outcome of `TryMatch` for a token starting at `location` whose scan
   * starts at `pos`: no token, or a token from `location` to the end of the
   * closer whose value is the body, decoded when the matcher allows escapes.
   */
  function Lex(text: string, location: nat, pos: nat, ignoreCase: bool): Lexed
    requires location <= pos <= |text|
  {
    LexOutcome(text, location, Scan(text, pos, ignoreCase, 0))
  }

  /** A round of the retry loop that finds an escaped closer searches again after it. */
  lemma {:induction false} SearchEndSkip(text: string, end: string, from: nat, noEscapes: bool, e: int)
    requires from <= |text| && |end| > 0 && e == IndexOf(text, end, from)
    requires !noEscapes && e != -1 && Escaped(text, e)
    ensures from <= e && e + |end| <= |text|
    ensures SearchEnd(text, end, from, noEscapes) == SearchEnd(text, end, e + |end|, noEscapes)
  {
    assert OccursAt(text, end, e);
  }

  /** A round of the retry loop that finds no closer, or one that is not escaped, ends the search. */
  lemma {:induction false} SearchEndStop(text: string, end: string, from: nat, noEscapes: bool, e: int)
    requires from <= |text| && |end| > 0 && e == IndexOf(text, end, from)
    requires noEscapes || e == -1 || !Escaped(text, e)
    ensures SearchEnd(text, end, from, noEscapes) == (e, from)
  {
  }

  /**
   * One round of the retry loop of `TryMatch`: the next occurrence of the closer
   * from `position` ends the search (`endPos` is it, or -1), unless it is
   * escaped, when the search goes on from `next`, after it (`endPos` is -2).
   */
  method FindEndRound(text: string, end: string, position: nat, noEscapes: bool) returns (endPos: int, next: nat)
    requires position <= |text| && |end| > 0
    ensures endPos == -2 ==> position < next <= |text| && SearchEnd(text, end, position, noEscapes) == SearchEnd(text, end, next, noEscapes)
    ensures endPos != -2 ==> next == position && SearchEnd(text, end, position, noEscapes) == (endPos, position)
  {
    next := position;
    endPos := IndexOf(text, end, position);
    if noEscapes {
      SearchEndStop(text, end, position, noEscapes, endPos);
      return;
    }
    var escaped := IsEndQuoteEscaped(text, endPos);
    if escaped {
      SearchEndSkip(text, end, position, noEscapes, endPos);
      next := endPos + |end|;
      endPos := -2;
    } else {
      SearchEndStop(text, end, position, noEscapes, endPos);
    }
  }

  /** The retry loop of `TryMatch`, from the preview position. */
  method FindEnd(source: SourceStream, end: string, noEscapes: bool) returns (endPos: int)
    requires source.Valid() && |end| > 0
    modifies source
    ensures source.Valid()
    ensures (endPos, source.previewPosition) == SearchEnd(source.text, end, old(source.previewPosition), noEscapes)
  {
    var text := source.text;
    var position := source.previewPosition;
    ghost var goal := SearchEnd(text, end, position, noEscapes);
    endPos := -2;
    while endPos == -2
      invariant position <= |text|
      invariant endPos == -2 ==> SearchEnd(text, end, position, noEscapes) == goal
      invariant endPos != -2 ==> endPos == goal.0 && position == goal.1
      decreases if endPos == -2 then |text| - position + 1 else 0
    {
      var next;
      endPos, next := FindEndRound(text, end, position, noEscapes);
      position := next;
    }
    source.previewPosition := position;
  }

  /**
   * The end of a successful match: the preview position moves past the closer
   * and the token carries the body, decoded unless the matcher forbids escapes.
   */
  method EmitLiteral(context: ParsingContext, source: SourceStream, s: ScanOutcome) returns (r: Result<Option<Token>, Exception>)
    requires s.Matched? && s.matcher < |Matchers|
    requires source.location <= s.position <= |source.text| && s.bodyStart <= s.bodyEnd <= |source.text|
    modifies source, context
    ensures source.Valid() && source.previewPosition == s.position
    ensures var l := LexOutcome(source.text, source.location, s);
      r == l.result && context.errors == old(context.errors) + l.errors
    ensures context.lineScanState == old(context.lineScanState)
  {
    var flags := Matchers[s.matcher].flags;
    source.previewPosition := s.position;
    var tokenText := source.text[s.bodyStart..s.bodyEnd];
    if !flags.noEscapes {
      var converted := ConvertValue(context, tokenText, flags);
      if converted.Failure? {
        return Failure(converted.error);
      }
      tokenText := converted.value;
    }
    return Success(Some(source.CreateToken(StringLiteral, StringValue(tokenText))));
  }

  /**
   * One round of the matcher loop of `TryMatch`, up to the token: matcher `k`
   * looks for its opener and then for its closer, moving the preview position as
   * `AttemptAt` says.
   */
  method MatchWith(source: SourceStream, m: Matcher, ignoreCase: bool) returns (a: Attempt)
    requires source.Valid() && WellFormed(m)
    modifies source
    ensures a == AttemptAt(m, source.text, old(source.previewPosition), ignoreCase)
    ensures source.Valid()
    ensures source.previewPosition == StopOf(a, old(source.previewPosition))
  {
    ghost var pos := source.previewPosition;
    var start := TryGetInitiator(m, source.text, source.previewPosition, ignoreCase);
    if start.None? {
      assert AttemptAt(m, source.text, pos, ignoreCase) == NoOpener;
      return NoOpener;
    }
    AttemptOpened(m, source.text, pos, ignoreCase, start.value);
    a := FindCloser(source, m, start.value);
    assert a == AttemptAt(m, source.text, pos, ignoreCase);
  }

  /** `AttemptAt` once the initiator `open` is found at `pos`. */
  lemma {:induction false} AttemptOpened(m: Matcher, text: string, pos: nat, ignoreCase: bool, open: string)
    requires pos <= |text| && WellFormed(m) && Initiator(m, text, pos, ignoreCase) == Some(open)
    ensures pos + |open| <= |text|
    ensures AttemptAt(m, text, pos, ignoreCase) == CloseFrom(text, pos + |open|, Terminator(m, open), m.flags.noEscapes)
  {
  }

  /**
   * The second half of a round of `TryMatch`: past the opener `open`, the search
   * for the terminator, which leaves the preview position past the closer found,
   * or where the search gave up.
   */
  method FindCloser(source: SourceStream, m: Matcher, open: string) returns (a: Attempt)
    requires source.Valid() && source.previewPosition + |open| <= |source.text|
    requires WellFormed(m) && (m.RegexMatcher? ==> |open| > 0)
    modifies source
    ensures a == CloseFrom(source.text, old(source.previewPosition) + |open|, Terminator(m, open), m.flags.noEscapes)
    ensures source.Valid()
    ensures source.previewPosition == StopOf(a, old(source.previewPosition))
  {
    var end := Terminator(m, open);
    var startPos := source.previewPosition + |open|;
    source.previewPosition := startPos;
    var endPos := FindEnd(source, end, m.flags.noEscapes);
    var resume := source.previewPosition;
    CloseFromSearch(source.text, startPos, end, m.flags.noEscapes, endPos, resume);
    if endPos == -1 {
      return Unclosed(resume);
    }
    source.previewPosition := endPos + |end|;
    return Closed(startPos, endPos, endPos + |end|);
  }

  /** `TryMatch`: the matchers in order, from the preview position. */
  method TryMatch(context: ParsingContext, source: SourceStream) returns (r: Result<Option<Token>, Exception>)
    requires source.Valid()
    modifies source, context
    ensures source.Valid()
    ensures source.previewPosition == Scan(source.text, old(source.previewPosition), !context.caseSensitive, 0).position
    ensures var l := Lex(source.text, source.location, old(source.previewPosition), !context.caseSensitive);
      r == l.result && context.errors == old(context.errors) + l.errors
    ensures context.lineScanState == old(context.lineScanState)
  {
    var ignoreCase := !context.caseSensitive;
    ghost var goal := Scan(source.text, source.previewPosition, ignoreCase, 0);
    var k := 0;
    while k < |Matchers|
      invariant 0 <= k <= |Matchers|
      invariant source.Valid() && old(source.previewPosition) <= source.previewPosition
      invariant Scan(source.text, source.previewPosition, ignoreCase, k) == goal
      invariant context.errors == old(context.errors)
      invariant context.lineScanState == old(context.lineScanState)
      decreases |Matchers| - k
    {
      var pos := source.previewPosition;
      MatchersWellFormed(k);
      var a := MatchWith(source, Matchers[k], ignoreCase);
      if a.Closed? {
        r := EmitLiteral(context, source, Matched(k, pos, a.bodyStart, a.bodyEnd, a.position));
        return;
      }
      k := k + 1;
    }
    return Success(None);
  }

  // ---------------------------------------------------------------------------
  // Escape decoding
  // ---------------------------------------------------------------------------

  /** Membership in `Strings.HexDigits` ("1234567890abcdefABCDEF"). */
  predicate IsHexDigit(c: char) {
    '0' <= c <= '9' || 'a' <= c <= 'f' || 'A' <= c <= 'F'
  }

  /** Membership in `Strings.DecimalDigits` ("1234567890"). */
  predicate IsDecimalDigit(c: char) {
    '0' <= c <= '9'
  }

  /** The characters `\z` removes. */
  const Whitespace: set<char> := {' ', '\t', '\n', '\r'}

  function HexDigitValue(c: char): (v: nat)
    requires IsHexDigit(c)
    ensures v < 16
  {
    if '0' <= c <= '9' then c as int - '0' as int
    else if 'a' <= c <= 'f' then c as int - 'a' as int + 10
    else c as int - 'A' as int + 10
  }

  predicate AllHex(s: string) {
    forall i :: 0 <= i < |s| ==> IsHexDigit(s[i])
  }

  predicate AllDecimal(s: string) {
    forall i :: 0 <= i < |s| ==> IsDecimalDigit(s[i])
  }

  /** The value of a string of hexadecimal digits. */
  function HexNumber(s: string): nat
    requires AllHex(s)
  {
    if |s| == 0 then 0 else HexNumber(s[..|s| - 1]) * 16 + HexDigitValue(s[|s| - 1])
  }

  /** The value of a string of decimal digits. */
  function DecimalNumber(s: string): nat
    requires AllDecimal(s)
  {
    if |s| == 0 then 0 else DecimalNumber(s[..|s| - 1]) * 10 + (s[|s| - 1] as int - '0' as int)
  }

  /**
   * `Convert.ToUInt32(s, 16)`: an optional `+`, an optional `0x`/`0X`, then one or
   * more hexadecimal digits and nothing else; a leading `-` is refused.
   */
  function ParseHex(s: string): Result<nat, Exception> {
    if |s| > 0 && s[0] == '-' then Failure(BadArgument)
    else
      var body := if |s| > 0 && s[0] == '+' then s[1..] else s;
      var digits := if |body| >= 2 && body[0] == '0' && (body[1] == 'x' || body[1] == 'X') then body[2..] else body;
      if |digits| == 0 || !AllHex(digits) then Failure(BadNumberFormat)
      else Success(HexNumber(digits))
  }

  /** Hexadecimal digits alone parse to their value. */
  lemma {:induction false} ParseHexOfDigits(s: string)
    requires |s| > 0 && AllHex(s)
    ensures ParseHex(s) == Success(HexNumber(s))
  {
    assert IsHexDigit(s[0]);
    if |s| >= 2 {
      assert IsHexDigit(s[1]);
    }
  }

  /**
   * The `(char)` cast of a `uint`: the low 16 bits. A lone surrogate code unit is
   * not a Dafny character and becomes U+FFFD.
   */
  function CodeUnit(v: nat): (c: char)
    ensures v < 0xD800 ==> c as int == v
  {
    var u := v % 0x1_0000;
    if 0xD800 <= u < 0xE000 then '\U{FFFD}' else u as char
  }

  /** How one escape segment is handled: replaced, rejected with an error, or an exception. */
  datatype Special = Decoded(text: string) | Rejected(error: LexError) | Thrown(exception: Exception)

  /** A hexadecimal digit when `hex`, otherwise a decimal digit. */
  predicate IsDigit(c: char, hex: bool) {
    if hex then IsHexDigit(c) else IsDecimalDigit(c)
  }

  /** The number of digits in `s` from `from`, counting at most `limit`. */
  function DigitRun(s: string, from: nat, limit: nat, hex: bool): (n: nat)
    requires from <= |s|
    ensures n <= limit && from + n <= |s|
    ensures forall i :: from <= i < from + n ==> IsDigit(s[i], hex)
    ensures n == limit || from + n == |s| || !IsDigit(s[from + n], hex)
    decreases limit
  {
    if limit > 0 && from < |s| && IsDigit(s[from], hex) then 1 + DigitRun(s, from + 1, limit - 1, hex) else 0
  }

  /** `HandleSpecialEscape` on a segment (the text after a backslash). */
  function SpecialEscape(segment: string, flags: StringOptions): (r: Special)
  {
    if segment == "" then Decoded("")
    else
      var first := segment[0];
      if (first == 'u' || first == 'U') && flags.allowsUEscapes then
        var len := if first == 'u' then 4 else 8;
        if |segment| < len + 1 then Thrown(SubstringOutOfRange)
        else match ParseHex(segment[1..len + 1])
          case Failure(x) => Thrown(x)
          case Success(v) => Decoded([CodeUnit(v)] + segment[len + 1..])
      else if first == 'x' && flags.allowsXEscapes then
        var n := DigitRun(segment, 1, 4, true);
        if n == 0 then Rejected(BadXEscape)
        else Decoded([CodeUnit(HexNumber(segment[1..1 + n]))] + segment[1 + n..])
      else if IsDecimalDigit(first) && !flags.noEscapes then
        var n := DigitRun(segment, 0, 3, false);
        Decoded([CodeUnit(DecimalNumber(segment[..n]))] + segment[n..])
      else Rejected(InvalidEscape(segment))
  }

  /** What `HandleSpecialEscape` returns: the replacement, or `None` for `null`. */
  function Returned(s: Special): Result<Option<string>, Exception> {
    match s
    case Decoded(t) => Success(Some(t))
    case Rejected(_) => Success(None)
    case Thrown(x) => Failure(x)
  }

  /** The parser errors `HandleSpecialEscape` reports. */
  function Reported(s: Special): seq<LexError> {
    if s.Rejected? then [s.error] else []
  }

  /**
   * The digit loops of `HandleSpecialEscape`: from index `from`, at most `limit`
   * digits (hexadecimal when `hex`) are passed over; `p` is the index after them.
   */
  method ScanDigits(segment: string, from: nat, limit: nat, hex: bool) returns (p: nat)
    requires from <= |segment|
    ensures p == from + DigitRun(segment, from, limit, hex)
  {
    p := from;
    while p < from + limit && p < |segment| && IsDigit(segment[p], hex)
      invariant from <= p <= from + limit && p <= |segment|
      invariant DigitRun(segment, from, limit, hex) == (p - from) + DigitRun(segment, p, from + limit - p, hex)
      decreases from + limit - p
    {
      p := p + 1;
    }
  }

  /** `HandleSpecialEscape`. */
  method HandleSpecialEscape(context: ParsingContext, segment: string, flags: StringOptions)
    returns (r: Result<Option<string>, Exception>)
    modifies context
    ensures r == Returned(SpecialEscape(segment, flags))
    ensures context.errors == old(context.errors) + Reported(SpecialEscape(segment, flags))
    ensures context.lineScanState == old(context.lineScanState)
  {
    if segment == "" {
      return Success(Some(""));
    }
    var first := segment[0];
    if (first == 'u' || first == 'U') && flags.allowsUEscapes {
      var len := if first == 'u' then 4 else 8;
      if |segment| < len + 1 {
        // the error message is built with segment.Substring(len + 1), which throws
        return Failure(SubstringOutOfRange);
      }
      var digits := segment[1..len + 1];
      var v := ParseHex(digits);
      if v.Failure? {
        return Failure(v.error);
      }
      return Success(Some([CodeUnit(v.value)] + segment[len + 1..]));
    }
    if first == 'x' && flags.allowsXEscapes {
      var p := ScanDigits(segment, 1, 4, true);
      if p <= 1 {
        context.AddParserError(BadXEscape);
        return Success(None);
      }
      var digits := segment[1..p];
      return Success(Some([CodeUnit(HexNumber(digits))] + segment[p..]));
    }
    if IsDecimalDigit(first) && !flags.noEscapes {
      var p := ScanDigits(segment, 0, 3, false);
      var digits := segment[..p];
      return Success(Some([CodeUnit(DecimalNumber(digits))] + segment[p..]));
    }
    context.AddParserError(InvalidEscape(segment));
    return Success(None);
  }

  /** The `ignoreNext` flag at segment `i`: the previous segment was an escaped backslash. */
  predicate Skipped(parts: seq<string>, i: nat)
    requires 1 <= i <= |parts|
    decreases i
  {
    i >= 2 && parts[i - 1] == "" && !Skipped(parts, i - 1)
  }

  /** How a segment after a backslash is handled; `skipped` is the `ignoreNext` flag. */
  function SegmentOf(s: string, skipped: bool, flags: StringOptions): Special {
    if skipped then Decoded(s)
    else if s == "" then Decoded("\\")
    else if s[0] == 'z' then Decoded(TrimStart(s[1..], Whitespace))
    else if Escape(s[0]).Some? then Decoded([Escape(s[0]).value] + s[1..])
    else SpecialEscape(s, flags)
  }

  /** How segment `i >= 1` of the split literal is handled. */
  function SegmentOutcome(parts: seq<string>, i: nat, flags: StringOptions): Special
    requires 1 <= i < |parts|
  {
    SegmentOf(parts[i], Skipped(parts, i), flags)
  }

  /** What a handled segment joins as: a rejected one as the empty string (`null`). */
  function Piece(o: Special): string {
    if o.Decoded? then o.text else ""
  }

  /** The decoded value (or the exception) and the parser errors of a literal body. */
  datatype Conversion = Conversion(value: Result<string, Exception>, errors: seq<LexError>)

  /**
   * How segments `i..` of the split literal are handled. The handling of a segment
   * depends on the segments alone (through `Skipped`), not on what was decoded before.
   */
  function Outcomes(parts: seq<string>, i: nat, flags: StringOptions): (os: seq<Special>)
    requires 1 <= i <= |parts|
    ensures |os| == |parts| - i
    decreases |parts| - i
  {
    if i == |parts| then [] else [SegmentOutcome(parts, i, flags)] + Outcomes(parts, i + 1, flags)
  }

  /** Element `k - i` of `Outcomes(parts, i, flags)` is the handling of segment `k`. */
  lemma {:induction false} OutcomeAt(parts: seq<string>, i: nat, k: nat, flags: StringOptions)
    requires 1 <= i <= k < |parts|
    ensures Outcomes(parts, i, flags)[k - i] == SegmentOutcome(parts, k, flags)
    decreases k - i
  {
    if i < k {
      OutcomeAt(parts, i + 1, k, flags);
      var rest := Outcomes(parts, i + 1, flags);
      assert Outcomes(parts, i, flags) == [SegmentOutcome(parts, i, flags)] + rest;
      assert Outcomes(parts, i, flags)[k - i] == rest[k - i - 1];
    }
  }

  /**
   * The handled segments `os[k..]` joined after `acc` has been produced and
   * `errs` reported: a rejected segment joins as nothing and adds its error, an
   * exception stops the decoding.
   */
  function Decode(os: seq<Special>, k: nat, acc: string, errs: seq<LexError>): Conversion
    requires k <= |os|
    decreases |os| - k
  {
    if k == |os| then Conversion(Success(acc), errs)
    else match os[k]
      case Thrown(x) => Conversion(Failure(x), errs)
      case Rejected(e) => Decode(os, k + 1, acc, errs + [e])
      case Decoded(t) => Decode(os, k + 1, acc + t, errs)
  }

  /**
   * `ConvertValue`: CR LF becomes LF; with escapes enabled and a backslash present
   * the text is split at the backslashes and each segment after the first is
   * decoded; otherwise a leading LF is dropped.
   */
  function Converted(segment: string, flags: StringOptions): Conversion {
    var value := NormalizeNewlines(segment);
    if !flags.noEscapes && '\\' in value then
      var parts := Split(value, '\\');
      Decode(Outcomes(parts, 1, flags), 0, parts[0], [])
    else if |value| > 0 && value[0] == '\n' then Conversion(Success(value[1..]), [])
    else Conversion(Success(value), [])
  }

  /** One step of the decoding: segment `k` throws, or its piece and its errors are added. */
  lemma {:induction false} DecodeStep(os: seq<Special>, k: nat, acc: string, errs: seq<LexError>)
    requires k < |os|
    ensures Decode(os, k, acc, errs)
      == if os[k].Thrown? then Conversion(Failure(os[k].exception), errs)
         else Decode(os, k + 1, acc + Piece(os[k]), errs + Reported(os[k]))
  {
    if os[k].Rejected? {
      assert acc + Piece(os[k]) == acc;
    } else if os[k].Decoded? {
      assert errs + Reported(os[k]) == errs;
    }
  }

  /** The body of the loop of `ConvertValue` for one segment `s`. */
  method DecodeSegment(context: ParsingContext, s: string, ignoreNext: bool, flags: StringOptions)
    returns (r: Result<string, Exception>)
    modifies context
    ensures var o := SegmentOf(s, ignoreNext, flags);
      r == if o.Thrown? then Failure(o.exception) else Success(Piece(o))
    ensures context.errors == old(context.errors) + Reported(SegmentOf(s, ignoreNext, flags))
    ensures context.lineScanState == old(context.lineScanState)
  {
    if ignoreNext {
      return Success(s);
    }
    if s == "" {
      return Success("\\");
    } else if s[0] == 'z' {
      return Success(TrimStart(s[1..], Whitespace));
    }
    var first := s[0];
    var newFirst := Escape(first);
    if newFirst.Some? {
      return Success([newFirst.value] + s[1..]);
    }
    var h := HandleSpecialEscape(context, s, flags);
    if h.Failure? {
      return Failure(h.error);
    }
    // a null segment joins as the empty string
    return Success(if h.value.Some? then h.value.value else "");
  }

  /**
   * `DecodeSegment` on segment `i` as a step of `Decode`: the exception that ends
   * the decoding, or the piece and the errors after which the decoding goes on.
   */
  method DecodeNext(context: ParsingContext, s: string, ignoreNext: bool, flags: StringOptions,
                    ghost parts: seq<string>, ghost i: nat, ghost os: seq<Special>, ghost acc: string, ghost errs: seq<LexError>)
    returns (r: Result<string, Exception>, ghost reported: seq<LexError>)
    requires 1 <= i < |parts| && s == parts[i] && ignoreNext == Skipped(parts, i)
    requires os == Outcomes(parts, 1, flags)
    modifies context
    ensures context.errors == old(context.errors) + reported
    ensures r.Failure? ==> reported == [] && Decode(os, i - 1, acc, errs) == Conversion(Failure(r.error), errs)
    ensures r.Success? ==> Decode(os, i - 1, acc, errs) == Decode(os, i, acc + r.value, errs + reported)
    ensures context.lineScanState == old(context.lineScanState)
  {
    r := DecodeSegment(context, s, ignoreNext, flags);
    reported := Reported(SegmentOf(s, ignoreNext, flags));
    DecodeAt(parts, i, flags, acc, errs);
  }

  /** The step of `Decode` at segment `i` of the split literal. */
  lemma {:induction false} DecodeAt(parts: seq<string>, i: nat, flags: StringOptions, acc: string, errs: seq<LexError>)
    requires 1 <= i < |parts|
    ensures var os := Outcomes(parts, 1, flags);
      var o := SegmentOf(parts[i], Skipped(parts, i), flags);
      Decode(os, i - 1, acc, errs)
        == if o.Thrown? then Conversion(Failure(o.exception), errs)
           else Decode(os, i, acc + Piece(o), errs + Reported(o))
  {
    OutcomeAt(parts, 1, i, flags);
    DecodeStep(Outcomes(parts, 1, flags), i - 1, acc, errs);
  }

  lemma {:induction false} ConcatSnoc(p: seq<string>, t: string)
    ensures Concat(p + [t]) == Concat(p) + t
  {
    ConcatAppend(p, [t]);
    assert Concat([t]) == t + Concat([]);
  }

  /**
   * The loop of `ConvertValue` over the segments of a literal split at its
   * backslashes, and the join of the decoded segments.
   */
  method DecodeSegments(context: ParsingContext, parts: seq<string>, flags: StringOptions) returns (r: Result<string, Exception>)
    requires |parts| >= 1
    modifies context
    ensures r == Decode(Outcomes(parts, 1, flags), 0, parts[0], []).value
    ensures context.errors == old(context.errors) + Decode(Outcomes(parts, 1, flags), 0, parts[0], []).errors
    ensures context.lineScanState == old(context.lineScanState)
  {
    var arr := new string[|parts|](j requires 0 <= j < |parts| => parts[j]);
    var ignoreNext := false;
    ghost var os := Outcomes(parts, 1, flags);
    ghost var goal := Decode(os, 0, parts[0], []);
    ghost var done := [parts[0]];
    ghost var acc := parts[0];
    ghost var errs: seq<LexError> := [];
    ghost var errors0 := context.errors;
    assert Concat(done) == parts[0] + Concat([]);
    var i := 1;
    while i < arr.Length
      invariant 1 <= i <= arr.Length == |parts| && |done| == i
      invariant forall j :: 0 <= j < i ==> arr[j] == done[j]
      invariant forall j :: i <= j < arr.Length ==> arr[j] == parts[j]
      invariant ignoreNext == Skipped(parts, i)
      invariant context.errors == errors0 + errs
      invariant Concat(done) == acc
      invariant Decode(os, i - 1, acc, errs) == goal
      invariant context.lineScanState == old(context.lineScanState)
    {
      var s := arr[i];
      var piece, reported := DecodeNext(context, s, ignoreNext, flags, parts, i, os, acc, errs);
      if piece.Failure? {
        return Failure(piece.error);
      }
      errs := errs + reported;
      ignoreNext := !ignoreNext && s == "";
      arr[i] := piece.value;
      ConcatSnoc(done, piece.value);
      done := done + [piece.value];
      acc := acc + piece.value;
      i := i + 1;
    }
    assert arr[..] == done;
    return Success(Concat(arr[..]));
  }

  /** `ConvertValue`. */
  method ConvertValue(context: ParsingContext, segment: string, flags: StringOptions) returns (r: Result<string, Exception>)
    modifies context
    ensures r == Converted(segment, flags).value
    ensures context.errors == old(context.errors) + Converted(segment, flags).errors
    ensures context.lineScanState == old(context.lineScanState)
  {
    var value := NormalizeNewlines(segment);
    var escapeEnabled := !flags.noEscapes;
    if escapeEnabled && '\\' in value {
      var parts := Split(value, '\\');
      r := DecodeSegments(context, parts, flags);
      return;
    }
    if |value| > 0 && value[0] == '\n' {
      return Success(value[1..]);
    }
    return Success(value);
  }

  // ---------------------------------------------------------------------------
  // What the escapes decode to
  // ---------------------------------------------------------------------------

  /**
   * The escape table holds exactly `a b t n v f r` (BEL, BS, TAB, LF, VT, FF, CR)
   * and the five characters that stand for themselves.
   */
  lemma {:induction false} EscapeTable(c: char)
    ensures Escape(c).Some? <==> c in {'a', 'b', 't', 'n', 'v', 'f', 'r', '"', '\'', '\\', '[', ']'}
    ensures c in {'"', '\'', '\\', '[', ']'} ==> Escape(c) == Some(c)
    ensures Escape('a') == Some(7 as char) && Escape('b') == Some(8 as char) && Escape('t') == Some(9 as char)
    ensures Escape('n') == Some(10 as char) && Escape('v') == Some(11 as char)
    ensures Escape('f') == Some(12 as char) && Escape('r') == Some(13 as char)
  {
  }

  /** A run of exactly `n` digits, ended by the limit, the end of the text or another character. */
  lemma {:induction false} DigitRunExact(s: string, from: nat, limit: nat, hex: bool, n: nat)
    requires from + n <= |s| && n <= limit
    requires forall i :: from <= i < from + n ==> IsDigit(s[i], hex)
    requires n == limit || from + n == |s| || !IsDigit(s[from + n], hex)
    ensures DigitRun(s, from, limit, hex) == n
    decreases n
  {
    if n > 0 {
      DigitRunExact(s, from + 1, limit - 1, hex, n - 1);
    }
  }

  /** `\x` followed by one to four hexadecimal digits stands for the character of that code. */
  lemma {:induction false} HexEscape(digits: string, rest: string, flags: StringOptions)
    requires flags.allowsXEscapes && 1 <= |digits| <= 4 && AllHex(digits)
    requires |digits| == 4 || rest == "" || !IsHexDigit(rest[0])
    ensures SpecialEscape("x" + digits + rest, flags) == Decoded([CodeUnit(HexNumber(digits))] + rest)
  {
    var segment := "x" + digits + rest;
    var n := |digits|;
    assert forall i :: 1 <= i < 1 + n ==> segment[i] == digits[i - 1];
    assert 1 + n < |segment| ==> segment[1 + n] == rest[0];
    DigitRunExact(segment, 1, 4, true, n);
    assert segment[1..1 + n] == digits;
    assert segment[1 + n..] == rest;
  }

  /** `\x` not followed by a hexadecimal digit is a bad escape: an error, and no text. */
  lemma {:induction false} HexEscapeWithoutDigits(rest: string, flags: StringOptions)
    requires flags.allowsXEscapes && (rest == "" || !IsHexDigit(rest[0]))
    ensures SpecialEscape("x" + rest, flags) == Rejected(BadXEscape)
  {
    var segment := "x" + rest;
    assert |segment| > 1 ==> segment[1] == rest[0];
    DigitRunExact(segment, 1, 4, true, 0);
  }

  /** A backslash and one to three decimal digits stand for the character of that decimal code. */
  lemma {:induction false} DecimalEscape(digits: string, rest: string, flags: StringOptions)
    requires !flags.noEscapes && 1 <= |digits| <= 3 && AllDecimal(digits)
    requires |digits| == 3 || rest == "" || !IsDecimalDigit(rest[0])
    ensures SpecialEscape(digits + rest, flags) == Decoded([CodeUnit(DecimalNumber(digits))] + rest)
  {
    var segment := digits + rest;
    var n := |digits|;
    assert forall i :: 0 <= i < n ==> segment[i] == digits[i];
    assert n < |segment| ==> segment[n] == rest[0];
    DigitRunExact(segment, 0, 3, false, n);
    assert segment[..n] == digits;
    assert segment[n..] == rest;
  }

  /** `\u` takes exactly four hexadecimal digits and `\U` exactly eight. */
  lemma {:induction false} UnicodeEscape(u: char, digits: string, rest: string, flags: StringOptions)
    requires flags.allowsUEscapes && (u == 'u' || u == 'U')
    requires |digits| == (if u == 'u' then 4 else 8) && AllHex(digits)
    ensures SpecialEscape([u] + digits + rest, flags) == Decoded([CodeUnit(HexNumber(digits))] + rest)
  {
    var segment := [u] + digits + rest;
    assert segment[1..|digits| + 1] == digits;
    assert segment[|digits| + 1..] == rest;
    ParseHexOfDigits(digits);
  }

  /** Fewer than four (or eight) characters after `\u` (or `\U`) end the conversion with an exception. */
  lemma {:induction false} UnicodeEscapeTooShort(u: char, tail: string, flags: StringOptions)
    requires flags.allowsUEscapes && (u == 'u' || u == 'U')
    requires |tail| < (if u == 'u' then 4 else 8)
    ensures SpecialEscape([u] + tail, flags) == Thrown(SubstringOutOfRange)
  {
  }

  /** Any other escaped character is an invalid escape: an error, and no text. */
  lemma {:induction false} OtherEscapeRejected(segment: string, flags: StringOptions)
    requires |segment| > 0 && !IsDecimalDigit(segment[0])
    requires segment[0] != 'x' && segment[0] != 'u' && segment[0] != 'U'
    ensures SpecialEscape(segment, flags) == Rejected(InvalidEscape(segment))
  {
  }

  /**
   * Without a backslash, a CR LF between two texts becomes LF; when it opens the
   * literal, the LF it becomes is then dropped.
   */
  lemma {:induction false} ConvertedNewlines(a: string, b: string, flags: StringOptions)
    requires '\\' !in a && '\\' !in b && '\r' !in a && '\r' !in b
    requires a == [] || a[0] != '\n'
    ensures Converted(a + "\r\n" + b, flags) == Conversion(Success(if a == [] then b else a + "\n" + b), [])
  {
    var tail := "\r\n" + b;
    NormalizeNewlinesAfter(a, tail);
    assert tail[2..] == b && tail[0] == '\r' && tail[1] == '\n';
    assert NormalizeNewlines(tail) == "\n" + b;
    assert a + "\r\n" + b == a + tail;
    var value := a + ("\n" + b);
    assert '\\' !in value;
    if a == [] {
      assert value == "\n" + b && value[1..] == b;
    } else {
      assert value == a + "\n" + b && value[0] == a[0];
    }
  }

  /**
   * With escapes enabled, `\\` gives one backslash, and the text after it is kept
   * verbatim even where it would be an escape (`\\n` is a backslash and `n`).
   */
  lemma {:induction false} ConvertedEscapedBackslash(a: string, b: string, flags: StringOptions)
    requires !flags.noEscapes
    requires '\\' !in a && '\\' !in b && '\r' !in a && '\r' !in b
    ensures Converted(a + "\\\\" + b, flags) == Conversion(Success(a + "\\" + b), [])
  {
    var parts := [a, "", b];
    assert parts[1..][1..] == [b];
    assert JoinWith(parts[1..][1..], '\\') == b;
    assert JoinWith(parts[1..], '\\') == "" + ['\\'] + b;
    assert JoinWith(parts, '\\') == a + ['\\'] + ("" + ['\\'] + b);
    assert a + ['\\'] + ("" + ['\\'] + b) == a + "\\\\" + b;
    SplitJoinWith(parts, '\\');
    var value := a + "\\\\" + b;
    assert '\r' !in value;
    assert value[|a|] == '\\';
    assert !Skipped(parts, 1) && Skipped(parts, 2);
    assert SegmentOutcome(parts, 1, flags) == Decoded("\\");
    assert SegmentOutcome(parts, 2, flags) == Decoded(b);
    assert Outcomes(parts, 2, flags) == [Decoded(b)];
    var os := Outcomes(parts, 1, flags);
    assert os == [Decoded("\\"), Decoded(b)];
    assert Decode(os, 2, a + "\\" + b, []) == Conversion(Success(a + "\\" + b), []);
    assert Decode(os, 1, a + "\\", []) == Decode(os, 2, a + "\\" + b, []);
    assert Converted(value, flags) == Decode(os, 0, a, []);
  }

  /** `\z` drops the spaces, tabs and line breaks after it, up to the next other character. */
  lemma {:induction false} ZapEscape(ws: string, rest: string, flags: StringOptions)
    requires forall i :: 0 <= i < |ws| ==> ws[i] in Whitespace
    requires rest == "" || rest[0] !in Whitespace
    ensures SegmentOf("z" + ws + rest, false, flags) == Decoded(rest)
  {
    assert ("z" + ws + rest)[1..] == ws + rest;
    TrimStartPrefix(ws, rest, Whitespace);
  }

  /**
   * With escapes enabled, a backslash before a character that neither the table,
   * `\z`, a digit, `\x`, `\u` nor `\U` handles is an invalid escape: the error
   * carries the segment after the backslash, and that segment adds nothing to
   * the value (`"a\\qb"` decodes to `"a"` with the error for `"qb"`).
   */
  lemma {:induction false} ConvertedInvalidEscape(a: string, segment: string, flags: StringOptions)
    requires !flags.noEscapes
    requires '\\' !in a && '\\' !in segment && '\r' !in a && '\r' !in segment
    requires |segment| > 0 && Escape(segment[0]).None? && segment[0] != 'z' && !IsDecimalDigit(segment[0])
    requires segment[0] != 'x' && segment[0] != 'u' && segment[0] != 'U'
    ensures Converted(a + "\\" + segment, flags) == Conversion(Success(a), [InvalidEscape(segment)])
  {
    var value := a + "\\" + segment;
    assert '\r' !in value;
    assert value[|a|] == '\\';
    var parts := [a, segment];
    assert parts[1..] == [segment];
    assert JoinWith(parts, '\\') == value;
    SplitJoinWith(parts, '\\');
    assert !Skipped(parts, 1);
    OtherEscapeRejected(segment, flags);
    var os := Outcomes(parts, 1, flags);
    assert os == [Rejected(InvalidEscape(segment))];
    DecodeStep(os, 0, a, []);
    assert Decode(os, 1, a, [InvalidEscape(segment)]) == Conversion(Success(a), [InvalidEscape(segment)]);
    assert Converted(value, flags) == Decode(os, 0, a, []);
  }

  // ---------------------------------------------------------------------------
  // Whole literals
  // ---------------------------------------------------------------------------

  /** At a `[` neither quote matcher finds an opener, so the long-bracket matcher is tried at the same place. */
  lemma {:induction false} BracketSkipsQuoteMatchers(text: string, pos: nat, ignoreCase: bool)
    requires pos < |text| && text[pos] == '['
    ensures Scan(text, pos, ignoreCase, 0) == Scan(text, pos, ignoreCase, 2)
  {
    assert !SameChar(text[pos], "'"[0], ignoreCase) && !SameChar(text[pos], "\""[0], ignoreCase);
    MatchersWellFormed(0);
    MatchersWellFormed(1);
    assert AttemptAt(Matchers[0], text, pos, ignoreCase) == NoOpener;
    assert AttemptAt(Matchers[1], text, pos, ignoreCase) == NoOpener;
  }

  /** Without escapes, the closer search stops at the first occurrence of the closer. */
  lemma {:induction false} CloseAtFirst(text: string, bodyStart: nat, close: string, e: nat)
    requires bodyStart <= e && |close| > 0 && OccursAt(text, close, e)
    requires forall i :: bodyStart <= i < e ==> !OccursAt(text, close, i)
    ensures CloseFrom(text, bodyStart, close, true) == Closed(bodyStart, e, e + |close|)
  {
    IndexOfFirst(text, close, bodyStart);
    var r := IndexOf(text, close, bodyStart);
    assert r != -1;
    assert r == e;
    SearchEndStop(text, close, bodyStart, true, r);
  }

  /** The long-bracket matcher at an opener of level n closes at the first closer of level n. */
  lemma {:induction false} LongBracketAttempt(text: string, n: nat, e: nat, ignoreCase: bool)
    requires OpenerAt(text, "[", 0) && Level(text, "[", 0) == n
    requires n + 2 <= e && OccursAt(text, Closer(n), e)
    requires forall i :: n + 2 <= i < e ==> !OccursAt(text, Closer(n), i)
    ensures AttemptAt(Matchers[2], text, 0, ignoreCase) == Closed(n + 2, e, e + n + 2)
  {
    assert SameChar(text[0], "["[0], ignoreCase);
    assert StartsAt("[", text, 0, ignoreCase);
    TerminatorOfInitiator(Matchers[2], text, 0, ignoreCase);
    CloseAtFirst(text, n + 2, Closer(n), e);
  }

  /**
   * At a text that starts with an opener of level n, the scan finds the
   * long-bracket literal: its body runs to the first closer of level n.
   */
  lemma {:induction false} ScanLongBracket(text: string, n: nat, e: nat, ignoreCase: bool)
    requires OpenerAt(text, "[", 0) && Level(text, "[", 0) == n
    requires n + 2 <= e && OccursAt(text, Closer(n), e)
    requires forall i :: n + 2 <= i < e ==> !OccursAt(text, Closer(n), i)
    ensures Scan(text, 0, ignoreCase, 0) == Matched(2, 0, n + 2, e, e + n + 2)
    ensures Matchers[2].flags.noEscapes
  {
    BracketSkipsQuoteMatchers(text, 0, ignoreCase);
    LongBracketAttempt(text, n, e, ignoreCase);
    MatchersWellFormed(2);
  }

  /**
   * A literal found by a matcher without escapes (the long-bracket matcher) is
   * returned as it stands: no escape is decoded, a leading line break is kept
   * and no error is reported.
   */
  lemma {:induction false} LexVerbatim(text: string, pos: nat, ignoreCase: bool, k: nat,
                                       bodyStart: nat, bodyEnd: nat, position: nat, value: string)
    requires pos <= |text| && Scan(text, pos, ignoreCase, 0) == Matched(k, pos, bodyStart, bodyEnd, position)
    requires k < |Matchers| && Matchers[k].flags.noEscapes && text[bodyStart..bodyEnd] == value
    ensures Lex(text, pos, pos, ignoreCase) == Lexed(Success(Some(Token(StringLiteral, pos, position, StringValue(value), false))), [])
  {
  }

  /**
   * A text `[`, n `=`, `[`, a body holding no closer of level n, that closer
   * and anything else meets the conditions of `ScanLongBracket`, with the body
   * between the brackets.
   */
  lemma {:induction false} LongBracketShape(n: nat, body: string, rest: string)
    requires forall i :: 0 <= i < |body| ==> !OccursAt(body + Closer(n), Closer(n), i)
    ensures var text := "[" + Repeat('=', n) + "[" + body + Closer(n) + rest;
      var e := n + 2 + |body|;
      && OpenerAt(text, "[", 0) && Level(text, "[", 0) == n
      && OccursAt(text, Closer(n), e)
      && (forall i :: n + 2 <= i < e ==> !OccursAt(text, Closer(n), i))
      && text[n + 2..e] == body
  {
    var opener := "[" + Repeat('=', n) + "[";
    OpenerBeforeBody("[", n, body, Closer(n), rest);
    FirstCloserAfterBody(opener, body, Closer(n), rest);
    BodyBetween(opener, body, Closer(n), rest);
  }

  /**
   * A single quote with no quote after it opens no literal, but the preview
   * position stays after it: the double-quote matcher is tried from there.
   */
  lemma {:induction false} UnclosedQuoteMovesOn(text: string, pos: nat, ignoreCase: bool)
    requires pos < |text| && text[pos] == '\''
    requires forall p :: pos < p < |text| ==> text[p] != '\''
    ensures Scan(text, pos, ignoreCase, 0) == Scan(text, pos + 1, ignoreCase, 1)
  {
    assert SameChar(text[pos], "'"[0], ignoreCase);
    assert StartsAt("'", text, pos, ignoreCase);
    QuoteSearchFails(text, '\'', pos + 1);
    assert "'" == ['\''];
    MatchersWellFormed(0);
    assert AttemptAt(Matchers[0], text, pos, ignoreCase) == Unclosed(pos + 1);
  }

  /** Where no `q` follows, the search for `q` fails and leaves the position where it started. */
  lemma {:induction false} QuoteSearchFails(text: string, q: char, from: nat)
    requires from <= |text|
    requires forall p :: from <= p < |text| ==> text[p] != q
    ensures SearchEnd(text, [q], from, false) == (-1, from)
  {
    forall i | from <= i
      ensures !OccursAt(text, [q], i)
    {
      if i < |text| {
        assert text[i..i + 1][0] == text[i];
      }
    }
    IndexOfFirst(text, [q], from);
    SearchEndStop(text, [q], from, false, IndexOf(text, [q], from));
  }
}
