/**
 * `LuaLongCommentTerminal`: the Irony terminal for Lua block comments
 * `--[=*[ ... ]=*]`. A fresh match checks for `--[`, counts the `=` signs of the
 * first `--\[(=*)\[` match at or after the position, and searches for the closer
 * of that level; a line scan that resumes an open comment searches for `]]`.
 */
module LuaLongComment {
  import opened Wrappers
  import opened Text
  import opened LongBrackets
  import opened Lexing

  /** The symbol `BeginMatch` checks for and `GetFirsts` advertises. */
  const Start: string := "--["

  /**
   * `BeginMatch`: nothing without `--[` at `pos`; otherwise the level and the body
   * start. The level comes from the first match of `--\[(=*)\[` at or after `pos`
   * (none: level 0), and the position advances by that match's length from `pos`.
   */
  function Begin(text: string, pos: nat): (b: Option<(nat, nat)>)
    requires pos <= |text|
    ensures b.Some? ==> pos <= b.value.1 <= |text|
  {
    if !OccursAt(text, Start, pos) then None
    else match FindOpener(text, Start, pos)
      case None => Some((0, pos))
      case Some(i) => Some((Level(text, Start, i), pos + OpenerLength(text, Start, i)))
  }

  /** `CompleteMatch`: the position after the first closer of `level` at or after `bodyStart`. */
  function CloseAfter(text: string, bodyStart: nat, level: nat): (stop: Option<nat>)
    requires bodyStart <= |text|
    ensures stop.Some? ==> bodyStart + level + 2 <= stop.value <= |text|
    ensures stop.Some? ==> OccursAt(text, Closer(level), stop.value - (level + 2))
  {
    var e := IndexOf(text, Closer(level), bodyStart);
    if e == -1 then None else Some(e + |Closer(level)|)
  }

  /** What `TryMatch` returns and leaves behind. */
  datatype Outcome = Outcome(token: Option<Token>, position: nat, lineScanState: int)

  /**
   * `TryMatch` from preview position `pos` of a token starting at `location`. A
   * non-zero line-scan state is reset and the opener is not looked for (level 0).
   * Without a closer the position moves to the end of the text, and the result is
   * an incomplete comment token in line-scan mode (`CreateIncompleteToken`, which
   * writes the multiline index over the low byte of a state that is 0 by then), an
   * "unclosed comment" error token otherwise.
   */
  function Matched(text: string, location: nat, pos: nat, lineScanState: int, lineScanMode: bool,
                   multilineIndex: ByteValue): (o: Outcome)
    requires location <= pos <= |text|
  {
    var start: Option<(nat, nat)> := if lineScanState != 0 then Some((0, pos)) else Begin(text, pos);
    match start
    case None => Outcome(None, pos, lineScanState)
    case Some((level, bodyStart)) =>
      match CloseAfter(text, bodyStart, level)
      case Some(stop) =>
        Outcome(Some(Token(LongComment, location, stop, StringValue(text[location..stop]), false)), stop, 0)
      case None =>
        if lineScanMode then
          Outcome(Some(Token(LongComment, location, |text|, StringValue(text[location..]), true)), |text|, multilineIndex)
        else
          Outcome(Some(Token(SyntaxError, location, |text|, ErrorMessage(UnclosedComment), false)), |text|, 0)
  }

  // ----- The terminal's methods, on the source stream and the parsing context -----

  /** `BeginMatch`: `source.MatchSymbol("--[")`, then the regular expression match. */
  method BeginMatch(source: SourceStream) returns (ok: bool, numberOfEquals: nat)
    requires source.Valid()
    modifies source
    ensures source.Valid()
    ensures var b := Begin(source.text, old(source.previewPosition));
      && (ok <==> b.Some?)
      && (ok ==> numberOfEquals == b.value.0 && source.previewPosition == b.value.1)
      && (!ok ==> numberOfEquals == 0 && source.previewPosition == old(source.previewPosition))
  {
    numberOfEquals := 0;
    if !OccursAt(source.text, Start, source.previewPosition) {
      return false, 0;
    }
    var found := FindOpener(source.text, Start, source.previewPosition);
    if found.Some? {
      numberOfEquals := Level(source.text, Start, found.value);
      source.previewPosition := source.previewPosition + OpenerLength(source.text, Start, found.value);
    }
    ok := true;
  }

  /** The `numberOfEquals--` loop of `CompleteMatch` that builds the end symbol. */
  method EndSymbol(numberOfEquals: nat) returns (endSymbol: string)
    ensures endSymbol == Closer(numberOfEquals)
  {
    endSymbol := "]";
    var n := numberOfEquals;
    while n > 0
      invariant 0 <= n <= numberOfEquals
      invariant endSymbol == "]" + Repeat('=', numberOfEquals - n)
    {
      RepeatSnoc('=', numberOfEquals - n);
      endSymbol := endSymbol + "=";
      n := n - 1;
    }
    endSymbol := endSymbol + "]";
  }

  /** One more copy of `c` at the end of a run. */
  lemma {:induction false} RepeatSnoc(c: char, n: nat)
    ensures Repeat(c, n + 1) == Repeat(c, n) + [c]
  {
    if n > 0 {
      RepeatSnoc(c, n - 1);
      assert Repeat(c, n + 1) == [c] + Repeat(c, n);
    }
  }

  /** `CompleteMatch`: a comment token up to the closer, or `null` with the position at the end. */
  method CompleteMatch(source: SourceStream, numberOfEquals: nat) returns (t: Option<Token>)
    requires source.Valid()
    modifies source
    ensures source.Valid()
    ensures var stop := CloseAfter(source.text, old(source.previewPosition), numberOfEquals);
      && (stop.Some? ==> source.previewPosition == stop.value && t == Some(source.CreateTextToken(LongComment)))
      && (stop.None? ==> source.previewPosition == |source.text| && t.None?)
  {
    var endSymbol := EndSymbol(numberOfEquals);
    var firstCharPos := IndexOf(source.text, endSymbol, source.previewPosition);
    if firstCharPos < 0 {
      source.previewPosition := |source.text|;
      return None;
    }
    source.previewPosition := firstCharPos + |endSymbol|;
    t := Some(source.CreateTextToken(LongComment));
  }

  /**
   * `CreateIncompleteToken`: the rest of the text as a comment token flagged
   * incomplete; the terminal index, the low byte of the line-scan state, becomes the
   * multiline index.
   */
  method CreateIncompleteToken(context: ParsingContext, source: SourceStream, multilineIndex: ByteValue) returns (t: Token)
    requires source.Valid()
    modifies context, source
    ensures source.previewPosition == |source.text| && source.Valid()
    ensures t == Token(LongComment, source.location, |source.text|, StringValue(source.text[source.location..]), true)
    ensures context.lineScanState == WithLowByte(old(context.lineScanState), multilineIndex)
    ensures context.errors == old(context.errors)
  {
    source.previewPosition := |source.text|;
    var token := source.CreateTextToken(LongComment);
    t := token.(incomplete := true);
    context.SetTerminalIndex(multilineIndex);
  }

  /**
   * `TryMatch`; `multilineIndex` is the terminal's `MultilineIndex`. Parser errors
   * are not reported here: an unclosed comment comes back as an error token.
   */
  method TryMatch(context: ParsingContext, source: SourceStream, multilineIndex: ByteValue) returns (t: Option<Token>)
    requires source.Valid()
    modifies context, source
    ensures source.Valid()
    ensures var o := Matched(source.text, source.location, old(source.previewPosition), old(context.lineScanState),
                             context.lineScanMode, multilineIndex);
      && t == o.token && source.previewPosition == o.position && context.lineScanState == o.lineScanState
    ensures context.errors == old(context.errors)
  {
    var equalsCount := 0;
    if context.lineScanState != 0 {
      // continuing in line mode: no internal state to restore
      context.lineScanState := 0;
    } else {
      var ok;
      ok, equalsCount := BeginMatch(source);
      if !ok {
        return None;
      }
    }
    var result := CompleteMatch(source, equalsCount);
    if result.Some? {
      return result;
    }
    if context.lineScanMode {
      var incomplete := CreateIncompleteToken(context, source, multilineIndex);
      return Some(incomplete);
    }
    t := Some(context.CreateErrorToken(source, UnclosedComment));
  }

  // ----- What the terminal promises -----

  /**
   * After `TryMatch` the line-scan state is 0, unless the token is an incomplete
   * one: then it is the multiline index, so the terminal index names the terminal.
   */
  lemma {:induction false} LineScanStateCleared(text: string, location: nat, pos: nat, lineScanState: int,
                                                lineScanMode: bool, multilineIndex: ByteValue)
    requires location <= pos <= |text|
    ensures var o := Matched(text, location, pos, lineScanState, lineScanMode, multilineIndex);
      var incomplete := o.token.Some? && o.token.value.incomplete;
      && (incomplete ==> o.lineScanState == multilineIndex && LowByte(o.lineScanState) == multilineIndex)
      && (!incomplete ==> o.lineScanState == 0)
  {
    if lineScanState == 0 {
      var o := Matched(text, location, pos, lineScanState, lineScanMode, multilineIndex);
      assert o.lineScanState == 0 || o.lineScanState == lineScanState || o.lineScanState == multilineIndex;
    }
  }

  /** A fresh match without `--[` at the position gives no token and moves nothing. */
  lemma {:induction false} NoStartNoToken(text: string, location: nat, pos: nat, lineScanMode: bool,
                                          multilineIndex: ByteValue)
    requires location <= pos <= |text| && !OccursAt(text, Start, pos)
    ensures Matched(text, location, pos, 0, lineScanMode, multilineIndex)
      == Outcome(None, pos, 0)
  {
  }

  /** With a long-comment opener at `pos`, the level is its number of `=` signs and the body starts after it. */
  lemma {:induction false} BeginAtOpener(text: string, pos: nat)
    requires pos <= |text| && OpenerAt(text, Start, pos)
    ensures Begin(text, pos) == Some((Level(text, Start, pos), pos + OpenerLength(text, Start, pos)))
  {
    assert text[pos..pos + |Start|] == Start;
    assert FindOpener(text, Start, pos) == Some(pos);
  }

  /** `CloseAfter` finds the first closer at or after the body start. */
  lemma {:induction false} CloseAfterFirst(text: string, bodyStart: nat, level: nat, e: nat)
    requires bodyStart <= e && OccursAt(text, Closer(level), e)
    requires forall i :: bodyStart <= i < e ==> !OccursAt(text, Closer(level), i)
    ensures CloseAfter(text, bodyStart, level) == Some(e + level + 2)
  {
    IndexOfFirst(text, Closer(level), bodyStart);
  }

  /** `CloseAfter` finds nothing when no closer follows the body start. */
  lemma {:induction false} CloseAfterNone(text: string, bodyStart: nat, level: nat)
    requires bodyStart <= |text|
    requires forall i :: bodyStart <= i ==> !OccursAt(text, Closer(level), i)
    ensures CloseAfter(text, bodyStart, level) == None
  {
    IndexOfFirst(text, Closer(level), bodyStart);
  }

  /**
   * A closed comment: the token runs from the location to just past the first
   * closer of the opener's level at or after the body start.
   */
  lemma {:induction false} ClosedComment(text: string, location: nat, pos: nat, lineScanMode: bool,
                                         multilineIndex: ByteValue, level: nat, bodyStart: nat, e: nat)
    requires location <= pos <= |text| && Begin(text, pos) == Some((level, bodyStart))
    requires bodyStart <= e && OccursAt(text, Closer(level), e)
    requires forall i :: bodyStart <= i < e ==> !OccursAt(text, Closer(level), i)
    ensures Matched(text, location, pos, 0, lineScanMode, multilineIndex)
      == Outcome(Some(Token(LongComment, location, e + level + 2, StringValue(text[location..e + level + 2]), false)),
                 e + level + 2, 0)
  {
    CloseAfterFirst(text, bodyStart, level, e);
  }

  /**
   * No closer: the position moves to the end; outside line-scan mode the result is
   * the "unclosed comment" error token, in line-scan mode an incomplete comment
   * token, with the terminal's multiline index as the line-scan state.
   */
  lemma {:induction false} UnclosedCommentToken(text: string, location: nat, pos: nat, lineScanMode: bool,
                                                multilineIndex: ByteValue)
    requires location <= pos <= |text| && OpenerAt(text, Start, pos)
    requires forall i :: pos <= i ==> !OccursAt(text, Closer(Level(text, Start, pos)), i)
    ensures var o := Matched(text, location, pos, 0, lineScanMode, multilineIndex);
      && o.position == |text|
      && (!lineScanMode ==> o.token == Some(Token(SyntaxError, location, |text|, ErrorMessage(UnclosedComment), false))
                            && o.lineScanState == 0)
      && (lineScanMode ==> o.token == Some(Token(LongComment, location, |text|, StringValue(text[location..]), true))
                           && o.lineScanState == multilineIndex)
  {
    BeginAtOpener(text, pos);
    CloseAfterNone(text, pos + OpenerLength(text, Start, pos), Level(text, Start, pos));
  }

  /**
   * A resumed line scan looks for the level-0 closer `]]` from the position: found,
   * the comment ends and the state is cleared; not found, the position moves to the
   * end, and in line-scan mode the comment stays open under the multiline index.
   */
  lemma {:induction false} ResumedScanSearchesLevelZero(text: string, location: nat, pos: nat, lineScanState: int,
                                                        lineScanMode: bool, multilineIndex: ByteValue)
    requires location <= pos <= |text| && lineScanState != 0
    ensures var o := Matched(text, location, pos, lineScanState, lineScanMode, multilineIndex);
      var e := IndexOf(text, "]]", pos);
      && (e != -1 ==> o.position == e + 2 && o.token.Some? && o.token.value.terminal == LongComment && !o.token.value.incomplete
                      && o.lineScanState == 0)
      && (e == -1 ==> o.position == |text| && o.lineScanState == (if lineScanMode then multilineIndex else 0))
  {
    assert Closer(0) == "]]";
  }

  /** A fresh match at the start of `--[`, n `=` signs and `[` has level n and its body after the opener. */
  lemma {:induction false} CommentBegin(n: nat, body: string, c: string, rest: string)
    ensures Begin(Start + Repeat('=', n) + "[" + body + c + rest, 0) == Some((n, n + 4))
  {
    var t := body + c + rest;
    assert Start + Repeat('=', n) + "[" + body + c + rest == Start + Repeat('=', n) + "[" + t;
    OpenerBefore(Start, n, t);
    BeginAtOpener(Start + Repeat('=', n) + "[" + t, 0);
  }

  /** After an opener of level n, a body free of `Closer(n)` ends at the closer that follows it. */
  lemma {:induction false} CommentClose(n: nat, opener: string, body: string, rest: string)
    requires |opener| == n + 4
    requires forall i :: 0 <= i < |body| ==> !OccursAt(body + Closer(n), Closer(n), i)
    ensures CloseAfter(opener + body + Closer(n) + rest, n + 4, n) == Some(n + 4 + |body| + n + 2)
  {
    FirstCloserAfterBody(opener, body, Closer(n), rest);
    CloseAfterFirst(opener + body + Closer(n) + rest, n + 4, n, |opener| + |body|);
  }

  /**
   * A whole block comment `--[==[ body ]==]`, whose body holds no closer of its
   * level (the closer is not found before its own place), is one comment token.
   */
  lemma {:induction false} WholeComment(n: nat, body: string, rest: string, lineScanMode: bool,
                                        multilineIndex: ByteValue)
    requires forall i :: 0 <= i < |body| ==> !OccursAt(body + Closer(n), Closer(n), i)
    ensures var s := Start + Repeat('=', n) + "[" + body + Closer(n) + rest;
      var stop := n + 4 + |body| + n + 2;
      Matched(s, 0, 0, 0, lineScanMode, multilineIndex)
        == Outcome(Some(Token(LongComment, 0, stop, StringValue(s[..stop]), false)), stop, 0)
  {
    CommentBegin(n, body, Closer(n), rest);
    CommentClose(n, Start + Repeat('=', n) + "[", body, rest);
  }

  /**
   * A `--[` that no long-bracket opener follows still starts a block comment: at
   * level 0 with the body right at `--[`, so it runs to the next `]]` (where Lua
   * itself would read a line comment).
   */
  lemma {:induction false} BareStartIsLongComment(text: string, location: nat, pos: nat, lineScanMode: bool,
                                                  multilineIndex: ByteValue, e: nat)
    requires location <= pos <= e && OccursAt(text, Start, pos)
    requires forall i: nat :: pos <= i ==> !OpenerAt(text, Start, i)
    requires OccursAt(text, "]]", e) && forall i :: pos <= i < e ==> !OccursAt(text, "]]", i)
    ensures Matched(text, location, pos, 0, lineScanMode, multilineIndex)
      == Outcome(Some(Token(LongComment, location, e + 2, StringValue(text[location..e + 2]), false)), e + 2, 0)
  {
    assert FindOpener(text, Start, pos).None?;
    assert Closer(0) == "]]";
    ClosedComment(text, location, pos, lineScanMode, multilineIndex, 0, pos, e);
  }
}
