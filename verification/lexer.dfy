/**
 * The character-level state machine inside `Object::_load`.  The locals of
 * that function form the state record; the body of its `switch` is `Step`;
 * the `while` loop around it is `Run`, a left fold of `Step` over the
 * characters read.  The source's quirks are kept: a closing double quote
 * never clears `quote`, `,` and `:` share the backslash branch, a doubled
 * backslash leaves `escape` set, and no branch ever enters `Value`.
 */
module ConLexer {
  import opened ConText

  /** The `Status` enumeration local to `_load`. */
  datatype Status = Identifier | Colon | Value | Comma

  /** The locals of `_load` and the caller's line counter. */
  datatype LexState = LexState(
    currentString: string,
    currentId: string,
    currentValue: string,
    escape: bool,
    quote: bool,
    status: Status,
    lineNumber: nat)

  /** The locals as `_load` initialises them, with the caller's line counter. */
  function Start(lineNumber: nat): LexState
  {
    LexState([], [], [], false, false, Identifier, lineNumber)
  }

  /** The characters that share the backslash branch (`,` and `:` fall through to it). */
  predicate IsEscapeChar(c: char) {
    c == '\\' || c == ',' || c == ':'
  }

  /** Characters with no `case` of their own, which the `default` branch appends. */
  predicate IsPlain(c: char) {
    c != '\n' && c != '{' && c != '}' && c != '"' && c != ' ' && !IsEscapeChar(c)
  }

  /** One pass through the `switch` for the character `c`. */
  function Step(s: LexState, c: char): (t: LexState)
    // only a newline moves the line counter, by exactly one
    ensures t.lineNumber == if c == '\n' then s.lineNumber + 1 else s.lineNumber
    // a newline is kept only inside quotes and when not escaped
    ensures c == '\n' ==> t.currentString == if s.quote && !s.escape then s.currentString + [c] else s.currentString
    // braces are kept only when escaped or quoted
    ensures c == '{' || c == '}' ==>
              t.currentString == if s.escape || s.quote then s.currentString + [c] else s.currentString
    // a character with no case of its own is always kept
    ensures IsPlain(c) ==> t.currentString == s.currentString + [c]
    // every branch except the backslash one leaves `escape` cleared
    ensures !IsEscapeChar(c) ==> !t.escape
    // the backslash branch sets `escape`, or appends and leaves it set
    ensures IsEscapeChar(c) ==> t.escape
    ensures IsEscapeChar(c) ==> t.currentString == if s.escape then s.currentString + [c] else s.currentString
    // an unescaped double quote opens a quote, or when already quoted only moves to `Comma`
    ensures c == '"' && !s.escape && !s.quote ==> t == s.(quote := true)
    ensures c == '"' && !s.escape && s.quote ==> t == s.(status := Comma)
    ensures c == '"' && s.escape ==> t.currentString == s.currentString + [c]
    // `quote` is set only by an unescaped double quote and never cleared
    ensures s.quote ==> t.quote
    ensures t.quote && !s.quote ==> c == '"' && !s.escape
    // an unquoted space while reading the identifier stores the buffer as the identifier
    ensures c == ' ' && !s.quote && s.status == Identifier ==>
              t.status == Colon && t.currentId == s.currentString && t.currentString == []
    ensures c == ' ' && s.quote ==> t.currentString == s.currentString + [c]
    // no branch returns to `Identifier` or enters `Value`
    ensures t.status == Identifier ==> s.status == Identifier
    ensures t.status == Value ==> s.status == Value
    // the identifier and the value are written only on leaving `Identifier` or `Value`
    ensures t.currentId != s.currentId ==> s.status == Identifier && t.status == Colon
    // the status moves only on an unquoted space or on a double quote closing a quote
    ensures t.status != s.status ==> (c == ' ' && !s.quote) || (c == '"' && !s.escape && s.quote)
    // an unquoted space after the identifier is dropped
    ensures c == ' ' && !s.quote && (s.status == Colon || s.status == Comma) ==> t == s.(escape := false)
    ensures t.currentValue != s.currentValue ==> s.status == Value
  {
    match c
    case '\n' =>
      s.(lineNumber := s.lineNumber + 1,
         currentString := if s.quote && !s.escape then s.currentString + [c] else s.currentString,
         escape := false)
    case '{' =>
      // unquoted and unescaped: the new-object placeholder, which does nothing
      s.(currentString := if s.escape || s.quote then s.currentString + [c] else s.currentString,
         escape := false)
    case '}' =>
      // unquoted and unescaped: the object-finished placeholder, which does nothing
      s.(currentString := if s.escape || s.quote then s.currentString + [c] else s.currentString,
         escape := false)
    case '"' =>
      if s.escape then s.(currentString := s.currentString + [c], escape := false)
      else if s.quote then s.(status := Comma)
      else s.(quote := true)
    case ' ' =>
      var t :=
        if s.quote then s.(currentString := s.currentString + [c])
        else if s.status == Identifier then s.(status := Colon, currentId := s.currentString, currentString := [])
        else if s.status == Value then s.(currentValue := s.currentString, currentString := [], status := Comma)
        else s;
      t.(escape := false)
    case ',' => EscapeBranch(s, c)
    case ':' => EscapeBranch(s, c)
    case '\\' => EscapeBranch(s, c)
    case _ => s.(currentString := s.currentString + [c], escape := false)
  }

  /** The branch shared by `,`, `:` and the backslash. */
  function EscapeBranch(s: LexState, c: char): LexState
  {
    if !s.escape then s.(escape := true) else s.(currentString := s.currentString + [c])
  }

  /** The `while` loop: `Step` applied to each character in turn. */
  function Run(s: LexState, cs: string): (t: LexState)
    ensures t.lineNumber == s.lineNumber + Count(cs, '\n')
    ensures s.quote ==> t.quote
    ensures t.status == Value ==> s.status == Value
    ensures s.status != Identifier ==> t.status != Identifier && t.currentId == s.currentId
    ensures t.status == Identifier ==> t.currentId == s.currentId
    ensures s.status != Value ==> t.currentValue == s.currentValue
    ensures |t.currentString| <= |s.currentString| + |cs|
    decreases |cs|
  {
    if |cs| == 0 then s else Step(Run(s, cs[..|cs| - 1]), cs[|cs| - 1])
  }

  /** Folding over two pieces of input one after the other is folding over both at once. */
  lemma {:induction false} RunAppend(s: LexState, a: string, b: string)
    ensures Run(s, a + b) == Run(Run(s, a), b)
    decreases |b|
  {
    if |b| > 0 {
      var ab := a + b;
      assert ab[..|ab| - 1] == a + b[..|b| - 1];
      assert ab[|ab| - 1] == b[|b| - 1];
      RunAppend(s, a, b[..|b| - 1]);
    } else {
      assert a + b == a;
    }
  }

  /**
   * `_load`: the loop over the input, reading one character at a time.  The
   * reached status is never `Value`, so the value buffer stays empty, and the
   * caller's line counter has advanced once per newline.
   */
  method Load(input: string, lineNumber: nat) returns (t: LexState)
    ensures t == Run(Start(lineNumber), input)
    ensures t.status != Value && t.currentValue == []
    ensures t.lineNumber == lineNumber + Count(input, '\n')
  {
    t := Start(lineNumber);
    var i := 0;
    while i < |input|
      invariant 0 <= i <= |input|
      invariant t == Run(Start(lineNumber), input[..i])
      decreases |input| - i
    {
      assert input[..i + 1][..i] == input[..i];
      t := Step(t, input[i]);
      i := i + 1;
    }
    assert input[..i] == input;
  }

  /** Once a quote has opened, it stays open for the rest of the input. */
  lemma QuoteStaysOpen(s: LexState, a: string, b: string)
    requires Run(s, a).quote
    ensures Run(s, a + b).quote
  {
    RunAppend(s, a, b);
  }

  /** Once the identifier has been taken, later input never changes it. */
  lemma IdentifierSetOnce(s: LexState, a: string, b: string)
    requires Run(s, a).status != Identifier
    ensures Run(s, a + b).currentId == Run(s, a).currentId
    ensures Run(s, a + b).status != Identifier
  {
    RunAppend(s, a, b);
  }

  /** Characters with no case of their own are copied into the buffer verbatim. */
  lemma {:induction false} PlainTextCopied(s: LexState, w: string)
    requires forall i :: 0 <= i < |w| ==> IsPlain(w[i])
    ensures Run(s, w).currentString == s.currentString + w
    ensures Run(s, w) == s.(currentString := s.currentString + w, escape := if |w| == 0 then s.escape else false)
    decreases |w|
  {
    if |w| > 0 {
      PlainTextCopied(s, w[..|w| - 1]);
      assert s.currentString + w[..|w| - 1] + [w[|w| - 1]] == s.currentString + w;
    } else {
      assert s.currentString + w == s.currentString;
    }
  }

  /** From the start, a plain word followed by a space becomes the identifier. */
  lemma IdentifierCaptured(lineNumber: nat, w: string)
    requires forall i :: 0 <= i < |w| ==> IsPlain(w[i])
    ensures Run(Start(lineNumber), w + " ").status == Colon
    ensures Run(Start(lineNumber), w + " ").currentId == w
    ensures Run(Start(lineNumber), w + " ").currentString == []
  {
    PlainTextCopied(Start(lineNumber), w);
    RunAppend(Start(lineNumber), w, " ");
  }

  /**
   * A quoted plain word: the closing double quote moves to `Comma` but leaves
   * the quote open, so the word stays in the buffer and later spaces are kept.
   */
  lemma QuoteNeverCloses(s: LexState, w: string)
    requires !s.quote && !s.escape
    requires forall i :: 0 <= i < |w| ==> IsPlain(w[i])
    ensures Run(s, "\"" + w + "\"").quote
    ensures Run(s, "\"" + w + "\"").status == Comma
    ensures Run(s, "\"" + w + "\"").currentString == s.currentString + w
  {
    var open := Run(s, "\"");
    assert open == s.(quote := true);
    PlainTextCopied(open, w);
    RunAppend(s, "\"", w);
    RunAppend(s, "\"" + w, "\"");
  }

  /** Two backslashes give one literal backslash and leave `escape` set. */
  lemma DoubledBackslash(s: LexState)
    requires !s.escape
    ensures Run(s, "\\\\").escape
    ensures Run(s, "\\\\").currentString == s.currentString + "\\"
  {
  }
}
