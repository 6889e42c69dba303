/**
 * Error reporting of the CON library: the `CON::Exception` class, the decimal
 * rendering its parse-error messages use, and the result type every fallible
 * operation of the model returns in place of a thrown exception.
 */
module ConError {
  import opened ConText

  /**
   * A `CON::Exception`: the ordered list of parse-error messages, the summary
   * text given to the message-only constructor, and the flag telling the two
   * constructors apart.  `what()` recomputes its summary from the list when the
   * flag is set, so the cached text only matters for message-only exceptions.
   */
  datatype Exception = Exception(errors: seq<string>, whatText: string, parseError: bool)

  /** The outcome of an operation that either produces a value or throws. */
  datatype Result<+T> = Success(value: T) | Failure(error: Exception) {

    predicate IsFailure() {
      Failure?
    }

    function PropagateFailure<U>(): Result<U>
      requires Failure?
    {
      Failure(error)
    }

    function Extract(): T
      requires Success?
    {
      value
    }
  }

  // ---------------------------------------------------------------------------
  // The two constructors and the accessors of `CON::Exception`

  const FilePrefix: string := "Error in file: \""
  const LinePrefix: string := ", Line: "
  const ErrorPrefix: string := ": "
  const SummaryPrefix: string := "Found "
  const SummarySuffix: string := " parse errors"

  /** The one message a parse error carries, naming the file, the line and the error. */
  function ParseMessage(filename: string, lineNumber: nat, error: string): string
  {
    FilePrefix + filename + "\"" + LinePrefix + Decimal(lineNumber) + " " + ErrorPrefix + error
  }

  /** The constructor `Exception( filename, lineNumber, error )`. */
  function ParseException(filename: string, lineNumber: nat, error: string): (e: Exception)
    ensures e.parseError
    ensures Number(e) == 1 && Messages(e) == [ParseMessage(filename, lineNumber, error)]
    ensures What(e) == "Found 1 parse errors"
  {
    Exception([ParseMessage(filename, lineNumber, error)], "", true)
  }

  /** The constructor `Exception( error )`: no messages, and the text is the summary. */
  function MessageException(error: string): (e: Exception)
    ensures !e.parseError
    ensures Number(e) == 0 && Messages(e) == []
    ensures What(e) == error
  {
    Exception([], error, false)
  }

  /** `number()`: how many messages the exception holds. */
  function Number(e: Exception): (n: nat)
    ensures n == |Messages(e)|
  {
    |e.errors|
  }

  /** The messages `begin()`/`end()` walk through, in the order they were added. */
  function Messages(e: Exception): seq<string>
  {
    e.errors
  }

  /** `what()`: a count of the parse errors for a parse error, the stored text otherwise. */
  function What(e: Exception): (w: string)
    ensures e.parseError ==> ReadSummary(w) == Some(Number(e))
    ensures !e.parseError ==> w == e.whatText
  {
    if e.parseError then
      SummaryRoundTrip(|e.errors|);
      SummaryPrefix + Decimal(|e.errors|) + SummarySuffix
    else
      e.whatText
  }

  /** Recovers the count from a `Found N parse errors` summary. */
  function ReadSummary(w: string): Option<nat>
  {
    if |SummaryPrefix| + |SummarySuffix| <= |w|
       && w[..|SummaryPrefix|] == SummaryPrefix
       && w[|w| - |SummarySuffix|..] == SummarySuffix
    then ReadDecimal(w[|SummaryPrefix|..|w| - |SummarySuffix|])
    else None
  }

  lemma SummaryRoundTrip(n: nat)
    ensures ReadSummary(SummaryPrefix + Decimal(n) + SummarySuffix) == Some(n)
  {
    var d := Decimal(n);
    var w := SummaryPrefix + d + SummarySuffix;
    assert w[..|SummaryPrefix|] == SummaryPrefix;
    assert w[|w| - |SummarySuffix|..] == SummarySuffix;
    assert w[|SummaryPrefix|..|w| - |SummarySuffix|] == d;
    DecimalRoundTrip(n);
  }

  /** A text the summary reader accepts as N is exactly the summary for N. */
  lemma ReadSummaryExact(w: string, n: nat)
    requires ReadSummary(w) == Some(n)
    ensures w == SummaryPrefix + Decimal(n) + SummarySuffix
  {
    var d := w[|SummaryPrefix|..|w| - |SummarySuffix|];
    ReadDecimalExact(d, n);
    assert w == w[..|SummaryPrefix|] + d + w[|w| - |SummarySuffix|..];
  }

  // ---------------------------------------------------------------------------
  // Reading a parse-error message back

  datatype MessageParts = MessageParts(filename: string, lineNumber: nat, error: string)

  /** Takes a parse-error message apart into file name, line number and error text. */
  function ReadMessage(m: string): Option<MessageParts>
  {
    if !(FilePrefix <= m) then None
    else
      match SplitAtFirst(m[|FilePrefix|..], '"')
      case None => None
      case Some(fileAndRest) =>
        match ReadLineAndError(fileAndRest.1)
        case None => None
        case Some(lineAndError) => Some(MessageParts(fileAndRest.0, lineAndError.0, lineAndError.1))
  }

  /** Reads the `, Line: <n> : <error>` part that follows the quoted file name. */
  function ReadLineAndError(rest: string): Option<(nat, string)>
  {
    if !(LinePrefix <= rest) then None
    else
      match SplitAtFirst(rest[|LinePrefix|..], ' ')
      case None => None
      case Some(lineAndRest) =>
        var tail := lineAndRest.1;
        if !(ErrorPrefix <= tail) then None
        else
          match ReadDecimal(lineAndRest.0)
          case None => None
          case Some(n) => Some((n, tail[|ErrorPrefix|..]))
  }

  lemma ReadLineAndErrorRoundTrip(lineNumber: nat, error: string)
    ensures ReadLineAndError(LinePrefix + Decimal(lineNumber) + " " + ErrorPrefix + error)
            == Some((lineNumber, error))
  {
    var d := Decimal(lineNumber);
    var tail := ErrorPrefix + error;
    var rest := LinePrefix + d + " " + ErrorPrefix + error;
    assert LinePrefix <= rest;
    assert rest[|LinePrefix|..] == d + [' '] + tail;
    assert ' ' !in d by {
      forall i | 0 <= i < |d| ensures d[i] != ' ' {
        assert IsDigit(d[i]);
      }
    }
    SplitAtFirstOf(d, tail, ' ');
    assert ErrorPrefix <= tail;
    assert tail[|ErrorPrefix|..] == error;
    DecimalRoundTrip(lineNumber);
  }

  /**
   * A parse-error message determines the file name, line number and error it
   * was built from, as long as the file name holds no double quote.
   */
  lemma MessageRoundTrip(filename: string, lineNumber: nat, error: string)
    requires '"' !in filename
    ensures ReadMessage(ParseMessage(filename, lineNumber, error))
            == Some(MessageParts(filename, lineNumber, error))
  {
    var m := ParseMessage(filename, lineNumber, error);
    var rest := LinePrefix + Decimal(lineNumber) + " " + ErrorPrefix + error;
    assert m == FilePrefix + (filename + ['"'] + rest);
    assert FilePrefix <= m;
    assert m[|FilePrefix|..] == filename + ['"'] + rest;
    SplitAtFirstOf(filename, rest, '"');
    ReadLineAndErrorRoundTrip(lineNumber, error);
  }
}
