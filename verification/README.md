# CON configuration library — Dafny model

This project models the early skeleton of the CON configuration library and
its `con` command-line tool. The model has five parts:

- `text.dfy` (`ConText`): counting characters, splitting at a character, and
  the decimal rendering that `operator<<` gives a `size_t`, with its inverse.
- `errors.dfy` (`ConError`): `CON::Exception` with its two constructors,
  `what()`, `number()` and the `begin()`/`end()` message list. It also holds
  the `Result` type. A thrown exception becomes a `Failure` of that type.
- `node.dfy` (`ConObject`): the `CON::Type` kind enumeration, and the
  `Object` node as a map from identifier to child plus a literal string. It
  covers `isObject`, the guard shared by all `as*` casts, `asString`, `get`,
  `operator[]`, and the key order in which a `std::map` holds its identifiers.
- `lexer.dfy` (`ConLexer`): the per-character state machine of
  `Object::_load`. The locals form a state record, the `switch` is `Step`,
  and the `while` loop is `Run`, a fold of `Step` over the characters.
- `path.dfy` (`ConPath`): the tool's splitting of each argument on `/` into
  a path of identifiers, and the resolution of that path by repeated `get`.

The lexer keeps the quirks of the code as written:

- A closing `"` sets the status to `Comma` but never clears `quote`.
- `,` and `:` fall through into the backslash branch.
- A doubled backslash appends one backslash and leaves `escape` set.
- No branch assigns `Identifier` or `Value`. The `Value` branch of the space
  case is therefore unreachable, and `current_value` is never written.
- The unquoted `{` and `}` branches are empty placeholders. They do nothing
  here either.

Where the source does not compile, the model uses the evident reading:

- `switch( *it )` in `_load` is modelled as a switch on the character read.
- The unterminated literal in `get` is modelled as a not-found error with
  the text `Could not file identifier "<id>" in children`.
- The file constructor opens the file and then calls `_load` with one
  argument, although `_load` takes the stream and a line counter. The model
  reads this as loading the stream with a caller-supplied line counter
  (`ConLexer.Load`). The opening of the file is I/O and is not modelled.
- `what()` is a `const` member but assigns the summary to `_what`, which is
  not declared `mutable`. The model reads `what()` as a pure function that
  returns the summary that assignment would store.
- `get` is a `const` member but stores the result of `find` in a non-const
  `ObjectMap::iterator`. The model reads it as a read-only lookup in the
  child map.

This early version has no tokenizer, parser, array kind, writer or file
inclusion.

## Model

| member | source | states |
|---|---|---|
| ConError.ParseException | src/CON.cpp:14-23 | a parse-error exception's `number()` is 1 and its list holds exactly one message, `Error in file: "<file>", Line: <n> : <error>`, and its summary is `Found 1 parse errors` |
| ConError.MessageException | src/CON.cpp:26-31 | a message-only exception's `number()` is 0, its list is empty and its summary is the given text unchanged |
| ConError.What | src/CON.cpp:34-44 | for a parse error the summary reads back as `Found N parse errors` with N the message count; otherwise it is the stored text |
| ConError.MessageRoundTrip | src/CON.cpp:19-20 | a parse-error message can be read back into exactly the file name, line number and error it was built from, provided the file name holds no double quote |
| ConError.SummaryRoundTrip | src/CON.cpp:38-40 | the `Found N parse errors` summary determines N |
| ConError.ReadSummaryExact | src/CON.cpp:38-40 | the only text the summary reader accepts as N is `Found N parse errors` with N written without leading zeros, so `what()` is pinned exactly |
| ConText.ReadDecimalExact | src/CON.cpp:39 | digits read back as N only when they are exactly the rendering of N; leading zeros are rejected |
| ConText.DecimalRoundTrip | src/CON.cpp:20 | the decimal text of a line number or count reads back as that number |
| ConText.DecimalInjective | src/CON.cpp:39 | different counts never render to the same digits |
| ConObject.IsObject | inc/CON.h:87 | a node is an object exactly when some identifier maps to a child |
| ConObject.Cast | src/CON.cpp:97-141 | every `as*` accessor fails with `Cannot cast object to <kind>` exactly when the node has children; otherwise it passes the stored literal on to the conversion |
| ConObject.AsString | src/CON.cpp:86-94 | `asString` fails with `Cannot cast object to string` exactly when the node has children; otherwise it returns the stored literal unchanged |
| ConObject.Get | src/CON.cpp:153-165 | `get(id)` returns the child mapped to `id` exactly when there is one; otherwise it fails with a not-found message that names `id` |
| ConObject.Index | inc/CON.h:104 | `operator[](id)` succeeds exactly when `id` is a child, returns that child, otherwise fails with the not-found message naming `id`; and it agrees with `get` on every node and identifier |
| ConObject.BeforeTotal | inc/CON.h:63 | any two distinct identifiers are ordered by the string comparison the child map uses |
| ConObject.BeforeTransitive | inc/CON.h:63 | the identifier order is transitive |
| ConObject.BeforeIrreflexive | inc/CON.h:63 | no identifier comes before itself |
| ConObject.LeastIdentifier | inc/CON.h:63 | a non-empty set of identifiers has a least member, which comes before every other member |
| ConObject.Identifiers | inc/CON.h:63-67 | iterating the children visits every identifier exactly once, in strictly increasing key order |
| ConLexer.Step | src/CON.cpp:194-300 | one character: a newline adds exactly one line and is kept only when quoted and unescaped; braces are kept only when escaped or quoted; unlisted characters are always kept; every branch except `\ , :` clears `escape`; `\ , :` set `escape`, or append and leave it set; an unescaped `"` opens the quote, or when already quoted only sets `Comma`; an unquoted space in `Identifier` moves the buffer into the identifier and sets `Colon`, and in `Colon` or `Comma` is dropped; `current_id` changes only on that move to `Colon`; the status changes only on an unquoted space or a quote-closing `"`; nothing clears `quote` or enters `Identifier` or `Value` |
| ConLexer.Run | src/CON.cpp:191-302 | over any input: the line count grows by the number of newlines; `quote` never goes back to false; `Value` is never entered; `current_id` changes only by leaving `Identifier`, so it is set at most once; `current_value` is never written |
| ConLexer.Load | src/CON.cpp:171-303 | the loop computes the fold; from the initial locals the status is never `Value`, the value buffer stays empty, and the caller's line counter advances once per newline |
| ConLexer.RunAppend | src/CON.cpp:191-302 | reading two pieces of input one after the other is the same as reading them together |
| ConLexer.QuoteStaysOpen | src/CON.cpp:234-249 | once a quote has opened, it stays open whatever follows |
| ConLexer.QuoteNeverCloses | src/CON.cpp:234-249 | after a quoted word, the quote is still open, the status is `Comma`, and the word is in the buffer |
| ConLexer.IdentifierSetOnce | src/CON.cpp:252-271 | once the status has left `Identifier`, later input neither changes `current_id` nor returns to `Identifier` |
| ConLexer.IdentifierCaptured | src/CON.cpp:252-264 | from the start, an unquoted plain word followed by a space becomes `current_id`, with the buffer cleared and the status `Colon` |
| ConLexer.PlainTextCopied | src/CON.cpp:295-299 | characters without a case of their own are copied into the buffer verbatim, and only the buffer and `escape` change |
| ConLexer.DoubledBackslash | src/CON.cpp:283-292 | two backslashes append one backslash and leave `escape` set |
| ConPath.Pieces | exec/con.cxx:35-48 | splitting at every `/` gives one more piece than there are slashes, and no piece contains `/` |
| ConPath.Segments | exec/con.cxx:33-53 | no segment of a split argument contains `/` |
| ConPath.SplitArgument | exec/con.cxx:29-53 | the character loop produces exactly the segments of the argument |
| ConPath.SplitArguments | exec/con.cxx:27-56 | one path per argument, in argument order |
| ConPath.JoinSegments | exec/con.cxx:27-56 | joining the segments with `/` gives the argument with one leading `/` removed, then one trailing `/` removed |
| ConPath.SegmentsOfJoin | exec/con.cxx:33-53 | splitting a joined path gives the path back, when no segment holds `/` and the first and last segments are non-empty |
| ConPath.SegmentCount | exec/con.cxx:37-53 | the number of segments is the number of `/` in the stripped argument, plus one if text follows the last `/` |
| ConPath.InteriorEmptySegmentKept | exec/con.cxx:33-41 | each `/` pushes the buffer even when empty: `a//b` and `/a//b` both give `a`, empty, `b` |
| ConPath.TrailingEmptySegmentDropped | exec/con.cxx:50-53 | a trailing empty segment is dropped: `a/b/` gives `a`, `b` |
| ConPath.EmptyArgumentNamesRoot | exec/con.cxx:33-53 | an empty argument and a lone `/` both give the empty path |
| ConPath.Resolve | exec/con.cxx:64-71 | an empty path resolves to the root, and a one-identifier path resolves as `get` on the root |
| ConPath.ResolveAppend | exec/con.cxx:64-71 | a longer path is resolved left to right: resolve the first part, then continue from the node reached |
| ConPath.FailsAtFirstMissing | exec/con.cxx:68-71 | resolution fails with the not-found error of the first identifier that is missing along the way |
| ConPath.ResolveSucceeds | exec/con.cxx:64-71 | resolution succeeds exactly when every identifier is a child of the node reached before it |
| ConPath.ResolvePath | exec/con.cxx:64-71 | the traversal loop computes the resolution and stops at the first failing `get` |

## Left out

- Opening the file, and the error thrown when it cannot be opened: this is
  I/O.
- The `input >> c` stream read: the loop is modelled as a fold over an
  abstract sequence of characters. With default stream flags, `>>` skips
  whitespace, so spaces and newlines never reach the `switch` of a real
  stream. The model makes no claim about real streams.
- The `stoi`/`stof`/`stod` conversions of `asInt`, `asFloat` and `asDouble`:
  they are foreign calls and floating point. Only their shared guard (`Cast`)
  is modelled. `asBool` is not valid C++, and only its guard is modelled.
- The destructor and the raw-pointer ownership of children: memory
  management. Here, a child is a value inside its parent's map.
- `ConLexer.Step`: `lineNumber` is an unbounded natural number, so the
  wrap-around of `size_t` at 2^64 is not modelled.
- `ConError.ParseException`: the line number is a natural number, not a
  `size_t`, so counts of 2^64 and more are not excluded.
- The `main` entry point of `con`: the check for too few arguments, the usage
  text, printing each resolved value with `asString`, and catching and
  printing exceptions. These are console I/O and control flow around the
  modelled parts.
- `CON::buildFromStream`, `buildFromFile`, `writeToStream`, `addChild`,
  `setValue`, `push` and an array kind are used by the tool and the test
  programs but are not declared in the library header. They are not part
  of this model.
- The `_what` cache of `what()`: the summary is computed as a pure function,
  and its value is the one the cache would hold.
- Strings: `std::string` holds bytes, while the model's `string` holds
  Unicode characters. `ConObject.Before` compares code points, which agrees
  with the unsigned-byte order of `std::string` on ASCII and on UTF-8 text.
