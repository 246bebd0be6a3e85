# DatabaseUtils, modelled in Dafny

This project models the core of `DatabaseUtils`, a JDBC helper class. The class provides:

- **Query descriptors** (`QueryAPI`). Front doors `update`, `getInt`, `getString` and
  `getResultPackage` check the argument count. They then open a connection, prepare the
  query, bind the values positionally and execute it.
- **Stored-procedure descriptors** (`SProcAPI`). The signature (`NAME` or `NAME(>, <, =)`) is
  recognised by the pattern `SPROC_PATTERN`. Its group is split on a comma followed by one
  whitespace character. That argument count is reconciled with the declared types and the
  supplied values, and the trailing values take the last declared slot's mode and type. The
  text `{call NAME(?,?,...)}` is built, and each parameter is bound to the callable statement.
- **`executeStatement`**. It dispatches on the requested result type:
  - null: an update count;
  - `ResultPackage`: the live connection, statement and result set;
  - `Integer`, `String` or another type: row 1 / column 1, with -1 or null when there is no row.
  
  Then, unless a `ResultPackage` was returned, it releases the result set, the statement and
  the connection (commit, then close). Release failures are swallowed.
- **`ResultPackage`**. It hands out its result set until that has been released. Its `close`
  releases what it still holds, in the same order, and forgets a member only once that
  member's release succeeded.

The driver is not modelled. A `Driver` value is an oracle: for one call, it says what each
driver call returns or throws (an `Outcome`). An `ExecOracle` does the same for the
statement calls. Every path is described by:

- the result it delivers (or the error it raises);
- the sequence of driver calls it makes, as a trace of `Event`s.

Specification functions (`StatementRun`, `QueryTextRun`, `QueryRun`, `CallRun`, `SProcRun`)
give both. The methods follow the Java step by step and are proved equal to those functions.
Lemmas about the functions state what the source promises.

Modules and files:

- `db_types.dfy` (`DbTypes`): result, error, descriptor and event datatypes, and the shared
  release order `CloseSequence`.
- `signature.dfy` (`Signature`): the pattern, modelled as a recogniser `Recognise` with a
  structured result `SigForm`. Its partner is the printer `Render`, with round trips both
  ways. It also models Java's `String.split(",\\s")`: the cuts (`SplitRaw`), then the removal
  of trailing empty strings.
- `reconcile.dfy` (`Reconcile`): the three count checks and the two loops that fill the
  parameter array.
- `call_text.dfy` (`CallText`): the `StringBuilder` loop that builds the call text.
- `result_package.dfy` (`ResultPackages`): the `ResultPackage` class.
- `database_utils.dfy` (`DatabaseUtils`): the execution paths, both as specification functions
  and as methods.
- `execution_properties.dfy` (`ExecutionProperties`): the lemmas about those paths.

Where the code and its Javadoc or evident intent disagree, the model follows the code:

- **Leaked resources.** A failure while preparing the statement or binding a value is thrown
  straight out of the `try` in `executeQuery` and `executeStoredProcedure`. At that point
  `executeStatement` has not been reached, so the connection and statement are not released
  (`PrepareOrBindFailureReleasesNothing` for the query path,
  `CallPrepareOrBindFailureReleasesNothing` for the call path).
- **Pattern and split disagree.** The pattern admits `,\s*` between modes, but the split cuts
  only at `,` followed by exactly one whitespace character. So `P(>,>)` yields one argument,
  `">,>"` (`BareCommaIsOnePiece`). With two blanks after a comma, the split consumes only
  the first: `P(>,  >)` yields `">"` and `" >"` (`WideSeparatorBlankMode`). Only the first
  character of each piece is used as its mode, so `Mode.fromChar` is handed a blank, which
  names no mode. With exactly one whitespace character after every comma, every argument is
  a single mode character (`SingleSpacedModes`).
- **Dead null branch.** The null-to-`-1` branch of `update` and `getInt` can never be taken:
  `executeStatement` always returns an `Integer` for those result types (`IntShapesNeverNull`).

## Model

| member | source | states |
|---|---|---|
| Signature.SignatureAccepted | src/main/java/com/nordstrom/common/jdbc/DatabaseUtils.java:330-342 | A signature is accepted exactly when it is the text of some well-formed name-and-mode-group form; otherwise the error is UnsupportedSignature with the constant and the signature |
| Signature.RecogniseRender | src/main/java/com/nordstrom/common/jdbc/DatabaseUtils.java:179-180 | The pattern's recogniser reads back every well-formed form from its text |
| Signature.RenderRecognise | src/main/java/com/nordstrom/common/jdbc/DatabaseUtils.java:179-180 | Whatever the recogniser accepts is well formed and is exactly the text of the form it returns |
| Signature.ParseSepsText | src/main/java/com/nordstrom/common/jdbc/DatabaseUtils.java:180 | The `(?:,\s*[<>=])*` part of the pattern reads back every well-formed separator list from its text |
| Signature.ParseSepsSound | src/main/java/com/nordstrom/common/jdbc/DatabaseUtils.java:180 | A separator list read by that part of the pattern is well formed and reproduces the text read |
| Signature.NameCharsLen | src/main/java/com/nordstrom/common/jdbc/DatabaseUtils.java:180 | The greedy name scan takes a prefix of name characters and stops only at the end or at a character outside the class |
| Signature.WsLen | src/main/java/com/nordstrom/common/jdbc/DatabaseUtils.java:180 | The greedy `\s*` scan takes a prefix of whitespace and stops only at the end or at a non-whitespace character |
| Signature.DropTrailingEmpty | src/main/java/com/nordstrom/common/jdbc/DatabaseUtils.java:336 | Java's split result is a prefix of the raw pieces that does not end in an empty string, and only empty strings are dropped |
| Signature.SplitRawWhole | src/main/java/com/nordstrom/common/jdbc/DatabaseUtils.java:336 | A text that contains no comma followed by whitespace is not cut |
| Signature.SplitGroupPieces | src/main/java/com/nordstrom/common/jdbc/DatabaseUtils.java:336 | Splitting a group's text on `,\s` gives the pieces the group's separators determine: a cut exactly where the whitespace after a comma is non-empty, with that whitespace's first character consumed |
| Signature.SplitModes | src/main/java/com/nordstrom/common/jdbc/DatabaseUtils.java:335-337 | The full Java split of a mode group, trailing-empty removal included, equals that piece list |
| Signature.GroupPiecesCount | src/main/java/com/nordstrom/common/jdbc/DatabaseUtils.java:336 | The number of pieces is one more than the number of separators with whitespace |
| Signature.GroupPiecesNonEmpty | src/main/java/com/nordstrom/common/jdbc/DatabaseUtils.java:336 | No piece of a mode group is empty |
| Signature.ParsedArgs | src/main/java/com/nordstrom/common/jdbc/DatabaseUtils.java:333-337 | For an accepted signature, the name is group 1. The argument list is empty without a group or for `()`, and otherwise has one non-empty piece per cut plus one |
| Signature.ParsedPiecesNonEmpty | src/main/java/com/nordstrom/common/jdbc/DatabaseUtils.java:376-379 | Every argument piece of an accepted signature has a first character, so `args[i].charAt(0)` cannot fail |
| Signature.ParsedNameChars | src/main/java/com/nordstrom/common/jdbc/DatabaseUtils.java:179-180 | The name of an accepted signature starts with a letter or `_`, continues with name characters and contains no `?` |
| Signature.SingleSpacedArgs | src/main/java/com/nordstrom/common/jdbc/DatabaseUtils.java:335-337 | With exactly one whitespace character after every comma, the arguments are the mode characters, one per piece |
| Signature.ModesFormArgs | src/main/java/com/nordstrom/common/jdbc/DatabaseUtils.java:333-337 | The arguments of a well-formed signature with a mode group are that group's pieces |
| Signature.BareCommaIsOnePiece | src/main/java/com/nordstrom/common/jdbc/DatabaseUtils.java:333-337 | `NAME(>,>)` is accepted but yields the single argument `">,>"` |
| Signature.SingleSpacedModes | src/main/java/com/nordstrom/common/jdbc/DatabaseUtils.java:335-337 | With one whitespace character after every comma, every argument is a single character that names a mode |
| Signature.WideSeparatorBlankMode | src/main/java/com/nordstrom/common/jdbc/DatabaseUtils.java:335-337 | `NAME(>,  >)` is accepted but yields `>` and ` >`, whose first character names no mode |
| Signature.InInInOutExample | src/main/java/com/nordstrom/common/jdbc/DatabaseUtils.java:585-587 | The documented example `NAME(>, >, =)` yields the arguments `>`, `>`, `=` |
| Signature.EmptyGroupHasNoArgs | src/main/java/com/nordstrom/common/jdbc/DatabaseUtils.java:335 | `NAME()` leaves group 2 null and so declares no arguments |
| Reconcile.ReconcileCheck | src/main/java/com/nordstrom/common/jdbc/DatabaseUtils.java:344-367 | All three checks pass exactly when signature count = declared count, that count ≤ value count, and a zero count allows no values. Each failure gives its own error with its counts, in the source's order |
| Reconcile.Reconciled | src/main/java/com/nordstrom/common/jdbc/DatabaseUtils.java:369-386 | One parameter per supplied value. Declared slot i gets mode `args[i][0]`, type `argTypes[i]` and value i. Every trailing value gets the last slot's mode and type |
| Reconcile.FillParams | src/main/java/com/nordstrom/common/jdbc/DatabaseUtils.java:369-386 | The two loops fill the parameter array with exactly the reconciled parameters, reading only the first declared-count types. When the declared count exceeds the number of declared types, the read at that index is reported as out of bounds |
| Reconcile.ReconciledModes | src/main/java/com/nordstrom/common/jdbc/DatabaseUtils.java:373-386 | When every signature argument starts with a mode character, every reconciled parameter does too, the trailing ones included |
| CallText.PlaceholderCounts | src/main/java/com/nordstrom/common/jdbc/DatabaseUtils.java:413-417 | The placeholder list of n parameters holds n `?` and n-1 commas |
| CallText.NoQuestionMark | src/main/java/com/nordstrom/common/jdbc/DatabaseUtils.java:411-419 | A text without `?` adds no placeholder to the count |
| CallText.CallTextPlaceholders | src/main/java/com/nordstrom/common/jdbc/DatabaseUtils.java:411-419 | For a name without `?`, the call text holds exactly one `?` per parameter |
| CallText.BuildCallText | src/main/java/com/nordstrom/common/jdbc/DatabaseUtils.java:411-419 | The builder loop produces `{call NAME(?,?,...)}` with the placeholders joined by commas |
| ResultPackages.ResultPackage.constructor | src/main/java/com/nordstrom/common/jdbc/DatabaseUtils.java:641-645 | A new package holds the given connection, statement and result set |
| ResultPackages.ResultPackage.GetResultSet | src/main/java/com/nordstrom/common/jdbc/DatabaseUtils.java:652-655 | Returns the result set while it is held, and otherwise the closed-result-set failure |
| ResultPackages.ResultPackage.Close | src/main/java/com/nordstrom/common/jdbc/DatabaseUtils.java:658-678 | Releases what is still held in the fixed order, and clears a member only when its release succeeded (the connection only when commit and close both did). Closing a fully released package calls nothing |
| ResultPackages.ReleaseTwice | src/main/java/com/nordstrom/common/jdbc/DatabaseUtils.java:652-678 | After one successful close, the result set is unavailable and a second close makes no driver call |
| ResultPackages.RetryFailedRelease | src/main/java/com/nordstrom/common/jdbc/DatabaseUtils.java:652-678 | A result set whose release failed is still handed out, and the next close retries only it |
| DbTypes.ModeOf | src/main/java/com/nordstrom/common/jdbc/DatabaseUtils.java:578-580 | Exactly `>`, `<` and `=` stand for a parameter mode |
| DbTypes.CloseSequenceSteps | src/main/java/com/nordstrom/common/jdbc/DatabaseUtils.java:481-505 | Each release step happens exactly when there is something for it to release; the connection is closed only after a successful commit |
| DbTypes.CloseSequenceOrdered | src/main/java/com/nordstrom/common/jdbc/DatabaseUtils.java:481-505 | The release steps come in the order result set, statement, commit, connection close |
| DatabaseUtils.ReadFirstRow | src/main/java/com/nordstrom/common/jdbc/DatabaseUtils.java:468-475 | The row read for the Integer, String and other result types agrees with the specification of that block |
| DatabaseUtils.TryStatement | src/main/java/com/nordstrom/common/jdbc/DatabaseUtils.java:460-480 | The try block of executeStatement agrees with its specification: result or exception (the caught exception is present exactly when `failed` is set), calls made, result set opened. A returned package is newly allocated |
| DatabaseUtils.ExecuteStatement | src/main/java/com/nordstrom/common/jdbc/DatabaseUtils.java:455-509 | executeStatement's result and driver calls, cleanup included, are those of StatementRun. A returned ResultPackage is newly allocated, so the caller owns it and can close it |
| DatabaseUtils.BindObjects | src/main/java/com/nordstrom/common/jdbc/DatabaseUtils.java:299-301 | Binds every value at index i+1 unless one throws. If one throws, the trace stops at the failing bind |
| DatabaseUtils.ExecuteQueryText | src/main/java/com/nordstrom/common/jdbc/DatabaseUtils.java:294-307 | The query path's result and driver calls are those of QueryTextRun, and a returned package is newly allocated |
| DatabaseUtils.QueryCountCheck | src/main/java/com/nordstrom/common/jdbc/DatabaseUtils.java:256-271 | The check passes exactly when the value count equals the declared count. Otherwise the error is "no arguments expected" for a declared count of 0, else "incorrect argument count" with both counts |
| DatabaseUtils.ExecuteQuery | src/main/java/com/nordstrom/common/jdbc/DatabaseUtils.java:256-273 | The descriptor query path's result and driver calls are those of QueryRun, and a returned package is newly allocated |
| DatabaseUtils.UpdateRows | src/main/java/com/nordstrom/common/jdbc/DatabaseUtils.java:200-203 | update returns the integer of the Update run, or -1 for a null result |
| DatabaseUtils.GetInt | src/main/java/com/nordstrom/common/jdbc/DatabaseUtils.java:212-215 | getInt returns the integer of the Integer run, or -1 for a null result |
| DatabaseUtils.GetString | src/main/java/com/nordstrom/common/jdbc/DatabaseUtils.java:224-226 | getString returns the text of the String run, or null |
| DatabaseUtils.GetResultPackage | src/main/java/com/nordstrom/common/jdbc/DatabaseUtils.java:235-237 | getResultPackage returns what the Package run delivers, as a newly allocated package the caller can close |
| DatabaseUtils.UseAndCloseResultPackage | src/main/java/com/nordstrom/common/jdbc/DatabaseUtils.java:235-254 | On a run where every driver call succeeds, the returned package hands out the query's result set. Closing it releases result set, statement, commit and connection in that order, and the result set is then unavailable |
| DatabaseUtils.BindParams | src/main/java/com/nordstrom/common/jdbc/DatabaseUtils.java:425-427 | Binds every parameter at its 0-based index unless one throws. If one throws, the trace stops at the failing bind |
| DatabaseUtils.ExecuteCall | src/main/java/com/nordstrom/common/jdbc/DatabaseUtils.java:408-433 | The call path's result and driver calls are those of CallRun, and a returned package is newly allocated |
| DatabaseUtils.ExecuteStoredProcedure | src/main/java/com/nordstrom/common/jdbc/DatabaseUtils.java:325-389 | The descriptor call path (parse, reconcile, fill, call) has the result and driver calls of SProcRun, and a returned package is newly allocated |
| ExecutionProperties.UpdateReturnsRowCount | src/main/java/com/nordstrom/common/jdbc/DatabaseUtils.java:455-505 | A null result type runs executeUpdate and no query. It returns the update count or the failure, then closes the statement and commits, and closes the connection after a good commit |
| ExecutionProperties.NoRowSentinels | src/main/java/com/nordstrom/common/jdbc/DatabaseUtils.java:469-475 | With no row, Integer gives -1 and the other value types give null |
| ExecutionProperties.FirstRowValue | src/main/java/com/nordstrom/common/jdbc/DatabaseUtils.java:469-475 | With a row, Integer, String and other types give column 1 as read |
| ExecutionProperties.PackageRetainsResources | src/main/java/com/nordstrom/common/jdbc/DatabaseUtils.java:465-481 | The ResultPackage result keeps the connection, statement and result set, and nothing is released |
| ExecutionProperties.CleanupPolicy | src/main/java/com/nordstrom/common/jdbc/DatabaseUtils.java:478-505 | Cleanup runs after a failure or for any non-package type, after the try block's calls. It closes the result set exactly when one was opened, always closes the statement and commits, and closes the connection exactly when the commit succeeded, in that order and with no other call. Otherwise nothing is released |
| ExecutionProperties.CleanupFailuresSwallowed | src/main/java/com/nordstrom/common/jdbc/DatabaseUtils.java:481-505 | Release failures never change the result, which is that of the try block |
| ExecutionProperties.IntShapesNeverNull | src/main/java/com/nordstrom/common/jdbc/DatabaseUtils.java:200-215 | For null and Integer result types, executeStatement fails or returns an integer, never null |
| ExecutionProperties.QueryCountMismatch | src/main/java/com/nordstrom/common/jdbc/DatabaseUtils.java:256-271 | A wrong value count fails with the matching error before any driver call |
| ExecutionProperties.QueryBindsPositionally | src/main/java/com/nordstrom/common/jdbc/DatabaseUtils.java:294-301 | A query opens the descriptor's connection and prepares its text, then binds value i at index i+1 |
| ExecutionProperties.UpdateWrapperCount | src/main/java/com/nordstrom/common/jdbc/DatabaseUtils.java:200-203 | When every driver call succeeds, update returns the driver's update count |
| ExecutionProperties.PrepareOrBindFailureReleasesNothing | src/main/java/com/nordstrom/common/jdbc/DatabaseUtils.java:295-306 | On the query path, a failing prepare or bind releases neither the statement nor the connection |
| ExecutionProperties.CallPrepareOrBindFailureReleasesNothing | src/main/java/com/nordstrom/common/jdbc/DatabaseUtils.java:421-432 | On the call path, a failing prepareCall or bind releases neither the statement nor the connection |
| ExecutionProperties.NullResultTypeRejected | src/main/java/com/nordstrom/common/jdbc/DatabaseUtils.java:408-409 | Both stored-procedure entries (this one and the same check at line 326) reject a null result type before any driver call |
| ExecutionProperties.ValidationBeforeConnection | src/main/java/com/nordstrom/common/jdbc/DatabaseUtils.java:330-379 | An unsupported signature, each failed count check, and a declared count larger than the number of declared types each produce their own error, with no driver call |
| ExecutionProperties.CallBindsInOrder | src/main/java/com/nordstrom/common/jdbc/DatabaseUtils.java:411-427 | A call opens the connection, prepares the built call text, then binds parameter i at index i |
| ExecutionProperties.SProcRunIsCall | src/main/java/com/nordstrom/common/jdbc/DatabaseUtils.java:325-389 | Once parsing and reconciliation pass, the descriptor path is the call path on the signature's name and the reconciled parameters |
| ExecutionProperties.CallBindsValues | src/main/java/com/nordstrom/common/jdbc/DatabaseUtils.java:421-427 | The call binds, in order, parameters carrying exactly the given values |
| ExecutionProperties.AcceptedCallTextPlaceholders | src/main/java/com/nordstrom/common/jdbc/DatabaseUtils.java:411-419 | For an accepted signature's name, the call text holds one `?` per parameter |
| ExecutionProperties.StoredProcedureCall | src/main/java/com/nordstrom/common/jdbc/DatabaseUtils.java:369-427 | A valid stored-procedure call prepares `{call NAME(?,...)}` with one placeholder per supplied value, then binds the supplied values in order |

## Left out

- The static block that loads JDBC drivers through `ServiceLoader` (lines 186-191): a side
  effect on the JVM with no result.
- `getConnection` and `DriverManager` (lines 517-523): the driver is an oracle parameter.
  Each `Driver` value says what connecting, preparing, binding, executing and each release
  step do.
- `ResultSet.getObject(1, type)` coercion (line 474): the value is opaque, kept as a type name
  and an identity.
- `Param` and `Mode.fromChar` are not part of this model. Parameters keep the raw mode
  character, and binding (`Param.set`) is one event that carries the parameter. What
  `Mode.fromChar` does with a character that names no mode is therefore not modelled.
- `UncheckedThrow` and the texts of the exception messages: an error is a datatype variant
  carrying the values the message prints.
- `Objects.requireNonNull` on the result type is modelled as the `Update` shape being
  rejected. A null descriptor or a null value array is not modelled.
- Runtime exceptions other than `SQLException` are not modelled, for example a
  `ClassCastException` from a driver that returns the wrong type. The one exception that is
  modelled is the out-of-bounds read of the declared types. It is reported as the error
  `TypeIndexOutOfBounds`, before any driver call.
- Counts and update counts are unbounded integers. The 32-bit `int` range of the Java values
  is not modelled.
- `AutoCloseable` and try-with-resources use of `ResultPackage`: only explicit `close` calls
  are modelled.
- The descriptor interfaces `QueryAPI` and `SProcAPI` are modelled as value records
  (`QueryDescriptor`, `SProcDescriptor`), and the enumerated constant as its name.
