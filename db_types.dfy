/** Shared vocabulary of the model: results and errors, the opaque values handed to and
    returned by the database driver, the events a call into the driver leaves behind, and
    the fixed order in which a connection, a statement and a result set are released. */
module DbTypes {

  datatype Option<+T> = None | Some(value: T)

  datatype Result<+R, +E> = Ok(value: R) | Err(error: E)

  /** A caller-supplied argument value (a Java Object); only its identity matters here. */
  datatype Obj = NullObj | Obj(id: nat)

  /** The driver's SQLException, kept only as the cause it carries. */
  datatype SqlError = SqlError(code: int)

  /** What one call into the driver did: returned a value or threw. */
  datatype Outcome<+T> = Done(value: T) | Fails(cause: SqlError)

  /** Opaque driver objects. */
  datatype ConnectionRef = ConnectionRef(id: nat)
  datatype StatementRef = StatementRef(id: nat)
  datatype ResultSetRef = ResultSetRef(id: nat)

  /** A reconciled stored-procedure parameter: the mode character taken from the
      signature ('>' IN, '<' OUT, '=' INOUT), the declared type code and the value. */
  datatype BoundParam = BoundParam(modeChar: char, typeCode: int, value: Obj)

  /** The parameter modes the signature characters stand for. */
  datatype Mode = In | Out | InOut

  function ModeOf(c: char): (m: Option<Mode>)
    ensures m.Some? <==> c in {'>', '<', '='}
  {
    if c == '>' then Some(In)
    else if c == '<' then Some(Out)
    else if c == '=' then Some(InOut)
    else None
  }

  /** The failures a call can report. Validation failures carry the name of the
      descriptor's enumerated constant and the counts that the message would print;
      TypeIndexOutOfBounds is the array-bounds failure of reading a declared type past the
      end of the declared types. */
  datatype Error =
    | UnsupportedSignature(constant: string, signature: string)
    | SignatureArityMismatch(constant: string, argTypes: seq<int>, signatureCount: nat, declaredCount: int)
    | NoArgumentsExpected(constant: string)
    | InsufficientArguments(constant: string, argTypes: seq<int>, minimum: int, actual: nat)
    | IncorrectArgumentCount(constant: string, argNames: seq<string>, expected: int, actual: nat)
    | NullResultType
    | ResultSetClosed
    | TypeIndexOutOfBounds(index: nat, length: nat)
    | Sql(cause: SqlError)

  /** A query descriptor (QueryAPI): enumerated constant, query text, argument names,
      declared argument count and connection string. */
  datatype QueryDescriptor = QueryDescriptor(constant: string, queryStr: string, argNames: seq<string>, argCount: int, connection: string)

  /** A stored-procedure descriptor (SProcAPI): enumerated constant, signature, declared
      argument type codes, declared argument count and connection string. */
  datatype SProcDescriptor = SProcDescriptor(constant: string, signature: string, argTypes: seq<int>, argCount: int, connection: string)

  /** The calls made on the driver, in the order they are made. */
  datatype Event =
    | GetConnection(connectionStr: string)
    | PrepareStatement(sql: string)
    | PrepareCall(sql: string)
    | SetObject(index: nat, value: Obj)
    | SetParam(index: nat, param: BoundParam)
    | ExecUpdate
    | ExecQuery
    | Next
    | GetColumn
    | CloseResultSet
    | CloseStatement
    | Commit
    | CloseConnection

  /** How each release step of one cleanup pass turns out. */
  datatype CloseOutcomes = CloseOutcomes(resultSetOk: bool, statementOk: bool, commitOk: bool, connectionOk: bool)

  /** The release order shared by statement cleanup and ResultPackage.close: result set,
      statement, then commit and close of the connection. A failed commit skips the close
      of that connection; every other failure is swallowed and the next step still runs. */
  function CloseSequence(hasResultSet: bool, hasStatement: bool, hasConnection: bool, c: CloseOutcomes): seq<Event>
  {
    (if hasResultSet then [CloseResultSet] else [])
    + (if hasStatement then [CloseStatement] else [])
    + (if hasConnection then [Commit] + (if c.commitOk then [CloseConnection] else []) else [])
  }

  /** A release step is made exactly when there is something for it to release (the
      connection close only after a successful commit). */
  lemma CloseSequenceSteps(hasResultSet: bool, hasStatement: bool, hasConnection: bool, c: CloseOutcomes)
    ensures var t := CloseSequence(hasResultSet, hasStatement, hasConnection, c);
      && (CloseResultSet in t <==> hasResultSet)
      && (CloseStatement in t <==> hasStatement)
      && (Commit in t <==> hasConnection)
      && (CloseConnection in t <==> hasConnection && c.commitOk)
  {
  }

  /** Only release steps are made, in order: result set, statement, commit, connection
      close. */
  lemma CloseSequenceOrdered(hasResultSet: bool, hasStatement: bool, hasConnection: bool, c: CloseOutcomes)
    ensures var t := CloseSequence(hasResultSet, hasStatement, hasConnection, c);
      && (forall i :: 0 <= i < |t| ==> Rank(t[i]) < 4)
      && (forall i, j :: 0 <= i < j < |t| ==> Rank(t[i]) < Rank(t[j]))
  {
  }

  /** Position of a release step in the cleanup order. */
  function Rank(e: Event): nat
  {
    match e
    case CloseResultSet => 0
    case CloseStatement => 1
    case Commit => 2
    case CloseConnection => 3
    case _ => 4
  }
}
