/** The execution paths of DatabaseUtils: the descriptor front doors with their argument
    count checks, plain queries with positional binding, stored-procedure calls assembled
    from a parsed signature and reconciled parameters, and executeStatement, which dispatches
    on the requested result shape and then releases the statement's resources unless the
    caller asked for the ResultPackage.

    The driver is an oracle: for one call, a Driver value says what each driver call returns
    or throws. Every path is specified by a function (the *Run functions) giving the result
    and the sequence of driver calls made; the methods are the source's step-by-step code and
    are proved to agree with those functions. */
module DatabaseUtils {
  import opened DbTypes
  import Signature
  import Reconcile
  import CallText
  import opened ResultPackages

  /** The requested result type, as a closed set of shapes: Update stands for a null type. */
  datatype ResultShape = Update | Package | Int | Str | Other(typeName: string)

  /** What the statement calls of one execution return or throw. */
  datatype ExecOracle = ExecOracle(
    executeUpdate: Outcome<int>,
    executeQuery: Outcome<ResultSetRef>,
    next: Outcome<bool>,
    getInt: Outcome<int>,
    getString: Outcome<Option<string>>,
    getObject: Outcome<Option<nat>>)

  /** Binding value `index` (counted from 0) is the first that throws. */
  datatype BindFailure = BindFailure(index: nat, cause: SqlError)

  /** What the driver does during one call. */
  datatype Driver = Driver(
    connect: Outcome<ConnectionRef>,
    prepare: Outcome<StatementRef>,
    bindFailure: Option<BindFailure>,
    exec: ExecOracle,
    cleanup: CloseOutcomes)

  /** A value executeStatement can return, other than the ResultPackage. */
  datatype Value = Null | IntValue(n: int) | Text(s: string) | Typed(typeName: string, id: nat)

  /** A returned object: a plain value or the ResultPackage handle. */
  datatype Reply = Plain(v: Value) | Packaged(p: ResultPackage)

  /** The outcome of a path as the specification functions describe it. */
  datatype StepResult =
    | Produced(v: Value)
    | Retained(conn: ConnectionRef, stmt: StatementRef, rs: ResultSetRef)
    | Failed(e: Error)

  datatype Run = Run(result: StepResult, trace: seq<Event>)

  /** The try block of executeStatement: the result, the calls made and the result set if
      one was opened. */
  datatype Attempt = Attempt(result: StepResult, trace: seq<Event>, resultSet: Option<ResultSetRef>)

  /** A method's reply is the one a specification result describes. */
  ghost predicate Delivers(r: Result<Reply, Error>, s: StepResult)
    reads if r.Ok? && r.value.Packaged? then {r.value.p} else {}
  {
    match s
    case Produced(v) => r == Ok(Plain(v))
    case Failed(e) => r == Err(e)
    case Retained(c, st, rs) => r.Ok? && r.value.Packaged? && r.value.p.Holds(c, st, rs)
  }

  // ---------------------------------------------------------------------------------------
  // executeStatement

  /** Column 1 of the current row, read as the shape asks. */
  function ReadColumn(shape: ResultShape, o: ExecOracle): StepResult
  {
    match shape
    case Int =>
      (match o.getInt
       case Done(n) => Produced(IntValue(n))
       case Fails(e) => Failed(Sql(e)))
    case Str =>
      (match o.getString
       case Done(s) => Produced(if s.Some? then Text(s.value) else Null)
       case Fails(e) => Failed(Sql(e)))
    case _ =>
      (match o.getObject
       case Done(v) => Produced(if v.Some? && shape.Other? then Typed(shape.typeName, v.value) else Null)
       case Fails(e) => Failed(Sql(e)))
  }

  /** The value for a query that returned no row: -1 for Int, null otherwise. */
  function NoRow(shape: ResultShape): Value
  {
    if shape == Int then IntValue(-1) else Null
  }

  /** The first-row step for the Int, Str and Other shapes: advance, then read column 1. */
  function RowBlock(shape: ResultShape, o: ExecOracle): (StepResult, seq<Event>)
  {
    match o.next
    case Fails(e) => (Failed(Sql(e)), [Next])
    case Done(hasRow) =>
      if hasRow then (ReadColumn(shape, o), [Next, GetColumn])
      else (Produced(NoRow(shape)), [Next])
  }

  function TryBlock(shape: ResultShape, conn: ConnectionRef, stmt: StatementRef, o: ExecOracle): Attempt
  {
    if shape == Update then
      match o.executeUpdate
      case Done(n) => Attempt(Produced(IntValue(n)), [ExecUpdate], None)
      case Fails(e) => Attempt(Failed(Sql(e)), [ExecUpdate], None)
    else
      match o.executeQuery
      case Fails(e) => Attempt(Failed(Sql(e)), [ExecQuery], None)
      case Done(rs) =>
        if shape == Package then Attempt(Retained(conn, stmt, rs), [ExecQuery], Some(rs))
        else
          var row := RowBlock(shape, o);
          Attempt(row.0, [ExecQuery] + row.1, Some(rs))
  }

  /** The resources are released when the execution failed or the shape is not Package. */
  predicate Releases(shape: ResultShape, a: Attempt)
  {
    a.result.Failed? || shape != Package
  }

  function StatementRun(shape: ResultShape, conn: ConnectionRef, stmt: StatementRef, o: ExecOracle, c: CloseOutcomes): Run
  {
    var a := TryBlock(shape, conn, stmt, o);
    Run(a.result, a.trace + if Releases(shape, a) then CloseSequence(a.resultSet.Some?, true, true, c) else [])
  }

  /** The try block's outcome as held in the source's locals: `result`, and `failed` with
      the exception caught, which is present exactly when `failed` is set. */
  ghost predicate InLocals(result: Reply, failed: bool, error: Option<Error>, s: StepResult)
    reads if result.Packaged? then {result.p} else {}
  {
    match s
    case Failed(e) => failed && error == Some(e)
    case Produced(v) => !failed && error.None? && result == Plain(v)
    case Retained(c, st, rs) => !failed && error.None? && result.Packaged? && result.p.Holds(c, st, rs)
  }

  /** Reads the first row for the Int, Str and Other shapes. */
  method ReadFirstRow(shape: ResultShape, o: ExecOracle) returns (result: Value, failed: bool, error: Option<Error>, trace: seq<Event>)
    ensures failed <==> RowBlock(shape, o).0.Failed?
    ensures failed <==> error.Some?
    ensures failed ==> error == Some(RowBlock(shape, o).0.e)
    ensures !failed ==> RowBlock(shape, o).0 == Produced(result)
    ensures trace == RowBlock(shape, o).1
  {
    result, failed, error := Null, false, None;
    trace := [Next];
    match o.next
    case Fails(e) => failed, error := true, Some(Sql(e));
    case Done(hasRow) =>
      if !hasRow {
        result := if shape == Int then IntValue(-1) else Null;
      } else {
        trace := trace + [GetColumn];
        if shape == Int {
          match o.getInt
          case Done(n) => result := IntValue(n);
          case Fails(e) => failed, error := true, Some(Sql(e));
        } else if shape == Str {
          match o.getString
          case Done(s) => result := if s.Some? then Text(s.value) else Null;
          case Fails(e) => failed, error := true, Some(Sql(e));
        } else {
          match o.getObject
          case Done(v) => result := if v.Some? && shape.Other? then Typed(shape.typeName, v.value) else Null;
          case Fails(e) => failed, error := true, Some(Sql(e));
        }
      }
  }

  /** The try block of executeStatement. */
  method TryStatement(shape: ResultShape, conn: ConnectionRef, stmt: StatementRef, o: ExecOracle)
    returns (result: Reply, failed: bool, error: Option<Error>, resultSet: Option<ResultSetRef>, trace: seq<Event>)
    ensures InLocals(result, failed, error, TryBlock(shape, conn, stmt, o).result)
    ensures result.Packaged? ==> fresh(result.p)
    ensures resultSet == TryBlock(shape, conn, stmt, o).resultSet
    ensures trace == TryBlock(shape, conn, stmt, o).trace
  {
    result, failed, error, resultSet := Plain(Null), false, None, None;
    if shape == Update {
      trace := [ExecUpdate];
      match o.executeUpdate
      case Done(n) => result := Plain(IntValue(n));
      case Fails(e) => failed, error := true, Some(Sql(e));
    } else {
      trace := [ExecQuery];
      match o.executeQuery
      case Fails(e) => failed, error := true, Some(Sql(e));
      case Done(rs) =>
        resultSet := Some(rs);
        if shape == Package {
          var p := new ResultPackage(conn, stmt, rs);
          result := Packaged(p);
        } else {
          var v, rowTrace;
          v, failed, error, rowTrace := ReadFirstRow(shape, o);
          result := Plain(v);
          trace := trace + rowTrace;
        }
    }
  }

  method ExecuteStatement(shape: ResultShape, conn: ConnectionRef, stmt: StatementRef, o: ExecOracle, c: CloseOutcomes)
    returns (r: Result<Reply, Error>, trace: seq<Event>)
    ensures Delivers(r, StatementRun(shape, conn, stmt, o, c).result)
    ensures r.Ok? && r.value.Packaged? ==> fresh(r.value.p)
    ensures trace == StatementRun(shape, conn, stmt, o, c).trace
  {
    var result, failed, error, resultSet;
    result, failed, error, resultSet, trace := TryStatement(shape, conn, stmt, o);
    ghost var tried := trace;
    // finally: release unless the caller takes the package; each failure is swallowed,
    // and a failed commit skips the close of the connection
    if failed || shape != Package {
      if resultSet.Some? {
        trace := trace + [CloseResultSet];
      }
      trace := trace + [CloseStatement];
      trace := trace + [Commit];
      if c.commitOk {
        trace := trace + [CloseConnection];
      }
    }
    assert trace == tried + if failed || shape != Package then CloseSequence(resultSet.Some?, true, true, c) else [];
    r := if failed then Err(error.value) else Ok(result);
  }

  // ---------------------------------------------------------------------------------------
  // Plain queries

  function SetObjects(params: seq<Obj>, k: nat): seq<Event>
    requires k <= |params|
  {
    seq(k, i requires 0 <= i < k => SetObject(i + 1, params[i]))
  }

  /** Binding throws at some value of the `n` to be bound. */
  predicate BindFails(d: Driver, n: nat)
  {
    d.bindFailure.Some? && d.bindFailure.value.index < n
  }

  /** The setObject loop: value i goes to position i + 1; the first failure ends it. */
  method BindObjects(params: seq<Obj>, d: Driver) returns (ok: bool, trace: seq<Event>)
    ensures ok <==> !BindFails(d, |params|)
    ensures ok ==> trace == SetObjects(params, |params|)
    ensures !ok ==> trace == SetObjects(params, d.bindFailure.value.index + 1)
  {
    trace := [];
    var i := 0;
    while i < |params|
      invariant 0 <= i <= |params|
      invariant trace == SetObjects(params, i)
      invariant !BindFails(d, i)
    {
      assert SetObjects(params, i + 1) == SetObjects(params, i) + [SetObject(i + 1, params[i])];
      trace := trace + [SetObject(i + 1, params[i])];
      if d.bindFailure.Some? && d.bindFailure.value.index == i {
        return false, trace;
      }
      i := i + 1;
    }
    ok := true;
  }

  /** executeQuery(resultType, connectionStr, queryStr, params...). */
  function QueryTextRun(shape: ResultShape, cs: string, sql: string, params: seq<Obj>, d: Driver): Run
  {
    match d.connect
    case Fails(e) => Run(Failed(Sql(e)), [GetConnection(cs)])
    case Done(conn) =>
      match d.prepare
      case Fails(e) => Run(Failed(Sql(e)), [GetConnection(cs), PrepareStatement(sql)])
      case Done(stmt) =>
        var pre := [GetConnection(cs), PrepareStatement(sql)];
        if BindFails(d, |params|) then
          Run(Failed(Sql(d.bindFailure.value.cause)), pre + SetObjects(params, d.bindFailure.value.index + 1))
        else
          var s := StatementRun(shape, conn, stmt, d.exec, d.cleanup);
          Run(s.result, pre + SetObjects(params, |params|) + s.trace)
  }

  method ExecuteQueryText(shape: ResultShape, connectionStr: string, queryStr: string, params: seq<Obj>, d: Driver)
    returns (r: Result<Reply, Error>, trace: seq<Event>)
    ensures Delivers(r, QueryTextRun(shape, connectionStr, queryStr, params, d).result)
    ensures r.Ok? && r.value.Packaged? ==> fresh(r.value.p)
    ensures trace == QueryTextRun(shape, connectionStr, queryStr, params, d).trace
  {
    trace := [GetConnection(connectionStr)];
    if d.connect.Fails? {
      return Err(Sql(d.connect.cause)), trace;
    }
    var connection := d.connect.value;
    trace := trace + [PrepareStatement(queryStr)];
    if d.prepare.Fails? {
      return Err(Sql(d.prepare.cause)), trace;
    }
    var statement := d.prepare.value;
    var bound, binds := BindObjects(params, d);
    trace := trace + binds;
    if !bound {
      return Err(Sql(d.bindFailure.value.cause)), trace;
    }
    ghost var pre := [GetConnection(connectionStr), PrepareStatement(queryStr)];
    assert trace == pre + SetObjects(params, |params|);
    var tail;
    r, tail := ExecuteStatement(shape, connection, statement, d.exec, d.cleanup);
    ghost var s := StatementRun(shape, connection, statement, d.exec, d.cleanup);
    assert QueryTextRun(shape, connectionStr, queryStr, params, d) == Run(s.result, pre + SetObjects(params, |params|) + s.trace);
    trace := trace + tail;
  }

  /** The argument count check of the descriptor front door. */
  function QueryCountCheck(q: QueryDescriptor, actualCount: nat): (e: Option<Error>)
    ensures e.None? <==> actualCount == q.argCount
    ensures e.Some? && q.argCount == 0 ==> e.value == NoArgumentsExpected(q.constant)
    ensures e.Some? && q.argCount != 0 ==>
              e.value == IncorrectArgumentCount(q.constant, q.argNames, q.argCount, actualCount)
  {
    if actualCount != q.argCount then
      Some(if q.argCount == 0 then NoArgumentsExpected(q.constant)
           else IncorrectArgumentCount(q.constant, q.argNames, q.argCount, actualCount))
    else None
  }

  /** executeQuery(resultType, query, queryArgs...). */
  function QueryRun(shape: ResultShape, q: QueryDescriptor, queryArgs: seq<Obj>, d: Driver): Run
  {
    match QueryCountCheck(q, |queryArgs|)
    case Some(e) => Run(Failed(e), [])
    case None => QueryTextRun(shape, q.connection, q.queryStr, queryArgs, d)
  }

  method ExecuteQuery(shape: ResultShape, q: QueryDescriptor, queryArgs: seq<Obj>, d: Driver)
    returns (r: Result<Reply, Error>, trace: seq<Event>)
    ensures Delivers(r, QueryRun(shape, q, queryArgs, d).result)
    ensures r.Ok? && r.value.Packaged? ==> fresh(r.value.p)
    ensures trace == QueryRun(shape, q, queryArgs, d).trace
  {
    var expectCount := q.argCount;
    var actualCount := |queryArgs|;
    if actualCount != expectCount {
      var e := if expectCount == 0 then NoArgumentsExpected(q.constant)
               else IncorrectArgumentCount(q.constant, q.argNames, expectCount, actualCount);
      return Err(e), [];
    }
    r, trace := ExecuteQueryText(shape, q.connection, q.queryStr, queryArgs, d);
  }

  /** The int the typed wrappers return: the Integer's value, or -1 for null. */
  function AsInt(s: StepResult): Result<int, Error>
  {
    match s
    case Failed(e) => Err(e)
    case Produced(IntValue(n)) => Ok(n)
    case _ => Ok(-1)
  }

  /** The String getString returns (None for null). */
  function AsText(s: StepResult): Result<Option<string>, Error>
  {
    match s
    case Failed(e) => Err(e)
    case Produced(Text(t)) => Ok(Some(t))
    case _ => Ok(None)
  }

  method UpdateRows(q: QueryDescriptor, queryArgs: seq<Obj>, d: Driver) returns (r: Result<int, Error>, trace: seq<Event>)
    ensures r == AsInt(QueryRun(Update, q, queryArgs, d).result)
    ensures trace == QueryRun(Update, q, queryArgs, d).trace
  {
    var reply;
    reply, trace := ExecuteQuery(Update, q, queryArgs, d);
    r := match reply
      case Err(e) => Err(e)
      case Ok(v) => Ok(if v.Plain? && v.v.IntValue? then v.v.n else -1);
  }

  method GetInt(q: QueryDescriptor, queryArgs: seq<Obj>, d: Driver) returns (r: Result<int, Error>, trace: seq<Event>)
    ensures r == AsInt(QueryRun(Int, q, queryArgs, d).result)
    ensures trace == QueryRun(Int, q, queryArgs, d).trace
  {
    var reply;
    reply, trace := ExecuteQuery(Int, q, queryArgs, d);
    r := match reply
      case Err(e) => Err(e)
      case Ok(v) => Ok(if v.Plain? && v.v.IntValue? then v.v.n else -1);
  }

  method GetString(q: QueryDescriptor, queryArgs: seq<Obj>, d: Driver) returns (r: Result<Option<string>, Error>, trace: seq<Event>)
    ensures r == AsText(QueryRun(Str, q, queryArgs, d).result)
    ensures trace == QueryRun(Str, q, queryArgs, d).trace
  {
    var reply;
    reply, trace := ExecuteQuery(Str, q, queryArgs, d);
    r := match reply
      case Err(e) => Err(e)
      case Ok(v) => Ok(if v.Plain? && v.v.Text? then Some(v.v.s) else None);
  }

  method GetResultPackage(q: QueryDescriptor, queryArgs: seq<Obj>, d: Driver) returns (r: Result<Reply, Error>, trace: seq<Event>)
    ensures Delivers(r, QueryRun(Package, q, queryArgs, d).result)
    ensures r.Ok? && r.value.Packaged? ==> fresh(r.value.p)
    ensures trace == QueryRun(Package, q, queryArgs, d).trace
  {
    r, trace := ExecuteQuery(Package, q, queryArgs, d);
  }

  /** The caller's side of getResultPackage on a run where every driver call succeeds: the
      package hands out the query's result set, closing it releases everything in order, and
      the result set is then unavailable. */
  method UseAndCloseResultPackage(q: QueryDescriptor, queryArgs: seq<Obj>, d: Driver)
    returns (before: Result<ResultSetRef, Error>, released: seq<Event>, after: Result<ResultSetRef, Error>)
    requires |queryArgs| == q.argCount
    requires d.connect.Done? && d.prepare.Done? && !BindFails(d, |queryArgs|)
    requires d.exec.executeQuery.Done?
    ensures before == Ok(d.exec.executeQuery.value)
    ensures released == [CloseResultSet, CloseStatement, Commit, CloseConnection]
    ensures after == Err(ResultSetClosed)
  {
    var r, trace := GetResultPackage(q, queryArgs, d);
    assert QueryRun(Package, q, queryArgs, d).result == Retained(d.connect.value, d.prepare.value, d.exec.executeQuery.value);
    var p := r.value.p;
    before := p.GetResultSet();
    released := p.Close(CloseOutcomes(true, true, true, true));
    after := p.GetResultSet();
  }

  // ---------------------------------------------------------------------------------------
  // Stored procedures

  function SetParams(params: seq<BoundParam>, k: nat): seq<Event>
    requires k <= |params|
  {
    seq(k, i requires 0 <= i < k => SetParam(i, params[i]))
  }

  /** The Param.set loop: parameter i is handed index i; the first failure ends it. */
  method BindParams(params: seq<BoundParam>, d: Driver) returns (ok: bool, trace: seq<Event>)
    ensures ok <==> !BindFails(d, |params|)
    ensures ok ==> trace == SetParams(params, |params|)
    ensures !ok ==> trace == SetParams(params, d.bindFailure.value.index + 1)
  {
    trace := [];
    var i := 0;
    while i < |params|
      invariant 0 <= i <= |params|
      invariant trace == SetParams(params, i)
      invariant !BindFails(d, i)
    {
      assert SetParams(params, i + 1) == SetParams(params, i) + [SetParam(i, params[i])];
      trace := trace + [SetParam(i, params[i])];
      if d.bindFailure.Some? && d.bindFailure.value.index == i {
        return false, trace;
      }
      i := i + 1;
    }
    ok := true;
  }

  /** executeStoredProcedure(resultType, connectionStr, sprocName, params...). */
  function CallRun(shape: ResultShape, cs: string, name: string, params: seq<BoundParam>, d: Driver): Run
  {
    if shape == Update then Run(Failed(NullResultType), [])
    else
      var text := CallText.CallText(name, |params|);
      match d.connect
      case Fails(e) => Run(Failed(Sql(e)), [GetConnection(cs)])
      case Done(conn) =>
        match d.prepare
        case Fails(e) => Run(Failed(Sql(e)), [GetConnection(cs), PrepareCall(text)])
        case Done(stmt) =>
          var pre := [GetConnection(cs), PrepareCall(text)];
          if BindFails(d, |params|) then
            Run(Failed(Sql(d.bindFailure.value.cause)), pre + SetParams(params, d.bindFailure.value.index + 1))
          else
            var s := StatementRun(shape, conn, stmt, d.exec, d.cleanup);
            Run(s.result, pre + SetParams(params, |params|) + s.trace)
  }

  method ExecuteCall(shape: ResultShape, connectionStr: string, sprocName: string, params: seq<BoundParam>, d: Driver)
    returns (r: Result<Reply, Error>, trace: seq<Event>)
    ensures Delivers(r, CallRun(shape, connectionStr, sprocName, params, d).result)
    ensures r.Ok? && r.value.Packaged? ==> fresh(r.value.p)
    ensures trace == CallRun(shape, connectionStr, sprocName, params, d).trace
  {
    if shape == Update {
      return Err(NullResultType), [];
    }
    var sprocStr := CallText.BuildCallText(sprocName, |params|);
    trace := [GetConnection(connectionStr)];
    if d.connect.Fails? {
      return Err(Sql(d.connect.cause)), trace;
    }
    var connection := d.connect.value;
    trace := trace + [PrepareCall(sprocStr)];
    if d.prepare.Fails? {
      return Err(Sql(d.prepare.cause)), trace;
    }
    var statement := d.prepare.value;
    var bound, binds := BindParams(params, d);
    trace := trace + binds;
    if !bound {
      return Err(Sql(d.bindFailure.value.cause)), trace;
    }
    ghost var pre := [GetConnection(connectionStr), PrepareCall(sprocStr)];
    assert trace == pre + SetParams(params, |params|);
    ghost var s := StatementRun(shape, connection, statement, d.exec, d.cleanup);
    assert CallRun(shape, connectionStr, sprocName, params, d) == Run(s.result, pre + SetParams(params, |params|) + s.trace);
    var tail;
    r, tail := ExecuteStatement(shape, connection, statement, d.exec, d.cleanup);
    trace := trace + tail;
  }

  /** executeStoredProcedure(resultType, sproc, parms...): parse, check, reconcile, call. */
  function SProcRun(shape: ResultShape, sp: SProcDescriptor, parms: seq<Obj>, d: Driver): Run
  {
    if shape == Update then Run(Failed(NullResultType), [])
    else
      match Signature.ParseSignature(sp.constant, sp.signature)
      case Err(e) => Run(Failed(e), [])
      case Ok(ps) =>
        match Reconcile.ReconcileCheck(sp.constant, sp.argTypes, |ps.args|, sp.argCount, |parms|)
        case Some(e) => Run(Failed(e), [])
        case None =>
          if sp.argCount > |sp.argTypes| then Run(Failed(TypeIndexOutOfBounds(|sp.argTypes|, |sp.argTypes|)), [])
          else
            Signature.ParsedPiecesNonEmpty(sp.constant, sp.signature);
            CallRun(shape, sp.connection, ps.name, Reconcile.Reconciled(ps.args, sp.argTypes[..sp.argCount], parms), d)
  }

  method ExecuteStoredProcedure(shape: ResultShape, sp: SProcDescriptor, parms: seq<Obj>, d: Driver)
    returns (r: Result<Reply, Error>, trace: seq<Event>)
    ensures Delivers(r, SProcRun(shape, sp, parms, d).result)
    ensures r.Ok? && r.value.Packaged? ==> fresh(r.value.p)
    ensures trace == SProcRun(shape, sp, parms, d).trace
  {
    if shape == Update {
      return Err(NullResultType), [];
    }
    var parsed := Signature.ParseSignature(sp.constant, sp.signature);
    if parsed.Err? {
      return Err(parsed.error), [];
    }
    var sprocName := parsed.value.name;
    var args := parsed.value.args;
    var typesCount := sp.argCount;
    var check := Reconcile.ReconcileCheck(sp.constant, sp.argTypes, |args|, typesCount, |parms|);
    if check.Some? {
      return Err(check.value), [];
    }
    Signature.ParsedPiecesNonEmpty(sp.constant, sp.signature);
    var parmArray, outOfBounds := Reconcile.FillParams(args, sp.argTypes, typesCount, parms);
    if outOfBounds.Some? {
      return Err(TypeIndexOutOfBounds(outOfBounds.value, |sp.argTypes|)), [];
    }
    r, trace := ExecuteCall(shape, sp.connection, sprocName, parmArray[..], d);
  }
}
