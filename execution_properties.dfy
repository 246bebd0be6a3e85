/** Properties of the execution paths, stated on their specification functions: what comes
    back for each result shape, when and in what order resources are released, that cleanup
    failures never reach the caller, and that the validation failures of the front doors are
    reported before any driver call. */
module ExecutionProperties {
  import opened DbTypes
  import Signature
  import Reconcile
  import CallText
  import opened DatabaseUtils

  // ---------------------------------------------------------------------------------------
  // executeStatement

  /** Update runs executeUpdate, opens no result set, returns the row count, and then
      releases the statement and the connection. */
  lemma UpdateReturnsRowCount(conn: ConnectionRef, stmt: StatementRef, o: ExecOracle, c: CloseOutcomes)
    ensures var run := StatementRun(Update, conn, stmt, o, c);
      && ExecQuery !in run.trace && CloseResultSet !in run.trace
      && run.trace == [ExecUpdate, CloseStatement, Commit] + (if c.commitOk then [CloseConnection] else [])
      && run.result == (match o.executeUpdate
                        case Done(n) => Produced(IntValue(n))
                        case Fails(e) => Failed(Sql(e)))
  {
  }

  /** A query that returns no row yields -1 for Int and null for Str and Other. */
  lemma NoRowSentinels(shape: ResultShape, conn: ConnectionRef, stmt: StatementRef, o: ExecOracle, c: CloseOutcomes)
    requires shape != Update && shape != Package
    requires o.executeQuery.Done? && o.next == Done(false)
    ensures StatementRun(shape, conn, stmt, o, c).result == Produced(if shape == Int then IntValue(-1) else Null)
  {
  }

  /** With a row present, column 1 is returned as the shape asks. */
  lemma FirstRowValue(shape: ResultShape, conn: ConnectionRef, stmt: StatementRef, o: ExecOracle, c: CloseOutcomes)
    requires shape != Update && shape != Package
    requires o.executeQuery.Done? && o.next == Done(true)
    ensures var r := StatementRun(shape, conn, stmt, o, c).result;
      && (shape == Int && o.getInt.Done? ==> r == Produced(IntValue(o.getInt.value)))
      && (shape == Str && o.getString.Done? ==>
            r == Produced(if o.getString.value.Some? then Text(o.getString.value.value) else Null))
      && (shape.Other? && o.getObject.Done? ==>
            r == Produced(if o.getObject.value.Some? then Typed(shape.typeName, o.getObject.value.value) else Null))
  {
  }

  /** Package hands the connection, statement and result set to the caller and releases
      nothing. */
  lemma PackageRetainsResources(conn: ConnectionRef, stmt: StatementRef, o: ExecOracle, c: CloseOutcomes)
    requires o.executeQuery.Done?
    ensures StatementRun(Package, conn, stmt, o, c) == Run(Retained(conn, stmt, o.executeQuery.value), [ExecQuery])
  {
  }

  /** Resources are released exactly when execution failed or the shape is not Package.
      The release steps follow the try block's calls: the result set is closed exactly when
      one was opened, the statement is closed and the connection committed, the connection
      is closed exactly when the commit succeeded, and the steps come in that order. */
  lemma CleanupPolicy(shape: ResultShape, conn: ConnectionRef, stmt: StatementRef, o: ExecOracle, c: CloseOutcomes)
    ensures var a := TryBlock(shape, conn, stmt, o);
      var run := StatementRun(shape, conn, stmt, o, c);
      && |a.trace| <= |run.trace| && run.trace[..|a.trace|] == a.trace
      && var rel := run.trace[|a.trace|..];
      && (Releases(shape, a) ==>
            && (CloseResultSet in rel <==> a.resultSet.Some?)
            && CloseStatement in rel && Commit in rel
            && (CloseConnection in rel <==> c.commitOk)
            && (forall i :: 0 <= i < |rel| ==> Rank(rel[i]) < 4)
            && (forall i, j :: 0 <= i < j < |rel| ==> Rank(rel[i]) < Rank(rel[j])))
      && (!Releases(shape, a) ==> rel == [] && CloseStatement !in run.trace && Commit !in run.trace)
  {
    var a := TryBlock(shape, conn, stmt, o);
    var run := StatementRun(shape, conn, stmt, o, c);
    if Releases(shape, a) {
      var cs := CloseSequence(a.resultSet.Some?, true, true, c);
      assert run.trace == a.trace + cs;
      assert run.trace[|a.trace|..] == cs;
      CloseSequenceSteps(a.resultSet.Some?, true, true, c);
      CloseSequenceOrdered(a.resultSet.Some?, true, true, c);
    } else {
      assert run.trace == a.trace;
    }
  }

  /** The outcomes of the release steps never change what the caller gets: a primary
      failure is reported as itself, and a success stays a success. */
  lemma CleanupFailuresSwallowed(shape: ResultShape, conn: ConnectionRef, stmt: StatementRef, o: ExecOracle, c1: CloseOutcomes, c2: CloseOutcomes)
    ensures StatementRun(shape, conn, stmt, o, c1).result == StatementRun(shape, conn, stmt, o, c2).result
    ensures StatementRun(shape, conn, stmt, o, c1).result == TryBlock(shape, conn, stmt, o).result
  {
  }

  /** The Update and Int shapes never produce null, so the null-to--1 mapping of update and
      getInt is never taken: -1 from getInt means no row or a stored -1. */
  lemma IntShapesNeverNull(shape: ResultShape, conn: ConnectionRef, stmt: StatementRef, o: ExecOracle, c: CloseOutcomes)
    requires shape == Update || shape == Int
    ensures var r := StatementRun(shape, conn, stmt, o, c).result;
      r.Failed? || (r.Produced? && r.v.IntValue?)
  {
  }

  // ---------------------------------------------------------------------------------------
  // Front doors

  /** A query given the wrong number of arguments fails before any driver call, with the
      message kind chosen by the declared count. */
  lemma QueryCountMismatch(shape: ResultShape, q: QueryDescriptor, queryArgs: seq<Obj>, d: Driver)
    requires |queryArgs| != q.argCount
    ensures QueryRun(shape, q, queryArgs, d).trace == []
    ensures QueryRun(shape, q, queryArgs, d).result == Failed(
              if q.argCount == 0 then NoArgumentsExpected(q.constant)
              else IncorrectArgumentCount(q.constant, q.argNames, q.argCount, |queryArgs|))
  {
  }

  /** With the right count, the query asks for its connection first and binds every value,
      in order, at positions from 1. */
  lemma QueryBindsPositionally(shape: ResultShape, q: QueryDescriptor, queryArgs: seq<Obj>, d: Driver)
    requires |queryArgs| == q.argCount
    requires d.connect.Done? && d.prepare.Done? && !BindFails(d, |queryArgs|)
    ensures var t := QueryRun(shape, q, queryArgs, d).trace;
      && |t| >= 2 + |queryArgs|
      && t[..2] == [GetConnection(q.connection), PrepareStatement(q.queryStr)]
      && forall i :: 0 <= i < |queryArgs| ==> t[2 + i] == SetObject(i + 1, queryArgs[i])
  {
    var t := QueryRun(shape, q, queryArgs, d).trace;
    var pre := [GetConnection(q.connection), PrepareStatement(q.queryStr)];
    var s := StatementRun(shape, d.connect.value, d.prepare.value, d.exec, d.cleanup);
    assert t == pre + SetObjects(queryArgs, |queryArgs|) + s.trace;
    forall i | 0 <= i < |queryArgs| ensures t[2 + i] == SetObject(i + 1, queryArgs[i]) {
      assert t[2 + i] == SetObjects(queryArgs, |queryArgs|)[i];
    }
  }

  /** update returns the row count executeUpdate reports. */
  lemma UpdateWrapperCount(q: QueryDescriptor, queryArgs: seq<Obj>, d: Driver)
    requires |queryArgs| == q.argCount
    requires d.connect.Done? && d.prepare.Done? && !BindFails(d, |queryArgs|)
    requires d.exec.executeUpdate.Done?
    ensures AsInt(QueryRun(Update, q, queryArgs, d).result) == Ok(d.exec.executeUpdate.value)
  {
  }

  /** A failed prepare or bind leaves the connection (and statement) open: no release step
      is made on those paths. */
  lemma PrepareOrBindFailureReleasesNothing(shape: ResultShape, cs: string, sql: string, params: seq<Obj>, d: Driver)
    requires d.connect.Done?
    requires d.prepare.Fails? || BindFails(d, |params|)
    ensures var t := QueryTextRun(shape, cs, sql, params, d).trace;
      CloseStatement !in t && Commit !in t && CloseConnection !in t
  {
    var t := QueryTextRun(shape, cs, sql, params, d).trace;
    if d.prepare.Done? {
      var k := d.bindFailure.value.index + 1;
      assert t == [GetConnection(cs), PrepareStatement(sql)] + SetObjects(params, k);
      forall i | 0 <= i < |t| ensures t[i] != CloseStatement && t[i] != Commit && t[i] != CloseConnection {
        if i >= 2 { assert t[i] == SetObjects(params, k)[i - 2]; }
      }
    }
  }

  /** The same leak on the stored-procedure call path: a failed prepareCall or bind makes no
      release step. */
  lemma CallPrepareOrBindFailureReleasesNothing(shape: ResultShape, cs: string, name: string, params: seq<BoundParam>, d: Driver)
    requires d.connect.Done?
    requires d.prepare.Fails? || BindFails(d, |params|)
    ensures var t := CallRun(shape, cs, name, params, d).trace;
      CloseStatement !in t && Commit !in t && CloseConnection !in t
  {
    var t := CallRun(shape, cs, name, params, d).trace;
    if shape != Update && d.prepare.Done? {
      var k := d.bindFailure.value.index + 1;
      assert t == [GetConnection(cs), PrepareCall(CallText.CallText(name, |params|))] + SetParams(params, k);
      forall i | 0 <= i < |t| ensures t[i] != CloseStatement && t[i] != Commit && t[i] != CloseConnection {
        if i >= 2 { assert t[i] == SetParams(params, k)[i - 2]; }
      }
    }
  }

  // ---------------------------------------------------------------------------------------
  // Stored procedures

  /** A null result type is rejected before anything else. */
  lemma NullResultTypeRejected(sp: SProcDescriptor, parms: seq<Obj>, d: Driver, cs: string, name: string, params: seq<BoundParam>)
    ensures SProcRun(Update, sp, parms, d) == Run(Failed(NullResultType), [])
    ensures CallRun(Update, cs, name, params, d) == Run(Failed(NullResultType), [])
  {
  }

  /** Signature, arity and argument-count failures are reported before any driver call,
      each with its own error, and so is the out-of-bounds read of the declared types when
      the declared count exceeds their number. */
  lemma ValidationBeforeConnection(shape: ResultShape, sp: SProcDescriptor, parms: seq<Obj>, d: Driver)
    requires shape != Update
    ensures var parsed := Signature.ParseSignature(sp.constant, sp.signature);
      var run := SProcRun(shape, sp, parms, d);
      && (parsed.Err? ==> run == Run(Failed(UnsupportedSignature(sp.constant, sp.signature)), []))
      && (parsed.Ok? && |parsed.value.args| != sp.argCount ==>
            run == Run(Failed(SignatureArityMismatch(sp.constant, sp.argTypes, |parsed.value.args|, sp.argCount)), []))
      && (parsed.Ok? && |parsed.value.args| == sp.argCount == 0 < |parms| ==>
            run == Run(Failed(NoArgumentsExpected(sp.constant)), []))
      && (parsed.Ok? && |parsed.value.args| == sp.argCount && 0 < sp.argCount && |parms| < sp.argCount ==>
            run == Run(Failed(InsufficientArguments(sp.constant, sp.argTypes, sp.argCount, |parms|)), []))
      && (parsed.Ok? && |parsed.value.args| == sp.argCount <= |parms| && |sp.argTypes| < sp.argCount ==>
            run == Run(Failed(TypeIndexOutOfBounds(|sp.argTypes|, |sp.argTypes|)), []))
  {
    Signature.SignatureAccepted(sp.constant, sp.signature);
  }

  /** A call asks for its connection, prepares the call text for its parameter count and
      binds every parameter in order. */
  lemma CallBindsInOrder(shape: ResultShape, cs: string, name: string, params: seq<BoundParam>, d: Driver)
    requires shape != Update
    requires d.connect.Done? && d.prepare.Done? && !BindFails(d, |params|)
    ensures var t := CallRun(shape, cs, name, params, d).trace;
      && |t| >= 2 + |params|
      && t[..2] == [GetConnection(cs), PrepareCall(CallText.CallText(name, |params|))]
      && forall i :: 0 <= i < |params| ==> t[2 + i] == SetParam(i, params[i])
  {
    var t := CallRun(shape, cs, name, params, d).trace;
    var s := StatementRun(shape, d.connect.value, d.prepare.value, d.exec, d.cleanup);
    assert t == [GetConnection(cs), PrepareCall(CallText.CallText(name, |params|))] + SetParams(params, |params|) + s.trace;
    forall i | 0 <= i < |params| ensures t[2 + i] == SetParam(i, params[i]) {
      assert t[2 + i] == SetParams(params, |params|)[i];
    }
  }

  /** Once validation passes, the stored-procedure path is the call path on the reconciled
      parameters. */
  lemma SProcRunIsCall(shape: ResultShape, sp: SProcDescriptor, parms: seq<Obj>, d: Driver)
    requires shape != Update && sp.argCount <= |sp.argTypes|
    requires Signature.ParseSignature(sp.constant, sp.signature).Ok?
    requires var ps := Signature.ParseSignature(sp.constant, sp.signature).value;
      && Reconcile.ReconcileCheck(sp.constant, sp.argTypes, |ps.args|, sp.argCount, |parms|).None?
      && forall k :: 0 <= k < |ps.args| ==> ps.args[k] != []
    ensures var ps := Signature.ParseSignature(sp.constant, sp.signature).value;
      SProcRun(shape, sp, parms, d) == CallRun(shape, sp.connection, ps.name, Reconcile.Reconciled(ps.args, sp.argTypes[..sp.argCount], parms), d)
  {
  }

  /** The trace of a bound call: the connection is opened, the call is prepared on `text`,
      and then value i of `parms` is bound as parameter i, in order. */
  predicate BindsInOrder(t: seq<Event>, cs: string, text: string, parms: seq<Obj>)
  {
    && |t| >= 2 + |parms|
    && t[..2] == [GetConnection(cs), PrepareCall(text)]
    && forall i :: 0 <= i < |parms| ==> t[2 + i].SetParam? && t[2 + i].index == i && t[2 + i].param.value == parms[i]
  }

  /** Binding in order, seen from the supplied values the parameters carry. */
  lemma CallBindsValues(shape: ResultShape, cs: string, name: string, params: seq<BoundParam>, parms: seq<Obj>, d: Driver)
    requires shape != Update
    requires d.connect.Done? && d.prepare.Done? && !BindFails(d, |params|)
    requires |params| == |parms| && forall i :: 0 <= i < |parms| ==> params[i].value == parms[i]
    ensures BindsInOrder(CallRun(shape, cs, name, params, d).trace, cs, CallText.CallText(name, |parms|), parms)
  {
    CallBindsInOrder(shape, cs, name, params, d);
  }

  /** The call text built for an accepted signature has exactly one `?` per supplied value:
      the procedure name contributes none. */
  lemma AcceptedCallTextPlaceholders(constant: string, signature: string, n: nat)
    requires Signature.ParseSignature(constant, signature).Ok?
    ensures var name := Signature.ParseSignature(constant, signature).value.name;
      CallText.Count('?', CallText.CallText(name, n)) == n
  {
    var name := Signature.ParseSignature(constant, signature).value.name;
    Signature.ParsedNameChars(constant, signature);
    CallText.NoQuestionMark(name);
    CallText.CallTextPlaceholders(name, n);
  }

  /** Once validation passes, the call is prepared on the call text for the parsed name and
      the supplied values, and the reconciled parameters are bound in order, parameter i
      carrying supplied value i. */
  lemma StoredProcedureCall(shape: ResultShape, sp: SProcDescriptor, parms: seq<Obj>, d: Driver, ps: Signature.ParsedSignature)
    requires shape != Update && sp.argCount <= |sp.argTypes|
    requires Signature.ParseSignature(sp.constant, sp.signature) == Ok(ps)
    requires Reconcile.ReconcileCheck(sp.constant, sp.argTypes, |ps.args|, sp.argCount, |parms|).None?
    requires d.connect.Done? && d.prepare.Done? && !BindFails(d, |parms|)
    ensures BindsInOrder(SProcRun(shape, sp, parms, d).trace, sp.connection, CallText.CallText(ps.name, |parms|), parms)
  {
    Signature.ParsedPiecesNonEmpty(sp.constant, sp.signature);
    SProcRunIsCall(shape, sp, parms, d);
    CallBindsValues(shape, sp.connection, ps.name, Reconcile.Reconciled(ps.args, sp.argTypes[..sp.argCount], parms), parms, d);
  }
}
