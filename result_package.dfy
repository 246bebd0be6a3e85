/** The handle returned for the Package result shape: the connection, statement and result
    set of one query, owned by the caller from then on. Releasing it walks the same order as
    statement cleanup and drops each member only once that member has been released without
    error, so a failed release can be retried and a completed one is not repeated. */
module ResultPackages {
  import opened DbTypes

  class ResultPackage {
    var connection: Option<ConnectionRef>
    var statement: Option<StatementRef>
    var resultSet: Option<ResultSetRef>

    constructor (connection: ConnectionRef, statement: StatementRef, resultSet: ResultSetRef)
      ensures Holds(connection, statement, resultSet)
    {
      this.connection := Some(connection);
      this.statement := Some(statement);
      this.resultSet := Some(resultSet);
    }

    /** The package still holds all three of the given objects. */
    predicate Holds(c: ConnectionRef, s: StatementRef, r: ResultSetRef)
      reads this
    {
      connection == Some(c) && statement == Some(s) && resultSet == Some(r)
    }

    /** Every member has been released. */
    predicate Released()
      reads this
    {
      connection.None? && statement.None? && resultSet.None?
    }

    /** The result set, or the invalid-state failure once it has been released. */
    method GetResultSet() returns (r: Result<ResultSetRef, Error>)
      ensures r.Ok? <==> resultSet.Some?
      ensures r.Ok? ==> r.value == resultSet.value
      ensures r.Err? ==> r.error == ResultSetClosed
    {
      if resultSet.Some? {
        return Ok(resultSet.value);
      }
      return Err(ResultSetClosed);
    }

    /** Releases what is still held, in order, with the outcomes `c` for each step; returns
        the driver calls made. */
    method Close(c: CloseOutcomes) returns (trace: seq<Event>)
      modifies this
      ensures trace == CloseSequence(old(resultSet).Some?, old(statement).Some?, old(connection).Some?, c)
      ensures resultSet == (if c.resultSetOk then None else old(resultSet))
      ensures statement == (if c.statementOk then None else old(statement))
      ensures connection == (if c.commitOk && c.connectionOk then None else old(connection))
      ensures old(Released()) ==> trace == [] && Released()
    {
      ghost var first := if resultSet.Some? then [CloseResultSet] else [];
      ghost var second := if statement.Some? then [CloseStatement] else [];
      trace := [];
      if resultSet.Some? {
        trace := trace + [CloseResultSet];
        if c.resultSetOk {
          resultSet := None;
        }
      }
      assert trace == first;
      if statement.Some? {
        trace := trace + [CloseStatement];
        if c.statementOk {
          statement := None;
        }
      }
      assert trace == first + second;
      if connection.Some? {
        trace := trace + [Commit];
        if c.commitOk {
          trace := trace + [CloseConnection];
          if c.connectionOk {
            connection := None;
          }
        }
      }
    }
  }

  /** A package released once with every step succeeding: the result set is then
      unavailable and releasing again calls nothing. */
  method ReleaseTwice(conn: ConnectionRef, stmt: StatementRef, rs: ResultSetRef)
    returns (first: seq<Event>, access: Result<ResultSetRef, Error>, second: seq<Event>)
    ensures first == [CloseResultSet, CloseStatement, Commit, CloseConnection]
    ensures access == Err(ResultSetClosed)
    ensures second == []
  {
    var p := new ResultPackage(conn, stmt, rs);
    var allOk := CloseOutcomes(true, true, true, true);
    first := p.Close(allOk);
    access := p.GetResultSet();
    second := p.Close(allOk);
  }

  /** A package whose result set fails to close keeps it: it is still returned, and the
      next release tries it again and nothing else. */
  method RetryFailedRelease(conn: ConnectionRef, stmt: StatementRef, rs: ResultSetRef)
    returns (first: seq<Event>, access: Result<ResultSetRef, Error>, second: seq<Event>)
    ensures first == [CloseResultSet, CloseStatement, Commit, CloseConnection]
    ensures access == Ok(rs)
    ensures second == [CloseResultSet]
  {
    var p := new ResultPackage(conn, stmt, rs);
    first := p.Close(CloseOutcomes(false, true, true, true));
    access := p.GetResultSet();
    second := p.Close(CloseOutcomes(true, true, true, true));
  }
}
