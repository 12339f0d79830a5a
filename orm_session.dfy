/**
 * The ORM session: an SQL text buffer and an argument list that `Raw` calls
 * accumulate and that every execution hands to the database and then clears.
 * The database driver is outside the model: an execution is represented by
 * the statement it hands over.
 */
module OrmSession {

  /** An opaque database handle. */
  type DbHandle = nat

  /** Which driver entry point an execution uses. */
  datatype QueryKind = Exec | QueryRow | QueryRows

  /** What an execution hands to the database: the SQL text and its arguments. */
  datatype Statement<V> = Statement(kind: QueryKind, sql: string, vars: seq<V>)

  /** One `Raw` call: its SQL fragment and its values. */
  datatype RawCall<V> = RawCall(sql: string, values: seq<V>)

  /** The SQL text a list of `Raw` calls builds: each fragment followed by one space. */
  function Text<V>(calls: seq<RawCall<V>>): string
  {
    if calls == [] then "" else Text(calls[..|calls| - 1]) + calls[|calls| - 1].sql + " "
  }

  /** The arguments a list of `Raw` calls collects, in call order. */
  function Vars<V>(calls: seq<RawCall<V>>): seq<V>
  {
    if calls == [] then [] else Vars(calls[..|calls| - 1]) + calls[|calls| - 1].values
  }

  /** The text of a chain of calls is the text of its first part followed by that of its second. */
  lemma {:induction false} TextAppend<V>(a: seq<RawCall<V>>, b: seq<RawCall<V>>)
    ensures Text(a + b) == Text(a) + Text(b)
  {
    if b == [] {
      assert a + b == a;
    } else {
      var init, last := b[..|b| - 1], b[|b| - 1];
      assert (a + b)[..|a + b| - 1] == a + init;
      assert (a + b)[|a + b| - 1] == last;
      TextAppend(a, init);
      calc {
        Text(a + b);
        Text(a + init) + last.sql + " ";
        Text(a) + Text(init) + last.sql + " ";
        Text(a) + (Text(init) + last.sql + " ");
        Text(a) + Text(b);
      }
    }
  }

  /** The arguments of a chain of calls are those of its first part followed by those of its second. */
  lemma {:induction false} VarsAppend<V>(a: seq<RawCall<V>>, b: seq<RawCall<V>>)
    ensures Vars(a + b) == Vars(a) + Vars(b)
  {
    if b == [] {
      assert a + b == a;
    } else {
      var init, last := b[..|b| - 1], b[|b| - 1];
      assert (a + b)[..|a + b| - 1] == a + init;
      assert (a + b)[|a + b| - 1] == last;
      VarsAppend(a, init);
      calc {
        Vars(a + b);
        Vars(a + init) + last.values;
        Vars(a) + Vars(init) + last.values;
        Vars(a) + (Vars(init) + last.values);
        Vars(a) + Vars(b);
      }
    }
  }

  class Session<V> {
    const db: DbHandle
    var sql: string
    var sqlVars: seq<V>
    /** The `Raw` calls since the last clear. */
    ghost var calls: seq<RawCall<V>>

    /** The buffer and the arguments are exactly what the `Raw` calls since the last clear built. */
    ghost predicate Valid()
      reads this
    {
      sql == Text(calls) && sqlVars == Vars(calls)
    }

    /** A session over `db` with an empty buffer and no arguments. */
    constructor New(db: DbHandle)
      ensures Valid() && this.db == db
      ensures sql == "" && sqlVars == [] && calls == []
    {
      this.db := db;
      sql := "";
      sqlVars := [];
      calls := [];
    }

    /** Empties the buffer and the arguments. */
    method Clear()
      modifies this
      ensures Valid()
      ensures sql == "" && sqlVars == [] && calls == []
    {
      sql := "";
      sqlVars := [];
      calls := [];
    }

    /** Appends `s` and one space to the buffer and `values` to the arguments; returns this session. */
    method Raw(s: string, values: seq<V>) returns (r: Session<V>)
      requires Valid()
      modifies this
      ensures Valid() && r == this
      ensures sql == old(sql) + s + " "
      ensures sqlVars == old(sqlVars) + values
      ensures calls == old(calls) + [RawCall(s, values)]
    {
      sql := sql + s;
      sql := sql + " ";
      sqlVars := sqlVars + values;
      calls := calls + [RawCall(s, values)];
      assert calls[..|calls| - 1] == old(calls);
      return this;
    }

    /** Hands the accumulated statement to the database's Exec, then clears the session. */
    method Exec() returns (sent: Statement<V>)
      modifies this
      ensures sent == Statement(QueryKind.Exec, old(sql), old(sqlVars))
      ensures Valid() && sql == "" && sqlVars == [] && calls == []
    {
      sent := Statement(QueryKind.Exec, sql, sqlVars);
      Clear();
    }

    /** Hands the accumulated statement to the database's QueryRow, then clears the session. */
    method QueryRow() returns (sent: Statement<V>)
      modifies this
      ensures sent == Statement(QueryKind.QueryRow, old(sql), old(sqlVars))
      ensures Valid() && sql == "" && sqlVars == [] && calls == []
    {
      sent := Statement(QueryKind.QueryRow, sql, sqlVars);
      Clear();
    }

    /** Hands the accumulated statement to the database's Query, then clears the session. */
    method QueryRows() returns (sent: Statement<V>)
      modifies this
      ensures sent == Statement(QueryKind.QueryRows, old(sql), old(sqlVars))
      ensures Valid() && sql == "" && sqlVars == [] && calls == []
    {
      sent := Statement(QueryKind.QueryRows, sql, sqlVars);
      Clear();
    }
  }
}
