/**
 * The Eloquent query builder terms the repositories chain: a scope narrows a table to the rows
 * it selects, and a terminal call (findOrFail, firstOrFail, count, pluck) reads the result.
 */
module Query {
  import opened Wrappers
  import opened Seqs
  import opened Schema

  /** A chain of scopes: the rows of `rows` that `scope` selects, keyed as before. */
  function Where<V>(rows: map<int, V>, scope: V -> bool): (r: map<int, V>)
    ensures forall id :: id in r <==> id in rows && scope(rows[id])
    ensures forall id :: id in r ==> r[id] == rows[id]
  {
    map id | id in rows && scope(rows[id]) :: rows[id]
  }

  /** `findOrFail($id)`: the row with that primary key, or ModelNotFoundException. */
  function FindOrFail<V>(rows: map<int, V>, id: int): (r: Result<V, Exception>)
    ensures r.Success? <==> id in rows
    ensures r.Success? ==> r.value == rows[id]
    ensures r.Failure? ==> r.error == ModelNotFound
  {
    if id in rows then Success(rows[id]) else Failure(ModelNotFound)
  }

  /**
   * `firstOrFail()`: some selected row, or ModelNotFoundException. Which row comes first is the
   * database's choice; the callers select at most one row under the schema's unique keys.
   */
  ghost function FirstOrFail<V>(rows: map<int, V>): (r: Result<V, Exception>)
    ensures r.Success? <==> rows != map[]
    ensures r.Success? ==> exists id :: id in rows && rows[id] == r.value
    ensures r.Failure? ==> r.error == ModelNotFound
  {
    if exists id :: id in rows then
      var id :| id in rows;
      Success(rows[id])
    else
      assert rows.Keys == {};
      Failure(ModelNotFound)
  }

  /** `pluck('id')` in the order `order` in which the database returns rows. */
  function Pluck<V>(rows: map<int, V>, order: seq<int>): (r: seq<int>)
    ensures forall id :: id in r <==> id in order && id in rows
    ensures NoDuplicates(order) ==> NoDuplicates(r)
    ensures Enumerates(order, rows.Keys) ==> Enumerates(r, rows.Keys)
  {
    Filter(order, id => id in rows)
  }

  /** A pluck over an order that lists the whole table returns one id per selected row. */
  lemma PluckCardinality<V>(rows: map<int, V>, order: seq<int>, table: set<int>)
    requires rows.Keys <= table
    requires Enumerates(order, table)
    ensures |Pluck(rows, order)| == |rows|
  {
    var r := Pluck(rows, order);
    EnumerationCardinality(r, rows.Keys);
    assert |rows.Keys| == |rows|;
  }
}
