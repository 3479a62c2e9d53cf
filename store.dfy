/** The backend record store as the three pages see it: one table per kind of
    row, each row stored under the key the page's upserts name as their
    conflict target. Network failures are not modelled as behaviour of the
    store; the caller passes the failure (if any) that a request meets. */
module RecordStore {

  datatype Option<T> = None | Some(value: T)

  /** The signed-in user's identity. */
  type UserId = string

  /** An ISO time string; the model never looks inside it. */
  type Timestamp = string

  /** An error reply from the store, with its error code. */
  datatype StoreError = StoreError(code: string, message: string)

  /** The code the store returns when a single-row select matches no row. */
  const NoRowsCode: string := "PGRST116"

  const NoRowsError: StoreError := StoreError(NoRowsCode, "JSON object requested, multiple (or no) rows returned")

  /** The reply to a read request. */
  datatype Reply<T> = Ok(value: T) | Err(error: StoreError)

  /** The row stored under `k`, if there is one. */
  function Lookup<K, V>(rows: map<K, V>, k: K): (r: Option<V>)
    ensures r.Some? <==> k in rows
    ensures r.Some? ==> r.value == rows[k]
  {
    if k in rows then Some(rows[k]) else None
  }

  /** Every row is stored under the key `keyOf` computes from it. */
  predicate Keyed<K, V>(rows: map<K, V>, keyOf: V -> K) {
    forall k :: k in rows ==> keyOf(rows[k]) == k
  }

  /** `rs` holds every row of `rows` whose key satisfies `p`, each once, in
      some order. */
  predicate IsSelection<K, V(==)>(rows: map<K, V>, keyOf: V -> K, p: K -> bool, rs: seq<V>) {
    && (forall i :: 0 <= i < |rs| ==> keyOf(rs[i]) in rows && p(keyOf(rs[i])) && rows[keyOf(rs[i])] == rs[i])
    && (forall k :: k in rows && p(k) ==> rows[k] in rs)
    && (forall i, j :: 0 <= i < j < |rs| ==> keyOf(rs[i]) != keyOf(rs[j]))
  }

  /** A table whose upserts resolve conflicts on the key `keyOf` computes
      from a row. Since the rows are a map, there is at most one row per key. */
  class Table<K(==), V(==)> {
    const keyOf: V -> K
    var rows: map<K, V>

    /** Every row is stored under its own conflict key. */
    ghost predicate Valid()
      reads this
    {
      Keyed(rows, keyOf)
    }

    constructor (keyOf: V -> K)
      ensures this.keyOf == keyOf && rows == map[] && Valid()
    {
      this.keyOf := keyOf;
      rows := map[];
    }

    /** `select('*').eq(key).single()`: exactly one row, or the no-row error. */
    method Single(k: K, fault: Option<StoreError>) returns (r: Reply<V>)
      ensures fault.Some? ==> r == Err(fault.value)
      ensures fault.None? && k in rows ==> r == Ok(rows[k])
      ensures fault.None? && k !in rows ==> r.Err? && r.error.code == NoRowsCode
    {
      if fault.Some? {
        r := Err(fault.value);
      } else if k in rows {
        r := Ok(rows[k]);
      } else {
        r := Err(NoRowsError);
      }
    }

    /** `select('*').eq(key).maybeSingle()`: no row is not an error. */
    method MaybeSingle(k: K, fault: Option<StoreError>) returns (r: Reply<Option<V>>)
      ensures fault.Some? ==> r == Err(fault.value)
      ensures fault.None? ==> r.Ok? && (r.value.Some? <==> k in rows)
      ensures fault.None? && k in rows ==> r.value.value == rows[k]
    {
      if fault.Some? {
        r := Err(fault.value);
      } else if k in rows {
        r := Ok(Some(rows[k]));
      } else {
        r := Ok(None);
      }
    }

    /** `select('*')` with an equality filter on the key: all matching rows,
        in an order the store chooses. */
    method Select(p: K -> bool, fault: Option<StoreError>) returns (r: Reply<seq<V>>)
      requires Valid()
      ensures fault.Some? ==> r == Err(fault.value)
      ensures fault.None? ==> r.Ok? && IsSelection(rows, keyOf, p, r.value)
    {
      if fault.Some? {
        return Err(fault.value);
      }
      var todo := rows.Keys;
      var found: seq<V> := [];
      while todo != {}
        invariant todo <= rows.Keys
        invariant forall i :: 0 <= i < |found| ==>
          keyOf(found[i]) in rows && keyOf(found[i]) !in todo && p(keyOf(found[i])) && rows[keyOf(found[i])] == found[i]
        invariant forall k :: k in rows && k !in todo && p(k) ==> rows[k] in found
        invariant forall i, j :: 0 <= i < j < |found| ==> keyOf(found[i]) != keyOf(found[j])
        decreases todo
      {
        var k :| k in todo;
        if p(k) {
          found := found + [rows[k]];
        }
        todo := todo - {k};
      }
      r := Ok(found);
    }

    /** `upsert(v, { onConflict })`: insert, or replace the row with the same
        conflict key; on a failed request nothing is written. */
    method Upsert(v: V, fault: Option<StoreError>) returns (err: Option<StoreError>)
      requires Valid()
      modifies this
      ensures Valid() && err == fault
      ensures rows == if fault.None? then old(rows)[keyOf(v) := v] else old(rows)
    {
      err := fault;
      if fault.None? {
        rows := rows[keyOf(v) := v];
      }
    }
  }
}
