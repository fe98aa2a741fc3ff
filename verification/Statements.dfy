// What each SQL statement means, told by looking up rows: which it writes, which it removes, and that
// it leaves every other row alone.
module Statements {
  import opened RaftTypes
  import opened Sqlite

  predicate OtherKeysSame(key: Key, kv: map<Key, Value>, kv': map<Key, Value>) {
    forall k :: k != key ==> (k in kv' <==> k in kv) && (k in kv ==> kv'[k] == kv[k])
  }

  ghost predicate OtherRowsSame(index: int, rows: map<I64, Row>, rows': map<I64, Row>) {
    forall k: I64 :: k != index ==> (k in rows' <==> k in rows) && (k in rows ==> rows'[k] == rows[k])
  }

  // Exactly the rows below the index are left, or those above it, each as it was.
  ghost predicate RowsLeftBelow(index: int, rows: map<I64, Row>, rows': map<I64, Row>) {
    forall k: I64 :: (k in rows' <==> k in rows && k < index) && (k in rows' ==> rows'[k] == rows[k])
  }

  ghost predicate RowsLeftAbove(index: int, rows: map<I64, Row>, rows': map<I64, Row>) {
    forall k: I64 :: (k in rows' <==> k in rows && k > index) && (k in rows' ==> rows'[k] == rows[k])
  }

  // The key-value table: an upsert stores the value whether or not the key was there; the counter
  // goes up by one if there is one, and is inserted as 0 only if there is none.
  lemma KeyStatements<U>(sql: Sql<U>, key: Key, value: Value, db: Db<U>)
    ensures var put := Exec(sql, Upsert(key, value), db);
      && put.Some? && put.value.log == db.log && put.value.user == db.user
      && key in put.value.kv && put.value.kv[key] == value
      && OtherKeysSame(key, db.kv, put.value.kv)
    ensures var bump := Exec(sql, BumpCounter, db);
      && bump.Some? && bump.value.log == db.log && bump.value.user == db.user
      && OtherKeysSame(SnapshotIndexKey, db.kv, bump.value.kv)
      && (SnapshotIndexKey in bump.value.kv <==> SnapshotIndexKey in db.kv)
      && (SnapshotIndexKey in db.kv ==>
            var v, v' := db.kv[SnapshotIndexKey], bump.value.kv[SnapshotIndexKey];
            if v.Counter? && v.n < I64_MAX then v' == Counter(v.n + 1) else v' == RealCounter)
    ensures var insert := Exec(sql, InsertCounter, db);
      && (insert.Some? <==> SnapshotIndexKey !in db.kv)
      && (insert.Some? ==>
            && insert.value.log == db.log && insert.value.user == db.user
            && SnapshotIndexKey in insert.value.kv && insert.value.kv[SnapshotIndexKey] == Counter(0)
            && OtherKeysSame(SnapshotIndexKey, db.kv, insert.value.kv))
  {
  }

  // The log table: an upsert writes every column whether or not there was a row; a delete succeeds
  // also when there is nothing to delete. All fail without the table or on a number that does not
  // fit a signed 64-bit column, and then change nothing.
  lemma RowStatements<U>(sql: Sql<U>, nodeId: U64, index: U64, term: U64, e: Entry, db: Db<U>)
    ensures var put := Exec(sql, UpsertRow(nodeId, index, term, e), db);
      && (put.Some? <==> db.log.Some? && nodeId <= I64_MAX && index <= I64_MAX && term <= I64_MAX)
      && (put.Some? ==>
            && put.value.kv == db.kv && put.value.user == db.user && put.value.log.Some?
            && index in put.value.log.value
            && put.value.log.value[index].nodeId == nodeId && put.value.log.value[index].term == term
            && put.value.log.value[index].entry == e
            && OtherRowsSame(index, db.log.value, put.value.log.value))
    ensures var cut := Exec(sql, DeleteRowsFrom(index), db);
      && (cut.Some? <==> db.log.Some? && index <= I64_MAX)
      && (cut.Some? ==>
            && cut.value.kv == db.kv && cut.value.user == db.user && cut.value.log.Some?
            && RowsLeftBelow(index, db.log.value, cut.value.log.value))
    ensures var purge := Exec(sql, DeleteRowsUpTo(index), db);
      && (purge.Some? <==> db.log.Some? && index <= I64_MAX)
      && (purge.Some? ==>
            && purge.value.kv == db.kv && purge.value.user == db.user && purge.value.log.Some?
            && RowsLeftAbove(index, db.log.value, purge.value.log.value))
  {
  }
}
