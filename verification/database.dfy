/** The database as an object: its tables are linked lists, its transaction fields are overwritten. */
module Databases {
  import opened Chars
  import opened Escaping
  import opened Schema
  import opened Loader
  import opened LoadLoops
  import opened LinkedTables
  import opened Store
  import opened Batches
  import opened Effects

  // ---- many tables ----

  ghost function Nodes(ts: seq<LinkedTable>): (ns: set<Node>)
    reads ts
  {
    set t, n | t in ts && n in t.spine :: n
  }

  lemma {:induction false} NodesOf(ts: seq<LinkedTable>, i: nat)
    requires i < |ts|
    ensures forall n | n in ts[i].spine :: n in Nodes(ts)
  {
    assert ts[i] in ts;
  }

  ghost predicate AllValid(ts: seq<LinkedTable>)
    reads ts, Nodes(ts)
  {
    forall i | 0 <= i < |ts| :: (NodesOf(ts, i); ts[i].Valid())
  }

  /** No table occurs twice, and no two share a node. */
  ghost predicate Apart(ts: seq<LinkedTable>)
    reads ts
  {
    forall i, j | 0 <= i < j < |ts| :: ts[i] != ts[j] && forall n | n in ts[i].spine :: n !in ts[j].spine
  }

  ghost function States(ts: seq<LinkedTable>): (us: seq<Table>)
    reads ts, Nodes(ts)
    ensures |us| == |ts| && forall i | 0 <= i < |ts| :: us[i] == ts[i].State()
  {
    seq(|ts|, i requires 0 <= i < |ts| reads ts, Nodes(ts) =>
      (NodesOf(ts, i); assert forall n | n in ts[i].spine :: n in Nodes(ts); ts[i].State()))
  }

  lemma {:induction false} Separate(ts: seq<LinkedTable>, k: nat)
    requires Apart(ts) && k < |ts|
    ensures forall j | 0 <= j < |ts| && j != k :: ts[j] != ts[k] && forall n | n in ts[j].spine :: n !in ts[k].spine
  {
  }

  /** A table without nodes joins the others. */
  lemma {:induction false} Joined(ts: seq<LinkedTable>, t: LinkedTable)
    requires AllValid(ts) && Apart(ts) && t !in ts && t.Valid() && t.spine == []
    ensures AllValid(ts + [t]) && Apart(ts + [t]) && States(ts + [t]) == States(ts) + [t.State()]
  {
  }

  /** What changes one table leaves the others as they were. */
  twostate lemma OneChanged(ts: seq<LinkedTable>, new k: nat)
    requires k < |ts| && old(AllValid(ts)) && old(Apart(ts))
    requires forall j | 0 <= j < |ts| && j != k :: unchanged(ts[j]) && forall n | n in old(ts[j].spine) :: unchanged(n)
    requires ts[k].Valid() && forall n | n in ts[k].spine :: n in old(ts[k].spine) || fresh(n)
    ensures AllValid(ts) && Apart(ts)
    ensures States(ts) == old(States(ts))[k := ts[k].State()]
  {
    forall j | 0 <= j < |ts| && j != k
      ensures ts[j].Valid() && ts[j].State() == old(ts[j].State())
    {
      var spine := ts[j].spine;
      assert old(ts[j].Valid());
      forall i | 0 <= i < |spine|
        ensures spine[i].next == old(spine[i].next) && spine[i].Row() == old(spine[i].Row())
      {
        assert spine[i] in old(ts[j].spine);
      }
      assert Rows(spine) == old(Rows(spine));
    }
  }

  lemma {:induction false} SoundAt(ts: seq<Table>, k: nat)
    requires AllSound(ts) && k < |ts|
    ensures Sound(ts[k])
  {
  }

  lemma {:induction false} ValidAt(ts: seq<LinkedTable>, k: nat)
    requires AllValid(ts) && k < |ts|
    ensures ts[k].Valid()
  {
  }

  lemma {:induction false} DeletedCount(t: Table, c: nat, key: Value)
    requires c < |t.columns|
    ensures |t.records| - |DeleteAll(t, c, key).records| == |FindAll(t, c, key, t.records)|
  {
    FilterSplits(t, c, key, t.records);
  }

  lemma {:induction false} NoIds(maxId: int, counter: int, cs: seq<Column>)
    ensures BatchIds(maxId, counter, Keys(cs, [])) == []
  {
  }

  class Database {
    var tables: seq<LinkedTable>
    const source: IdSource
    var active: bool
    var level: int
    var started: nat
    var committed: nat
    var rolledBack: nat
    ghost var outer: nat

    ghost predicate Valid()
      reads this, tables, Nodes(tables)
    {
      AllValid(tables) && Apart(tables)
    }

    ghost function State(): (d: Db)
      reads this, source, tables, Nodes(tables)
    {
      Db(States(tables), source.counter, active, level, started, committed, rolledBack, outer)
    }

    constructor ()
      ensures Valid() && tables == [] && fresh(source) && State() == EMPTY
    {
      tables, active, level, started, committed, rolledBack, outer := [], false, 0, 0, 0, 0, 0;
      source := new IdSource();
    }

    // ---- transactions ----

    /** `db_begin_transaction`. */
    method BeginTransaction() returns (code: ErrorCode)
      modifies `active, `level, `started, `outer
      requires Valid()
      ensures Valid()
      ensures Outcome(code, State()) == Begin(old(State()))
    {
      if active && level >= MAX_TRANSACTION_LEVEL {
        return TransactionConflict;
      }
      if !active {
        active, level, outer := true, 1, outer + 1;
      } else {
        level := level + 1;
      }
      started := started + 1;
      return Success;
    }

    /** `db_commit_transaction`. */
    method CommitTransaction() returns (code: ErrorCode)
      modifies `active, `level, `committed
      requires Valid()
      ensures Valid()
      ensures Outcome(code, State()) == Commit(old(State()))
    {
      if !active {
        return TransactionConflict;
      }
      if level > 1 {
        level := level - 1;
        return Success;
      }
      active, level, committed := false, 0, committed + 1;
      return Success;
    }

    /** `db_rollback_transaction`. */
    method RollbackTransaction() returns (code: ErrorCode)
      modifies `active, `level, `rolledBack
      requires Valid()
      ensures Valid()
      ensures Outcome(code, State()) == Rollback(old(State()))
    {
      if !active {
        return TransactionConflict;
      }
      active, level, rolledBack := false, 0, rolledBack + 1;
      return Success;
    }

    // ---- tables ----

    /** `db_get_table`. */
    method GetTable(name: string) returns (k: nat)
      requires Valid()
      ensures Valid() && State() == old(State())
      ensures k == TableIndex(State().tables, name) && k <= |tables|
      ensures k < |tables| ==> forall n | n in tables[k].spine :: n in old(Nodes(tables))
    {
      forall i | 0 <= i < |tables| ensures forall n | n in tables[i].spine :: n in Nodes(tables) {
        NodesOf(tables, i);
      }
      k := 0;
      while k < |tables|
        invariant k <= |tables| && forall i | 0 <= i < k :: tables[i].name != name
      {
        if tables[k].name == name {
          return;
        }
        k := k + 1;
      }
    }

    // ---- one table changes, the others stay ----

    method InsertInto(k: nat, values: seq<Field>, now: Stamp) returns (code: ErrorCode, id: int)
      requires Valid() && k < |tables| && |values| == |tables[k].columns| && |values| > 0
      modifies source, tables[k]
      ensures Valid()
      ensures code == Insert(old(tables[k].State()), values, old(source.counter), now).code
      ensures id == Insert(old(tables[k].State()), values, old(source.counter), now).id
      ensures source.counter == Insert(old(tables[k].State()), values, old(source.counter), now).counter
      ensures States(tables) == old(States(tables))[k := Insert(old(tables[k].State()), values, old(source.counter), now).table]
    {
      code, id := tables[k].InsertRecord(values, source, now);
      OneChanged(tables, k);
    }

    method UpdateIn(k: nat, id: int, values: seq<Field>, now: Stamp) returns (code: ErrorCode)
      requires Valid() && k < |tables| && |values| == |tables[k].columns| && Shaped(tables[k].State())
      modifies tables[k].spine
      ensures Valid()
      ensures var r := Update(old(tables[k].State()), id, values, now);
              code == r.code && States(tables) == old(States(tables))[k := r.table]
    {
      Separate(tables, k);
      code := tables[k].UpdateRecord(id, values, now);
      OneChanged(tables, k);
    }

    method DeleteFrom(k: nat, id: int) returns (code: ErrorCode)
      requires Valid() && k < |tables|
      modifies tables[k], tables[k].spine
      ensures Valid()
      ensures var r := Delete(old(tables[k].State()), id);
              code == r.code && States(tables) == old(States(tables))[k := r.table]
    {
      Separate(tables, k);
      code := tables[k].DeleteRecord(id);
      OneChanged(tables, k);
    }

    method DeleteAllFrom(k: nat, c: nat, key: Value) returns (deleted: nat)
      requires Valid() && k < |tables| && c < |tables[k].columns| && Shaped(tables[k].State())
      modifies tables[k], tables[k].spine
      ensures Valid()
      ensures States(tables) == old(States(tables))[k := DeleteAll(old(tables[k].State()), c, key)]
      ensures deleted == |FindAll(old(tables[k].State()), c, key, old(tables[k].State()).records)|
    {
      Separate(tables, k);
      deleted := tables[k].DeleteByField(c, key);
      OneChanged(tables, k);
    }

    // ---- record operations ----

    /** A transaction of its own, unless one is active. */
    method BeginLocal() returns (began: bool)
      requires Valid()
      modifies `active, `level, `started, `outer
      ensures Valid()
      ensures State() == OpenLocal(old(State())) && began == !old(active)
    {
      began := !active;
      if began {
        var _ := BeginTransaction();
      }
    }

    method End(code: ErrorCode)
      requires Valid()
      modifies `active, `level, `committed, `rolledBack
      ensures Valid()
      ensures State() == EndLocal(old(State()), code)
    {
      if code == Success {
        var _ := CommitTransaction();
      } else {
        var _ := RollbackTransaction();
      }
    }

    /** `db_insert_record`; on success `id` is the new record's. */
    method InsertRecord(name: string, values: seq<Field>, now: Stamp) returns (code: ErrorCode, id: int)
      requires Valid() && AllSound(State().tables) && Legal(State(), InsertOp(name, values, now))
      modifies this, source, tables
      ensures Valid() && tables == old(tables)
      ensures Outcome(code, State()) == Store.InsertRecord(old(State()), name, values, now)
      ensures code == Success ==>
                var ts := old(State()).tables;
                var k := TableIndex(ts, name);
                k < |ts| && |values| > 0 && id == Insert(ts[k], values, old(source.counter), now).id
    {
      hide Insert, AllValid, Apart, TableIndex;
      var k := GetTable(name);
      if k == |tables| {
        return NotFound, -1;
      }
      assert Sound(State().tables[k]);
      var began := BeginLocal();
      code, id := InsertInto(k, values, now);
      if began {
        End(code);
      }
    }

    /** `db_update_record`. */
    method UpdateRecord(name: string, id: int, values: seq<Field>, now: Stamp) returns (code: ErrorCode)
      requires Valid() && AllSound(State().tables) && Legal(State(), UpdateOp(name, id, values, now))
      modifies this, Nodes(tables)
      ensures Valid() && tables == old(tables)
      ensures Outcome(code, State()) == Store.UpdateRecord(old(State()), name, id, values, now)
    {
      hide Update, AllValid, Apart, TableIndex;
      var k := GetTable(name);
      if k == |tables| {
        return NotFound;
      }
      assert Sound(State().tables[k]);
      var began := BeginLocal();
      code := UpdateIn(k, id, values, now);
      if began {
        End(code);
      }
    }

    /** `db_delete_record`. */
    method DeleteRecord(name: string, id: int) returns (code: ErrorCode)
      requires Valid()
      modifies this, tables, Nodes(tables)
      ensures Valid() && tables == old(tables)
      ensures Outcome(code, State()) == Store.DeleteRecord(old(State()), name, id)
    {
      hide Delete, AllValid, Apart, TableIndex;
      var k := GetTable(name);
      if k == |tables| {
        return NotFound;
      }
      var began := BeginLocal();
      code := DeleteFrom(k, id);
      if began {
        End(code);
      }
    }

    /** The loop of a batch insertion. */
    method InsertEach(k: nat, batch: seq<seq<Field>>, now: Stamp) returns (code: ErrorCode, ids: seq<int>)
      requires Valid() && k < |tables| && |tables[k].columns| > 0
      requires forall i | 0 <= i < |batch| :: |batch[i]| == |tables[k].columns|
      modifies source, tables[k]
      ensures Valid()
      ensures var r := InsertAll(old(tables[k].State()), batch, old(source.counter), now);
              && code == r.code && source.counter == r.counter
              && States(tables) == old(States(tables))[k := r.table]
      ensures code == Success ==>
                ids == BatchIds(MaxId(old(tables[k].State()).records), old(source.counter), Keys(old(tables[k].columns), batch))
    {
      hide Insert, AllValid, Apart, BatchIds, Keys, MaxId;
      code, ids := Success, [];
      ghost var t, c := tables[k].State(), source.counter;
      ghost var ts := States(tables);
      for i := 0 to |batch|
        invariant Valid() && code == Success
        invariant States(tables) == ts[k := tables[k].State()]
        invariant InsertAll(tables[k].State(), batch[i..], source.counter, now) == InsertAll(t, batch, c, now)
        invariant ids + BatchIds(MaxId(tables[k].State().records), source.counter, Keys(t.columns, batch[i..]))
               == BatchIds(MaxId(t.records), c, Keys(t.columns, batch))
      {
        ghost var u := tables[k].State();
        assert batch[i..][0] == batch[i] && batch[i..][1..] == batch[i + 1..];
        ghost var before := source.counter;
        var result, id := InsertInto(k, batch[i], now);
        if result != Success {
          return result, ids;
        }
        IdDrawn(u, batch[i..], before, now);
        ids := ids + [id];
      }
      assert batch[|batch|..] == [];
      NoIds(MaxId(tables[k].State().records), source.counter, t.columns);
    }

    /** `db_batch_insert_records`; on success `ids` are those of the new records, in the order of the batch. */
    method BatchInsert(name: string, batch: seq<seq<Field>>, now: Stamp) returns (code: ErrorCode, ids: seq<int>)
      requires Valid() && AllSound(State().tables) && Legal(State(), BatchOp(name, batch, now))
      modifies this, source, tables
      ensures Valid() && tables == old(tables)
      ensures Outcome(code, State()) == Store.BatchInsert(old(State()), name, batch, now)
      ensures code != Success ==> ids == []
      ensures code == Success ==>
                var ts := old(State()).tables;
                var k := TableIndex(ts, name);
                k < |ts| && ids == BatchIds(MaxId(ts[k].records), old(source.counter), Keys(ts[k].columns, batch))
    {
      hide InsertAll, BatchIds, Keys, MaxId, AllValid, Apart, TableIndex;
      if |batch| < 1 || |batch| > BATCH_INSERT_SIZE {
        return InvalidInput, [];
      }
      var k := GetTable(name);
      if k == |tables| {
        return NotFound, [];
      }
      assert Sound(State().tables[k]);
      if tables[k].count + |batch| > MAX_RECORDS_PER_TABLE {
        return TableFull, [];
      }
      code := BeginTransaction();
      ids := [];
      if code != Success {
        return;
      }
      code, ids := InsertEach(k, batch, now);
      End(code);
      if code != Success {
        ids := [];
      }
    }

    /** The position of a column. */
    method ColumnOf(k: nat, column: string) returns (c: nat)
      requires Valid() && k < |tables|
      ensures Valid() && State() == old(State())
      ensures c == ColumnIndex(tables[k].columns, column)
    {
      c := 0;
      while c < |tables[k].columns|
        invariant c <= |tables[k].columns| && forall i | 0 <= i < c :: tables[k].columns[i].name != column
      {
        if tables[k].columns[c].name == column {
          return;
        }
        c := c + 1;
      }
    }

    /** `db_delete_records_by_field`; the number of records deleted is what a search would have found. */
    method DeleteByField(name: string, column: string, key: Value) returns (code: ErrorCode, deleted: nat)
      requires Valid() && AllSound(State().tables)
      modifies this, tables, Nodes(tables)
      ensures Valid() && tables == old(tables)
      ensures Outcome(code, State()) == Store.DeleteByField(old(State()), name, column, key)
      ensures code == Success ==>
                var t := old(State()).tables[TableIndex(old(State()).tables, name)];
                deleted == |FindAll(t, ColumnIndex(t.columns, column), key, t.records)|
    {
      hide DeleteAll, FindAll, AllValid, Apart, TableIndex, ColumnIndex, AllSound, Nodes;
      deleted := 0;
      var k := GetTable(name);
      if k == |tables| {
        return NotFound, 0;
      }
      assert Sound(State().tables[k]) by { SoundAt(State().tables, k); }
      var c := ColumnOf(k, column);
      if c == |tables[k].columns| {
        return NotFound, 0;
      }
      code := BeginTransaction();
      if code != Success {
        return;
      }
      DeletedCount(tables[k].State(), c, key);
      deleted := DeleteAllFrom(k, c, key);
      if deleted > 0 {
        var _ := CommitTransaction();
      } else {
        var _ := RollbackTransaction();
      }
    }

    /** `db_find_all_records_by_field`; nothing is found without the table or the column. */
    method FindAllRecords(name: string, column: string, key: Value) returns (found: seq<Node>)
      requires Valid() && AllSound(State().tables)
      ensures var ts := State().tables;
              var k := TableIndex(ts, name);
              Rows(found) == if k == |ts| || ColumnIndex(ts[k].columns, column) == |ts[k].columns| then []
                             else FindAll(ts[k], ColumnIndex(ts[k].columns, column), key, ts[k].records)
      ensures var ts := State().tables;
              var k := TableIndex(ts, name);
              k < |ts| ==>
                var c := ColumnIndex(ts[k].columns, column);
                Searchable(ts[k], c, key) ==> forall r :: r in Rows(found) <==> r in ts[k].records && Holds(r, c, key)
    {
      hide FindAll, AllValid, Apart, TableIndex, ColumnIndex, AllSound, Nodes;
      var k := GetTable(name);
      if k == |tables| {
        return [];
      }
      assert Sound(State().tables[k]) by { SoundAt(State().tables, k); }
      var c := ColumnOf(k, column);
      if c == |tables[k].columns| {
        return [];
      }
      assert tables[k].Valid() by { ValidAt(tables, k); }
      found := tables[k].FindAllByField(c, key);
    }

    /** `db_add_table`. */
    method AddTable(name: string, cs: seq<RawColumn>) returns (code: ErrorCode)
      requires Valid()
      modifies `tables
      ensures Valid()
      ensures var a := Loader.AddTable(old(State()).tables, name, cs);
              code == a.code && State() == old(State()).(tables := a.tables)
      ensures tables == old(tables) || (|tables| == |old(tables)| + 1 && fresh(tables[|old(tables)|]))
      ensures old(tables) <= tables
    {
      hide AllValid, Apart;
      if |cs| < 1 || |cs| > MAX_FIELDS_PER_TABLE {
        return InvalidInput;
      }
      var k := GetTable(name);
      if k < |tables| {
        assert State().tables[k].name == name;
        return DuplicateKey;
      }
      if |tables| >= MAX_TABLES {
        return TableFull;
      }
      var columns := MakeColumns(cs);
      if columns.None? {
        return NullName;
      }
      Append(Clip(name, MAX_TABLE_NAME - 1), columns.value);
      return Success;
    }

    method MakeColumns(cs: seq<RawColumn>) returns (r: Option<seq<Column>>)
      requires Valid()
      ensures Valid() && State() == old(State())
      ensures r.None? <==> exists i | 0 <= i < |cs| :: cs[i].name.None?
      ensures r.Some? ==> r.value == NewColumns(cs)
    {
      r := BuildColumns(cs);
    }

    method Append(name: string, columns: seq<Column>)
      requires Valid()
      modifies `tables
      ensures Valid()
      ensures State() == old(State()).(tables := old(State()).tables + [Table(name, columns, [], 0, 1)])
      ensures |tables| == |old(tables)| + 1 && tables[..|old(tables)|] == old(tables) && fresh(tables[|old(tables)|])
    {
      ghost var was := States(tables);
      var t := new LinkedTable(name, columns);
      Joined(tables, t);
      hide AllValid, Apart;
      tables := tables + [t];
    }
  }
}
