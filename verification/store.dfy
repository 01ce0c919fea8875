/** The database as a state machine: record operations and nested transactions, and what one operation does to a table. */
module Store {
  import opened Escaping
  import opened Schema
  import opened Loader
  import opened RoundTrip
  import opened Durability

  const MAX_TRANSACTION_LEVEL := 10
  const BATCH_INSERT_SIZE := 100

  /** `outer` counts the transactions that were begun while none was active; the source has no such counter. */
  datatype Db = Db(tables: seq<Table>, counter: int, active: bool, level: int,
                   started: nat, committed: nat, rolledBack: nat, outer: nat)

  const EMPTY := Db([], FIRST_GENERATED_ID, false, 0, 0, 0, 0, 0)

  datatype Outcome = Outcome(code: ErrorCode, db: Db)

  // ---- transactions ----

  function Begin(d: Db): (r: Outcome) {
    if d.active && d.level >= MAX_TRANSACTION_LEVEL then Outcome(TransactionConflict, d)
    else if !d.active then
      Outcome(Success, d.(active := true, level := 1, started := d.started + 1, outer := d.outer + 1))
    else Outcome(Success, d.(level := d.level + 1, started := d.started + 1))
  }

  function Commit(d: Db): (r: Outcome) {
    if !d.active then Outcome(TransactionConflict, d)
    else if d.level > 1 then Outcome(Success, d.(level := d.level - 1))
    else Outcome(Success, d.(active := false, level := 0, committed := d.committed + 1))
  }

  /** Ends every level at once, and changes no table. */
  function Rollback(d: Db): (r: Outcome) {
    if !d.active then Outcome(TransactionConflict, d)
    else Outcome(Success, d.(active := false, level := 0, rolledBack := d.rolledBack + 1))
  }

  function EndLocal(d: Db, code: ErrorCode): (e: Db) {
    if code == Success then Commit(d).db else Rollback(d).db
  }

  // ---- record operations ----

  function TableIndex(ts: seq<Table>, name: string): (k: nat)
    ensures k <= |ts|
    ensures k < |ts| ==> ts[k].name == name
    ensures forall i | 0 <= i < k :: ts[i].name != name
  {
    if ts == [] || ts[0].name == name then 0
    else
      var k := 1 + TableIndex(ts[1..], name);
      assert forall i | 0 < i < k :: ts[i] == ts[1..][i - 1];
      k
  }

  datatype Op =
    | AddTableOp(name: string, columns: seq<RawColumn>)
    | InsertOp(name: string, values: seq<Field>, now: Stamp)
    | BatchOp(name: string, batch: seq<seq<Field>>, now: Stamp)
    | UpdateOp(name: string, id: int, values: seq<Field>, now: Stamp)
    | DeleteOp(name: string, id: int)
    | DeleteByFieldOp(name: string, column: string, key: Value)
    | BeginOp
    | CommitOp
    | RollbackOp
    | LoadOp(text: string, now: Stamp)

  /** Callers hand over one field for each column. */
  predicate Legal(d: Db, op: Op) {
    match op
    case InsertOp(name, values, _) =>
      var k := TableIndex(d.tables, name); k < |d.tables| ==> |values| == |d.tables[k].columns|
    case UpdateOp(name, _, values, _) =>
      var k := TableIndex(d.tables, name); k < |d.tables| ==> |values| == |d.tables[k].columns|
    case BatchOp(name, batch, _) =>
      var k := TableIndex(d.tables, name);
      k < |d.tables| ==> forall i | 0 <= i < |batch| :: |batch[i]| == |d.tables[k].columns|
    case _ => true
  }

  predicate Sound(t: Table) {
    |t.columns| > 0 && Shaped(t)
  }

  predicate AllSound(ts: seq<Table>) {
    forall i | 0 <= i < |ts| :: Sound(ts[i])
  }

  /** A transaction of its own, unless one is active. */
  function OpenLocal(d: Db): (e: Db) {
    if d.active then d else Begin(d).db
  }

  function CloseLocal(d: Db, e: Db, code: ErrorCode): (r: Outcome) {
    Outcome(code, if d.active then e else EndLocal(e, code))
  }

  /** `db_insert_record`. */
  function InsertRecord(d: Db, name: string, values: seq<Field>, now: Stamp): (r: Outcome)
    requires AllSound(d.tables) && Legal(d, InsertOp(name, values, now))
  {
    var k := TableIndex(d.tables, name);
    if k == |d.tables| then Outcome(NotFound, d)
    else
      var e := OpenLocal(d);
      var i := Insert(d.tables[k], values, d.counter, now);
      CloseLocal(d, e.(tables := e.tables[k := i.table], counter := i.counter), i.code)
  }

  /** `db_update_record`. */
  function UpdateRecord(d: Db, name: string, id: int, values: seq<Field>, now: Stamp): (r: Outcome)
    requires AllSound(d.tables) && Legal(d, UpdateOp(name, id, values, now))
  {
    var k := TableIndex(d.tables, name);
    if k == |d.tables| then Outcome(NotFound, d)
    else
      var e := OpenLocal(d);
      var u := Update(d.tables[k], id, values, now);
      CloseLocal(d, e.(tables := e.tables[k := u.table]), u.code)
  }

  /** `db_delete_record`. */
  function DeleteRecord(d: Db, name: string, id: int): (r: Outcome) {
    var k := TableIndex(d.tables, name);
    if k == |d.tables| then Outcome(NotFound, d)
    else
      var e := OpenLocal(d);
      var u := Delete(d.tables[k], id);
      CloseLocal(d, e.(tables := e.tables[k := u.table]), u.code)
  }

  datatype Batched = Batched(code: ErrorCode, table: Table, counter: int)

  /** The insertion loop of a batch: it stops at the first failure and keeps what it has inserted. */
  function InsertAll(t: Table, batch: seq<seq<Field>>, counter: int, now: Stamp): (r: Batched)
    requires |t.columns| > 0 && forall i | 0 <= i < |batch| :: |batch[i]| == |t.columns|
    ensures r.table.columns == t.columns
    decreases |batch|
  {
    if batch == [] then Batched(Success, t, counter)
    else
      var i := Insert(t, batch[0], counter, now);
      if i.code != Success then Batched(i.code, i.table, i.counter)
      else InsertAll(i.table, batch[1..], i.counter, now)
  }

  /** `db_batch_insert_records`: in a transaction level of its own, which a failure rolls back. */
  function BatchInsert(d: Db, name: string, batch: seq<seq<Field>>, now: Stamp): (r: Outcome)
    requires AllSound(d.tables) && Legal(d, BatchOp(name, batch, now))
  {
    var k := TableIndex(d.tables, name);
    if |batch| < 1 || |batch| > BATCH_INSERT_SIZE then Outcome(InvalidInput, d)
    else if k == |d.tables| then Outcome(NotFound, d)
    else if d.tables[k].count + |batch| > MAX_RECORDS_PER_TABLE then Outcome(TableFull, d)
    else if Begin(d).code != Success then Begin(d)
    else
      var e := Begin(d).db;
      var b := InsertAll(d.tables[k], batch, d.counter, now);
      Outcome(b.code, EndLocal(e.(tables := e.tables[k := b.table], counter := b.counter), b.code))
  }

  /** `db_delete_records_by_field`: deleting nothing is rolled back, and is a success all the same. */
  function DeleteByField(d: Db, name: string, column: string, key: Value): (r: Outcome) {
    var k := TableIndex(d.tables, name);
    if k == |d.tables| then Outcome(NotFound, d)
    else
      var t := d.tables[k];
      var c := ColumnIndex(t.columns, column);
      if c == |t.columns| then Outcome(NotFound, d)
      else if Begin(d).code != Success then Begin(d)
      else
        var e := Begin(d).db;
        var u := DeleteAll(t, c, key);
        var f := e.(tables := e.tables[k := u]);
        Outcome(Success, if |u.records| < |t.records| then Commit(f).db else Rollback(f).db)
  }

  /** `db_load_from_file`: a new database, but for the id counter, which all databases share. */
  function LoadInstead(d: Db, text: string, now: Stamp): (r: Outcome) {
    var ts := LoadText(text, now);
    if ts.None? then Outcome(InvalidInput, d) else Outcome(Success, EMPTY.(tables := ts.value, counter := d.counter))
  }

  function Perform(d: Db, op: Op): (r: Outcome)
    requires AllSound(d.tables) && Legal(d, op)
  {
    match op
    case AddTableOp(name, cs) => var a := AddTable(d.tables, name, cs); Outcome(a.code, d.(tables := a.tables))
    case InsertOp(name, values, now) => InsertRecord(d, name, values, now)
    case BatchOp(name, batch, now) => BatchInsert(d, name, batch, now)
    case UpdateOp(name, id, values, now) => UpdateRecord(d, name, id, values, now)
    case DeleteOp(name, id) => DeleteRecord(d, name, id)
    case DeleteByFieldOp(name, column, key) => DeleteByField(d, name, column, key)
    case BeginOp => Begin(d)
    case CommitOp => Commit(d)
    case RollbackOp => Rollback(d)
    case LoadOp(text, now) => LoadInstead(d, text, now)
  }

  // ---- the invariant of a table ----

  /** No two records share an id, none has the id -1, the count is right, and the next id lies above them all. */
  predicate TableInv(t: Table) {
    && Sound(t)
    && DistinctIds(t.records)
    && t.count == |t.records| <= MAX_RECORDS_PER_TABLE
    && forall i | 0 <= i < |t.records| :: t.records[i].id != -1 && t.records[i].id < t.nextId
  }

  lemma {:induction false} AddKeepsInv(t: Table, id: int, values: seq<Field>, now: Stamp)
    requires TableInv(t) && |values| == |t.columns| && t.count < MAX_RECORDS_PER_TABLE
    requires id != -1 && Find(t.records, id) == |t.records|
    ensures TableInv(Add(t, id, values, now))
  {
    var u := Add(t, id, values, now);
    assert u.records[0].id == id;
    assert forall i | 0 < i < |u.records| :: u.records[i] == t.records[i - 1];
  }

  lemma {:induction false} InsertKeepsInv(t: Table, values: seq<Field>, counter: int, now: Stamp)
    requires TableInv(t) && |values| == |t.columns| && counter > 0
    ensures var r := Insert(t, values, counter, now);
            && TableInv(r.table) && r.counter > 0 && r.table.columns == t.columns
            && r.table.nextId >= t.nextId
            && (r.code == Success ==> r.id != -1 && r.id < r.table.nextId && r.table.count == t.count + 1)
  {
    GeneratedIsFresh(t.records, counter);
    hide Shaped, DistinctIds, MaxId, KeyOf, StoredFields, TableInv, Add;
    var r := Insert(t, values, counter, now);
    if r.code == Success {
      assert r.table == Add(t, r.id, values, now);
      assert t.count < MAX_RECORDS_PER_TABLE && Find(t.records, r.id) == |t.records|;
      AddKeepsInv(t, r.id, values, now);
      AddShape(t, r.id, values, now);
    }
  }

  lemma {:induction false} AddShape(t: Table, id: int, values: seq<Field>, now: Stamp)
    requires |values| == |t.columns|
    ensures var u := Add(t, id, values, now);
            u.columns == t.columns && u.nextId >= t.nextId && id < u.nextId && u.count == t.count + 1
  {
  }

  /**
   * Inserting where no primary-key column holds an INT, or the first that does holds -1, never clashes with a stored id:
   * the new id is positive and above them all.
   */
  lemma {:induction false} GeneratedNeverClashes(t: Table, values: seq<Field>, counter: int, now: Stamp)
    requires TableInv(t) && |values| == |t.columns| && counter > 0 && LeavesId(t.columns, values)
    ensures var r := Insert(t, values, counter, now);
            && r.code != DuplicateKey
            && (r.code == Success ==> r.id > 0 && forall i | 0 <= i < |t.records| :: t.records[i].id < r.id)
  {
    IdLeft(t.columns, values);
    GeneratedIsFresh(t.records, counter);
    FindHas(t.records, GenerateId(t.records, counter).id);
    hide Shaped, DistinctIds, MaxId, KeyOf, StoredFields, HasId, Find, LeavesId;
  }

  /** An INT in a primary-key column, the first if there are several, and not -1, is the id, or is refused as taken. */
  lemma {:induction false} SuppliedIdIsUsed(t: Table, values: seq<Field>, counter: int, now: Stamp, i: nat, n: int)
    requires |values| == |t.columns| > 0 && KeyAt(t.columns, values, i, n) && n != -1
    ensures var r := Insert(t, values, counter, now);
            && r.counter == counter
            && (r.code == Success ==> r.id == n && !HasId(t.records, n))
            && (r.code == DuplicateKey ==> HasId(t.records, n))
  {
    KeyGiven(t.columns, values, i, n);
    FindHas(t.records, n);
    hide KeyOf, StoredFields, HasId, Find, KeyAt, NullsAllowed;
  }

  /** The same ids, one by one. */
  predicate SameIds(rs: seq<Record>, qs: seq<Record>) {
    |rs| == |qs| && forall i | 0 <= i < |rs| :: rs[i].id == qs[i].id && |rs[i].fields| == |qs[i].fields|
  }

  lemma {:induction false} UpdateKeepsInv(t: Table, id: int, values: seq<Field>, now: Stamp)
    requires TableInv(t) && |values| == |t.columns|
    ensures var u := Update(t, id, values, now).table;
            TableInv(u) && SameIds(t.records, u.records) && u.columns == t.columns && u.nextId == t.nextId
    ensures forall i | 0 <= i < |t.records| && i != Find(t.records, id) ::
              Update(t, id, values, now).table.records[i] == t.records[i]
  {
    hide Rewrite;
    var u := Update(t, id, values, now).table;
    assert SameIds(t.records, u.records);
  }

  /** How far an update gets: every column in front of `m` is overwritten, none from `m` on, and `m` is where a key clashes. */
  lemma {:induction false} RewriteStops(t: Table, id: int, fields: seq<Field>, values: seq<Field>, i: nat) returns (m: nat)
    requires |fields| == |values| == |t.columns| && i <= |fields|
    ensures i <= m <= |fields|
    ensures var r := Rewrite(t, id, fields, values, i);
            && (r.ok <==> m == |fields|)
            && (!r.ok ==> KeyClash(t.records, id, t.columns[m], values[m]))
            && (forall j | i <= j < m :: !KeyClash(t.records, id, t.columns[j], values[j]))
            && (forall j | i <= j < m :: r.fields[j] == Overwrite(fields[j], values[j]))
            && (forall j | 0 <= j < |fields| && !(i <= j < m) :: r.fields[j] == fields[j])
    decreases |fields| - i
  {
    m := i;
    if i < |fields| && !KeyClash(t.records, id, t.columns[i], values[i]) {
      hide KeyClash, Overwrite;
      m := RewriteStops(t, id, fields[i := Overwrite(fields[i], values[i])], values, i + 1);
    }
  }

  /** A successful update leaves the key column equal to the record's id exactly when the new key is the old id. */
  lemma {:induction false} KeyFollowsId(t: Table, id: int, values: seq<Field>, now: Stamp)
    requires TableInv(t) && |values| == |t.columns| && Update(t, id, values, now).code == Success
    ensures var u, k := Update(t, id, values, now).table, Find(t.records, id);
            && k < |u.records| && u.records[k].id == id && |u.records[k].fields| == |t.columns| > 0
            && (AsInt(u.records[k].fields[0].value) == u.records[k].id <==> AsInt(values[0].value) == id)
  {
    var rec := t.records[Find(t.records, id)];
    var m := RewriteStops(t, id, rec.fields, values, 0);
    hide Rewrite, DistinctIds, MaxId;
  }

  /** So a key can drift from its id: record 1 is given the key 2, and is still found under 1. */
  lemma {:induction false} KeyDrifts()
    ensures exists t: Table, id: int, values: seq<Field>, now: Stamp ::
              && TableInv(t) && |values| == |t.columns| && Update(t, id, values, now).code == Success
              && var u := Update(t, id, values, now).table;
                 |u.records| == 1 && u.records[0].id == 1 && u.records[0].fields == [Field(TInt, IntV(2))]
  {
    var fs := [Field(TInt, IntV(1))];
    var t := Table("t", [Column("id", TInt, true, false, true)], [Record(1, fs, "", 1)], 1, 2);
    var vs := [Field(TInt, IntV(2))];
    assert Find(t.records, 2) == 1 && Find(t.records, 1) == 0;
    assert !KeyClash(t.records, 1, t.columns[0], vs[0]);
    assert Rewrite(t, 1, fs, vs, 0) == Rewrite(t, 1, fs[0 := vs[0]], vs, 1);
    assert fs[0 := vs[0]] == vs;
    var u := Update(t, 1, vs, "").table;
    assert u.records[0] == Record(1, vs, "", 2);
  }

  lemma {:induction false} DeleteKeepsInv(t: Table, id: int)
    requires TableInv(t)
    ensures var u := Delete(t, id).table; TableInv(u) && u.columns == t.columns && u.nextId == t.nextId
  {
    var k := Find(t.records, id);
    var u := Delete(t, id).table;
    if k < |t.records| {
      assert forall i | 0 <= i < |u.records| :: u.records[i] == t.records[if i < k then i else i + 1];
    }
  }

  /** A deletion succeeds exactly when the id is there; then it is gone, and every other record is left. */
  lemma {:induction false} DeleteForgets(t: Table, id: int)
    requires TableInv(t)
    ensures var u := Delete(t, id);
            && (u.code == Success <==> HasId(t.records, id))
            && !HasId(u.table.records, id)
            && (forall r | r in t.records && r.id != id :: r in u.table.records)
            && (forall r | r in u.table.records :: r in t.records)
  {
    FindHas(t.records, id);
    var k := Find(t.records, id);
    var rs, qs := t.records, Delete(t, id).table.records;
    hide Find, HasId;
    if k < |rs| {
      assert rs[k].id == id;
      forall i | 0 <= i < |qs| ensures qs[i] in rs && qs[i].id != id {
        assert qs[i] == rs[if i < k then i else i + 1];
      }
      forall r | r in rs && r.id != id ensures r in qs {
        var i :| 0 <= i < |rs| && rs[i] == r;
        assert qs[if i < k then i else i - 1] == r;
      }
      assert !HasId(qs, id) by { NotThere(qs, id); }
    }
  }

  lemma {:induction false} NotThere(rs: seq<Record>, id: int)
    requires forall i | 0 <= i < |rs| :: rs[i].id != id
    ensures !HasId(rs, id)
  {
  }

  /** Deleting the record just inserted restores the table, but for its next id. */
  lemma {:induction false} InsertThenDelete(t: Table, values: seq<Field>, counter: int, now: Stamp)
    requires |values| == |t.columns| > 0 && Insert(t, values, counter, now).code == Success
    ensures var r := Insert(t, values, counter, now);
            Delete(r.table, r.id) == Changed(Success, t.(nextId := r.table.nextId))
  {
    hide Admit, KeyOf, GenerateId, StoredFields;
    var r := Insert(t, values, counter, now);
    assert r.table.records[0].id == r.id && Find(r.table.records, r.id) == 0;
    assert r.table.records[..0] + r.table.records[1..] == t.records;
  }

  // ---- deletion by field is a filter ----

  /** Every record is kept or found, as often as it stood there. */
  lemma {:induction false} FilterConserves(t: Table, c: nat, key: Value, rs: seq<Record>)
    requires c < |t.columns|
    ensures var kept, found := Others(t, c, key, rs), FindAll(t, c, key, rs);
            |kept| + |found| == |rs| && multiset(kept) + multiset(found) == multiset(rs)
    decreases |rs|
  {
    if rs != [] {
      hide Hit;
      FilterConserves(t, c, key, rs[1..]);
      assert rs == [rs[0]] + rs[1..];
    }
  }

  lemma {:induction false} KeptAndFound(t: Table, c: nat, key: Value, rs: seq<Record>)
    requires c < |t.columns|
    ensures forall r | r in Others(t, c, key, rs) :: r in rs && !Hit(t, c, key, r)
    ensures forall r | r in FindAll(t, c, key, rs) :: r in rs && Hit(t, c, key, r)
    decreases |rs|
  {
    if rs != [] {
      hide Hit;
      KeptAndFound(t, c, key, rs[1..]);
    }
  }

  /** The search finds nothing among the kept, and keeping again keeps all; nothing is lost or invented. */
  lemma {:induction false} FilterSplits(t: Table, c: nat, key: Value, rs: seq<Record>)
    requires c < |t.columns|
    ensures var kept, found := Others(t, c, key, rs), FindAll(t, c, key, rs);
            && FindAll(t, c, key, kept) == [] && Others(t, c, key, kept) == kept
            && |kept| + |found| == |rs|
            && multiset(kept) + multiset(found) == multiset(rs)
            && (forall r | r in kept :: r in rs && !Hit(t, c, key, r))
            && (forall r | r in found :: r in rs && Hit(t, c, key, r))
  {
    FilterConserves(t, c, key, rs);
    KeptAndFound(t, c, key, rs);
    hide Others, FindAll, Hit;
    KeepingAgain(t, c, key, rs);
  }

  lemma {:induction false} KeepingAgain(t: Table, c: nat, key: Value, rs: seq<Record>)
    requires c < |t.columns|
    ensures var kept := Others(t, c, key, rs); FindAll(t, c, key, kept) == [] && Others(t, c, key, kept) == kept
    decreases |rs|
  {
    if rs != [] {
      hide Hit;
      KeepingAgain(t, c, key, rs[1..]);
      var kept := Others(t, c, key, rs);
      if !Hit(t, c, key, rs[0]) {
        assert kept[1..] == Others(t, c, key, rs[1..]);
      }
    }
  }

  /** Two positions of `rs` that hold these records, in this order. */
  ghost predicate InOrder(rs: seq<Record>, x: Record, y: Record) {
    exists a, b :: 0 <= a < b < |rs| && rs[a] == x && rs[b] == y
  }

  lemma {:induction false} InOrderBehind(rs: seq<Record>, x: Record, y: Record)
    requires rs != [] && InOrder(rs[1..], x, y)
    ensures InOrder(rs, x, y)
  {
    var a, b :| 0 <= a < b < |rs[1..]| && rs[1..][a] == x && rs[1..][b] == y;
    assert rs[a + 1] == x && rs[b + 1] == y;
  }

  lemma {:induction false} InOrderFirst(rs: seq<Record>, y: Record)
    requires rs != [] && y in rs[1..]
    ensures InOrder(rs, rs[0], y)
  {
    var b :| 0 <= b < |rs[1..]| && rs[1..][b] == y;
    assert rs[b + 1] == y;
  }

  /** The kept records stand in their old order: each keeps its relative position. */
  lemma {:induction false} FilterKeepsOrder(t: Table, c: nat, key: Value, rs: seq<Record>, i: nat, j: nat)
    requires c < |t.columns| && i < j < |Others(t, c, key, rs)|
    ensures InOrder(rs, Others(t, c, key, rs)[i], Others(t, c, key, rs)[j])
    decreases |rs|
  {
    hide Hit, InOrder;
    var rest := rs[1..];
    var kept := Others(t, c, key, rest);
    if Hit(t, c, key, rs[0]) {
      FilterKeepsOrder(t, c, key, rest, i, j);
      InOrderBehind(rs, kept[i], kept[j]);
    } else {
      assert Others(t, c, key, rs)[j] == kept[j - 1];
      if i > 0 {
        FilterKeepsOrder(t, c, key, rest, i - 1, j - 1);
        InOrderBehind(rs, kept[i - 1], kept[j - 1]);
      } else {
        KeptAndFound(t, c, key, rest);
        assert kept[j - 1] in kept;
        InOrderFirst(rs, kept[j - 1]);
      }
    }
  }

  lemma {:induction false} OthersKeepInv(t: Table, c: nat, key: Value, rs: seq<Record>)
    requires c < |t.columns| && DistinctIds(rs)
    ensures DistinctIds(Others(t, c, key, rs))
    ensures forall r | r in Others(t, c, key, rs) :: r in rs
    decreases |rs|
  {
    if rs != [] {
      hide Hit;
      var kept := Others(t, c, key, rs[1..]);
      assert forall i, j | 0 <= i < j < |rs[1..]| :: rs[1..][i].id != rs[1..][j].id by {
        assert forall i | 0 <= i < |rs[1..]| :: rs[1..][i] == rs[i + 1];
      }
      OthersKeepInv(t, c, key, rs[1..]);
      forall i | 0 <= i < |kept| ensures kept[i].id != rs[0].id {
        assert kept[i] in rs[1..];
      }
    }
  }

  lemma {:induction false} DeleteAllKeepsInv(t: Table, c: nat, key: Value)
    requires TableInv(t) && c < |t.columns|
    ensures TableInv(DeleteAll(t, c, key)) && DeleteAll(t, c, key).columns == t.columns
    ensures DeleteAll(t, c, key).nextId == t.nextId
  {
    OthersKeepInv(t, c, key, t.records);
    var kept := Others(t, c, key, t.records);
    hide Others, DistinctIds;
    forall i | 0 <= i < |kept| ensures kept[i] in t.records {
      assert kept[i] in kept;
    }
  }
}
