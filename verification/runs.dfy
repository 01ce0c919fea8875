/** What every run of a database keeps. */
module Runs {
  import opened Chars
  import opened Lexer
  import opened TokenStream
  import opened Escaping
  import opened Skipper
  import opened Schema
  import opened Loader
  import opened RoundTrip
  import opened Durability
  import opened Store
  import opened Batches

  /** A transaction is active exactly at a positive level, and every outermost begin has ended or is active. */
  predicate TransactionInv(d: Db) {
    && (d.active <==> d.level > 0)
    && 0 <= d.level <= MAX_TRANSACTION_LEVEL
    && d.outer == d.committed + d.rolledBack + (if d.active then 1 else 0)
  }

  predicate TablesInv(ts: seq<Table>) {
    forall i | 0 <= i < |ts| :: TableInv(ts[i])
  }

  predicate DbInv(d: Db) {
    TransactionInv(d) && d.counter > 0 && TablesInv(d.tables)
  }

  lemma {:induction false} InvIsSound(ts: seq<Table>)
    requires TablesInv(ts)
    ensures AllSound(ts)
  {
    assert forall i | 0 <= i < |ts| :: TableInv(ts[i]) ==> Sound(ts[i]);
  }

  lemma {:induction false} ReplaceKeepsInv(ts: seq<Table>, k: nat, t: Table)
    requires TablesInv(ts) && k < |ts| && TableInv(t)
    ensures TablesInv(ts[k := t])
  {
    hide TableInv;
  }

  lemma {:induction false} InsertAllKeepsInv(t: Table, batch: seq<seq<Field>>, counter: int, now: Stamp)
    requires TableInv(t) && counter > 0 && forall i | 0 <= i < |batch| :: |batch[i]| == |t.columns|
    ensures |t.columns| > 0
    ensures var r := InsertAll(t, batch, counter, now); TableInv(r.table) && r.counter > 0 && r.table.nextId >= t.nextId
    decreases |batch|
  {
    assert Sound(t);
    hide TableInv, Insert;
    if batch != [] {
      InsertKeepsInv(t, batch[0], counter, now);
      var i := Insert(t, batch[0], counter, now);
      if i.code == Success {
        InsertAllKeepsInv(i.table, batch[1..], i.counter, now);
      }
    }
  }

  lemma {:induction false} NewTableInv(ts: seq<Table>, name: string, cs: seq<RawColumn>)
    requires TablesInv(ts)
    ensures TablesInv(AddTable(ts, name, cs).tables)
  {
    hide DistinctIds;
    var r := AddTable(ts, name, cs);
    if r.code == Success {
      assert DistinctIds([]) by { NoRecords(); }
      assert TableInv(r.tables[|ts|]);
    }
  }

  lemma {:induction false} NoRecords()
    ensures DistinctIds([])
  {
  }

  // ---- loading, from any text ----

  lemma {:induction false} StoreRecordKeepsInv(t: Table, r: RawRecord, now: Stamp)
    requires TableInv(t) && |r.fields| == |t.columns|
    ensures |t.columns| > 0
    ensures TableInv(StoreRecord(t, r, now).table)
  {
    assert Sound(t);
    if r.id != -1 {
      InsertKeepsInv(t, SetKey(t.columns, r.fields, r.id), FIRST_GENERATED_ID, now);
    }
  }

  lemma {:induction false} RecordsLoopKeepsInv(st: Stream, t: Table, now: Stamp)
    requires TableInv(t)
    ensures |t.columns| > 0
    ensures var p := RecordsLoop(st, t, now); p.Done? ==> TableInv(p.value)
    decreases Len(st)
  {
    assert Sound(t);
    hide TableInv, StoreRecord, RecordLoop, Defaults, Len;
    var o := Next(st);
    if o.tok == ObjectStart {
      var rec := RecordLoop(o.rest, t.columns, RawRecord(-1, Defaults(t.columns)));
      if rec.Done? {
        var s := StoreRecord(t, rec.value, now);
        StoreRecordKeepsInv(t, rec.value, now);
        var sep := Next(rec.rest);
        if s.code == Success && sep.tok == Comma {
          RecordsLoopKeepsInv(sep.rest, s.table, now);
        }
      }
    }
  }

  lemma {:induction false} SiblingKeepsInv(key: string, st: Stream, ts: seq<Table>, now: Stamp)
    requires TablesInv(ts) && ts != []
    ensures HasColumns(ts)
    ensures var p := Sibling(key, st, ts, now); p.Done? ==> TablesInv(p.value) && p.value != []
  {
    InvIsSound(ts);
    hide TableInv, RecordsLoop, Skip;
    assert TableInv(ts[|ts| - 1]);
    var a := Next(st);
    RecordsLoopKeepsInv(a.rest, ts[|ts| - 1], now);
  }

  lemma {:induction false} SiblingsLoopKeepsInv(st: Stream, ts: seq<Table>, now: Stamp)
    requires TablesInv(ts) && ts != []
    ensures HasColumns(ts)
    ensures var p := SiblingsLoop(st, ts, now); p.Done? ==> TablesInv(p.value)
    decreases Len(st)
  {
    InvIsSound(ts);
    hide TablesInv, Sibling;
    var t := Next(st);
    var key := Next(t.rest);
    var colon := Next(key.rest);
    if t.tok == Comma && key.tok.Str? && colon.tok == Colon {
      SiblingKeepsInv(key.tok.value, colon.rest, ts, now);
      var s := Sibling(key.tok.value, colon.rest, ts, now);
      if s.Done? {
        SiblingsLoopKeepsInv(s.rest, s.value, now);
      }
    }
  }

  lemma {:induction false} ParseSchemaKeepsInv(st: Stream, ts: seq<Table>)
    requires TablesInv(ts)
    ensures HasColumns(ts)
    ensures var p := ParseSchema(st, ts); p.Done? ==> TablesInv(p.value)
  {
    InvIsSound(ts);
    hide TablesInv, SchemaLoop, AddTable;
    var a := Next(st);
    var b := if a.tok == ObjectStart then Next(a.rest) else a;
    var s := SchemaLoop(b.tok, b.rest, RawSchema("", []));
    if s.Done? {
      NewTableInv(ts, s.value.name, s.value.columns);
    }
  }

  lemma {:induction false} TablesLoopKeepsInv(st: Stream, ts: seq<Table>, started: bool, now: Stamp)
    requires TablesInv(ts)
    ensures HasColumns(ts)
    ensures var p := TablesLoop(st, ts, started, now); p.Done? ==> TablesInv(p.value)
    decreases Len(st), 1
  {
    InvIsSound(ts);
    hide TablesInv, ParseSchema, BehindSchema;
    var o := if started then Read(ObjectStart, st) else Next(st);
    if o.tok == ObjectStart {
      ParseSchemaKeepsInv(o.rest, ts);
      var s := ParseSchema(o.rest, ts);
      if s.Done? {
        BehindSchemaKeepsInv(s.rest, s.value, now);
      }
    }
  }

  lemma {:induction false} BehindSchemaKeepsInv(st: Stream, ts: seq<Table>, now: Stamp)
    requires TablesInv(ts) && ts != []
    ensures HasColumns(ts)
    ensures var p := BehindSchema(st, ts, now); p.Done? ==> TablesInv(p.value)
    decreases Len(st), 0
  {
    InvIsSound(ts);
    hide TablesInv, TablesLoop, TableSeparator, Sibling, SiblingsLoop;
    var t := Next(st);
    if t.tok == ObjectEnd {
      SeparatorKeepsInv(t.rest, ts, now);
    } else if t.tok == Comma {
      var n := Next(t.rest);
      if n.tok == ObjectStart {
        TablesLoopKeepsInv(n.rest, ts, true, now);
      } else if n.tok.Str? {
        var colon := Next(n.rest);
        SiblingKeepsInv(n.tok.value, colon.rest, ts, now);
        var s := Sibling(n.tok.value, colon.rest, ts, now);
        if s.Done? {
          SiblingsLoopKeepsInv(s.rest, s.value, now);
          var l := SiblingsLoop(s.rest, s.value, now);
          if l.Done? {
            SeparatorKeepsInv(l.rest, l.value, now);
          }
        }
      }
    }
  }

  lemma {:induction false} SeparatorKeepsInv(st: Stream, ts: seq<Table>, now: Stamp)
    requires TablesInv(ts)
    ensures HasColumns(ts)
    ensures var p := TableSeparator(st, ts, now); p.Done? ==> TablesInv(p.value)
    decreases Len(st), 2
  {
    InvIsSound(ts);
    hide TablesInv, TablesLoop;
    var sep := Next(st);
    if sep.tok == Comma {
      TablesLoopKeepsInv(sep.rest, ts, false, now);
    }
  }

  lemma {:induction false} TopLoopKeepsInv(st: Stream, ts: seq<Table>, now: Stamp)
    requires TablesInv(ts)
    ensures HasColumns(ts)
    ensures var p := TopLoop(st, ts, now); p.Done? ==> TablesInv(p.value)
    decreases Len(st)
  {
    InvIsSound(ts);
    hide TablesInv, TopMember;
    var key := Next(st);
    var colon := Next(key.rest);
    if key.tok.Str? && colon.tok == Colon {
      TopMemberKeepsInv(key.tok.value, colon.rest, ts, now);
      var m := TopMember(key.tok.value, colon.rest, ts, now);
      if m.Done? {
        var sep := Next(m.rest);
        if sep.tok == Comma {
          TopLoopKeepsInv(sep.rest, m.value, now);
        }
      }
    }
  }

  lemma {:induction false} TopMemberKeepsInv(key: string, st: Stream, ts: seq<Table>, now: Stamp)
    requires TablesInv(ts)
    ensures HasColumns(ts)
    ensures var p := TopMember(key, st, ts, now); p.Done? ==> TablesInv(p.value)
  {
    InvIsSound(ts);
    hide TablesInv, TablesLoop, ParseMetadata, Skip;
    TablesLoopKeepsInv(Next(st).rest, ts, false, now);
  }

  /** Whatever text is loaded, JSON or not: if loading succeeds, the tables keep the invariant. */
  lemma {:induction false} LoadKeepsInv(text: string, now: Stamp)
    ensures var ts := LoadText(text, now); ts.Some? ==> TablesInv(ts.value)
  {
    hide StreamOf, TopLoop;
    var st := StreamOf(text);
    TopLoopKeepsInv(Next(st).rest, [], now);
  }

  // ---- one operation ----

  /** The tables only ever get more, and their next ids only ever rise. */
  predicate Grows(ts: seq<Table>, us: seq<Table>) {
    && |ts| <= |us|
    && forall k | 0 <= k < |ts| :: us[k].nextId >= ts[k].nextId && us[k].columns == ts[k].columns
  }

  lemma {:induction false} ReplaceGrows(ts: seq<Table>, k: nat, t: Table)
    requires k < |ts| && t.nextId >= ts[k].nextId && t.columns == ts[k].columns
    ensures Grows(ts, ts[k := t])
  {
  }

  lemma {:induction false} GrowsNot(ts: seq<Table>)
    ensures Grows(ts, ts)
  {
  }

  lemma {:induction false} GrowsOn(ts: seq<Table>, us: seq<Table>, vs: seq<Table>)
    requires Grows(ts, us) && Grows(us, vs)
    ensures Grows(ts, vs)
  {
  }

  lemma {:induction false} AddGrows(ts: seq<Table>, name: string, cs: seq<RawColumn>)
    ensures Grows(ts, AddTable(ts, name, cs).tables)
  {
    hide NewColumns;
  }

  lemma {:induction false} InsertOpKeepsInv(d: Db, name: string, values: seq<Field>, now: Stamp)
    requires DbInv(d) && Legal(d, InsertOp(name, values, now))
    ensures AllSound(d.tables) && DbInv(InsertRecord(d, name, values, now).db)
    ensures Grows(d.tables, InsertRecord(d, name, values, now).db.tables)
  {
    InvIsSound(d.tables);
    hide TableInv, Insert, TableIndex, Sound;
    GrowsNot(d.tables);
    var k := TableIndex(d.tables, name);
    if k < |d.tables| {
      var t := d.tables[k];
      assert TableInv(t);
      InsertKeepsInv(t, values, d.counter, now);
      ReplaceKeepsInv(d.tables, k, Insert(t, values, d.counter, now).table);
      ReplaceGrows(d.tables, k, Insert(t, values, d.counter, now).table);
      hide TablesInv, Grows;
    }
  }

  lemma {:induction false} BatchOpKeepsInv(d: Db, name: string, batch: seq<seq<Field>>, now: Stamp)
    requires DbInv(d) && Legal(d, BatchOp(name, batch, now))
    ensures AllSound(d.tables) && DbInv(BatchInsert(d, name, batch, now).db)
    ensures Grows(d.tables, BatchInsert(d, name, batch, now).db.tables)
  {
    InvIsSound(d.tables);
    hide TableInv, InsertAll, TableIndex, Sound;
    GrowsNot(d.tables);
    var k := TableIndex(d.tables, name);
    if k < |d.tables| {
      var t := d.tables[k];
      assert TableInv(t);
      InsertAllKeepsInv(t, batch, d.counter, now);
      ReplaceKeepsInv(d.tables, k, InsertAll(t, batch, d.counter, now).table);
      ReplaceGrows(d.tables, k, InsertAll(t, batch, d.counter, now).table);
      hide TablesInv, Grows;
    }
  }

  lemma {:induction false} UpdateOpKeepsInv(d: Db, name: string, id: int, values: seq<Field>, now: Stamp)
    requires DbInv(d) && Legal(d, UpdateOp(name, id, values, now))
    ensures AllSound(d.tables) && DbInv(UpdateRecord(d, name, id, values, now).db)
    ensures Grows(d.tables, UpdateRecord(d, name, id, values, now).db.tables)
  {
    InvIsSound(d.tables);
    hide TableInv, Update, TableIndex;
    GrowsNot(d.tables);
    var k := TableIndex(d.tables, name);
    if k < |d.tables| {
      var t := d.tables[k];
      assert TableInv(t) && Sound(t);
      UpdateKeepsInv(t, id, values, now);
      ReplaceKeepsInv(d.tables, k, Update(t, id, values, now).table);
      ReplaceGrows(d.tables, k, Update(t, id, values, now).table);
      hide TablesInv, Grows;
    }
  }

  lemma {:induction false} DeleteOpKeepsInv(d: Db, name: string, id: int)
    requires DbInv(d)
    ensures DbInv(DeleteRecord(d, name, id).db)
    ensures Grows(d.tables, DeleteRecord(d, name, id).db.tables)
  {
    hide TableInv, Delete, TableIndex;
    GrowsNot(d.tables);
    var k := TableIndex(d.tables, name);
    if k < |d.tables| {
      assert TableInv(d.tables[k]);
      DeleteKeepsInv(d.tables[k], id);
      ReplaceKeepsInv(d.tables, k, Delete(d.tables[k], id).table);
      ReplaceGrows(d.tables, k, Delete(d.tables[k], id).table);
      hide TablesInv, Grows;
    }
  }

  lemma {:induction false} DeleteByFieldOpKeepsInv(d: Db, name: string, column: string, key: Value)
    requires DbInv(d)
    ensures DbInv(DeleteByField(d, name, column, key).db)
    ensures Grows(d.tables, DeleteByField(d, name, column, key).db.tables)
  {
    hide TableInv, DeleteAll, TableIndex, ColumnIndex;
    GrowsNot(d.tables);
    var k := TableIndex(d.tables, name);
    if k < |d.tables| {
      var t := d.tables[k];
      var c := ColumnIndex(t.columns, column);
      if c < |t.columns| {
        assert TableInv(t);
        DeleteAllKeepsInv(t, c, key);
        ReplaceKeepsInv(d.tables, k, DeleteAll(t, c, key));
        ReplaceGrows(d.tables, k, DeleteAll(t, c, key));
        hide TablesInv, Grows;
      }
    }
  }

  lemma {:induction false} LoadOpKeepsInv(d: Db, text: string, now: Stamp)
    requires DbInv(d)
    ensures DbInv(LoadInstead(d, text, now).db)
  {
    LoadKeepsInv(text, now);
    hide TablesInv, LoadText;
  }

  /** Every operation, on every outcome, keeps the invariant. */
  lemma {:induction false} PerformKeepsInv(d: Db, op: Op)
    requires DbInv(d) && Legal(d, op)
    ensures AllSound(d.tables) && DbInv(Perform(d, op).db)
    ensures !op.LoadOp? ==> Grows(d.tables, Perform(d, op).db.tables)
  {
    InvIsSound(d.tables);
    GrowsNot(d.tables);
    hide TablesInv, AllSound, Grows, InsertRecord, BatchInsert, UpdateRecord, DeleteRecord, DeleteByField, LoadInstead, AddTable;
    match op
    case AddTableOp(name, cs) => NewTableInv(d.tables, name, cs); AddGrows(d.tables, name, cs);
    case InsertOp(name, values, now) => InsertOpKeepsInv(d, name, values, now);
    case BatchOp(name, batch, now) => BatchOpKeepsInv(d, name, batch, now);
    case UpdateOp(name, id, values, now) => UpdateOpKeepsInv(d, name, id, values, now);
    case DeleteOp(name, id) => DeleteOpKeepsInv(d, name, id);
    case DeleteByFieldOp(name, column, key) => DeleteByFieldOpKeepsInv(d, name, column, key);
    case LoadOp(text, now) => LoadOpKeepsInv(d, text, now);
    case _ =>
  }

  // ---- every run ----

  /** Callers hand over one field for each column, at every step. */
  predicate LegalRun(d: Db, ops: seq<Op>)
    requires DbInv(d)
    decreases |ops|
  {
    ops == [] ||
    (Legal(d, ops[0]) && (PerformKeepsInv(d, ops[0]); LegalRun(Perform(d, ops[0]).db, ops[1..])))
  }

  /** The state a run ends in. */
  function Run(d: Db, ops: seq<Op>): (e: Db)
    requires DbInv(d) && LegalRun(d, ops)
    ensures DbInv(e)
    decreases |ops|
  {
    if ops == [] then d
    else
      PerformKeepsInv(d, ops[0]);
      Run(Perform(d, ops[0]).db, ops[1..])
  }

  lemma {:induction false} RunGrows(d: Db, ops: seq<Op>)
    requires DbInv(d) && LegalRun(d, ops) && forall i | 0 <= i < |ops| :: !ops[i].LoadOp?
    ensures Grows(d.tables, Run(d, ops).tables)
    decreases |ops|
  {
    hide Grows, DbInv, Perform;
    if ops == [] {
      GrowsNot(d.tables);
    } else {
      PerformKeepsInv(d, ops[0]);
      var e := Perform(d, ops[0]).db;
      assert forall i | 0 <= i < |ops[1..]| :: ops[1..][i] == ops[i + 1];
      RunGrows(e, ops[1..]);
      GrowsOn(d.tables, e.tables, Run(e, ops[1..]).tables);
    }
  }

  /** From an empty database, every run ends with sound tables and balanced transactions. */
  lemma {:induction false} EveryRunKeepsInv(ops: seq<Op>)
    ensures DbInv(EMPTY)
    ensures LegalRun(EMPTY, ops) ==>
              var d := Run(EMPTY, ops);
              && (d.active <==> d.level > 0) && 0 <= d.level <= MAX_TRANSACTION_LEVEL
              && d.outer == d.committed + d.rolledBack + (if d.active then 1 else 0)
              && forall k | 0 <= k < |d.tables| ::
                   var t := d.tables[k];
                   && DistinctIds(t.records) && t.count == |t.records| <= MAX_RECORDS_PER_TABLE
                   && forall i | 0 <= i < |t.records| :: t.records[i].id != -1 && t.records[i].id < t.nextId
  {
    if LegalRun(EMPTY, ops) {
      var d := Run(EMPTY, ops);
      hide Run, DistinctIds;
      forall k | 0 <= k < |d.tables| ensures TableInv(d.tables[k]) {
        assert TablesInv(d.tables);
      }
    }
  }

  /** An id that a table once held stays below its next id, whatever happens later, even when the record is deleted. */
  lemma {:induction false} NextIdAboveEveryId(d: Db, ops: seq<Op>, k: nat, i: nat)
    requires DbInv(d) && LegalRun(d, ops) && forall j | 0 <= j < |ops| :: !ops[j].LoadOp?
    requires k < |d.tables| && i < |d.tables[k].records|
    ensures k < |Run(d, ops).tables| && d.tables[k].records[i].id < Run(d, ops).tables[k].nextId
  {
    RunGrows(d, ops);
    hide LegalRun, Run;
    assert TableInv(d.tables[k]);
  }

  // ---- what an operation does to the transaction it runs in ----

  predicate SameTransaction(d: Db, e: Db) {
    d.active == e.active && d.level == e.level
  }

  /** Operations on one record leave the transaction as they found it, whatever their outcome. */
  lemma {:induction false} SingleKeepsTransaction(d: Db, op: Op)
    requires DbInv(d) && Legal(d, op) && (op.InsertOp? || op.UpdateOp? || op.DeleteOp?)
    ensures AllSound(d.tables) && SameTransaction(d, Perform(d, op).db)
  {
    InvIsSound(d.tables);
    hide TablesInv, AllSound, Insert, Update, Delete, TableIndex;
  }

  /** The checks a batch passes before it opens a level of its own. */
  predicate BatchStarts(d: Db, name: string, batch: seq<seq<Field>>) {
    var k := TableIndex(d.tables, name);
    && 1 <= |batch| <= BATCH_INSERT_SIZE
    && k < |d.tables|
    && d.tables[k].count + |batch| <= MAX_RECORDS_PER_TABLE
    && (d.active ==> d.level < MAX_TRANSACTION_LEVEL)
  }

  /** A batch that starts, and of which every record can be inserted. */
  predicate BatchSucceeds(d: Db, name: string, batch: seq<seq<Field>>)
    requires AllSound(d.tables) && Legal(d, BatchOp(name, batch, ""))
  {
    BatchStarts(d, name, batch) && Acceptable(d.tables[TableIndex(d.tables, name)], batch, d.counter)
  }

  lemma {:induction false} BatchCode(d: Db, name: string, batch: seq<seq<Field>>, now: Stamp)
    requires DbInv(d) && Legal(d, BatchOp(name, batch, now))
    ensures AllSound(d.tables)
    ensures BatchInsert(d, name, batch, now).code == Success <==> BatchSucceeds(d, name, batch)
  {
    InvIsSound(d.tables);
    var k := TableIndex(d.tables, name);
    if k < |d.tables| {
      assert TableInv(d.tables[k]);
      BatchExactly(d.tables[k], batch, d.counter, now);
    }
    hide TablesInv, TableInv, AllSound, InsertAll, TableIndex, Acceptable;
  }

  /**
   * A batch ends the enclosing transaction, at every level, exactly when it starts and one of its records cannot be
   * inserted.
   */
  lemma {:induction false} BatchKeepsTransaction(d: Db, name: string, batch: seq<seq<Field>>, now: Stamp)
    requires DbInv(d) && Legal(d, BatchOp(name, batch, now))
    ensures AllSound(d.tables)
    ensures var r := BatchInsert(d, name, batch, now);
            && (SameTransaction(d, r.db)
                <==> !(d.active && BatchStarts(d, name, batch) && !BatchSucceeds(d, name, batch)))
            && (!SameTransaction(d, r.db) ==> !r.db.active && r.db.rolledBack == d.rolledBack + 1)
  {
    InvIsSound(d.tables);
    BatchCode(d, name, batch, now);
    hide TablesInv, AllSound, InsertAll, TableIndex, Acceptable;
  }

  /** A batch, successful or not, changes a table exactly when it starts and its first record is not refused. */
  lemma {:induction false} BatchChangesTables(d: Db, name: string, batch: seq<seq<Field>>, now: Stamp)
    requires DbInv(d) && Legal(d, BatchOp(name, batch, now))
    ensures AllSound(d.tables)
    ensures BatchInsert(d, name, batch, now).db.tables != d.tables
       <==> BatchStarts(d, name, batch) && !Refused(d.tables[TableIndex(d.tables, name)], batch[0])
  {
    InvIsSound(d.tables);
    var k := TableIndex(d.tables, name);
    if k < |d.tables| {
      assert TableInv(d.tables[k]);
      BatchUnchanged(d.tables[k], batch, d.counter, now);
      ReplacedSame(d.tables, k, InsertAll(d.tables[k], batch, d.counter, now).table);
    }
    hide TablesInv, TableInv, AllSound, InsertAll, TableIndex, Refused;
  }

  lemma {:induction false} ReplacedSame(ts: seq<Table>, k: nat, t: Table)
    requires k < |ts|
    ensures ts[k := t] == ts <==> t == ts[k]
  {
    assert ts[k := t][k] == t;
  }

  /** A deletion by field ends the enclosing transaction exactly when it starts and there is nothing to delete. */
  lemma {:induction false} DeleteByFieldKeepsTransaction(d: Db, name: string, column: string, key: Value)
    requires DbInv(d)
    ensures var r := DeleteByField(d, name, column, key);
            var k := TableIndex(d.tables, name);
            var starts := k < |d.tables| && ColumnIndex(d.tables[k].columns, column) < |d.tables[k].columns|
                          && d.level < MAX_TRANSACTION_LEVEL;
            && (SameTransaction(d, r.db)
                <==> !(d.active && starts
                       && FindAll(d.tables[k], ColumnIndex(d.tables[k].columns, column), key, d.tables[k].records) == []))
            && (!SameTransaction(d, r.db) ==> r.code == Success && !r.db.active && r.db.rolledBack == d.rolledBack + 1)
  {
    var k := TableIndex(d.tables, name);
    if k < |d.tables| {
      var t := d.tables[k];
      var c := ColumnIndex(t.columns, column);
      if c < |t.columns| {
        FilterSplits(t, c, key, t.records);
        hide TablesInv, TableIndex, ColumnIndex, FindAll, Others;
      }
    }
  }

  /** In every run, an insert that leaves the id to the generator never fails for a duplicate key. */
  lemma {:induction false} FreshInEveryRun(ops: seq<Op>, name: string, values: seq<Field>, now: Stamp)
    requires DbInv(EMPTY) && LegalRun(EMPTY, ops) && Legal(Run(EMPTY, ops), InsertOp(name, values, now))
    requires var d := Run(EMPTY, ops);
             var k := TableIndex(d.tables, name);
             k < |d.tables| ==> LeavesId(d.tables[k].columns, values)
    ensures var d := Run(EMPTY, ops);
            AllSound(d.tables) && InsertRecord(d, name, values, now).code != DuplicateKey
  {
    var d := Run(EMPTY, ops);
    InvIsSound(d.tables);
    hide LegalRun, Run, TableInv, Insert, LeavesId, TableIndex;
    var k := TableIndex(d.tables, name);
    if k < |d.tables| {
      assert TableInv(d.tables[k]);
      GeneratedNeverClashes(d.tables[k], values, d.counter, now);
    }
  }

  /** Adding a table keeps names distinct exactly when no table has the name as it is stored, cut to 63 characters. */
  lemma {:induction false} NamesStayDistinct(ts: seq<Table>, name: string, cs: seq<RawColumn>)
    requires DistinctTables(ts) && AddTable(ts, name, cs).code == Success
    ensures DistinctTables(AddTable(ts, name, cs).tables) <==> !HasTable(ts, Clip(name, MAX_TABLE_NAME - 1))
    ensures |name| < MAX_TABLE_NAME ==> DistinctTables(AddTable(ts, name, cs).tables)
  {
    var us := AddTable(ts, name, cs).tables;
    var n := |ts|;
    assert us[..n] == ts && |us| == n + 1 && us[n].name == Clip(name, MAX_TABLE_NAME - 1);
    hide NewColumns;
    if HasTable(ts, us[n].name) {
      var i :| 0 <= i < n && ts[i].name == us[n].name;
      assert us[i] == ts[i] && us[i].name == us[n].name;
    } else {
      assert forall i | 0 <= i < n :: us[i] == ts[i];
    }
  }

  // ---- a database on which these fail ----

  /** One empty table, with an INT key, inside a transaction. */
  function Sample(): (d: Db) {
    Db([Table("t", [Column("id", TInt, true, false, true)], [], 0, 1)], 1000, true, 1, 1, 0, 0, 1)
  }

  lemma {:induction false} SampleInv()
    ensures DbInv(Sample()) && TableIndex(Sample().tables, "t") == 0
  {
  }

  function WithKey(key: int): (values: seq<Field>) { [Field(TInt, IntV(key))] }

  /**
   * Two records with the same key: the batch starts, its first record is stored and stays, its second is refused, and
   * the caller's transaction is over.
   */
  lemma {:induction false} BatchEndsTransaction(now: Stamp)
    ensures var batch := [WithKey(7), WithKey(7)];
            && DbInv(Sample()) && Legal(Sample(), BatchOp("t", batch, now)) && AllSound(Sample().tables)
            && BatchStarts(Sample(), "t", batch) && !BatchSucceeds(Sample(), "t", batch)
            && var r := BatchInsert(Sample(), "t", batch, now);
               r.code != Success && !r.db.active && |r.db.tables[0].records| == 1
  {
    var d, batch := Sample(), [WithKey(7), WithKey(7)];
    SampleInv();
    InvIsSound(d.tables);
    var t := d.tables[0];
    assert !Acceptable(t, batch, d.counter) by { SecondKeyTaken(); }
    assert !Refused(t, batch[0]) by { FirstKeyFits(); }
    BatchCode(d, "t", batch, now);
    BatchKeepsTransaction(d, "t", batch, now);
    var n := BatchStopsAt(t, batch, d.counter, now);
    BatchUnchanged(t, batch, d.counter, now);
    BatchExactly(t, batch, d.counter, now);
    hide Acceptable, Refused, InsertAll, DbInv;
    assert InsertAll(t, batch[..0], d.counter, now).table == t by { NoneInserted(t, batch, d.counter, now); }
    assert n == 1;
  }

  lemma {:induction false} NoneInserted(t: Table, batch: seq<seq<Field>>, counter: int, now: Stamp)
    requires |t.columns| > 0 && forall i | 0 <= i < |batch| :: |batch[i]| == |t.columns|
    ensures InsertAll(t, batch[..0], counter, now).table == t
  {
  }

  lemma {:induction false} SecondKeyTaken()
    ensures !Acceptable(Sample().tables[0], [WithKey(7), WithKey(7)], 1000)
  {
    var keys := Keys(Sample().tables[0].columns, [WithKey(7), WithKey(7)]);
    assert keys[0] == 7 && keys[1] == 7;
    var ids := BatchIds(0, 1000, keys);
    assert ids[..1][0] == 7;
  }

  lemma {:induction false} FirstKeyFits()
    ensures !Refused(Sample().tables[0], WithKey(7))
  {
  }

  /** Deleting by field where nothing matches: a success that ends the caller's transaction. */
  lemma {:induction false} DeleteByFieldEndsTransaction()
    ensures DbInv(Sample())
    ensures var r := DeleteByField(Sample(), "t", "id", IntV(7));
            r.code == Success && !r.db.active && r.db.rolledBack == 1
  {
    SampleInv();
    DeleteByFieldKeepsTransaction(Sample(), "t", "id", IntV(7));
  }

  /** A table named by 63 blanks, and a second one whose name has one more letter: both are stored under one name. */
  lemma {:induction false} NamesCollide()
    ensures var name := Spaces(MAX_TABLE_NAME - 1);
            var ts := [Table(name, [Column("id", TInt, true, false, true)], [], 0, 1)];
            var r := AddTable(ts, name + "x", [RawColumn(Some("id"), TInt)]);
            DistinctTables(ts) && r.code == Success && !DistinctTables(r.tables)
  {
    var name := Spaces(MAX_TABLE_NAME - 1);
    var ts := [Table(name, [Column("id", TInt, true, false, true)], [], 0, 1)];
    assert |name + "x"| == MAX_TABLE_NAME && (name + "x")[..MAX_TABLE_NAME - 1] == name;
    NamesStayDistinct(ts, name + "x", [RawColumn(Some("id"), TInt)]);
    assert ts[0].name == name;
  }
}
