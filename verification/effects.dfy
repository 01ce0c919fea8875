/** What the record operations do, said of the stored fields themselves: which values are stored, replaced, found, deleted. */
module Effects {
  import opened Schema
  import opened Durability
  import opened Store

  // ---- insertion ----

  /** A NULL stands in a column that does not allow it. */
  predicate NullRefused(t: Table, values: seq<Field>)
    requires |values| == |t.columns|
  {
    exists i :: 0 <= i < |values| && values[i].ty == TNull && !t.columns[i].nullable
  }

  /** The record has the id, the columns' types and the values given, and is new. */
  predicate IsNew(r: Record, t: Table, id: int, values: seq<Field>, now: Stamp)
    requires |values| == |t.columns|
  {
    && r.id == id && r.stamp == now && r.version == 1 && |r.fields| == |t.columns|
    && forall i | 0 <= i < |t.columns| :: r.fields[i].ty == t.columns[i].ty && r.fields[i].value == values[i].value
  }

  /** The code of every insertion, and what it leaves: a new record in front of the old ones, or nothing. */
  lemma {:induction false} InsertEffect(t: Table, values: seq<Field>, counter: int, now: Stamp)
    requires |values| == |t.columns| > 0
    ensures var r := Insert(t, values, counter, now);
            && (r.code == TableFull <==> t.count >= 10000)
            && (r.code == InvalidInput <==> t.count < 10000 && values[0].ty == TUnknown)
            && (r.code == ConstraintViolation
                <==> t.count < 10000 && values[0].ty != TUnknown && NullRefused(t, values))
            && r.code in {Success, DuplicateKey, TableFull, InvalidInput, ConstraintViolation}
            && (r.code != Success ==> r.table == t)
            && (r.code == Success ==>
                  && r.table.name == t.name && r.table.columns == t.columns
                  && r.table.count == t.count + 1
                  && r.table.nextId == (if r.id >= t.nextId then r.id + 1 else t.nextId)
                  && |r.table.records| == |t.records| + 1 && r.table.records[1..] == t.records
                  && IsNew(r.table.records[0], t, r.id, values, now))
  {
    hide KeyOf, Find, MaxId;
    assert NullRefused(t, values) <==> !NullsAllowed(t.columns, values);
  }

  /**
   * The id of a new record. Where no primary-key column holds an INT, or the first that does holds -1, it is one more
   * than the largest id, or the shared counter if that is larger; otherwise it is the INT in that column.
   */
  lemma {:induction false} InsertId(t: Table, values: seq<Field>, counter: int, now: Stamp)
    requires |values| == |t.columns| > 0 && Insert(t, values, counter, now).code == Success
    ensures var r := Insert(t, values, counter, now);
            && (LeavesId(t.columns, values) ==> r.id == if MaxId(t.records) + 1 > counter then MaxId(t.records) + 1 else counter)
            && (forall i, n | KeyAt(t.columns, values, i, n) && n != -1 :: r.id == n && !HasId(t.records, n))
  {
    hide KeyOf, Find, MaxId, LeavesId, KeyAt, HasId, StoredFields, NullsAllowed;
    if LeavesId(t.columns, values) {
      IdLeft(t.columns, values);
    }
    forall i, n | KeyAt(t.columns, values, i, n) && n != -1
      ensures Insert(t, values, counter, now).id == n && !HasId(t.records, n)
    {
      SuppliedIdIsUsed(t, values, counter, now, i, n);
    }
  }

  // ---- update ----

  /**
   * The new value of column `i` is refused: it is a primary key, the value is not NULL, and a record other than the one
   * updated has the id it names, which is 0 for a value that is no INT.
   */
  predicate Taken(t: Table, id: int, values: seq<Field>, i: nat)
    requires i < |values| == |t.columns|
  {
    var n := if values[i].ty == TInt && values[i].value.IntV? then values[i].value.i else 0;
    t.columns[i].primaryKey && values[i].ty != TNull && n != id && HasId(t.records, n)
  }

  /** The field holds the new value, of the new type; of the old one if the new is unknown. */
  predicate Replaced(old_: Field, f: Field, r: Field) {
    r.value == f.value && r.ty == if f.ty == TUnknown then old_.ty else f.ty
  }

  lemma {:induction false} ClashIsTaken(t: Table, id: int, values: seq<Field>, i: nat)
    requires i < |values| == |t.columns|
    ensures KeyClash(t.records, id, t.columns[i], values[i]) <==> Taken(t, id, values, i)
  {
    FindHas(t.records, NewKey(values[i]));
    hide Find, HasId;
  }

  /** All columns in front of `m` are free. */
  predicate FreeBefore(t: Table, id: int, values: seq<Field>, m: nat)
    requires m <= |values| == |t.columns|
  {
    forall i | 0 <= i < m :: !Taken(t, id, values, i)
  }

  /** The first `m` fields are replaced, the others untouched. */
  predicate ReplacedBefore(old_: seq<Field>, values: seq<Field>, m: nat, fs: seq<Field>)
    requires m <= |values| == |old_|
  {
    && |fs| == |old_|
    && (forall i | 0 <= i < m :: Replaced(old_[i], values[i], fs[i]))
    && (forall i | m <= i < |old_| :: fs[i] == old_[i])
  }

  lemma {:induction false} RewriteEffect(t: Table, id: int, fields: seq<Field>, values: seq<Field>) returns (m: nat)
    requires |fields| == |values| == |t.columns|
    ensures m <= |fields| && FreeBefore(t, id, values, m) && (m < |fields| ==> Taken(t, id, values, m))
    ensures var w := Rewrite(t, id, fields, values, 0);
            (w.ok <==> m == |fields|) && ReplacedBefore(fields, values, m, w.fields)
  {
    m := RewriteStops(t, id, fields, values, 0);
    hide Rewrite, KeyClash, Taken;
    forall i | 0 <= i < |fields|
      ensures KeyClash(t.records, id, t.columns[i], values[i]) <==> Taken(t, id, values, i)
    {
      ClashIsTaken(t, id, values, i);
    }
  }

  /**
   * Every update. Without a record of the id it changes nothing. Otherwise the first such record keeps its id, and no
   * other record changes. Where no value is refused, all its fields are replaced, its stamp is the time given and its
   * version one higher. Where one is, at `m` first, the fields in front of it are replaced and nothing else changes.
   */
  lemma {:induction false} UpdateEffect(t: Table, id: int, values: seq<Field>, now: Stamp) returns (k: nat, m: nat)
    requires |values| == |t.columns| && Shaped(t)
    ensures var r := Update(t, id, values, now);
            && r.code in {Success, NotFound, DuplicateKey}
            && r.table == t.(records := r.table.records) && |r.table.records| == |t.records|
            && (r.code == NotFound <==> !HasId(t.records, id))
            && (r.code == NotFound ==> r.table == t)
            && (r.code != NotFound ==>
                  && k < |t.records| && t.records[k].id == id && (forall j | 0 <= j < k :: t.records[j].id != id)
                  && (forall j | 0 <= j < |t.records| && j != k :: r.table.records[j] == t.records[j])
                  && m <= |values| && FreeBefore(t, id, values, m) && (m < |values| ==> Taken(t, id, values, m))
                  && (r.code == Success <==> m == |values|)
                  && var old_, rec := t.records[k], r.table.records[k];
                     && rec.id == id && ReplacedBefore(old_.fields, values, m, rec.fields)
                     && (if r.code == Success then rec.stamp == now && rec.version == old_.version + 1
                         else rec.stamp == old_.stamp && rec.version == old_.version))
  {
    FindHas(t.records, id);
    k, m := Find(t.records, id), 0;
    hide Find, HasId, Rewrite, FreeBefore, ReplacedBefore, Taken;
    if k < |t.records| {
      m := RewriteEffect(t, id, t.records[k].fields, values);
    }
  }

  // ---- search and deletion by field ----

  /** The value is of the kind a column of this type holds. */
  predicate OfKind(ty: FieldType, v: Value) {
    match ty
    case TInt => v.IntV?
    case TString => v.StrV?
    case TBool => v.BoolV?
    case TFloat => v.Raw?
    case TDouble => v.Raw?
    case _ => false
  }

  /** The key, and what the records hold in column `c`, is of the column's kind. */
  predicate Searchable(t: Table, c: nat, key: Value) {
    && c < |t.columns| && Shaped(t) && OfKind(t.columns[c].ty, key)
    && forall i | 0 <= i < |t.records| :: OfKind(t.columns[c].ty, t.records[i].fields[c].value)
  }

  predicate Holds(r: Record, c: nat, v: Value) {
    c < |r.fields| && r.fields[c].value == v
  }

  lemma {:induction false} HitIsEqual(t: Table, c: nat, key: Value, r: Record)
    requires Searchable(t, c, key) && r in t.records
    ensures Hit(t, c, key, r) <==> Holds(r, c, key)
  {
  }

  /** The search finds exactly the records that hold the value, as often as they are stored; the others are kept. */
  lemma {:induction false} SearchEffect(t: Table, c: nat, key: Value)
    requires Searchable(t, c, key)
    ensures c < |t.columns|
    ensures var found, kept := FindAll(t, c, key, t.records), Others(t, c, key, t.records);
            && (forall r :: r in found <==> r in t.records && Holds(r, c, key))
            && (forall r :: r in kept <==> r in t.records && !Holds(r, c, key))
            && multiset(kept) + multiset(found) == multiset(t.records)
  {
    assert c < |t.columns|;
    FilterSplits(t, c, key, t.records);
    var found, kept := FindAll(t, c, key, t.records), Others(t, c, key, t.records);
    hide FindAll, Others, Hit, Searchable, Holds;
    forall r | r in t.records
      ensures r in found <==> Holds(r, c, key)
      ensures r in kept <==> !Holds(r, c, key)
    {
      HitIsEqual(t, c, key, r);
      InOne(kept, found, t.records, r);
    }
  }

  lemma {:induction false} InOne(kept: seq<Record>, found: seq<Record>, rs: seq<Record>, r: Record)
    requires multiset(kept) + multiset(found) == multiset(rs) && r in rs
    ensures r in kept || r in found
  {
    assert multiset(rs)[r] > 0;
    assert (multiset(kept) + multiset(found))[r] > 0;
  }

  /** Deleting by field leaves exactly the records that do not hold the value, and counts them. */
  lemma {:induction false} DeleteAllEffect(t: Table, c: nat, key: Value)
    requires Searchable(t, c, key)
    ensures c < |t.columns|
    ensures var u := DeleteAll(t, c, key);
            && u == t.(records := u.records, count := t.count - (|t.records| - |u.records|))
            && (forall r :: r in u.records <==> r in t.records && !Holds(r, c, key))
  {
    SearchEffect(t, c, key);
    hide FindAll, Others;
  }

  lemma {:induction false} FoundExactly(t: Table, c: nat, key: Value)
    requires c < |t.columns|
    ensures Searchable(t, c, key) ==>
              forall r :: r in FindAll(t, c, key, t.records) <==> r in t.records && Holds(r, c, key)
  {
    if Searchable(t, c, key) {
      SearchEffect(t, c, key);
    }
  }

  lemma {:induction false} DeletedExactly(t: Table, c: nat, key: Value)
    requires c < |t.columns|
    ensures Searchable(t, c, key) ==>
              forall r :: r in DeleteAll(t, c, key).records <==> r in t.records && !Holds(r, c, key)
  {
    if Searchable(t, c, key) {
      DeleteAllEffect(t, c, key);
    }
  }

  /** A DATETIME, BLOB, NULL or UNKNOWN column never matches: nothing is found, and nothing deleted. */
  lemma {:induction false} NeverFound(t: Table, c: nat, key: Value, rs: seq<Record>)
    requires c < |t.columns| && t.columns[c].ty in {TDatetime, TBlob, TNull, TUnknown}
    ensures FindAll(t, c, key, rs) == [] && Others(t, c, key, rs) == rs
    decreases |rs|
  {
    if rs != [] {
      NeverFound(t, c, key, rs[1..]);
      assert !Hit(t, c, key, rs[0]);
    }
  }

  /** Every deletion: the first record with the id is taken out, and the others move up. */
  lemma {:induction false} DeleteEffect(t: Table, id: int) returns (k: nat)
    ensures var r := Delete(t, id);
            && r.code in {Success, NotFound}
            && (r.code == NotFound <==> !HasId(t.records, id))
            && (r.code == NotFound ==> r.table == t)
            && (r.code == Success ==>
                  && k < |t.records| && t.records[k].id == id && (forall j | 0 <= j < k :: t.records[j].id != id)
                  && r.table == t.(records := r.table.records, count := t.count - 1)
                  && |r.table.records| == |t.records| - 1
                  && forall i | 0 <= i < |r.table.records| :: r.table.records[i] == t.records[if i < k then i else i + 1])
  {
    FindHas(t.records, id);
    k := Find(t.records, id);
  }

  // ---- one operation on the whole database ----

  /** It is the first table of that name. */
  predicate FirstNamed(ts: seq<Table>, name: string, k: nat) {
    k < |ts| && ts[k].name == name && forall j | 0 <= j < k :: ts[j].name != name
  }

  lemma {:induction false} OneFirst(ts: seq<Table>, name: string, k: nat)
    requires FirstNamed(ts, name, k)
    ensures TableIndex(ts, name) == k
  {
  }

  /**
   * What is left of a transaction: with one active, the operation is part of it; without, it begins and ends one of its
   * own, which is committed on success and else rolled back.
   */
  predicate EndsOwn(d: Db, e: Db, ok: bool) {
    e == if d.active then d.(tables := e.tables, counter := e.counter)
         else d.(tables := e.tables, counter := e.counter, level := 0, started := d.started + 1, outer := d.outer + 1,
                 committed := d.committed + (if ok then 1 else 0), rolledBack := d.rolledBack + (if ok then 0 else 1))
  }

  /** The operation is a level of its own: success ends that level, failure the whole transaction. */
  predicate EndsLevel(d: Db, e: Db, ok: bool) {
    var begun := d.(tables := e.tables, counter := e.counter, started := d.started + 1);
    if d.active then e == if ok then begun
                          else begun.(active := false, level := 0, rolledBack := d.rolledBack + 1)
    else e == if ok then begun.(level := 0, outer := d.outer + 1, committed := d.committed + 1)
              else begun.(level := 0, outer := d.outer + 1, rolledBack := d.rolledBack + 1)
  }

  /** An insertion, update or deletion changes the first table of the name, as the operation on that table does, and no other. */
  lemma {:induction false} RecordOpEffect(d: Db, name: string, id: int, values: seq<Field>, now: Stamp, k: nat)
    requires AllSound(d.tables) && FirstNamed(d.tables, name, k) && |values| == |d.tables[k].columns|
    requires d.level >= 0 && (d.active <==> d.level > 0)
    ensures Legal(d, InsertOp(name, values, now)) && Legal(d, UpdateOp(name, id, values, now)) && |values| > 0
    ensures var o, i := InsertRecord(d, name, values, now), Insert(d.tables[k], values, d.counter, now);
            o.code == i.code && o.db.tables == d.tables[k := i.table] && o.db.counter == i.counter
            && EndsOwn(d, o.db, o.code == Success)
    ensures Sound(d.tables[k])
    ensures var o, u := UpdateRecord(d, name, id, values, now), Update(d.tables[k], id, values, now);
            o.code == u.code && o.db.tables == d.tables[k := u.table] && o.db.counter == d.counter
            && EndsOwn(d, o.db, o.code == Success)
    ensures var o, u := DeleteRecord(d, name, id), Delete(d.tables[k], id);
            o.code == u.code && o.db.tables == d.tables[k := u.table] && o.db.counter == d.counter
            && EndsOwn(d, o.db, o.code == Success)
  {
    assert Sound(d.tables[k]);
    OneFirst(d.tables, name, k);
    hide Insert, Update, Delete, TableIndex, FirstNamed, Shaped;
  }

  /** Without a table of the name they report that, and change nothing. */
  lemma {:induction false} NoTableEffect(d: Db, name: string, id: int, values: seq<Field>, now: Stamp)
    requires AllSound(d.tables) && forall k | 0 <= k < |d.tables| :: d.tables[k].name != name
    ensures Legal(d, InsertOp(name, values, now)) && Legal(d, UpdateOp(name, id, values, now))
    ensures InsertRecord(d, name, values, now) == UpdateRecord(d, name, id, values, now) == DeleteRecord(d, name, id)
         == Outcome(NotFound, d)
  {
    assert TableIndex(d.tables, name) == |d.tables|;
  }

  lemma {:induction false} SomethingDeleted(t: Table, c: nat, key: Value)
    requires c < |t.columns|
    ensures |DeleteAll(t, c, key).records| < |t.records| <==> FindAll(t, c, key, t.records) != []
  {
    FilterConserves(t, c, key, t.records);
  }

  /**
   * A deletion by field that starts changes the first table of the name, and no other; it is a success. In the first
   * column of that name it leaves exactly the records that do not hold the value.
   */
  lemma {:induction false} FieldOpEffect(d: Db, name: string, column: string, key: Value, k: nat, c: nat)
    requires FirstNamed(d.tables, name, k) && d.level >= 0 && (d.active <==> d.level > 0)
    requires c < |d.tables[k].columns| && d.tables[k].columns[c].name == column
    requires forall j | 0 <= j < c :: d.tables[k].columns[j].name != column
    ensures var o := DeleteByField(d, name, column, key);
            if d.active && d.level >= 10 then o == Outcome(TransactionConflict, d)
            else
              && o.code == Success && o.db.tables == d.tables[k := DeleteAll(d.tables[k], c, key)] && o.db.counter == d.counter
              && EndsLevel(d, o.db, FindAll(d.tables[k], c, key, d.tables[k].records) != [])
    ensures var o, rs := DeleteByField(d, name, column, key), d.tables[k].records;
            Searchable(d.tables[k], c, key) && o.code == Success ==>
              forall r :: r in o.db.tables[k].records <==> r in rs && !Holds(r, c, key)
  {
    OneFirst(d.tables, name, k);
    DeletedExactly(d.tables[k], c, key);
    SomethingDeleted(d.tables[k], c, key);
    assert ColumnIndex(d.tables[k].columns, column) == c;
    hide DeleteAll, FindAll, TableIndex, ColumnIndex, FirstNamed, Searchable, Holds;
  }

  /** So does a batch; it stops before it starts where it is empty, too long, or finds no room for all of it. */
  lemma {:induction false} BatchOpEffect(d: Db, name: string, batch: seq<seq<Field>>, now: Stamp, k: nat)
    requires AllSound(d.tables) && FirstNamed(d.tables, name, k) && d.level >= 0 && (d.active <==> d.level > 0)
    requires forall i | 0 <= i < |batch| :: |batch[i]| == |d.tables[k].columns|
    ensures Legal(d, BatchOp(name, batch, now)) && Sound(d.tables[k])
    ensures var o, b := BatchInsert(d, name, batch, now), InsertAll(d.tables[k], batch, d.counter, now);
            if |batch| < 1 || |batch| > 100 then o == Outcome(InvalidInput, d)
            else if d.tables[k].count + |batch| > 10000 then o == Outcome(TableFull, d)
            else if d.active && d.level >= 10 then o == Outcome(TransactionConflict, d)
            else
              && o.code == b.code && o.db.tables == d.tables[k := b.table] && o.db.counter == b.counter
              && EndsLevel(d, o.db, b.code == Success)
  {
    assert Sound(d.tables[k]);
    OneFirst(d.tables, name, k);
    hide InsertAll, TableIndex, FirstNamed, Shaped;
  }

  // ---- nested transactions ----

  /** `n` begins one behind the other; the first that fails ends them. */
  function Begins(d: Db, n: nat): (r: Outcome) {
    if n == 0 then Outcome(Success, d)
    else
      var o := Begins(d, n - 1);
      if o.code != Success then o else Begin(o.db)
  }

  function Commits(d: Db, n: nat): (r: Outcome) {
    if n == 0 then Outcome(Success, d)
    else
      var o := Commits(d, n - 1);
      if o.code != Success then o else Commit(o.db)
  }

  /** From a database without an active transaction, ten begins succeed and no more. */
  lemma {:induction false} TenLevels(d: Db, n: nat)
    requires !d.active
    ensures var o := Begins(d, n);
            && (o.code == Success <==> n <= 10)
            && (0 < n <= 10 ==> o.db == d.(active := true, level := n, started := d.started + n, outer := d.outer + 1))
  {
    if n > 0 {
      TenLevels(d, n - 1);
    }
  }

  /** Behind `n` begins, `m` commits leave the transaction open at level n - m; only the last closes it, and counts. */
  lemma {:induction false} CommitsUndo(d: Db, n: nat, m: nat)
    requires !d.active && d.level == 0 && 0 < n <= 10
    ensures var e := Begins(d, n).db;
            && (Commits(e, m).code == Success <==> m <= n)
            && (m < n ==> Commits(e, m).db == e.(level := n - m))
            && (m == n ==> Commits(e, m).db == e.(active := false, level := 0, committed := d.committed + 1))
  {
    TenLevels(d, n);
    if m > 0 {
      CommitsUndo(d, n, m - 1);
    }
  }

  /** One rollback, at any level, ends the whole transaction, and leaves the tables as they are. */
  lemma {:induction false} RollbackEndsAll(d: Db, n: nat, m: nat)
    requires !d.active && d.level == 0 && 0 < n <= 10 && m <= n
    ensures var e := Begins(d, n).db;
            var o := Rollback(Commits(e, m).db);
            if m < n then o == Outcome(Success, e.(active := false, level := 0, rolledBack := d.rolledBack + 1))
            else o.code == TransactionConflict && o.db == Commits(e, m).db
  {
    TenLevels(d, n);
    CommitsUndo(d, n, m);
  }

  /** Loading replaces the database: no transaction, no statistics, and only the id counter stays; or nothing changes. */
  lemma {:induction false} LoadEffect(d: Db, text: string, now: Stamp)
    ensures var o, ts := LoadInstead(d, text, now), LoadText(text, now);
            if ts.None? then o == Outcome(InvalidInput, d)
            else o == Outcome(Success, Db(ts.value, d.counter, false, 0, 0, 0, 0, 0))
  {
    hide LoadText;
  }
}
