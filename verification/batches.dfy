/** Which insertions succeed, one by one and in a batch, said of the table, the values and the id counter alone. */
module Batches {
  import opened Schema
  import opened Store

  // ---- one insertion ----

  /** A supplied key that some record has already. */
  predicate KeyTaken(t: Table, values: seq<Field>)
    requires |values| == |t.columns|
  {
    KeyOf(t.columns, values) != -1 && HasId(t.records, KeyOf(t.columns, values))
  }

  /** The table is full, or a value is not admitted, or the supplied key is stored already. */
  predicate Refused(t: Table, values: seq<Field>)
    requires |values| == |t.columns| > 0
  {
    || t.count >= MAX_RECORDS_PER_TABLE
    || values[0].ty == TUnknown
    || !NullsAllowed(t.columns, values)
    || KeyTaken(t, values)
  }

  /** An insertion succeeds exactly when it is not refused; refused, it changes nothing, and says why. */
  lemma {:induction false} InsertExactly(t: Table, values: seq<Field>, counter: int, now: Stamp)
    requires TableInv(t) && |values| == |t.columns| && counter > 0
    ensures |values| > 0
    ensures var r := Insert(t, values, counter, now);
            && (r.code == Success <==> !Refused(t, values))
            && (Refused(t, values) ==> r.table == t && r.counter == counter)
            && (r.code == TableFull <==> t.count >= MAX_RECORDS_PER_TABLE)
            && (r.code == DuplicateKey ==> KeyTaken(t, values))
  {
    var key := KeyOf(t.columns, values);
    FindHas(t.records, key);
    GeneratedIsFresh(t.records, counter);
    FindHas(t.records, GenerateId(t.records, counter).id);
    hide TableInv, HasId, Find, NullsAllowed, GenerateId, KeyOf, Add;
    assert |values| > 0 by { Positive(t); }
  }

  lemma {:induction false} Positive(t: Table)
    requires TableInv(t)
    ensures |t.columns| > 0
  {
  }

  // ---- the ids of a batch ----

  function Larger(a: int, b: int): (m: int) { if a > b then a else b }

  /** The id for a supplied key, or, for the key -1, the id generated above the largest one. */
  function Draw(maxId: int, counter: int, key: int): (g: Generated) {
    if key != -1 then Generated(key, counter)
    else if maxId + 1 > counter then Generated(maxId + 1, counter)
    else Generated(counter, counter + 1)
  }

  /** The ids a batch with these keys gets, were none of its records refused. */
  function BatchIds(maxId: int, counter: int, keys: seq<int>): (ids: seq<int>)
    ensures |ids| == |keys|
    ensures forall i | 0 <= i < |keys| && keys[i] != -1 :: ids[i] == keys[i]
    decreases |keys|
  {
    if keys == [] then []
    else
      var g := Draw(maxId, counter, keys[0]);
      [g.id] + BatchIds(Larger(maxId, g.id), g.counter, keys[1..])
  }

  function Keys(cs: seq<Column>, batch: seq<seq<Field>>): (keys: seq<int>)
    requires forall i | 0 <= i < |batch| :: |batch[i]| == |cs|
    ensures |keys| == |batch| && forall i | 0 <= i < |batch| :: keys[i] == KeyOf(cs, batch[i])
  {
    seq(|batch|, i requires 0 <= i < |batch| => KeyOf(cs, batch[i]))
  }

  predicate ValuesAdmitted(cs: seq<Column>, batch: seq<seq<Field>>)
    requires |cs| > 0 && forall i | 0 <= i < |batch| :: |batch[i]| == |cs|
  {
    forall i | 0 <= i < |batch| :: batch[i][0].ty != TUnknown && NullsAllowed(cs, batch[i])
  }

  /** No supplied key is stored already, and none is the id of an earlier record of the batch. */
  predicate KeysFree(rs: seq<Record>, keys: seq<int>, ids: seq<int>)
    requires |ids| == |keys|
  {
    forall i | 0 <= i < |keys| && keys[i] != -1 :: !HasId(rs, keys[i]) && keys[i] !in ids[..i]
  }

  /** There is room, all values are admitted, and all supplied keys are free. */
  predicate Acceptable(t: Table, batch: seq<seq<Field>>, counter: int)
    requires |t.columns| > 0 && forall i | 0 <= i < |batch| :: |batch[i]| == |t.columns|
  {
    var keys := Keys(t.columns, batch);
    && t.count + |batch| <= MAX_RECORDS_PER_TABLE
    && ValuesAdmitted(t.columns, batch)
    && KeysFree(t.records, keys, BatchIds(MaxId(t.records), counter, keys))
  }

  // ---- a batch is acceptable record by record ----

  lemma {:induction false} HasIdCons(r: Record, rs: seq<Record>, id: int)
    ensures HasId([r] + rs, id) <==> r.id == id || HasId(rs, id)
  {
    var qs := [r] + rs;
    if HasId(rs, id) {
      var i :| 0 <= i < |rs| && rs[i].id == id;
      assert qs[i + 1].id == id;
    }
    if r.id == id {
      assert qs[0].id == id;
    }
    if HasId(qs, id) {
      var i :| 0 <= i < |qs| && qs[i].id == id;
      assert i > 0 ==> rs[i - 1].id == id;
    }
  }

  lemma {:induction false} MaxIdCons(r: Record, rs: seq<Record>)
    ensures MaxId([r] + rs) == Larger(MaxId(rs), r.id)
  {
    assert ([r] + rs)[1..] == rs;
  }

  /** With one more record stored, the remaining keys are free exactly when they were free of that record too. */
  lemma {:induction false} KeysFreeStep(r: Record, rs: seq<Record>, keys: seq<int>, ids: seq<int>)
    requires |ids| == |keys| > 0 && ids[0] == r.id
    ensures KeysFree(rs, keys, ids)
       <==> (keys[0] != -1 ==> !HasId(rs, keys[0])) && KeysFree([r] + rs, keys[1..], ids[1..])
  {
    hide HasId;
    var qs := [r] + rs;
    forall id ensures HasId(qs, id) <==> r.id == id || HasId(rs, id) {
      HasIdCons(r, rs, id);
    }
    forall i | 0 < i < |keys|
      ensures keys[i] !in ids[..i] <==> keys[i] != r.id && keys[1..][i - 1] !in ids[1..][..i - 1]
    {
      assert ids[..i] == [r.id] + ids[1..][..i - 1];
    }
    if KeysFree(rs, keys, ids) {
      forall j | 0 <= j < |keys[1..]| && keys[1..][j] != -1
        ensures !HasId(qs, keys[1..][j]) && keys[1..][j] !in ids[1..][..j]
      {
        assert keys[1..][j] == keys[j + 1];
      }
    }
    if (keys[0] != -1 ==> !HasId(rs, keys[0])) && KeysFree(qs, keys[1..], ids[1..]) {
      forall i | 0 <= i < |keys| && keys[i] != -1 ensures !HasId(rs, keys[i]) && keys[i] !in ids[..i] {
        assert i > 0 ==> keys[i] == keys[1..][i - 1];
      }
    }
  }

  lemma {:induction false} AdmittedStep(cs: seq<Column>, batch: seq<seq<Field>>)
    requires |cs| > 0 && batch != [] && forall i | 0 <= i < |batch| :: |batch[i]| == |cs|
    ensures ValuesAdmitted(cs, batch)
       <==> batch[0][0].ty != TUnknown && NullsAllowed(cs, batch[0]) && ValuesAdmitted(cs, batch[1..])
    ensures Keys(cs, batch)[0] == KeyOf(cs, batch[0]) && Keys(cs, batch)[1..] == Keys(cs, batch[1..])
  {
    hide NullsAllowed, KeyOf;
    assert forall i | 0 <= i < |batch[1..]| :: batch[1..][i] == batch[i + 1];
    if batch[0][0].ty != TUnknown && NullsAllowed(cs, batch[0]) && ValuesAdmitted(cs, batch[1..]) {
      forall i | 0 <= i < |batch| ensures batch[i][0].ty != TUnknown && NullsAllowed(cs, batch[i]) {
        assert i > 0 ==> batch[i] == batch[1..][i - 1];
      }
    }
  }

  /** What an insertion that succeeds leaves. */
  lemma {:induction false} InsertStores(t: Table, values: seq<Field>, counter: int, now: Stamp)
    requires |values| == |t.columns| > 0 && Insert(t, values, counter, now).code == Success
    ensures var r := Insert(t, values, counter, now);
            var g := Draw(MaxId(t.records), counter, KeyOf(t.columns, values));
            && r.id == g.id && r.counter == g.counter
            && r.table == Add(t, g.id, values, now)
            && r.table.records == [Record(g.id, StoredFields(t.columns, values), now, 1)] + t.records
  {
    hide NullsAllowed, KeyOf, MaxId, Find;
  }

  /** The id of an insertion that succeeds is the first of the batch's ids, and the others are drawn behind it. */
  lemma {:induction false} IdDrawn(t: Table, batch: seq<seq<Field>>, counter: int, now: Stamp)
    requires |t.columns| > 0 && batch != [] && forall i | 0 <= i < |batch| :: |batch[i]| == |t.columns|
    requires Insert(t, batch[0], counter, now).code == Success
    ensures var r := Insert(t, batch[0], counter, now);
            && r.table.columns == t.columns
            && BatchIds(MaxId(t.records), counter, Keys(t.columns, batch))
               == [r.id] + BatchIds(MaxId(r.table.records), r.counter, Keys(t.columns, batch[1..]))
  {
    InsertStores(t, batch[0], counter, now);
    AdmittedStep(t.columns, batch);
    hide Insert, MaxId, KeyOf, StoredFields, ValuesAdmitted, NullsAllowed;
    var r := Insert(t, batch[0], counter, now);
    MaxIdCons(r.table.records[0], t.records);
  }

  lemma {:induction false} AcceptableStep(t: Table, batch: seq<seq<Field>>, counter: int, now: Stamp)
    requires TableInv(t) && counter > 0 && batch != [] && forall i | 0 <= i < |batch| :: |batch[i]| == |t.columns|
    ensures |t.columns| > 0
    ensures var r := Insert(t, batch[0], counter, now);
            && |r.table.columns| == |t.columns|
            && (Acceptable(t, batch, counter) <==> !Refused(t, batch[0]) && Acceptable(r.table, batch[1..], r.counter))
  {
    Positive(t);
    InsertExactly(t, batch[0], counter, now);
    AdmittedStep(t.columns, batch);
    var r := Insert(t, batch[0], counter, now);
    var keys := Keys(t.columns, batch);
    var ids := BatchIds(MaxId(t.records), counter, keys);
    hide TableInv, ValuesAdmitted, NullsAllowed, HasId, MaxId, KeyOf, Insert, StoredFields, KeysFree;
    if r.code == Success {
      InsertStores(t, batch[0], counter, now);
      var rec := r.table.records[0];
      assert r.table.records == [rec] + t.records;
      MaxIdCons(rec, t.records);
      KeysFreeStep(rec, t.records, keys, ids);
    } else if Acceptable(t, batch, counter) {
      FirstKeyFree(t.records, keys, ids);
    }
  }

  lemma {:induction false} FirstKeyFree(rs: seq<Record>, keys: seq<int>, ids: seq<int>)
    requires |ids| == |keys| > 0 && KeysFree(rs, keys, ids)
    ensures keys[0] != -1 ==> !HasId(rs, keys[0])
  {
  }

  /** A batch succeeds as a whole exactly when it is acceptable. */
  lemma {:induction false} BatchExactly(t: Table, batch: seq<seq<Field>>, counter: int, now: Stamp)
    requires TableInv(t) && counter > 0 && forall i | 0 <= i < |batch| :: |batch[i]| == |t.columns|
    ensures |t.columns| > 0
    ensures InsertAll(t, batch, counter, now).code == Success <==> Acceptable(t, batch, counter)
    decreases |batch|
  {
    Positive(t);
    if batch == [] {
      NothingToInsert(t, counter);
    } else {
      AcceptableStep(t, batch, counter, now);
      InsertExactly(t, batch[0], counter, now);
      InsertKeepsInv(t, batch[0], counter, now);
      hide TableInv, Acceptable, Refused, Insert;
      var r := Insert(t, batch[0], counter, now);
      if r.code == Success {
        BatchExactly(r.table, batch[1..], r.counter, now);
      }
    }
  }

  /** A batch that succeeds puts its records in front, the last one first, each under its id. */
  lemma {:induction false} BatchStored(t: Table, batch: seq<seq<Field>>, counter: int, now: Stamp)
    requires |t.columns| > 0 && forall i | 0 <= i < |batch| :: |batch[i]| == |t.columns|
    requires InsertAll(t, batch, counter, now).code == Success
    ensures var rs := InsertAll(t, batch, counter, now).table.records;
            var ids := BatchIds(MaxId(t.records), counter, Keys(t.columns, batch));
            var n := |batch|;
            && |rs| == n + |t.records| && rs[n..] == t.records
            && forall i | 0 <= i < n :: rs[n - 1 - i] == Record(ids[i], StoredFields(t.columns, batch[i]), now, 1)
    decreases |batch|
  {
    if batch != [] {
      InsertStores(t, batch[0], counter, now);
      IdDrawn(t, batch, counter, now);
      var r := Insert(t, batch[0], counter, now);
      var more, n := batch[1..], |batch|;
      var rs := InsertAll(t, batch, counter, now).table.records;
      var ids := BatchIds(MaxId(t.records), counter, Keys(t.columns, batch));
      hide Insert, BatchIds, Keys, MaxId, StoredFields;
      assert forall i | 0 < i < n :: batch[i] == more[i - 1];
      BatchStored(r.table, more, r.counter, now);
      assert rs[n - 1..] == r.table.records;
      assert rs[n..] == rs[n - 1..][1..] && rs[n - 1] == rs[n - 1..][0];
      forall i | 0 < i < n ensures rs[n - 1 - i] == Record(ids[i], StoredFields(t.columns, batch[i]), now, 1) {
        assert rs[n - 1 - i] == rs[|more| - 1 - (i - 1)];
      }
    }
  }

  lemma {:induction false} NothingToInsert(t: Table, counter: int)
    requires TableInv(t)
    ensures |t.columns| > 0 && Acceptable(t, [], counter)
  {
  }

  lemma {:induction false} TailOfTake(batch: seq<seq<Field>>, n: nat)
    requires 0 < n <= |batch|
    ensures batch[..n] != [] && batch[..n][0] == batch[0] && batch[..n][1..] == batch[1..][..n - 1]
  {
  }

  /** The first `n` records of a batch, of which the first is inserted. */
  lemma {:induction false} TakeStep(t: Table, batch: seq<seq<Field>>, counter: int, now: Stamp, n: nat)
    requires TableInv(t) && counter > 0 && 0 < n <= |batch| && forall i | 0 <= i < |batch| :: |batch[i]| == |t.columns|
    ensures |t.columns| > 0
    ensures var i := Insert(t, batch[0], counter, now);
            i.code == Success ==>
              && |i.table.columns| == |t.columns|
              && (Acceptable(t, batch[..n], counter) <==> Acceptable(i.table, batch[1..][..n - 1], i.counter))
              && InsertAll(t, batch[..n], counter, now) == InsertAll(i.table, batch[1..][..n - 1], i.counter, now)
  {
    TailOfTake(batch, n);
    AcceptableStep(t, batch[..n], counter, now);
    InsertExactly(t, batch[0], counter, now);
    hide TableInv, Acceptable, Refused, Insert;
  }

  /**
   * Where a batch stops: behind its longest acceptable part, whose records stay in the table. It stops at the end
   * exactly when the whole batch is acceptable.
   */
  lemma {:induction false} BatchStopsAt(t: Table, batch: seq<seq<Field>>, counter: int, now: Stamp) returns (n: nat)
    requires TableInv(t) && counter > 0 && forall i | 0 <= i < |batch| :: |batch[i]| == |t.columns|
    ensures |t.columns| > 0 && n <= |batch|
    ensures Acceptable(t, batch[..n], counter) && (n < |batch| ==> !Acceptable(t, batch[..n + 1], counter))
    ensures var r := InsertAll(t, batch, counter, now);
            && (r.code == Success <==> n == |batch|)
            && r.table == InsertAll(t, batch[..n], counter, now).table
            && |r.table.records| == |t.records| + n
            && r.table.records[n..] == t.records
    decreases |batch|
  {
    Positive(t);
    NothingToInsert(t, counter);
    n := 0;
    assert batch[..0] == [];
    if batch != [] {
      InsertKeepsInv(t, batch[0], counter, now);
      InsertAddsOne(t, batch[0], counter, now);
      var i := Insert(t, batch[0], counter, now);
      if i.code == Success {
        n := BatchStopsAt(i.table, batch[1..], i.counter, now);
        StopsOneLater(t, batch, counter, now, n);
        n := n + 1;
      } else {
        InsertExactly(t, batch[0], counter, now);
        TailOfTake(batch, 1);
        AcceptableStep(t, batch[..1], counter, now);
        hide TableInv, Acceptable, Refused, Insert;
      }
    }
  }

  lemma {:induction false} StopsOneLater(t: Table, batch: seq<seq<Field>>, counter: int, now: Stamp, m: nat)
    requires TableInv(t) && counter > 0 && forall i | 0 <= i < |batch| :: |batch[i]| == |t.columns|
    requires m < |batch| && |t.columns| > 0 && Insert(t, batch[0], counter, now).code == Success
    requires var i := Insert(t, batch[0], counter, now);
             var r := InsertAll(i.table, batch[1..], i.counter, now);
             && i.table.columns == t.columns
             && Acceptable(i.table, batch[1..][..m], i.counter)
             && (m < |batch[1..]| ==> !Acceptable(i.table, batch[1..][..m + 1], i.counter))
             && (r.code == Success <==> m == |batch[1..]|)
             && r.table == InsertAll(i.table, batch[1..][..m], i.counter, now).table
             && |r.table.records| == |i.table.records| + m
             && r.table.records[m..] == i.table.records
    ensures var n := m + 1;
            var r := InsertAll(t, batch, counter, now);
            && Acceptable(t, batch[..n], counter) && (n < |batch| ==> !Acceptable(t, batch[..n + 1], counter))
            && (r.code == Success <==> n == |batch|)
            && r.table == InsertAll(t, batch[..n], counter, now).table
            && |r.table.records| == |t.records| + n
            && r.table.records[n..] == t.records
  {
    var r := InsertAll(t, batch, counter, now);
    TakeStep(t, batch, counter, now, m + 1);
    if m + 1 < |batch| {
      TakeStep(t, batch, counter, now, m + 2);
    }
    InsertAddsOne(t, batch[0], counter, now);
    hide TableInv, Acceptable, Insert;
    assert r == InsertAll(Insert(t, batch[0], counter, now).table, batch[1..], Insert(t, batch[0], counter, now).counter, now);
    hide InsertAll;
    assert r.table.records[m + 1..] == r.table.records[m..][1..];
  }

  lemma {:induction false} InsertAddsOne(t: Table, values: seq<Field>, counter: int, now: Stamp)
    requires |values| == |t.columns| > 0
    ensures var i := Insert(t, values, counter, now);
            && (i.code == Success ==> |i.table.records| == |t.records| + 1 && i.table.records[1..] == t.records)
            && (i.code != Success ==> i.table == t)
  {
    hide Admit, KeyOf, GenerateId, Find, StoredFields;
  }

  /** A batch leaves the table as it was exactly when it is empty or its first record is refused. */
  lemma {:induction false} BatchUnchanged(t: Table, batch: seq<seq<Field>>, counter: int, now: Stamp)
    requires TableInv(t) && counter > 0 && forall i | 0 <= i < |batch| :: |batch[i]| == |t.columns|
    ensures |t.columns| > 0
    ensures InsertAll(t, batch, counter, now).table == t <==> batch == [] || Refused(t, batch[0])
  {
    Positive(t);
    if batch != [] {
      InsertExactly(t, batch[0], counter, now);
      var i := Insert(t, batch[0], counter, now);
      if i.code == Success {
        InsertKeepsInv(t, batch[0], counter, now);
        InsertAddsOne(t, batch[0], counter, now);
        var m := BatchStopsAt(i.table, batch[1..], i.counter, now);
      }
      hide TableInv, Acceptable, Refused, Insert;
    }
  }
}
