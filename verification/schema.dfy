/** Columns, fields, records and tables as values, and what one operation does to a table. */
module Schema {
  import opened Chars

  const MAX_TABLE_NAME := 64
  const MAX_FIELD_LEN := 256
  const MAX_TABLES := 100
  const MAX_RECORDS_PER_TABLE := 10000
  const MAX_FIELDS_PER_TABLE := 50

  /**
   * `NullName` is not an error code of the source: it marks the one input on which the loader would
   * dereference a null pointer, a column object without a name.
   */
  datatype ErrorCode =
    | Success
    | NotFound
    | DuplicateKey
    | TableFull
    | TransactionConflict
    | ConstraintViolation
    | InvalidInput
    | NullName

  datatype FieldType = TUnknown | TInt | TString | TFloat | TDouble | TBool | TDatetime | TBlob | TNull

  /** A field's value. `Raw` is a FLOAT, DOUBLE or DATETIME value, held as the text libc reads or writes for it. */
  datatype Value = IntV(i: int) | StrV(s: string) | BoolV(b: bool) | Raw(text: string)

  datatype Field = Field(ty: FieldType, value: Value)

  datatype Column = Column(name: string, ty: FieldType, primaryKey: bool, unique: bool, nullable: bool)

  /** A time as `strftime` prints it. */
  type Stamp = s: string | forall i | 0 <= i < |s| :: IsDigit(s[i]) || s[i] in {'-', ':', ' '}

  datatype Record = Record(id: int, fields: seq<Field>, stamp: Stamp, version: nat)

  datatype Table = Table(name: string, columns: seq<Column>, records: seq<Record>, count: int, nextId: int)

  function AsInt(v: Value): (i: int) { if v.IntV? then v.i else 0 }

  function AsString(v: Value): (s: string) { if v.StrV? then v.s else "" }

  function AsBool(v: Value): (b: bool) { v.BoolV? && v.b }

  /** What an all-zero value of the C union reads as, for a column of this type. */
  function Zero(ty: FieldType): (v: Value) {
    match ty
    case TInt => IntV(0)
    case TBool => BoolV(false)
    case TFloat => Raw("0")
    case TDouble => Raw("0")
    case TDatetime => Raw("0")
    case _ => StrV("")
  }

  // ---- lookups ----

  /** Position of the first record with the id; the number of records when there is none. */
  function Find(rs: seq<Record>, id: int): (k: nat)
    ensures k <= |rs|
    ensures k < |rs| ==> rs[k].id == id
    ensures forall i | 0 <= i < k :: rs[i].id != id
  {
    if rs == [] || rs[0].id == id then 0
    else
      var k := 1 + Find(rs[1..], id);
      assert forall i | 0 < i < k :: rs[i] == rs[1..][i - 1];
      k
  }

  predicate HasId(rs: seq<Record>, id: int) {
    exists i :: 0 <= i < |rs| && rs[i].id == id
  }

  lemma {:induction false} FindHas(rs: seq<Record>, id: int)
    ensures HasId(rs, id) <==> Find(rs, id) < |rs|
  {
  }

  /** First column of that name; the number of columns when there is none. */
  function ColumnIndex(cs: seq<Column>, name: string): (k: nat)
    ensures k <= |cs|
    ensures k < |cs| ==> cs[k].name == name
    ensures forall i | 0 <= i < k :: cs[i].name != name
  {
    if cs == [] || cs[0].name == name then 0
    else
      var k := 1 + ColumnIndex(cs[1..], name);
      assert forall i | 0 < i < k :: cs[i] == cs[1..][i - 1];
      k
  }

  /** An earlier column has the name of column `i`: values written under the name go there. */
  predicate Shadowed(cs: seq<Column>, i: nat)
    requires i < |cs|
  {
    exists j :: 0 <= j < i && cs[j].name == cs[i].name
  }

  /** Largest id, at least 0. */
  function MaxId(rs: seq<Record>): (m: int)
    ensures m >= 0
    ensures forall i | 0 <= i < |rs| :: rs[i].id <= m
    ensures m == 0 || HasId(rs, m)
  {
    if rs == [] then 0
    else
      var m := MaxId(rs[1..]);
      assert forall i | 0 < i < |rs| :: rs[i] == rs[1..][i - 1];
      assert HasId(rs[1..], m) ==> HasId(rs, m) by {
        if HasId(rs[1..], m) {
          var i :| 0 <= i < |rs[1..]| && rs[1..][i].id == m;
          assert rs[i + 1].id == m;
        }
      }
      if rs[0].id > m then rs[0].id else m
  }

  // ---- id generation ----

  datatype Generated = Generated(id: int, counter: int)

  /** `generate_record_id`: one more than the largest id of the table, or the counter all tables share. */
  function GenerateId(rs: seq<Record>, counter: int): (g: Generated) {
    var m := MaxId(rs) + 1;
    if m > counter then Generated(m, counter) else Generated(counter, counter + 1)
  }

  /** A generated id is above every id in the table, and the shared counter stays positive. */
  lemma {:induction false} GeneratedIsFresh(rs: seq<Record>, counter: int)
    requires counter > 0
    ensures var g := GenerateId(rs, counter);
            && g.id > 0 && g.counter >= counter
            && (forall i | 0 <= i < |rs| :: rs[i].id < g.id)
            && !HasId(rs, g.id)
  {
  }

  // ---- insertion ----

  datatype Inserted = Inserted(code: ErrorCode, table: Table, counter: int, id: int)

  predicate NullsAllowed(cs: seq<Column>, values: seq<Field>)
    requires |cs| == |values|
  {
    forall i | 0 <= i < |cs| :: values[i].ty == TNull ==> cs[i].nullable
  }

  /** The checks made before an id is chosen. */
  function Admit(t: Table, values: seq<Field>): (e: ErrorCode)
    requires |values| == |t.columns| > 0
  {
    if t.count >= MAX_RECORDS_PER_TABLE then TableFull
    else if values[0].ty == TUnknown then InvalidInput
    else if !NullsAllowed(t.columns, values) then ConstraintViolation
    else Success
  }

  /** The id the caller supplies: the first primary-key column that holds an INT, or -1. */
  function KeyOf(cs: seq<Column>, values: seq<Field>): (id: int)
    requires |cs| == |values|
  {
    if cs == [] then -1
    else if cs[0].primaryKey && values[0].ty == TInt then AsInt(values[0].value)
    else KeyOf(cs[1..], values[1..])
  }

  predicate NoIntKey(cs: seq<Column>, values: seq<Field>)
    requires |cs| == |values|
  {
    forall i | 0 <= i < |cs| && cs[i].primaryKey :: values[i].ty != TInt
  }

  /** Column `i` is the first primary-key column that holds an INT, and holds `n`. */
  predicate KeyAt(cs: seq<Column>, values: seq<Field>, i: nat, n: int)
    requires |cs| == |values|
  {
    && i < |cs| && cs[i].primaryKey && values[i] == Field(TInt, IntV(n))
    && forall j | 0 <= j < i && cs[j].primaryKey :: values[j].ty != TInt
  }

  /** The caller leaves the id to the generator: no primary-key column holds an INT, or the first that does holds -1. */
  predicate LeavesId(cs: seq<Column>, values: seq<Field>)
    requires |cs| == |values|
  {
    NoIntKey(cs, values) || exists i :: 0 <= i < |cs| && KeyAt(cs, values, i, -1)
  }

  lemma {:induction false} NoKeyGiven(cs: seq<Column>, values: seq<Field>)
    requires |cs| == |values| && NoIntKey(cs, values)
    ensures KeyOf(cs, values) == -1
    decreases |cs|
  {
    if cs != [] {
      assert forall i | 0 <= i < |cs| - 1 :: cs[1..][i] == cs[i + 1] && values[1..][i] == values[i + 1];
      NoKeyGiven(cs[1..], values[1..]);
    }
  }

  lemma {:induction false} KeyGiven(cs: seq<Column>, values: seq<Field>, i: nat, n: int)
    requires |cs| == |values| && KeyAt(cs, values, i, n)
    ensures KeyOf(cs, values) == n
    decreases i
  {
    if i > 0 {
      assert forall j | 0 <= j < |cs| - 1 :: cs[1..][j] == cs[j + 1] && values[1..][j] == values[j + 1];
      KeyGiven(cs[1..], values[1..], i - 1, n);
    }
  }

  lemma {:induction false} IdLeft(cs: seq<Column>, values: seq<Field>)
    requires |cs| == |values| && LeavesId(cs, values)
    ensures KeyOf(cs, values) == -1
  {
    if NoIntKey(cs, values) {
      NoKeyGiven(cs, values);
    } else {
      var i :| 0 <= i < |cs| && KeyAt(cs, values, i, -1);
      KeyGiven(cs, values, i, -1);
    }
  }

  /** The stored fields have the columns' types, whatever types the given values claim. */
  function StoredFields(cs: seq<Column>, values: seq<Field>): (fs: seq<Field>)
    requires |cs| == |values|
    ensures |fs| == |cs|
    ensures forall i | 0 <= i < |cs| :: fs[i] == Field(cs[i].ty, values[i].value)
  {
    seq(|cs|, i requires 0 <= i < |cs| => Field(cs[i].ty, values[i].value))
  }

  /** A new record at the head of the list. */
  function Add(t: Table, id: int, values: seq<Field>, now: Stamp): (r: Table)
    requires |values| == |t.columns|
  {
    t.(records := [Record(id, StoredFields(t.columns, values), now, 1)] + t.records,
       count := t.count + 1,
       nextId := if id >= t.nextId then id + 1 else t.nextId)
  }

  /** `table_insert_record`. */
  function Insert(t: Table, values: seq<Field>, counter: int, now: Stamp): (r: Inserted)
    requires |values| == |t.columns| > 0
    ensures r.code != Success ==> r.table == t
  {
    var e := Admit(t, values);
    if e != Success then Inserted(e, t, counter, -1)
    else
      var key := KeyOf(t.columns, values);
      var g := if key == -1 then GenerateId(t.records, counter) else Generated(key, counter);
      if Find(t.records, g.id) < |t.records| then Inserted(DuplicateKey, t, g.counter, -1)
      else Inserted(Success, Add(t, g.id, values, now), g.counter, g.id)
  }

  // ---- update ----

  datatype Rewritten = Rewritten(ok: bool, fields: seq<Field>)

  /** The id an update names for a primary-key column: 0 when the new value is no INT. */
  function NewKey(f: Field): (id: int) {
    if f.ty == TInt then AsInt(f.value) else 0
  }

  predicate KeyClash(rs: seq<Record>, id: int, c: Column, f: Field) {
    c.primaryKey && f.ty != TNull && NewKey(f) != id && Find(rs, NewKey(f)) < |rs|
  }

  function Overwrite(old_: Field, f: Field): (r: Field) {
    Field(if f.ty != TUnknown then f.ty else old_.ty, f.value)
  }

  /** The update loop from column `i` on. A key clash stops it; the columns in front stay changed. */
  function Rewrite(t: Table, id: int, fields: seq<Field>, values: seq<Field>, i: nat): (r: Rewritten)
    requires |fields| == |values| == |t.columns| && i <= |fields|
    ensures |r.fields| == |fields|
    decreases |fields| - i
  {
    if i == |fields| then Rewritten(true, fields)
    else if KeyClash(t.records, id, t.columns[i], values[i]) then Rewritten(false, fields)
    else Rewrite(t, id, fields[i := Overwrite(fields[i], values[i])], values, i + 1)
  }

  datatype Changed = Changed(code: ErrorCode, table: Table)

  /** Every record has one field for each column. */
  predicate Shaped(t: Table) {
    forall i | 0 <= i < |t.records| :: |t.records[i].fields| == |t.columns|
  }

  /** `table_update_record`. The record keeps its id, even when its key column changes. */
  function Update(t: Table, id: int, values: seq<Field>, now: Stamp): (r: Changed)
    requires |values| == |t.columns| && Shaped(t)
  {
    var k := Find(t.records, id);
    if k == |t.records| then Changed(NotFound, t)
    else
      var rec := t.records[k];
      var w := Rewrite(t, id, rec.fields, values, 0);
      if !w.ok then Changed(DuplicateKey, t.(records := t.records[k := rec.(fields := w.fields)]))
      else Changed(Success, t.(records := t.records[k := Record(rec.id, w.fields, now, rec.version + 1)]))
  }

  // ---- deletion ----

  /** `table_delete_record`: the first record with the id is unlinked. */
  function Delete(t: Table, id: int): (r: Changed) {
    var k := Find(t.records, id);
    if k == |t.records| then Changed(NotFound, t)
    else Changed(Success, t.(records := t.records[..k] + t.records[k + 1..], count := t.count - 1))
  }

  /** Whether a field equals the sought value, by the type of its column. */
  predicate Matches(ty: FieldType, f: Field, key: Value) {
    match ty
    case TInt => AsInt(f.value) == AsInt(key)
    case TString => AsString(f.value) == AsString(key)
    case TBool => AsBool(f.value) == AsBool(key)
    case TFloat => f.value == key
    case TDouble => f.value == key
    case _ => false
  }

  predicate Hit(t: Table, c: nat, key: Value, r: Record)
    requires c < |t.columns|
  {
    |r.fields| == |t.columns| && Matches(t.columns[c].ty, r.fields[c], key)
  }

  /** `db_find_all_records_by_field`: the matching records, in list order. */
  function FindAll(t: Table, c: nat, key: Value, rs: seq<Record>): (found: seq<Record>)
    requires c < |t.columns|
    decreases rs
  {
    if rs == [] then []
    else if Hit(t, c, key, rs[0]) then [rs[0]] + FindAll(t, c, key, rs[1..])
    else FindAll(t, c, key, rs[1..])
  }

  /** The records that do not match, in list order. */
  function Others(t: Table, c: nat, key: Value, rs: seq<Record>): (kept: seq<Record>)
    requires c < |t.columns|
    ensures |kept| <= |rs|
    decreases rs
  {
    if rs == [] then []
    else if Hit(t, c, key, rs[0]) then Others(t, c, key, rs[1..])
    else [rs[0]] + Others(t, c, key, rs[1..])
  }

  /** The unlinking loop of `db_delete_records_by_field`. */
  function DeleteAll(t: Table, c: nat, key: Value): (r: Table)
    requires c < |t.columns|
  {
    var kept := Others(t, c, key, t.records);
    t.(records := kept, count := t.count - (|t.records| - |kept|))
  }
}
