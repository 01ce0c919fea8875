/** What the saved tree says: every table, column, record and value of the database, where a reader of JSON would look for it. */
module SavedTree {
  import opened Lexer
  import opened Json
  import opened Escaping
  import opened Decimal
  import opened Schema
  import opened Save
  import opened Scalars

  // ---- looking things up in a tree ----

  /** The value of the object's member of that name. */
  function At(j: Json, key: string): (v: Option<Json>) {
    if j.JObj? then LastFor(j.members, key) else None
  }

  lemma {:induction false} LookRules()
    ensures forall key, v, more, name {:trigger LastFor(Member(key, v, more), name)} ::
              LastFor(Member(key, v, more), name)
              == if LastFor(more, name).Some? then LastFor(more, name) else if key == name then Some(v) else None
    ensures forall name :: LastFor(NoMembers, name) == None
  {
  }

  function Nth(es: Elements, i: nat): (v: Option<Json>) {
    if es.NoElements? then None else if i == 0 then Some(es.value) else Nth(es.more, i - 1)
  }

  function Size(es: Elements): (n: nat) {
    if es.NoElements? then 0 else 1 + Size(es.more)
  }

  /** The `i`-th element of an array. */
  function Item(j: Option<Json>, i: nat): (v: Option<Json>) {
    if j.Some? && j.value.JArr? then Nth(j.value.elements, i) else None
  }

  function Items(j: Option<Json>): (n: nat) {
    if j.Some? && j.value.JArr? then Size(j.value.elements) else 0
  }

  /** A number that spells `n`. */
  ghost predicate IsInt(j: Option<Json>, n: int) {
    j.Some? && j.value.JNum? && RfcNumber(j.value.text) && Denotes(j.value.text, n)
  }

  /** A string that stands for `s`, by the standard's rules for escapes. */
  predicate IsText(j: Option<Json>, s: string) {
    j.Some? && j.value.JStr? && Decode(j.value.body) == Some(s)
  }

  lemma {:induction false} IntIsWritten(n: int)
    ensures IsInt(Some(JNum(IntText(n))), n)
  {
    IntTextIsNumber(n);
    IntTextDenotes(n);
    hide Denotes, RfcNumber;
  }

  lemma {:induction false} TextIsWritten(s: string)
    ensures IsText(Some(JStr(Escape(s))), s)
  {
    DecodeEscape(s);
  }

  // ---- values ----

  /** The value written for a field of each type. */
  ghost predicate FieldSaved(f: Field, j: Option<Json>) {
    match f.ty
    case TInt => IsInt(j, if f.value.IntV? then f.value.i else 0)
    case TString => IsText(j, if f.value.StrV? then f.value.s else "")
    case TBool => j == Some(JBool(f.value == BoolV(true)))
    case TNull => j == Some(JNull)
    case TFloat => f.value.Raw? ==> j == Some(JNum(f.value.text))
    case TDouble => f.value.Raw? ==> j == Some(JNum(f.value.text))
    case TDatetime => f.value.Raw? ==> j == Some(JStr(f.value.text))
    case _ => IsText(j, "")
  }

  lemma {:induction false} FieldIsSaved(f: Field)
    ensures FieldSaved(f, Some(FieldJson(f)))
  {
    IntIsWritten(AsInt(f.value));
    TextIsWritten(AsString(f.value));
    assert Decode("") == Some("");
    hide IsInt, Escape, IntText, Decode;
  }

  // ---- columns ----

  /** The name a type is written by. */
  predicate TypeSaved(ty: FieldType, j: Option<Json>) {
    IsText(j, match ty
              case TInt => "INT"
              case TString => "STRING"
              case TFloat => "FLOAT"
              case TDouble => "DOUBLE"
              case TBool => "BOOL"
              case TDatetime => "DATETIME"
              case TBlob => "BLOB"
              case TNull => "NULL"
              case TUnknown => "UNKNOWN")
  }

  function Texts(es: Elements): (ss: seq<string>) {
    if es.NoElements? then [] else (if es.value.JStr? then [es.value.body] else []) + Texts(es.more)
  }

  /** The constraints of a column, those that hold and no others, in this order; none, and there is no such member. */
  predicate ConstraintsSaved(c: Column, j: Option<Json>) {
    var ss := (if c.primaryKey then ["PRIMARY KEY"] else []) + (if c.unique then ["UNIQUE"] else [])
              + (if c.nullable then [] else ["NOT NULL"]);
    if ss == [] then j == None else j.Some? && j.value.JArr? && Texts(j.value.elements) == ss && Size(j.value.elements) == |ss|
  }

  predicate ColumnSaved(c: Column, j: Json) {
    && IsText(At(j, "name"), c.name) && TypeSaved(c.ty, At(j, "type"))
    && ConstraintsSaved(c, At(j, "constraints"))
  }

  lemma {:induction false} ListIsSaved(c: Column)
    ensures Constrained(c) ==> ConstraintsSaved(c, Some(JArr(ConstraintList(c))))
    ensures !Constrained(c) ==> ConstraintsSaved(c, None)
  {
    var n := Listed(!c.nullable, "NOT NULL", NoElements);
    var u := Listed(c.unique, "UNIQUE", n);
    assert Texts(n) == if c.nullable then [] else ["NOT NULL"];
    assert Texts(u) == (if c.unique then ["UNIQUE"] else []) + Texts(n);
    assert Texts(ConstraintList(c)) == (if c.primaryKey then ["PRIMARY KEY"] else []) + Texts(u);
    assert Size(n) == if c.nullable then 0 else 1;
  }

  lemma {:induction false} ColumnIsSaved(c: Column)
    ensures ColumnSaved(c, ColumnTree(c))
  {
    TextIsWritten(c.name);
    TextIsWritten(TypeName(c.ty));
    ListIsSaved(c);
    LookRules();
    hide LastFor, Escape, Decode, ConstraintList, ConstraintsSaved;
  }

  lemma {:induction false} ColumnsAreSaved(cs: seq<Column>, i: nat)
    ensures Size(ColumnElements(cs)) == |cs|
    ensures i < |cs| ==> Nth(ColumnElements(cs), i) == Some(ColumnTree(cs[i])) && ColumnSaved(cs[i], ColumnTree(cs[i]))
    decreases |cs|
  {
    if cs != [] {
      hide ColumnSaved, ColumnTree;
      ColumnIsSaved(cs[0]);
      ColumnsAreSaved(cs[1..], if i > 0 then i - 1 else 0);
    }
  }

  // ---- records ----

  /** The `i`-th member of the record's "fields". */
  function NthMember(ms: Members, i: nat): (m: Option<Members>)
    ensures m.Some? ==> m.value.Member?
  {
    if ms.NoMembers? then None else if i == 0 then Some(ms) else NthMember(ms.more, i - 1)
  }

  function Count(ms: Members): (n: nat) {
    if ms.NoMembers? then 0 else 1 + Count(ms.more)
  }

  /** Every field stands under its column's name, in the columns' order. */
  ghost predicate FieldsSaved(cs: seq<Column>, fs: seq<Field>, j: Option<Json>)
    requires |cs| == |fs|
  {
    && j.Some? && j.value.JObj? && Count(j.value.members) == |cs|
    && forall i | 0 <= i < |cs| ::
         var m := NthMember(j.value.members, i); m.Some? && m.value.key == cs[i].name && FieldSaved(fs[i], Some(m.value.value))
  }

  lemma {:induction false} FieldAt(cs: seq<Column>, fs: seq<Field>, i: nat)
    requires i < |cs| == |fs|
    ensures var m := NthMember(FieldMembers(cs, fs), i);
            m.Some? && m.value.key == cs[i].name && m.value.value == FieldJson(fs[i])
    decreases |cs|
  {
    hide FieldJson;
    if i > 0 {
      FieldAt(cs[1..], fs[1..], i - 1);
    }
  }

  lemma {:induction false} FieldCount(cs: seq<Column>, fs: seq<Field>)
    requires |cs| == |fs|
    ensures Count(FieldMembers(cs, fs)) == |cs|
    decreases |cs|
  {
    hide FieldJson;
    if cs != [] {
      FieldCount(cs[1..], fs[1..]);
    }
  }

  lemma {:induction false} FieldsAreSaved(cs: seq<Column>, fs: seq<Field>)
    requires |cs| == |fs|
    ensures FieldsSaved(cs, fs, Some(JObj(FieldMembers(cs, fs))))
  {
    FieldCount(cs, fs);
    hide FieldJson, FieldSaved, FieldMembers;
    forall i | 0 <= i < |cs|
      ensures var m := NthMember(FieldMembers(cs, fs), i);
              m.Some? && m.value.key == cs[i].name && FieldSaved(fs[i], Some(m.value.value))
    {
      FieldAt(cs, fs, i);
      FieldIsSaved(fs[i]);
    }
  }

  ghost predicate RecordSaved(cs: seq<Column>, r: Record, j: Json)
    requires |cs| == |r.fields|
  {
    && IsInt(At(j, "id"), r.id) && FieldsSaved(cs, r.fields, At(j, "fields"))
    && var m := At(j, "metadata");
       m.Some? && At(m.value, "timestamp") == Some(JStr(r.stamp)) && IsInt(At(m.value, "version"), r.version)
  }

  lemma {:induction false} RecordIsSaved(cs: seq<Column>, r: Record)
    requires |cs| == |r.fields|
    ensures RecordSaved(cs, r, RecordTree(cs, r))
  {
    IntIsWritten(r.id);
    IntIsWritten(r.version);
    FieldsAreSaved(cs, r.fields);
    LookRules();
    hide LastFor, IsInt, IntText, FieldsSaved, FieldMembers;
  }

  lemma {:induction false} RecordsAreSaved(cs: seq<Column>, rs: seq<Record>, i: nat)
    requires AllShaped(cs, rs)
    ensures Size(RecordElements(cs, rs)) == |rs|
    ensures i < |rs| ==> Nth(RecordElements(cs, rs), i) == Some(RecordTree(cs, rs[i])) && RecordSaved(cs, rs[i], RecordTree(cs, rs[i]))
    decreases |rs|
  {
    if rs != [] {
      hide RecordSaved, RecordTree;
      RecordIsSaved(cs, rs[0]);
      RecordsAreSaved(cs, rs[1..], if i > 0 then i - 1 else 0);
    }
  }

  // ---- tables ----

  /** A table's name, columns and count. */
  ghost predicate SchemaSaved(t: Table, j: Option<Json>) {
    && j.Some? && IsText(At(j.value, "name"), t.name) && IsInt(At(j.value, "record_count"), t.count)
    && Items(At(j.value, "fields")) == |t.columns|
    && forall i | 0 <= i < |t.columns| ::
         var c := Item(At(j.value, "fields"), i); c.Some? && ColumnSaved(t.columns[i], c.value)
  }

  /** Its records, in list order. */
  ghost predicate RecordsSaved(t: Table, j: Option<Json>)
    requires Shaped(t)
  {
    && Items(j) == |t.records|
    && forall i | 0 <= i < |t.records| ::
         var r := Item(j, i); r.Some? && RecordSaved(t.columns, t.records[i], r.value)
  }

  ghost predicate TableSaved(t: Table, j: Json)
    requires Shaped(t)
  {
    SchemaSaved(t, At(j, "schema")) && RecordsSaved(t, At(j, "records"))
  }

  lemma {:induction false} SchemaAt(t: Table)
    ensures var s := SchemaTree(t);
            && At(s, "name") == Some(JStr(Escape(t.name))) && At(s, "record_count") == Some(JNum(IntText(t.count)))
            && At(s, "fields") == Some(JArr(ColumnElements(t.columns)))
  {
    LookRules();
    hide LastFor, Escape, IntText, ColumnElements;
  }

  lemma {:induction false} TableAt(t: Table)
    requires Shaped(t)
    ensures At(TableTree(t), "schema") == Some(SchemaTree(t))
    ensures At(TableTree(t), "records") == Some(JArr(RecordElements(t.columns, t.records)))
  {
    LookRules();
    hide LastFor, SchemaTree, RecordElements;
  }

  lemma {:induction false} SchemaIsSaved(t: Table)
    ensures SchemaSaved(t, Some(SchemaTree(t)))
  {
    TextIsWritten(t.name);
    IntIsWritten(t.count);
    SchemaAt(t);
    ColumnsAreSaved(t.columns, 0);
    hide IsInt, IsText, IntText, Escape, ColumnElements, ColumnSaved, ColumnTree, SchemaTree, Nth, Size, At;
    forall i | 0 <= i < |t.columns|
      ensures Nth(ColumnElements(t.columns), i) == Some(ColumnTree(t.columns[i]))
      ensures ColumnSaved(t.columns[i], ColumnTree(t.columns[i]))
    {
      ColumnsAreSaved(t.columns, i);
    }
  }

  lemma {:induction false} RecordArrayIsSaved(t: Table)
    requires Shaped(t)
    ensures RecordsSaved(t, Some(JArr(RecordElements(t.columns, t.records))))
  {
    RecordsAreSaved(t.columns, t.records, 0);
    hide RecordElements, RecordSaved, RecordTree, Nth, Size;
    forall i | 0 <= i < |t.records|
      ensures Nth(RecordElements(t.columns, t.records), i) == Some(RecordTree(t.columns, t.records[i]))
      ensures RecordSaved(t.columns, t.records[i], RecordTree(t.columns, t.records[i]))
    {
      RecordsAreSaved(t.columns, t.records, i);
    }
  }

  lemma {:induction false} TableIsSaved(t: Table)
    requires Shaped(t)
    ensures TableSaved(t, TableTree(t))
  {
    TableAt(t);
    SchemaIsSaved(t);
    RecordArrayIsSaved(t);
    hide At, SchemaSaved, RecordsSaved, TableTree, SchemaTree, RecordElements;
  }

  lemma {:induction false} TablesAreSaved(ts: seq<Table>, i: nat)
    requires AllTablesShaped(ts)
    ensures Size(TableElements(ts)) == |ts|
    ensures i < |ts| ==> Nth(TableElements(ts), i) == Some(TableTree(ts[i])) && TableSaved(ts[i], TableTree(ts[i]))
    decreases |ts|
  {
    if ts != [] {
      hide TableSaved, TableTree;
      TableIsSaved(ts[0]);
      TablesAreSaved(ts[1..], if i > 0 then i - 1 else 0);
    }
  }

  /** The database is in the saved tree, whole, with the number of its tables and the time it was saved. */
  lemma {:induction false} DatabaseIsSaved(ts: seq<Table>, now: Stamp)
    requires AllTablesShaped(ts)
    ensures var j := DatabaseTree(ts, now);
            var m := At(j, "metadata");
            && m.Some? && IsText(At(m.value, "name"), "Database") && At(m.value, "version") == Some(JStr("1.0.0"))
            && At(m.value, "created_at") == Some(JStr(now)) && IsInt(At(m.value, "table_count"), |ts|)
            && Items(At(j, "tables")) == |ts|
            && forall i | 0 <= i < |ts| :: var t := Item(At(j, "tables"), i); t.Some? && TableSaved(ts[i], t.value)
  {
    MetadataIsSaved(|ts|, now);
    TopAt(ts, now);
    TablesAreSaved(ts, 0);
    hide IsInt, IsText, TableElements, TableSaved, TableTree, MetadataTree, DatabaseTree, Nth, Size, At, Shaped;
    forall i | 0 <= i < |ts|
      ensures Nth(TableElements(ts), i) == Some(TableTree(ts[i])) && TableSaved(ts[i], TableTree(ts[i]))
    {
      TablesAreSaved(ts, i);
    }
  }

  lemma {:induction false} MetadataIsSaved(count: nat, now: Stamp)
    ensures var m := MetadataTree(count, now);
            && IsText(At(m, "name"), "Database") && At(m, "version") == Some(JStr("1.0.0"))
            && At(m, "created_at") == Some(JStr(now)) && IsInt(At(m, "table_count"), count)
  {
    TextIsWritten(DATABASE_NAME);
    IntIsWritten(count);
    LookRules();
    hide LastFor, IsInt, IsText, IntText, Escape;
  }

  lemma {:induction false} TopAt(ts: seq<Table>, now: Stamp)
    requires AllTablesShaped(ts)
    ensures At(DatabaseTree(ts, now), "metadata") == Some(MetadataTree(|ts|, now))
    ensures At(DatabaseTree(ts, now), "tables") == Some(JArr(TableElements(ts)))
  {
    LookRules();
    hide LastFor, MetadataTree, TableElements;
  }
}
