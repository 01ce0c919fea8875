/** Saving and loading: what comes back, for every database, whatever happens to the layout on the way. */
module RoundTrip {
  import opened Lexer
  import opened TokenStream
  import opened Json
  import opened Escaping
  import opened Decimal
  import opened Schema
  import opened Skipper
  import opened Save
  import opened Loader
  import opened Catalog

  // ---- what a database comes back as ----

  const NAME_ROOM := MAX_TABLE_NAME - 1

  /** A table's name comes back escaped and cut, a column's name comes back escaped. */
  function ReloadName(name: string): (r: string) {
    Reload(name, NAME_ROOM)
  }

  function ReloadColumn(c: Column, i: nat): (d: Column) {
    Column(Escape(c.name), TypeOf(TypeName(c.ty)), i == 0, false, true)
  }

  function ReloadColumns(cs: seq<Column>): (ds: seq<Column>)
    ensures |ds| == |cs|
    ensures forall i | 0 <= i < |cs| :: ds[i] == ReloadColumn(cs[i], i)
  {
    seq(|cs|, i requires 0 <= i < |cs| => ReloadColumn(cs[i], i))
  }

  /**
   * The loader's fields for a record of which the first `n` are read: each value goes to the first column that came
   * back under the name it is written with, if there is one.
   */
  function ReadFields(cs: seq<Column>, fs: seq<Field>, n: nat): (r: seq<Field>)
    requires n <= |cs| == |fs|
    ensures |r| == |cs|
  {
    var ds := ReloadColumns(cs);
    if n == 0 then Defaults(ds)
    else
      var r := ReadFields(cs, fs, n - 1);
      var k := ColumnIndex(ds, cs[n - 1].name);
      if k < |ds| then r[k := ParseField(ds[k], FieldToken(fs[n - 1]), r[k])] else r
  }

  /** The first column comes back holding the record's id. */
  function ReloadField(cs: seq<Column>, r: Record, i: nat): (f: Field)
    requires i < |cs| == |r.fields|
  {
    Field(TypeOf(TypeName(cs[i].ty)), if i == 0 then IntV(r.id) else ReadFields(cs, r.fields, |cs|)[i].value)
  }

  function ReloadRecord(cs: seq<Column>, r: Record, now: Stamp): (q: Record)
    requires |cs| == |r.fields|
  {
    Record(r.id, seq(|cs|, i requires 0 <= i < |cs| => ReloadField(cs, r, i)), now, 1)
  }

  /** The records in opposite order: each is put at the head of the list. */
  function ReloadRecords(cs: seq<Column>, rs: seq<Record>, now: Stamp): (qs: seq<Record>)
    requires AllShaped(cs, rs)
    ensures |qs| == |rs|
    decreases |rs|
  {
    if rs == [] then [] else ReloadRecords(cs, rs[1..], now) + [ReloadRecord(cs, rs[0], now)]
  }

  lemma {:induction false} ReloadAt(cs: seq<Column>, rs: seq<Record>, now: Stamp, i: nat)
    requires AllShaped(cs, rs) && i < |rs|
    ensures ReloadRecords(cs, rs, now)[i] == ReloadRecord(cs, rs[|rs| - 1 - i], now)
    decreases |rs|
  {
    hide ReloadRecord;
    if i < |rs| - 1 {
      ReloadAt(cs, rs[1..], now, i);
    }
  }

  /** One more than the largest id, and at least 1. */
  function NextId(rs: seq<Record>): (n: int) {
    MaxId(rs) + 1
  }

  function ReloadTable(t: Table, now: Stamp): (u: Table)
    requires Shaped(t)
  {
    Table(ReloadName(t.name), ReloadColumns(t.columns), ReloadRecords(t.columns, t.records, now), |t.records|, NextId(t.records))
  }

  function ReloadTables(ts: seq<Table>, now: Stamp): (us: seq<Table>)
    requires AllTablesShaped(ts)
    ensures |us| == |ts| && forall i | 0 <= i < |ts| :: us[i] == ReloadTable(ts[i], now)
  {
    seq(|ts|, i requires 0 <= i < |ts| => ReloadTable(ts[i], now))
  }

  // ---- which databases ----

  predicate DistinctIds(rs: seq<Record>) {
    forall i, j | 0 <= i < j < |rs| :: rs[i].id != rs[j].id
  }

  predicate DistinctTables(ts: seq<Table>) {
    forall i, j | 0 <= i < j < |ts| :: ts[i].name != ts[j].name
  }

  predicate SavableRecords(cs: seq<Column>, rs: seq<Record>) {
    && |rs| <= MAX_RECORDS_PER_TABLE
    && AllShaped(cs, rs)
    && (forall i | 0 <= i < |rs| :: rs[i].id != -1)
    && DistinctIds(rs)
  }

  /** A name, columns and records within the limits, and records with ids of their own. */
  predicate SavableTable(t: Table) {
    && t.name != ""
    && 0 < |t.columns| <= MAX_FIELDS_PER_TABLE
    && SavableRecords(t.columns, t.records)
  }

  predicate Savable(ts: seq<Table>) {
    && |ts| <= MAX_TABLES
    && forall i | 0 <= i < |ts| :: SavableTable(ts[i])
  }

  /** No two tables come back under one name. */
  predicate NamesStayApart(ts: seq<Table>) {
    forall i, j | 0 <= i < j < |ts| :: ReloadName(ts[i].name) != ReloadName(ts[j].name)
  }

  /** What loading a saved database gives. */
  function Reloaded(ts: seq<Table>, now: Stamp): (r: Option<seq<Table>>)
    requires AllTablesShaped(ts)
  {
    if NamesStayApart(ts) then Some(ReloadTables(ts, now)) else None
  }

  lemma {:induction false} SavableIsShaped(ts: seq<Table>)
    requires Savable(ts)
    ensures AllTablesShaped(ts)
  {
    assert forall i | 0 <= i < |ts| :: SavableTable(ts[i]);
  }

  // ---- columns and schemas ----

  function RawOf(c: Column): (r: RawColumn) {
    RawColumn(Some(Escape(c.name)), TypeOf(TypeName(c.ty)))
  }

  function RawsOf(cs: seq<Column>): (rs: seq<RawColumn>)
    ensures |rs| == |cs| && forall i | 0 <= i < |cs| :: rs[i] == RawOf(cs[i])
  {
    seq(|cs|, i requires 0 <= i < |cs| => RawOf(cs[i]))
  }

  lemma {:induction false} TypeNamePlain(ty: FieldType)
    ensures Plain(TypeName(ty)) && Escape(TypeName(ty)) == TypeName(ty)
  {
    EscapeIdentity(TypeName(ty));
  }

  lemma {:induction false} ConstraintsIgnored(c: Column, r: RawColumn)
    ensures ColumnOf(ColumnTree(c).members.more.more, r) == Good(r)
  {
    if Constrained(c) {
      assert ColumnTree(c).members.more.more == Member("constraints", JArr(ConstraintList(c)), NoMembers);
      assert ColumnOf(NoMembers, r) == Good(r);
    }
  }

  lemma {:induction false} ColumnRead(c: Column)
    ensures ColumnTree(c).JObj?
    ensures ColumnOf(ColumnTree(c).members, RawColumn(None, TString)) == Good(RawOf(c))
  {
    TypeNamePlain(c.ty);
    ConstraintsIgnored(c, RawOf(c));
    hide Escape, TypeOf, TypeName, Constrained;
    var c0 := RawColumn(None, TString);
    var c1 := c0.(name := Some(Escape(c.name)));
    var ms := ColumnTree(c).members;
    assert ColumnOf(ms, c0) == ColumnOf(ms.more, c1);
    assert ColumnOf(ms.more, c1) == ColumnOf(ms.more.more, RawOf(c));
  }

  lemma {:induction false} RawsCons(cs: seq<Column>)
    requires cs != []
    ensures RawsOf(cs) == [RawOf(cs[0])] + RawsOf(cs[1..])
  {
    hide RawOf;
  }

  lemma {:induction false} Regrouped<T>(a: seq<T>, x: T, b: seq<T>)
    ensures a + [x] + b == a + ([x] + b)
  {
  }

  lemma {:induction false} ColumnsRead(cs: seq<Column>, acc: seq<RawColumn>)
    ensures ColumnsOf(ColumnElements(cs), acc) == Good(acc + RawsOf(cs))
    decreases |cs|
  {
    if cs == [] {
      assert acc + RawsOf(cs) == acc;
    } else {
      hide ColumnTree, ColumnOf, RawOf;
      ColumnRead(cs[0]);
      ColumnsRead(cs[1..], acc + [RawOf(cs[0])]);
      RawsCons(cs);
      Regrouped(acc, RawOf(cs[0]), RawsOf(cs[1..]));
    }
  }

  lemma {:induction false} NameMember(name: string, more: Members, acc: RawSchema)
    ensures SchemaOf(Member("name", JStr(Escape(name)), more), acc) == SchemaOf(more, acc.(name := ReloadName(name)))
  {
    hide Escape;
  }

  lemma {:induction false} FieldsMember(cs: seq<Column>, more: Members, acc: RawSchema)
    ensures SchemaOf(Member("fields", JArr(ColumnElements(cs)), more), acc)
         == SchemaOf(more, acc.(columns := acc.columns + RawsOf(cs)))
  {
    ColumnsRead(cs, acc.columns);
    hide ColumnsOf, ColumnElements, RawsOf;
  }

  lemma {:induction false} CountMember(j: Json, acc: RawSchema)
    ensures SchemaOf(Member("record_count", j, NoMembers), acc) == Good(acc)
    ensures NoSchemaKey(Member("record_count", j, NoMembers))
  {
  }

  lemma {:induction false} SchemaRead(t: Table)
    requires SavableTable(t)
    ensures SchemaTree(t).JObj? && NoSchemaKey(SchemaTree(t).members)
    ensures SchemaOf(SchemaTree(t).members, RawSchema("", [])) == Good(RawSchema(ReloadName(t.name), RawsOf(t.columns)))
  {
    var m3 := Member("record_count", JNum(IntText(t.count)), NoMembers);
    var m2 := Member("fields", JArr(ColumnElements(t.columns)), m3);
    assert SchemaTree(t).members == Member("name", JStr(Escape(t.name)), m2);
    CountMember(JNum(IntText(t.count)), RawSchema(ReloadName(t.name), RawsOf(t.columns)));
    assert NoSchemaKey(m2) && NoSchemaKey(SchemaTree(t).members);
    hide SchemaOf, Escape, ReloadName, ColumnElements, IntText, RawsOf, NoSchemaKey;
    NameMember(t.name, m2, RawSchema("", []));
    FieldsMember(t.columns, m3, RawSchema(ReloadName(t.name), []));
    assert [] + RawsOf(t.columns) == RawsOf(t.columns);
  }

  /** The table a schema makes: no records yet. */
  function EmptyTable(t: Table): (u: Table) {
    Table(ReloadName(t.name), ReloadColumns(t.columns), [], 0, 1)
  }

  lemma {:induction false} ReloadedName(name: string)
    ensures |ReloadName(name)| <= NAME_ROOM && (name != "" ==> ReloadName(name) != "")
  {
  }

  /** The schema makes the table, unless the name it comes back under is taken. */
  lemma {:induction false} TableMade(ts: seq<Table>, t: Table)
    requires SavableTable(t) && |ts| < MAX_TABLES
    ensures TableOf(ts, SchemaTree(t).members)
         == if HasTable(ts, ReloadName(t.name)) then Bad(DuplicateKey) else Good(ts + [EmptyTable(t)])
  {
    SchemaRead(t);
    ReloadedName(t.name);
    hide SchemaOf, Reload;
    assert NewColumns(RawsOf(t.columns)) == ReloadColumns(t.columns);
  }

  // ---- records ----

  lemma {:induction false} FieldsEnd(ds: seq<Column>, r: seq<Field>, k: Stream)
    requires |r| == |ds|
    ensures FieldsLoop(MemberToks(NoMembers, k), ds, r) == Done(r, k)
  {
  }

  lemma {:induction false} FieldsStep(name: string, f: Field, more: Members, ds: seq<Column>,
                                      r: seq<Field>, r': seq<Field>, k: Stream)
    requires |ds| == |r| == |r'|
    requires var n := ColumnIndex(ds, name); r' == if n < |ds| then r[n := ParseField(ds[n], FieldToken(f), r[n])] else r
    ensures FieldsLoop(MemberToks(Member(name, FieldJson(f), more), k), ds, r)
         == if more.NoMembers? then Done(r', k) else FieldsLoop(MemberToks(more, k), ds, r')
  {
    MemberStart(Member(name, FieldJson(f), more), k);
    MemberStart(more, k);
    FieldTokens(f, MoreMembers(more, k));
    hide Toks, MemberToks, MoreMembers, ParseField, FieldToken, FieldJson, ColumnIndex;
  }

  lemma {:induction false} ReadStep(cs: seq<Column>, fs: seq<Field>, n: nat)
    requires n < |cs| == |fs|
    ensures var ds, r := ReloadColumns(cs), ReadFields(cs, fs, n);
            var k := ColumnIndex(ds, cs[n].name);
            ReadFields(cs, fs, n + 1) == if k < |ds| then r[k := ParseField(ds[k], FieldToken(fs[n]), r[k])] else r
  {
    hide FieldToken, ParseField, ReloadColumns, ColumnIndex;
  }

  lemma {:induction false} FieldsRead(cs: seq<Column>, fs: seq<Field>, n: nat, k: Stream)
    requires n <= |cs| == |fs|
    ensures FieldsLoop(MemberToks(FieldMembers(cs[n..], fs[n..]), k), ReloadColumns(cs), ReadFields(cs, fs, n))
         == Done(ReadFields(cs, fs, |cs|), k)
    decreases |cs| - n
  {
    hide Toks, MemberToks, MoreMembers, FieldToken, FieldJson, ParseField, ReadFields, ReloadColumns, FieldsLoop, ColumnIndex;
    if n == |cs| {
      FieldsEnd(ReloadColumns(cs), ReadFields(cs, fs, n), k);
      assert FieldMembers(cs[n..], fs[n..]) == NoMembers;
    } else {
      var more := FieldMembers(cs[n + 1..], fs[n + 1..]);
      assert cs[n..][0] == cs[n] && cs[n..][1..] == cs[n + 1..];
      assert fs[n..][0] == fs[n] && fs[n..][1..] == fs[n + 1..];
      ReadStep(cs, fs, n);
      FieldsStep(cs[n].name, fs[n], more, ReloadColumns(cs), ReadFields(cs, fs, n), ReadFields(cs, fs, n + 1), k);
      FieldsRead(cs, fs, n + 1, k);
      if n + 1 == |cs| {
        FieldsEnd(ReloadColumns(cs), ReadFields(cs, fs, n + 1), k);
      }
    }
  }

  /** One member of a record object, and on to the next. */
  lemma {:induction false} RecordStep(ms: Members, ds: seq<Column>, acc: RawRecord, acc': RawRecord, k: Stream)
    requires ms.Member? && |acc.fields| == |acc'.fields| == |ds|
    requires var rest := MoreMembers(ms.more, k); RecordMember(ms.key, Toks(ms.value, rest), ds, acc) == Done(acc', rest)
    ensures RecordLoop(MemberToks(ms, k), ds, acc)
         == if ms.more.NoMembers? then Done(acc', k) else RecordLoop(MemberToks(ms.more, k), ds, acc')
  {
    MemberStart(ms, k);
    MemberStart(ms.more, k);
    hide Toks, MemberToks, MoreMembers, RecordMember;
  }

  lemma {:induction false} RecordRead(cs: seq<Column>, r: Record, k: Stream)
    requires |cs| == |r.fields|
    ensures RecordTree(cs, r).JObj?
    ensures var ds := ReloadColumns(cs);
            RecordLoop(MemberToks(RecordTree(cs, r).members, k), ds, RawRecord(-1, Defaults(ds)))
            == Done(RawRecord(r.id, ReadFields(cs, r.fields, |cs|)), k)
  {
    hide Toks, MemberToks, MoreMembers, ReadFields, ReloadColumns, RecordMember, RecordLoop, IntText, FieldMembers,
         Defaults, RecordMetadata;
    var ds := ReloadColumns(cs);
    var m3 := Member("metadata", RecordMetadata(r), NoMembers);
    var m2 := Member("fields", JObj(FieldMembers(cs, r.fields)), m3);
    var m1 := Member("id", JNum(IntText(r.id)), m2);
    var a0 := RawRecord(-1, Defaults(ds));
    var a1 := RawRecord(r.id, Defaults(ds));
    var a2 := RawRecord(r.id, ReadFields(cs, r.fields, |cs|));
    RecordIdRead(ds, r.id, a0, MoreMembers(m2, k));
    RecordStep(m1, ds, a0, a1, k);
    RecordFieldsRead(cs, r, MoreMembers(m3, k));
    RecordStep(m2, ds, a1, a2, k);
    RecordRestRead(ds, RecordMetadata(r), a2, MoreMembers(NoMembers, k));
    RecordStep(m3, ds, a2, a2, k);
  }

  lemma {:induction false} RecordIdRead(ds: seq<Column>, id: int, acc: RawRecord, k: Stream)
    requires |acc.fields| == |ds|
    ensures RecordMember("id", Toks(JNum(IntText(id)), k), ds, acc) == Done(acc.(id := id), k)
  {
    AtoiOfIntText(id);
  }

  lemma {:induction false} NoneRead(cs: seq<Column>, fs: seq<Field>)
    requires |cs| == |fs|
    ensures ReadFields(cs, fs, 0) == Defaults(ReloadColumns(cs))
  {
  }

  lemma {:induction false} FieldsMemberRead(ms: Members, ds: seq<Column>, acc: RawRecord, fs: seq<Field>, k: Stream)
    requires |acc.fields| == |ds| == |fs| && FieldsLoop(MemberToks(ms, k), ds, acc.fields) == Done(fs, k)
    ensures RecordMember("fields", Toks(JObj(ms), k), ds, acc) == Done(acc.(fields := fs), k)
  {
    HeadOf(JObj(ms), k);
    hide Toks, MemberToks, FieldsLoop;
  }

  lemma {:induction false} RecordFieldsRead(cs: seq<Column>, r: Record, k: Stream)
    requires |cs| == |r.fields|
    ensures var ds := ReloadColumns(cs);
            RecordMember("fields", Toks(JObj(FieldMembers(cs, r.fields)), k), ds, RawRecord(r.id, Defaults(ds)))
            == Done(RawRecord(r.id, ReadFields(cs, r.fields, |cs|)), k)
  {
    hide Toks, MemberToks, FieldsLoop, FieldMembers, ReadFields, Defaults, ReloadColumns, RecordMember;
    var ds := ReloadColumns(cs);
    FieldsRead(cs, r.fields, 0, k);
    assert cs[0..] == cs && r.fields[0..] == r.fields;
    NoneRead(cs, r.fields);
    FieldsMemberRead(FieldMembers(cs, r.fields), ds, RawRecord(r.id, Defaults(ds)), ReadFields(cs, r.fields, |cs|), k);
  }

  lemma {:induction false} RecordRestRead(ds: seq<Column>, j: Json, acc: RawRecord, k: Stream)
    requires |acc.fields| == |ds|
    ensures RecordMember("metadata", Toks(j, k), ds, acc) == Done(acc, k)
  {
    SkipTree(j, k);
  }

  // ---- storing them ----

  /** The table when the first `n` records are stored. */
  function Filled(t: Table, n: nat, now: Stamp): (u: Table)
    requires Shaped(t) && n <= |t.records|
    ensures |u.columns| == |t.columns|
  {
    Table(ReloadName(t.name), ReloadColumns(t.columns), ReloadRecords(t.columns, t.records[..n], now), n, NextId(t.records[..n]))
  }

  lemma {:induction false} MaxIdSnoc(rs: seq<Record>, r: Record)
    ensures MaxId(rs + [r]) == if r.id > MaxId(rs) then r.id else MaxId(rs)
  {
    if rs == [] {
      assert rs + [r] == [r] && [r][1..] == [];
    } else {
      assert (rs + [r])[1..] == rs[1..] + [r];
      MaxIdSnoc(rs[1..], r);
    }
  }

  lemma {:induction false} KeyStored(cs: seq<Column>, r: Record, now: Stamp)
    requires 0 < |cs| == |r.fields|
    ensures var ds := ReloadColumns(cs);
            var vs := SetKey(ds, ReadFields(cs, r.fields, |cs|), r.id);
            && vs[0] == Field(TInt, IntV(r.id)) && KeyOf(ds, vs) == r.id
            && NullsAllowed(ds, vs)
            && StoredFields(ds, vs) == ReloadRecord(cs, r, now).fields
  {
    hide TypeOf, TypeName, ReadFields, Escape;
    var ds := ReloadColumns(cs);
    var fs := ReadFields(cs, r.fields, |cs|);
    assert SetKey(ds, fs, r.id) == [Field(TInt, IntV(r.id))] + fs[1..];
  }

  lemma {:induction false} IdNotYetTaken(t: Table, n: nat, now: Stamp)
    requires SavableRecords(t.columns, t.records) && n < |t.records|
    ensures Find(Filled(t, n, now).records, t.records[n].id) == n
  {
    var qs, id := Filled(t, n, now).records, t.records[n].id;
    assert |qs| == n;
    forall i | 0 <= i < n ensures qs[i].id != id {
      ReloadAt(t.columns, t.records[..n], now, i);
      assert qs[i].id == t.records[..n][n - 1 - i].id == t.records[n - 1 - i].id;
    }
  }

  lemma {:induction false} ReloadSnoc(cs: seq<Column>, rs: seq<Record>, n: nat, now: Stamp)
    requires AllShaped(cs, rs) && n < |rs|
    ensures ReloadRecords(cs, rs[..n + 1], now) == [ReloadRecord(cs, rs[n], now)] + ReloadRecords(cs, rs[..n], now)
  {
    hide ReloadRecord, ReloadRecords;
    var a, b := ReloadRecords(cs, rs[..n + 1], now), ReloadRecords(cs, rs[..n], now);
    forall i | 0 <= i < n + 1 ensures a[i] == ([ReloadRecord(cs, rs[n], now)] + b)[i] {
      ReloadAt(cs, rs[..n + 1], now, i);
      if i > 0 {
        ReloadAt(cs, rs[..n], now, i - 1);
      }
    }
  }

  lemma {:induction false} RecordAdded(t: Table, n: nat, vs: seq<Field>, now: Stamp)
    requires Shaped(t) && n < |t.records| && |vs| == |t.columns| && AllShaped(t.columns, t.records)
    requires StoredFields(ReloadColumns(t.columns), vs) == ReloadRecord(t.columns, t.records[n], now).fields
    ensures Add(Filled(t, n, now), t.records[n].id, vs, now) == Filled(t, n + 1, now)
  {
    var rs := t.records;
    assert rs[..n + 1] == rs[..n] + [rs[n]];
    MaxIdSnoc(rs[..n], rs[n]);
    ReloadSnoc(t.columns, rs, n, now);
    hide MaxId, ReloadColumns, StoredFields, ReloadRecords;
  }

  lemma {:induction false} RecordStored(t: Table, n: nat, now: Stamp)
    requires SavableRecords(t.columns, t.records) && n < |t.records| && |t.columns| > 0
    ensures var r := t.records[n];
            StoreRecord(Filled(t, n, now), RawRecord(r.id, ReadFields(t.columns, r.fields, |t.columns|)), now)
            == Stored(Success, Filled(t, n + 1, now))
  {
    var r := t.records[n];
    KeyStored(t.columns, r, now);
    IdNotYetTaken(t, n, now);
    hide SetKey, ReadFields, KeyOf, ReloadColumns, MaxId, Find, NullsAllowed, DistinctIds, Add;
    RecordAdded(t, n, SetKey(ReloadColumns(t.columns), ReadFields(t.columns, r.fields, |t.columns|), r.id), now);
  }

  /** One element of the array of records, and on to the next. */
  lemma {:induction false} RecordsStep(ms: Members, more: Elements, t: Table, raw: RawRecord, u: Table, now: Stamp, k: Stream)
    requires |t.columns| > 0 && u.columns == t.columns && |raw.fields| == |t.columns|
    requires RecordLoop(MemberToks(ms, MoreElements(more, k)), t.columns, RawRecord(-1, Defaults(t.columns)))
          == Done(raw, MoreElements(more, k))
    requires StoreRecord(t, raw, now) == Stored(Success, u)
    ensures RecordsLoop(ElementToks(Element(JObj(ms), more), k), t, now)
         == if more.NoElements? then Done(u, k) else RecordsLoop(ElementToks(more, k), u, now)
  {
    ElementStart(Element(JObj(ms), more), k);
    ElementStart(more, k);
    HeadOf(JObj(ms), MoreElements(more, k));
    hide Toks, MemberToks, ElementToks, MoreElements, StoreRecord, RecordLoop, Defaults;
  }

  lemma {:induction false} RecordsRead(t: Table, n: nat, now: Stamp, k: Stream)
    requires SavableRecords(t.columns, t.records) && |t.columns| > 0 && n <= |t.records|
    ensures RecordsLoop(ElementToks(RecordElements(t.columns, t.records[n..]), k), Filled(t, n, now), now)
         == Done(Filled(t, |t.records|, now), k)
    decreases |t.records| - n
  {
    hide Toks, MemberToks, ElementToks, MoreElements, ReadFields, RecordTree, Filled, StoreRecord, RecordLoop, Defaults,
         RecordsLoop;
    FilledColumns(t, n, now);
    if n == |t.records| {
      NoRecordsLeft(Filled(t, n, now), now, k);
      assert RecordElements(t.columns, t.records[n..]) == NoElements;
    } else {
      var more := RecordElements(t.columns, t.records[n + 1..]);
      var r := t.records[n];
      assert t.records[n..][0] == r && t.records[n..][1..] == t.records[n + 1..];
      RecordRead(t.columns, r, MoreElements(more, k));
      var raw := RawRecord(r.id, ReadFields(t.columns, r.fields, |t.columns|));
      RecordStored(t, n, now);
      FilledColumns(t, n + 1, now);
      RecordsStep(RecordTree(t.columns, r).members, more, Filled(t, n, now), raw, Filled(t, n + 1, now), now, k);
      RecordsRead(t, n + 1, now, k);
      if more.NoElements? {
        NoRecordsLeft(Filled(t, n + 1, now), now, k);
      }
    }
  }

  lemma {:induction false} NoRecordsLeft(t: Table, now: Stamp, k: Stream)
    requires |t.columns| > 0
    ensures RecordsLoop(ElementToks(NoElements, k), t, now) == Done(t, k)
  {
  }

  lemma {:induction false} FilledColumns(t: Table, n: nat, now: Stamp)
    requires Shaped(t) && n <= |t.records|
    ensures Filled(t, n, now).columns == ReloadColumns(t.columns)
    ensures Filled(t, 0, now) == EmptyTable(t)
    ensures Filled(t, |t.records|, now) == ReloadTable(t, now)
  {
    assert t.records[..|t.records|] == t.records;
    assert t.records[..0] == [];
  }

  // ---- tables ----

  lemma {:induction false} TableTokens(t: Table, k: Stream)
    requires Shaped(t)
    ensures var es := RecordElements(t.columns, t.records);
            var behind := Cons(Comma, Cons(Str("records"), Cons(Colon, Cons(ArrayStart, ElementToks(es, Cons(ObjectEnd, k))))));
            && SchemaTree(t).JObj?
            && Toks(TableTree(t), k) == Cons(ObjectStart,
                 Cons(Str("schema"), Cons(Colon, Cons(ObjectStart, MemberToks(SchemaTree(t).members, behind)))))
  {
    var es := RecordElements(t.columns, t.records);
    var m2 := Member("records", JArr(es), NoMembers);
    var m1 := Member("schema", SchemaTree(t), m2);
    assert SchemaTree(t).JObj?;
    assert TableTree(t) == JObj(m1);
    hide SchemaTree, RecordElements, TableTree;
    HeadOf(JObj(m1), k);
    MemberStart(m1, k);
    MemberStart(m2, k);
    MemberStart(NoMembers, k);
    HeadOf(JArr(es), Cons(ObjectEnd, k));
    HeadOf(m1.value, MoreMembers(m2, k));
    hide Toks, MemberToks, MoreMembers, ElementToks;
  }

  lemma {:induction false} SchemaParsed(ts: seq<Table>, t: Table, behind: Stream)
    requires SavableTable(t) && HasColumns(ts) && |ts| < MAX_TABLES
    requires SchemaTree(t).JObj?
    ensures ParseSchema(Cons(Str("schema"), Cons(Colon, Cons(ObjectStart, MemberToks(SchemaTree(t).members, behind)))), ts)
         == if HasTable(ts, ReloadName(t.name)) then Failed(DuplicateKey) else Done(ts + [EmptyTable(t)], behind)
  {
    SchemaRead(t);
    NestedSchemaReads(SchemaTree(t).members, behind);
    TableMade(ts, t);
    hide SchemaOf, SchemaLoop, MemberToks, SchemaTree, SavableTable, EmptyTable, CreateTable, HasTable, ReloadName;
  }

  lemma {:induction false} RecordsParsed(t: Table, now: Stamp, k: Stream)
    requires SavableTable(t)
    ensures |EmptyTable(t).columns| > 0
    ensures ParseRecords(Cons(ArrayStart, ElementToks(RecordElements(t.columns, t.records), k)), EmptyTable(t), now)
         == Done(ReloadTable(t, now), k)
  {
    hide ElementToks, RecordElements, RecordsLoop, Filled, ReloadTable, DistinctIds;
    FilledColumns(t, 0, now);
    RecordsRead(t, 0, now, k);
    assert t.records[0..] == t.records;
  }

  lemma {:induction false} RecordsBehind(all: seq<Table>, done: seq<Table>, rest: Stream, now: Stamp, k: Stream)
    requires HasColumns(all) && HasColumns(done) && all != [] && done != []
    requires Sibling("records", rest, all, now) == Done(done, Cons(ObjectEnd, k))
    ensures BehindSchema(Cons(Comma, Cons(Str("records"), Cons(Colon, rest))), all, now) == TableSeparator(k, done, now)
  {
    assert SiblingsLoop(Cons(ObjectEnd, k), done, now) == Done(done, k);
    hide Sibling, TableSeparator, SiblingsLoop;
  }

  lemma {:induction false} SchemaBehind(inner: Stream, ts: seq<Table>, all: seq<Table>, behind: Stream, now: Stamp)
    requires HasColumns(ts) && ParseSchema(inner, ts) == Done(all, behind)
    ensures HasColumns(all) && all != []
    ensures TablesLoop(Cons(ObjectStart, inner), ts, false, now) == BehindSchema(behind, all, now)
  {
    hide ParseSchema, BehindSchema;
  }

  lemma {:induction false} ReloadHasColumns(t: Table, now: Stamp)
    requires SavableTable(t)
    ensures |EmptyTable(t).columns| > 0 && |ReloadTable(t, now).columns| > 0
  {
  }

  lemma {:induction false} RecordsSibling(ts: seq<Table>, t: Table, now: Stamp, k: Stream)
    requires SavableTable(t) && HasColumns(ts)
    ensures var all, done := ts + [EmptyTable(t)], ts + [ReloadTable(t, now)];
            var rest := Cons(ArrayStart, ElementToks(RecordElements(t.columns, t.records), Cons(ObjectEnd, k)));
            && HasColumns(all) && HasColumns(done)
            && Sibling("records", rest, all, now) == Done(done, Cons(ObjectEnd, k))
  {
    assert Shaped(t);
    hide ElementToks, RecordElements, ReloadTable, EmptyTable, ParseRecords, SavableTable, Sibling;
    RecordsParsed(t, now, Cons(ObjectEnd, k));
    ReloadHasColumns(t, now);
    var rest := Cons(ArrayStart, ElementToks(RecordElements(t.columns, t.records), Cons(ObjectEnd, k)));
    SiblingStores(ts, EmptyTable(t), ReloadTable(t, now), rest, now, Cons(ObjectEnd, k));
  }

  lemma {:induction false} SiblingStores(ts: seq<Table>, u: Table, v: Table, rest: Stream, now: Stamp, k: Stream)
    requires HasColumns(ts) && |u.columns| > 0 && |v.columns| > 0 && ParseRecords(rest, u, now) == Done(v, k)
    ensures HasColumns(ts + [u]) && HasColumns(ts + [v])
    ensures Sibling("records", rest, ts + [u], now) == Done(ts + [v], k)
  {
    hide ParseRecords;
    var all := ts + [u];
    assert all[|all| - 1 := v] == ts + [v];
  }

  /** The tokens behind a schema: its records, the table's end, and what follows the table. */
  lemma {:induction false} TableFinished(ts: seq<Table>, t: Table, now: Stamp, k: Stream)
    requires SavableTable(t) && HasColumns(ts)
    ensures var all := ts + [EmptyTable(t)];
            var es := RecordElements(t.columns, t.records);
            var behind := Cons(Comma, Cons(Str("records"), Cons(Colon, Cons(ArrayStart, ElementToks(es, Cons(ObjectEnd, k))))));
            && HasColumns(all) && HasColumns(ts + [ReloadTable(t, now)])
            && BehindSchema(behind, all, now) == TableSeparator(k, ts + [ReloadTable(t, now)], now)
  {
    RecordsSibling(ts, t, now, k);
    var es := RecordElements(t.columns, t.records);
    hide ElementToks, RecordElements, ReloadTable, EmptyTable, TableSeparator, Sibling, BehindSchema, SavableTable;
    RecordsBehind(ts + [EmptyTable(t)], ts + [ReloadTable(t, now)], Cons(ArrayStart, ElementToks(es, Cons(ObjectEnd, k))), now, k);
  }

  lemma {:induction false} TableRead(ts: seq<Table>, t: Table, now: Stamp, k: Stream)
    requires SavableTable(t) && HasColumns(ts) && |ts| < MAX_TABLES
    ensures HasColumns(ts + [ReloadTable(t, now)])
    ensures TablesLoop(Toks(TableTree(t), k), ts, false, now)
         == if HasTable(ts, ReloadName(t.name)) then Failed(DuplicateKey)
            else TableSeparator(k, ts + [ReloadTable(t, now)], now)
  {
    assert Shaped(t);
    TableTokens(t, k);
    var es := RecordElements(t.columns, t.records);
    var behind := Cons(Comma, Cons(Str("records"), Cons(Colon, Cons(ArrayStart, ElementToks(es, Cons(ObjectEnd, k))))));
    hide Toks, TableTree, MemberToks, ElementToks, RecordElements, SchemaTree, ReloadTable, EmptyTable, TablesLoop,
         ParseSchema, BehindSchema, TableSeparator, SavableTable, HasTable, ReloadName;
    SchemaParsed(ts, t, behind);
    TableFinished(ts, t, now, k);
    if HasTable(ts, ReloadName(t.name)) {
      SchemaFails(Toks(TableTree(t), k).tail, ts, DuplicateKey, now);
    } else {
      SchemaBehind(Toks(TableTree(t), k).tail, ts, ts + [EmptyTable(t)], behind, now);
    }
  }

  lemma {:induction false} SchemaFails(inner: Stream, ts: seq<Table>, code: ErrorCode, now: Stamp)
    requires HasColumns(ts) && ParseSchema(inner, ts) == Failed(code)
    ensures TablesLoop(Cons(ObjectStart, inner), ts, false, now) == Failed(code)
  {
    hide ParseSchema, BehindSchema;
  }

  /** What the array of tables comes to: all of them, or the failure of the first whose name is taken. */
  function AllRead(ts: seq<Table>, now: Stamp, k: Stream): (r: Parsed<seq<Table>>)
    requires AllTablesShaped(ts)
  {
    if NamesStayApart(ts) then Done(ReloadTables(ts, now), k) else Failed(DuplicateKey)
  }

  lemma {:induction false} NoMoreTables(ts: seq<Table>, now: Stamp, k: Stream)
    requires AllTablesShaped(ts) && HasColumns(ReloadTables(ts[..|ts|], now)) && NamesStayApart(ts[..|ts|])
    ensures TablesLoop(ElementToks(TableElements(ts[|ts|..]), k), ReloadTables(ts[..|ts|], now), false, now)
         == AllRead(ts, now, k)
  {
    hide ReloadTable;
    assert ts[..|ts|] == ts && ts[|ts|..] == [];
  }

  lemma {:induction false} TablesRead(ts: seq<Table>, n: nat, now: Stamp, k: Stream)
    requires Savable(ts) && n <= |ts| && AllTablesShaped(ts) && NamesStayApart(ts[..n])
    ensures HasColumns(ReloadTables(ts[..n], now))
    ensures TablesLoop(ElementToks(TableElements(ts[n..]), k), ReloadTables(ts[..n], now), false, now)
         == AllRead(ts, now, k)
    decreases |ts| - n
  {
    hide Toks, ElementToks, MoreElements, TableTree, ReloadTable, TableSeparator, TablesLoop, SavableTable, Shaped, AllRead,
         NamesStayApart, ReloadName, HasTable;
    var done := ReloadTables(ts[..n], now);
    ReloadedColumns(ts[..n], now);
    if n == |ts| {
      NoMoreTables(ts, now, k);
    } else {
      var t, more := ts[n], TableElements(ts[n + 1..]);
      assert ts[n..][0] == t && ts[n..][1..] == ts[n + 1..];
      ElementStart(TableElements(ts[n..]), k);
      NameTaken(ts, n, now);
      TableRead(done, t, now, MoreElements(more, k));
      assert ReloadTables(ts[..n + 1], now) == done + [ReloadTable(t, now)];
      if HasTable(done, ReloadName(t.name)) {
        assert AllRead(ts, now, k) == Failed(DuplicateKey) by { NamesMeet(ts, n + 1, now, k); }
      } else {
        TablesRead(ts, n + 1, now, k);
        SeparatorRead(ts, n + 1, now, k);
      }
    }
  }

  lemma {:induction false} NamesMeet(ts: seq<Table>, n: nat, now: Stamp, k: Stream)
    requires n <= |ts| && AllTablesShaped(ts) && !NamesStayApart(ts[..n])
    ensures AllRead(ts, now, k) == Failed(DuplicateKey)
  {
    hide ReloadName;
    var i, j :| 0 <= i < j < n && ReloadName(ts[..n][i].name) == ReloadName(ts[..n][j].name);
    assert ReloadName(ts[i].name) == ReloadName(ts[j].name);
  }

  lemma {:induction false} SeparatorRead(ts: seq<Table>, n: nat, now: Stamp, k: Stream)
    requires 0 < n <= |ts| && AllTablesShaped(ts) && HasColumns(ReloadTables(ts[..n], now)) && NamesStayApart(ts[..n])
    requires TablesLoop(ElementToks(TableElements(ts[n..]), k), ReloadTables(ts[..n], now), false, now)
          == AllRead(ts, now, k)
    ensures TableSeparator(MoreElements(TableElements(ts[n..]), k), ReloadTables(ts[..n], now), now)
         == AllRead(ts, now, k)
  {
    hide ElementToks, MoreElements, ReloadTables, TablesLoop, TableTree, NamesStayApart;
    ElementStart(TableElements(ts[n..]), k);
    if n == |ts| {
      assert ts[..n] == ts && ts[n..] == [];
    }
  }

  lemma {:induction false} ReloadedColumns(ts: seq<Table>, now: Stamp)
    requires AllTablesShaped(ts) && forall i | 0 <= i < |ts| :: SavableTable(ts[i])
    ensures HasColumns(ReloadTables(ts, now))
  {
    assert forall i | 0 <= i < |ts| :: |ReloadTables(ts, now)[i].columns| == |ts[i].columns|;
  }

  /** The next name is taken exactly when it meets one of those before it. */
  lemma {:induction false} NameTaken(ts: seq<Table>, n: nat, now: Stamp)
    requires n < |ts| && AllTablesShaped(ts) && NamesStayApart(ts[..n])
    ensures HasTable(ReloadTables(ts[..n], now), ReloadName(ts[n].name)) <==> !NamesStayApart(ts[..n + 1])
  {
    hide ReloadName;
    var us, qs := ReloadTables(ts[..n], now), ts[..n + 1];
    assert forall i | 0 <= i < n :: us[i].name == ReloadName(ts[i].name) && qs[i] == ts[i] == ts[..n][i];
    assert qs[n] == ts[n];
    if HasTable(us, ReloadName(ts[n].name)) {
      var i :| 0 <= i < n && us[i].name == ReloadName(ts[n].name);
      assert ReloadName(qs[i].name) == ReloadName(qs[n].name);
    }
  }

  // ---- the whole database ----

  lemma {:induction false} TopStep(ms: Members, ts: seq<Table>, us: seq<Table>, now: Stamp, k: Stream)
    requires ms.Member? && HasColumns(ts) && HasColumns(us)
    requires var rest := MoreMembers(ms.more, k); TopMember(ms.key, Toks(ms.value, rest), ts, now) == Done(us, rest)
    ensures TopLoop(MemberToks(ms, k), ts, now)
         == if ms.more.NoMembers? then Done(us, k) else TopLoop(MemberToks(ms.more, k), us, now)
  {
    MemberStart(ms, k);
    MemberStart(ms.more, k);
    hide Toks, MemberToks, MoreMembers, TopMember;
  }

  /** Whatever object the metadata is, it is read to its end and dropped. */
  lemma {:induction false} MetadataRead(ms: Members, k: Stream)
    ensures MetadataLoop(MemberToks(ms, k)) == Done((), k)
    decreases ms
  {
    MemberStart(ms, k);
    if ms.Member? {
      var rest := MoreMembers(ms.more, k);
      MemberStart(ms.more, k);
      HeadOf(ms.value, rest);
      SkipTree(ms.value, rest);
      MetadataRead(ms.more, k);
      hide Toks, MemberToks, MoreMembers, Skip;
    }
  }

  /** Loading the tree a database is saved as, with any later tokens behind it. */
  lemma {:induction false} LoadTree(ts: seq<Table>, saved: Stamp, now: Stamp, k: Stream)
    requires Savable(ts)
    ensures AllTablesShaped(ts)
    ensures Load(Toks(DatabaseTree(ts, saved), k), now) == Reloaded(ts, now)
  {
    SavableIsShaped(ts);
    TablesMemberRead(ts, now, MoreMembers(NoMembers, k));
    assert MetadataTree(|ts|, saved).JObj?;
    hide Toks, MoreMembers, TopMember, TableElements, Shaped, ReloadTables, MetadataTree, SavableTable, NamesStayApart;
    if NamesStayApart(ts) {
      LoadMembers(MetadataTree(|ts|, saved), JArr(TableElements(ts)), ReloadTables(ts, now), now, k);
    } else {
      LoadFails(MetadataTree(|ts|, saved), JArr(TableElements(ts)), DuplicateKey, now, k);
    }
  }

  lemma {:induction false} LoadMembers(metadata: Json, tables: Json, us: seq<Table>, now: Stamp, k: Stream)
    requires metadata.JObj? && HasColumns(us)
    requires var rest := MoreMembers(NoMembers, k); TopMember("tables", Toks(tables, rest), [], now) == Done(us, rest)
    ensures var j := JObj(Member("metadata", metadata, Member("tables", tables, NoMembers)));
            Load(Toks(j, k), now) == Some(us)
  {
    hide Toks, MemberToks, MoreMembers, TopMember, TopLoop;
    var m2 := Member("tables", tables, NoMembers);
    var m1 := Member("metadata", metadata, m2);
    HeadOf(JObj(m1), k);
    MetadataMemberRead(metadata, MoreMembers(m2, k), now);
    TopStep(m1, [], [], now, k);
    TopStep(m2, [], us, now, k);
  }

  lemma {:induction false} LoadFails(metadata: Json, tables: Json, code: ErrorCode, now: Stamp, k: Stream)
    requires metadata.JObj?
    requires TopMember("tables", Toks(tables, MoreMembers(NoMembers, k)), [], now) == Failed(code)
    ensures var j := JObj(Member("metadata", metadata, Member("tables", tables, NoMembers)));
            Load(Toks(j, k), now) == None
  {
    hide Toks, MemberToks, MoreMembers, TopMember, TopLoop;
    var m2 := Member("tables", tables, NoMembers);
    var m1 := Member("metadata", metadata, m2);
    HeadOf(JObj(m1), k);
    MetadataMemberRead(metadata, MoreMembers(m2, k), now);
    TopStep(m1, [], [], now, k);
    TopFails(m2, [], code, now, k);
  }

  lemma {:induction false} TopFails(ms: Members, ts: seq<Table>, code: ErrorCode, now: Stamp, k: Stream)
    requires ms.Member? && HasColumns(ts)
    requires TopMember(ms.key, Toks(ms.value, MoreMembers(ms.more, k)), ts, now) == Failed(code)
    ensures TopLoop(MemberToks(ms, k), ts, now) == Failed(code)
  {
    MemberStart(ms, k);
    hide Toks, MemberToks, MoreMembers, TopMember;
  }

  lemma {:induction false} MetadataMemberRead(j: Json, k: Stream, now: Stamp)
    requires j.JObj?
    ensures TopMember("metadata", Toks(j, k), [], now) == Done([], k)
  {
    HeadOf(j, k);
    MetadataRead(j.members, k);
    hide Toks, MemberToks, MetadataLoop;
  }

  lemma {:induction false} TablesMemberRead(ts: seq<Table>, now: Stamp, k: Stream)
    requires Savable(ts) && AllTablesShaped(ts)
    ensures HasColumns(ReloadTables(ts, now))
    ensures TopMember("tables", Toks(JArr(TableElements(ts)), k), [], now) == AllRead(ts, now, k)
  {
    hide Toks, ElementToks, TablesLoop, TableElements, SavableTable, Shaped, ReloadTable, AllRead, ReloadName;
    HeadOf(JArr(TableElements(ts)), k);
    assert ts[0..] == ts && ts[..0] == [];
    TablesRead(ts, 0, now, k);
    assert ReloadTables([], now) == [];
    ReloadedColumns(ts, now);
  }
}
