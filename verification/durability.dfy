/** The main results on saving and loading, on the text itself. */
module Durability {
  import opened Lexer
  import opened TokenStream
  import opened Layout
  import opened Json
  import opened Transform
  import opened Pretty
  import opened Escaping
  import opened Decimal
  import opened Schema
  import opened Save
  import opened Catalog
  import opened Loader
  import opened RoundTrip

  /** Loading a text. */
  function LoadText(s: string, now: Stamp): (r: Option<seq<Table>>) {
    Load(StreamOf(s), now)
  }

  // ---- saving writes JSON ----

  /** The texts libc formats are what the grammar wants: numbers for FLOAT and DOUBLE, a string body for DATETIME. */
  ghost predicate FormattedField(f: Field) {
    match f.ty
    case TFloat => RfcNumber(RawText(f.value))
    case TDouble => RfcNumber(RawText(f.value))
    case TDatetime => RfcBody(RawText(f.value))
    case _ => true
  }

  ghost predicate FormattedFields(fs: seq<Field>) {
    forall i | 0 <= i < |fs| :: FormattedField(fs[i])
  }

  ghost predicate FormattedTable(t: Table) {
    forall i | 0 <= i < |t.records| :: FormattedFields(t.records[i].fields)
  }

  ghost predicate Formatted(ts: seq<Table>) {
    forall i | 0 <= i < |ts| :: FormattedTable(ts[i])
  }

  /** Column names that can stand between quotes as they are. */
  predicate RawNames(cs: seq<Column>, strict: bool) {
    forall i | 0 <= i < |cs| :: KeyOk(cs[i].name, strict)
  }

  /** Only the records of a table have such names written. */
  predicate NamesWritable(ts: seq<Table>, strict: bool) {
    forall i | 0 <= i < |ts| :: ts[i].records == [] || RawNames(ts[i].columns, strict)
  }

  lemma {:induction false} BodyIsKey(s: string, strict: bool)
    requires RfcBody(s)
    ensures KeyOk(s, strict)
  {
    BodyScans(s);
  }

  lemma {:induction false} PlainIsBody(s: string)
    requires Plain(s)
    ensures RfcBody(s)
  {
    EscapeIdentity(s);
    EscapedIsBody(s);
  }

  lemma {:induction false} StampIsBody(s: Stamp)
    ensures RfcBody(s)
  {
    PlainIsBody(s);
  }

  lemma {:induction false} FieldWritten(f: Field, strict: bool)
    ensures WellKeyed(FieldJson(f), strict) <==> FormattedField(f)
  {
    IntTextIsNumber(AsInt(f.value));
    EscapedIsBody(AsString(f.value));
  }

  lemma {:induction false} FieldsWritten(cs: seq<Column>, fs: seq<Field>, strict: bool)
    requires |cs| == |fs|
    ensures KeyedMembers(FieldMembers(cs, fs), strict) <==> RawNames(cs, strict) && FormattedFields(fs)
    decreases |cs|
  {
    if cs != [] {
      hide RfcBody, KeyOk, FormattedField, FieldJson;
      FieldWritten(fs[0], strict);
      FieldsWritten(cs[1..], fs[1..], strict);
      NamesCons(cs, strict);
      FormattedCons(fs);
    }
  }

  lemma {:induction false} NamesCons(cs: seq<Column>, strict: bool)
    requires cs != []
    ensures RawNames(cs, strict) <==> KeyOk(cs[0].name, strict) && RawNames(cs[1..], strict)
  {
    hide KeyOk;
    if KeyOk(cs[0].name, strict) && RawNames(cs[1..], strict) {
      forall i | 0 <= i < |cs| ensures KeyOk(cs[i].name, strict) {
        assert i > 0 ==> cs[i] == cs[1..][i - 1];
      }
    }
  }

  lemma {:induction false} FormattedCons(fs: seq<Field>)
    requires fs != []
    ensures FormattedFields(fs) <==> FormattedField(fs[0]) && FormattedFields(fs[1..])
  {
    hide FormattedField;
    if FormattedField(fs[0]) && FormattedFields(fs[1..]) {
      forall i | 0 <= i < |fs| ensures FormattedField(fs[i]) {
        assert i > 0 ==> fs[i] == fs[1..][i - 1];
      }
    }
  }

  lemma {:induction false} WrittenRules(strict: bool)
    ensures forall k, v, m {:trigger KeyedMembers(Member(k, v, m), strict)} ::
              KeyedMembers(Member(k, v, m), strict) == (KeyOk(k, strict) && WellKeyed(v, strict) && KeyedMembers(m, strict))
    ensures KeyedMembers(NoMembers, strict) && KeyedElements(NoElements, strict)
    ensures forall v, m {:trigger KeyedElements(Element(v, m), strict)} ::
              KeyedElements(Element(v, m), strict) == (WellKeyed(v, strict) && KeyedElements(m, strict))
    ensures forall ms {:trigger WellKeyed(JObj(ms), strict)} :: WellKeyed(JObj(ms), strict) == KeyedMembers(ms, strict)
    ensures forall es {:trigger WellKeyed(JArr(es), strict)} :: WellKeyed(JArr(es), strict) == KeyedElements(es, strict)
    ensures forall s {:trigger WellKeyed(JStr(s), strict)} :: WellKeyed(JStr(s), strict) == RfcBody(s)
    ensures forall s {:trigger WellKeyed(JNum(s), strict)} :: WellKeyed(JNum(s), strict) == RfcNumber(s)
    ensures forall k {:trigger KeyOk(k, strict)} :: RfcBody(k) ==> KeyOk(k, strict)
  {
    hide RfcBody, RfcNumber, KeyOk;
    forall k | RfcBody(k) ensures KeyOk(k, strict) {
      BodyIsKey(k, strict);
    }
  }

  /** The keys and constant strings the serializer writes. */
  lemma {:induction false} RecordKeys()
    ensures RfcBody("id") && RfcBody("fields") && RfcBody("metadata") && RfcBody("timestamp") && RfcBody("version")
    ensures RfcBody("schema") && RfcBody("records") && RfcBody("tables")
  {
    hide RfcBody;
    PlainIsBody("id");
    PlainIsBody("fields");
    PlainIsBody("metadata");
    PlainIsBody("timestamp");
    PlainIsBody("version");
    PlainIsBody("schema");
    PlainIsBody("records");
    PlainIsBody("tables");
  }

  lemma {:induction false} SchemaKeys()
    ensures RfcBody("name") && RfcBody("type") && RfcBody("constraints") && RfcBody("fields") && RfcBody("record_count")
    ensures RfcBody("PRIMARY KEY") && RfcBody("UNIQUE") && RfcBody("NOT NULL")
  {
    hide RfcBody;
    PlainIsBody("name");
    PlainIsBody("type");
    PlainIsBody("constraints");
    PlainIsBody("fields");
    PlainIsBody("record_count");
    PlainIsBody("PRIMARY KEY");
    PlainIsBody("UNIQUE");
    PlainIsBody("NOT NULL");
  }

  lemma {:induction false} MetadataKeys()
    ensures RfcBody("name") && RfcBody("version") && RfcBody("created_at") && RfcBody("table_count") && RfcBody(VERSION)
  {
    hide RfcBody;
    PlainIsBody("name");
    PlainIsBody("version");
    PlainIsBody("created_at");
    PlainIsBody("table_count");
    PlainIsBody(VERSION);
  }

  lemma {:induction false} RecordWritten(cs: seq<Column>, r: Record, strict: bool)
    requires |cs| == |r.fields|
    ensures WellKeyed(RecordTree(cs, r), strict) <==> RawNames(cs, strict) && FormattedFields(r.fields)
  {
    WrittenRules(strict);
    RecordKeys();
    hide WellKeyed, KeyedMembers, KeyedElements, KeyOk, RfcBody, RfcNumber, FieldMembers, IntText, FormattedFields, RawNames;
    IntTextIsNumber(r.id);
    IntTextIsNumber(r.version);
    StampIsBody(r.stamp);
    FieldsWritten(cs, r.fields, strict);
  }

  lemma {:induction false} RecordsWritten(cs: seq<Column>, rs: seq<Record>, strict: bool)
    requires AllShaped(cs, rs)
    ensures KeyedElements(RecordElements(cs, rs), strict)
            <==> (rs == [] || RawNames(cs, strict)) && forall i | 0 <= i < |rs| :: FormattedFields(rs[i].fields)
    decreases |rs|
  {
    if rs != [] {
      hide RawNames, FormattedFields, RecordTree, WellKeyed;
      RecordWritten(cs, rs[0], strict);
      RecordsWritten(cs, rs[1..], strict);
      assert forall i | 0 < i < |rs| :: rs[i] == rs[1..][i - 1];
    }
  }

  lemma {:induction false} ConstraintsWritten(c: Column, strict: bool)
    ensures KeyedElements(ConstraintList(c), strict)
  {
    WrittenRules(strict);
    SchemaKeys();
    hide WellKeyed, KeyedMembers, KeyedElements, KeyOk, RfcBody, RfcNumber;
  }

  lemma {:induction false} ColumnWritten(c: Column, strict: bool)
    ensures WellKeyed(ColumnTree(c), strict)
  {
    WrittenRules(strict);
    SchemaKeys();
    hide WellKeyed, KeyedMembers, KeyedElements, KeyOk, RfcBody, RfcNumber, Escape, TypeName, ConstraintList, StringBody;
    EscapedIsBody(c.name);
    EscapedIsBody(TypeName(c.ty));
    ConstraintsWritten(c, strict);
  }

  lemma {:induction false} ColumnsWritten(cs: seq<Column>, strict: bool)
    ensures KeyedElements(ColumnElements(cs), strict)
    decreases |cs|
  {
    if cs != [] {
      hide ColumnTree, WellKeyed;
      ColumnWritten(cs[0], strict);
      ColumnsWritten(cs[1..], strict);
    }
  }

  lemma {:induction false} SchemaWritten(t: Table, strict: bool)
    ensures WellKeyed(SchemaTree(t), strict)
  {
    WrittenRules(strict);
    SchemaKeys();
    hide WellKeyed, KeyedMembers, KeyedElements, KeyOk, RfcBody, RfcNumber, Escape, IntText, ColumnElements, StringBody;
    EscapedIsBody(t.name);
    IntTextIsNumber(t.count);
    ColumnsWritten(t.columns, strict);
  }

  lemma {:induction false} TableWritten(t: Table, strict: bool)
    requires Shaped(t)
    ensures WellKeyed(TableTree(t), strict) <==> (t.records == [] || RawNames(t.columns, strict)) && FormattedTable(t)
  {
    WrittenRules(strict);
    RecordKeys();
    hide WellKeyed, KeyedMembers, KeyedElements, KeyOk, RfcBody, RfcNumber, SchemaTree, RecordElements, FormattedFields, RawNames;
    SchemaWritten(t, strict);
    RecordsWritten(t.columns, t.records, strict);
  }

  lemma {:induction false} TablesWritten(ts: seq<Table>, strict: bool)
    requires AllTablesShaped(ts)
    ensures KeyedElements(TableElements(ts), strict) <==> Formatted(ts) && NamesWritable(ts, strict)
    decreases |ts|
  {
    if ts != [] {
      hide RawNames, FormattedTable, TableTree, WellKeyed, Shaped;
      TableWritten(ts[0], strict);
      TablesWritten(ts[1..], strict);
      assert forall i | 0 < i < |ts| :: ts[i] == ts[1..][i - 1];
    }
  }

  lemma {:induction false} MetadataWritten(count: nat, now: Stamp, strict: bool)
    ensures WellKeyed(MetadataTree(count, now), strict)
  {
    WrittenRules(strict);
    MetadataKeys();
    hide WellKeyed, KeyedMembers, KeyedElements, KeyOk, RfcBody, RfcNumber, Escape, IntText, StringBody;
    EscapedIsBody(DATABASE_NAME);
    StampIsBody(now);
    IntTextIsNumber(count);
  }

  lemma {:induction false} TreeIsWritten(ts: seq<Table>, now: Stamp, strict: bool)
    requires AllTablesShaped(ts)
    ensures WellKeyed(DatabaseTree(ts, now), strict) <==> Formatted(ts) && NamesWritable(ts, strict)
  {
    WrittenRules(strict);
    RecordKeys();
    hide WellKeyed, KeyedMembers, KeyedElements, KeyOk, RfcBody, MetadataTree, TableElements, Shaped, FormattedTable, RawNames;
    MetadataWritten(|ts|, now, strict);
    TablesWritten(ts, strict);
  }

  /**
   * The saved pieces lay out the database's tree, which is one of RFC 8259 exactly when libc formats numbers as it wants
   * them and every column name, where records are written under it, can stand between quotes as it is.
   */
  lemma {:induction false} SaveIsJson(ts: seq<Table>, now: Stamp)
    requires AllTablesShaped(ts)
    ensures IsLayout(SaveDoc(ts, now), DatabaseTree(ts, now))
    ensures Rfc(DatabaseTree(ts, now)) <==> Formatted(ts) && NamesWritable(ts, true)
    ensures Rfc(DatabaseTree(ts, now)) ==> PiecesOk(SaveDoc(ts, now))
  {
    TreeIsWritten(ts, now, true);
    StrictIsRfc(DatabaseTree(ts, now));
    hide SaveDoc, DatabaseTree, Rfc, WellKeyed, Emit, Toks, Formatted, NamesWritable, Shaped;
    SaveEmit(ts, now, End);
    if Rfc(DatabaseTree(ts, now)) {
      LayoutPiecesOk(SaveDoc(ts, now), DatabaseTree(ts, now));
    }
  }

  // ---- the round trip ----

  /** Every name that has to be written as it is can be read to its closing quote. */
  ghost predicate Writable(ts: seq<Table>) {
    Formatted(ts) && NamesWritable(ts, false)
  }

  lemma {:induction false} SavedLexes(ts: seq<Table>, now: Stamp)
    requires AllTablesShaped(ts) && Writable(ts)
    ensures IsLayout(SaveDoc(ts, now), DatabaseTree(ts, now))
    ensures forall ps | IsLayout(ps, DatabaseTree(ts, now)) :: PiecesOk(ps)
  {
    TreeIsWritten(ts, now, false);
    hide SaveDoc, DatabaseTree, WellKeyed, Emit, Toks, Formatted, NamesWritable, Shaped, PiecesOk;
    SaveEmit(ts, now, End);
    forall ps | IsLayout(ps, DatabaseTree(ts, now)) ensures PiecesOk(ps) {
      WrittenPiecesOk(ps, DatabaseTree(ts, now), false);
    }
  }

  /**
   * Every layout of a saved database loads, and gives the database with each table's records in
   * opposite order, and each name and value as it is read back.
   */
  lemma {:induction false} AnyLayoutLoads(ts: seq<Table>, saved: Stamp, now: Stamp)
    requires Savable(ts) && Writable(ts)
    ensures AllTablesShaped(ts)
    ensures forall ps | IsLayout(ps, DatabaseTree(ts, saved)) :: LoadText(Text(ps), now) == Reloaded(ts, now)
  {
    hide Toks, Emit, DatabaseTree, SaveDoc, Load, StreamOf, Writable, Reloaded, PiecesOk;
    SavableIsShaped(ts);
    SavedLexes(ts, saved);
    LoadTree(ts, saved, now, End);
    assert StreamOf("") == End by { EmptyStream(); }
    forall ps | IsLayout(ps, DatabaseTree(ts, saved))
      ensures LoadText(Text(ps), now) == Reloaded(ts, now)
    {
      LexLayout(ps, DatabaseTree(ts, saved), "");
      assert Text(ps) + "" == Text(ps);
    }
  }

  /** A text in which tables are written flat or nested, however it is spaced, loads to the catalogue its schemas mean. */
  lemma {:induction false} CatalogTextLoads(ws: seq<Written>, ps: seq<Piece>, now: Stamp)
    requires forall i | 0 <= i < |ws| :: NoSchemaKey(ws[i].schema)
    requires IsLayout(ps, CatalogJson(ws)) && PiecesOk(ps)
    ensures LoadText(Text(ps), now)
         == var c := CatalogOf([], Schemas(ws)); if c.Good? then Some(c.value) else None
  {
    hide Toks, Emit, Load, StreamOf, CatalogJson, PiecesOk;
    LayoutsAgree(ws, now);
    LexLayout(ps, CatalogJson(ws), "");
    assert Text(ps) + "" == Text(ps);
    assert StreamOf("") == End by { EmptyStream(); }
  }

  /** Two texts that differ only in white space and in which of their tables are nested load alike. */
  lemma {:induction false} LayoutOfTextDoesNotMatter(ws: seq<Written>, ps: seq<Piece>, vs: seq<Written>, qs: seq<Piece>, now: Stamp)
    requires forall i | 0 <= i < |ws| :: NoSchemaKey(ws[i].schema)
    requires forall i | 0 <= i < |vs| :: NoSchemaKey(vs[i].schema)
    requires Schemas(ws) == Schemas(vs)
    requires IsLayout(ps, CatalogJson(ws)) && PiecesOk(ps) && IsLayout(qs, CatalogJson(vs)) && PiecesOk(qs)
    ensures LoadText(Text(ps), now) == LoadText(Text(qs), now)
  {
    CatalogTextLoads(ws, ps, now);
    CatalogTextLoads(vs, qs, now);
    hide LoadText, CatalogOf, CatalogJson, IsLayout;
  }

  lemma {:induction false} EmptyStream()
    ensures StreamOf("") == End
  {
  }

  /**
   * The whole-database round trip. Loading what saving writes, loading that text minified, and loading it
   * pretty-printed with any indent all give the same: the reloaded tables, or nothing, if two of them come back under
   * one name.
   */
  lemma {:induction false} SaveLoadRoundTrip(ts: seq<Table>, saved: Stamp, now: Stamp, indent: int)
    requires Savable(ts) && Writable(ts)
    ensures AllTablesShaped(ts)
    ensures LoadText(SaveText(ts, saved), now) == Reloaded(ts, now)
    ensures LoadText(Minify(START, SaveText(ts, saved)), now) == Reloaded(ts, now)
    ensures LoadText(Full(indent, SaveText(ts, saved)), now) == Reloaded(ts, now)
  {
    hide Emit, Toks, DatabaseTree, SaveDoc, Load, StreamOf, Minify, PrettyFrom, Writable, Reloaded, PiecesOk;
    SavableIsShaped(ts);
    SavedLexes(ts, saved);
    AnyLayoutLoads(ts, saved, now);
    assert LoadText(Text(SaveDoc(ts, saved)), now) == Reloaded(ts, now);
    MinifyLayout(SaveDoc(ts, saved), DatabaseTree(ts, saved));
    PrettyStream(0, indent, SaveText(ts, saved));
  }
}
