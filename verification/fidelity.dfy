/** Exactly which data survives a round trip, and what a second round trip restores. */
module Fidelity {
  import opened Chars
  import opened Lexer
  import opened Json
  import opened Escaping
  import opened Decimal
  import opened Schema
  import opened Save
  import opened Loader
  import opened RoundTrip
  import opened Durability
  import opened Unwritable

  // ---- tables of INT, STRING and BOOL columns ----

  predicate PlainType(ty: FieldType) {
    ty == TInt || ty == TString || ty == TBool
  }

  /** A field holds a value of its column's type; a stored string fits the field buffer. */
  predicate TypedField(c: Column, f: Field) {
    && f.ty == c.ty
    && (c.ty == TInt ==> f.value.IntV?)
    && (c.ty == TBool ==> f.value.BoolV?)
    && (c.ty == TString ==> f.value.StrV? && |f.value.s| < MAX_FIELD_LEN)
  }

  predicate TypedRecord(cs: seq<Column>, r: Record) {
    && |r.fields| == |cs| > 0
    && r.fields[0].value == IntV(r.id)
    && forall i | 0 <= i < |cs| :: TypedField(cs[i], r.fields[i])
  }

  /** A name that fits, and columns as `db_add_table` makes them, the first one an INT that holds the record's id. */
  predicate TypedTable(t: Table) {
    && |t.name| < MAX_TABLE_NAME
    && |t.columns| > 0 && t.columns[0].ty == TInt
    && (forall i | 0 <= i < |t.columns| :: PlainType(t.columns[i].ty))
    && (forall i | 0 <= i < |t.columns| ::
          t.columns[i] == Column(t.columns[i].name, t.columns[i].ty, i == 0, false, true))
    && (forall i | 0 <= i < |t.records| :: TypedRecord(t.columns, t.records[i]))
  }

  predicate Typed(ts: seq<Table>) {
    forall i | 0 <= i < |ts| :: TypedTable(ts[i])
  }

  // ---- the strings that survive ----

  ghost predicate SurvivingValue(v: Value) {
    v.StrV? ==> Plain(v.s) || FullOfBackslashes(v.s, MAX_FIELD_LEN - 1)
  }

  /** The last of the first `n` columns with the name, or -1. */
  function LastNamed(cs: seq<Column>, name: string, n: nat): (k: int)
    requires n <= |cs|
    ensures -1 <= k < n && (k != -1 ==> cs[k].name == name)
    ensures forall i | k < i < n :: cs[i].name != name
  {
    if n == 0 then -1 else if cs[n - 1].name == name then n - 1 else LastNamed(cs, name, n - 1)
  }

  /**
   * The key column always holds its value again. A column whose name an earlier one has is left at zero; the first of
   * several with one name gets the value of the last; a column with a name of its own gets its own value, escaped.
   */
  ghost predicate SurvivingField(cs: seq<Column>, fs: seq<Field>, i: nat)
    requires i < |cs| == |fs|
  {
    var last := LastNamed(cs, cs[i].name, |cs|);
    || i == 0
    || if Shadowed(cs, i) then fs[i].value == Zero(cs[i].ty)
       else if last == i then SurvivingValue(fs[i].value)
       else fs[i].value == ReloadValue(cs[i].ty, fs[last])
  }

  ghost predicate SurvivingRecord(cs: seq<Column>, r: Record)
    requires |cs| == |r.fields|
  {
    forall i | 0 <= i < |cs| :: SurvivingField(cs, r.fields, i)
  }

  ghost predicate SurvivingTable(t: Table) {
    forall i | 0 <= i < |t.records| :: |t.columns| == |t.records[i].fields| && SurvivingRecord(t.columns, t.records[i])
  }

  predicate SameData(r: Record, q: Record) {
    r.id == q.id && r.fields == q.fields
  }

  /** The same table, with its records in opposite order. */
  predicate Reversed(t: Table, u: Table) {
    && u.name == t.name && u.columns == t.columns && |u.records| == |t.records|
    && forall i | 0 <= i < |t.records| :: SameData(t.records[i], u.records[|t.records| - 1 - i])
  }

  predicate SameTable(t: Table, u: Table) {
    && u.name == t.name && u.columns == t.columns && |u.records| == |t.records|
    && forall i | 0 <= i < |t.records| :: SameData(t.records[i], u.records[i])
  }

  lemma {:induction false} PlainTypeNamed(ty: FieldType)
    requires PlainType(ty)
    ensures TypeOf(TypeName(ty)) == ty
  {
    assert ty == TString ==> |"STRING"| == 6 && |"INTEGER"| == 7 && |"INT"| == 3 && |"FLOAT"| == 5;
    assert ty == TBool ==> |"BOOL"| == 4 && |"BLOB"| == 4 && |"BOOLEAN"| == 7;
  }

  /** A column type is read back as itself exactly when it is neither DOUBLE nor NULL. */
  lemma {:induction false} TypeComesBack(ty: FieldType)
    ensures TypeOf(TypeName(ty)) == ty <==> ty != TDouble && ty != TNull
  {
    var s := TypeName(ty);
    assert |"INTEGER"| == 7 && |"INT"| == 3 && |"FLOAT"| == 5 && |"STRING"| == 6 && |"BOOLEAN"| == 7 && |"BOOL"| == 4
        && |"DATETIME"| == 8 && |"BLOB"| == 4 && |"DOUBLE"| == 6 && |"NULL"| == 4 && |"UNKNOWN"| == 7;
    forall a, b | |a| == |b| && a != "" && Upper(a[0]) != Upper(b[0]) ensures !SameName(a, b) {
    }
    assert ty == TBlob ==> "BLOB"[1] != "BOOL"[1];
  }

  /** DOUBLE is written but not read back: its name is not among those the loader knows. */
  lemma {:induction false} DoubleIsLost()
    ensures TypeOf(TypeName(TDouble)) == TUnknown
  {
    var s := "DOUBLE";
    assert |s| == 6 && |"STRING"| == 6;
    assert Upper(s[0]) == 'D' && Upper("STRING"[0]) == 'S';
  }

  // ---- the names that survive ----

  ghost predicate NameSurvives(name: string) {
    Plain(name) || FullOfBackslashes(name, NAME_ROOM)
  }

  /** The table's own name, and the names of all columns. */
  ghost predicate NamesSurvive(t: Table) {
    NameSurvives(t.name) && forall i | 0 <= i < |t.columns| :: Plain(t.columns[i].name)
  }

  /** A table name, as it fits its buffer, comes back exactly when it survives. */
  lemma {:induction false} NameComesBack(name: string)
    requires |name| < MAX_TABLE_NAME
    ensures ReloadName(name) == name <==> NameSurvives(name)
  {
    SurvivesExactly(name, NAME_ROOM);
  }

  // ---- fields ----

  /** The value a written field is read back as, by a column of type `ty`. */
  function ReloadValue(ty: FieldType, f: Field): (v: Value) {
    if f.ty == TNull then Zero(ty) else ValueOf(ty, FieldToken(f))
  }

  /** What column `i` holds when `n` values are read. */
  function Landed(cs: seq<Column>, fs: seq<Field>, i: nat, n: nat): (v: Value)
    requires i < |cs| == |fs| && n <= |cs|
  {
    var ty := TypeOf(TypeName(cs[i].ty));
    var last := LastNamed(cs, cs[i].name, n);
    if Shadowed(cs, i) || last == -1 then Zero(ty) else ReloadValue(ty, fs[last])
  }

  /** Under plain names every value goes to the first column of its name. */
  lemma {:induction false} FieldsLand(cs: seq<Column>, fs: seq<Field>, n: nat, i: nat)
    requires n <= |cs| == |fs| && i < |cs| && forall j | 0 <= j < |cs| :: Plain(cs[j].name)
    ensures ReadFields(cs, fs, n)[i].value == Landed(cs, fs, i, n)
    decreases n
  {
    hide FieldToken, ParseField, ReloadValue, Zero, TypeOf, TypeName, Escape, Plain, ReloadColumns;
    var ds := ReloadColumns(cs);
    if n > 0 {
      FieldsLand(cs, fs, n - 1, i);
      ReloadedNames(cs);
      var k := ColumnIndex(ds, cs[n - 1].name);
      if i == k {
        ParsedValue(ds[k], fs[n - 1], ReadFields(cs, fs, n - 1)[k]);
        assert !Shadowed(cs, i) && LastNamed(cs, cs[i].name, n) == n - 1;
      } else if cs[i].name == cs[n - 1].name {
        assert Shadowed(cs, i);
      }
    }
  }

  lemma {:induction false} ReloadedNames(cs: seq<Column>)
    requires forall i | 0 <= i < |cs| :: Plain(cs[i].name)
    ensures forall i | 0 <= i < |cs| :: ReloadColumns(cs)[i].name == cs[i].name
    ensures forall i | 0 <= i < |cs| :: ReloadColumns(cs)[i].ty == TypeOf(TypeName(cs[i].ty))
  {
    hide TypeOf, TypeName, Escape, Plain;
    forall i | 0 <= i < |cs| ensures ReloadColumns(cs)[i].name == cs[i].name {
      EscapeIdentity(cs[i].name);
    }
  }

  lemma {:induction false} ParsedValue(c: Column, f: Field, blank: Field)
    ensures ParseField(c, FieldToken(f), blank).value == ReloadValue(c.ty, f)
  {
    NullToken(f);
    hide FieldToken, ValueOf, Zero;
  }

  lemma {:induction false} NullToken(f: Field)
    ensures FieldToken(f) == Null <==> f.ty == TNull
  {
  }

  lemma {:induction false} StringReloads(s: string)
    ensures ReloadValue(TString, Field(TString, StrV(s))) == StrV(Reload(s, MAX_FIELD_LEN - 1))
  {
    hide Escape;
  }

  /** A field of a plain type, read back by a column of its own type, is the same exactly when it survives. */
  lemma {:induction false} OwnValue(c: Column, f: Field)
    requires PlainType(c.ty) && TypedField(c, f)
    ensures ReloadValue(c.ty, f) == f.value <==> SurvivingValue(f.value)
  {
    hide TypeOf, TypeName, Escape, IntText, Atoi, FullOfBackslashes, Plain;
    if c.ty == TInt {
      AtoiOfIntText(f.value.i);
    } else if c.ty == TString {
      StringReloads(f.value.s);
      SurvivesExactly(f.value.s, MAX_FIELD_LEN - 1);
    }
  }

  /** One field comes back unchanged exactly when it survives, whatever names the columns share. */
  lemma {:induction false} FieldSurvives(cs: seq<Column>, r: Record, i: nat)
    requires TypedRecord(cs, r) && i < |cs| && PlainType(cs[i].ty)
    requires forall j | 0 <= j < |cs| :: Plain(cs[j].name)
    ensures ReloadField(cs, r, i) == r.fields[i] <==> SurvivingField(cs, r.fields, i)
  {
    var f := r.fields[i];
    assert TypedField(cs[i], f);
    PlainTypeNamed(cs[i].ty);
    FieldsLand(cs, r.fields, |cs|, i);
    OwnValue(cs[i], f);
    hide TypeOf, TypeName, SurvivingValue, ReloadValue, Plain, ReadFields, Zero, Shadowed;
    assert LastNamed(cs, cs[i].name, |cs|) != -1;
  }

  const SHARED_NAME := [Column("id", TInt, true, false, true), Column("a", TString, false, false, true),
                        Column("a", TString, false, false, true)]
  const TWO_TEXTS := Record(1, [Field(TInt, IntV(1)), Field(TString, StrV("x")), Field(TString, StrV("y"))], "", 1)

  /** Two columns of one name: the first comes back with the second one's text, the second one empty. */
  lemma {:induction false} SharedNameLoses()
    ensures TypedRecord(SHARED_NAME, TWO_TEXTS)
    ensures ReloadField(SHARED_NAME, TWO_TEXTS, 1).value == StrV("y") && ReloadField(SHARED_NAME, TWO_TEXTS, 2).value == StrV("")
  {
    SharedNameLands();
    hide ReadFields, ReloadField, ReloadValue, Escape, TypeOf, TypeName, Shadowed;
    TextsLand(SHARED_NAME, TWO_TEXTS, "y");
  }

  lemma {:induction false} TextsLand(cs: seq<Column>, r: Record, y: string)
    requires |cs| == |r.fields| == 3 && forall j | 0 <= j < |cs| :: Plain(cs[j].name)
    requires !Shadowed(cs, 1) && Shadowed(cs, 2) && LastNamed(cs, cs[1].name, 3) == 2 && cs[1].ty == cs[2].ty == TString
    requires r.fields[2] == Field(TString, StrV(y)) && Plain(y) && |y| < MAX_FIELD_LEN
    ensures ReloadField(cs, r, 1).value == StrV(y) && ReloadField(cs, r, 2).value == StrV("")
  {
    PlainTypeNamed(TString);
    StringReloads(y);
    EscapeIdentity(y);
    hide ReadFields, ReloadField, ReloadValue, Escape, TypeOf, TypeName, Plain, Shadowed, LastNamed;
    FieldLands(cs, r, 1);
    FieldLands(cs, r, 2);
  }

  lemma {:induction false} FieldLands(cs: seq<Column>, r: Record, i: nat)
    requires 0 < i < |cs| == |r.fields| && forall j | 0 <= j < |cs| :: Plain(cs[j].name)
    ensures ReloadField(cs, r, i).value == Landed(cs, r.fields, i, |cs|)
  {
    hide ReadFields, Landed, TypeOf, TypeName, Plain;
    FieldsLand(cs, r.fields, |cs|, i);
  }

  lemma {:induction false} SharedNameLands()
    ensures LastNamed(SHARED_NAME, "a", 3) == 2 && !Shadowed(SHARED_NAME, 1) && Shadowed(SHARED_NAME, 2)
    ensures forall i | 0 <= i < 3 :: Plain(SHARED_NAME[i].name)
  {
    assert SHARED_NAME[1].name == SHARED_NAME[2].name;
  }

  lemma {:induction false} RecordSurvives(cs: seq<Column>, r: Record, now: Stamp)
    requires TypedRecord(cs, r) && cs[0].ty == TInt && forall i | 0 <= i < |cs| :: PlainType(cs[i].ty)
    requires forall j | 0 <= j < |cs| :: Plain(cs[j].name)
    ensures SameData(r, ReloadRecord(cs, r, now)) <==> SurvivingRecord(cs, r)
  {
    hide ReloadField, SurvivingField, Plain;
    var q := ReloadRecord(cs, r, now);
    forall i | 0 <= i < |cs| ensures q.fields[i] == r.fields[i] <==> SurvivingField(cs, r.fields, i) {
      FieldSurvives(cs, r, i);
    }
    assert q.fields == r.fields <==> forall i | 0 <= i < |cs| :: q.fields[i] == r.fields[i];
  }

  /** All columns come back as they were exactly when their names are plain. */
  lemma {:induction false} ColumnsKept(t: Table)
    requires TypedTable(t)
    ensures ReloadColumns(t.columns) == t.columns <==> forall i | 0 <= i < |t.columns| :: Plain(t.columns[i].name)
  {
    hide TypeOf, TypeName, Escape, Plain;
    forall i | 0 <= i < |t.columns| ensures ReloadColumn(t.columns[i], i) == t.columns[i] <==> Plain(t.columns[i].name) {
      PlainTypeNamed(t.columns[i].ty);
      EscapeIdentity(t.columns[i].name);
    }
    var ds := ReloadColumns(t.columns);
    assert ds == t.columns <==> forall i | 0 <= i < |t.columns| :: ds[i] == t.columns[i];
  }

  lemma {:induction false} TypedIsShaped(t: Table)
    requires TypedTable(t)
    ensures Shaped(t)
  {
  }

  /** Row `i` is kept, at its mirrored place, exactly when it survives. */
  ghost predicate RowKept(t: Table, u: Table, i: nat) {
    && i < |t.records| == |u.records| && |t.columns| == |t.records[i].fields|
    && (SameData(t.records[i], u.records[|t.records| - 1 - i]) <==> SurvivingRecord(t.columns, t.records[i]))
  }

  lemma {:induction false} RowsDecide(t: Table, u: Table)
    requires u.name == t.name && u.columns == t.columns && |u.records| == |t.records|
    requires forall i | 0 <= i < |t.records| :: RowKept(t, u, i)
    ensures Reversed(t, u) <==> SurvivingTable(t)
  {
    hide SameData, SurvivingRecord;
    forall i | 0 <= i < |t.records|
      ensures |t.columns| == |t.records[i].fields|
      ensures SameData(t.records[i], u.records[|t.records| - 1 - i]) <==> SurvivingRecord(t.columns, t.records[i])
    {
      assert RowKept(t, u, i);
    }
  }

  lemma {:induction false} RowSurvives(t: Table, i: nat, now: Stamp)
    requires TypedTable(t) && Shaped(t) && i < |t.records| && NamesSurvive(t)
    ensures RowKept(t, ReloadTable(t, now), i)
  {
    hide ReloadRecord, ReloadRecords, SurvivingRecord, SameData, TypedRecord, PlainType, ReloadName, NameSurvives, Plain;
    RecordSurvives(t.columns, t.records[i], now);
    ReloadAt(t.columns, t.records, now, |t.records| - 1 - i);
  }

  lemma {:induction false} TableKept(t: Table, now: Stamp)
    requires TypedTable(t) && Shaped(t)
    ensures var u := ReloadTable(t, now);
            && |u.records| == |t.records|
            && (u.name == t.name && u.columns == t.columns <==> NamesSurvive(t))
  {
    ColumnsKept(t);
    NameComesBack(t.name);
    hide TypedTable, ReloadColumns, ReloadName, NameSurvives, Plain;
  }

  /** A table comes back as itself, in opposite order, exactly when its names and all its strings survive. */
  lemma {:induction false} TableSurvives(t: Table, now: Stamp)
    requires TypedTable(t)
    ensures Shaped(t)
    ensures Reversed(t, ReloadTable(t, now)) <==> NamesSurvive(t) && SurvivingTable(t)
  {
    TypedIsShaped(t);
    TableKept(t, now);
    var u := ReloadTable(t, now);
    assert Reversed(t, u) ==> u.name == t.name && u.columns == t.columns;
    hide ReloadTable, TypedTable, SurvivingRecord, SameData, Shaped, Reversed, SurvivingTable, NamesSurvive;
    if NamesSurvive(t) {
      forall i | 0 <= i < |t.records| ensures RowKept(t, u, i) {
        RowSurvives(t, i, now);
      }
      RowsDecide(t, u);
    }
  }

  lemma {:induction false} TypedIsFormatted(ts: seq<Table>)
    requires Typed(ts)
    ensures Formatted(ts)
  {
    forall i, j, k | 0 <= i < |ts| && 0 <= j < |ts[i].records| && 0 <= k < |ts[i].records[j].fields|
      ensures FormattedField(ts[i].records[j].fields[k])
    {
      assert TypedTable(ts[i]) && TypedRecord(ts[i].columns, ts[i].records[j]);
      assert TypedField(ts[i].columns[k], ts[i].records[j].fields[k]);
    }
  }

  /** What has to hold of a database for it to come back. */
  ghost predicate Surviving(ts: seq<Table>) {
    DistinctTables(ts) && forall i | 0 <= i < |ts| :: NamesSurvive(ts[i]) && SurvivingTable(ts[i])
  }

  /** The text loads, and gives the database, each table in opposite record order. */
  ghost predicate ComesBack(ts: seq<Table>, r: Option<seq<Table>>) {
    r.Some? && AllReversed(ts, r.value)
  }

  /** A name that cannot be read to its closing quote neither survives nor comes back. */
  lemma {:induction false} UnreadableIsLost(t: Table)
    requires TypedTable(t) && Unreadable(t)
    ensures !NamesSurvive(t) && ReloadColumns(t.columns) != t.columns
  {
    ColumnsKept(t);
    hide Plain, TypedTable, ReloadColumns;
    var i :| 0 <= i < |t.columns| && !KeyOk(t.columns[i].name, false);
    if Plain(t.columns[i].name) {
      PlainIsBody(t.columns[i].name);
      BodyIsKey(t.columns[i].name, false);
      assert false;
    }
  }

  lemma {:induction false} UnreadableFails(ts: seq<Table>, saved: Stamp, now: Stamp)
    requires Savable(ts) && Typed(ts) && !NamesWritable(ts, false)
    ensures AllTablesShaped(ts)
    ensures !Surviving(ts) && !ComesBack(ts, LoadText(SaveText(ts, saved), now))
  {
    hide LoadText, SaveText, SavableTable, TypedTable, Formatted, NamesWritable, Shaped, NamesSurvive, Unreadable, ReloadColumns;
    TypedIsFormatted(ts);
    var i := UnreadableNames(ts, saved, now);
    UnreadableIsLost(ts[i]);
  }

  /**
   * The round trip keeps a database of INT, STRING and BOOL columns, each table in opposite record order, if and only if
   * its tables' names are distinct, every name survives, and every field. What is loaded is known unless a name cannot
   * be read to its closing quote.
   */
  lemma {:induction false} RoundTripExactly(ts: seq<Table>, saved: Stamp, now: Stamp)
    requires Savable(ts) && Typed(ts)
    ensures AllTablesShaped(ts)
    ensures NamesWritable(ts, false) ==> LoadText(SaveText(ts, saved), now) == Reloaded(ts, now)
    ensures ComesBack(ts, LoadText(SaveText(ts, saved), now)) <==> Surviving(ts)
  {
    hide SavableTable, LoadText, SaveText, Reversed, SurvivingTable, TypedTable, Formatted, NamesWritable, Shaped, ReloadTable,
         ReloadName, NamesSurvive;
    if NamesWritable(ts, false) {
      TypedIsFormatted(ts);
      SaveLoadRoundTrip(ts, saved, now, 0);
      ReloadedReverses(ts, now);
    } else {
      UnreadableFails(ts, saved, now);
    }
  }

  lemma {:induction false} ReloadedReverses(ts: seq<Table>, now: Stamp)
    requires Typed(ts)
    ensures AllTablesShaped(ts)
    ensures ComesBack(ts, Reloaded(ts, now)) <==> Surviving(ts)
  {
    hide Reversed, SurvivingTable, TypedTable, Shaped, ReloadTable, ReloadName, NamesSurvive, NamesStayApart;
    forall i | 0 <= i < |ts| ensures Shaped(ts[i]) {
      TypedIsShaped(ts[i]);
    }
    var us := ReloadTables(ts, now);
    forall i | 0 <= i < |ts| ensures Reversed(ts[i], us[i]) <==> NamesSurvive(ts[i]) && SurvivingTable(ts[i]) {
      TableSurvives(ts[i], now);
    }
    if Surviving(ts) {
      SurvivingNamesStayApart(ts);
    }
    if NamesStayApart(ts) {
      ApartIsDistinct(ts);
    }
  }

  lemma {:induction false} ApartIsDistinct(ts: seq<Table>)
    requires NamesStayApart(ts)
    ensures DistinctTables(ts)
  {
    hide ReloadName;
  }

  predicate AllReversed(ts: seq<Table>, us: seq<Table>) {
    |us| == |ts| && forall i | 0 <= i < |ts| :: Reversed(ts[i], us[i])
  }

  /** Names that survive are as distinct when they come back as they were. */
  lemma {:induction false} SurvivingNamesStayApart(ts: seq<Table>)
    requires Typed(ts) && DistinctTables(ts) && forall i | 0 <= i < |ts| :: NamesSurvive(ts[i])
    ensures NamesStayApart(ts)
  {
    hide ReloadName, NameSurvives;
    forall i | 0 <= i < |ts| ensures ReloadName(ts[i].name) == ts[i].name {
      assert TypedTable(ts[i]);
      NameComesBack(ts[i].name);
    }
  }

  /** Two names that differ and come back as one: their last characters escape to two, of which the first is the same. */
  lemma {:induction false} NamesCanMeet()
    ensures var a, b := Spaces(NAME_ROOM - 1) + "\"", Spaces(NAME_ROOM - 1) + "\\";
            a != b && |a| == |b| == NAME_ROOM && ReloadName(a) == ReloadName(b)
  {
    var w := Spaces(NAME_ROOM - 1);
    var a, b := w + "\"", w + "\\";
    assert a[NAME_ROOM - 1] != b[NAME_ROOM - 1];
    EscapeIdentity(w);
    EscapePlus(w, "\"");
    EscapePlus(w, "\\");
    assert Escape("\"") == "\\\"" && Escape("\\") == "\\\\" by {
      assert "\""[1..] == "" && "\\"[1..] == "";
    }
    hide Escape;
    assert (w + "\\\"")[..NAME_ROOM] == w + "\\" == (w + "\\\\")[..NAME_ROOM];
  }

  // ---- the second cycle ----

  lemma {:induction false} ReversedRow(t: Table, u: Table, i: nat)
    requires Reversed(t, u) && i < |t.records|
    ensures SameData(t.records[|t.records| - 1 - i], u.records[i])
  {
    var k := |t.records| - 1 - i;
    assert SameData(t.records[k], u.records[|t.records| - 1 - k]);
  }

  lemma {:induction false} ReversedTyped(t: Table, u: Table)
    requires TypedTable(t) && Reversed(t, u)
    ensures TypedTable(u)
  {
    hide PlainType, TypedField;
    forall i | 0 <= i < |u.records| ensures TypedRecord(u.columns, u.records[i]) {
      ReversedRow(t, u, i);
      assert TypedRecord(t.columns, t.records[|t.records| - 1 - i]);
    }
  }

  lemma {:induction false} ReversedIds(t: Table, u: Table)
    requires SavableRecords(t.columns, t.records) && Reversed(t, u)
    ensures SavableRecords(u.columns, u.records)
  {
    var n := |t.records|;
    forall i | 0 <= i < n
      ensures u.records[i].id == t.records[n - 1 - i].id && u.records[i].fields == t.records[n - 1 - i].fields
    {
      ReversedRow(t, u, i);
    }
  }

  lemma {:induction false} ReversedSavable(t: Table, u: Table)
    requires SavableTable(t) && TypedTable(t) && Reversed(t, u)
    ensures SavableTable(u) && TypedTable(u)
  {
    ReversedTyped(t, u);
    ReversedIds(t, u);
    hide SavableRecords, TypedTable;
  }

  lemma {:induction false} SameSurvives(cs: seq<Column>, r: Record, q: Record)
    requires |cs| == |r.fields| && r.fields == q.fields && SurvivingRecord(cs, r)
    ensures SurvivingRecord(cs, q)
  {
    hide SurvivingField;
  }

  lemma {:induction false} ReversedSurviving(t: Table, u: Table)
    requires Reversed(t, u) && SurvivingTable(t)
    ensures SurvivingTable(u)
  {
    hide SurvivingRecord;
    var n := |t.records|;
    forall i | 0 <= i < n ensures |u.columns| == |u.records[i].fields| && SurvivingRecord(u.columns, u.records[i]) {
      assert SameData(t.records[n - 1 - i], u.records[n - 1 - (n - 1 - i)]);
      SameSurvives(t.columns, t.records[n - 1 - i], u.records[i]);
    }
  }

  lemma {:induction false} ReversedTwice(t: Table, u: Table, v: Table)
    requires Reversed(t, u) && Reversed(u, v)
    ensures SameTable(t, v)
  {
    var n := |t.records|;
    forall i | 0 <= i < n ensures SameData(t.records[i], v.records[i]) {
      assert SameData(t.records[i], u.records[n - 1 - i]);
      assert SameData(u.records[n - 1 - i], v.records[n - 1 - (n - 1 - i)]);
    }
  }

  lemma {:induction false} ReversedNames(t: Table, u: Table)
    requires Reversed(t, u)
    ensures u.name == t.name && (NamesSurvive(t) ==> NamesSurvive(u))
  {
  }

  /** A database that survives comes back as one that survives again. */
  lemma {:induction false} OneCycle(ts: seq<Table>, saved: Stamp, now: Stamp)
    requires Savable(ts) && Typed(ts) && Surviving(ts)
    ensures AllTablesShaped(ts)
    ensures var us := ReloadTables(ts, now);
            && LoadText(SaveText(ts, saved), now) == Some(us) && AllReversed(ts, us)
            && Savable(us) && Typed(us) && Surviving(us)
  {
    hide SavableTable, LoadText, SaveText, Reversed, SurvivingTable, TypedTable, Shaped, ReloadTable, NamesSurvive,
         NamesWritable, ReloadName, NamesStayApart;
    if !NamesWritable(ts, false) {
      UnreadableFails(ts, saved, now);
      assert false;
    }
    RoundTripExactly(ts, saved, now);
    SurvivingNamesStayApart(ts);
    var us := ReloadTables(ts, now);
    forall i | 0 <= i < |us|
      ensures SavableTable(us[i]) && TypedTable(us[i]) && SurvivingTable(us[i]) && NamesSurvive(us[i])
      ensures us[i].name == ts[i].name && Reversed(ts[i], us[i])
    {
      TableSurvives(ts[i], now);
      ReversedSavable(ts[i], us[i]);
      ReversedSurviving(ts[i], us[i]);
      ReversedNames(ts[i], us[i]);
    }
  }

  /** Saving and loading twice gives the same tables, with their records in the original order. */
  lemma {:induction false} TwoCyclesRestore(ts: seq<Table>, saved: Stamp, now: Stamp, savedAgain: Stamp, later: Stamp)
    requires Savable(ts) && Typed(ts) && Surviving(ts)
    ensures AllTablesShaped(ts)
    ensures var us := ReloadTables(ts, now);
            && LoadText(SaveText(ts, saved), now) == Some(us)
            && AllTablesShaped(us)
            && var vs := ReloadTables(us, later);
            && LoadText(SaveText(us, savedAgain), later) == Some(vs)
            && |vs| == |ts| && forall i | 0 <= i < |ts| :: SameTable(ts[i], vs[i])
  {
    hide SavableTable, LoadText, SaveText, Reversed, TypedTable, Shaped, ReloadTable, SameTable, Surviving;
    OneCycle(ts, saved, now);
    var us := ReloadTables(ts, now);
    OneCycle(us, savedAgain, later);
    var vs := ReloadTables(us, later);
    forall i | 0 <= i < |ts| ensures SameTable(ts[i], vs[i]) {
      ReversedTwice(ts[i], us[i], vs[i]);
    }
  }
}
