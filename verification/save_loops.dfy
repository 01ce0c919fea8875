/** The serializer's methods: each appends exactly the pieces its specification lists. */
module SaveLoops {
  import opened Lexer
  import opened TokenStream
  import opened Layout
  import opened Json
  import opened Decimal
  import opened Escaping
  import opened Schema
  import opened Serializer
  import opened Save

  function KeyText(name: string): (s: string) {
    "\"" + name + "\": "
  }

  lemma {:induction false} PairText(p: Piece, q: Piece)
    ensures Text([p, q]) == PieceText(p) + PieceText(q)
  {
    assert [p, q][1..] == [q] && [q][1..] == [];
    assert Text([q]) == PieceText(q) + Text([]);
    assert PieceText(q) + "" == PieceText(q);
  }

  lemma {:induction false} KeyTextIs(name: string)
    ensures Text(Key(name)) == KeyText(name)
  {
    assert Key(name)[1..] == [Tok(Colon), Ws(" ")];
    PairText(Tok(Colon), Ws(" "));
    assert ": " == ":" + " ";
  }

  lemma {:induction false} TextRules()
    ensures Text(OPEN) == "{\n" && Text(OPEN_ARRAY) == "[\n" && Text(COMMA) == ",\n" && Text(BREAK) == "\n" && Text([]) == ""
    ensures Text([Tok(Comma), Ws(" ")]) == ", "
    ensures forall t {:trigger Text([Tok(t)])} :: Text([Tok(t)]) == Lexeme(t)
    ensures forall name {:trigger Text(Key(name))} :: Text(Key(name)) == KeyText(name)
  {
    PairText(Tok(ObjectStart), Ws("\n"));
    PairText(Tok(ArrayStart), Ws("\n"));
    PairText(Tok(Comma), Ws("\n"));
    PairText(Tok(Comma), Ws(" "));
    WsText("\n");
    assert "{\n" == "{" + "\n" && "[\n" == "[" + "\n" && ",\n" == "," + "\n" && ", " == "," + " ";
    forall t ensures Text([Tok(t)]) == Lexeme(t) {
      TokText(t);
    }
    forall name ensures Text(Key(name)) == KeyText(name) {
      KeyTextIs(name);
    }
  }

  lemma {:induction false} Regroup(a: Doc, b: Doc, c: Doc)
    ensures a + (b + c) == a + b + c
  {
  }

  /** A fresh line with `text` on it. */
  method PutLine(st: SerializeState, text: string, ghost ps: Doc)
    requires st.Valid() && st.pretty && text == Text(ps)
    modifies st`buffer, st`size, st`pieces, st.buffer
    ensures st.Valid() && (st.buffer == old(st.buffer) || fresh(st.buffer))
    ensures st.pieces == Line(old(st.pieces), st.indentLevel, ps)
  {
    hide Text;
    st.Indent();
    st.Append(text, ps);
  }

  /** A fresh line with a key, its colon, and `tail` in one append. */
  method PutKey(st: SerializeState, name: string, tail: string, ghost ps: Doc)
    requires st.Valid() && st.pretty && tail == Text(ps)
    modifies st`buffer, st`size, st`pieces, st.buffer
    ensures st.Valid() && (st.buffer == old(st.buffer) || fresh(st.buffer))
    ensures st.pieces == Line(old(st.pieces), st.indentLevel, Key(name)) + ps
  {
    KeyTextIs(name);
    TextPlus(Key(name), ps);
    hide SerializeState.Valid, Text, Key, KeyText;
    st.Indent();
    Regroup(st.pieces, Key(name), ps);
    st.Append(KeyText(name) + tail, Key(name) + ps);
  }

  /** A line with a key, the lexeme of a value, and what follows it. */
  method PutValue(st: SerializeState, name: string, value: string, ghost t: Token, tail: string, ghost ps: Doc)
    requires st.Valid() && st.pretty && value == Lexeme(t) && tail == Text(ps)
    modifies st`buffer, st`size, st`pieces, st.buffer
    ensures st.Valid() && (st.buffer == old(st.buffer) || fresh(st.buffer))
    ensures st.pieces == Line(old(st.pieces), st.indentLevel, Key(name)) + [Tok(t)] + ps
  {
    KeyTextIs(name);
    TokText(t);
    hide SerializeState.Valid, Text, Key, KeyText, Line, Lexeme;
    PutLine(st, KeyText(name), Key(name));
    st.Append(value, [Tok(t)]);
    st.Append(tail, ps);
  }

  /** A line with a key, a string value that is escaped, and what follows it. */
  method PutString(st: SerializeState, name: string, value: string, tail: string, ghost ps: Doc)
    requires st.Valid() && st.pretty && tail == Text(ps)
    modifies st`buffer, st`size, st`pieces, st.buffer
    ensures st.Valid() && (st.buffer == old(st.buffer) || fresh(st.buffer))
    ensures st.pieces == Line(old(st.pieces), st.indentLevel, Key(name)) + [Tok(Str(Escape(value)))] + ps
  {
    KeyTextIs(name);
    hide SerializeState.Valid, Text, Key, KeyText, Line, Escape;
    PutLine(st, KeyText(name), Key(name));
    st.AppendString(value);
    st.Append(tail, ps);
  }

  method SerializeMetadata(st: SerializeState, count: nat, now: Stamp)
    requires st.Valid() && st.pretty
    modifies st`buffer, st`size, st`pieces, st`indentLevel, st.buffer
    ensures st.Valid() && (st.buffer == old(st.buffer) || fresh(st.buffer))
    ensures st.indentLevel == old(st.indentLevel)
    ensures st.pieces == MetadataDoc(old(st.pieces), count, now, st.indentLevel)
  {
    TextRules();
    hide SerializeState.Valid, Text, Key, Line, Escape, IntText;
    PutKey(st, "metadata", "{\n", OPEN);
    st.indentLevel := st.indentLevel + 1;
    PutString(st, "name", DATABASE_NAME, ",\n", COMMA);
    VersionLine(st);
    PutValue(st, "created_at", "\"" + now + "\"", Str(now), ",\n", COMMA);
    PutValue(st, "table_count", IntText(count), Number(IntText(count)), "\n", BREAK);
    st.indentLevel := st.indentLevel - 1;
    PutLine(st, "}", [Tok(ObjectEnd)]);
  }

  /** The version is appended in three parts, its quotes with the parts around it. */
  method VersionLine(st: SerializeState)
    requires st.Valid() && st.pretty
    modifies st`buffer, st`size, st`pieces, st.buffer
    ensures st.Valid() && (st.buffer == old(st.buffer) || fresh(st.buffer))
    ensures st.pieces == Line(old(st.pieces), st.indentLevel, Key("version")) + [Tok(Str(VERSION))] + COMMA
  {
    ghost var v: Doc := [Tok(Str(VERSION))];
    ghost var ps := Key("version") + v + COMMA;
    TextRules();
    TextPlus(Key("version") + v, COMMA);
    TextPlus(Key("version"), v);
    QuotedParts(KeyText("version"), VERSION, ",\n");
    hide SerializeState.Valid, Text, Key, KeyText;
    st.Indent();
    Regroup(st.pieces, Key("version") + v, COMMA);
    Regroup(st.pieces, Key("version"), v);
    st.Append3(KeyText("version") + "\"", VERSION, "\"" + ",\n", ps);
  }

  lemma {:induction false} QuotedParts(a: string, v: string, b: string)
    ensures (a + "\"") + v + ("\"" + b) == a + ("\"" + v + "\"") + b
  {
  }

  method SerializeConstraint(st: SerializeState, yes: bool, first: bool, name: string)
    requires st.Valid() && st.pretty
    modifies st`buffer, st`size, st`pieces, st.buffer
    ensures st.Valid() && (st.buffer == old(st.buffer) || fresh(st.buffer))
    ensures st.pieces == ConstraintDoc(old(st.pieces), yes, first, name)
  {
    TextRules();
    hide SerializeState.Valid, Text, Key, KeyText;
    if yes {
      if !first {
        st.Append(", ", [Tok(Comma), Ws(" ")]);
      }
      st.Append("\"" + name + "\"", [Tok(Str(name))]);
    }
  }

  method SerializeConstraints(st: SerializeState, c: Column)
    requires st.Valid() && st.pretty
    modifies st`buffer, st`size, st`pieces, st.buffer
    ensures st.Valid() && (st.buffer == old(st.buffer) || fresh(st.buffer))
    ensures st.pieces == MaybeConstraintsDoc(old(st.pieces), c, st.indentLevel)
  {
    TextRules();
    hide SerializeState.Valid, Text, Key, KeyText, Line, ConstraintDoc;
    if c.primaryKey || c.unique || !c.nullable {
      st.Append(",\n", COMMA);
      PutKey(st, "constraints", "[", [Tok(ArrayStart)]);
      var first := true;
      SerializeConstraint(st, c.primaryKey, first, "PRIMARY KEY");
      if c.primaryKey { first := false; }
      SerializeConstraint(st, c.unique, first, "UNIQUE");
      if c.unique { first := false; }
      SerializeConstraint(st, !c.nullable, first, "NOT NULL");
      st.Append("]", [Tok(ArrayEnd)]);
    }
  }

  method SerializeColumn(st: SerializeState, c: Column)
    requires st.Valid() && st.pretty
    modifies st`buffer, st`size, st`pieces, st`indentLevel, st.buffer
    ensures st.Valid() && (st.buffer == old(st.buffer) || fresh(st.buffer))
    ensures st.indentLevel == old(st.indentLevel)
    ensures st.pieces == ColumnDoc(old(st.pieces), c, st.indentLevel)
  {
    TextRules();
    hide SerializeState.Valid, Text, Key, KeyText, Line, Escape, TypeName, MaybeConstraintsDoc;
    PutLine(st, "{\n", OPEN);
    st.indentLevel := st.indentLevel + 1;
    PutString(st, "name", c.name, ",\n", COMMA);
    PutString(st, "type", TypeName(c.ty), "", []);
    SerializeConstraints(st, c);
    st.indentLevel := st.indentLevel - 1;
    PutLine(st, "}", [Tok(ObjectEnd)]);
  }

  method SerializeColumns(st: SerializeState, cs: seq<Column>)
    requires st.Valid() && st.pretty
    modifies st`buffer, st`size, st`pieces, st`indentLevel, st.buffer
    ensures st.Valid() && (st.buffer == old(st.buffer) || fresh(st.buffer))
    ensures st.indentLevel == old(st.indentLevel)
    ensures st.pieces == ColumnsDoc(old(st.pieces), cs, st.indentLevel, |cs|)
  {
    TextRules();
    hide SerializeState.Valid, Text, Key, KeyText, Line, ColumnDoc;
    for i := 0 to |cs|
      invariant st.Valid() && st.pretty && st.indentLevel == old(st.indentLevel)
      invariant st.buffer == old(st.buffer) || fresh(st.buffer)
      invariant st.pieces == ColumnsDoc(old(st.pieces), cs, st.indentLevel, i)
    {
      SerializeColumn(st, cs[i]);
      if i < |cs| - 1 {
        st.Append(",\n", COMMA);
      } else {
        st.Append("\n", BREAK);
      }
    }
  }

  method SerializeColumnArray(st: SerializeState, cs: seq<Column>)
    requires st.Valid() && st.pretty
    modifies st`buffer, st`size, st`pieces, st`indentLevel, st.buffer
    ensures st.Valid() && (st.buffer == old(st.buffer) || fresh(st.buffer))
    ensures st.indentLevel == old(st.indentLevel)
    ensures st.pieces == ColumnArrayDoc(old(st.pieces), cs, st.indentLevel)
  {
    TextRules();
    hide SerializeState.Valid, Text, Key, KeyText, Line, ColumnsDoc;
    PutKey(st, "fields", "[\n", OPEN_ARRAY);
    st.indentLevel := st.indentLevel + 1;
    SerializeColumns(st, cs);
    st.indentLevel := st.indentLevel - 1;
    CloseWithComma(st, "]", ArrayEnd);
  }

  method SerializeTableSchema(st: SerializeState, t: Table)
    requires st.Valid() && st.pretty
    modifies st`buffer, st`size, st`pieces, st`indentLevel, st.buffer
    ensures st.Valid() && (st.buffer == old(st.buffer) || fresh(st.buffer))
    ensures st.indentLevel == old(st.indentLevel)
    ensures st.pieces == SchemaDoc(old(st.pieces), t, st.indentLevel)
  {
    TextRules();
    hide SerializeState.Valid, Text, Key, KeyText, Line, Escape, IntText, ColumnArrayDoc;
    PutKey(st, "schema", "{\n", OPEN);
    st.indentLevel := st.indentLevel + 1;
    PutString(st, "name", t.name, ",\n", COMMA);
    SerializeColumnArray(st, t.columns);
    PutValue(st, "record_count", IntText(t.count), Number(IntText(t.count)), "", []);
    st.indentLevel := st.indentLevel - 1;
    PutLine(st, "}", [Tok(ObjectEnd)]);
  }

  /** A closing bracket on a fresh line, a comma and a line break. */
  method CloseWithComma(st: SerializeState, bracket: string, ghost t: Token)
    requires st.Valid() && st.pretty && bracket == Lexeme(t)
    modifies st`buffer, st`size, st`pieces, st.buffer
    ensures st.Valid() && (st.buffer == old(st.buffer) || fresh(st.buffer))
    ensures st.pieces == Line(old(st.pieces), st.indentLevel, [Tok(t)]) + COMMA
  {
    TextRules();
    hide SerializeState.Valid, Text, Key, KeyText, Line;
    PutLine(st, bracket, [Tok(t)]);
    st.Append(",\n", COMMA);
  }

  method SerializeFieldValue(st: SerializeState, f: Field)
    requires st.Valid()
    modifies st`buffer, st`size, st`pieces, st.buffer
    ensures st.Valid() && (st.buffer == old(st.buffer) || fresh(st.buffer))
    ensures st.pieces == old(st.pieces) + [Tok(FieldToken(f))]
  {
    TextRules();
    hide SerializeState.Valid, Text, Key, KeyText, Escape, IntText;
    match f.ty
    case TInt => st.Append(IntText(AsInt(f.value)), [Tok(FieldToken(f))]);
    case TString => st.AppendString(AsString(f.value));
    case TFloat => st.Append(RawText(f.value), [Tok(FieldToken(f))]);
    case TDouble => st.Append(RawText(f.value), [Tok(FieldToken(f))]);
    case TBool => st.Append(if AsBool(f.value) then "true" else "false", [Tok(FieldToken(f))]);
    case TDatetime => st.Append("\"" + RawText(f.value) + "\"", [Tok(FieldToken(f))]);
    case TNull => st.Append("null", [Tok(FieldToken(f))]);
    case _ => st.Append("\"" + "" + "\"", [Tok(FieldToken(f))]);
  }

  /** A record's field name, unlike a column's name, is written between quotes as it is. */
  method PutFieldName(st: SerializeState, name: string)
    requires st.Valid() && st.pretty
    modifies st`buffer, st`size, st`pieces, st.buffer
    ensures st.Valid() && (st.buffer == old(st.buffer) || fresh(st.buffer))
    ensures st.pieces == Line(old(st.pieces), st.indentLevel, Key(name))
  {
    KeyTextIs(name);
    assert "\"" + name + "\": " == KeyText(name);
    hide Text, Key;
    st.Indent();
    st.Append3("\"", name, "\": ", Key(name));
  }

  method SerializeFields(st: SerializeState, cs: seq<Column>, fs: seq<Field>)
    requires st.Valid() && st.pretty && |cs| == |fs|
    modifies st`buffer, st`size, st`pieces, st`indentLevel, st.buffer
    ensures st.Valid() && (st.buffer == old(st.buffer) || fresh(st.buffer))
    ensures st.indentLevel == old(st.indentLevel)
    ensures st.pieces == FieldsDoc(old(st.pieces), cs, fs, st.indentLevel, |cs|)
  {
    TextRules();
    hide SerializeState.Valid, Text, Key, KeyText, Line, FieldToken;
    for i := 0 to |cs|
      invariant st.Valid() && st.pretty && st.indentLevel == old(st.indentLevel)
      invariant st.buffer == old(st.buffer) || fresh(st.buffer)
      invariant st.pieces == FieldsDoc(old(st.pieces), cs, fs, st.indentLevel, i)
    {
      PutFieldName(st, cs[i].name);
      SerializeFieldValue(st, fs[i]);
      if i < |cs| - 1 {
        st.Append(",\n", COMMA);
      } else {
        st.Append("\n", BREAK);
      }
    }
  }

  method SerializeRecordMetadata(st: SerializeState, r: Record)
    requires st.Valid() && st.pretty
    modifies st`buffer, st`size, st`pieces, st`indentLevel, st.buffer
    ensures st.Valid() && (st.buffer == old(st.buffer) || fresh(st.buffer))
    ensures st.indentLevel == old(st.indentLevel)
    ensures st.pieces == RecordMetadataDoc(old(st.pieces), r, st.indentLevel)
  {
    TextRules();
    hide SerializeState.Valid, Text, Key, KeyText, Line, IntText;
    PutKey(st, "metadata", "{\n", OPEN);
    st.indentLevel := st.indentLevel + 1;
    PutValue(st, "timestamp", "\"" + r.stamp + "\"", Str(r.stamp), ",\n", COMMA);
    PutLine(st, KeyText("version"), Key("version"));
    st.Append(IntText(r.version), [Tok(Number(IntText(r.version)))]);
    st.indentLevel := st.indentLevel - 1;
    PutLine(st, "}", [Tok(ObjectEnd)]);
  }

  /** The "fields" object of a record. */
  method SerializeFieldObject(st: SerializeState, cs: seq<Column>, fs: seq<Field>)
    requires st.Valid() && st.pretty && |cs| == |fs|
    modifies st`buffer, st`size, st`pieces, st`indentLevel, st.buffer
    ensures st.Valid() && (st.buffer == old(st.buffer) || fresh(st.buffer))
    ensures st.indentLevel == old(st.indentLevel)
    ensures st.pieces == FieldObjectDoc(old(st.pieces), cs, fs, st.indentLevel)
  {
    TextRules();
    hide SerializeState.Valid, Text, Key, KeyText, Line, FieldsDoc;
    PutKey(st, "fields", "{\n", OPEN);
    st.indentLevel := st.indentLevel + 1;
    SerializeFields(st, cs, fs);
    st.indentLevel := st.indentLevel - 1;
    CloseWithComma(st, "}", ObjectEnd);
  }

  method SerializeRecord(st: SerializeState, cs: seq<Column>, r: Record)
    requires st.Valid() && st.pretty && |cs| == |r.fields|
    modifies st`buffer, st`size, st`pieces, st`indentLevel, st.buffer
    ensures st.Valid() && (st.buffer == old(st.buffer) || fresh(st.buffer))
    ensures st.indentLevel == old(st.indentLevel)
    ensures st.pieces == RecordDoc(old(st.pieces), cs, r, st.indentLevel)
  {
    TextRules();
    hide SerializeState.Valid, Text, Key, KeyText, Line, IntText, FieldObjectDoc, RecordMetadataDoc;
    PutLine(st, "{\n", OPEN);
    st.indentLevel := st.indentLevel + 1;
    PutValue(st, "id", IntText(r.id), Number(IntText(r.id)), ",\n", COMMA);
    SerializeFieldObject(st, cs, r.fields);
    SerializeRecordMetadata(st, r);
    st.indentLevel := st.indentLevel - 1;
    PutLine(st, "}", [Tok(ObjectEnd)]);
  }

  method SerializeRecordList(st: SerializeState, cs: seq<Column>, rs: seq<Record>)
    requires st.Valid() && st.pretty && AllShaped(cs, rs)
    modifies st`buffer, st`size, st`pieces, st`indentLevel, st.buffer
    ensures st.Valid() && (st.buffer == old(st.buffer) || fresh(st.buffer))
    ensures st.indentLevel == old(st.indentLevel)
    ensures st.pieces == RecordListDoc(old(st.pieces), cs, rs, st.indentLevel, |rs|)
  {
    TextRules();
    hide SerializeState.Valid, Text, Key, KeyText, Line, RecordDoc;
    for i := 0 to |rs|
      invariant st.Valid() && st.pretty && st.indentLevel == old(st.indentLevel)
      invariant st.buffer == old(st.buffer) || fresh(st.buffer)
      invariant st.pieces == RecordListDoc(old(st.pieces), cs, rs, st.indentLevel, i)
    {
      if i > 0 {
        st.Append(",\n", COMMA);
      }
      SerializeRecord(st, cs, rs[i]);
    }
  }

  method SerializeTableRecords(st: SerializeState, t: Table)
    requires st.Valid() && st.pretty && Shaped(t)
    modifies st`buffer, st`size, st`pieces, st`indentLevel, st.buffer
    ensures st.Valid() && (st.buffer == old(st.buffer) || fresh(st.buffer))
    ensures st.indentLevel == old(st.indentLevel)
    ensures st.pieces == RecordsDoc(old(st.pieces), t, st.indentLevel)
  {
    TextRules();
    hide SerializeState.Valid, Text, Key, KeyText, Line, RecordListDoc;
    PutKey(st, "records", "[\n", OPEN_ARRAY);
    st.indentLevel := st.indentLevel + 1;
    SerializeRecordList(st, t.columns, t.records);
    if t.records != [] {
      st.Append("\n", BREAK);
    }
    st.indentLevel := st.indentLevel - 1;
    PutLine(st, "]", [Tok(ArrayEnd)]);
  }

  method SerializeTable(st: SerializeState, t: Table)
    requires st.Valid() && st.pretty && Shaped(t)
    modifies st`buffer, st`size, st`pieces, st`indentLevel, st.buffer
    ensures st.Valid() && (st.buffer == old(st.buffer) || fresh(st.buffer))
    ensures st.indentLevel == old(st.indentLevel)
    ensures st.pieces == TableDoc(old(st.pieces), t, st.indentLevel)
  {
    TextRules();
    hide SerializeState.Valid, Text, Key, KeyText, Line, SchemaDoc, RecordsDoc, Shaped;
    PutLine(st, "{\n", OPEN);
    st.indentLevel := st.indentLevel + 1;
    SerializeTableSchema(st, t);
    st.Append(",\n", COMMA);
    SerializeTableRecords(st, t);
    st.indentLevel := st.indentLevel - 1;
    PutLine(st, "}", [Tok(ObjectEnd)]);
  }

  method SerializeTables(st: SerializeState, ts: seq<Table>)
    requires st.Valid() && st.pretty && AllTablesShaped(ts)
    modifies st`buffer, st`size, st`pieces, st`indentLevel, st.buffer
    ensures st.Valid() && (st.buffer == old(st.buffer) || fresh(st.buffer))
    ensures st.indentLevel == old(st.indentLevel)
    ensures st.pieces == TablesDoc(old(st.pieces), ts, st.indentLevel, |ts|)
  {
    TextRules();
    hide SerializeState.Valid, Text, Key, KeyText, Line, TableDoc, Shaped;
    for i := 0 to |ts|
      invariant st.Valid() && st.pretty && st.indentLevel == old(st.indentLevel)
      invariant st.buffer == old(st.buffer) || fresh(st.buffer)
      invariant st.pieces == TablesDoc(old(st.pieces), ts, st.indentLevel, i)
    {
      if i > 0 {
        st.Append(",", [Tok(Comma)]);
      }
      SerializeTable(st, ts[i]);
    }
  }

  /** The array of all tables, with its key. */
  method SerializeTableArray(st: SerializeState, ts: seq<Table>)
    requires st.Valid() && st.pretty && AllTablesShaped(ts)
    modifies st`buffer, st`size, st`pieces, st`indentLevel, st.buffer
    ensures st.Valid() && (st.buffer == old(st.buffer) || fresh(st.buffer))
    ensures st.indentLevel == old(st.indentLevel)
    ensures st.pieces == TableArrayDoc(old(st.pieces), ts, st.indentLevel)
  {
    TextRules();
    hide SerializeState.Valid, Text, Key, KeyText, Line, TablesDoc, Shaped;
    PutKey(st, "tables", "[", [Tok(ArrayStart)]);
    st.indentLevel := st.indentLevel + 1;
    SerializeTables(st, ts);
    st.indentLevel := st.indentLevel - 1;
    PutLine(st, "]", [Tok(ArrayEnd)]);
  }

  /** `db_save_to_file`, up to the text it writes. */
  method SaveToText(ts: seq<Table>, now: Stamp) returns (text: string)
    requires AllTablesShaped(ts)
    ensures text == SaveText(ts, now)
  {
    TextRules();
    hide SerializeState.Valid, Text, Key, KeyText, Line, MetadataDoc, TableArrayDoc, Shaped;
    var st := new SerializeState();
    assert [] + [Tok(ObjectStart)] == [Tok(ObjectStart)];
    st.Append("{", [Tok(ObjectStart)]);
    st.indentLevel := st.indentLevel + 1;
    SerializeMetadata(st, |ts|, now);
    st.Append(",", [Tok(Comma)]);
    SerializeTableArray(st, ts);
    st.indentLevel := st.indentLevel - 1;
    PutLine(st, "}", [Tok(ObjectEnd)]);
    text := st.Output();
  }
}
