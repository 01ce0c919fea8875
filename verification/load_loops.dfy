/** The loader's methods, reading from a moving position, each proved against what it makes of the tokens. */
module LoadLoops {
  import opened Chars
  import opened Lexer
  import opened TokenStream
  import opened Escaping
  import opened Decimal
  import opened Schema
  import opened Skipper
  import opened Loader
  import opened Catalog
  import opened Durability

  /** The columns of a new table, or nothing when one of them has no name. */
  method BuildColumns(cs: seq<RawColumn>) returns (r: Option<seq<Column>>)
    ensures r.None? <==> exists i | 0 <= i < |cs| :: cs[i].name.None?
    ensures r.Some? ==> r.value == NewColumns(cs)
  {
    var columns: seq<Column> := [];
    for i := 0 to |cs|
      invariant |columns| == i
      invariant forall j | 0 <= j < i :: cs[j].name.Some?
      invariant forall j | 0 <= j < i :: columns[j] == Column(cs[j].name.value, cs[j].ty, j == 0, false, true)
    {
      if cs[i].name.None? {
        return None;
      }
      columns := columns + [Column(cs[i].name.value, cs[i].ty, i == 0, false, true)];
    }
    return Some(columns);
  }

  /** The database under construction: its tables are appended and filled in place. */
  class Catalogue {
    var tables: seq<Table>

    constructor ()
      ensures tables == []
    {
      tables := [];
    }

    /** `db_add_table`. */
    method Add(name: string, cs: seq<RawColumn>) returns (code: ErrorCode)
      modifies this
      ensures Added(code, tables) == AddTable(old(tables), name, cs)
    {
      if |cs| < 1 || |cs| > MAX_FIELDS_PER_TABLE {
        return InvalidInput;
      }
      for i := 0 to |tables|
        invariant tables == old(tables)
        invariant forall j | 0 <= j < i :: tables[j].name != name
      {
        if tables[i].name == name {
          return DuplicateKey;
        }
      }
      if |tables| >= MAX_TABLES {
        return TableFull;
      }
      var columns := BuildColumns(cs);
      if columns.None? {
        return NullName;
      }
      tables := tables + [Table(Clip(name, MAX_TABLE_NAME - 1), columns.value, [], 0, 1)];
      code := Success;
    }
  }

  /** A method's result `v` and position agree with what the parser `p` makes of the tokens. */
  ghost predicate Agrees<T>(p: Parsed<T>, v: Verdict<T>, rest: Stream) {
    p == Before(v, rest)
  }

  method ParseMetadataObject(ctx: ParseContext) returns (r: Verdict<()>)
    requires ctx.Valid()
    modifies ctx`position
    ensures ctx.Valid()
    ensures Agrees(ParseMetadata(old(Tokens(ctx))), r, Tokens(ctx))
  {
    hide StreamOf, Skip, SkipText, Lex;
    var t := ReadToken(ctx);
    if t != ObjectStart {
      return Bad(InvalidInput);
    }
    ghost var start := Tokens(ctx);
    while true
      invariant ctx.Valid()
      invariant MetadataLoop(Tokens(ctx)) == MetadataLoop(start)
      decreases Len(Tokens(ctx))
    {
      t := ReadToken(ctx);
      if t == ObjectEnd {
        return Good(());
      }
      if !t.Str? {
        return Bad(InvalidInput);
      }
      var key := t.value;
      t := ReadToken(ctx);
      if t != Colon {
        return Bad(InvalidInput);
      }
      t := ReadToken(ctx);
      if !(key == "name" && t.Str?) {
        var _ := SkipTokenValue(ctx, t);
      }
      t := ReadToken(ctx);
      if t != Comma {
        return if t == ObjectEnd then Good(()) else Bad(InvalidInput);
      }
    }
  }

  /** One object of a "fields" array, behind its opening brace. */
  method ParseColumn(ctx: ParseContext) returns (r: Verdict<RawColumn>)
    requires ctx.Valid()
    modifies ctx`position
    ensures ctx.Valid()
    ensures Agrees(ColumnLoop(old(Tokens(ctx)), RawColumn(None, TString)), r, Tokens(ctx))
  {
    hide StreamOf, Skip, SkipText, Lex, TypeOf;
    var c := RawColumn(None, TString);
    ghost var start := Tokens(ctx);
    while true
      invariant ctx.Valid()
      invariant ColumnLoop(Tokens(ctx), c) == ColumnLoop(start, RawColumn(None, TString))
      decreases Len(Tokens(ctx))
    {
      var t := ReadToken(ctx);
      if t == ObjectEnd {
        return Good(c);
      }
      if !t.Str? {
        return Bad(InvalidInput);
      }
      var key := t.value;
      t := ReadToken(ctx);
      if t != Colon {
        return Bad(InvalidInput);
      }
      t := ReadToken(ctx);
      if key == "name" {
        if !t.Str? {
          return Bad(InvalidInput);
        }
        c := c.(name := Some(t.value));
      } else if key == "type" {
        if !t.Str? {
          return Bad(InvalidInput);
        }
        c := c.(ty := TypeOf(t.value));
      } else {
        var _ := SkipTokenValue(ctx, t);
      }
      t := ReadToken(ctx);
      if t != Comma {
        return if t == ObjectEnd then Good(c) else Bad(InvalidInput);
      }
    }
  }

  /** A "fields" array, behind its opening bracket; its columns join those already read. */
  method ParseColumns(ctx: ParseContext, columns: seq<RawColumn>) returns (r: Verdict<seq<RawColumn>>)
    requires ctx.Valid()
    modifies ctx`position
    ensures ctx.Valid()
    ensures Agrees(ColumnsLoop(old(Tokens(ctx)), columns), r, Tokens(ctx))
  {
    hide StreamOf, Lex, ColumnLoop;
    var cs := columns;
    ghost var start := Tokens(ctx);
    while true
      invariant ctx.Valid()
      invariant ColumnsLoop(Tokens(ctx), cs) == ColumnsLoop(start, columns)
      decreases Len(Tokens(ctx))
    {
      var t := ReadToken(ctx);
      if t == ArrayEnd {
        return Good(cs);
      }
      if t != ObjectStart {
        return Bad(InvalidInput);
      }
      var c := ParseColumn(ctx);
      if c.Bad? {
        return Bad(c.code);
      }
      cs := cs + [c.value];
      t := ReadToken(ctx);
      if t != Comma {
        return if t == ArrayEnd then Good(cs) else Bad(InvalidInput);
      }
    }
  }

  /** The branches of the schema loop, but for a nested "schema". */
  method ParseSchemaMember(ctx: ParseContext, key: string, acc: RawSchema) returns (r: Verdict<RawSchema>)
    requires ctx.Valid()
    modifies ctx`position
    ensures ctx.Valid()
    ensures Agrees(SchemaMember(key, old(Tokens(ctx)), acc), r, Tokens(ctx))
  {
    hide StreamOf, Skip, SkipText, Lex, ColumnsLoop;
    var t := ReadToken(ctx);
    if key == "name" {
      return if t.Str? then Good(acc.(name := Clip(t.value, MAX_TABLE_NAME - 1))) else Bad(InvalidInput);
    } else if key == "fields" {
      if t != ArrayStart {
        return Bad(InvalidInput);
      }
      var cs := ParseColumns(ctx, acc.columns);
      return if cs.Good? then Good(acc.(columns := cs.value)) else Bad(cs.code);
    } else {
      var _ := SkipTokenValue(ctx, t);
      return Good(acc);
    }
  }

  /** The schema loop; `first` is read. */
  method ParseSchemaObject(ctx: ParseContext, first: Token) returns (r: Verdict<RawSchema>)
    requires ctx.Valid()
    modifies ctx`position
    ensures ctx.Valid()
    ensures Agrees(SchemaLoop(first, old(Tokens(ctx)), RawSchema("", [])), r, Tokens(ctx))
  {
    hide StreamOf, Lex, SchemaMember;
    var t := first;
    var acc := RawSchema("", []);
    ghost var start := Tokens(ctx);
    while t != ObjectEnd
      invariant ctx.Valid()
      invariant SchemaLoop(t, Tokens(ctx), acc) == SchemaLoop(first, start, RawSchema("", []))
      decreases Len(Tokens(ctx))
    {
      if !t.Str? {
        return Bad(InvalidInput);
      }
      var key := t.value;
      t := ReadToken(ctx);
      if t != Colon {
        return Bad(InvalidInput);
      }
      if key == "schema" {
        t := ReadToken(ctx);
        if t != ObjectStart {
          return Bad(InvalidInput);
        }
        t := ReadToken(ctx);
        continue;
      }
      var m := ParseSchemaMember(ctx, key, acc);
      if m.Bad? {
        return Bad(m.code);
      }
      acc := m.value;
      t := ReadToken(ctx);
      if t == Comma {
        t := ReadToken(ctx);
      } else {
        return if t == ObjectEnd then Good(acc) else Bad(InvalidInput);
      }
    }
    return Good(acc);
  }

  /** `json_parse_table_schema`. */
  method ParseTableSchema(ctx: ParseContext, db: Catalogue) returns (r: Verdict<()>)
    requires ctx.Valid() && HasColumns(db.tables)
    modifies ctx`position, db
    ensures ctx.Valid()
    ensures match ParseSchema(old(Tokens(ctx)), old(db.tables))
            case Done(ts, rest) => r.Good? && db.tables == ts && Tokens(ctx) == rest
            case Failed(e) => r == Bad(e)
  {
    hide StreamOf, Lex, SchemaLoop, AddTable;
    var t := ReadToken(ctx);
    if t == ObjectStart {
      t := ReadToken(ctx);
    }
    var s := ParseSchemaObject(ctx, t);
    if s.Bad? {
      return Bad(s.code);
    }
    if s.value.name != "" && s.value.columns != [] {
      var code := db.Add(s.value.name, s.value.columns);
      return if code == Success then Good(()) else Bad(code);
    }
    return Bad(InvalidInput);
  }

  /** The loop that looks a column up by its name. */
  method FindColumn(cs: seq<Column>, name: string) returns (i: nat)
    ensures i == ColumnIndex(cs, name)
  {
    i := 0;
    while i < |cs|
      invariant i <= |cs|
      invariant forall j | 0 <= j < i :: cs[j].name != name
    {
      if cs[i].name == name {
        return;
      }
      i := i + 1;
    }
  }

  method ParseFieldValue(ctx: ParseContext, c: Column, blank: Field) returns (f: Field)
    requires ctx.Valid()
    modifies ctx`position
    ensures ctx.Valid() && Len(Tokens(ctx)) <= Len(old(Tokens(ctx)))
    ensures var v := Next(old(Tokens(ctx))); f == ParseField(c, v.tok, blank) && Tokens(ctx) == v.rest
  {
    hide StreamOf, Lex;
    var t := ReadToken(ctx);
    if t == Null {
      return Field(TNull, Zero(c.ty));
    }
    f := Field(blank.ty, Zero(c.ty));
    match c.ty
    case TInt =>
      if t.Number? { f := f.(value := IntV(Atoi(t.text))); }
      else if t.Str? { f := f.(value := IntV(Atoi(t.value))); }
    case TString =>
      if t.Str? { f := f.(value := StrV(Clip(t.value, MAX_FIELD_LEN - 1))); }
      else if t.Number? { f := f.(value := StrV(Clip(t.text, MAX_FIELD_LEN - 1))); }
    case TBool =>
      if t.Boolean? { f := f.(value := BoolV(t.flag)); }
      else if t.Number? { f := f.(value := BoolV(Atoi(t.text) != 0)); }
      else if t.Str? {
        f := f.(value := BoolV(SameName(t.value, "true") || SameName(t.value, "1") || SameName(t.value, "yes")));
      }
    case TDatetime =>
      if t.Str? { f := f.(value := Raw(t.value)); }
    case TFloat =>
      if t.Number? { f := f.(value := Raw(t.text)); }
      else if t.Str? { f := f.(value := Raw(t.value)); }
    case TDouble =>
      if t.Number? { f := f.(value := Raw(t.text)); }
      else if t.Str? { f := f.(value := Raw(t.value)); }
    case _ =>
  }

  /** A record's "fields" object, behind its opening brace. */
  method ParseFields(ctx: ParseContext, cs: seq<Column>, blank: seq<Field>) returns (r: Verdict<seq<Field>>)
    requires ctx.Valid() && |cs| == |blank|
    modifies ctx`position
    ensures ctx.Valid()
    ensures Agrees(FieldsLoop(old(Tokens(ctx)), cs, blank), r, Tokens(ctx))
  {
    hide StreamOf, Lex, ColumnIndex, ParseField;
    var fs := blank;
    ghost var start := Tokens(ctx);
    while true
      invariant ctx.Valid() && |fs| == |cs|
      invariant FieldsLoop(Tokens(ctx), cs, fs) == FieldsLoop(start, cs, blank)
      decreases Len(Tokens(ctx))
    {
      var t := ReadToken(ctx);
      if t == ObjectEnd {
        return Good(fs);
      }
      if !t.Str? {
        return Bad(InvalidInput);
      }
      var key := t.value;
      t := ReadToken(ctx);
      if t != Colon {
        return Bad(InvalidInput);
      }
      var i := FindColumn(cs, key);
      if i < |cs| {
        var f := ParseFieldValue(ctx, cs[i], fs[i]);
        fs := fs[i := f];
      } else {
        var _ := ReadToken(ctx);
      }
      t := ReadToken(ctx);
      if t != Comma {
        return if t == ObjectEnd then Good(fs) else Bad(InvalidInput);
      }
    }
  }

  /** The branches of the record loop. */
  method ParseRecordMember(ctx: ParseContext, key: string, cs: seq<Column>, acc: RawRecord) returns (r: Verdict<RawRecord>)
    requires ctx.Valid() && |acc.fields| == |cs|
    modifies ctx`position
    ensures ctx.Valid()
    ensures Agrees(RecordMember(key, old(Tokens(ctx)), cs, acc), r, Tokens(ctx))
  {
    hide StreamOf, Lex, Skip, SkipText, FieldsLoop, Atoi;
    var t := ReadToken(ctx);
    if key == "id" {
      return Good(if t.Number? then acc.(id := Atoi(t.text)) else acc);
    } else if key == "fields" {
      if t != ObjectStart {
        return Bad(InvalidInput);
      }
      var fs := ParseFields(ctx, cs, acc.fields);
      return if fs.Good? then Good(acc.(fields := fs.value)) else Bad(fs.code);
    } else {
      var _ := SkipTokenValue(ctx, t);
      return Good(acc);
    }
  }

  /** One record object, behind its opening brace. */
  method ParseRecord(ctx: ParseContext, cs: seq<Column>) returns (r: Verdict<RawRecord>)
    requires ctx.Valid()
    modifies ctx`position
    ensures ctx.Valid()
    ensures Agrees(RecordLoop(old(Tokens(ctx)), cs, RawRecord(-1, Defaults(cs))), r, Tokens(ctx))
  {
    hide StreamOf, Lex, RecordMember, Defaults;
    var acc := RawRecord(-1, Defaults(cs));
    ghost var start := Tokens(ctx);
    while true
      invariant ctx.Valid() && |acc.fields| == |cs|
      invariant RecordLoop(Tokens(ctx), cs, acc) == RecordLoop(start, cs, RawRecord(-1, Defaults(cs)))
      decreases Len(Tokens(ctx))
    {
      var t := ReadToken(ctx);
      if t == ObjectEnd {
        return Good(acc);
      }
      if !t.Str? {
        return Bad(InvalidInput);
      }
      var key := t.value;
      t := ReadToken(ctx);
      if t != Colon {
        return Bad(InvalidInput);
      }
      var m := ParseRecordMember(ctx, key, cs, acc);
      if m.Bad? {
        return Bad(m.code);
      }
      acc := m.value;
      t := ReadToken(ctx);
      if t != Comma {
        return if t == ObjectEnd then Good(acc) else Bad(InvalidInput);
      }
    }
  }

  /** The loop that writes the id into the first primary-key column. */
  method WriteKey(cs: seq<Column>, fs: seq<Field>, id: int) returns (r: seq<Field>)
    requires |cs| == |fs|
    ensures r == SetKey(cs, fs, id)
  {
    r := fs;
    var i := 0;
    while i < |cs|
      invariant i <= |cs| && r == fs
      invariant SetKey(cs, fs, id) == fs[..i] + SetKey(cs[i..], fs[i..], id)
    {
      if cs[i].primaryKey {
        r := fs[i := Field(TInt, IntV(id))];
        assert fs[i..][1..] == fs[i + 1..];
        assert r == fs[..i] + ([Field(TInt, IntV(id))] + fs[i + 1..]);
        return;
      }
      assert cs[i..][1..] == cs[i + 1..] && fs[i..][1..] == fs[i + 1..];
      assert fs[..i] + ([fs[i]] + SetKey(cs[i + 1..], fs[i + 1..], id)) == fs[..i + 1] + SetKey(cs[i + 1..], fs[i + 1..], id);
      i := i + 1;
    }
  }

  /** `json_parse_table_records`, into the last table. */
  method ParseTableRecords(ctx: ParseContext, db: Catalogue, now: Stamp) returns (r: Verdict<()>)
    requires ctx.Valid() && HasColumns(db.tables) && db.tables != []
    modifies ctx`position, db
    ensures ctx.Valid()
    ensures match ParseRecords(old(Tokens(ctx)), old(db.tables)[|old(db.tables)| - 1], now)
            case Done(t, rest) =>
              r.Good? && db.tables == old(db.tables)[|old(db.tables)| - 1 := t] && Tokens(ctx) == rest
            case Failed(e) => r == Bad(e)
  {
    hide StreamOf, Lex, RecordLoop, SetKey, Insert, Defaults;
    var t := ReadToken(ctx);
    if t != ArrayStart {
      return Bad(InvalidInput);
    }
    ghost var start := Tokens(ctx);
    ghost var first := db.tables;
    var last := |db.tables| - 1;
    while true
      invariant ctx.Valid() && |db.tables| == |first| && |db.tables[last].columns| > 0
      invariant db.tables == first[last := db.tables[last]]
      invariant RecordsLoop(Tokens(ctx), db.tables[last], now) == RecordsLoop(start, first[last], now)
      decreases Len(Tokens(ctx))
    {
      var table := db.tables[last];
      t := ReadToken(ctx);
      if t == ArrayEnd {
        return Good(());
      }
      if t != ObjectStart {
        return Bad(InvalidInput);
      }
      var rec := ParseRecord(ctx, table.columns);
      if rec.Bad? {
        return Bad(rec.code);
      }
      if rec.value.id != -1 {
        var values := WriteKey(table.columns, rec.value.fields, rec.value.id);
        var i := Insert(table, values, FIRST_GENERATED_ID, now);
        if i.code != Success && i.code != DuplicateKey {
          return Bad(i.code);
        }
        db.tables := db.tables[last := i.table];
      }
      t := ReadToken(ctx);
      if t != Comma {
        return if t == ArrayEnd then Good(()) else Bad(InvalidInput);
      }
    }
  }

  /** The value of a member beside a nested schema. */
  method ParseSibling(ctx: ParseContext, db: Catalogue, key: string, now: Stamp) returns (r: Verdict<()>)
    requires ctx.Valid() && HasColumns(db.tables) && db.tables != []
    modifies ctx`position, db
    ensures ctx.Valid()
    ensures match Sibling(key, old(Tokens(ctx)), old(db.tables), now)
            case Done(ts, rest) => r.Good? && db.tables == ts && Tokens(ctx) == rest
            case Failed(e) => r == Bad(e)
  {
    hide StreamOf, Lex, Skip, SkipText, ParseRecords;
    if key == "records" {
      r := ParseTableRecords(ctx, db, now);
    } else {
      var t := ReadToken(ctx);
      var ok := SkipTokenValue(ctx, t);
      r := if ok then Good(()) else Bad(InvalidInput);
    }
  }

  /** The members of an outer table object behind the first sibling, up to its closing brace. */
  method ParseSiblings(ctx: ParseContext, db: Catalogue, now: Stamp) returns (r: Verdict<()>)
    requires ctx.Valid() && HasColumns(db.tables) && db.tables != []
    modifies ctx`position, db
    ensures ctx.Valid()
    ensures match SiblingsLoop(old(Tokens(ctx)), old(db.tables), now)
            case Done(ts, rest) => r.Good? && db.tables == ts && Tokens(ctx) == rest
            case Failed(e) => r == Bad(e)
  {
    hide StreamOf, Lex, Sibling;
    ghost var start, first := Tokens(ctx), db.tables;
    while true
      invariant ctx.Valid() && HasColumns(db.tables) && db.tables != []
      invariant SiblingsLoop(Tokens(ctx), db.tables, now) == SiblingsLoop(start, first, now)
      decreases Len(Tokens(ctx))
    {
      var t := ReadToken(ctx);
      if t == ObjectEnd {
        return Good(());
      }
      if t != Comma {
        return Bad(InvalidInput);
      }
      t := ReadToken(ctx);
      if !t.Str? {
        return Bad(InvalidInput);
      }
      var key := t.value;
      t := ReadToken(ctx);
      if t != Colon {
        return Bad(InvalidInput);
      }
      r := ParseSibling(ctx, db, key, now);
      if r.Bad? {
        return;
      }
    }
  }

  /** What the table loop does next. */
  datatype Turning = LastTable | NextTable(started: bool)

  /** What the parser still has to make of the tokens, once the turn `v` is taken. */
  ghost function Onward(v: Verdict<Turning>, st: Stream, ts: seq<Table>, now: Stamp): (r: Parsed<seq<Table>>)
    requires v.Good? ==> HasColumns(ts)
  {
    match v
    case Good(LastTable) => Done(ts, st)
    case Good(NextTable(started)) => TablesLoop(st, ts, started, now)
    case Bad(e) => Failed(e)
  }

  method ParseSeparator(ctx: ParseContext, ghost ts: seq<Table>, ghost now: Stamp) returns (r: Verdict<Turning>)
    requires ctx.Valid() && HasColumns(ts)
    modifies ctx`position
    ensures ctx.Valid() && Len(Tokens(ctx)) <= Len(old(Tokens(ctx)))
    ensures TableSeparator(old(Tokens(ctx)), ts, now) == Onward(r, Tokens(ctx), ts, now)
  {
    hide StreamOf, Lex, TablesLoop;
    var t := ReadToken(ctx);
    r := if t == Comma then Good(NextTable(false)) else if t == ArrayEnd then Good(LastTable) else Bad(InvalidInput);
  }

  /** The first sibling, the others, and the separator behind the outer object. */
  method ParseOuterRest(ctx: ParseContext, db: Catalogue, key: string, now: Stamp) returns (r: Verdict<Turning>)
    requires ctx.Valid() && HasColumns(db.tables) && db.tables != []
    modifies ctx`position, db
    ensures ctx.Valid() && (r.Good? ==> HasColumns(db.tables))
    ensures r.Good? ==> Len(Tokens(ctx)) <= Len(old(Tokens(ctx)))
    ensures match Sibling(key, old(Tokens(ctx)), old(db.tables), now)
            case Failed(e) => r == Bad(e)
            case Done(ts, rest) =>
              match SiblingsLoop(rest, ts, now)
              case Failed(e) => r == Bad(e)
              case Done(us, k) => TableSeparator(k, us, now) == Onward(r, Tokens(ctx), db.tables, now)
  {
    hide StreamOf, Lex, Sibling, SiblingsLoop, TableSeparator, TablesLoop;
    var s := ParseSibling(ctx, db, key, now);
    if s.Bad? {
      return Bad(s.code);
    }
    s := ParseSiblings(ctx, db, now);
    if s.Bad? {
      return Bad(s.code);
    }
    r := ParseSeparator(ctx, db.tables, now);
  }

  /** Behind a schema: a flat table ends here, a nested one may go on. */
  method ParseBehindSchema(ctx: ParseContext, db: Catalogue, now: Stamp) returns (r: Verdict<Turning>)
    requires ctx.Valid() && HasColumns(db.tables) && db.tables != []
    modifies ctx`position, db
    ensures ctx.Valid() && (r.Good? ==> HasColumns(db.tables))
    ensures r.Good? ==> Len(Tokens(ctx)) <= Len(old(Tokens(ctx)))
    ensures BehindSchema(old(Tokens(ctx)), old(db.tables), now) == Onward(r, Tokens(ctx), db.tables, now)
  {
    hide StreamOf, Lex, Sibling, SiblingsLoop, TableSeparator, TablesLoop;
    var t := ReadToken(ctx);
    if t == ArrayEnd {
      return Good(LastTable);
    } else if t == ObjectEnd {
      r := ParseSeparator(ctx, db.tables, now);
      return;
    } else if t != Comma {
      return Bad(InvalidInput);
    }
    t := ReadToken(ctx);
    if t == ObjectStart {
      return Good(NextTable(true));
    } else if t == ArrayEnd {
      return Good(LastTable);
    } else if !t.Str? {
      return Bad(InvalidInput);
    }
    var key := t.value;
    t := ReadToken(ctx);
    if t != Colon {
      return Bad(InvalidInput);
    }
    r := ParseOuterRest(ctx, db, key, now);
  }

  /** The array of tables, behind its opening bracket. */
  method ParseTables(ctx: ParseContext, db: Catalogue, now: Stamp) returns (r: Verdict<()>)
    requires ctx.Valid() && HasColumns(db.tables)
    modifies ctx`position, db
    ensures ctx.Valid()
    ensures match TablesLoop(old(Tokens(ctx)), old(db.tables), false, now)
            case Done(ts, rest) => r.Good? && db.tables == ts && Tokens(ctx) == rest
            case Failed(e) => r == Bad(e)
  {
    hide StreamOf, Lex, ParseSchema, BehindSchema;
    var hasTableStart := false;
    ghost var start, first := Tokens(ctx), db.tables;
    while true
      invariant ctx.Valid() && HasColumns(db.tables)
      invariant TablesLoop(Tokens(ctx), db.tables, hasTableStart, now) == TablesLoop(start, first, false, now)
      decreases Len(Tokens(ctx))
    {
      if !hasTableStart {
        var t := ReadToken(ctx);
        if t == ArrayEnd {
          return Good(());
        }
        if t != ObjectStart {
          return Bad(InvalidInput);
        }
      }
      r := ParseTableSchema(ctx, db);
      if r.Bad? {
        return;
      }
      var turn := ParseBehindSchema(ctx, db, now);
      if turn.Bad? {
        return Bad(turn.code);
      }
      if turn.value == LastTable {
        return Good(());
      }
      hasTableStart := turn.value.started;
    }
  }

  /** The value of one member of the outermost object. */
  method ParseTopMember(ctx: ParseContext, db: Catalogue, key: string, now: Stamp) returns (r: Verdict<()>)
    requires ctx.Valid() && HasColumns(db.tables)
    modifies ctx`position, db
    ensures ctx.Valid()
    ensures match TopMember(key, old(Tokens(ctx)), old(db.tables), now)
            case Done(ts, rest) => r.Good? && db.tables == ts && Tokens(ctx) == rest
            case Failed(e) => r == Bad(e)
  {
    hide StreamOf, Lex, Skip, SkipText, TablesLoop, ParseMetadata;
    if key == "metadata" {
      r := ParseMetadataObject(ctx);
      return;
    }
    var t := ReadToken(ctx);
    if key == "tables" {
      if t != ArrayStart {
        return Bad(InvalidInput);
      }
      r := ParseTables(ctx, db, now);
    } else {
      var ok := SkipTokenValue(ctx, t);
      r := if ok then Good(()) else Bad(InvalidInput);
    }
  }

  /** `db_load_from_file`, from the text it has read. */
  method LoadDatabase(json: string, now: Stamp) returns (r: Option<seq<Table>>)
    ensures r == LoadText(json, now)
  {
    hide StreamOf, Lex, TopMember;
    var ctx := new ParseContext(json);
    var db := new Catalogue();
    var t := ReadToken(ctx);
    if t != ObjectStart {
      return None;
    }
    ghost var start := Tokens(ctx);
    while true
      invariant ctx.Valid() && HasColumns(db.tables)
      invariant TopLoop(Tokens(ctx), db.tables, now) == TopLoop(start, [], now)
      decreases Len(Tokens(ctx))
    {
      t := ReadToken(ctx);
      if t == ObjectEnd {
        return Some(db.tables);
      }
      if !t.Str? {
        return None;
      }
      var key := t.value;
      t := ReadToken(ctx);
      if t != Colon {
        return None;
      }
      var m := ParseTopMember(ctx, db, key, now);
      if m.Bad? {
        return None;
      }
      t := ReadToken(ctx);
      if t != Comma {
        return if t == ObjectEnd then Some(db.tables) else None;
      }
    }
  }
}
