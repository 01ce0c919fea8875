/** Loading: what each parser makes of a stream of tokens. */
module Loader {
  import opened Chars
  import opened Lexer
  import opened TokenStream
  import opened Escaping
  import opened Decimal
  import opened Schema
  import opened Skipper

  /** A parser's value and the tokens it leaves, or its error code. */
  datatype Parsed<+T> = Done(value: T, rest: Stream) | Failed(code: ErrorCode)

  // ---- names without regard to case ----

  function Upper(c: char): (u: char) {
    if 'a' <= c <= 'z' then (c as int - 32) as char else c
  }

  predicate SameName(a: string, b: string) {
    |a| == |b| && forall i | 0 <= i < |a| :: Upper(a[i]) == Upper(b[i])
  }

  /** `string_to_field_type`: DOUBLE and NULL are not among the names it knows. */
  function TypeOf(s: string): (ty: FieldType) {
    if SameName(s, "INTEGER") || SameName(s, "INT") then TInt
    else if SameName(s, "FLOAT") then TFloat
    else if SameName(s, "STRING") then TString
    else if SameName(s, "BOOLEAN") || SameName(s, "BOOL") then TBool
    else if SameName(s, "DATETIME") then TDatetime
    else if SameName(s, "BLOB") then TBlob
    else TUnknown
  }

  // ---- metadata: read and dropped ----

  function ParseMetadata(st: Stream): (r: Parsed<()>)
    ensures r.Done? ==> Len(r.rest) < Len(st)
  {
    var t := Next(st);
    if t.tok != ObjectStart then Failed(InvalidInput) else MetadataLoop(t.rest)
  }

  function MetadataLoop(st: Stream): (r: Parsed<()>)
    ensures r.Done? ==> Len(r.rest) < Len(st)
    decreases Len(st)
  {
    var key := Next(st);
    if key.tok == ObjectEnd then Done((), key.rest)
    else if !key.tok.Str? then Failed(InvalidInput)
    else
      var colon := Next(key.rest);
      if colon.tok != Colon then Failed(InvalidInput)
      else
        var v := Next(colon.rest);
        var rest := if key.tok.value == "name" && v.tok.Str? then v.rest else Skip(v.tok, v.rest).rest;
        var sep := Next(rest);
        if sep.tok == Comma then MetadataLoop(sep.rest)
        else if sep.tok == ObjectEnd then Done((), sep.rest)
        else Failed(InvalidInput)
  }

  // ---- table schemas ----

  /** A column as parsed; without a "name" member it has none. */
  datatype RawColumn = RawColumn(name: Option<string>, ty: FieldType)

  /** The members of one object of a "fields" array. */
  function ColumnLoop(st: Stream, c: RawColumn): (r: Parsed<RawColumn>)
    ensures r.Done? ==> Len(r.rest) < Len(st)
    decreases Len(st)
  {
    var key := Next(st);
    if key.tok == ObjectEnd then Done(c, key.rest)
    else if !key.tok.Str? then Failed(InvalidInput)
    else
      var colon := Next(key.rest);
      if colon.tok != Colon then Failed(InvalidInput)
      else
        var v := Next(colon.rest);
        var known := key.tok.value == "name" || key.tok.value == "type";
        if known && !v.tok.Str? then Failed(InvalidInput)
        else
          var c' := if key.tok.value == "name" then c.(name := Some(v.tok.value))
                    else if key.tok.value == "type" then c.(ty := TypeOf(v.tok.value))
                    else c;
          var sep := Next(if known then v.rest else Skip(v.tok, v.rest).rest);
          if sep.tok == Comma then ColumnLoop(sep.rest, c')
          else if sep.tok == ObjectEnd then Done(c', sep.rest)
          else Failed(InvalidInput)
  }

  /** The objects of a "fields" array, behind its opening bracket. */
  function ColumnsLoop(st: Stream, cs: seq<RawColumn>): (r: Parsed<seq<RawColumn>>)
    ensures r.Done? ==> Len(r.rest) < Len(st)
    decreases Len(st)
  {
    var t := Next(st);
    if t.tok == ArrayEnd then Done(cs, t.rest)
    else if t.tok != ObjectStart then Failed(InvalidInput)
    else
      var c := ColumnLoop(t.rest, RawColumn(None, TString));
      if c.Failed? then Failed(c.code)
      else
        var sep := Next(c.rest);
        if sep.tok == Comma then ColumnsLoop(sep.rest, cs + [c.value])
        else if sep.tok == ArrayEnd then Done(cs + [c.value], sep.rest)
        else Failed(InvalidInput)
  }

  datatype RawSchema = RawSchema(name: string, columns: seq<RawColumn>)

  /** One member of a schema object other than "schema", up to and without the separator behind it. */
  function SchemaMember(key: string, st: Stream, acc: RawSchema): (r: Parsed<RawSchema>)
    ensures r.Done? ==> Len(r.rest) <= Len(st)
  {
    var v := Next(st);
    if key == "name" then
      if v.tok.Str? then Done(acc.(name := Clip(v.tok.value, MAX_TABLE_NAME - 1)), v.rest) else Failed(InvalidInput)
    else if key == "fields" then
      if v.tok != ArrayStart then Failed(InvalidInput)
      else
        var cs := ColumnsLoop(v.rest, acc.columns);
        if cs.Done? then Done(acc.(columns := cs.value), cs.rest) else Failed(cs.code)
    else Done(acc, Skip(v.tok, v.rest).rest)
  }

  /** The schema loop, with `t` read. A nested "schema" object is flattened into the outer one. */
  function SchemaLoop(t: Token, st: Stream, acc: RawSchema): (r: Parsed<RawSchema>)
    ensures r.Done? ==> Len(r.rest) <= Len(st) && (t != ObjectEnd ==> Len(r.rest) < Len(st))
    decreases Len(st)
  {
    if t == ObjectEnd then Done(acc, st)
    else if !t.Str? then Failed(InvalidInput)
    else
      var colon := Next(st);
      if colon.tok != Colon then Failed(InvalidInput)
      else if t.value == "schema" then
        var o := Next(colon.rest);
        if o.tok != ObjectStart then Failed(InvalidInput)
        else
          var key := Next(o.rest);
          SchemaLoop(key.tok, key.rest, acc)
      else
        var m := SchemaMember(t.value, colon.rest, acc);
        if m.Failed? then Failed(m.code)
        else
          var sep := Next(m.rest);
          if sep.tok == Comma then
            var key := Next(sep.rest);
            SchemaLoop(key.tok, key.rest, m.value)
          else if sep.tok == ObjectEnd then Done(m.value, sep.rest)
          else Failed(InvalidInput)
  }

  predicate HasTable(ts: seq<Table>, name: string) {
    exists i :: 0 <= i < |ts| && ts[i].name == name
  }

  /** The columns of a new table: the first is the primary key, all may be NULL. */
  function NewColumns(cs: seq<RawColumn>): (r: seq<Column>)
    requires forall i | 0 <= i < |cs| :: cs[i].name.Some?
    ensures |r| == |cs|
    ensures forall i | 0 <= i < |cs| :: r[i] == Column(cs[i].name.value, cs[i].ty, i == 0, false, true)
  {
    seq(|cs|, i requires 0 <= i < |cs| => Column(cs[i].name.value, cs[i].ty, i == 0, false, true))
  }

  datatype Added = Added(code: ErrorCode, tables: seq<Table>)

  /** `db_add_table`. */
  function AddTable(ts: seq<Table>, name: string, cs: seq<RawColumn>): (r: Added)
    ensures r.code != Success ==> r.tables == ts
  {
    if |cs| < 1 || |cs| > MAX_FIELDS_PER_TABLE then Added(InvalidInput, ts)
    else if HasTable(ts, name) then Added(DuplicateKey, ts)
    else if |ts| >= MAX_TABLES then Added(TableFull, ts)
    else if exists i | 0 <= i < |cs| :: cs[i].name.None? then Added(NullName, ts)
    else Added(Success, ts + [Table(Clip(name, MAX_TABLE_NAME - 1), NewColumns(cs), [], 0, 1)])
  }

  /** What `json_parse_table_schema` does once the object is read. */
  function CreateTable(ts: seq<Table>, s: RawSchema): (r: Added) {
    if s.name != "" && s.columns != [] then AddTable(ts, s.name, s.columns) else Added(InvalidInput, ts)
  }

  predicate HasColumns(ts: seq<Table>) {
    forall i | 0 <= i < |ts| :: |ts[i].columns| > 0
  }

  /** `json_parse_table_schema`; an opening brace may have been consumed before. */
  function ParseSchema(st: Stream, ts: seq<Table>): (r: Parsed<seq<Table>>)
    requires HasColumns(ts)
    ensures r.Done? ==> Len(r.rest) < Len(st) && HasColumns(r.value) && r.value != []
  {
    var a := Next(st);
    var b := if a.tok == ObjectStart then Next(a.rest) else a;
    var s := SchemaLoop(b.tok, b.rest, RawSchema("", []));
    if s.Failed? then Failed(s.code)
    else
      var c := CreateTable(ts, s.value);
      if c.code == Success then Done(c.tables, s.rest) else Failed(c.code)
  }

  // ---- records ----

  /** The value one token gives a column of type `ty`. */
  function ValueOf(ty: FieldType, t: Token): (v: Value) {
    var text := if t.Number? then Some(t.text) else if t.Str? then Some(t.value) else None;
    match ty
    case TInt => if text.Some? then IntV(Atoi(text.value)) else Zero(ty)
    case TString => if text.Some? then StrV(Clip(text.value, MAX_FIELD_LEN - 1)) else Zero(ty)
    case TFloat => if text.Some? then Raw(text.value) else Zero(ty)
    case TDouble => if text.Some? then Raw(text.value) else Zero(ty)
    case TBool =>
      if t.Boolean? then BoolV(t.flag)
      else if t.Number? then BoolV(Atoi(t.text) != 0)
      else if t.Str? then BoolV(SameName(t.value, "true") || SameName(t.value, "1") || SameName(t.value, "yes"))
      else Zero(ty)
    case TDatetime => if t.Str? then Raw(t.value) else Zero(ty)
    case _ => Zero(ty)
  }

  /** `json_parse_field_value`, stored over the field `old_`. */
  function ParseField(c: Column, t: Token, old_: Field): (f: Field) {
    if t == Null then Field(TNull, Zero(c.ty)) else Field(old_.ty, ValueOf(c.ty, t))
  }

  function Defaults(cs: seq<Column>): (fs: seq<Field>)
    ensures |fs| == |cs|
    ensures forall i | 0 <= i < |cs| :: fs[i] == Field(cs[i].ty, Zero(cs[i].ty))
  {
    seq(|cs|, i requires 0 <= i < |cs| => Field(cs[i].ty, Zero(cs[i].ty)))
  }

  /** The members of a record's "fields" object. An unknown name has one token dropped, not one value. */
  function FieldsLoop(st: Stream, cs: seq<Column>, fs: seq<Field>): (r: Parsed<seq<Field>>)
    requires |cs| == |fs|
    ensures r.Done? ==> Len(r.rest) < Len(st) && |r.value| == |cs|
    decreases Len(st)
  {
    var key := Next(st);
    if key.tok == ObjectEnd then Done(fs, key.rest)
    else if !key.tok.Str? then Failed(InvalidInput)
    else
      var colon := Next(key.rest);
      if colon.tok != Colon then Failed(InvalidInput)
      else
        var v := Next(colon.rest);
        var i := ColumnIndex(cs, key.tok.value);
        var fs' := if i < |cs| then fs[i := ParseField(cs[i], v.tok, fs[i])] else fs;
        var sep := Next(v.rest);
        if sep.tok == Comma then FieldsLoop(sep.rest, cs, fs')
        else if sep.tok == ObjectEnd then Done(fs', sep.rest)
        else Failed(InvalidInput)
  }

  datatype RawRecord = RawRecord(id: int, fields: seq<Field>)

  /** One member of a record object, without the separator behind it. */
  function RecordMember(key: string, st: Stream, cs: seq<Column>, acc: RawRecord): (r: Parsed<RawRecord>)
    requires |acc.fields| == |cs|
    ensures r.Done? ==> Len(r.rest) <= Len(st) && |r.value.fields| == |cs|
  {
    var v := Next(st);
    if key == "id" then
      Done(if v.tok.Number? then acc.(id := Atoi(v.tok.text)) else acc, v.rest)
    else if key == "fields" then
      if v.tok != ObjectStart then Failed(InvalidInput)
      else
        var fs := FieldsLoop(v.rest, cs, acc.fields);
        if fs.Done? then Done(acc.(fields := fs.value), fs.rest) else Failed(fs.code)
    else Done(acc, Skip(v.tok, v.rest).rest)
  }

  function RecordLoop(st: Stream, cs: seq<Column>, acc: RawRecord): (r: Parsed<RawRecord>)
    requires |acc.fields| == |cs|
    ensures r.Done? ==> Len(r.rest) < Len(st) && |r.value.fields| == |cs|
    decreases Len(st)
  {
    var key := Next(st);
    if key.tok == ObjectEnd then Done(acc, key.rest)
    else if !key.tok.Str? then Failed(InvalidInput)
    else
      var colon := Next(key.rest);
      if colon.tok != Colon then Failed(InvalidInput)
      else
        var m := RecordMember(key.tok.value, colon.rest, cs, acc);
        if m.Failed? then Failed(m.code)
        else
          var sep := Next(m.rest);
          if sep.tok == Comma then RecordLoop(sep.rest, cs, m.value)
          else if sep.tok == ObjectEnd then Done(m.value, sep.rest)
          else Failed(InvalidInput)
  }

  /** The first primary-key column is overwritten with the record's id. */
  function SetKey(cs: seq<Column>, fs: seq<Field>, id: int): (r: seq<Field>)
    requires |cs| == |fs|
    ensures |r| == |fs|
  {
    if cs == [] then fs
    else if cs[0].primaryKey then [Field(TInt, IntV(id))] + fs[1..]
    else [fs[0]] + SetKey(cs[1..], fs[1..], id)
  }

  /** The value the shared id counter starts with; loading never draws an id from it. */
  const FIRST_GENERATED_ID := 1000

  datatype Stored = Stored(code: ErrorCode, table: Table)

  /** A record without an id is dropped, and so is one whose id is taken. */
  function StoreRecord(t: Table, r: RawRecord, now: Stamp): (s: Stored)
    requires |r.fields| == |t.columns| > 0
    ensures s.table.columns == t.columns
  {
    if r.id == -1 then Stored(Success, t)
    else
      var i := Insert(t, SetKey(t.columns, r.fields, r.id), FIRST_GENERATED_ID, now);
      Stored(if i.code == DuplicateKey then Success else i.code, i.table)
  }

  /** The array of records, behind its opening bracket. */
  function RecordsLoop(st: Stream, t: Table, now: Stamp): (r: Parsed<Table>)
    requires |t.columns| > 0
    ensures r.Done? ==> Len(r.rest) < Len(st) && r.value.columns == t.columns
    decreases Len(st)
  {
    var o := Next(st);
    if o.tok == ArrayEnd then Done(t, o.rest)
    else if o.tok != ObjectStart then Failed(InvalidInput)
    else
      var rec := RecordLoop(o.rest, t.columns, RawRecord(-1, Defaults(t.columns)));
      if rec.Failed? then Failed(rec.code)
      else
        var s := StoreRecord(t, rec.value, now);
        if s.code != Success then Failed(s.code)
        else
          var sep := Next(rec.rest);
          if sep.tok == Comma then RecordsLoop(sep.rest, s.table, now)
          else if sep.tok == ArrayEnd then Done(s.table, sep.rest)
          else Failed(InvalidInput)
  }

  function ParseRecords(st: Stream, t: Table, now: Stamp): (r: Parsed<Table>)
    requires |t.columns| > 0
    ensures r.Done? ==> Len(r.rest) < Len(st) && r.value.columns == t.columns
  {
    var a := Next(st);
    if a.tok != ArrayStart then Failed(InvalidInput) else RecordsLoop(a.rest, t, now)
  }

  // ---- the array of tables, in either layout ----

  /** The value of a member beside a nested schema; records go to the table just made. */
  function Sibling(key: string, st: Stream, ts: seq<Table>, now: Stamp): (r: Parsed<seq<Table>>)
    requires HasColumns(ts) && ts != []
    ensures r.Done? ==> Len(r.rest) <= Len(st) && HasColumns(r.value) && |r.value| == |ts|
  {
    if key == "records" then
      var p := ParseRecords(st, ts[|ts| - 1], now);
      if p.Done? then Done(ts[|ts| - 1 := p.value], p.rest) else Failed(p.code)
    else
      var v := Next(st);
      var s := Skip(v.tok, v.rest);
      if s.ok then Done(ts, s.rest) else Failed(InvalidInput)
  }

  function SiblingsLoop(st: Stream, ts: seq<Table>, now: Stamp): (r: Parsed<seq<Table>>)
    requires HasColumns(ts) && ts != []
    ensures r.Done? ==> Len(r.rest) < Len(st) && HasColumns(r.value)
    decreases Len(st)
  {
    var t := Next(st);
    if t.tok == ObjectEnd then Done(ts, t.rest)
    else if t.tok != Comma then Failed(InvalidInput)
    else
      var key := Next(t.rest);
      if !key.tok.Str? then Failed(InvalidInput)
      else
        var colon := Next(key.rest);
        if colon.tok != Colon then Failed(InvalidInput)
        else
          var s := Sibling(key.tok.value, colon.rest, ts, now);
          if s.Done? then SiblingsLoop(s.rest, s.value, now) else Failed(s.code)
  }

  /** The array of tables; `started` when the next table's opening brace has been read. */
  function TablesLoop(st: Stream, ts: seq<Table>, started: bool, now: Stamp): (r: Parsed<seq<Table>>)
    requires HasColumns(ts)
    ensures r.Done? ==> Len(r.rest) < Len(st) && HasColumns(r.value)
    decreases Len(st), 1
  {
    var o := if started then Read(ObjectStart, st) else Next(st);
    if o.tok == ArrayEnd then Done(ts, o.rest)
    else if o.tok != ObjectStart then Failed(InvalidInput)
    else
      var s := ParseSchema(o.rest, ts);
      if s.Failed? then Failed(s.code) else BehindSchema(s.rest, s.value, now)
  }

  /** Behind a schema: the end of a flat table, the end of a nested one, or the nested one's next member. */
  function BehindSchema(st: Stream, ts: seq<Table>, now: Stamp): (r: Parsed<seq<Table>>)
    requires HasColumns(ts) && ts != []
    ensures r.Done? ==> Len(r.rest) < Len(st) && HasColumns(r.value)
    decreases Len(st), 0
  {
    var t := Next(st);
    if t.tok == ArrayEnd then Done(ts, t.rest)
    else if t.tok == ObjectEnd then TableSeparator(t.rest, ts, now)
    else if t.tok != Comma then Failed(InvalidInput)
    else
      var n := Next(t.rest);
      if n.tok == ObjectStart then TablesLoop(n.rest, ts, true, now)
      else if n.tok == ArrayEnd then Done(ts, n.rest)
      else if !n.tok.Str? then Failed(InvalidInput)
      else
        var colon := Next(n.rest);
        if colon.tok != Colon then Failed(InvalidInput)
        else
          var s := Sibling(n.tok.value, colon.rest, ts, now);
          if s.Failed? then Failed(s.code)
          else
            var l := SiblingsLoop(s.rest, s.value, now);
            if l.Failed? then Failed(l.code) else TableSeparator(l.rest, l.value, now)
  }

  function TableSeparator(st: Stream, ts: seq<Table>, now: Stamp): (r: Parsed<seq<Table>>)
    requires HasColumns(ts)
    ensures r.Done? ==> Len(r.rest) < Len(st) && HasColumns(r.value)
    decreases Len(st), 2
  {
    var sep := Next(st);
    if sep.tok == Comma then TablesLoop(sep.rest, ts, false, now)
    else if sep.tok == ArrayEnd then Done(ts, sep.rest)
    else Failed(InvalidInput)
  }

  // ---- the whole text ----

  /** The value of one member of the outermost object. */
  function TopMember(key: string, st: Stream, ts: seq<Table>, now: Stamp): (r: Parsed<seq<Table>>)
    requires HasColumns(ts)
    ensures r.Done? ==> Len(r.rest) <= Len(st) && HasColumns(r.value)
  {
    if key == "metadata" then
      var m := ParseMetadata(st);
      if m.Done? then Done(ts, m.rest) else Failed(m.code)
    else if key == "tables" then
      var a := Next(st);
      if a.tok != ArrayStart then Failed(InvalidInput) else TablesLoop(a.rest, ts, false, now)
    else
      var v := Next(st);
      var s := Skip(v.tok, v.rest);
      if s.ok then Done(ts, s.rest) else Failed(InvalidInput)
  }

  function TopLoop(st: Stream, ts: seq<Table>, now: Stamp): (r: Parsed<seq<Table>>)
    requires HasColumns(ts)
    ensures r.Done? ==> HasColumns(r.value)
    decreases Len(st)
  {
    var key := Next(st);
    if key.tok == ObjectEnd then Done(ts, key.rest)
    else if !key.tok.Str? then Failed(InvalidInput)
    else
      var colon := Next(key.rest);
      if colon.tok != Colon then Failed(InvalidInput)
      else
        var m := TopMember(key.tok.value, colon.rest, ts, now);
        if m.Failed? then Failed(m.code)
        else
          var sep := Next(m.rest);
          if sep.tok == Comma then TopLoop(sep.rest, m.value, now)
          else if sep.tok == ObjectEnd then Done(m.value, sep.rest)
          else Failed(InvalidInput)
  }

  /** `db_load_from_file` on the tokens of a text: the tables, or nothing when the text is rejected. */
  function Load(st: Stream, now: Stamp): (r: Option<seq<Table>>) {
    var o := Next(st);
    if o.tok != ObjectStart then None
    else
      var p := TopLoop(o.rest, [], now);
      if p.Done? then Some(p.value) else None
  }
}
