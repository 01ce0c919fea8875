/** What a schema object means, read off its JSON tree; the flat and the nested layout mean the same. */
module Catalog {
  import opened Chars
  import opened Lexer
  import opened TokenStream
  import opened Json
  import opened Escaping
  import opened Schema
  import opened Skipper
  import opened Loader

  /** A meaning read off a tree, or the error code of the parser that rejects it. */
  datatype Verdict<+T> = Good(value: T) | Bad(code: ErrorCode)

  /** The parser's outcome on a tree that is followed by the tokens `k`. */
  function Before<T>(v: Verdict<T>, k: Stream): (r: Parsed<T>) {
    match v
    case Good(x) => Done(x, k)
    case Bad(e) => Failed(e)
  }

  // ---- meanings ----

  /** A column object: the last "name" and "type" count; other members are ignored. */
  function ColumnOf(ms: Members, c: RawColumn): (v: Verdict<RawColumn>) {
    match ms
    case NoMembers => Good(c)
    case Member(key, j, more) =>
      if key == "name" then (if j.JStr? then ColumnOf(more, c.(name := Some(j.body))) else Bad(InvalidInput))
      else if key == "type" then (if j.JStr? then ColumnOf(more, c.(ty := TypeOf(j.body))) else Bad(InvalidInput))
      else ColumnOf(more, c)
  }

  function ColumnsOf(es: Elements, cs: seq<RawColumn>): (v: Verdict<seq<RawColumn>>) {
    match es
    case NoElements => Good(cs)
    case Element(j, more) =>
      if !j.JObj? then Bad(InvalidInput)
      else
        var c := ColumnOf(j.members, RawColumn(None, TString));
        if c.Bad? then Bad(c.code) else ColumnsOf(more, cs + [c.value])
  }

  function SchemaMemberOf(key: string, j: Json, acc: RawSchema): (v: Verdict<RawSchema>) {
    if key == "name" then
      (if j.JStr? then Good(acc.(name := Clip(j.body, MAX_TABLE_NAME - 1))) else Bad(InvalidInput))
    else if key == "fields" then
      if !j.JArr? then Bad(InvalidInput)
      else
        var cs := ColumnsOf(j.elements, acc.columns);
        if cs.Good? then Good(acc.(columns := cs.value)) else Bad(cs.code)
    else Good(acc)
  }

  /** A schema object without a nested "schema". */
  function SchemaOf(ms: Members, acc: RawSchema): (v: Verdict<RawSchema>) {
    if ms.NoMembers? then Good(acc)
    else
      var m := SchemaMemberOf(ms.key, ms.value, acc);
      if m.Bad? then m else SchemaOf(ms.more, m.value)
  }

  // ---- the loops compute the meanings ----

  lemma {:induction false} HeadOf(j: Json, k: Stream)
    ensures var h := Toks(j, k).head;
            && (h.Str? <==> j.JStr?) && (h == ArrayStart <==> j.JArr?) && (h == ObjectStart <==> j.JObj?)
            && (j.JStr? ==> Toks(j, k) == Cons(Str(j.body), k))
            && (j.JArr? ==> Toks(j, k) == Cons(ArrayStart, ElementToks(j.elements, k)))
            && (j.JObj? ==> Toks(j, k) == Cons(ObjectStart, MemberToks(j.members, k)))
            && h !in {ObjectEnd, ArrayEnd, Comma, Colon, NoToken, EndOfText}
  {
  }

  /** The first tokens of a list of members, and what separates them from the rest. */
  lemma {:induction false} MemberStart(ms: Members, k: Stream)
    ensures ms.NoMembers? ==> MemberToks(ms, k) == Cons(ObjectEnd, k) == MoreMembers(ms, k)
    ensures ms.Member? ==>
              && MemberToks(ms, k) == Cons(Str(ms.key), Cons(Colon, Toks(ms.value, MoreMembers(ms.more, k))))
              && MoreMembers(ms, k) == Cons(Comma, MemberToks(ms, k))
  {
  }

  lemma {:induction false} ElementStart(es: Elements, k: Stream)
    ensures es.NoElements? ==> ElementToks(es, k) == Cons(ArrayEnd, k) == MoreElements(es, k)
    ensures es.Element? ==>
              && ElementToks(es, k) == Toks(es.value, MoreElements(es.more, k))
              && MoreElements(es, k) == Cons(Comma, ElementToks(es, k))
  {
  }

  lemma {:induction false} ColumnLoopReads(ms: Members, c: RawColumn, k: Stream)
    ensures ColumnLoop(MemberToks(ms, k), c) == Before(ColumnOf(ms, c), k)
    decreases ms
  {
    MemberStart(ms, k);
    if ms.Member? {
      var rest := MoreMembers(ms.more, k);
      MemberStart(ms.more, k);
      HeadOf(ms.value, rest);
      SkipTree(ms.value, rest);
      hide Toks, MoreMembers, MemberToks, Skip, TypeOf;
      ColumnLoopReads(ms.more, c, k);
      if ms.value.JStr? {
        ColumnLoopReads(ms.more, c.(name := Some(ms.value.body)), k);
        ColumnLoopReads(ms.more, c.(ty := TypeOf(ms.value.body)), k);
      }
    }
  }

  lemma {:induction false} ColumnsLoopReads(es: Elements, cs: seq<RawColumn>, k: Stream)
    ensures ColumnsLoop(ElementToks(es, k), cs) == Before(ColumnsOf(es, cs), k)
    decreases es
  {
    ElementStart(es, k);
    if es.Element? {
      var rest := MoreElements(es.more, k);
      ElementStart(es.more, k);
      HeadOf(es.value, rest);
      hide Toks, MoreElements, ElementToks, ColumnLoop, ColumnOf;
      if es.value.JObj? {
        var c := RawColumn(None, TString);
        ColumnLoopReads(es.value.members, c, rest);
        if ColumnOf(es.value.members, c).Good? {
          ColumnsLoopReads(es.more, cs + [ColumnOf(es.value.members, c).value], k);
        }
      }
    }
  }

  lemma {:induction false} SchemaMemberReads(key: string, j: Json, acc: RawSchema, k: Stream)
    ensures SchemaMember(key, Toks(j, k), acc) == Before(SchemaMemberOf(key, j, acc), k)
  {
    HeadOf(j, k);
    SkipTree(j, k);
    if j.JArr? {
      ColumnsLoopReads(j.elements, acc.columns, k);
    }
    hide Toks, ColumnsLoop, ColumnsOf, Skip, ElementToks;
  }

  predicate NoSchemaKey(ms: Members) {
    ms.Member? ==> ms.key != "schema" && NoSchemaKey(ms.more)
  }

  /** The schema loop, started with the token behind the opening brace. */
  function SchemaFrom(st: Stream, acc: RawSchema): (r: Parsed<RawSchema>) {
    var t := Next(st);
    SchemaLoop(t.tok, t.rest, acc)
  }

  lemma {:induction false} SchemaLoopReads(ms: Members, acc: RawSchema, k: Stream)
    requires NoSchemaKey(ms)
    ensures SchemaFrom(MemberToks(ms, k), acc) == Before(SchemaOf(ms, acc), k)
    decreases ms
  {
    MemberStart(ms, k);
    if ms.Member? {
      var rest := MoreMembers(ms.more, k);
      MemberStart(ms.more, k);
      SchemaMemberReads(ms.key, ms.value, acc, rest);
      hide Toks, MoreMembers, MemberToks, SchemaMember, SchemaMemberOf;
      var m := SchemaMemberOf(ms.key, ms.value, acc);
      if m.Good? {
        SchemaLoopReads(ms.more, m.value, k);
      }
    }
  }

  // ---- both layouts of a table ----

  /** A table is written flat, as its schema object, or nested, with the schema object as a member. */
  function TableJson(ms: Members, nested: bool): (j: Json)
    ensures j.JObj?
  {
    if nested then JObj(Member("schema", JObj(ms), NoMembers)) else JObj(ms)
  }

  /** The meaning of one schema object for a catalogue. */
  function TableOf(ts: seq<Table>, ms: Members): (r: Verdict<seq<Table>>) {
    var s := SchemaOf(ms, RawSchema("", []));
    if s.Bad? then Bad(s.code)
    else
      var c := CreateTable(ts, s.value);
      if c.code == Success then Good(c.tables) else Bad(c.code)
  }

  /** Behind the opening brace of a table in either layout, the schema parser makes the same of it. */
  lemma {:induction false} ParseSchemaReads(ts: seq<Table>, ms: Members, nested: bool, k: Stream)
    requires NoSchemaKey(ms) && HasColumns(ts)
    ensures var inner := if nested then Cons(ObjectEnd, k) else k;
            ParseSchema(Toks(TableJson(ms, nested), k).tail, ts) == Before(TableOf(ts, ms), inner)
  {
    hide Toks, MemberToks, MoreMembers, SchemaLoop, SchemaOf, CreateTable;
    if nested {
      NestedTokens(ms, k);
      NestedSchemaReads(ms, Cons(ObjectEnd, k));
    } else {
      HeadOf(TableJson(ms, nested), k);
      MemberStart(ms, k);
      SchemaLoopReads(ms, RawSchema("", []), k);
    }
  }

  lemma {:induction false} NestedTokens(ms: Members, k: Stream)
    ensures Toks(TableJson(ms, true), k).tail
         == Cons(Str("schema"), Cons(Colon, Cons(ObjectStart, MemberToks(ms, Cons(ObjectEnd, k)))))
  {
    var outer := Member("schema", JObj(ms), NoMembers);
    HeadOf(TableJson(ms, true), k);
    MemberStart(outer, k);
    MemberStart(NoMembers, k);
    HeadOf(JObj(ms), Cons(ObjectEnd, k));
  }

  /** A nested schema is read up to its own closing brace, whatever follows in the outer object. */
  lemma {:induction false} NestedSchemaReads(ms: Members, k: Stream)
    requires NoSchemaKey(ms)
    ensures var st := Cons(Str("schema"), Cons(Colon, Cons(ObjectStart, MemberToks(ms, k))));
            SchemaFrom(st, RawSchema("", [])) == Before(SchemaOf(ms, RawSchema("", [])), k)
  {
    hide MemberToks, SchemaOf, SchemaMember;
    SchemaLoopReads(ms, RawSchema("", []), k);
  }

  /** A table in one of the layouts. */
  datatype Written = Written(schema: Members, nested: bool)

  function CatalogElements(ws: seq<Written>): (es: Elements) {
    if ws == [] then NoElements else Element(TableJson(ws[0].schema, ws[0].nested), CatalogElements(ws[1..]))
  }

  /** The catalogue a list of schemas means; it does not depend on any layout. */
  function CatalogOf(ts: seq<Table>, schemas: seq<Members>): (r: Verdict<seq<Table>>)
    decreases |schemas|
  {
    if schemas == [] then Good(ts)
    else
      var t := TableOf(ts, schemas[0]);
      if t.Bad? then t else CatalogOf(t.value, schemas[1..])
  }

  function Schemas(ws: seq<Written>): (mss: seq<Members>)
    ensures |mss| == |ws| && forall i | 0 <= i < |ws| :: mss[i] == ws[i].schema
  {
    seq(|ws|, i requires 0 <= i < |ws| => ws[i].schema)
  }

  lemma {:induction false} TableOfHasColumns(ts: seq<Table>, ms: Members)
    requires HasColumns(ts)
    ensures var t := TableOf(ts, ms); t.Good? ==> HasColumns(t.value) && t.value != []
  {
    hide SchemaOf;
  }

  /** Reading the array of tables from an element whose opening brace may already be read. */
  lemma {:induction false} TablesLoopReads(ws: seq<Written>, ts: seq<Table>, started: bool, now: Stamp, k: Stream)
    requires HasColumns(ts) && forall i | 0 <= i < |ws| :: NoSchemaKey(ws[i].schema)
    requires started ==> ws != []
    ensures var st := ElementToks(CatalogElements(ws), k);
            && st.Cons?
            && TablesLoop(if started then st.tail else st, ts, started, now) == Before(CatalogOf(ts, Schemas(ws)), k)
    decreases |ws|, 0
  {
    hide Toks, ElementToks, MoreElements, ParseSchema, TableOf, TableJson, BehindSchema;
    ElementStart(CatalogElements(ws), k);
    if ws != [] {
      var w, more := ws[0], CatalogElements(ws[1..]);
      var rest := MoreElements(more, k);
      assert CatalogElements(ws) == Element(TableJson(w.schema, w.nested), more);
      HeadOf(TableJson(w.schema, w.nested), rest);
      ParseSchemaReads(ts, w.schema, w.nested, rest);
      TableOfHasColumns(ts, w.schema);
      assert Schemas(ws)[0] == w.schema && Schemas(ws)[1..] == Schemas(ws[1..]);
      var t := TableOf(ts, w.schema);
      if t.Good? {
        BehindSchemaReads(ws[1..], t.value, w.nested, now, k);
      }
    }
  }

  lemma {:induction false} BehindSchemaReads(ws: seq<Written>, ts: seq<Table>, nested: bool, now: Stamp, k: Stream)
    requires HasColumns(ts) && ts != [] && forall i | 0 <= i < |ws| :: NoSchemaKey(ws[i].schema)
    ensures var rest := MoreElements(CatalogElements(ws), k);
            BehindSchema(if nested then Cons(ObjectEnd, rest) else rest, ts, now) == Before(CatalogOf(ts, Schemas(ws)), k)
    decreases |ws|, 1
  {
    hide Toks, ElementToks, MoreElements, ParseSchema, TableOf, TableJson;
    var es := CatalogElements(ws);
    ElementStart(es, k);
    if ws != [] {
      assert es.Element? && es.value == TableJson(ws[0].schema, ws[0].nested);
      HeadOf(es.value, MoreElements(es.more, k));
      TablesLoopReads(ws, ts, !nested, now, k);
    }
  }

  /** A database text that holds only schemas. */
  function CatalogJson(ws: seq<Written>): (j: Json) {
    JObj(Member("tables", JArr(CatalogElements(ws)), NoMembers))
  }

  /**
   * Layout equivalence. Whatever JSON objects the schemas are, as long as none has a "schema" member of
   * its own, and whichever of them are written flat and which nested, loading gives the catalogue the
   * schemas mean, in their order, or is rejected because the schemas are.
   */
  lemma {:induction false} LayoutsAgree(ws: seq<Written>, now: Stamp)
    requires forall i | 0 <= i < |ws| :: NoSchemaKey(ws[i].schema)
    ensures Load(Toks(CatalogJson(ws), End), now)
         == var c := CatalogOf([], Schemas(ws)); if c.Good? then Some(c.value) else None
  {
    hide Toks, ElementToks, MemberToks, MoreMembers, TablesLoop, CatalogOf;
    var k := Cons(ObjectEnd, End);
    TablesLoopReads(ws, [], false, now, k);
    var ms := Member("tables", JArr(CatalogElements(ws)), NoMembers);
    HeadOf(CatalogJson(ws), End);
    MemberStart(ms, End);
    MemberStart(NoMembers, End);
    HeadOf(ms.value, k);
  }
}
