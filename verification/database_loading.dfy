/** Loading a whole database: what a JSON tree means as tables, columns and records, and that loading gives just that. */
module DatabaseLoading {
  import opened Chars
  import opened Lexer
  import opened TokenStream
  import opened Layout
  import opened Json
  import opened Escaping
  import opened Schema
  import opened Skipper
  import opened Loader
  import opened Catalog
  import opened RoundTrip
  import opened Durability
  import opened Scalars
  import opened RecordLoading

  // ---- columns and schemas ----

  /** Every value written under the name is a string. */
  predicate StringsFor(ms: Members, name: string) {
    ms.Member? ==> (ms.key == name ==> ms.value.JStr?) && StringsFor(ms.more, name)
  }

  lemma {:induction false} LastString(ms: Members, name: string)
    requires StringsFor(ms, name)
    ensures LastFor(ms, name).Some? ==> LastFor(ms, name).value.JStr?
  {
    if ms.Member? {
      LastString(ms.more, name);
    }
  }

  /** The last text written under the name, or `other`. */
  function TextFor(ms: Members, name: string, other: Option<string>): (s: Option<string>)
    requires StringsFor(ms, name)
  {
    LastString(ms, name);
    var j := LastFor(ms, name);
    if j.Some? then Some(j.value.body) else other
  }

  /** A column object is accepted when its names and types are strings; the last of each counts, the type is STRING by default. */
  predicate ColumnMeans(ms: Members, c: RawColumn) {
    && StringsFor(ms, "name") && StringsFor(ms, "type")
    && c.name == TextFor(ms, "name", None)
    && var ty := TextFor(ms, "type", None); c.ty == if ty.Some? then TypeOf(ty.value) else TString
  }

  lemma {:induction false} ColumnOfFrom(ms: Members, c: RawColumn)
    ensures var v := ColumnOf(ms, c);
            && (v.Good? <==> StringsFor(ms, "name") && StringsFor(ms, "type"))
            && (v.Good? ==>
                  && v.value.name == TextFor(ms, "name", c.name)
                  && var ty := TextFor(ms, "type", None); v.value.ty == if ty.Some? then TypeOf(ty.value) else c.ty)
    decreases ms
  {
    hide TypeOf;
    if ms.Member? && ms.value.JStr? && ms.key == "name" {
      ColumnOfFrom(ms.more, c.(name := Some(ms.value.body)));
    } else if ms.Member? && ms.value.JStr? && ms.key == "type" {
      ColumnOfFrom(ms.more, c.(ty := TypeOf(ms.value.body)));
    } else if ms.Member? {
      ColumnOfFrom(ms.more, c);
    }
  }

  lemma {:induction false} ColumnExactly(ms: Members, c: RawColumn)
    ensures ColumnOf(ms, RawColumn(None, TString)) == Good(c) <==> ColumnMeans(ms, c)
    ensures ColumnOf(ms, RawColumn(None, TString)).Bad? <==> !StringsFor(ms, "name") || !StringsFor(ms, "type")
  {
    ColumnOfFrom(ms, RawColumn(None, TString));
    hide TypeOf;
  }

  /** An array of column objects, one by one. */
  predicate ColumnsMean(es: Elements, cs: seq<RawColumn>) {
    if es.NoElements? then cs == []
    else es.value.JObj? && cs != [] && ColumnMeans(es.value.members, cs[0]) && ColumnsMean(es.more, cs[1..])
  }

  lemma {:induction false} ColumnsExactly(es: Elements, acc: seq<RawColumn>, cs: seq<RawColumn>)
    ensures ColumnsOf(es, acc) == Good(acc + cs) <==> ColumnsMean(es, cs)
    decreases es
  {
    if es.NoElements? {
      assert acc == acc + cs <==> cs == [] by { OnlyEmpty(acc, cs); }
    } else if es.value.JObj? {
      hide ColumnOf, ColumnMeans;
      var v := ColumnOf(es.value.members, RawColumn(None, TString));
      if v.Good? {
        ColumnsGrow(es.more, acc + [v.value]);
        ColumnExactly(es.value.members, v.value);
        if cs != [] {
          ColumnExactly(es.value.members, cs[0]);
          ColumnsExactly(es.more, acc + [v.value], cs[1..]);
          Regrouped(acc, v.value, cs[1..]);
          FirstDiffers(acc, v.value, cs);
        }
      } else if cs != [] {
        ColumnExactly(es.value.members, cs[0]);
      }
    }
  }

  lemma {:induction false} OnlyEmpty<T>(a: seq<T>, b: seq<T>)
    ensures a == a + b <==> b == []
  {
    assert |a + b| == |a| + |b|;
  }

  /** What comes behind `acc` begins with `x` when a longer sequence does. */
  lemma {:induction false} FirstDiffers<T>(acc: seq<T>, x: T, b: seq<T>)
    requires b != []
    ensures b[0] == x ==> [x] + b[1..] == b
    ensures acc + [x] <= acc + b ==> b[0] == x
  {
    assert (acc + b)[|acc|] == b[0] && (acc + [x])[|acc|] == x;
  }

  lemma {:induction false} ColumnsGrow(es: Elements, acc: seq<RawColumn>)
    ensures var v := ColumnsOf(es, acc); v.Good? ==> acc <= v.value
    decreases es
  {
    if es.Element? && es.value.JObj? {
      hide ColumnOf;
      var v := ColumnOf(es.value.members, RawColumn(None, TString));
      if v.Good? {
        ColumnsGrow(es.more, acc + [v.value]);
      }
    }
  }

  /** The columns of all "fields" arrays, one behind the other; none of them is anything but an array. */
  ghost predicate SchemaColumns(ms: Members, cs: seq<RawColumn>)
    decreases ms
  {
    if ms.NoMembers? then cs == []
    else if ms.key == "fields" then
      && ms.value.JArr?
      && exists n :: 0 <= n <= |cs| && ColumnsMean(ms.value.elements, cs[..n]) && SchemaColumns(ms.more, cs[n..])
    else SchemaColumns(ms.more, cs)
  }

  lemma {:induction false} FieldsPart(es: Elements, more: Members, cs: seq<RawColumn>, n: nat)
    requires n <= |cs| && ColumnsMean(es, cs[..n]) && SchemaColumns(more, cs[n..])
    ensures SchemaColumns(Member("fields", JArr(es), more), cs)
  {
  }

  /** A schema whose members are read from `acc` on gives these columns exactly when they are the ones written. */
  lemma {:induction false} SchemaOfFrom(ms: Members, acc: RawSchema, name: string, cs: seq<RawColumn>)
    ensures SchemaOf(ms, acc) == Good(RawSchema(name, acc.columns + cs))
            <==> StringsFor(ms, "name") && SchemaColumns(ms, cs)
                 && var s := TextFor(ms, "name", None); name == if s.Some? then Clip(s.value, 63) else acc.name
    decreases ms
  {
    if ms.NoMembers? {
      OnlyEmpty(acc.columns, cs);
    } else if ms.key == "name" {
      if ms.value.JStr? {
        SchemaOfFrom(ms.more, acc.(name := Clip(ms.value.body, 63)), name, cs);
      }
    } else if ms.key == "fields" {
      if ms.value.JArr? {
        SchemaOfFields(ms, acc, name, cs);
      }
    } else {
      SchemaOfFrom(ms.more, acc, name, cs);
    }
  }

  lemma {:induction false} SchemaOfFields(ms: Members, acc: RawSchema, name: string, cs: seq<RawColumn>)
    requires ms.Member? && ms.key == "fields" && ms.value.JArr?
    ensures SchemaOf(ms, acc) == Good(RawSchema(name, acc.columns + cs))
            <==> StringsFor(ms, "name") && SchemaColumns(ms, cs)
                 && var s := TextFor(ms, "name", None); name == if s.Some? then Clip(s.value, 63) else acc.name
    decreases ms, 0
  {
    var es := ms.value.elements;
    hide ColumnsOf, ColumnsMean, StringsFor, LastFor, TextFor;
    SameNameMember(ms);
    var v := ColumnsOf(es, acc.columns);
    if SchemaOf(ms, acc) == Good(RawSchema(name, acc.columns + cs)) {
      SchemaGrows(ms.more, acc.(columns := v.value));
      ColumnsGrow(es, acc.columns);
      var part := v.value[|acc.columns|..];
      assert v.value == acc.columns + part;
      PartInFront(acc.columns, part, cs);
      ColumnsExactly(es, acc.columns, part);
      SchemaOfFrom(ms.more, acc.(columns := v.value), name, cs[|part|..]);
      assert v.value + cs[|part|..] == acc.columns + cs;
      FieldsPart(es, ms.more, cs, |part|);
    }
    if SchemaColumns(ms, cs) {
      var n :| 0 <= n <= |cs| && ColumnsMean(es, cs[..n]) && SchemaColumns(ms.more, cs[n..]);
      ColumnsExactly(es, acc.columns, cs[..n]);
      SchemaOfFrom(ms.more, acc.(columns := acc.columns + cs[..n]), name, cs[n..]);
      assert acc.columns + cs[..n] + cs[n..] == acc.columns + cs;
    }
  }

  lemma {:induction false} SameNameMember(ms: Members)
    requires ms.Member? && ms.key != "name"
    ensures StringsFor(ms, "name") <==> StringsFor(ms.more, "name")
    ensures StringsFor(ms, "name") ==> TextFor(ms, "name", None) == TextFor(ms.more, "name", None)
  {
  }

  lemma {:induction false} PartInFront<T>(a: seq<T>, part: seq<T>, b: seq<T>)
    requires a + part <= a + b
    ensures |part| <= |b| && part == b[..|part|]
  {
    assert forall i | 0 <= i < |part| :: (a + b)[|a| + i] == b[i] && (a + part)[|a| + i] == part[i];
  }

  lemma {:induction false} SchemaGrows(ms: Members, acc: RawSchema)
    ensures var v := SchemaOf(ms, acc); v.Good? ==> acc.columns <= v.value.columns
    decreases ms
  {
    if ms.Member? {
      if ms.key == "fields" && ms.value.JArr? {
        ColumnsGrow(ms.value.elements, acc.columns);
      }
      hide ColumnsOf;
      var m := SchemaMemberOf(ms.key, ms.value, acc);
      if m.Good? {
        SchemaGrows(ms.more, m.value);
      }
    }
  }

  // ---- new tables ----

  /** The columns a table is given: the first is its primary key, none is unique, all may be NULL. */
  predicate MadeOf(cs: seq<Column>, raws: seq<RawColumn>) {
    && |cs| == |raws|
    && forall i | 0 <= i < |raws| ::
         raws[i].name.Some? && cs[i] == Column(raws[i].name.value, raws[i].ty, i == 0, false, true)
  }

  /**
   * A new table is made exactly when it has 1 to 50 columns, no table bears its name, fewer than 100 tables are there,
   * and every column has a name; it stands behind the others, empty, under its name cut to 63 characters.
   */
  lemma {:induction false} AddTableExactly(ts: seq<Table>, name: string, raws: seq<RawColumn>)
    ensures var a := AddTable(ts, name, raws);
            && (a.code == Success <==>
                  && 1 <= |raws| <= 50 && |ts| < 100 && (forall i | 0 <= i < |ts| :: ts[i].name != name)
                  && forall i | 0 <= i < |raws| :: raws[i].name.Some?)
            && (a.code != Success ==> a.tables == ts)
            && (a.code == Success ==>
                  && |a.tables| == |ts| + 1 && a.tables[..|ts|] == ts
                  && var t := a.tables[|ts|];
                     t == Table(Clip(name, 63), t.columns, [], 0, 1) && MadeOf(t.columns, raws))
  {
    assert HasTable(ts, name) <==> exists i :: 0 <= i < |ts| && ts[i].name == name;
  }

  /** What a schema object makes of the tables so far. */
  ghost predicate TableMeans(ts: seq<Table>, ms: Members, us: seq<Table>) {
    exists name, raws, cs ::
      && SchemaMeans(ms, name, raws) && Accepted(ts, name, raws)
      && MadeOf(cs, raws) && us == ts + [Table(name, cs, [], 0, 1)]
  }

  /** The last "name", cut to 63 characters, and the columns of all "fields". */
  ghost predicate SchemaMeans(ms: Members, name: string, raws: seq<RawColumn>) {
    && StringsFor(ms, "name") && SchemaColumns(ms, raws)
    && var s := TextFor(ms, "name", None);
       if s.None? then name == "" else if |s.value| <= 63 then name == s.value else name == s.value[..63]
  }

  predicate Accepted(ts: seq<Table>, name: string, raws: seq<RawColumn>) {
    && name != "" && 1 <= |raws| <= 50 && |ts| < 100
    && (forall i | 0 <= i < |ts| :: ts[i].name != name)
    && forall i | 0 <= i < |raws| :: raws[i].name.Some?
  }

  lemma {:induction false} SchemaExactly(ms: Members, name: string, raws: seq<RawColumn>)
    ensures SchemaOf(ms, RawSchema("", [])) == Good(RawSchema(name, raws)) <==> SchemaMeans(ms, name, raws)
  {
    SchemaOfFrom(ms, RawSchema("", []), name, raws);
    assert [] + raws == raws;
    hide SchemaOf, SchemaColumns, StringsFor, LastFor;
  }

  lemma {:induction false} CreateExactly(ts: seq<Table>, name: string, raws: seq<RawColumn>)
    requires |name| <= 63
    ensures var a := CreateTable(ts, RawSchema(name, raws));
            && (a.code == Success <==> Accepted(ts, name, raws))
            && (a.code == Success ==> exists cs :: MadeOf(cs, raws) && a.tables == ts + [Table(name, cs, [], 0, 1)])
  {
    AddTableExactly(ts, name, raws);
    hide AddTable;
    var a := AddTable(ts, name, raws);
    if a.code == Success {
      var t := a.tables[|ts|];
      assert a.tables == ts + [t];
      assert MadeOf(t.columns, raws) && a.tables == ts + [Table(name, t.columns, [], 0, 1)];
    }
  }

  lemma {:induction false} SameColumns(cs: seq<Column>, ds: seq<Column>, raws: seq<RawColumn>)
    requires MadeOf(cs, raws) && MadeOf(ds, raws)
    ensures cs == ds
  {
  }

  /** A schema object makes a table exactly as it means. */
  lemma {:induction false} TableOfExactly(ts: seq<Table>, ms: Members, us: seq<Table>)
    ensures TableOf(ts, ms) == Good(us) <==> TableMeans(ts, ms, us)
  {
    var s := SchemaOf(ms, RawSchema("", []));
    hide SchemaOf, SchemaMeans, CreateTable, MadeOf, Accepted;
    if TableOf(ts, ms) == Good(us) {
      var name, raws := s.value.name, s.value.columns;
      SchemaExactly(ms, name, raws);
      ShortName(ms, name, raws);
      CreateExactly(ts, name, raws);
    }
    if TableMeans(ts, ms, us) {
      var name, raws, cs :| && SchemaMeans(ms, name, raws) && Accepted(ts, name, raws)
                            && MadeOf(cs, raws) && us == ts + [Table(name, cs, [], 0, 1)];
      SchemaExactly(ms, name, raws);
      ShortName(ms, name, raws);
      CreateExactly(ts, name, raws);
      var ds :| MadeOf(ds, raws) && CreateTable(ts, s.value).tables == ts + [Table(name, ds, [], 0, 1)];
      SameColumns(cs, ds, raws);
    }
  }

  lemma {:induction false} ShortName(ms: Members, name: string, raws: seq<RawColumn>)
    requires SchemaMeans(ms, name, raws)
    ensures |name| <= 63
  {
  }

  // ---- the members beside a nested schema ----

  /** Every "records" member is an array of record objects; the others may be anything. */
  predicate SiblingsShape(ms: Members) {
    ms.Member? ==> (ms.key == "records" ==> ms.value.JArr? && RecordsShape(ms.value.elements)) && SiblingsShape(ms.more)
  }

  function Last(ts: seq<Table>): (t: Table)
    requires ts != []
  {
    ts[|ts| - 1]
  }

  function WithLast(ts: seq<Table>, t: Table): (us: seq<Table>)
    requires ts != []
    ensures us != []
  {
    ts[|ts| - 1 := t]
  }

  /** The records go into the last table, array by array. */
  ghost predicate SiblingsStore(ts: seq<Table>, ms: Members, now: Stamp, us: seq<Table>)
    requires ts != [] && SiblingsShape(ms)
    decreases ms
  {
    if ms.NoMembers? then us == ts
    else if ms.key == "records" then
      exists w :: StoresAll(Last(ts), ms.value.elements, now, w) && SiblingsStore(WithLast(ts, w), ms.more, now, us)
    else SiblingsStore(ts, ms.more, now, us)
  }

  ghost predicate SiblingsOverflow(ts: seq<Table>, ms: Members, now: Stamp)
    requires ts != [] && SiblingsShape(ms)
    decreases ms
  {
    && ms.Member?
    && if ms.key == "records" then
         || Overflows(Last(ts), ms.value.elements, now)
         || exists w :: StoresAll(Last(ts), ms.value.elements, now, w) && SiblingsOverflow(WithLast(ts, w), ms.more, now)
       else SiblingsOverflow(ts, ms.more, now)
  }

  predicate LoaderTables(ts: seq<Table>) {
    forall i | 0 <= i < |ts| :: LoaderColumns(ts[i].columns)
  }

  lemma {:induction false} LoaderHasColumns(ts: seq<Table>)
    requires LoaderTables(ts)
    ensures HasColumns(ts)
  {
  }

  /** One sibling, and how what it does composes with the siblings behind it. */
  lemma {:induction false} SiblingReads(ts: seq<Table>, ms: Members, now: Stamp, k: Stream)
    requires ms.Member? && SiblingsShape(ms) && ts != [] && LoaderTables(ts)
    ensures HasColumns(ts)
    ensures var s := Sibling(ms.key, Toks(ms.value, k), ts, now);
            && (s.Failed? ==> s.code == TableFull && SiblingsOverflow(ts, ms, now))
            && (s.Done? ==>
                  && s.rest == k && s.value != [] && LoaderTables(s.value)
                  && (forall us | SiblingsStore(s.value, ms.more, now, us) :: SiblingsStore(ts, ms, now, us))
                  && (SiblingsOverflow(s.value, ms.more, now) ==> SiblingsOverflow(ts, ms, now)))
  {
    LoaderHasColumns(ts);
    HeadOf(ms.value, k);
    if ms.key == "records" {
      RecordsLoopReads(ms.value.elements, Last(ts), now, k);
    } else {
      SkipTree(ms.value, k);
    }
    hide Toks, ElementToks, RecordsLoop, Skip, StoresAll, Overflows, LoaderColumns;
  }

  lemma {:induction false} SiblingsRead(ts: seq<Table>, ms: Members, now: Stamp, k: Stream)
    requires SiblingsShape(ms) && ts != [] && LoaderTables(ts)
    ensures HasColumns(ts)
    ensures var p := SiblingsLoop(MoreMembers(ms, k), ts, now);
            && (p.Done? ==> p.rest == k && p.value != [] && LoaderTables(p.value) && SiblingsStore(ts, ms, now, p.value))
            && (p.Failed? ==> p.code == TableFull && SiblingsOverflow(ts, ms, now))
    decreases ms
  {
    LoaderHasColumns(ts);
    MemberStart(ms, k);
    if ms.Member? {
      var rest := MoreMembers(ms.more, k);
      SiblingReads(ts, ms, now, rest);
      hide Toks, MemberToks, MoreMembers, Sibling, LoaderColumns, LoaderTables, SiblingsStore, SiblingsOverflow, StoresAll;
      var s := Sibling(ms.key, Toks(ms.value, rest), ts, now);
      if s.Done? {
        SiblingsRead(s.value, ms.more, now, k);
      }
    }
  }

  // ---- the array of tables ----

  /** A table as it may be written: a schema object itself, or one whose first member is "schema". */
  predicate TableShape(j: Json) {
    && j.JObj?
    && if Nested(j) then NoSchemaKey(j.members.value.members) && SiblingsShape(j.members.more) else NoSchemaKey(j.members)
  }

  predicate Nested(j: Json) {
    j.JObj? && j.members.Member? && j.members.key == "schema" && j.members.value.JObj?
  }

  function SchemaIn(j: Json): (ms: Members)
    requires j.JObj?
  {
    if Nested(j) then j.members.value.members else j.members
  }

  function SiblingsIn(j: Json): (ms: Members)
    requires TableShape(j)
    ensures SiblingsShape(ms)
  {
    if Nested(j) then j.members.more else NoMembers
  }

  predicate TablesShape(es: Elements) {
    es.Element? ==> TableShape(es.value) && TablesShape(es.more)
  }

  /** One table: made by its schema, filled by its records. */
  ghost predicate Fills(ts: seq<Table>, j: Json, now: Stamp, us: seq<Table>)
    requires TableShape(j)
  {
    exists made :: TableMeans(ts, SchemaIn(j), made) && made != [] && SiblingsStore(made, SiblingsIn(j), now, us)
  }

  /** The table is rejected: by its schema, or because its records do not fit. */
  ghost predicate Rejected(ts: seq<Table>, j: Json, now: Stamp)
    requires TableShape(j)
  {
    || (forall made :: !TableMeans(ts, SchemaIn(j), made))
    || exists made :: TableMeans(ts, SchemaIn(j), made) && made != [] && SiblingsOverflow(made, SiblingsIn(j), now)
  }

  ghost predicate FillsAll(ts: seq<Table>, es: Elements, now: Stamp, us: seq<Table>)
    requires TablesShape(es)
    decreases es
  {
    if es.NoElements? then us == ts
    else exists done :: Fills(ts, es.value, now, done) && FillsAll(done, es.more, now, us)
  }

  ghost predicate SomeRejected(ts: seq<Table>, es: Elements, now: Stamp)
    requires TablesShape(es)
    decreases es
  {
    && es.Element?
    && (|| Rejected(ts, es.value, now)
        || exists done :: Fills(ts, es.value, now, done) && SomeRejected(done, es.more, now))
  }

  lemma {:induction false} TableTokensOf(j: Json, k: Stream)
    requires Nested(j)
    ensures Toks(j, k) == Cons(ObjectStart, Cons(Str("schema"), Cons(Colon,
              Cons(ObjectStart, MemberToks(SchemaIn(j), MoreMembers(j.members.more, k))))))
  {
    HeadOf(j, k);
    MemberStart(j.members, k);
    HeadOf(j.members.value, MoreMembers(j.members.more, k));
  }

  /** The schema of a table, in either layout, behind the table's opening brace. */
  lemma {:induction false} SchemaParsedOf(ts: seq<Table>, j: Json, k: Stream)
    requires TableShape(j) && HasColumns(ts)
    ensures Toks(j, k).head == ObjectStart
    ensures ParseSchema(Toks(j, k).tail, ts)
         == Before(TableOf(ts, SchemaIn(j)), if Nested(j) then MoreMembers(j.members.more, k) else k)
  {
    HeadOf(j, k);
    if Nested(j) {
      var behind := MoreMembers(j.members.more, k);
      TableTokensOf(j, k);
      hide Toks, MemberToks, MoreMembers, SchemaLoop, SchemaOf, CreateTable;
      NestedSchemaReads(SchemaIn(j), behind);
    } else {
      ParseSchemaReads(ts, j.members, false, k);
    }
  }

  lemma {:induction false} MadeIsLoaderTable(ts: seq<Table>, ms: Members, us: seq<Table>)
    requires LoaderTables(ts) && TableMeans(ts, ms, us)
    ensures LoaderTables(us) && us != []
  {
    hide SchemaMeans;
  }

  /** Behind a nested schema the parser goes on as the loop over the siblings does, and then reads a separator. */
  lemma {:induction false} BehindIsSiblings(st: Stream, ts: seq<Table>, now: Stamp)
    requires HasColumns(ts) && ts != []
    requires Next(st).tok == ObjectEnd || (Next(st).tok == Comma && Next(Next(st).rest).tok.Str?)
    ensures var p := SiblingsLoop(st, ts, now);
            BehindSchema(st, ts, now) == if p.Done? then TableSeparator(p.rest, p.value, now) else Failed(p.code)
  {
    hide Sibling, TableSeparator, TablesLoop;
  }

  /** Behind a nested schema the siblings are read, and then what separates the tables. */
  lemma {:induction false} BehindNested(ts: seq<Table>, ms: Members, now: Stamp, k: Stream)
    requires SiblingsShape(ms) && ts != [] && LoaderTables(ts)
    ensures HasColumns(ts)
    ensures var p := SiblingsLoop(MoreMembers(ms, k), ts, now);
            && (p.Done? ==> LoaderTables(p.value) && p.rest == k && HasColumns(p.value))
            && BehindSchema(MoreMembers(ms, k), ts, now)
               == if p.Done? then TableSeparator(k, p.value, now) else Failed(p.code)
  {
    LoaderHasColumns(ts);
    MemberStart(ms, k);
    hide Toks, MemberToks, MoreMembers, TableSeparator, BehindSchema, SiblingsLoop, LoaderTables, SiblingsStore,
         SiblingsOverflow, SiblingsShape, HasColumns;
    SiblingsRead(ts, ms, now, k);
    BehindIsSiblings(MoreMembers(ms, k), ts, now);
    var p := SiblingsLoop(MoreMembers(ms, k), ts, now);
    if p.Done? {
      LoaderHasColumns(p.value);
    }
  }

  /** What the parser makes of the rest of the array, seen from the tables `ts`. */
  ghost predicate Delivers(p: Parsed<seq<Table>>, ts: seq<Table>, es: Elements, now: Stamp, k: Stream)
    requires TablesShape(es)
  {
    match p
    case Done(us, rest) => rest == k && LoaderTables(us) && FillsAll(ts, es, now, us)
    case Failed(_) => SomeRejected(ts, es, now)
  }

  lemma {:induction false} DeliversNext(p: Parsed<seq<Table>>, ts: seq<Table>, es: Elements, done: seq<Table>, now: Stamp, k: Stream)
    requires es.Element? && TablesShape(es) && Fills(ts, es.value, now, done) && Delivers(p, done, es.more, now, k)
    ensures Delivers(p, ts, es, now, k)
  {
    hide Fills, LoaderTables;
  }

  lemma {:induction false} DeliversNothing(ts: seq<Table>, now: Stamp, k: Stream)
    requires LoaderTables(ts)
    ensures Delivers(Done(ts, k), ts, NoElements, now, k)
  {
  }

  lemma {:induction false} DeliversRejection(code: ErrorCode, ts: seq<Table>, es: Elements, now: Stamp, k: Stream)
    requires es.Element? && TablesShape(es) && Rejected(ts, es.value, now)
    ensures Delivers(Failed(code), ts, es, now, k)
  {
    hide Rejected;
  }

  /** From the opening of a table on: its schema, what is beside it, and the tables behind it. */
  lemma {:induction false} TablesLoopDelivers(es: Elements, ts: seq<Table>, started: bool, now: Stamp, k: Stream)
    requires TablesShape(es) && LoaderTables(ts) && (started ==> es.Element?)
    ensures HasColumns(ts)
    ensures var st := ElementToks(es, k);
            && st.Cons?
            && Delivers(TablesLoop(if started then st.tail else st, ts, started, now), ts, es, now, k)
    decreases es, 1
  {
    hide Toks, ElementToks, MoreElements, MoreMembers, ParseSchema, TableOf, BehindSchema, Delivers, TableShape, LoaderTables;
    LoaderHasColumns(ts);
    ElementStart(es, k);
    if es.NoElements? {
      DeliversNothing(ts, now, k);
    } else {
      var j, rest := es.value, MoreElements(es.more, k);
      assert TableShape(j) && j.JObj? by { ObjectShape(j); }
      HeadOf(j, rest);
      SchemaParsedOf(ts, j, rest);
      var v := TableOf(ts, SchemaIn(j));
      if v.Good? {
        TableOfExactly(ts, SchemaIn(j), v.value);
        MadeIsLoaderTable(ts, SchemaIn(j), v.value);
        LoaderHasColumns(v.value);
        BehindDelivers(es, ts, v.value, now, k);
      } else {
        assert Rejected(ts, j, now) by { BadIsRejected(ts, j, now); }
        DeliversRejection(v.code, ts, es, now, k);
      }
    }
  }

  lemma {:induction false} ObjectShape(j: Json)
    requires TableShape(j)
    ensures j.JObj?
  {
  }

  lemma {:induction false} BadIsRejected(ts: seq<Table>, j: Json, now: Stamp)
    requires TableShape(j) && TableOf(ts, SchemaIn(j)).Bad?
    ensures Rejected(ts, j, now)
  {
    hide TableOf, TableMeans;
    forall made ensures !TableMeans(ts, SchemaIn(j), made) {
      TableOfExactly(ts, SchemaIn(j), made);
    }
  }

  lemma {:induction false} BehindDelivers(es: Elements, ts: seq<Table>, made: seq<Table>, now: Stamp, k: Stream)
    requires es.Element? && TablesShape(es) && LoaderTables(made) && made != [] && TableMeans(ts, SchemaIn(es.value), made)
    ensures HasColumns(made)
    ensures var rest := MoreElements(es.more, k);
            Delivers(BehindSchema(if Nested(es.value) then MoreMembers(es.value.members.more, rest) else rest, made, now),
                     ts, es, now, k)
    decreases es, 0
  {
    hide Toks, ElementToks, MoreElements, MoreMembers, TableMeans, Delivers, LoaderTables, TablesLoop, SiblingsStore,
         SiblingsOverflow, BehindSchema, SiblingsLoop;
    LoaderHasColumns(made);
    var j, rest := es.value, MoreElements(es.more, k);
    if Nested(j) {
      var ms := SiblingsIn(j);
      SiblingsRead(made, ms, now, rest);
      BehindNested(made, ms, now, rest);
      var p := SiblingsLoop(MoreMembers(ms, rest), made, now);
      if p.Done? {
        assert Fills(ts, j, now, p.value);
        SeparatorDelivers(es.more, p.value, now, k);
        DeliversNext(TableSeparator(rest, p.value, now), ts, es, p.value, now, k);
      } else {
        assert Rejected(ts, j, now);
        DeliversRejection(p.code, ts, es, now, k);
      }
    } else {
      assert Fills(ts, j, now, made) by { NothingBeside(made, now); }
      FlatDelivers(es.more, made, now, k);
      DeliversNext(BehindSchema(rest, made, now), ts, es, made, now, k);
    }
  }

  lemma {:induction false} NothingBeside(ts: seq<Table>, now: Stamp)
    requires ts != []
    ensures SiblingsStore(ts, NoMembers, now, ts)
  {
  }

  lemma {:induction false} SeparatorDelivers(es: Elements, ts: seq<Table>, now: Stamp, k: Stream)
    requires TablesShape(es) && LoaderTables(ts)
    ensures HasColumns(ts) && Delivers(TableSeparator(MoreElements(es, k), ts, now), ts, es, now, k)
    decreases es, 2
  {
    hide Toks, ElementToks, Delivers, LoaderTables, TablesLoop;
    LoaderHasColumns(ts);
    ElementStart(es, k);
    if es.NoElements? {
      DeliversNothing(ts, now, k);
    } else {
      TablesLoopDelivers(es, ts, false, now, k);
    }
  }

  /** Behind a flat table the comma and the next opening brace are read at once. */
  lemma {:induction false} FlatDelivers(es: Elements, ts: seq<Table>, now: Stamp, k: Stream)
    requires TablesShape(es) && LoaderTables(ts) && ts != []
    ensures HasColumns(ts) && Delivers(BehindSchema(MoreElements(es, k), ts, now), ts, es, now, k)
    decreases es, 2
  {
    hide Toks, ElementToks, Delivers, LoaderTables, TablesLoop;
    LoaderHasColumns(ts);
    ElementStart(es, k);
    if es.NoElements? {
      DeliversNothing(ts, now, k);
    } else {
      HeadOf(es.value, MoreElements(es.more, k));
      TablesLoopDelivers(es, ts, true, now, k);
    }
  }

  // ---- the whole text ----

  /** A database as it may be written: "metadata" is an object, "tables" an array of tables, all else is free. */
  predicate TopShape(ms: Members) {
    ms.Member? ==>
      && (ms.key == "metadata" ==> ms.value.JObj?)
      && (ms.key == "tables" ==> ms.value.JArr? && TablesShape(ms.value.elements))
      && TopShape(ms.more)
  }

  /** The tables of all "tables" arrays, one behind the other. */
  ghost predicate DatabaseMeans(ts: seq<Table>, ms: Members, now: Stamp, us: seq<Table>)
    requires TopShape(ms)
    decreases ms
  {
    if ms.NoMembers? then us == ts
    else if ms.key == "tables" then
      exists done :: FillsAll(ts, ms.value.elements, now, done) && DatabaseMeans(done, ms.more, now, us)
    else DatabaseMeans(ts, ms.more, now, us)
  }

  ghost predicate DatabaseRejected(ts: seq<Table>, ms: Members, now: Stamp)
    requires TopShape(ms)
    decreases ms
  {
    && ms.Member?
    && if ms.key == "tables" then
         || SomeRejected(ts, ms.value.elements, now)
         || exists done :: FillsAll(ts, ms.value.elements, now, done) && DatabaseRejected(done, ms.more, now)
       else DatabaseRejected(ts, ms.more, now)
  }

  lemma {:induction false} TopMemberReads(ts: seq<Table>, ms: Members, now: Stamp, k: Stream)
    requires ms.Member? && TopShape(ms) && LoaderTables(ts)
    ensures HasColumns(ts)
    ensures var m := TopMember(ms.key, Toks(ms.value, k), ts, now);
            && (m.Failed? ==> DatabaseRejected(ts, ms, now))
            && (m.Done? ==>
                  && m.rest == k && LoaderTables(m.value)
                  && (forall us | DatabaseMeans(m.value, ms.more, now, us) :: DatabaseMeans(ts, ms, now, us))
                  && (DatabaseRejected(m.value, ms.more, now) ==> DatabaseRejected(ts, ms, now)))
  {
    LoaderHasColumns(ts);
    HeadOf(ms.value, k);
    if ms.key == "metadata" {
      MetadataRead(ms.value.members, k);
    } else if ms.key == "tables" {
      TablesLoopDelivers(ms.value.elements, ts, false, now, k);
    } else {
      SkipTree(ms.value, k);
    }
    hide Toks, ElementToks, MemberToks, TablesLoop, MetadataLoop, Skip, FillsAll, SomeRejected, LoaderColumns;
  }

  lemma {:induction false} TopLoopReads(ts: seq<Table>, ms: Members, now: Stamp, k: Stream)
    requires TopShape(ms) && LoaderTables(ts)
    ensures HasColumns(ts)
    ensures var p := TopLoop(MemberToks(ms, k), ts, now);
            && (p.Done? ==> DatabaseMeans(ts, ms, now, p.value))
            && (p.Failed? ==> DatabaseRejected(ts, ms, now))
    decreases ms
  {
    LoaderHasColumns(ts);
    MemberStart(ms, k);
    if ms.Member? {
      var rest := MoreMembers(ms.more, k);
      MemberStart(ms.more, k);
      TopMemberReads(ts, ms, now, rest);
      var m := TopMember(ms.key, Toks(ms.value, rest), ts, now);
      NoTopMember(ms.more, now);
      hide Toks, MemberToks, MoreMembers, TopMember, LoaderTables, DatabaseMeans, DatabaseRejected;
      if m.Done? {
        LoaderHasColumns(m.value);
        TopLoopReads(m.value, ms.more, now, k);
      }
    }
  }

  lemma {:induction false} NoTopMember(ms: Members, now: Stamp)
    requires TopShape(ms)
    ensures ms.NoMembers? ==> forall ts :: DatabaseMeans(ts, ms, now, ts)
  {
  }

  // ---- there is only one outcome ----

  lemma {:induction false} OneSiblings(ts: seq<Table>, ms: Members, now: Stamp, us: seq<Table>)
    requires ts != [] && SiblingsShape(ms) && SiblingsStore(ts, ms, now, us)
    ensures !SiblingsOverflow(ts, ms, now) && forall vs | SiblingsStore(ts, ms, now, vs) :: vs == us
    decreases ms
  {
    if ms.Member? && ms.key == "records" {
      hide StoresAll, Overflows, WithLast;
      var es := ms.value.elements;
      var w :| StoresAll(Last(ts), es, now, w) && SiblingsStore(WithLast(ts, w), ms.more, now, us);
      OneOutcome(Last(ts), es, now, w);
      OneSiblings(WithLast(ts, w), ms.more, now, us);
    } else if ms.Member? {
      OneSiblings(ts, ms.more, now, us);
    }
  }

  lemma {:induction false} OneMeaning(ts: seq<Table>, ms: Members, us: seq<Table>, vs: seq<Table>)
    requires TableMeans(ts, ms, us) && TableMeans(ts, ms, vs)
    ensures us == vs
  {
    TableOfExactly(ts, ms, us);
    TableOfExactly(ts, ms, vs);
    hide TableMeans, TableOf;
  }

  lemma {:induction false} OneFilling(ts: seq<Table>, j: Json, now: Stamp, us: seq<Table>)
    requires TableShape(j) && Fills(ts, j, now, us)
    ensures !Rejected(ts, j, now) && forall vs | Fills(ts, j, now, vs) :: vs == us
  {
    ObjectShape(j);
    hide TableMeans, SiblingsStore, SiblingsOverflow, TableShape, SchemaIn, SiblingsIn;
    var made :| TableMeans(ts, SchemaIn(j), made) && made != [] && SiblingsStore(made, SiblingsIn(j), now, us);
    OneSiblings(made, SiblingsIn(j), now, us);
    forall other | TableMeans(ts, SchemaIn(j), other) ensures other == made {
      OneMeaning(ts, SchemaIn(j), made, other);
    }
  }

  lemma {:induction false} OneArray(ts: seq<Table>, es: Elements, now: Stamp, us: seq<Table>)
    requires TablesShape(es) && FillsAll(ts, es, now, us)
    ensures !SomeRejected(ts, es, now) && forall vs | FillsAll(ts, es, now, vs) :: vs == us
    decreases es
  {
    if es.Element? {
      hide Fills, Rejected, TableShape;
      var done :| Fills(ts, es.value, now, done) && FillsAll(done, es.more, now, us);
      OneFilling(ts, es.value, now, done);
      OneArray(done, es.more, now, us);
    }
  }

  lemma {:induction false} OneDatabase(ts: seq<Table>, ms: Members, now: Stamp, us: seq<Table>)
    requires TopShape(ms) && DatabaseMeans(ts, ms, now, us)
    ensures !DatabaseRejected(ts, ms, now) && forall vs | DatabaseMeans(ts, ms, now, vs) :: vs == us
    decreases ms
  {
    if ms.Member? && ms.key == "tables" {
      hide FillsAll, SomeRejected;
      var done :| FillsAll(ts, ms.value.elements, now, done) && DatabaseMeans(done, ms.more, now, us);
      OneArray(ts, ms.value.elements, now, done);
      OneDatabase(done, ms.more, now, us);
    } else if ms.Member? {
      OneDatabase(ts, ms.more, now, us);
    }
  }

  /**
   * Loading any JSON text whose tables, schemas and records have the shapes the loader reads, whatever else stands in
   * it, in whatever order and spacing, gives exactly the tables that the text means; it is rejected exactly when a
   * schema makes no table or the records of one do not fit.
   */
  lemma {:induction false} AnyDatabaseLoads(ms: Members, ps: seq<Piece>, now: Stamp)
    requires TopShape(ms) && IsLayout(ps, JObj(ms)) && PiecesOk(ps)
    ensures forall us :: LoadText(Text(ps), now) == Some(us) <==> DatabaseMeans([], ms, now, us)
    ensures LoadText(Text(ps), now) == None <==> DatabaseRejected([], ms, now)
  {
    hide Toks, Emit, Text, StreamOf, PiecesOk, TopLoop, DatabaseMeans, DatabaseRejected, TopShape;
    assert StreamOf("") == End by { EmptyStream(); }
    LexLayout(ps, JObj(ms), "");
    assert Text(ps) + "" == Text(ps);
    HeadOf(JObj(ms), End);
    TopLoopReads([], ms, now, End);
    forall us | DatabaseMeans([], ms, now, us)
      ensures !DatabaseRejected([], ms, now) && forall vs | DatabaseMeans([], ms, now, vs) :: vs == us
    {
      OneDatabase([], ms, now, us);
    }
  }
}
