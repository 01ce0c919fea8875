/** Saving writes a column's name twice, escaped and raw. What loading makes of a raw name that closes too early, or never. */
module Unwritable {
  import opened Lexer
  import opened TokenStream
  import opened Layout
  import opened Json
  import opened Escaping
  import opened Decimal
  import opened Schema
  import opened Serializer
  import opened Skipper
  import opened Save
  import opened Loader
  import opened Catalog
  import opened RoundTrip
  import opened Durability

  // ---- every document begins with the one it continues ----

  predicate Begins(a: Doc, b: Doc) {
    a <= b
  }

  lemma {:induction false} BeginsRules()
    ensures forall a, b, c {:trigger Begins(a, b), Begins(b, c)} :: Begins(a, b) && Begins(b, c) ==> Begins(a, c)
    ensures forall a: Doc, b: Doc {:trigger a + b} :: Begins(a, a + b)
    ensures forall a {:trigger Begins(a, a)} :: Begins(a, a)
    ensures forall pre, l: nat, ps {:trigger Line(pre, l, ps)} :: Begins(pre, Line(pre, l, ps))
  {
    forall pre: Doc, l: nat, ps: Doc ensures Begins(pre, Line(pre, l, ps)) {
      assert Line(pre, l, ps) == pre + ([Ws(Newline(l))] + ps);
    }
  }

  lemma {:induction false} ColumnBegins(pre: Doc, c: Column, l: nat)
    ensures Begins(pre, ColumnDoc(pre, c, l))
  {
    BeginsRules();
    hide Begins, Line, Key, Escape, TypeName;
  }

  lemma {:induction false} ColumnsBegin(pre: Doc, cs: seq<Column>, l: nat, n: nat)
    requires n <= |cs|
    ensures Begins(pre, ColumnsDoc(pre, cs, l, n))
    decreases n
  {
    BeginsRules();
    hide Begins, ColumnDoc;
    if n > 0 {
      ColumnsBegin(pre, cs, l, n - 1);
      ColumnBegins(ColumnsDoc(pre, cs, l, n - 1), cs[n - 1], l);
    }
  }

  lemma {:induction false} SchemaBegins(pre: Doc, t: Table, l: nat)
    ensures Begins(pre, SchemaDoc(pre, t, l))
  {
    BeginsRules();
    hide Begins, Line, Key, Escape, ColumnsDoc, IntText;
    var b := Line(Line(pre, l, Key("schema")) + OPEN, l + 1, Key("name")) + [Tok(Str(Escape(t.name)))] + COMMA;
    ColumnsBegin(Line(b, l + 1, Key("fields")) + OPEN_ARRAY, t.columns, l + 2, |t.columns|);
  }

  lemma {:induction false} FieldsBegin(pre: Doc, cs: seq<Column>, fs: seq<Field>, l: nat, n: nat)
    requires n <= |cs| == |fs|
    ensures Begins(pre, FieldsDoc(pre, cs, fs, l, n))
    decreases n
  {
    BeginsRules();
    hide Begins, Line, Key, FieldToken;
    if n > 0 {
      FieldsBegin(pre, cs, fs, l, n - 1);
    }
  }

  lemma {:induction false} RecordBegins(pre: Doc, cs: seq<Column>, r: Record, l: nat)
    requires |cs| == |r.fields|
    ensures Begins(pre, RecordDoc(pre, cs, r, l))
  {
    BeginsRules();
    hide Begins, Line, Key, FieldsDoc, IntText;
    var b := Line(Line(pre, l, OPEN), l + 1, Key("id")) + [Tok(Number(IntText(r.id)))] + COMMA;
    FieldsBegin(Line(b, l + 1, Key("fields")) + OPEN, cs, r.fields, l + 2, |cs|);
  }

  lemma {:induction false} RecordListBegins(pre: Doc, cs: seq<Column>, rs: seq<Record>, l: nat, n: nat)
    requires n <= |rs| && AllShaped(cs, rs)
    ensures Begins(pre, RecordListDoc(pre, cs, rs, l, n))
    decreases n
  {
    BeginsRules();
    hide Begins, RecordDoc;
    if n > 0 {
      var before := RecordListDoc(pre, cs, rs, l, n - 1);
      RecordListBegins(pre, cs, rs, l, n - 1);
      RecordBegins(if n > 1 then before + COMMA else before, cs, rs[n - 1], l);
    }
  }

  /** A table's text up to the comma behind its schema. */
  function SchemaHead(pre: Doc, t: Table, l: nat): (d: Doc) {
    SchemaDoc(Line(pre, l, OPEN), t, l + 1) + [Tok(Comma)]
  }

  lemma {:induction false} TableBegins(pre: Doc, t: Table, l: nat)
    requires Shaped(t)
    ensures Begins(SchemaHead(pre, t, l), TableDoc(pre, t, l)) && Begins(pre, SchemaHead(pre, t, l))
  {
    BeginsRules();
    hide Begins, Line, Key, RecordListDoc, SchemaDoc;
    var a := SchemaDoc(Line(pre, l, OPEN), t, l + 1);
    SchemaBegins(Line(pre, l, OPEN), t, l + 1);
    assert a + COMMA == a + [Tok(Comma)] + BREAK;
    RecordListBegins(Line(a + COMMA, l + 1, Key("records")) + OPEN_ARRAY, t.columns, t.records, l + 2, |t.records|);
  }

  /** The tables in front of the one at `n`, and the comma behind them. */
  function TablesHead(pre: Doc, ts: seq<Table>, l: nat, n: nat): (d: Doc)
    requires n <= |ts| && AllTablesShaped(ts)
  {
    var before := TablesDoc(pre, ts, l, n);
    if n > 0 then before + [Tok(Comma)] else before
  }

  lemma {:induction false} TablesBegin(pre: Doc, ts: seq<Table>, l: nat, i: nat, n: nat)
    requires i < n <= |ts| && AllTablesShaped(ts)
    ensures Begins(SchemaHead(TablesHead(pre, ts, l, i), ts[i], l), TablesDoc(pre, ts, l, n))
    decreases n
  {
    BeginsRules();
    hide Begins, TableDoc, SchemaHead, Shaped;
    TableBegins(TablesHead(pre, ts, l, n - 1), ts[n - 1], l);
    if i < n - 1 {
      TablesBegin(pre, ts, l, i, n - 1);
    }
  }

  const TABLES_LEVEL: nat := 2

  /** The saved text in front of the first table. */
  function FileHead(count: nat, now: Stamp): (d: Doc) {
    Line(MetadataDoc([Tok(ObjectStart)], count, now, 1) + [Tok(Comma)], 1, Key("tables")) + [Tok(ArrayStart)]
  }

  /** The saved text up to the comma behind the schema of table `i`. */
  function SaveHead(ts: seq<Table>, now: Stamp, i: nat): (d: Doc)
    requires i < |ts| && AllTablesShaped(ts)
  {
    SchemaHead(TablesHead(FileHead(|ts|, now), ts, TABLES_LEVEL, i), ts[i], TABLES_LEVEL)
  }

  lemma {:induction false} SaveBegins(ts: seq<Table>, now: Stamp, i: nat)
    requires i < |ts| && AllTablesShaped(ts)
    ensures Begins(SaveHead(ts, now, i), SaveDoc(ts, now))
  {
    BeginsRules();
    hide Begins, SchemaHead, TablesHead, TablesDoc, Line, Key, MetadataDoc, Shaped;
    TablesBegin(FileHead(|ts|, now), ts, TABLES_LEVEL, i, |ts|);
  }

  // ---- the tokens up to there ----

  /** The tokens of whole tables, each with the comma behind it, in front of `k`. */
  function TablesAheadOf(ts: seq<Table>, k: Stream): (st: Stream)
    requires AllTablesShaped(ts)
  {
    if ts == [] then k else Toks(TableTree(ts[0]), Cons(Comma, TablesAheadOf(ts[1..], k)))
  }

  lemma {:induction false} AheadSnoc(ts: seq<Table>, t: Table, k: Stream)
    requires AllTablesShaped(ts) && Shaped(t)
    ensures AllTablesShaped(ts + [t])
    ensures TablesAheadOf(ts + [t], k) == TablesAheadOf(ts, Toks(TableTree(t), Cons(Comma, k)))
  {
    hide Toks, TableTree, Shaped;
    if ts == [] {
      assert ts + [t] == [t] && [t][1..] == [];
      assert TablesAheadOf([], k) == k;
    } else {
      assert (ts + [t])[1..] == ts[1..] + [t];
      AheadSnoc(ts[1..], t, k);
    }
  }

  lemma {:induction false} TablesHeadEmit(pre: Doc, ts: seq<Table>, l: nat, n: nat, k: Stream)
    requires n <= |ts| && AllTablesShaped(ts)
    ensures Emit(TablesHead(pre, ts, l, n), k) == Emit(pre, TablesAheadOf(ts[..n], k))
    decreases n
  {
    EmitRules();
    hide Emit, TableDoc, TableTree, Toks, Shaped;
    if n > 0 {
      var st := Toks(TableTree(ts[n - 1]), Cons(Comma, k));
      assert ts[..n] == ts[..n - 1] + [ts[n - 1]];
      AheadSnoc(ts[..n - 1], ts[n - 1], k);
      TableEmit(TablesHead(pre, ts, l, n - 1), ts[n - 1], l, Cons(Comma, k));
      TablesHeadEmit(pre, ts, l, n - 1, st);
    }
  }

  /** A table up to the comma behind its schema. */
  function SchemaAheadOf(t: Table, k: Stream): (st: Stream) {
    Cons(ObjectStart, Cons(Str("schema"), Cons(Colon, Toks(SchemaTree(t), Cons(Comma, k)))))
  }

  lemma {:induction false} SchemaHeadEmit(pre: Doc, t: Table, l: nat, k: Stream)
    ensures Emit(SchemaHead(pre, t, l), k) == Emit(pre, SchemaAheadOf(t, k))
  {
    EmitRules();
    hide Emit, SchemaDoc, SchemaTree, Toks, Line;
    SchemaEmit(Line(pre, l, OPEN), t, l + 1, Cons(Comma, k));
  }

  function FileAheadOf(count: nat, now: Stamp, k: Stream): (st: Stream) {
    Cons(ObjectStart, Cons(Str("metadata"), Cons(Colon,
      Toks(MetadataTree(count, now), Cons(Comma, Cons(Str("tables"), Cons(Colon, Cons(ArrayStart, k))))))))
  }

  lemma {:induction false} FileHeadEmit(count: nat, now: Stamp, k: Stream)
    ensures Emit(FileHead(count, now), k) == FileAheadOf(count, now, k)
  {
    EmitRules();
    hide Emit, MetadataDoc, MetadataTree, Toks, Line, Key;
    MetadataEmit([Tok(ObjectStart)], count, now, 1, Cons(Comma, Cons(Str("tables"), Cons(Colon, Cons(ArrayStart, k)))));
  }

  lemma {:induction false} SaveHeadEmit(ts: seq<Table>, now: Stamp, i: nat, k: Stream)
    requires i < |ts| && AllTablesShaped(ts)
    ensures Emit(SaveHead(ts, now, i), k) == FileAheadOf(|ts|, now, TablesAheadOf(ts[..i], SchemaAheadOf(ts[i], k)))
  {
    hide Emit, SchemaHead, TablesHead, FileHead, FileAheadOf, TablesAheadOf, SchemaAheadOf, Shaped;
    SchemaHeadEmit(TablesHead(FileHead(|ts|, now), ts, TABLES_LEVEL, i), ts[i], TABLES_LEVEL, k);
    TablesHeadEmit(FileHead(|ts|, now), ts, TABLES_LEVEL, i, SchemaAheadOf(ts[i], k));
    FileHeadEmit(|ts|, now, TablesAheadOf(ts[..i], SchemaAheadOf(ts[i], k)));
  }

  // ---- a table that is made keeps its columns, whatever tokens follow ----

  predicate Keeps(ts: seq<Table>, us: seq<Table>) {
    |ts| <= |us| && forall i | 0 <= i < |ts| :: us[i].columns == ts[i].columns
  }

  lemma {:induction false} SchemaKeeps(st: Stream, ts: seq<Table>)
    requires HasColumns(ts)
    ensures var r := ParseSchema(st, ts); r.Done? ==> Keeps(ts, r.value)
  {
    hide SchemaLoop;
  }

  lemma {:induction false} SiblingKeeps(key: string, st: Stream, ts: seq<Table>, now: Stamp)
    requires HasColumns(ts) && ts != []
    ensures var r := Sibling(key, st, ts, now); r.Done? ==> Keeps(ts, r.value) && |r.value| == |ts|
  {
    hide ParseRecords, Skip;
  }

  lemma {:induction false} SiblingsKeep(st: Stream, ts: seq<Table>, now: Stamp)
    requires HasColumns(ts) && ts != []
    ensures var r := SiblingsLoop(st, ts, now); r.Done? ==> Keeps(ts, r.value)
    decreases Len(st)
  {
    hide Sibling;
    var t := Next(st);
    var key := Next(t.rest);
    var colon := Next(key.rest);
    if t.tok == Comma && key.tok.Str? && colon.tok == Colon {
      var s := Sibling(key.tok.value, colon.rest, ts, now);
      SiblingKeeps(key.tok.value, colon.rest, ts, now);
      if s.Done? {
        SiblingsKeep(s.rest, s.value, now);
      }
    }
  }

  lemma {:induction false} TablesKeep(st: Stream, ts: seq<Table>, started: bool, now: Stamp)
    requires HasColumns(ts)
    ensures var r := TablesLoop(st, ts, started, now); r.Done? ==> Keeps(ts, r.value)
    decreases Len(st), 1
  {
    hide ParseSchema, BehindSchema;
    var o := if started then Read(ObjectStart, st) else Next(st);
    if o.tok == ObjectStart {
      var s := ParseSchema(o.rest, ts);
      SchemaKeeps(o.rest, ts);
      if s.Done? {
        BehindKeeps(s.rest, s.value, now);
      }
    }
  }

  lemma {:induction false} BehindKeeps(st: Stream, ts: seq<Table>, now: Stamp)
    requires HasColumns(ts) && ts != []
    ensures var r := BehindSchema(st, ts, now); r.Done? ==> Keeps(ts, r.value)
    decreases Len(st), 0
  {
    hide Sibling, SiblingsLoop, TablesLoop, TableSeparator;
    var t := Next(st);
    var n := Next(t.rest);
    var colon := Next(n.rest);
    if t.tok == ObjectEnd {
      SeparatorKeeps(t.rest, ts, now);
    } else if t.tok == Comma && n.tok == ObjectStart {
      TablesKeep(n.rest, ts, true, now);
    } else if t.tok == Comma && n.tok.Str? && colon.tok == Colon {
      var s := Sibling(n.tok.value, colon.rest, ts, now);
      SiblingKeeps(n.tok.value, colon.rest, ts, now);
      if s.Done? {
        var l := SiblingsLoop(s.rest, s.value, now);
        SiblingsKeep(s.rest, s.value, now);
        if l.Done? {
          SeparatorKeeps(l.rest, l.value, now);
        }
      }
    }
  }

  lemma {:induction false} SeparatorKeeps(st: Stream, ts: seq<Table>, now: Stamp)
    requires HasColumns(ts)
    ensures var r := TableSeparator(st, ts, now); r.Done? ==> Keeps(ts, r.value)
    decreases Len(st), 2
  {
    hide TablesLoop;
    if Next(st).tok == Comma {
      TablesKeep(Next(st).rest, ts, false, now);
    }
  }

  lemma {:induction false} TopMemberKeeps(key: string, st: Stream, ts: seq<Table>, now: Stamp)
    requires HasColumns(ts)
    ensures var r := TopMember(key, st, ts, now); r.Done? ==> Keeps(ts, r.value)
  {
    hide TablesLoop, ParseMetadata, Skip;
    if key == "tables" && Next(st).tok == ArrayStart {
      TablesKeep(Next(st).rest, ts, false, now);
    }
  }

  /** Whatever the rest of a text is: if it loads, the tables made before have the columns they were made with. */
  lemma {:induction false} TopKeeps(st: Stream, ts: seq<Table>, now: Stamp)
    requires HasColumns(ts)
    ensures var r := TopLoop(st, ts, now); r.Done? ==> Keeps(ts, r.value)
    decreases Len(st)
  {
    hide TopMember;
    var key := Next(st);
    var colon := Next(key.rest);
    if key.tok.Str? && colon.tok == Colon {
      var m := TopMember(key.tok.value, colon.rest, ts, now);
      TopMemberKeeps(key.tok.value, colon.rest, ts, now);
      if m.Done? && Next(m.rest).tok == Comma {
        TopKeeps(Next(m.rest).rest, m.value, now);
      }
    }
  }

  // ---- loading what begins so ----

  /** Whole tables are read, or the text is rejected. */
  lemma {:induction false} TablesPassed(ts: seq<Table>, done: seq<Table>, k: Stream, now: Stamp) returns (d: seq<Table>)
    requires AllTablesShaped(ts) && HasColumns(done) && |done| + |ts| <= MAX_TABLES
    requires forall i | 0 <= i < |ts| :: SavableTable(ts[i])
    ensures TablesLoop(TablesAheadOf(ts, k), done, false, now).Done? ==>
              && HasColumns(d) && |d| == |done| + |ts|
              && TablesLoop(TablesAheadOf(ts, k), done, false, now) == TablesLoop(k, d, false, now)
  {
    hide Toks, TableTree, TablesLoop, ReloadTable, SavableTable, Shaped, HasTable, ReloadName;
    d := done;
    if ts != [] {
      var behind := Cons(Comma, TablesAheadOf(ts[1..], k));
      TableRead(done, ts[0], now, behind);
      if !HasTable(done, ReloadName(ts[0].name)) {
        var more := done + [ReloadTable(ts[0], now)];
        d := TablesPassed(ts[1..], more, k, now);
        assert TableSeparator(behind, more, now) == TablesLoop(TablesAheadOf(ts[1..], k), more, false, now);
      }
    }
  }

  /** A table whose schema is read has its columns, escaped, whatever tokens follow. */
  lemma {:induction false} SchemaLeaves(t: Table, done: seq<Table>, k: Stream, now: Stamp)
    requires SavableTable(t) && HasColumns(done) && |done| < MAX_TABLES
    ensures var r := TablesLoop(SchemaAheadOf(t, k), done, false, now);
            r.Done? ==> |r.value| > |done| && r.value[|done|].columns == ReloadColumns(t.columns)
  {
    var behind := Cons(Comma, k);
    SchemaTokens(t, behind);
    hide Toks, MemberToks, SchemaTree, TablesLoop, BehindSchema, ParseSchema, SavableTable, HasTable, ReloadName, ReloadColumns;
    var inner := SchemaAheadOf(t, k).tail;
    SchemaParsed(done, t, behind);
    if HasTable(done, ReloadName(t.name)) {
      SchemaFails(inner, done, DuplicateKey, now);
    } else {
      var all := done + [EmptyTable(t)];
      SchemaBehind(inner, done, all, behind, now);
      BehindKeeps(behind, all, now);
      assert all[|done|] == EmptyTable(t);
    }
  }

  lemma {:induction false} SchemaTokens(t: Table, k: Stream)
    ensures SchemaTree(t).JObj? && Toks(SchemaTree(t), k) == Cons(ObjectStart, MemberToks(SchemaTree(t).members, k))
  {
    assert SchemaTree(t).JObj?;
    hide SchemaTree;
    HeadOf(SchemaTree(t), k);
  }

  /** A text that loads has its array of tables read to the end, and the tables in it kept. */
  lemma {:induction false} FileRead(count: nat, saved: Stamp, k: Stream, now: Stamp)
    ensures var r, t := Load(FileAheadOf(count, saved, k), now), TablesLoop(k, [], false, now);
            r.Some? ==> t.Done? && Keeps(t.value, r.value)
  {
    var tables := Cons(Str("tables"), Cons(Colon, Cons(ArrayStart, k)));
    var metadata := Toks(MetadataTree(count, saved), Cons(Comma, tables));
    assert MetadataTree(count, saved).JObj?;
    hide Toks, MetadataTree, TablesLoop, TopMember, Keeps, TopLoop, Load;
    MetadataMemberRead(MetadataTree(count, saved), Cons(Comma, tables), now);
    MetadataPassed(metadata, tables, now);
    TablesReached(k, now);
    ObjectLoads(Cons(Str("metadata"), Cons(Colon, metadata)), now);
  }

  lemma {:induction false} ObjectLoads(st: Stream, now: Stamp)
    ensures var p := TopLoop(st, [], now); Load(Cons(ObjectStart, st), now) == if p.Done? then Some(p.value) else None
  {
    hide TopLoop;
  }

  lemma {:induction false} MetadataPassed(st: Stream, k: Stream, now: Stamp)
    requires TopMember("metadata", st, [], now) == Done([], Cons(Comma, k))
    ensures TopLoop(Cons(Str("metadata"), Cons(Colon, st)), [], now) == TopLoop(k, [], now)
  {
    hide TopMember;
  }

  lemma {:induction false} TablesReached(k: Stream, now: Stamp)
    ensures var r, t := TopLoop(Cons(Str("tables"), Cons(Colon, Cons(ArrayStart, k))), [], now), TablesLoop(k, [], false, now);
            r.Done? ==> t.Done? && Keeps(t.value, r.value)
  {
    hide TablesLoop;
    var t := TablesLoop(k, [], false, now);
    assert TopMember("tables", Cons(ArrayStart, k), [], now) == t;
    hide TopMember;
    if t.Done? && Next(t.rest).tok == Comma {
      TopKeeps(Next(t.rest).rest, t.value, now);
    }
  }

  lemma {:induction false} HeadRead(ts: seq<Table>, saved: Stamp, i: nat, k: Stream, now: Stamp)
    requires Savable(ts) && i < |ts| && AllTablesShaped(ts)
    ensures var r := Load(FileAheadOf(|ts|, saved, TablesAheadOf(ts[..i], SchemaAheadOf(ts[i], k))), now);
            r.Some? ==> i < |r.value| && r.value[i].columns == ReloadColumns(ts[i].columns)
  {
    hide Load, FileAheadOf, TablesAheadOf, SchemaAheadOf, TablesLoop, SavableTable, Shaped, ReloadColumns;
    var st := SchemaAheadOf(ts[i], k);
    FileRead(|ts|, saved, TablesAheadOf(ts[..i], st), now);
    var d := TablesPassed(ts[..i], [], st, now);
    if TablesLoop(TablesAheadOf(ts[..i], st), [], false, now).Done? {
      SchemaLeaves(ts[i], d, k, now);
    }
  }

  // ---- the text ----

  /** The tables, without the records from `i` on. */
  function Emptied(ts: seq<Table>, i: nat): (us: seq<Table>)
    ensures |us| == |ts|
    ensures forall j | 0 <= j < |ts| :: us[j] == if j < i then ts[j] else ts[j].(records := [])
  {
    seq(|ts|, j requires 0 <= j < |ts| => if j < i then ts[j] else ts[j].(records := []))
  }

  lemma {:induction false} EmptiedTables(ts: seq<Table>, i: nat, pre: Doc, l: nat, n: nat)
    requires AllTablesShaped(ts) && n <= i <= |ts|
    ensures AllTablesShaped(Emptied(ts, i))
    ensures TablesDoc(pre, Emptied(ts, i), l, n) == TablesDoc(pre, ts, l, n)
    decreases n
  {
    hide TableDoc;
    if n > 0 {
      EmptiedTables(ts, i, pre, l, n - 1);
    }
  }

  lemma {:induction false} EmptiedHead(ts: seq<Table>, now: Stamp, i: nat)
    requires AllTablesShaped(ts) && i < |ts|
    ensures AllTablesShaped(Emptied(ts, i)) && SaveHead(Emptied(ts, i), now, i) == SaveHead(ts, now, i)
  {
    hide TablesDoc, FileHead, Shaped, ColumnArrayDoc, Line;
    EmptiedTables(ts, i, FileHead(|ts|, now), TABLES_LEVEL, i);
  }

  lemma {:induction false} EmptiedWritable(ts: seq<Table>, i: nat)
    requires AllTablesShaped(ts) && Formatted(ts) && i < |ts| && NamesWritable(ts[..i], false)
    ensures AllTablesShaped(Emptied(ts, i)) && Writable(Emptied(ts, i))
  {
    hide RawNames, FormattedFields;
    var us := Emptied(ts, i);
    forall j | 0 <= j < |us| ensures FormattedTable(us[j]) && Shaped(us[j]) && (us[j].records == [] || RawNames(us[j].columns, false)) {
      assert FormattedTable(ts[j]) && Shaped(ts[j]);
      assert j < i ==> ts[..i][j] == ts[j];
    }
  }

  lemma {:induction false} ApartInFront(st: Stream, k: Stream)
    requires NumbersApart(Graft(st, k))
    ensures NumbersApart(st)
  {
    if st.Cons? {
      ApartInFront(st.tail, k);
    }
  }

  lemma {:induction false} NumbersApartInFront(ps: seq<Piece>, k: Stream)
    requires NumbersApart(Emit(ps, k))
    ensures NumbersApart(Emit(ps, End))
  {
    hide Emit, NumbersApart, Graft;
    EmitGraft(ps, k);
    ApartInFront(Emit(ps, End), k);
  }

  /** A token that is no number can be lexed in front of any text. */
  lemma {:induction false} LexStop(t: Token, k: string)
    requires TokenOk(t) && !t.Number?
    ensures StreamOf(Lexeme(t) + k) == Cons(t, StreamOf(k)) && NumberStops(Lexeme(t) + k)
  {
    PieceStops(Tok(t), k);
    LexLexeme(t, k);
    hide Lexeme, Lex, NumberStops;
    NextIsLex(Lexeme(t) + k);
  }

  lemma {:induction false} TextAtEnd(ps: seq<Piece>, t: Token, k: string)
    ensures Text(ps + [Tok(t)]) + k == Text(ps) + (Lexeme(t) + k)
  {
    hide Text, Lexeme;
    TextPlus(ps, [Tok(t)]);
    TextOfOne(t);
  }

  lemma {:induction false} TextOfOne(t: Token)
    ensures Text([Tok(t)]) == Lexeme(t)
  {
    hide Lexeme;
    assert Text([]) == "";
    assert [Tok(t)][1..] == [];
  }

  lemma {:induction false} EmitAtEnd(ps: seq<Piece>, t: Token, st: Stream)
    ensures Emit(ps + [Tok(t)], st) == Emit(ps, Cons(t, st))
  {
    EmitPlus(ps, [Tok(t)], st);
    assert Emit([Tok(t)], st) == Cons(t, Emit([], st));
  }

  lemma {:induction false} OkAtEnd(ps: seq<Piece>, t: Token)
    requires PiecesOk(ps + [Tok(t)])
    ensures PiecesOk(ps) && TokenOk(t)
  {
    hide TokenOk;
    assert forall p | p in ps :: p in ps + [Tok(t)];
    assert Tok(t) in ps + [Tok(t)] && PieceOk(Tok(t));
  }

  /** Pieces that end in a token other than a number lex to their tokens, whatever text follows. */
  lemma {:induction false} LexHead(ps: seq<Piece>, t: Token, k: string)
    requires PiecesOk(ps + [Tok(t)]) && NumbersApart(Emit(ps + [Tok(t)], End)) && !t.Number?
    ensures StreamOf(Text(ps + [Tok(t)]) + k) == Emit(ps + [Tok(t)], StreamOf(k))
  {
    TextAtEnd(ps, t, k);
    EmitAtEnd(ps, t, End);
    EmitAtEnd(ps, t, StreamOf(k));
    OkAtEnd(ps, t);
    hide Lexeme, Text, Emit, PiecesOk, NumbersApart, NumberStops, StreamOf;
    NumbersApartInFront(ps, Cons(t, End));
    LexStop(t, k);
    LexText(ps, Lexeme(t) + k);
  }

  /** A document lexes as far as its beginning is sound. */
  lemma {:induction false} LexBegun(head: Doc, doc: Doc) returns (k: Stream)
    requires Begins(head, doc) && head != [] && head == head[..|head| - 1] + [Tok(Comma)]
    requires PiecesOk(head) && NumbersApart(Emit(head, End))
    ensures StreamOf(Text(doc)) == Emit(head, k)
  {
    hide Emit, Text, StreamOf, PiecesOk, NumbersApart;
    var rest := doc[|head|..];
    assert doc == head + rest;
    TextPlus(head, rest);
    LexHead(head[..|head| - 1], Comma, Text(rest));
    k := StreamOf(Text(rest));
  }

  lemma {:induction false} SaveHeadOk(ts: seq<Table>, now: Stamp, i: nat)
    requires AllTablesShaped(ts) && Formatted(ts) && i < |ts| && NamesWritable(ts[..i], false)
    ensures PiecesOk(SaveHead(ts, now, i)) && NumbersApart(Emit(SaveHead(ts, now, i), End))
  {
    hide SaveDoc, SaveHead, DatabaseTree, Emit, Toks, PiecesOk, NumbersApart, Shaped, Formatted, NamesWritable;
    var us := Emptied(ts, i);
    EmptiedWritable(ts, i);
    EmptiedHead(ts, now, i);
    SaveBegins(us, now, i);
    SavedLexes(us, now);
    TreeNumbersApart(DatabaseTree(us, now), End);
    HeadOk(SaveHead(ts, now, i), SaveDoc(us, now));
  }

  /** The saved text lexes up to the comma that follows the schema of table `i`. */
  lemma {:induction false} SaveHeadLexes(ts: seq<Table>, now: Stamp, i: nat) returns (k: Stream)
    requires AllTablesShaped(ts) && Formatted(ts) && i < |ts| && NamesWritable(ts[..i], false)
    ensures StreamOf(SaveText(ts, now)) == Emit(SaveHead(ts, now, i), k)
  {
    hide SaveDoc, SaveHead, Emit, Text, StreamOf, PiecesOk, NumbersApart, Shaped, Formatted, NamesWritable, Begins;
    SaveBegins(ts, now, i);
    SaveHeadOk(ts, now, i);
    SaveHeadEnds(ts, now, i);
    k := LexBegun(SaveHead(ts, now, i), SaveDoc(ts, now));
  }

  lemma {:induction false} SaveHeadEnds(ts: seq<Table>, now: Stamp, i: nat)
    requires i < |ts| && AllTablesShaped(ts)
    ensures var d := SaveHead(ts, now, i); d != [] && d == d[..|d| - 1] + [Tok(Comma)]
  {
    hide SchemaDoc, TablesHead, FileHead, Line;
  }

  lemma {:induction false} HeadOk(head: Doc, whole: Doc)
    requires Begins(head, whole) && PiecesOk(whole) && NumbersApart(Emit(whole, End))
    ensures PiecesOk(head) && NumbersApart(Emit(head, End))
  {
    var rest := whole[|head|..];
    assert whole == head + rest;
    EmitPlus(head, rest, End);
    hide Emit, NumbersApart, PieceOk;
    NumbersApartInFront(head, Emit(rest, End));
    assert forall p | p in head :: p in whole;
  }

  /** Where the saved text is no text of tokens, because of a name written raw. */
  predicate Unreadable(t: Table) {
    t.records != [] && !RawNames(t.columns, false)
  }

  /**
   * A database with a name that cannot be read to its closing quote: if the saved text loads at all, whatever its
   * tokens are, the first table with such a name comes back with its column names escaped.
   */
  lemma {:induction false} UnreadableNames(ts: seq<Table>, saved: Stamp, now: Stamp) returns (i: nat)
    requires Savable(ts) && Formatted(ts) && !NamesWritable(ts, false)
    ensures i < |ts| && Unreadable(ts[i]) && AllTablesShaped(ts)
    ensures var r := LoadText(SaveText(ts, saved), now);
            r.Some? ==> i < |r.value| && r.value[i].columns == ReloadColumns(ts[i].columns)
  {
    SavableIsShaped(ts);
    i := FirstUnreadable(ts);
    var k := SaveHeadLexes(ts, saved, i);
    hide SaveText, SaveHead, Emit, StreamOf, FileAheadOf, TablesAheadOf, SchemaAheadOf, Load, Savable, Shaped, Unreadable;
    SaveHeadEmit(ts, saved, i, k);
    HeadRead(ts, saved, i, k, now);
  }

  lemma {:induction false} FirstUnreadable(ts: seq<Table>) returns (i: nat)
    requires !NamesWritable(ts, false)
    ensures i < |ts| && Unreadable(ts[i]) && NamesWritable(ts[..i], false)
  {
    hide RawNames;
    i := 0;
    while !Unreadable(ts[i])
      invariant i < |ts| && forall j | 0 <= j < i :: !Unreadable(ts[j])
      decreases |ts| - i
    {
      assert exists j :: i < j < |ts| && Unreadable(ts[j]) by {
        var j :| 0 <= j < |ts| && !(ts[j].records == [] || RawNames(ts[j].columns, false));
        assert Unreadable(ts[j]);
      }
      i := i + 1;
    }
    assert forall j | 0 <= j < i :: !Unreadable(ts[j]);
  }
}
