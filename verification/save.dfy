/** Saving: the text of a database, piece by piece, and the JSON tree that text writes. */
module Save {
  import opened Lexer
  import opened TokenStream
  import opened Layout
  import opened Json
  import opened Decimal
  import opened Escaping
  import opened Schema
  import opened Serializer

  const DATABASE_NAME := "Database"
  const VERSION := "1.0.0"

  function TypeName(ty: FieldType): (s: string) {
    match ty
    case TInt => "INT"
    case TString => "STRING"
    case TFloat => "FLOAT"
    case TDouble => "DOUBLE"
    case TBool => "BOOL"
    case TDatetime => "DATETIME"
    case TBlob => "BLOB"
    case TNull => "NULL"
    case TUnknown => "UNKNOWN"
  }

  // ---- the tree a database is saved as ----

  function FieldJson(f: Field): (j: Json) {
    match f.ty
    case TInt => JNum(IntText(AsInt(f.value)))
    case TString => JStr(Escape(AsString(f.value)))
    case TBool => JBool(AsBool(f.value))
    case TNull => JNull
    case TFloat => JNum(RawText(f.value))
    case TDouble => JNum(RawText(f.value))
    case TDatetime => JStr(RawText(f.value))
    case TBlob => JStr("")
    case TUnknown => JStr("")
  }

  function RawText(v: Value): (s: string) {
    if v.Raw? then v.text else "0"
  }

  predicate Constrained(c: Column) {
    c.primaryKey || c.unique || !c.nullable
  }

  function Listed(yes: bool, name: string, more: Elements): (es: Elements) {
    if yes then Element(JStr(name), more) else more
  }

  function ConstraintList(c: Column): (es: Elements) {
    Listed(c.primaryKey, "PRIMARY KEY", Listed(c.unique, "UNIQUE", Listed(!c.nullable, "NOT NULL", NoElements)))
  }

  function ColumnTree(c: Column): (j: Json) {
    var constraints := if Constrained(c) then Member("constraints", JArr(ConstraintList(c)), NoMembers) else NoMembers;
    JObj(Member("name", JStr(Escape(c.name)), Member("type", JStr(Escape(TypeName(c.ty))), constraints)))
  }

  function ColumnElements(cs: seq<Column>): (es: Elements) {
    if cs == [] then NoElements else Element(ColumnTree(cs[0]), ColumnElements(cs[1..]))
  }

  function SchemaTree(t: Table): (j: Json) {
    JObj(Member("name", JStr(Escape(t.name)),
         Member("fields", JArr(ColumnElements(t.columns)),
         Member("record_count", JNum(IntText(t.count)), NoMembers))))
  }

  function FieldMembers(cs: seq<Column>, fs: seq<Field>): (ms: Members)
    requires |cs| == |fs|
  {
    if cs == [] then NoMembers else Member(cs[0].name, FieldJson(fs[0]), FieldMembers(cs[1..], fs[1..]))
  }

  function RecordMetadata(r: Record): (j: Json) {
    JObj(Member("timestamp", JStr(r.stamp), Member("version", JNum(IntText(r.version)), NoMembers)))
  }

  function RecordTree(cs: seq<Column>, r: Record): (j: Json)
    requires |cs| == |r.fields|
  {
    JObj(Member("id", JNum(IntText(r.id)),
         Member("fields", JObj(FieldMembers(cs, r.fields)),
         Member("metadata", RecordMetadata(r), NoMembers))))
  }

  predicate AllShaped(cs: seq<Column>, rs: seq<Record>) {
    forall i | 0 <= i < |rs| :: |rs[i].fields| == |cs|
  }

  function RecordElements(cs: seq<Column>, rs: seq<Record>): (es: Elements)
    requires AllShaped(cs, rs)
  {
    if rs == [] then NoElements else Element(RecordTree(cs, rs[0]), RecordElements(cs, rs[1..]))
  }

  function TableTree(t: Table): (j: Json)
    requires Shaped(t)
  {
    JObj(Member("schema", SchemaTree(t),
         Member("records", JArr(RecordElements(t.columns, t.records)), NoMembers)))
  }

  function TableElements(ts: seq<Table>): (es: Elements)
    requires forall i | 0 <= i < |ts| :: Shaped(ts[i])
  {
    if ts == [] then NoElements else Element(TableTree(ts[0]), TableElements(ts[1..]))
  }

  function MetadataTree(count: nat, now: Stamp): (j: Json) {
    JObj(Member("name", JStr(Escape(DATABASE_NAME)),
         Member("version", JStr(VERSION),
         Member("created_at", JStr(now),
         Member("table_count", JNum(IntText(count)), NoMembers)))))
  }

  function DatabaseTree(ts: seq<Table>, now: Stamp): (j: Json)
    requires forall i | 0 <= i < |ts| :: Shaped(ts[i])
  {
    JObj(Member("metadata", MetadataTree(|ts|, now),
         Member("tables", JArr(TableElements(ts)), NoMembers)))
  }

  // ---- the text, as the pieces it is appended in ----

  type Doc = seq<Piece>

  const OPEN: Doc := [Tok(ObjectStart), Ws("\n")]
  const OPEN_ARRAY: Doc := [Tok(ArrayStart), Ws("\n")]
  const COMMA: Doc := [Tok(Comma), Ws("\n")]
  const BREAK: Doc := [Ws("\n")]

  function Key(name: string): (ps: Doc) {
    [Tok(Str(name)), Tok(Colon), Ws(" ")]
  }

  /** A fresh line at `level`, and `ps` on it. */
  function Line(pre: Doc, level: nat, ps: Doc): (d: Doc) {
    pre + [Ws(Newline(level))] + ps
  }

  function FieldToken(f: Field): (t: Token) {
    Toks(FieldJson(f), End).head
  }

  function MetadataDoc(pre: Doc, count: nat, now: Stamp, l: nat): (d: Doc) {
    var a := Line(pre, l, Key("metadata")) + OPEN;
    var b := Line(a, l + 1, Key("name")) + [Tok(Str(Escape(DATABASE_NAME)))] + COMMA;
    var c := Line(b, l + 1, Key("version")) + [Tok(Str(VERSION))] + COMMA;
    var e := Line(c, l + 1, Key("created_at")) + [Tok(Str(now))] + COMMA;
    var f := Line(e, l + 1, Key("table_count")) + [Tok(Number(IntText(count)))] + BREAK;
    Line(f, l, [Tok(ObjectEnd)])
  }

  function ConstraintDoc(pre: Doc, yes: bool, first: bool, name: string): (d: Doc) {
    if !yes then pre
    else (if first then pre else pre + [Tok(Comma), Ws(" ")]) + [Tok(Str(name))]
  }

  function ConstraintsDoc(pre: Doc, c: Column): (d: Doc) {
    var p := ConstraintDoc(pre, c.primaryKey, true, "PRIMARY KEY");
    var q := ConstraintDoc(p, c.unique, !c.primaryKey, "UNIQUE");
    ConstraintDoc(q, !c.nullable, !c.primaryKey && !c.unique, "NOT NULL")
  }

  function ColumnDoc(pre: Doc, c: Column, l: nat): (d: Doc) {
    var a := Line(pre, l, OPEN);
    var b := Line(a, l + 1, Key("name")) + [Tok(Str(Escape(c.name)))] + COMMA;
    var e := Line(b, l + 1, Key("type")) + [Tok(Str(Escape(TypeName(c.ty))))] + [];
    Line(MaybeConstraintsDoc(e, c, l + 1), l, [Tok(ObjectEnd)])
  }

  function MaybeConstraintsDoc(pre: Doc, c: Column, l: nat): (d: Doc) {
    if Constrained(c) then
      ConstraintsDoc(Line(pre + COMMA, l, Key("constraints")) + [Tok(ArrayStart)], c) + [Tok(ArrayEnd)]
    else pre
  }

  function ColumnArrayDoc(pre: Doc, cs: seq<Column>, l: nat): (d: Doc) {
    var c := Line(pre, l, Key("fields")) + OPEN_ARRAY;
    Line(ColumnsDoc(c, cs, l + 1, |cs|), l, [Tok(ArrayEnd)]) + COMMA
  }

  function ColumnsDoc(pre: Doc, cs: seq<Column>, l: nat, n: nat): (d: Doc)
    requires n <= |cs|
    decreases n
  {
    if n == 0 then pre
    else ColumnDoc(ColumnsDoc(pre, cs, l, n - 1), cs[n - 1], l) + if n < |cs| then COMMA else BREAK
  }

  function SchemaDoc(pre: Doc, t: Table, l: nat): (d: Doc) {
    var a := Line(pre, l, Key("schema")) + OPEN;
    var b := Line(a, l + 1, Key("name")) + [Tok(Str(Escape(t.name)))] + COMMA;
    var f := ColumnArrayDoc(b, t.columns, l + 1);
    var g := Line(f, l + 1, Key("record_count")) + [Tok(Number(IntText(t.count)))] + [];
    Line(g, l, [Tok(ObjectEnd)])
  }

  function FieldsDoc(pre: Doc, cs: seq<Column>, fs: seq<Field>, l: nat, n: nat): (d: Doc)
    requires n <= |cs| == |fs|
    decreases n
  {
    if n == 0 then pre
    else Line(FieldsDoc(pre, cs, fs, l, n - 1), l, Key(cs[n - 1].name)) + [Tok(FieldToken(fs[n - 1]))]
         + if n < |cs| then COMMA else BREAK
  }

  function RecordDoc(pre: Doc, cs: seq<Column>, r: Record, l: nat): (d: Doc)
    requires |cs| == |r.fields|
  {
    var a := Line(pre, l, OPEN);
    var b := Line(a, l + 1, Key("id")) + [Tok(Number(IntText(r.id)))] + COMMA;
    Line(RecordMetadataDoc(FieldObjectDoc(b, cs, r.fields, l + 1), r, l + 1), l, [Tok(ObjectEnd)])
  }

  function FieldObjectDoc(pre: Doc, cs: seq<Column>, fs: seq<Field>, l: nat): (d: Doc)
    requires |cs| == |fs|
  {
    var a := Line(pre, l, Key("fields")) + OPEN;
    Line(FieldsDoc(a, cs, fs, l + 1, |cs|), l, [Tok(ObjectEnd)]) + COMMA
  }

  function RecordMetadataDoc(pre: Doc, r: Record, l: nat): (d: Doc) {
    var g := Line(pre, l, Key("metadata")) + OPEN;
    var h := Line(g, l + 1, Key("timestamp")) + [Tok(Str(r.stamp))] + COMMA;
    var i := Line(h, l + 1, Key("version")) + [Tok(Number(IntText(r.version)))];
    Line(i, l, [Tok(ObjectEnd)])
  }

  function RecordListDoc(pre: Doc, cs: seq<Column>, rs: seq<Record>, l: nat, n: nat): (d: Doc)
    requires n <= |rs| && AllShaped(cs, rs)
    decreases n
  {
    if n == 0 then pre
    else
      var before := RecordListDoc(pre, cs, rs, l, n - 1);
      RecordDoc(if n > 1 then before + COMMA else before, cs, rs[n - 1], l)
  }

  function RecordsDoc(pre: Doc, t: Table, l: nat): (d: Doc)
    requires Shaped(t)
  {
    var a := Line(pre, l, Key("records")) + OPEN_ARRAY;
    var b := RecordListDoc(a, t.columns, t.records, l + 1, |t.records|);
    Line(if t.records != [] then b + BREAK else b, l, [Tok(ArrayEnd)])
  }

  function TableDoc(pre: Doc, t: Table, l: nat): (d: Doc)
    requires Shaped(t)
  {
    var a := Line(pre, l, OPEN);
    var b := SchemaDoc(a, t, l + 1) + COMMA;
    Line(RecordsDoc(b, t, l + 1), l, [Tok(ObjectEnd)])
  }

  predicate AllTablesShaped(ts: seq<Table>) {
    forall i | 0 <= i < |ts| :: Shaped(ts[i])
  }

  function TablesDoc(pre: Doc, ts: seq<Table>, l: nat, n: nat): (d: Doc)
    requires n <= |ts| && AllTablesShaped(ts)
    decreases n
  {
    if n == 0 then pre
    else
      var before := TablesDoc(pre, ts, l, n - 1);
      TableDoc(if n > 1 then before + [Tok(Comma)] else before, ts[n - 1], l)
  }

  function TableArrayDoc(pre: Doc, ts: seq<Table>, l: nat): (d: Doc)
    requires AllTablesShaped(ts)
  {
    var a := Line(pre, l, Key("tables")) + [Tok(ArrayStart)];
    Line(TablesDoc(a, ts, l + 1, |ts|), l, [Tok(ArrayEnd)])
  }

  /** Everything `db_save_to_file` appends. */
  function SaveDoc(ts: seq<Table>, now: Stamp): (d: Doc)
    requires AllTablesShaped(ts)
  {
    var b := MetadataDoc([Tok(ObjectStart)], |ts|, now, 1) + [Tok(Comma)];
    Line(TableArrayDoc(b, ts, 1), 0, [Tok(ObjectEnd)])
  }

  /** The saved text. */
  function SaveText(ts: seq<Table>, now: Stamp): (s: string)
    requires AllTablesShaped(ts)
  {
    Text(SaveDoc(ts, now))
  }

  // ---- the pieces carry the tokens of the tree ----

  lemma {:induction false} EmitRules()
    ensures forall a: Doc, b: Doc, k {:trigger Emit(a + b, k)} :: Emit(a + b, k) == Emit(a, Emit(b, k))
    ensures forall t, k {:trigger Emit([Tok(t)], k)} :: Emit([Tok(t)], k) == Cons(t, k)
    ensures forall t, w: Blank, k {:trigger Emit([Tok(t), Ws(w)], k)} :: Emit([Tok(t), Ws(w)], k) == Cons(t, k)
    ensures forall pre, l: nat, ps, k {:trigger Emit(Line(pre, l, ps), k)} :: Emit(Line(pre, l, ps), k) == Emit(pre, Emit(ps, k))
    ensures forall name, k {:trigger Emit(Key(name), k)} :: Emit(Key(name), k) == Cons(Str(name), Cons(Colon, k))
    ensures forall k {:trigger Emit(OPEN, k)} :: Emit(OPEN, k) == Cons(ObjectStart, k)
    ensures forall k {:trigger Emit(OPEN_ARRAY, k)} :: Emit(OPEN_ARRAY, k) == Cons(ArrayStart, k)
    ensures forall k {:trigger Emit(COMMA, k)} :: Emit(COMMA, k) == Cons(Comma, k)
    ensures forall k {:trigger Emit(BREAK, k)} :: Emit(BREAK, k) == k
    ensures forall k {:trigger Emit([], k)} :: Emit([], k) == k
  {
    forall a: Doc, b: Doc, k ensures Emit(a + b, k) == Emit(a, Emit(b, k)) {
      EmitPlus(a, b, k);
    }
    forall t, k ensures Emit([Tok(t)], k) == Cons(t, k) {
      EmitTok(t, k);
    }
    forall t, w: Blank, k ensures Emit([Tok(t), Ws(w)], k) == Cons(t, k) {
      EmitTokWs(t, w, k);
    }
    forall pre, l: nat, ps, k ensures Emit(Line(pre, l, ps), k) == Emit(pre, Emit(ps, k)) {
      EmitLine(pre, l, ps, k);
    }
    forall name, k ensures Emit(Key(name), k) == Cons(Str(name), Cons(Colon, k)) {
      EmitKey(name, k);
    }
    forall k ensures Emit(BREAK, k) == k {
      EmitWs("\n", k);
    }
  }

  lemma {:induction false} EmitTok(t: Token, k: Stream)
    ensures Emit([Tok(t)], k) == Cons(t, k)
  {
    assert [Tok(t)][1..] == [];
  }

  lemma {:induction false} EmitWs(w: Blank, k: Stream)
    ensures Emit([Ws(w)], k) == k
  {
    assert [Ws(w)][1..] == [];
  }

  lemma {:induction false} EmitTokWs(t: Token, w: Blank, k: Stream)
    ensures Emit([Tok(t), Ws(w)], k) == Cons(t, k)
  {
    assert [Tok(t), Ws(w)][1..] == [Ws(w)];
    EmitWs(w, k);
  }

  lemma {:induction false} EmitLine(pre: Doc, l: nat, ps: Doc, k: Stream)
    ensures Emit(Line(pre, l, ps), k) == Emit(pre, Emit(ps, k))
  {
    EmitPlus(pre + [Ws(Newline(l))], ps, k);
    EmitPlus(pre, [Ws(Newline(l))], Emit(ps, k));
    EmitWs(Newline(l), Emit(ps, k));
  }

  lemma {:induction false} EmitKey(name: string, k: Stream)
    ensures Emit(Key(name), k) == Cons(Str(name), Cons(Colon, k))
  {
    assert Key(name)[1..] == [Tok(Colon), Ws(" ")];
    EmitTokWs(Colon, " ", k);
  }

  lemma {:induction false} TreeRules()
    ensures forall name, v, m, k {:trigger MoreMembers(Member(name, v, m), k)} ::
              MoreMembers(Member(name, v, m), k)
              == Cons(Comma, Cons(Str(name), Cons(Colon, Toks(v, MoreMembers(m, k)))))
    ensures forall k {:trigger MoreMembers(NoMembers, k)} :: MoreMembers(NoMembers, k) == Cons(ObjectEnd, k)
    ensures forall name, v, m, k {:trigger Toks(JObj(Member(name, v, m)), k)} ::
              Toks(JObj(Member(name, v, m)), k)
              == Cons(ObjectStart, Cons(Str(name), Cons(Colon, Toks(v, MoreMembers(m, k)))))
    ensures forall v, k {:trigger Toks(JStr(v), k)} :: Toks(JStr(v), k) == Cons(Str(v), k)
    ensures forall v, k {:trigger Toks(JNum(v), k)} :: Toks(JNum(v), k) == Cons(Number(v), k)
  {
    forall name, v, m, k ensures MoreMembers(Member(name, v, m), k)
              == Cons(Comma, Cons(Str(name), Cons(Colon, Toks(v, MoreMembers(m, k)))))
              && MemberToks(Member(name, v, m), k) == Cons(Str(name), Cons(Colon, Toks(v, MoreMembers(m, k)))) {
    }
  }

  lemma {:induction false} MetadataEmit(pre: Doc, count: nat, now: Stamp, l: nat, k: Stream)
    ensures Emit(MetadataDoc(pre, count, now, l), k)
         == Emit(pre, Cons(Str("metadata"), Cons(Colon, Toks(MetadataTree(count, now), k))))
  {
    EmitRules();
    TreeRules();
    hide Emit, Line, Key, Escape, IntText, MoreMembers, Toks;
  }

  lemma {:induction false} ElementRules()
    ensures forall v, m, k {:trigger MoreElements(Element(v, m), k)} ::
              MoreElements(Element(v, m), k) == Cons(Comma, Toks(v, MoreElements(m, k)))
    ensures forall k {:trigger MoreElements(NoElements, k)} :: MoreElements(NoElements, k) == Cons(ArrayEnd, k)
    ensures forall v, m, k {:trigger ElementToks(Element(v, m), k)} ::
              ElementToks(Element(v, m), k) == Toks(v, MoreElements(m, k))
    ensures forall es, k {:trigger Toks(JArr(es), k)} :: Toks(JArr(es), k) == Cons(ArrayStart, ElementToks(es, k))
    ensures forall ms, k {:trigger Toks(JObj(ms), k)} :: Toks(JObj(ms), k) == Cons(ObjectStart, MemberToks(ms, k))
  {
    forall v, m, k ensures MoreElements(Element(v, m), k) == Cons(Comma, Toks(v, MoreElements(m, k))) {
      assert ElementToks(Element(v, m), k) == Toks(v, MoreElements(m, k));
    }
  }

  lemma {:induction false} ConstraintsEmit(pre: Doc, c: Column, k: Stream)
    requires Constrained(c)
    ensures Emit(ConstraintsDoc(pre, c), Cons(ArrayEnd, k)) == Emit(pre, ElementToks(ConstraintList(c), k))
  {
    EmitRules();
    TreeRules();
    ElementRules();
    hide Emit, MoreElements, ElementToks, Toks;
  }

  lemma {:induction false} ColumnEmit(pre: Doc, c: Column, l: nat, k: Stream)
    ensures Emit(ColumnDoc(pre, c, l), k) == Emit(pre, Toks(ColumnTree(c), k))
  {
    EmitRules();
    TreeRules();
    ElementRules();
    hide Emit, Line, Key, Escape, TypeName, MoreMembers, Toks, ConstraintsDoc, ConstraintList, MoreElements, ElementToks;
    var a := Line(pre, l, OPEN);
    var b := Line(a, l + 1, Key("name")) + [Tok(Str(Escape(c.name)))] + COMMA;
    var e := Line(b, l + 1, Key("type")) + [Tok(Str(Escape(TypeName(c.ty))))] + [];
    if Constrained(c) {
      ConstraintsEmit(Line(e + COMMA, l + 1, Key("constraints")) + [Tok(ArrayStart)], c, Cons(ObjectEnd, k));
    }
  }

  lemma {:induction false} ColumnsAhead(cs: seq<Column>, n: nat, k: Stream)
    requires 0 < n <= |cs|
    ensures ElementToks(ColumnElements(cs[n - 1..]), k)
         == Toks(ColumnTree(cs[n - 1]), MoreElements(ColumnElements(cs[n..]), k))
    ensures MoreElements(ColumnElements(cs[n..]), k)
         == if n < |cs| then Cons(Comma, ElementToks(ColumnElements(cs[n..]), k)) else ElementToks(ColumnElements(cs[n..]), k)
  {
    hide Toks, ColumnTree;
    assert cs[n - 1..][0] == cs[n - 1] && cs[n - 1..][1..] == cs[n..];
    assert n == |cs| ==> cs[n..] == [];
  }

  lemma {:induction false} ColumnsEmit(pre: Doc, cs: seq<Column>, l: nat, n: nat, k: Stream)
    requires n <= |cs|
    ensures Emit(ColumnsDoc(pre, cs, l, n), ElementToks(ColumnElements(cs[n..]), k))
         == Emit(pre, ElementToks(ColumnElements(cs), k))
    decreases n
  {
    hide Emit, ColumnDoc, ColumnTree, Toks, MoreElements, ElementToks, ColumnElements;
    if n == 0 {
      assert cs[0..] == cs;
    } else {
      EmitRules();
      ColumnsEmit(pre, cs, l, n - 1, k);
      ColumnEmit(ColumnsDoc(pre, cs, l, n - 1), cs[n - 1], l, MoreElements(ColumnElements(cs[n..]), k));
      ColumnsAhead(cs, n, k);
    }
  }

  lemma {:induction false} AllColumnsEmit(pre: Doc, cs: seq<Column>, l: nat, k: Stream)
    ensures Emit(ColumnsDoc(pre, cs, l, |cs|), Cons(ArrayEnd, k)) == Emit(pre, ElementToks(ColumnElements(cs), k))
  {
    hide Emit, ColumnsDoc;
    ColumnsEmit(pre, cs, l, |cs|, k);
    assert cs[|cs|..] == [];
    assert ElementToks(NoElements, k) == Cons(ArrayEnd, k);
  }

  lemma {:induction false} SchemaEmit(pre: Doc, t: Table, l: nat, k: Stream)
    ensures Emit(SchemaDoc(pre, t, l), k)
         == Emit(pre, Cons(Str("schema"), Cons(Colon, Toks(SchemaTree(t), k))))
  {
    EmitRules();
    TreeRules();
    ElementRules();
    hide Emit, Line, Key, Escape, IntText, MoreMembers, Toks, ColumnsDoc, ElementToks;
    var a := Line(pre, l, Key("schema")) + OPEN;
    var b := Line(a, l + 1, Key("name")) + [Tok(Str(Escape(t.name)))] + COMMA;
    var c := Line(b, l + 1, Key("fields")) + OPEN_ARRAY;
    var m := Member("record_count", JNum(IntText(t.count)), NoMembers);
    AllColumnsEmit(c, t.columns, l + 2, MoreMembers(m, k));
  }

  lemma {:induction false} FieldTokens(f: Field, k: Stream)
    ensures Toks(FieldJson(f), k) == Cons(FieldToken(f), k)
  {
  }

  lemma {:induction false} FieldsAhead(cs: seq<Column>, fs: seq<Field>, n: nat, k: Stream)
    requires 0 < n <= |cs| == |fs|
    ensures var more := FieldMembers(cs[n..], fs[n..]);
            && MemberToks(FieldMembers(cs[n - 1..], fs[n - 1..]), k)
               == Cons(Str(cs[n - 1].name), Cons(Colon, Cons(FieldToken(fs[n - 1]), MoreMembers(more, k))))
            && MoreMembers(more, k) == if n < |cs| then Cons(Comma, MemberToks(more, k)) else MemberToks(more, k)
  {
    var more := FieldMembers(cs[n..], fs[n..]);
    FieldTokens(fs[n - 1], MoreMembers(more, k));
    hide Toks, FieldJson, FieldToken;
    assert cs[n - 1..][0] == cs[n - 1] && cs[n - 1..][1..] == cs[n..];
    assert fs[n - 1..][0] == fs[n - 1] && fs[n - 1..][1..] == fs[n..];
    assert n == |cs| ==> cs[n..] == [];
  }

  lemma {:induction false} FieldsEmit(pre: Doc, cs: seq<Column>, fs: seq<Field>, l: nat, n: nat, k: Stream)
    requires n <= |cs| == |fs|
    ensures Emit(FieldsDoc(pre, cs, fs, l, n), MemberToks(FieldMembers(cs[n..], fs[n..]), k))
         == Emit(pre, MemberToks(FieldMembers(cs, fs), k))
    decreases n
  {
    if n == 0 {
      assert cs[0..] == cs && fs[0..] == fs;
    } else {
      EmitRules();
      hide Emit, Line, Key, FieldToken, FieldJson, Toks, MemberToks, MoreMembers;
      FieldsEmit(pre, cs, fs, l, n - 1, k);
      FieldsAhead(cs, fs, n, k);
    }
  }

  lemma {:induction false} AllFieldsEmit(pre: Doc, cs: seq<Column>, fs: seq<Field>, l: nat, k: Stream)
    requires |cs| == |fs|
    ensures Emit(FieldsDoc(pre, cs, fs, l, |cs|), Cons(ObjectEnd, k)) == Emit(pre, MemberToks(FieldMembers(cs, fs), k))
  {
    hide Emit, FieldsDoc;
    FieldsEmit(pre, cs, fs, l, |cs|, k);
    assert cs[|cs|..] == [];
    assert MemberToks(NoMembers, k) == Cons(ObjectEnd, k);
  }

  lemma {:induction false} RecordMetadataEmit(pre: Doc, r: Record, l: nat, k: Stream)
    ensures Emit(RecordMetadataDoc(pre, r, l), k)
         == Emit(pre, Cons(Str("metadata"), Cons(Colon, Toks(RecordMetadata(r), k))))
  {
    EmitRules();
    TreeRules();
    hide Emit, Line, Key, IntText, MoreMembers, Toks;
  }

  lemma {:induction false} RecordEmit(pre: Doc, cs: seq<Column>, r: Record, l: nat, k: Stream)
    requires |cs| == |r.fields|
    ensures Emit(RecordDoc(pre, cs, r, l), k) == Emit(pre, Toks(RecordTree(cs, r), k))
  {
    EmitRules();
    TreeRules();
    ElementRules();
    hide Emit, Line, Key, IntText, MoreMembers, MemberToks, Toks, FieldsDoc, FieldMembers, RecordMetadataDoc;
    var a := Line(pre, l, OPEN);
    var b := Line(a, l + 1, Key("id")) + [Tok(Number(IntText(r.id)))] + COMMA;
    var c := Line(b, l + 1, Key("fields")) + OPEN;
    var e := FieldsDoc(c, cs, r.fields, l + 2, |cs|);
    var f := Line(e, l + 1, [Tok(ObjectEnd)]) + COMMA;
    var m := Member("metadata", RecordMetadata(r), NoMembers);
    AllFieldsEmit(c, cs, r.fields, l + 2, MoreMembers(m, k));
    RecordMetadataEmit(f, r, l + 1, Cons(ObjectEnd, k));
  }

  /** What is still to come of a list of records of which `n` are written. */
  function RecordsAhead(cs: seq<Column>, rs: seq<Record>, n: nat, k: Stream): (st: Stream)
    requires n <= |rs| && AllShaped(cs, rs)
  {
    if n == 0 then ElementToks(RecordElements(cs, rs), k)
    else MoreElements(RecordElements(cs, rs[n..]), k)
  }

  lemma {:induction false} RecordsAheadStep(cs: seq<Column>, rs: seq<Record>, n: nat, k: Stream)
    requires 0 < n <= |rs| && AllShaped(cs, rs)
    ensures RecordsAhead(cs, rs, n - 1, k)
         == var st := Toks(RecordTree(cs, rs[n - 1]), RecordsAhead(cs, rs, n, k)); if n > 1 then Cons(Comma, st) else st
  {
    hide Toks, RecordTree;
    assert rs[n - 1..][0] == rs[n - 1] && rs[n - 1..][1..] == rs[n..];
    assert n == 1 ==> rs[n - 1..] == rs;
    var e := RecordElements(cs, rs[n - 1..]);
    assert e == Element(RecordTree(cs, rs[n - 1]), RecordElements(cs, rs[n..]));
    assert MoreElements(e, k) == Cons(Comma, ElementToks(e, k));
  }

  lemma {:induction false} RecordListEmit(pre: Doc, cs: seq<Column>, rs: seq<Record>, l: nat, n: nat, k: Stream)
    requires n <= |rs| && AllShaped(cs, rs)
    ensures Emit(RecordListDoc(pre, cs, rs, l, n), RecordsAhead(cs, rs, n, k))
         == Emit(pre, ElementToks(RecordElements(cs, rs), k))
    decreases n
  {
    if n > 0 {
      EmitRules();
      hide Emit, RecordDoc, RecordTree, Toks, MoreElements, ElementToks;
      var before := RecordListDoc(pre, cs, rs, l, n - 1);
      RecordListEmit(pre, cs, rs, l, n - 1, k);
      RecordEmit(if n > 1 then before + COMMA else before, cs, rs[n - 1], l, RecordsAhead(cs, rs, n, k));
      RecordsAheadStep(cs, rs, n, k);
    }
  }

  lemma {:induction false} AllRecordsEmit(pre: Doc, cs: seq<Column>, rs: seq<Record>, l: nat, k: Stream)
    requires AllShaped(cs, rs)
    ensures Emit(RecordListDoc(pre, cs, rs, l, |rs|), Cons(ArrayEnd, k))
         == Emit(pre, ElementToks(RecordElements(cs, rs), k))
  {
    hide Emit, RecordListDoc;
    RecordListEmit(pre, cs, rs, l, |rs|, k);
    assert rs[|rs|..] == [];
    assert MoreElements(NoElements, k) == ElementToks(NoElements, k) == Cons(ArrayEnd, k);
  }

  lemma {:induction false} RecordsEmit(pre: Doc, t: Table, l: nat, k: Stream)
    requires Shaped(t)
    ensures Emit(RecordsDoc(pre, t, l), k)
         == Emit(pre, Cons(Str("records"), Cons(Colon, Toks(JArr(RecordElements(t.columns, t.records)), k))))
  {
    EmitRules();
    ElementRules();
    hide Emit, Line, Key, RecordListDoc, RecordElements, Toks, ElementToks;
    AllRecordsEmit(Line(pre, l, Key("records")) + OPEN_ARRAY, t.columns, t.records, l + 1, k);
  }

  lemma {:induction false} TableEmit(pre: Doc, t: Table, l: nat, k: Stream)
    requires Shaped(t)
    ensures Emit(TableDoc(pre, t, l), k) == Emit(pre, Toks(TableTree(t), k))
  {
    EmitRules();
    TreeRules();
    hide Emit, Line, SchemaDoc, RecordsDoc, RecordElements, SchemaTree, Toks, MoreMembers;
    var a := Line(pre, l, OPEN);
    var b := SchemaDoc(a, t, l + 1) + COMMA;
    RecordsEmit(b, t, l + 1, Cons(ObjectEnd, k));
    SchemaEmit(a, t, l + 1, MoreMembers(Member("records", JArr(RecordElements(t.columns, t.records)), NoMembers), k));
  }

  function TablesAhead(ts: seq<Table>, n: nat, k: Stream): (st: Stream)
    requires n <= |ts| && AllTablesShaped(ts)
  {
    if n == 0 then ElementToks(TableElements(ts), k) else MoreElements(TableElements(ts[n..]), k)
  }

  lemma {:induction false} TablesAheadStep(ts: seq<Table>, n: nat, k: Stream)
    requires 0 < n <= |ts| && AllTablesShaped(ts)
    ensures TablesAhead(ts, n - 1, k)
         == var st := Toks(TableTree(ts[n - 1]), TablesAhead(ts, n, k)); if n > 1 then Cons(Comma, st) else st
  {
    hide Toks, TableTree;
    assert ts[n - 1..][0] == ts[n - 1] && ts[n - 1..][1..] == ts[n..];
    assert n == 1 ==> ts[n - 1..] == ts;
    var e := TableElements(ts[n - 1..]);
    assert e == Element(TableTree(ts[n - 1]), TableElements(ts[n..]));
    assert MoreElements(e, k) == Cons(Comma, ElementToks(e, k));
  }

  lemma {:induction false} NextTableEmit(before: Doc, t: Table, l: nat, n: nat, st: Stream)
    requires Shaped(t)
    ensures Emit(TableDoc(if n > 1 then before + [Tok(Comma)] else before, t, l), st)
         == Emit(before, if n > 1 then Cons(Comma, Toks(TableTree(t), st)) else Toks(TableTree(t), st))
  {
    hide TableDoc, TableTree, Toks, Shaped, Emit;
    EmitRules();
    TableEmit(if n > 1 then before + [Tok(Comma)] else before, t, l, st);
  }

  lemma {:induction false} TablesEmit(pre: Doc, ts: seq<Table>, l: nat, n: nat, k: Stream)
    requires n <= |ts| && AllTablesShaped(ts)
    ensures Emit(TablesDoc(pre, ts, l, n), TablesAhead(ts, n, k)) == Emit(pre, ElementToks(TableElements(ts), k))
    decreases n
  {
    hide Emit, TableDoc, TableTree, Toks, MoreElements, ElementToks, TableElements, Shaped;
    if n > 0 {
      hide TablesAhead;
      TablesEmit(pre, ts, l, n - 1, k);
      NextTableEmit(TablesDoc(pre, ts, l, n - 1), ts[n - 1], l, n, TablesAhead(ts, n, k));
      TablesAheadStep(ts, n, k);
    }
  }

  lemma {:induction false} AllTablesEmit(pre: Doc, ts: seq<Table>, l: nat, k: Stream)
    requires AllTablesShaped(ts)
    ensures Emit(TablesDoc(pre, ts, l, |ts|), Cons(ArrayEnd, k)) == Emit(pre, ElementToks(TableElements(ts), k))
  {
    hide Emit, TablesDoc;
    TablesEmit(pre, ts, l, |ts|, k);
    assert ts[|ts|..] == [];
    assert MoreElements(NoElements, k) == ElementToks(NoElements, k) == Cons(ArrayEnd, k);
  }

  /** The saved text is a layout of the database's tree. */
  lemma {:induction false} SaveEmit(ts: seq<Table>, now: Stamp, k: Stream)
    requires AllTablesShaped(ts)
    ensures Emit(SaveDoc(ts, now), k) == Toks(DatabaseTree(ts, now), k)
  {
    EmitRules();
    TreeRules();
    ElementRules();
    hide Emit, Line, Key, MetadataDoc, TablesDoc, TableElements, MetadataTree, Toks, MoreMembers, ElementToks;
    var o: Doc := [Tok(ObjectStart)];
    var b := MetadataDoc(o, |ts|, now, 1) + [Tok(Comma)];
    var c := Line(b, 1, Key("tables")) + [Tok(ArrayStart)];
    AllTablesEmit(c, ts, 2, Cons(ObjectEnd, k));
    MetadataEmit(o, |ts|, now, 1, MoreMembers(Member("tables", JArr(TableElements(ts)), NoMembers), k));
  }
}
