/** What the record parser makes of the values written in a record object, said of the JSON values themselves. */
module Scalars {
  import opened Lexer
  import opened TokenStream
  import opened Json
  import opened Escaping
  import opened Decimal
  import opened Schema
  import opened Skipper
  import opened Loader
  import opened Catalog

  // ---- letters, whatever their case ----

  predicate SameLetter(a: char, b: char) {
    || a == b
    || ('a' <= a <= 'z' && a as int - 'a' as int == b as int - 'A' as int)
    || ('a' <= b <= 'z' && b as int - 'a' as int == a as int - 'A' as int)
  }

  /** `strcasecmp` finds no difference. */
  predicate EqualButCase(s: string, t: string) {
    |s| == |t| && forall i | 0 <= i < |s| :: SameLetter(s[i], t[i])
  }

  lemma {:induction false} SameNameExactly(s: string, t: string)
    ensures SameName(s, t) <==> EqualButCase(s, t)
  {
    forall a: char, b: char ensures Upper(a) == Upper(b) <==> SameLetter(a, b) {
    }
    hide Upper, SameLetter;
  }

  /** The names of a column type. */
  function TypeNames(ty: FieldType): (names: set<string>) {
    match ty
    case TInt => {"INT", "INTEGER"}
    case TString => {"STRING"}
    case TFloat => {"FLOAT"}
    case TBool => {"BOOL", "BOOLEAN"}
    case TDatetime => {"DATETIME"}
    case TBlob => {"BLOB"}
    case _ => {}
  }

  const NAMES: set<string> := {"INT", "INTEGER", "STRING", "FLOAT", "BOOL", "BOOLEAN", "DATETIME", "BLOB"}

  /** No text is two of the names. */
  lemma {:induction false} NamesApart(s: string, a: string, b: string)
    requires a in NAMES && b in NAMES && a != b
    ensures !(SameName(s, a) && SameName(s, b))
  {
    assert |"INT"| == 3 && |"INTEGER"| == 7 && |"FLOAT"| == 5 && |"STRING"| == 6 && |"BOOL"| == 4 && |"BOOLEAN"| == 7
        && |"DATETIME"| == 8 && |"BLOB"| == 4;
    assert |a| == |b| ==> Upper(a[1]) != Upper(b[1]);
  }

  /** A text names a type exactly when it is one of its names, in any case; what names none is UNKNOWN. */
  lemma {:induction false} TypeOfExactly(s: string, ty: FieldType)
    requires ty != TUnknown
    ensures TypeOf(s) == ty <==> exists name :: name in TypeNames(ty) && EqualButCase(s, name)
  {
    forall name ensures SameName(s, name) <==> EqualButCase(s, name) {
      SameNameExactly(s, name);
    }
    forall a, b | a in NAMES && b in NAMES && a != b ensures !(SameName(s, a) && SameName(s, b)) {
      NamesApart(s, a, b);
    }
    hide SameName, EqualButCase;
  }

  // ---- one value ----

  predicate Scalar(j: Json) {
    !j.JObj? && !j.JArr?
  }

  /** The text, cut to the 255 characters a string field holds. */
  predicate CutTo255(s: string, t: string) {
    if |s| <= 255 then t == s else t == s[..255]
  }

  /** What a column holds when nothing usable was written for it. */
  predicate IsBlank(ty: FieldType, v: Value) {
    match ty
    case TInt => v == IntV(0)
    case TBool => v == BoolV(false)
    case TFloat => v == Raw("0")
    case TDouble => v == Raw("0")
    case TDatetime => v == Raw("0")
    case _ => v == StrV("")
  }

  /** The value a column of type `ty` holds for the scalar `j`, for every type and every kind of scalar. */
  ghost predicate Reads(ty: FieldType, j: Json, v: Value)
    requires Scalar(j)
  {
    match j
    case JNum(x) =>
      (match ty
       case TInt => v.IntV? && Denotes(x, v.i)
       case TBool => v.BoolV? && (v.b <==> !Denotes(x, 0))
       case TString => v.StrV? && CutTo255(x, v.s)
       case TFloat => v == Raw(x)
       case TDouble => v == Raw(x)
       case _ => IsBlank(ty, v))
    case JStr(s) =>
      (match ty
       case TInt => v.IntV? && Denotes(s, v.i)
       case TBool => v.BoolV? && (v.b <==> EqualButCase(s, "true") || EqualButCase(s, "1") || EqualButCase(s, "yes"))
       case TString => v.StrV? && CutTo255(s, v.s)
       case TFloat => v == Raw(s)
       case TDouble => v == Raw(s)
       case TDatetime => v == Raw(s)
       case _ => IsBlank(ty, v))
    case JBool(b) => if ty == TBool then v == BoolV(b) else IsBlank(ty, v)
    case _ => IsBlank(ty, v)
  }

  function ScalarToken(j: Json): (t: Token)
    requires Scalar(j)
  {
    match j
    case JStr(s) => Str(s)
    case JNum(x) => Number(x)
    case JBool(b) => Boolean(b)
    case JNull => Null
  }

  lemma {:induction false} ValueReads(ty: FieldType, j: Json)
    requires Scalar(j)
    ensures Reads(ty, j, if j.JNull? then Zero(ty) else ValueOf(ty, ScalarToken(j)))
  {
    if j.JNum? {
      AtoiExactly(j.text, Atoi(j.text));
      AtoiExactly(j.text, 0);
    } else if j.JStr? {
      AtoiExactly(j.body, Atoi(j.body));
      SameNameExactly(j.body, "true");
      SameNameExactly(j.body, "1");
      SameNameExactly(j.body, "yes");
    }
    hide Atoi, Denotes, SameName, EqualButCase;
  }

  lemma {:induction false} FieldReads(c: Column, j: Json, before: Field)
    requires Scalar(j)
    ensures var f := ParseField(c, ScalarToken(j), before);
            Reads(c.ty, j, f.value) && f.ty == if j.JNull? then TNull else before.ty
  {
    ValueReads(c.ty, j);
    hide ValueOf, Zero, Reads;
  }

  // ---- all values of a record ----

  predicate ScalarMembers(ms: Members) {
    ms.Member? ==> Scalar(ms.value) && ScalarMembers(ms.more)
  }

  /** The last value written under the name. */
  function LastFor(ms: Members, name: string): (j: Option<Json>) {
    if ms.NoMembers? then None
    else
      var later := LastFor(ms.more, name);
      if later.Some? then later else if ms.key == name then Some(ms.value) else None
  }

  predicate NullFor(ms: Members, name: string) {
    ms.Member? && ((ms.key == name && ms.value.JNull?) || NullFor(ms.more, name))
  }

  lemma {:induction false} LastIsScalar(ms: Members, name: string)
    requires ScalarMembers(ms)
    ensures LastFor(ms, name).Some? ==> Scalar(LastFor(ms, name).value)
  {
    if ms.Member? {
      LastIsScalar(ms.more, name);
    }
  }

  /**
   * What the field of column `i` becomes: untouched where nothing is written under the column's name, or an earlier
   * column has it; otherwise the last value written, and marked NULL if any was null.
   */
  ghost predicate FieldRead(cs: seq<Column>, ms: Members, i: nat, before: Field, after: Field)
    requires i < |cs| && ScalarMembers(ms)
  {
    LastIsScalar(ms, cs[i].name);
    var j := LastFor(ms, cs[i].name);
    if j.None? || Shadowed(cs, i) then after == before
    else Reads(cs[i].ty, j.value, after.value) && after.ty == if NullFor(ms, cs[i].name) then TNull else before.ty
  }

  lemma {:induction false} FieldReadFirst(cs: seq<Column>, ms: Members, i: nat, before: Field, between: Field, after: Field)
    requires i < |cs| && ScalarMembers(ms) && ms.Member? && FieldRead(cs, ms.more, i, between, after)
    requires between == if ColumnIndex(cs, ms.key) == i then ParseField(cs[i], ScalarToken(ms.value), before) else before
    ensures FieldRead(cs, ms, i, before, after)
  {
    FieldReads(cs[i], ms.value, before);
    NullIsSome(ms.more, cs[i].name);
    hide Reads, ParseField;
    if ms.key == cs[i].name && ColumnIndex(cs, ms.key) != i {
      assert Shadowed(cs, i);
    }
  }

  lemma {:induction false} NullIsSome(ms: Members, name: string)
    ensures NullFor(ms, name) ==> LastFor(ms, name).Some?
  {
    if ms.Member? {
      NullIsSome(ms.more, name);
    }
  }

  /**
   * A record's "fields" object, whatever scalars it holds under whatever names, is read to its end, and each column gets
   * the value it reads there; names of no column are dropped.
   */
  lemma {:induction false} FieldsLoopReads(ms: Members, cs: seq<Column>, fs: seq<Field>, k: Stream)
    requires ScalarMembers(ms) && |cs| == |fs|
    ensures var p := FieldsLoop(MemberToks(ms, k), cs, fs);
            && p.Done? && p.rest == k && |p.value| == |cs|
            && forall i | 0 <= i < |cs| :: FieldRead(cs, ms, i, fs[i], p.value[i])
    decreases ms
  {
    MemberStart(ms, k);
    if ms.Member? {
      var rest := MoreMembers(ms.more, k);
      MemberStart(ms.more, k);
      assert Toks(ms.value, rest) == Cons(ScalarToken(ms.value), rest);
      var n := ColumnIndex(cs, ms.key);
      var between := if n < |cs| then fs[n := ParseField(cs[n], ScalarToken(ms.value), fs[n])] else fs;
      hide Toks, MemberToks, MoreMembers, ParseField, FieldRead, ScalarToken, ColumnIndex;
      FieldsLoopReads(ms.more, cs, between, k);
      var p := FieldsLoop(MemberToks(ms, k), cs, fs);
      NothingMoreRead(ms.more, cs, between);
      assert p.Done? && p.rest == k && |p.value| == |cs|;
      forall i | 0 <= i < |cs| ensures FieldRead(cs, ms, i, fs[i], p.value[i]) {
        FieldReadFirst(cs, ms, i, fs[i], between[i], p.value[i]);
      }
    }
  }

  lemma {:induction false} NothingMoreRead(ms: Members, cs: seq<Column>, fs: seq<Field>)
    requires |cs| == |fs|
    ensures ms.NoMembers? ==> forall i | 0 <= i < |cs| :: FieldRead(cs, ms, i, fs[i], fs[i])
  {
  }

  // ---- there is only one outcome ----

  lemma {:induction false} OneReading(ty: FieldType, j: Json, v: Value, w: Value)
    requires Scalar(j) && Reads(ty, j, v) && Reads(ty, j, w)
    ensures v == w
  {
    if ty == TInt && (j.JNum? || j.JStr?) {
      var x := if j.JNum? then j.text else j.body;
      AtoiExactly(x, v.i);
      AtoiExactly(x, w.i);
    }
    hide Denotes, EqualButCase;
  }

  lemma {:induction false} OneField(cs: seq<Column>, ms: Members, i: nat, before: Field, f: Field, g: Field)
    requires i < |cs| && ScalarMembers(ms) && FieldRead(cs, ms, i, before, f) && FieldRead(cs, ms, i, before, g)
    ensures f == g
  {
    LastIsScalar(ms, cs[i].name);
    var j := LastFor(ms, cs[i].name);
    if j.Some? && !Shadowed(cs, i) {
      OneReading(cs[i].ty, j.value, f.value, g.value);
    }
    hide Reads;
  }
}
