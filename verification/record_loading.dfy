/** Loading records: what an array of record objects puts into a table, whatever its members are and however they are ordered. */
module RecordLoading {
  import opened Lexer
  import opened TokenStream
  import opened Json
  import opened Escaping
  import opened Decimal
  import opened Schema
  import opened Skipper
  import opened Loader
  import opened Catalog
  import Store
  import opened Effects
  import opened Scalars

  // ---- one record object ----

  /** A record object as it may be written: its "fields" are objects of scalars, its "id" is a scalar, the rest is free. */
  predicate RecordShape(ms: Members) {
    ms.Member? ==>
      && (ms.key == "fields" ==> ms.value.JObj? && ScalarMembers(ms.value.members))
      && (ms.key == "id" ==> Scalar(ms.value))
      && RecordShape(ms.more)
  }

  function Joined(ms: Members, ns: Members): (r: Members) {
    if ms.NoMembers? then ns else Member(ms.key, ms.value, Joined(ms.more, ns))
  }

  /** The members of all its "fields" objects, one behind the other. */
  function AllFields(ms: Members): (r: Members)
    requires RecordShape(ms)
    ensures ScalarMembers(r)
  {
    if ms.NoMembers? then NoMembers
    else if ms.key == "fields" then
      JoinedScalars(ms.value.members, AllFields(ms.more));
      Joined(ms.value.members, AllFields(ms.more))
    else AllFields(ms.more)
  }

  lemma {:induction false} JoinedScalars(ms: Members, ns: Members)
    requires ScalarMembers(ms) && ScalarMembers(ns)
    ensures ScalarMembers(Joined(ms, ns))
  {
    if ms.Member? {
      JoinedScalars(ms.more, ns);
    }
  }

  lemma {:induction false} JoinedLast(ms: Members, ns: Members, name: string)
    ensures LastFor(Joined(ms, ns), name) == if LastFor(ns, name).Some? then LastFor(ns, name) else LastFor(ms, name)
    ensures NullFor(Joined(ms, ns), name) <==> NullFor(ms, name) || NullFor(ns, name)
  {
    if ms.Member? {
      JoinedLast(ms.more, ns, name);
    }
  }

  lemma {:induction false} FieldReadJoined(cs: seq<Column>, ms: Members, ns: Members, i: nat, x: Field, y: Field, z: Field)
    requires i < |cs| && ScalarMembers(ms) && ScalarMembers(ns)
    requires FieldRead(cs, ms, i, x, y) && FieldRead(cs, ns, i, y, z)
    ensures ScalarMembers(Joined(ms, ns)) && FieldRead(cs, Joined(ms, ns), i, x, z)
  {
    JoinedScalars(ms, ns);
    JoinedLast(ms, ns, cs[i].name);
    NullIsSome(ms, cs[i].name);
    NullIsSome(ns, cs[i].name);
    hide Reads;
  }

  /** The last number written as its "id". */
  function IdText(ms: Members): (x: Option<string>) {
    if ms.NoMembers? then None
    else
      var later := IdText(ms.more);
      if later.Some? then later else if ms.key == "id" && ms.value.JNum? then Some(ms.value.text) else None
  }

  ghost predicate IdRead(ms: Members, before: int, after: int) {
    var x := IdText(ms);
    if x.None? then after == before else Denotes(x.value, after)
  }

  /** What the record's id and fields become. */
  ghost predicate RecordRead(ms: Members, cs: seq<Column>, before: RawRecord, after: RawRecord)
    requires RecordShape(ms)
  {
    && IdRead(ms, before.id, after.id)
    && |before.fields| == |after.fields| == |cs|
    && forall i | 0 <= i < |cs| :: FieldRead(cs, AllFields(ms), i, before.fields[i], after.fields[i])
  }

  lemma {:induction false} FieldsBranch(ms: Members, cs: seq<Column>, acc: RawRecord, k: Stream) returns (fs: seq<Field>)
    requires ScalarMembers(ms) && |acc.fields| == |cs|
    ensures RecordMember("fields", Toks(JObj(ms), k), cs, acc) == Done(acc.(fields := fs), k)
    ensures |fs| == |cs| && forall i | 0 <= i < |cs| :: FieldRead(cs, ms, i, acc.fields[i], fs[i])
  {
    HeadOf(JObj(ms), k);
    FieldsLoopReads(ms, cs, acc.fields, k);
    hide Toks, MemberToks, FieldsLoop, FieldRead;
    fs := FieldsLoop(MemberToks(ms, k), cs, acc.fields).value;
  }

  lemma {:induction false} IdBranch(j: Json, cs: seq<Column>, acc: RawRecord, k: Stream)
    requires Scalar(j) && |acc.fields| == |cs|
    ensures RecordMember("id", Toks(j, k), cs, acc) == Done(if j.JNum? then acc.(id := Atoi(j.text)) else acc, k)
  {
  }

  lemma {:induction false} OtherBranch(key: string, j: Json, cs: seq<Column>, acc: RawRecord, k: Stream)
    requires key != "id" && key != "fields" && |acc.fields| == |cs|
    ensures RecordMember(key, Toks(j, k), cs, acc) == Done(acc, k)
  {
    SkipTree(j, k);
  }

  /** One member: what it makes of the record so far, and how that composes with the members behind it. */
  lemma {:induction false} OneMemberRead(ms: Members, cs: seq<Column>, acc: RawRecord, k: Stream) returns (next: RawRecord)
    requires ms.Member? && RecordShape(ms) && |acc.fields| == |cs|
    ensures |next.fields| == |cs| && RecordMember(ms.key, Toks(ms.value, k), cs, acc) == Done(next, k)
    ensures forall r | RecordRead(ms.more, cs, next, r) :: RecordRead(ms, cs, acc, r)
  {
    hide Toks, RecordMember, FieldRead, Denotes, Atoi;
    if ms.key == "fields" {
      var fs := FieldsBranch(ms.value.members, cs, acc, k);
      next := acc.(fields := fs);
      forall r | RecordRead(ms.more, cs, next, r) ensures RecordRead(ms, cs, acc, r) {
        forall i | 0 <= i < |cs| ensures FieldRead(cs, AllFields(ms), i, acc.fields[i], r.fields[i]) {
          FieldReadJoined(cs, ms.value.members, AllFields(ms.more), i, acc.fields[i], fs[i], r.fields[i]);
        }
      }
    } else if ms.key == "id" {
      IdBranch(ms.value, cs, acc, k);
      next := if ms.value.JNum? then acc.(id := Atoi(ms.value.text)) else acc;
      if ms.value.JNum? {
        AtoiExactly(ms.value.text, Atoi(ms.value.text));
      }
    } else {
      OtherBranch(ms.key, ms.value, cs, acc, k);
      next := acc;
    }
  }

  /** A record object is read to its end, whatever the order of its members and whatever else it holds. */
  lemma {:induction false} RecordLoopReads(ms: Members, cs: seq<Column>, acc: RawRecord, k: Stream)
    requires RecordShape(ms) && |acc.fields| == |cs|
    ensures var p := RecordLoop(MemberToks(ms, k), cs, acc);
            p.Done? && p.rest == k && RecordRead(ms, cs, acc, p.value)
    decreases ms
  {
    MemberStart(ms, k);
    if ms.Member? {
      var rest := MoreMembers(ms.more, k);
      MemberStart(ms.more, k);
      var next := OneMemberRead(ms, cs, acc, rest);
      hide Toks, MemberToks, MoreMembers, RecordMember, RecordRead;
      RecordLoopReads(ms.more, cs, next, k);
      if ms.more.NoMembers? {
        assert RecordRead(ms.more, cs, next, next) by { NoMemberRead(cs, next); }
      }
    } else {
      NoMemberRead(cs, acc);
    }
  }

  lemma {:induction false} NoMemberRead(cs: seq<Column>, acc: RawRecord)
    requires |acc.fields| == |cs|
    ensures RecordRead(NoMembers, cs, acc, acc)
  {
  }

  // ---- a value that is no scalar ----

  /**
   * Under a field name only one token is read. An object or array there makes loading fail, unless it is an empty
   * object: its closing brace is taken for the end of the fields, and what is behind it is read as members of the record.
   */
  lemma {:induction false} NestedValueEnds(ms: Members, cs: seq<Column>, fs: seq<Field>, k: Stream)
    requires ms.Member? && !Scalar(ms.value) && |cs| == |fs|
    ensures var p := FieldsLoop(MemberToks(ms, k), cs, fs);
            if ms.value != JObj(NoMembers) then p == Failed(InvalidInput)
            else p.Done? && p.rest == MoreMembers(ms.more, k) && |p.value| == |fs|
                 && forall i | 0 <= i < |cs| ::
                      if cs[i].name == ms.key && !Shadowed(cs, i)
                      then p.value[i].ty == fs[i].ty && IsBlank(cs[i].ty, p.value[i].value)
                      else p.value[i] == fs[i]
  {
    var rest := MoreMembers(ms.more, k);
    MemberStart(ms, k);
    HeadOf(ms.value, rest);
    if ms.value.JObj? {
      MemberStart(ms.value.members, rest);
    } else {
      ElementStart(ms.value.elements, rest);
      if ms.value.elements.Element? {
        HeadOf(ms.value.elements.value, MoreElements(ms.value.elements.more, rest));
      }
    }
    hide Toks, MemberToks, ElementToks, MoreMembers, MoreElements;
    forall i | 0 <= i < |cs| ensures ColumnIndex(cs, ms.key) == i <==> cs[i].name == ms.key && !Shadowed(cs, i) {
      FirstNamedColumn(cs, ms.key, i);
    }
  }

  lemma {:induction false} FirstNamedColumn(cs: seq<Column>, name: string, i: nat)
    requires i < |cs|
    ensures ColumnIndex(cs, name) == i <==> cs[i].name == name && !Shadowed(cs, i)
  {
    var k := ColumnIndex(cs, name);
    hide ColumnIndex;
    if cs[i].name == name && !Shadowed(cs, i) {
      assert k <= i;
    }
  }

  /** An empty array under a field name is enough to reject the record. */
  lemma {:induction false} NestedValueFails()
    ensures FieldsLoop(MemberToks(Member("a", JArr(NoElements), NoMembers), End), [], []) == Failed(InvalidInput)
  {
    NestedValueEnds(Member("a", JArr(NoElements), NoMembers), [], [], End);
    hide FieldsLoop, MemberToks;
  }

  // ---- storing it ----

  /** The columns of a table that was loaded: the first is the primary key, and all may be NULL. */
  predicate LoaderColumns(cs: seq<Column>) {
    |cs| > 0 && forall i | 0 <= i < |cs| :: cs[i].nullable && (cs[i].primaryKey <==> i == 0)
  }

  /** The record object, read into a record of blanks without an id. */
  ghost predicate ReadsRecord(ms: Members, cs: seq<Column>, raw: RawRecord)
    requires RecordShape(ms)
  {
    exists blank: seq<Field> ::
      && |blank| == |cs|
      && (forall i | 0 <= i < |cs| :: blank[i].ty == cs[i].ty && IsBlank(cs[i].ty, blank[i].value))
      && RecordRead(ms, cs, RawRecord(-1, blank), raw)
  }

  /** A new record in front, with the id in its first column and the values read in the others. */
  predicate AddedAs(t: Table, raw: RawRecord, now: Stamp, u: Table)
    requires |raw.fields| == |t.columns|
  {
    && u == t.(records := u.records, count := t.count + 1, nextId := if raw.id >= t.nextId then raw.id + 1 else t.nextId)
    && |u.records| == |t.records| + 1 && u.records[1..] == t.records
    && var r := u.records[0];
       && r.id == raw.id && r.stamp == now && r.version == 1 && |r.fields| == |t.columns|
       && forall i | 0 <= i < |t.columns| ::
            r.fields[i] == Field(t.columns[i].ty, if i == 0 then IntV(raw.id) else raw.fields[i].value)
  }

  /** A record without an id is dropped. Any other needs room; it is dropped if its id is stored already, else added. */
  predicate StoredAs(t: Table, raw: RawRecord, now: Stamp, u: Table)
    requires |raw.fields| == |t.columns|
  {
    if raw.id == -1 then u == t
    else t.count < 10000 && if HasId(t.records, raw.id) then u == t else AddedAs(t, raw, now, u)
  }

  lemma {:induction false} KeySet(cs: seq<Column>, fs: seq<Field>, id: int)
    requires |cs| == |fs| && LoaderColumns(cs)
    ensures var vs := SetKey(cs, fs, id);
            && vs == [Field(TInt, IntV(id))] + fs[1..]
            && KeyAt(cs, vs, 0, id) && NullsAllowed(cs, vs)
  {
  }

  lemma {:induction false} StoreEffect(t: Table, raw: RawRecord, now: Stamp)
    requires |raw.fields| == |t.columns| && LoaderColumns(t.columns)
    ensures var s := StoreRecord(t, raw, now);
            && (s.code == Success ==> StoredAs(t, raw, now, s.table))
            && (s.code != Success ==> s.code == TableFull && t.count >= 10000 && raw.id != -1)
  {
    KeySet(t.columns, raw.fields, raw.id);
    if raw.id != -1 {
      var vs := SetKey(t.columns, raw.fields, raw.id);
      InsertEffect(t, vs, FIRST_GENERATED_ID, now);
      SuppliedKeyUsed(t, vs, now, raw.id);
      hide Insert, SetKey, KeyAt, LoaderColumns, HasId, NullRefused, NullsAllowed;
      assert !NullRefused(t, vs) by { NoneRefused(t, vs); }
    }
  }

  lemma {:induction false} NoneRefused(t: Table, values: seq<Field>)
    requires |values| == |t.columns| && NullsAllowed(t.columns, values)
    ensures !NullRefused(t, values)
  {
  }

  lemma {:induction false} SuppliedKeyUsed(t: Table, values: seq<Field>, now: Stamp, id: int)
    requires |values| == |t.columns| > 0 && KeyAt(t.columns, values, 0, id) && id != -1
    ensures var r := Insert(t, values, FIRST_GENERATED_ID, now);
            && (r.code == Success ==> r.id == id && !HasId(t.records, id))
            && (r.code == DuplicateKey ==> HasId(t.records, id))
  {
    hide Insert, KeyAt, HasId;
    Store.SuppliedIdIsUsed(t, values, FIRST_GENERATED_ID, now, 0, id);
  }

  // ---- an array of them ----

  predicate RecordsShape(es: Elements) {
    es.Element? ==> es.value.JObj? && RecordShape(es.value.members) && RecordsShape(es.more)
  }

  /** One record object, read and stored. */
  ghost predicate Stores(t: Table, ms: Members, now: Stamp, u: Table)
    requires RecordShape(ms)
  {
    exists raw :: ReadsRecord(ms, t.columns, raw) && |raw.fields| == |t.columns| && StoredAs(t, raw, now, u)
  }

  /** Record by record, in the order they are written. */
  ghost predicate StoresAll(t: Table, es: Elements, now: Stamp, u: Table)
    requires RecordsShape(es)
    decreases es
  {
    if es.NoElements? then u == t
    else exists w :: Stores(t, es.value.members, now, w) && StoresAll(w, es.more, now, u)
  }

  /** Some record with an id finds the table full. */
  ghost predicate Overflows(t: Table, es: Elements, now: Stamp)
    requires RecordsShape(es)
    decreases es
  {
    && es.Element?
    && (|| (t.count >= 10000 && exists raw :: ReadsRecord(es.value.members, t.columns, raw) && raw.id != -1)
        || exists w :: Stores(t, es.value.members, now, w) && Overflows(w, es.more, now))
  }

  lemma {:induction false} ReadIntoBlank(ms: Members, cs: seq<Column>, raw: RawRecord)
    requires RecordShape(ms) && RecordRead(ms, cs, RawRecord(-1, Defaults(cs)), raw)
    ensures ReadsRecord(ms, cs, raw) && |raw.fields| == |cs|
  {
    hide AllFields, FieldRead, IdRead;
    var blank := Defaults(cs);
    assert forall i | 0 <= i < |cs| :: blank[i].ty == cs[i].ty && IsBlank(cs[i].ty, blank[i].value);
  }

  /** One element of the array: read, stored, and on to the next. */
  lemma {:induction false} OneElement(ms: Members, more: Elements, t: Table, raw: RawRecord, now: Stamp, k: Stream)
    requires |t.columns| > 0 && |raw.fields| == |t.columns|
    requires RecordLoop(MemberToks(ms, MoreElements(more, k)), t.columns, RawRecord(-1, Defaults(t.columns)))
          == Done(raw, MoreElements(more, k))
    ensures var s := StoreRecord(t, raw, now);
            RecordsLoop(ElementToks(Element(JObj(ms), more), k), t, now)
            == if s.code != Success then Failed(s.code)
               else if more.NoElements? then Done(s.table, k)
               else RecordsLoop(ElementToks(more, k), s.table, now)
  {
    ElementStart(Element(JObj(ms), more), k);
    ElementStart(more, k);
    HeadOf(JObj(ms), MoreElements(more, k));
    hide Toks, MemberToks, ElementToks, MoreElements, StoreRecord, RecordLoop, Defaults;
  }

  lemma {:induction false} NoElementLeft(t: Table, now: Stamp, k: Stream)
    requires |t.columns| > 0
    ensures RecordsLoop(ElementToks(NoElements, k), t, now) == Done(t, k) && StoresAll(t, NoElements, now, t)
  {
  }

  lemma {:induction false} StoreNext(t: Table, es: Elements, raw: RawRecord, now: Stamp, w: Table)
    requires es.Element? && RecordsShape(es)
    requires ReadsRecord(es.value.members, t.columns, raw) && |raw.fields| == |t.columns| && StoredAs(t, raw, now, w)
    ensures forall u | StoresAll(w, es.more, now, u) :: StoresAll(t, es, now, u)
    ensures Overflows(w, es.more, now) ==> Overflows(t, es, now)
  {
    hide ReadsRecord, StoredAs;
    assert Stores(t, es.value.members, now, w);
  }

  lemma {:induction false} OverflowHere(t: Table, es: Elements, raw: RawRecord, now: Stamp)
    requires es.Element? && RecordsShape(es)
    requires ReadsRecord(es.value.members, t.columns, raw) && raw.id != -1 && t.count >= 10000
    ensures Overflows(t, es, now)
  {
    hide ReadsRecord;
  }

  /** An array of record objects is read to its end, each record stored in turn, unless the table overflows. */
  lemma {:induction false} RecordsLoopReads(es: Elements, t: Table, now: Stamp, k: Stream)
    requires RecordsShape(es) && LoaderColumns(t.columns)
    ensures |t.columns| > 0
    ensures var p := RecordsLoop(ElementToks(es, k), t, now);
            && (p.Done? ==> p.rest == k && StoresAll(t, es, now, p.value))
            && (p.Failed? ==> p.code == TableFull && Overflows(t, es, now))
    decreases es
  {
    hide Toks, MemberToks, ElementToks, MoreElements, RecordLoop, RecordRead, ReadsRecord, StoreRecord, StoredAs, Defaults,
         RecordsLoop, StoresAll, Overflows;
    assert |t.columns| > 0;
    if es.NoElements? {
      NoElementLeft(t, now, k);
    } else {
      var ms, rest := es.value.members, MoreElements(es.more, k);
      RecordLoopReads(ms, t.columns, RawRecord(-1, Defaults(t.columns)), rest);
      var raw := RecordLoop(MemberToks(ms, rest), t.columns, RawRecord(-1, Defaults(t.columns))).value;
      ReadIntoBlank(ms, t.columns, raw);
      assert es == Element(JObj(ms), es.more);
      OneElement(ms, es.more, t, raw, now, k);
      StoreEffect(t, raw, now);
      var s := StoreRecord(t, raw, now);
      if s.code == Success {
        StoreNext(t, es, raw, now, s.table);
        RecordsLoopReads(es.more, s.table, now, k);
        if es.more.NoElements? {
          NoElementLeft(s.table, now, k);
        }
      } else {
        OverflowHere(t, es, raw, now);
      }
    }
  }

  // ---- there is only one outcome ----

  lemma {:induction false} OneRecord(ms: Members, cs: seq<Column>, before: RawRecord, a: RawRecord, b: RawRecord)
    requires RecordShape(ms) && RecordRead(ms, cs, before, a) && RecordRead(ms, cs, before, b)
    ensures a == b
  {
    var x := IdText(ms);
    if x.Some? {
      AtoiExactly(x.value, a.id);
      AtoiExactly(x.value, b.id);
    }
    hide Denotes, FieldRead;
    forall i | 0 <= i < |cs| ensures a.fields[i] == b.fields[i] {
      OneField(cs, AllFields(ms), i, before.fields[i], a.fields[i], b.fields[i]);
    }
  }

  lemma {:induction false} OneReadRecord(ms: Members, cs: seq<Column>, a: RawRecord, b: RawRecord)
    requires RecordShape(ms) && ReadsRecord(ms, cs, a) && ReadsRecord(ms, cs, b)
    ensures a == b && |a.fields| == |cs|
  {
    hide RecordRead;
    var p: seq<Field> :|
      && |p| == |cs|
      && (forall i | 0 <= i < |cs| :: p[i].ty == cs[i].ty && IsBlank(cs[i].ty, p[i].value))
      && RecordRead(ms, cs, RawRecord(-1, p), a);
    var q: seq<Field> :|
      && |q| == |cs|
      && (forall i | 0 <= i < |cs| :: q[i].ty == cs[i].ty && IsBlank(cs[i].ty, q[i].value))
      && RecordRead(ms, cs, RawRecord(-1, q), b);
    OneBlank(cs, p, q);
    OneRecord(ms, cs, RawRecord(-1, p), a, b);
    assert |a.fields| == |cs| by { RecordLength(ms, cs, RawRecord(-1, p), a); }
  }

  lemma {:induction false} RecordLength(ms: Members, cs: seq<Column>, before: RawRecord, a: RawRecord)
    requires RecordShape(ms) && RecordRead(ms, cs, before, a)
    ensures |a.fields| == |cs|
  {
  }

  lemma {:induction false} OneBlank(cs: seq<Column>, p: seq<Field>, q: seq<Field>)
    requires |p| == |q| == |cs|
    requires forall i | 0 <= i < |cs| :: p[i].ty == cs[i].ty && IsBlank(cs[i].ty, p[i].value)
    requires forall i | 0 <= i < |cs| :: q[i].ty == cs[i].ty && IsBlank(cs[i].ty, q[i].value)
    ensures p == q
  {
  }

  lemma {:induction false} OneStored(t: Table, raw: RawRecord, now: Stamp, u: Table, v: Table)
    requires |raw.fields| == |t.columns| && StoredAs(t, raw, now, u) && StoredAs(t, raw, now, v)
    ensures u == v
  {
    if raw.id != -1 && !HasId(t.records, raw.id) {
      assert u.records[0].fields == v.records[0].fields;
      assert u.records == [u.records[0]] + u.records[1..] && v.records == [v.records[0]] + v.records[1..];
    }
  }

  lemma {:induction false} OneStep(t: Table, ms: Members, now: Stamp, u: Table, v: Table)
    requires RecordShape(ms) && Stores(t, ms, now, u) && Stores(t, ms, now, v)
    ensures u == v
  {
    hide ReadsRecord, StoredAs;
    var a :| ReadsRecord(ms, t.columns, a) && |a.fields| == |t.columns| && StoredAs(t, a, now, u);
    var b :| ReadsRecord(ms, t.columns, b) && |b.fields| == |t.columns| && StoredAs(t, b, now, v);
    OneReadRecord(ms, t.columns, a, b);
    OneStored(t, a, now, u, v);
  }

  lemma {:induction false} OneStepOnly(t: Table, ms: Members, now: Stamp, u: Table, raw: RawRecord)
    requires RecordShape(ms) && Stores(t, ms, now, u) && ReadsRecord(ms, t.columns, raw) && raw.id != -1
    ensures t.count < 10000
  {
    hide ReadsRecord;
    var a :| ReadsRecord(ms, t.columns, a) && |a.fields| == |t.columns| && StoredAs(t, a, now, u);
    OneReadRecord(ms, t.columns, a, raw);
  }

  /** An array is stored in one way, and not at all when it overflows. */
  lemma {:induction false} OneOutcome(t: Table, es: Elements, now: Stamp, u: Table)
    requires RecordsShape(es) && StoresAll(t, es, now, u)
    ensures !Overflows(t, es, now) && forall v | StoresAll(t, es, now, v) :: v == u
    decreases es
  {
    if es.Element? {
      hide ReadsRecord, Stores;
      var ms := es.value.members;
      var w :| Stores(t, ms, now, w) && StoresAll(w, es.more, now, u);
      OneOutcome(w, es.more, now, u);
      forall x | Stores(t, ms, now, x) ensures x == w {
        OneStep(t, ms, now, w, x);
      }
      forall raw | ReadsRecord(ms, t.columns, raw) && raw.id != -1 ensures t.count < 10000 {
        OneStepOnly(t, ms, now, w, raw);
      }
    }
  }
}
