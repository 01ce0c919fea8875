/** A table's records as a linked list, changed in place. */
module LinkedTables {
  import opened Schema
  import opened Loader
  import opened RoundTrip
  import opened Store
  import opened Effects

  class Node {
    const id: int
    var fields: seq<Field>
    var stamp: Stamp
    var version: nat
    var next: Node?

    constructor (id: int, fields: seq<Field>, stamp: Stamp, next: Node?)
      ensures Row() == Record(id, fields, stamp, 1) && this.next == next
    {
      this.id, this.fields, this.stamp, this.version, this.next := id, fields, stamp, 1, next;
    }

    function Row(): (r: Record)
      reads this
    {
      Record(id, fields, stamp, version)
    }
  }

  /** The static counter behind `generate_record_id`, one for all tables. */
  class IdSource {
    var counter: int

    constructor ()
      ensures counter == FIRST_GENERATED_ID
    {
      counter := FIRST_GENERATED_ID;
    }
  }

  ghost function Rows(spine: seq<Node>): (rs: seq<Record>)
    reads spine
    ensures |rs| == |spine|
    ensures forall i | 0 <= i < |spine| :: rs[i] == spine[i].Row()
  {
    seq(|spine|, i requires 0 <= i < |spine| reads spine => spine[i].Row())
  }

  ghost predicate Distinct(spine: seq<Node>) {
    forall i, j | 0 <= i < j < |spine| :: spine[i] != spine[j]
  }

  /** The node at position `k`, or null behind the last. */
  ghost function At(spine: seq<Node>, k: nat): (n: Node?) {
    if k < |spine| then spine[k] else null
  }

  ghost predicate Linked(spine: seq<Node>)
    reads spine
  {
    forall i {:trigger spine[i].next} | 0 <= i < |spine| :: spine[i].next == At(spine, i + 1)
  }

  /** A new node in front of a list. */
  lemma {:induction false} Consed(n: Node, spine: seq<Node>)
    requires Distinct(spine) && Linked(spine) && n !in spine && n.next == At(spine, 0)
    ensures Distinct([n] + spine) && Linked([n] + spine)
    ensures Rows([n] + spine) == [n.Row()] + Rows(spine)
  {
    var longer := [n] + spine;
    forall i | 0 <= i < |longer| ensures longer[i].next == At(longer, i + 1) {
      assert i > 0 ==> longer[i] == spine[i - 1];
    }
  }

  /** A list without its node at `p`, bypassed by the one in front. */
  lemma {:induction false} Unlinked(spine: seq<Node>, p: nat, shorter: seq<Node>)
    requires p < |spine| && Distinct(spine) && shorter == spine[..p] + spine[p + 1..]
    requires forall i {:trigger spine[i].next} | 0 <= i < |spine| ::
               spine[i].next == At(spine, if i == p - 1 then p + 1 else i + 1)
    ensures Distinct(shorter) && Linked(shorter)
    ensures Rows(shorter) == Rows(spine)[..p] + Rows(spine)[p + 1..]
  {
    assert forall i | 0 <= i < |shorter| :: shorter[i] == spine[if i < p then i else i + 1];
  }

  // ---- facts about the values ----

  /** The place a search stops at is the place `Find` names. */
  lemma {:induction false} FoundAt(rs: seq<Record>, id: int, k: nat)
    requires k <= |rs| && (k < |rs| ==> rs[k].id == id)
    requires forall i | 0 <= i < k :: rs[i].id != id
    ensures k == Find(rs, id)
  {
  }

  lemma {:induction false} IdsDecideFind(rs: seq<Record>, qs: seq<Record>, id: int)
    requires |rs| == |qs| && forall i | 0 <= i < |rs| :: rs[i].id == qs[i].id
    ensures Find(rs, id) == Find(qs, id)
  {
    FoundAt(qs, id, Find(rs, id));
  }

  /** Rewriting a record's fields does not change which keys clash. */
  lemma {:induction false} SameClash(t: Table, k: nat, r: Record, id: int, c: Column, f: Field)
    requires k < |t.records| && r.id == t.records[k].id
    ensures KeyClash(t.records[k := r], id, c, f) <==> KeyClash(t.records, id, c, f)
  {
    IdsDecideFind(t.records, t.records[k := r], NewKey(f));
  }

  /** Dropping a record that matches does not change which records do not. */
  lemma {:induction false} OthersDrop(t: Table, c: nat, key: Value, rs: seq<Record>, p: nat)
    requires c < |t.columns| && p < |rs| && Hit(t, c, key, rs[p])
    ensures Others(t, c, key, rs) == Others(t, c, key, rs[..p] + rs[p + 1..])
    decreases p
  {
    hide Hit;
    if p == 0 {
      assert rs[..0] + rs[1..] == rs[1..];
    } else {
      var qs := rs[..p] + rs[p + 1..];
      assert qs[0] == rs[0] && qs[1..] == rs[1..][..p - 1] + rs[1..][p..];
      OthersDrop(t, c, key, rs[1..], p - 1);
    }
  }

  lemma {:induction false} OthersKeepAll(t: Table, c: nat, key: Value, rs: seq<Record>)
    requires c < |t.columns| && forall i | 0 <= i < |rs| :: !Hit(t, c, key, rs[i])
    ensures Others(t, c, key, rs) == rs
    decreases |rs|
  {
    hide Hit;
    if rs != [] {
      assert forall i | 0 <= i < |rs[1..]| :: rs[1..][i] == rs[i + 1];
      OthersKeepAll(t, c, key, rs[1..]);
    }
  }

  /** `rs` is what is left of the table's records with those in front of `k` done. */
  ghost predicate Sifted(t: Table, c: nat, key: Value, rs: seq<Record>, k: nat)
    requires c < |t.columns|
  {
    && k <= |rs| <= |t.records|
    && Others(t, c, key, rs) == Others(t, c, key, t.records)
    && (forall i | 0 <= i < |rs| :: |rs[i].fields| == |t.columns|)
    && (forall i | 0 <= i < k :: !Hit(t, c, key, rs[i]))
  }

  lemma {:induction false} SiftStarts(t: Table, c: nat, key: Value)
    requires c < |t.columns| && Shaped(t)
    ensures Sifted(t, c, key, t.records, 0)
  {
  }

  lemma {:induction false} SiftRow(t: Table, c: nat, key: Value, rs: seq<Record>, k: nat)
    requires c < |t.columns| && Sifted(t, c, key, rs, k) && k < |rs|
    ensures |rs[k].fields| == |t.columns|
  {
  }

  lemma {:induction false} SiftDrops(t: Table, c: nat, key: Value, rs: seq<Record>, k: nat)
    requires c < |t.columns| && Sifted(t, c, key, rs, k) && k < |rs| && Hit(t, c, key, rs[k])
    ensures Sifted(t, c, key, rs[..k] + rs[k + 1..], k)
  {
    hide Hit, Others;
    OthersDrop(t, c, key, rs, k);
  }

  lemma {:induction false} SiftKeeps(t: Table, c: nat, key: Value, rs: seq<Record>, k: nat)
    requires c < |t.columns| && Sifted(t, c, key, rs, k) && k < |rs| && !Hit(t, c, key, rs[k])
    ensures Sifted(t, c, key, rs, k + 1)
  {
    hide Hit, Others;
  }

  lemma {:induction false} SiftEnds(t: Table, c: nat, key: Value, rs: seq<Record>)
    requires c < |t.columns| && Sifted(t, c, key, rs, |rs|)
    ensures rs == Others(t, c, key, t.records)
    ensures |t.records| - |rs| == |FindAll(t, c, key, t.records)|
  {
    hide Hit;
    OthersKeepAll(t, c, key, rs);
    FilterSplits(t, c, key, t.records);
  }

  lemma {:induction false} DeletedAll(t: Table, c: nat, key: Value, rs: seq<Record>)
    requires c < |t.columns| && rs == Others(t, c, key, t.records)
    ensures t.(records := rs, count := t.count - (|t.records| - |rs|)) == DeleteAll(t, c, key)
  {
  }

  lemma {:induction false} NextNode(spine: seq<Node>, k: nat)
    requires Linked(spine) && k < |spine|
    ensures spine[k].next == At(spine, k + 1)
  {
  }

  class LinkedTable {
    const name: string
    const columns: seq<Column>
    var head: Node?
    var count: int
    var nextId: int
    ghost var spine: seq<Node>

    ghost predicate Valid()
      reads this, spine
    {
      head == At(spine, 0) && Distinct(spine) && Linked(spine)
    }

    ghost function State(): (t: Table)
      reads this, spine
    {
      Table(name, columns, Rows(spine), count, nextId)
    }

    constructor (name: string, columns: seq<Column>)
      ensures Valid() && spine == [] && this.columns == columns
      ensures State() == Table(name, columns, [], 0, 1)
    {
      this.name, this.columns := name, columns;
      head, count, nextId, spine := null, 0, 1, [];
    }

    /** `table_find_record`. */
    method FindRecord(id: int) returns (n: Node?, ghost k: nat)
      requires Valid()
      ensures k == Find(State().records, id) && n == At(spine, k)
      ensures n == At(spine, Find(State().records, id))
    {
      n, k := head, 0;
      while n != null
        invariant k <= |spine| && n == At(spine, k)
        invariant forall i | 0 <= i < k :: spine[i].id != id
        decreases |spine| - k
      {
        if n.id == id {
          break;
        }
        n, k := n.next, k + 1;
      }
      FoundAt(Rows(spine), id, k);
    }

    /** `generate_record_id`. */
    method NewId(source: IdSource) returns (id: int)
      requires Valid()
      modifies source
      ensures Generated(id, source.counter) == GenerateId(old(State()).records, old(source.counter))
    {
      var maxId, n := 0, head;
      ghost var k := 0;
      ghost var rs := Rows(spine);
      while n != null
        invariant k <= |spine| && n == At(spine, k)
        invariant maxId == MaxId(rs[..k]) && source.counter == old(source.counter)
        decreases |spine| - k
      {
        assert rs[..k + 1] == rs[..k] + [rs[k]];
        MaxIdSnoc(rs[..k], rs[k]);
        if n.id > maxId {
          maxId := n.id;
        }
        n, k := n.next, k + 1;
      }
      assert rs[..k] == rs;
      if maxId + 1 > source.counter {
        id := maxId + 1;
      } else {
        id := source.counter;
        source.counter := source.counter + 1;
      }
    }

    /** The checks before an id is chosen. */
    method Check(values: seq<Field>) returns (code: ErrorCode)
      requires |values| == |columns| > 0
      ensures code == Admit(State(), values)
    {
      if count >= MAX_RECORDS_PER_TABLE {
        return TableFull;
      }
      if values[0].ty == TUnknown {
        return InvalidInput;
      }
      for i := 0 to |columns|
        invariant forall j | 0 <= j < i :: values[j].ty == TNull ==> columns[j].nullable
      {
        if !columns[i].nullable {
          if values[i].ty == TNull {
            return ConstraintViolation;
          }
        }
      }
      return Success;
    }

    /** The id the caller supplies, or -1. */
    method SuppliedKey(values: seq<Field>) returns (id: int)
      requires |values| == |columns|
      ensures id == KeyOf(columns, values)
    {
      id := -1;
      for i := 0 to |columns|
        invariant id == -1 && KeyOf(columns, values) == KeyOf(columns[i..], values[i..])
      {
        if columns[i].primaryKey {
          if values[i].ty == TInt {
            return AsInt(values[i].value);
          }
        }
      }
    }

    /** The given values, with the columns' types. */
    method CopyFields(values: seq<Field>) returns (fields: seq<Field>)
      requires |values| == |columns|
      ensures fields == StoredFields(columns, values)
    {
      fields := [];
      for i := 0 to |columns|
        invariant |fields| == i
        invariant forall j | 0 <= j < i :: fields[j] == Field(columns[j].ty, values[j].value)
      {
        fields := fields + [Field(columns[i].ty, values[i].value)];
      }
    }

    /** A new node at the head of the list. */
    method Link(id: int, values: seq<Field>, now: Stamp)
      requires Valid() && |values| == |columns|
      modifies this
      ensures Valid() && State() == Add(old(State()), id, values, now)
      ensures |spine| > 0 && fresh(spine[0]) && spine[1..] == old(spine)
    {
      hide StoredFields;
      var fields := CopyFields(values);
      var n := new Node(id, fields, now, head);
      Consed(n, spine);
      hide Linked, Distinct, Rows;
      head := n;
      count := count + 1;
      spine := [n] + spine;
      if id >= nextId {
        nextId := id + 1;
      }
    }

    /** `table_insert_record`. */
    method InsertRecord(values: seq<Field>, source: IdSource, now: Stamp) returns (code: ErrorCode, id: int)
      requires Valid() && |values| == |columns| && |columns| > 0
      modifies this, source
      ensures Valid()
      ensures Inserted(code, State(), source.counter, id) == Insert(old(State()), values, old(source.counter), now)
      ensures code == Success ==> |spine| > 0 && fresh(spine[0]) && spine[1..] == old(spine)
      ensures code != Success ==> spine == old(spine)
    {
      hide KeyOf, Find, MaxId, NullsAllowed, Admit, Add, Rows, Linked, Distinct;
      id := -1;
      code := Check(values);
      if code != Success {
        return;
      }
      var recordId := SuppliedKey(values);
      if recordId == -1 {
        recordId := NewId(source);
      }
      var clash, k := FindRecord(recordId);
      if clash != null {
        code := DuplicateKey;
        return;
      }
      Link(recordId, values, now);
      id := recordId;
    }

    // ---- update ----

    /** The fields of the record at `k` are replaced. */
    method SetFields(n: Node, fields: seq<Field>, ghost k: nat)
      requires Valid() && k < |spine| && n == spine[k]
      modifies n`fields
      ensures Valid() && n.fields == fields
      ensures State() == old(State()).(records := old(State()).records[k := old(n.Row()).(fields := fields)])
    {
      n.fields := fields;
      assert Rows(spine) == old(Rows(spine))[k := old(n.Row()).(fields := fields)];
    }

    /** One column of an update: whether its key is free, and if so the new value. */
    method UpdateColumn(n: Node, ghost k: nat, i: nat, id: int, value: Field) returns (ok: bool)
      requires Valid() && k < |spine| && n == spine[k]
      requires i < |columns| == |n.fields|
      modifies n`fields
      ensures Valid()
      ensures ok <==> !KeyClash(old(State()).records, id, columns[i], value)
      ensures n.fields == if ok then old(n.fields)[i := Overwrite(old(n.fields)[i], value)] else old(n.fields)
      ensures State() == old(State()).(records := old(State()).records[k := old(n.Row()).(fields := n.fields)])
    {
      hide Find, Linked, Distinct;
      assert old(State()).records[k := old(n.Row()).(fields := n.fields)] == old(State()).records;
      if columns[i].primaryKey {
        if value.ty != TNull {
          var newId := 0;
          if value.ty == TInt {
            newId := AsInt(value.value);
          }
          if newId != id {
            var clash, j := FindRecord(newId);
            if clash != null {
              return false;
            }
          }
        }
      }
      SetFields(n, n.fields[i := Overwrite(n.fields[i], value)], k);
      return true;
    }

    /** The loop over the columns. */
    method UpdateColumns(n: Node, ghost k: nat, id: int, values: seq<Field>) returns (ok: bool)
      requires Valid() && k < |spine| && n == spine[k]
      requires |values| == |columns| == |n.fields|
      modifies n`fields
      ensures Valid()
      ensures Rewritten(ok, n.fields) == Rewrite(old(State()), id, old(n.fields), values, 0)
      ensures State() == old(State()).(records := old(State()).records[k := old(n.Row()).(fields := n.fields)])
    {
      hide Find, Linked, Distinct, KeyClash, Overwrite, Rows;
      ghost var t := State();
      ghost var row := n.Row();
      assert t.records[k] == row && t.records[k := row] == t.records;
      for i := 0 to |columns|
        invariant Valid() && |n.fields| == |columns|
        invariant State() == t.(records := t.records[k := row.(fields := n.fields)])
        invariant Rewrite(t, id, n.fields, values, i) == Rewrite(t, id, row.fields, values, 0)
      {
        SameClash(t, k, row.(fields := n.fields), id, columns[i], values[i]);
        ok := UpdateColumn(n, k, i, id, values[i]);
        if !ok {
          return;
        }
      }
      ok := true;
    }

    /** The time and version of an updated record. */
    method Touch(n: Node, ghost k: nat, now: Stamp)
      requires Valid() && k < |spine| && n == spine[k]
      modifies n`stamp, n`version
      ensures Valid()
      ensures State() == old(State()).(records := old(State()).records[k := Record(n.id, old(n.fields), now, old(n.version) + 1)])
    {
      n.stamp := now;
      n.version := n.version + 1;
      assert Rows(spine) == old(Rows(spine))[k := Record(n.id, old(n.fields), now, old(n.version) + 1)];
    }

    /** `table_update_record`. */
    method UpdateRecord(id: int, values: seq<Field>, now: Stamp) returns (code: ErrorCode)
      requires Valid() && |values| == |columns| && Shaped(State())
      modifies spine
      ensures Valid()
      ensures Changed(code, State()) == Update(old(State()), id, values, now)
    {
      hide Find, Linked, Distinct, Rewrite, Rows;
      var n, k := FindRecord(id);
      if n == null {
        return NotFound;
      }
      var ok := UpdateColumns(n, k, id, values);
      if !ok {
        return DuplicateKey;
      }
      Touch(n, k, now);
      return Success;
    }

    // ---- deletion ----

    /** The node at `p` is unlinked; `prev` is the one in front of it. */
    method Unlink(prev: Node?, node: Node, ghost p: nat)
      requires Valid() && p < |spine| && node == spine[p]
      requires if p == 0 then prev == null else prev == spine[p - 1]
      modifies this, if prev == null then {} else {prev}
      ensures Valid() && spine == old(spine)[..p] + old(spine)[p + 1..]
      ensures var t := old(State());
              State() == t.(records := t.records[..p] + t.records[p + 1..], count := t.count - 1)
    {
      if prev == null {
        head := node.next;
      } else {
        prev.next := node.next;
      }
      count := count - 1;
      ghost var was := spine;
      spine := spine[..p] + spine[p + 1..];
      Unlinked(was, p, spine);
      assert Rows(was) == old(Rows(spine));
      hide Linked, Distinct, Rows;
    }

    /** `table_delete_record`. */
    method DeleteRecord(id: int) returns (code: ErrorCode)
      requires Valid()
      modifies this, spine
      ensures Valid()
      ensures Changed(code, State()) == Delete(old(State()), id)
      ensures forall n | n in spine :: n in old(spine)
    {
      var prev: Node? := null;
      var node := head;
      ghost var k := 0;
      while node != null
        invariant Valid() && State() == old(State()) && spine == old(spine)
        invariant k <= |spine| && node == At(spine, k)
        invariant if k == 0 then prev == null else prev == spine[k - 1]
        invariant forall i | 0 <= i < k :: spine[i].id != id
        decreases |spine| - k
      {
        if node.id == id {
          FoundAt(Rows(spine), id, k);
          Unlink(prev, node, k);
          return Success;
        }
        prev := node;
        node, k := node.next, k + 1;
      }
      FoundAt(Rows(spine), id, k);
      return NotFound;
    }

    /** Whether a record's field equals the value sought. */
    method FieldMatches(n: Node, c: nat, key: Value, ghost t: Table) returns (match_: bool)
      requires c < |columns| == |n.fields| && t.columns == columns
      ensures match_ <==> Hit(t, c, key, n.Row())
    {
      var value := n.fields[c].value;
      match columns[c].ty
      case TInt => match_ := AsInt(value) == AsInt(key);
      case TString => match_ := AsString(value) == AsString(key);
      case TFloat => match_ := value == key;
      case TDouble => match_ := value == key;
      case TBool => match_ := AsBool(value) == AsBool(key);
      case _ => match_ := false;
    }

    /** The loop of `db_delete_records_by_field`: matching nodes are unlinked on the way. */
    method DeleteByField(c: nat, key: Value) returns (deleted: nat)
      requires Valid() && c < |columns| && Shaped(State())
      modifies this, spine
      ensures Valid()
      ensures State() == DeleteAll(old(State()), c, key)
      ensures deleted == |FindAll(old(State()), c, key, old(State()).records)|
      ensures Searchable(old(State()), c, key) ==>
                forall r :: r in State().records <==> r in old(State()).records && !Holds(r, c, key)
      ensures forall n | n in spine :: n in old(spine)
    {
      hide Hit, Others, FindAll, Sifted, Rows, Distinct, Linked, Shaped, DeleteAll;
      deleted := 0;
      var prev: Node? := null;
      var node := head;
      ghost var t := State();
      ghost var k := 0;
      assert Sifted(t, c, key, t.records, 0) by { SiftStarts(t, c, key); }
      while node != null
        invariant Valid() && k <= |spine| && node == At(spine, k)
        invariant if k == 0 then prev == null else prev == spine[k - 1]
        invariant State() == t.(records := Rows(spine), count := t.count - deleted)
        invariant deleted + |spine| == |t.records|
        invariant Sifted(t, c, key, Rows(spine), k)
        invariant forall n | n in spine :: n in old(spine)
        invariant prev != null ==> prev in old(spine)
        decreases |spine| - k
      {
        var next := node.next;
        NextNode(spine, k);
        SiftRow(t, c, key, Rows(spine), k);
        var hit := FieldMatches(node, c, key, t);
        if hit {
          SiftDrops(t, c, key, Rows(spine), k);
          Unlink(prev, node, k);
          deleted := deleted + 1;
        } else {
          SiftKeeps(t, c, key, Rows(spine), k);
          prev := node;
          k := k + 1;
        }
        node := next;
      }
      SiftEnds(t, c, key, Rows(spine));
      DeletedAll(t, c, key, Rows(spine));
      DeletedExactly(t, c, key);
    }

    /** `db_find_all_records_by_field`. */
    method FindAllByField(c: nat, key: Value) returns (found: seq<Node>)
      requires Valid() && c < |columns| && Shaped(State())
      ensures Rows(found) == FindAll(State(), c, key, State().records)
      ensures Searchable(State(), c, key) ==> forall r :: r in Rows(found) <==> r in State().records && Holds(r, c, key)
    {
      hide Hit, Distinct;
      found := [];
      var node := head;
      ghost var t := State();
      ghost var rs := t.records;
      ghost var k := 0;
      while node != null
        invariant k <= |spine| && node == At(spine, k)
        invariant Rows(found) + FindAll(t, c, key, rs[k..]) == FindAll(t, c, key, rs)
        decreases |spine| - k
      {
        assert rs[k..][0] == node.Row() && rs[k..][1..] == rs[k + 1..];
        var hit := FieldMatches(node, c, key, t);
        if hit {
          assert Rows(found + [node]) == Rows(found) + [node.Row()];
          found := found + [node];
        }
        node, k := node.next, k + 1;
      }
      FoundExactly(t, c, key);
    }
  }
}
