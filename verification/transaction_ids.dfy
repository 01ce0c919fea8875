/** Transactions begun and ended by many threads, with every lock, test, read, write and unlock as a step of its own. */
module TransactionIds {

  // ---- one transaction ----

  datatype Status = Active | Committed | Aborted

  /** The state that committing or rolling back writes. */
  function Outcome(commit: bool): (r: Status)
    ensures r != Active
  {
    if commit then Committed else Aborted
  }

  /** What an ending that nobody interrupts does: only an active transaction ends. */
  function Ended(s: Status, commit: bool): (r: Status) {
    if s != Active then s else Outcome(commit)
  }

  /** A transaction record. */
  class Transaction {
    const id: int
    var state: Status
    var operations: seq<string>

    constructor (id: int)
      ensures this.id == id && state == Active && operations == []
    {
      this.id, state, operations := id, Active, [];
    }

    /** `transaction_commit`. */
    method Commit() returns (code: int)
      modifies this
      ensures state == Ended(old(state), true)
      ensures code == if old(state) == Active then 0 else -1
      ensures operations == if old(state) == Active then [] else old(operations)
    {
      if state != Active {
        return -1;
      }
      operations := [];
      state := Committed;
      return 0;
    }

    /** `transaction_rollback`. */
    method Rollback()
      modifies this
      ensures state == Ended(old(state), false)
      ensures operations == if old(state) == Active then [] else old(operations)
    {
      if state != Active {
        return;
      }
      operations := [];
      state := Aborted;
    }
  }

  /** The counter behind `generate_txn_id`, as one thread sees it between lock and unlock. */
  class IdCounter {
    var next: int

    constructor ()
      ensures next == 1
    {
      next := 1;
    }

    /** `generate_txn_id`. */
    method Generate() returns (id: int)
      modifies this
      ensures id == old(next) && next == old(next) + 1
    {
      id := next;
      next := id + 1;
    }
  }

  // ---- all threads ----

  /**
   * Where a thread stands. Inside `transaction_begin`, `Holding` is behind the unlock, before the record is filled in.
   * `Passed` is inside `transaction_commit` or `transaction_rollback`: the test has found transaction `j` active, and
   * its new state is not yet written.
   */
  datatype Phase = Outside | Locked | Loaded(v: int) | Stored(v: int) | Holding(v: int) | Passed(j: nat, commit: bool)

  datatype Txn = Txn(id: int, state: Status)

  /** Who has an id: a thread that has drawn it, or the transaction it was written to. */
  datatype Owner = ByThread(t: nat) | ByTxn(j: nat)

  /** `owners` is a history variable: it names, for every id drawn so far, who has it. */
  datatype State = State(next: int, lock: bool, threads: seq<Phase>, txns: seq<Txn>, owners: seq<Owner>)

  function Start(n: nat): (s: State) {
    State(1, false, seq(n, _ => Outside), [], [])
  }

  datatype Step =
    | LockStep(t: nat)
    | LoadStep(t: nat)
    | StoreStep(t: nat)
    | UnlockStep(t: nat)
    | PublishStep(t: nat)
    | TestStep(t: nat, j: nat, commit: bool)
    | WriteStep(t: nat)

  /** When a step can be taken: a thread waits for the lock, and otherwise goes on from where it stands. */
  predicate Enabled(s: State, step: Step) {
    match step
    case LockStep(t) => t < |s.threads| && s.threads[t] == Outside && !s.lock
    case LoadStep(t) => t < |s.threads| && s.threads[t] == Locked
    case StoreStep(t) => t < |s.threads| && s.threads[t].Loaded?
    case UnlockStep(t) => t < |s.threads| && s.threads[t].Stored?
    case PublishStep(t) => t < |s.threads| && s.threads[t].Holding?
    case TestStep(t, j, _) => t < |s.threads| && s.threads[t] == Outside && j < |s.txns|
    case WriteStep(t) => t < |s.threads| && s.threads[t].Passed? && s.threads[t].j < |s.txns|
  }

  function At(s: State, t: nat, p: Phase): (r: seq<Phase>)
    requires t < |s.threads|
  {
    s.threads[t := p]
  }

  function Take(s: State, step: Step): (r: State)
    requires Enabled(s, step)
  {
    match step
    case LockStep(t) => s.(lock := true, threads := At(s, t, Locked))
    case LoadStep(t) => s.(threads := At(s, t, Loaded(s.next)))
    case StoreStep(t) =>
      s.(next := s.threads[t].v + 1, threads := At(s, t, Stored(s.threads[t].v)), owners := s.owners + [ByThread(t)])
    case UnlockStep(t) => s.(lock := false, threads := At(s, t, Holding(s.threads[t].v)))
    case PublishStep(t) =>
      var id := s.threads[t].v;
      s.(threads := At(s, t, Outside), txns := s.txns + [Txn(id, Active)],
         owners := if 1 <= id <= |s.owners| then s.owners[id - 1 := ByTxn(|s.txns|)] else s.owners)
    case TestStep(t, j, commit) => if s.txns[j].state == Active then s.(threads := At(s, t, Passed(j, commit))) else s
    case WriteStep(t) =>
      var j := s.threads[t].j;
      s.(threads := At(s, t, Outside), txns := s.txns[j := s.txns[j].(state := Outcome(s.threads[t].commit))])
  }

  // ---- what every interleaving keeps ----

  predicate Inside(p: Phase) { p.Locked? || p.Loaded? || p.Stored? }

  /** At most one thread is between lock and unlock, and the lock says whether there is one. */
  predicate Exclusive(s: State) {
    && (forall t, u | 0 <= t < u < |s.threads| :: !(Inside(s.threads[t]) && Inside(s.threads[u])))
    && (forall t | 0 <= t < |s.threads| :: Inside(s.threads[t]) ==> s.lock)
    && (s.lock ==> exists t :: 0 <= t < |s.threads| && Inside(s.threads[t]))
  }

  predicate Draws(s: State, t: nat, id: int) {
    t < |s.threads| && (s.threads[t] == Stored(id) || s.threads[t] == Holding(id))
  }

  predicate Bears(s: State, j: nat, id: int) {
    j < |s.txns| && s.txns[j].id == id
  }

  /** Who has an id really has it. */
  predicate Owns(s: State, o: Owner, id: int) {
    match o
    case ByThread(t) => Draws(s, t, id)
    case ByTxn(j) => Bears(s, j, id)
  }

  /** Each id from 1 up to the next has the one owner on record, and nobody else. */
  ghost predicate Accounted(s: State) {
    && |s.owners| + 1 == s.next
    && (forall i | 0 <= i < |s.owners| :: Owns(s, s.owners[i], i + 1))
    && (forall t, id | Draws(s, t, id) :: 1 <= id < s.next && s.owners[id - 1] == ByThread(t))
    && (forall j, id | Bears(s, j, id) :: 1 <= id < s.next && s.owners[id - 1] == ByTxn(j))
  }

  predicate LoadedIsNext(s: State) {
    forall t | 0 <= t < |s.threads| && s.threads[t].Loaded? :: s.threads[t].v == s.next
  }

  /** A thread behind the test of a transaction can always go on: the transaction is there. */
  predicate PassedKnown(s: State) {
    forall t | 0 <= t < |s.threads| && s.threads[t].Passed? :: s.threads[t].j < |s.txns|
  }

  ghost predicate Inv(s: State) {
    Exclusive(s) && LoadedIsNext(s) && Accounted(s) && PassedKnown(s)
  }

  lemma {:induction false} StartInv(n: nat)
    ensures Inv(Start(n))
  {
  }

  /** Accounts depend only on who draws and who bears which id. */
  lemma {:induction false} SameAccounts(s: State, r: State)
    requires Accounted(s) && r.owners == s.owners && r.next == s.next
    requires forall t: nat, id :: Draws(s, t, id) <==> Draws(r, t, id)
    requires forall j: nat, id :: Bears(s, j, id) <==> Bears(r, j, id)
    ensures Accounted(r)
  {
    hide Draws, Bears;
  }

  /** Storing the successor draws the next id: this is where mutual exclusion is needed. */
  lemma {:induction false} StoreAccounts(s: State, t: nat)
    requires Inv(s) && Enabled(s, StoreStep(t))
    ensures Accounted(Take(s, StoreStep(t)))
  {
    var r := Take(s, StoreStep(t));
    forall i | 0 <= i < |r.owners| ensures Owns(r, r.owners[i], i + 1) {
      if i < |s.owners| {
        assert Owns(s, s.owners[i], i + 1);
      }
    }
    forall u: nat, id | Draws(r, u, id) ensures 1 <= id < r.next && r.owners[id - 1] == ByThread(u) {
      if u != t {
        assert Draws(s, u, id);
      }
    }
    forall j: nat, id | Bears(r, j, id) ensures 1 <= id < r.next && r.owners[id - 1] == ByTxn(j) {
      assert Bears(s, j, id);
    }
  }

  /** Filling in the record hands the id over from the thread to the transaction. */
  lemma {:induction false} PublishAccounts(s: State, t: nat)
    requires Inv(s) && Enabled(s, PublishStep(t))
    ensures Accounted(Take(s, PublishStep(t)))
  {
    var r := Take(s, PublishStep(t));
    var v := s.threads[t].v;
    assert Draws(s, t, v);
    forall i | 0 <= i < |r.owners| ensures Owns(r, r.owners[i], i + 1) {
      assert Owns(s, s.owners[i], i + 1);
    }
    forall u: nat, id | Draws(r, u, id) ensures 1 <= id < r.next && r.owners[id - 1] == ByThread(u) {
      assert u != t && Draws(s, u, id);
    }
    forall j: nat, id | Bears(r, j, id) ensures 1 <= id < r.next && r.owners[id - 1] == ByTxn(j) {
      if j < |s.txns| {
        assert Bears(s, j, id);
      }
    }
  }

  lemma {:induction false} TakeAccounts(s: State, step: Step)
    requires Inv(s) && Enabled(s, step)
    ensures Accounted(Take(s, step))
  {
    match step
    case StoreStep(t) => StoreAccounts(s, t);
    case PublishStep(t) => PublishAccounts(s, t);
    case _ => SameAccounts(s, Take(s, step));
  }

  lemma {:induction false} TakeExclusive(s: State, step: Step)
    requires Exclusive(s) && Enabled(s, step)
    ensures Exclusive(Take(s, step))
  {
    var r := Take(s, step);
    if r.lock {
      if step.PublishStep? || step.TestStep? || step.WriteStep? {
        var u :| 0 <= u < |s.threads| && Inside(s.threads[u]);
        assert Inside(r.threads[u]);
      } else {
        assert Inside(r.threads[step.t]);
      }
    }
  }

  lemma {:induction false} TakeLoaded(s: State, step: Step)
    requires Exclusive(s) && LoadedIsNext(s) && Enabled(s, step)
    ensures LoadedIsNext(Take(s, step))
  {
    if step.StoreStep? {
      assert Inside(s.threads[step.t]);
    }
  }

  /** Every step of every thread keeps the invariant. */
  lemma {:induction false} TakeKeepsInv(s: State, step: Step)
    requires Inv(s) && Enabled(s, step)
    ensures Inv(Take(s, step))
  {
    TakeExclusive(s, step);
    TakeLoaded(s, step);
    TakeAccounts(s, step);
    hide Exclusive, LoadedIsNext, Accounted;
  }

  // ---- every interleaving ----

  predicate Runs(s: State, steps: seq<Step>)
    decreases |steps|
  {
    steps == [] || (Enabled(s, steps[0]) && Runs(Take(s, steps[0]), steps[1..]))
  }

  function After(s: State, steps: seq<Step>): (r: State)
    requires Runs(s, steps)
    decreases |steps|
  {
    if steps == [] then s else After(Take(s, steps[0]), steps[1..])
  }

  lemma {:induction false} RunKeepsInv(s: State, steps: seq<Step>)
    requires Inv(s) && Runs(s, steps)
    ensures Inv(After(s, steps))
    decreases |steps|
  {
    hide Inv, Take;
    if steps != [] {
      TakeKeepsInv(s, steps[0]);
      RunKeepsInv(Take(s, steps[0]), steps[1..]);
    }
  }

  ghost predicate Had(s: State, id: int) {
    (exists t: nat :: Draws(s, t, id)) || (exists j: nat :: Bears(s, j, id))
  }

  /** Whoever has an id in a state that keeps the invariant is alone with it, and every id below the next is had. */
  lemma {:induction false} IdsDistinct(s: State)
    requires Inv(s)
    ensures forall i, j | 0 <= i < j < |s.txns| :: s.txns[i].id != s.txns[j].id
    ensures forall j | 0 <= j < |s.txns| :: 1 <= s.txns[j].id < s.next
    ensures forall t: nat, u: nat, id | t != u && Draws(s, t, id) :: !Draws(s, u, id)
    ensures forall t: nat, j: nat, id | Draws(s, t, id) :: !Bears(s, j, id)
    ensures s.next >= 1 && forall id | 1 <= id < s.next :: Had(s, id)
  {
    forall j: nat | j < |s.txns| ensures 1 <= s.txns[j].id < s.next && s.owners[s.txns[j].id - 1] == ByTxn(j) {
      assert Bears(s, j, s.txns[j].id);
    }
    forall id | 1 <= id < s.next ensures Had(s, id) {
      assert Owns(s, s.owners[id - 1], id);
    }
  }

  function IdsOf(txns: seq<Txn>): (ids: set<int>) {
    set j | 0 <= j < |txns| :: txns[j].id
  }

  lemma {:induction false} DistinctCount(txns: seq<Txn>)
    requires forall i, j | 0 <= i < j < |txns| :: txns[i].id != txns[j].id
    ensures |IdsOf(txns)| == |txns|
    decreases |txns|
  {
    if txns != [] {
      var n := |txns| - 1;
      DistinctCount(txns[..n]);
      assert txns[n].id !in IdsOf(txns[..n]);
      assert IdsOf(txns) == IdsOf(txns[..n]) + {txns[n].id};
    }
  }

  function Upto(n: nat): (ids: set<int>)
    ensures |ids| == n && forall i :: i in ids <==> 1 <= i <= n
  {
    if n == 0 then {} else Upto(n - 1) + {n}
  }

  /** When no thread is drawing, the transactions bear every id below the next. */
  lemma {:induction false} QuietIds(s: State)
    requires Inv(s) && forall t: nat, id :: !Draws(s, t, id)
    ensures s.next == |s.txns| + 1 && IdsOf(s.txns) == Upto(|s.txns|)
  {
    IdsDistinct(s);
    DistinctCount(s.txns);
    hide Inv, Draws;
    forall id | id in Upto(s.next - 1) ensures id in IdsOf(s.txns) {
      assert Had(s, id);
      var j: nat :| Bears(s, j, id);
    }
    assert IdsOf(s.txns) == Upto(s.next - 1);
  }

  /**
   * In every interleaving of any number of threads the ids given out are distinct and below the next one; once no
   * thread is drawing, they are exactly 1 up to the number of transactions.
   */
  lemma {:induction false} IdsExact(n: nat, steps: seq<Step>)
    requires Runs(Start(n), steps)
    ensures var s := After(Start(n), steps);
            && (forall i, j | 0 <= i < j < |s.txns| :: s.txns[i].id != s.txns[j].id)
            && (forall j | 0 <= j < |s.txns| :: 1 <= s.txns[j].id < s.next)
            && ((forall t: nat, id :: !Draws(s, t, id)) ==> s.next == |s.txns| + 1 && IdsOf(s.txns) == Upto(|s.txns|))
  {
    StartInv(n);
    RunKeepsInv(Start(n), steps);
    var s := After(Start(n), steps);
    hide After, Runs, Inv, Draws, IdsOf, Upto;
    IdsDistinct(s);
    if forall t: nat, id :: !Draws(s, t, id) {
      QuietIds(s);
    }
  }

  /** A thread that is not interrupted draws what one call of `Generate` draws. */
  lemma {:induction false} AloneDraws(s: State, t: nat)
    requires t < |s.threads| && s.threads[t] == Outside && !s.lock
    ensures var steps := [LockStep(t), LoadStep(t), StoreStep(t), UnlockStep(t)];
            && Runs(s, steps)
            && After(s, steps) == s.(next := s.next + 1, threads := s.threads[t := Holding(s.next)],
                                     owners := s.owners + [ByThread(t)])
  {
    var a := Take(s, LockStep(t));
    var b := Take(a, LoadStep(t));
    var c := Take(b, StoreStep(t));
    var d := Take(c, UnlockStep(t));
    var steps := [LockStep(t), LoadStep(t), StoreStep(t), UnlockStep(t)];
    assert d.threads == s.threads[t := Holding(s.next)];
    assert steps[1..][1..][1..] == [UnlockStep(t)] && steps[1..][1..] == [StoreStep(t), UnlockStep(t)];
    assert Runs(d, []) && Runs(c, [UnlockStep(t)]) && Runs(b, steps[1..][1..]) && Runs(a, steps[1..]);
    assert After(c, [UnlockStep(t)]) == After(d, []) && After(b, steps[1..][1..]) == After(c, [UnlockStep(t)]);
  }

  // ---- ending a transaction ----

  /** Thread `t` has passed the test of transaction `j`, and will commit it or roll it back. */
  predicate Behind(s: State, t: nat, j: nat, commit: bool) {
    t < |s.threads| && s.threads[t] == Passed(j, commit)
  }

  predicate IsActive(s: State, j: nat) {
    j < |s.txns| && s.txns[j].state == Active
  }

  predicate HasEnded(s: State, j: nat) {
    j < |s.txns| && s.txns[j].state != Active
  }

  /** The step writes transaction `j`. */
  predicate Writes(s: State, step: Step, j: nat) {
    step.WriteStep? && step.t < |s.threads| && s.threads[step.t].Passed? && s.threads[step.t].j == j
  }

  /** A thread that is not interrupted between test and write ends the transaction as one call by itself does. */
  lemma {:induction false} AloneEnds(s: State, t: nat, j: nat, commit: bool)
    requires t < |s.threads| && s.threads[t] == Outside && j < |s.txns|
    ensures var steps := [TestStep(t, j, commit)] + if IsActive(s, j) then [WriteStep(t)] else [];
            && Runs(s, steps)
            && After(s, steps) == s.(txns := s.txns[j := s.txns[j].(state := Ended(s.txns[j].state, commit))])
  {
    var test := TestStep(t, j, commit);
    var a := Take(s, test);
    if IsActive(s, j) {
      var b := Take(a, WriteStep(t));
      var steps := [test] + [WriteStep(t)];
      assert steps[1..] == [WriteStep(t)];
      assert Runs(b, []) && Runs(a, [WriteStep(t)]);
      assert After(a, [WriteStep(t)]) == After(b, []) == b;
      assert b.threads == s.threads;
    } else {
      assert [test] + [] == [test] && Runs(a, []);
      assert s.txns[j := s.txns[j]] == s.txns;
    }
  }

  /** The states of a run, from the first to the last. */
  function Trace(s: State, steps: seq<Step>): (ss: seq<State>)
    requires Runs(s, steps)
    ensures |ss| == |steps| + 1 && ss[0] == s && ss[|steps|] == After(s, steps)
    ensures IsTrace(ss, steps)
    decreases |steps|
  {
    if steps == [] then [s] else [s] + Trace(Take(s, steps[0]), steps[1..])
  }

  predicate IsTrace(ss: seq<State>, steps: seq<Step>) {
    |ss| == |steps| + 1 && forall i | 0 <= i < |steps| :: Enabled(ss[i], steps[i]) && ss[i + 1] == Take(ss[i], steps[i])
  }

  /** Only the test, of an active transaction, puts a thread behind it, and only its own write takes it away. */
  lemma {:induction false} BehindStep(s: State, step: Step, t: nat, j: nat, commit: bool)
    requires Enabled(s, step)
    ensures var r := Take(s, step);
            && (Behind(r, t, j, commit) && !Behind(s, t, j, commit) ==> step == TestStep(t, j, commit) && IsActive(s, j))
            && (Behind(s, t, j, commit) && !Behind(r, t, j, commit) ==> step == WriteStep(t))
  {
  }

  /** Only a write changes a transaction's state, and what it writes is not ACTIVE. */
  lemma {:induction false} StatusStep(s: State, step: Step, j: nat)
    requires Enabled(s, step) && j < |s.txns|
    ensures var r := Take(s, step);
            && j < |r.txns| && r.txns[j].id == s.txns[j].id
            && r.txns[j].state == if Writes(s, step, j) then Outcome(s.threads[step.t].commit) else s.txns[j].state
  {
  }

  lemma {:induction false} StaysEnded(ss: seq<State>, steps: seq<Step>, a: nat, b: nat, j: nat)
    requires IsTrace(ss, steps) && a <= b <= |steps| && HasEnded(ss[a], j)
    ensures HasEnded(ss[b], j) && ss[b].txns[j].id == ss[a].txns[j].id
    decreases b
  {
    hide Take, Enabled, Writes;
    if a < b {
      StaysEnded(ss, steps, a, b - 1, j);
      StatusStep(ss[b - 1], steps[b - 1], j);
    }
  }

  /** Once the transaction has ended, nobody new passes its test: who is behind it later was behind it already. */
  lemma {:induction false} BehindBefore(ss: seq<State>, steps: seq<Step>, a: nat, b: nat, t: nat, j: nat, commit: bool)
    requires IsTrace(ss, steps) && a <= b <= |steps| && HasEnded(ss[a], j) && Behind(ss[b], t, j, commit)
    ensures Behind(ss[a], t, j, commit)
    decreases b
  {
    hide Take, Enabled, Behind;
    if a < b {
      StaysEnded(ss, steps, a, b - 1, j);
      BehindStep(ss[b - 1], steps[b - 1], t, j, commit);
      BehindBefore(ss, steps, a, b - 1, t, j, commit);
    }
  }

  /** A thread behind the test stays there until it writes. */
  lemma {:induction false} BehindUntil(ss: seq<State>, steps: seq<Step>, k: nat, t: nat, j: nat, commit: bool) returns (a: nat)
    requires IsTrace(ss, steps) && k <= |steps| && Behind(ss[k], t, j, commit) && WriteStep(t) in steps[k..]
    ensures k <= a < |steps| && steps[a] == WriteStep(t) && Behind(ss[a], t, j, commit)
    decreases |steps| - k
  {
    hide Take, Enabled, Behind;
    a := k;
    if steps[k] != WriteStep(t) {
      assert steps[k..] == [steps[k]] + steps[k + 1..];
      BehindStep(ss[k], steps[k], t, j, commit);
      a := BehindUntil(ss, steps, k + 1, t, j, commit);
    }
  }

  /** At state `k` of the run, both threads are behind the test of `j`; both write before the run is over. */
  predicate Overlap(ss: seq<State>, steps: seq<Step>, k: nat, j: nat, t: nat, commit: bool, u: nat, other: bool) {
    && k < |ss| && k <= |steps| && t != u
    && Behind(ss[k], t, j, commit) && WriteStep(t) in steps[k..]
    && Behind(ss[k], u, j, other) && WriteStep(u) in steps[k..]
  }

  /** Two steps of the run write transaction `j`. */
  ghost predicate WrittenTwice(ss: seq<State>, steps: seq<Step>, j: nat) {
    exists a, b | 0 <= a < b < |steps| && b < |ss| :: Writes(ss[a], steps[a], j) && Writes(ss[b], steps[b], j)
  }

  /** Of two writes the later one is by a thread that was already behind the test at the earlier. */
  lemma {:induction false} WritesOverlap(ss: seq<State>, steps: seq<Step>, a: nat, b: nat, j: nat)
    requires IsTrace(ss, steps) && a < b < |steps| && Writes(ss[a], steps[a], j) && Writes(ss[b], steps[b], j)
    ensures Overlap(ss, steps, a, j, steps[a].t, ss[a].threads[steps[a].t].commit, steps[b].t, ss[b].threads[steps[b].t].commit)
  {
    var t, u := steps[a].t, steps[b].t;
    var d := ss[b].threads[u].commit;
    assert HasEnded(ss[a + 1], j);
    BehindBefore(ss, steps, a + 1, b, u, j, d);
    assert u != t && Behind(ss[a], u, j, d);
    assert steps[a..][0] == steps[a] && steps[a..][b - a] == steps[b];
  }

  lemma {:induction false} OverlapWrites(ss: seq<State>, steps: seq<Step>, k: nat, j: nat, t: nat, c: bool, u: nat, d: bool)
    returns (a: nat, b: nat)
    requires IsTrace(ss, steps) && Overlap(ss, steps, k, j, t, c, u, d)
    ensures a < |steps| && steps[a] == WriteStep(t) && Behind(ss[a], t, j, c) && Writes(ss[a], steps[a], j)
    ensures b < |steps| && steps[b] == WriteStep(u) && Behind(ss[b], u, j, d) && Writes(ss[b], steps[b], j)
  {
    hide Take, Enabled;
    a := BehindUntil(ss, steps, k, t, j, c);
    b := BehindUntil(ss, steps, k, u, j, d);
  }

  /** Two threads are behind the test of `j` together, and both write before the run is over. */
  ghost predicate Overlapping(ss: seq<State>, steps: seq<Step>, j: nat) {
    exists k, t, c, u, d :: Overlap(ss, steps, k, j, t, c, u, d)
  }

  /** Likewise, and one of them commits while the other rolls back. */
  ghost predicate Conflicting(ss: seq<State>, steps: seq<Step>, j: nat) {
    exists k, t, u :: Overlap(ss, steps, k, j, t, true, u, false)
  }

  lemma {:induction false} TwiceIsOverlap(ss: seq<State>, steps: seq<Step>, j: nat)
    requires IsTrace(ss, steps)
    ensures WrittenTwice(ss, steps, j) <==> Overlapping(ss, steps, j)
  {
    hide Take, Enabled, IsTrace, Writes, Overlap, Behind;
    if WrittenTwice(ss, steps, j) {
      var a, b :| 0 <= a < b < |steps| && b < |ss| && Writes(ss[a], steps[a], j) && Writes(ss[b], steps[b], j);
      WritesOverlap(ss, steps, a, b, j);
    }
    if Overlapping(ss, steps, j) {
      var k, t, c, u, d :| Overlap(ss, steps, k, j, t, c, u, d);
      var a, b := OverlapWrites(ss, steps, k, j, t, c, u, d);
      TwoWrites(ss, steps, a, b, k, j, t, c, u, d);
    }
  }

  lemma {:induction false} TwoWrites(ss: seq<State>, steps: seq<Step>, a: nat, b: nat,
                                     k: nat, j: nat, t: nat, c: bool, u: nat, d: bool)
    requires IsTrace(ss, steps) && Overlap(ss, steps, k, j, t, c, u, d)
    requires a < |steps| && steps[a] == WriteStep(t) && Writes(ss[a], steps[a], j)
    requires b < |steps| && steps[b] == WriteStep(u) && Writes(ss[b], steps[b], j)
    ensures WrittenTwice(ss, steps, j)
  {
    hide Take, Enabled, Writes, Behind;
    assert a != b;
  }

  // ---- leaving ACTIVE ----

  /** The transaction has ended, and later its state is another. */
  ghost predicate Overwritten(ss: seq<State>, j: nat) {
    exists a, b | 0 <= a < b < |ss| :: HasEnded(ss[a], j) && HasEnded(ss[b], j) && ss[a].txns[j].state != ss[b].txns[j].state
  }

  /** What a write at step `w` gives transaction `j`. */
  predicate Wrote(ss: seq<State>, steps: seq<Step>, w: nat, j: nat, r: Status) {
    && w < |steps| && w < |ss|
    && Writes(ss[w], steps[w], j) && Outcome(ss[w].threads[steps[w].t].commit) == r
  }

  lemma {:induction false} WroteThere(ss: seq<State>, steps: seq<Step>, w: nat, j: nat)
    requires IsTrace(ss, steps) && w < |steps| && Writes(ss[w], steps[w], j)
    ensures HasEnded(ss[w + 1], j) && Wrote(ss, steps, w, j, ss[w + 1].txns[j].state)
  {
  }

  /** A state that differs from an earlier one was written in between. */
  lemma {:induction false} WriterOf(ss: seq<State>, steps: seq<Step>, a: nat, b: nat, j: nat) returns (w: nat)
    requires IsTrace(ss, steps) && a <= b <= |steps| && HasEnded(ss[b], j)
    requires j < |ss[a].txns| ==> ss[a].txns[j].state != ss[b].txns[j].state
    ensures a <= w < b && Wrote(ss, steps, w, j, ss[b].txns[j].state)
    decreases b
  {
    w := b - 1;
    if Writes(ss[w], steps[w], j) {
      WroteThere(ss, steps, w, j);
    } else {
      assert HasEnded(ss[w], j) && ss[w].txns[j] == ss[b].txns[j];
      w := WriterOf(ss, steps, a, b - 1, j);
    }
  }

  lemma {:induction false} OverwrittenIsConflict(ss: seq<State>, steps: seq<Step>, j: nat)
    requires IsTrace(ss, steps) && !HasEnded(ss[0], j)
    ensures Overwritten(ss, j) <==> Conflicting(ss, steps, j)
  {
    hide Take, Enabled, IsTrace, Writes, Overlap, Behind, Wrote;
    if Overwritten(ss, j) {
      var a, b :| 0 <= a < b < |ss| && HasEnded(ss[a], j) && HasEnded(ss[b], j) && ss[a].txns[j].state != ss[b].txns[j].state;
      TwoOutcomes(ss, steps, a, b, j);
    }
    if Conflicting(ss, steps, j) {
      var k, t, u :| Overlap(ss, steps, k, j, t, true, u, false);
      ConflictOverwrites(ss, steps, k, j, t, u);
    }
  }

  lemma {:induction false} TwoOutcomes(ss: seq<State>, steps: seq<Step>, a: nat, b: nat, j: nat)
    requires IsTrace(ss, steps) && !HasEnded(ss[0], j)
    requires a < b < |ss| && HasEnded(ss[a], j) && HasEnded(ss[b], j) && ss[a].txns[j].state != ss[b].txns[j].state
    ensures Conflicting(ss, steps, j)
  {
    hide Take, Enabled;
    var v := WriterOf(ss, steps, 0, a, j);
    var w := WriterOf(ss, steps, a, b, j);
    WritesOverlap(ss, steps, v, w, j);
    var t, u := steps[v].t, steps[w].t;
    assert Overlap(ss, steps, v, j, t, true, u, false) || Overlap(ss, steps, v, j, u, true, t, false);
  }

  lemma {:induction false} ConflictOverwrites(ss: seq<State>, steps: seq<Step>, k: nat, j: nat, t: nat, u: nat)
    requires IsTrace(ss, steps) && Overlap(ss, steps, k, j, t, true, u, false)
    ensures Overwritten(ss, j)
  {
    hide Take, Enabled;
    var a, b := OverlapWrites(ss, steps, k, j, t, true, u, false);
    WroteThere(ss, steps, a, j);
    WroteThere(ss, steps, b, j);
    assert a != b;
    var m, n := if a < b then a + 1 else b + 1, if a < b then b + 1 else a + 1;
    assert HasEnded(ss[m], j) && HasEnded(ss[n], j) && ss[m].txns[j].state != ss[n].txns[j].state;
  }

  /**
   * In every run of any number of threads: a transaction is written a second time if and only if at some point two
   * threads are behind its test together and both go on to write; and it leaves the state in which it ended if and only
   * if, besides, one of the two commits and the other rolls back.
   */
  lemma {:induction false} EndsTwiceExactly(s: State, steps: seq<Step>, j: nat)
    requires Runs(s, steps)
    ensures var ss := Trace(s, steps);
            && (WrittenTwice(ss, steps, j) <==> Overlapping(ss, steps, j))
            && (!HasEnded(s, j) ==> (Overwritten(ss, j) <==> Conflicting(ss, steps, j)))
  {
    var ss := Trace(s, steps);
    hide Trace, Runs, IsTrace, WrittenTwice, Overlapping, Overwritten, Conflicting;
    TwiceIsOverlap(ss, steps, j);
    if !HasEnded(s, j) {
      OverwrittenIsConflict(ss, steps, j);
    }
  }

  predicate OneEnder(s: State, j: nat) {
    forall t, u | 0 <= t < |s.threads| && 0 <= u < |s.threads| && Ends(s, t, j) && Ends(s, u, j) :: t == u
  }

  predicate Ends(s: State, t: nat, j: nat)
    requires t < |s.threads|
  {
    s.threads[t].Passed? && s.threads[t].j == j
  }

  lemma {:induction false} NoOverlap(ss: seq<State>, steps: seq<Step>, j: nat)
    requires |ss| == |steps| + 1 && forall k | 0 <= k < |ss| :: OneEnder(ss[k], j)
    ensures !Overlapping(ss, steps, j) && !Conflicting(ss, steps, j)
  {
    if Overlapping(ss, steps, j) {
      var k: nat, t: nat, c, u: nat, d :| Overlap(ss, steps, k, j, t, c, u, d);
      assert OneEnder(ss[k], j) && Ends(ss[k], t, j) && Ends(ss[k], u, j);
      assert false;
    }
    assert Conflicting(ss, steps, j) ==> Overlapping(ss, steps, j);
  }

  /**
   * The caller's rule. As long as at most one thread at a time ends a transaction, it is written at most once, and
   * having left ACTIVE it never changes again.
   */
  lemma {:induction false} EndsOnce(s: State, steps: seq<Step>, j: nat)
    requires Runs(s, steps) && !HasEnded(s, j)
    requires forall k | 0 <= k <= |steps| :: OneEnder(Trace(s, steps)[k], j)
    ensures var ss := Trace(s, steps);
            && !WrittenTwice(ss, steps, j)
            && (forall a, b | 0 <= a < b < |ss| && HasEnded(ss[a], j) :: j < |ss[b].txns| && ss[b].txns[j] == ss[a].txns[j])
  {
    var ss := Trace(s, steps);
    hide Trace, Runs, IsTrace, WrittenTwice, Overwritten, Overlapping, Conflicting, OneEnder;
    EndsTwiceExactly(s, steps, j);
    NoOverlap(ss, steps, j);
    forall a, b | 0 <= a < b < |ss| && HasEnded(ss[a], j) ensures j < |ss[b].txns| && ss[b].txns[j] == ss[a].txns[j] {
      StaysEnded(ss, steps, a, b, j);
      NotOverwritten(ss, j, a, b);
    }
  }

  lemma {:induction false} NotOverwritten(ss: seq<State>, j: nat, a: nat, b: nat)
    requires !Overwritten(ss, j) && a < b < |ss| && HasEnded(ss[a], j) && HasEnded(ss[b], j)
    ensures ss[a].txns[j].state == ss[b].txns[j].state
  {
  }

  /**
   * A transaction that has ended stays as it is, whatever is done later, if and only if every thread still behind its
   * test is about to write the state it has.
   */
  lemma {:induction false} EndedStaysExactly(s: State, j: nat)
    requires Inv(s) && HasEnded(s, j)
    ensures (forall steps | Runs(s, steps) :: j < |After(s, steps).txns| && After(s, steps).txns[j] == s.txns[j])
            <==> (forall t, commit | Behind(s, t, j, commit) :: Outcome(commit) == s.txns[j].state)
  {
    hide Exclusive, LoadedIsNext, Accounted;
    if forall t, commit | Behind(s, t, j, commit) :: Outcome(commit) == s.txns[j].state {
      forall steps | Runs(s, steps) ensures j < |After(s, steps).txns| && After(s, steps).txns[j] == s.txns[j] {
        AgreedStays(s, steps, j);
      }
    } else {
      var t, commit :| Behind(s, t, j, commit) && Outcome(commit) != s.txns[j].state;
      var r := Take(s, WriteStep(t));
      RunOn(s, WriteStep(t), []);
      assert [WriteStep(t)] + [] == [WriteStep(t)];
      assert r.txns[j] != s.txns[j] && After(s, [WriteStep(t)]) == r;
    }
  }

  lemma {:induction false} AgreedStays(s: State, steps: seq<Step>, j: nat)
    requires Runs(s, steps) && HasEnded(s, j)
    requires forall t, commit | Behind(s, t, j, commit) :: Outcome(commit) == s.txns[j].state
    ensures j < |After(s, steps).txns| && After(s, steps).txns[j] == s.txns[j]
    decreases |steps|
  {
    if steps != [] {
      var step := steps[0];
      var r := Take(s, step);
      StatusStep(s, step, j);
      assert Writes(s, step, j) ==> Behind(s, step.t, j, s.threads[step.t].commit);
      forall t, commit | Behind(r, t, j, commit) ensures Behind(s, t, j, commit) {
        BehindStep(s, step, t, j, commit);
      }
      hide Take, Enabled, Behind, Writes;
      AgreedStays(r, steps[1..], j);
    }
  }

  /** One step of a run after another. */
  lemma {:induction false} RunOn(s: State, step: Step, rest: seq<Step>)
    requires Enabled(s, step) && Runs(Take(s, step), rest)
    ensures Runs(s, [step] + rest) && After(s, [step] + rest) == After(Take(s, step), rest)
  {
    hide Take, Enabled;
    assert ([step] + rest)[1..] == rest;
  }

  /** Thread 0 begins a transaction; then it passes its test to commit it, and thread 1 passes it to roll back. */
  const BEGIN := [LockStep(0), LoadStep(0), StoreStep(0), UnlockStep(0), PublishStep(0)]
  const BOTH_TEST := [TestStep(0, 0, true), TestStep(1, 0, false)]

  const BEGUN := State(2, false, [Outside, Outside], [Txn(1, Active)], [ByTxn(0)])
  const TESTED := BEGUN.(threads := [Passed(0, true), Passed(0, false)])

  lemma {:induction false} Begins(rest: seq<Step>)
    requires Runs(BEGUN, rest)
    ensures Runs(Start(2), BEGIN + rest) && After(Start(2), BEGIN + rest) == After(BEGUN, rest)
  {
    var s0 := Start(2);
    assert s0.threads == [Outside, Outside];
    var s1 := Take(s0, LockStep(0));
    var s2 := Take(s1, LoadStep(0));
    var s3 := Take(s2, StoreStep(0));
    var s4 := Take(s3, UnlockStep(0));
    assert Take(s4, PublishStep(0)) == BEGUN;
    hide Take, Runs, After;
    var r4 := [PublishStep(0)] + rest;
    var r3 := [UnlockStep(0)] + r4;
    var r2 := [StoreStep(0)] + r3;
    var r1 := [LoadStep(0)] + r2;
    RunOn(s4, PublishStep(0), rest);
    RunOn(s3, UnlockStep(0), r4);
    RunOn(s2, StoreStep(0), r3);
    RunOn(s1, LoadStep(0), r2);
    RunOn(s0, LockStep(0), r1);
    assert BEGIN + rest == [LockStep(0)] + r1;
  }

  lemma {:induction false} BothPass(rest: seq<Step>)
    requires Runs(TESTED, rest)
    ensures Runs(BEGUN, BOTH_TEST + rest) && After(BEGUN, BOTH_TEST + rest) == After(TESTED, rest)
  {
    var s := Take(BEGUN, TestStep(0, 0, true));
    assert Take(s, TestStep(1, 0, false)) == TESTED;
    hide Take, Runs, After;
    RunOn(s, TestStep(1, 0, false), rest);
    RunOn(BEGUN, TestStep(0, 0, true), [TestStep(1, 0, false)] + rest);
    assert BOTH_TEST + rest == [TestStep(0, 0, true)] + ([TestStep(1, 0, false)] + rest);
  }

  /** One thread commits while another rolls back: the transaction is COMMITTED, and then ABORTED. */
  lemma {:induction false} BothEnd()
    ensures var a := BEGIN + (BOTH_TEST + [WriteStep(0)]);
            Runs(Start(2), a) && After(Start(2), a).txns == [Txn(1, Committed)]
    ensures var b := BEGIN + (BOTH_TEST + [WriteStep(0), WriteStep(1)]);
            Runs(Start(2), b) && After(Start(2), b).txns == [Txn(1, Aborted)]
  {
    var c := Take(TESTED, WriteStep(0));
    RunOn(c, WriteStep(1), []);
    RunOn(TESTED, WriteStep(0), []);
    RunOn(TESTED, WriteStep(0), [WriteStep(1)]);
    assert [WriteStep(1)] + [] == [WriteStep(1)] && [WriteStep(0)] + [] == [WriteStep(0)];
    assert [WriteStep(0)] + [WriteStep(1)] == [WriteStep(0), WriteStep(1)];
    assert c.txns == [Txn(1, Committed)] && Take(c, WriteStep(1)).txns == [Txn(1, Aborted)];
    hide Take;
    forall rest | Runs(TESTED, rest)
      ensures Runs(Start(2), BEGIN + (BOTH_TEST + rest)) && After(Start(2), BEGIN + (BOTH_TEST + rest)) == After(TESTED, rest)
    {
      BothPass(rest);
      Begins(BOTH_TEST + rest);
    }
  }
}
