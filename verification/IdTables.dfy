/** Handing out ids from ranges reserved on a persistent counter
    (components/meta/src/id_table.rs, components/meta/src/backend/rocksdb.rs). */
module IdTables {
  import opened Common

  datatype Range = Range(next: nat, max: nat)

  /** Outcome of a successful request: the id, the table's range and the counter after it. */
  datatype Issue = Issue(id: nat, range: Range, counter: nat)

  /** Refill an empty range from the counter, then skip ids 0 and 1. */
  function NextId(range: Range, counter: nat, step: nat): Issue {
    var r, c := if range.next >= range.max then Range(counter, counter + step) else range,
                if range.next >= range.max then counter + step else counter;
    var id := Max(2, r.next);
    Issue(id, Range(id + 1, r.max), c)
  }

  /** What the metadata store holds under the counter's key. */
  datatype Stored = Absent | Number(value: nat) | Unreadable

  function ValueOf(s: Stored): nat { if s.Number? then s.value else 0 }

  /** The counter in the metadata store; an increase is one transaction. */
  class Backend {
    var stored: Stored

    constructor ()
      ensures stored == Absent
    {
      stored := Absent;
    }

    /** A counter that is not there counts from zero. */
    method IncreaseCountBy(step: nat, fails: bool) returns (r: Result<nat>)
      modifies this
      ensures r == if old(stored).Unreadable? then Err(Corruption)
                   else if fails then Err(StorageFailed) else Ok(ValueOf(old(stored)) + step)
      ensures stored == if r.Ok? then Number(r.value) else old(stored)
    {
      if stored == Unreadable {
        return Err(Corruption);
      }
      var current := if stored == Absent then 0 else stored.value;
      if fails {
        return Err(StorageFailed);
      }
      stored := Number(current + step);
      return Ok(current + step);
    }
  }

  class IdTable {
    var next: nat
    var max: nat
    const backend: Backend
    const step: nat

    constructor (backend: Backend, step: nat)
      ensures next == 0 && max == 0 && this.backend == backend && this.step == step
    {
      next, max := 0, 0;
      this.backend := backend;
      this.step := step;
    }

    /** An error leaves table and counter as they were. */
    method Next(fails: bool) returns (r: Result<nat>)
      requires this as object != backend
      modifies this`next, this`max, backend
      ensures r.Err? <==> (fails || old(backend.stored).Unreadable?) && old(next >= max)
      ensures r.Err? ==> next == old(next) && max == old(max) && backend.stored == old(backend.stored)
      ensures r.Ok? ==> Issue(r.value, Range(next, max), ValueOf(backend.stored)) ==
                        NextId(Range(old(next), old(max)), ValueOf(old(backend.stored)), step)
    {
      if next >= max {
        var newMax := backend.IncreaseCountBy(step, fails);
        if newMax.Err? {
          return Err(newMax.error);
        }
        next := newMax.value - step;
        max := newMax.value;
      }
      ghost var start := next;
      var id := next;
      next := next + 1;
      while id <= 1
        modifies `next
        invariant next == id + 1 && Max(2, id) == Max(2, start)
      {
        id := next;
        next := next + 1;
      }
      return Ok(id);
    }
  }

  // ---- any number of tables -----------------------------------------------------------

  datatype System = System(counter: nat, tables: map<nat, Range>, issued: seq<nat>)

  /** A table is opened, asked for an id (the store may fail), or lost with its range. */
  datatype Action = Open(t: nat) | Ask(t: nat) | AskFails(t: nat) | Lose(t: nat)

  ghost predicate Next(s: System, step: nat, a: Action, s': System) {
    match a
    case Open(t) => t !in s.tables && s' == s.(tables := s.tables[t := Range(0, 0)])
    case Ask(t) =>
      && t in s.tables
      && var i := NextId(s.tables[t], s.counter, step);
         s' == System(i.counter, s.tables[t := i.range], s.issued + [i.id])
    case AskFails(t) => t in s.tables && s.tables[t].next >= s.tables[t].max && s' == s
    case Lose(t) => t in s.tables && s' == s.(tables := s.tables - {t})
  }

  ghost predicate StepAt(step: nat, actions: seq<Action>, trace: seq<System>, n: nat)
    requires n < |actions| && |trace| == |actions| + 1
  {
    Next(trace[n], step, actions[n], trace[n + 1])
  }

  ghost predicate IsRun(step: nat, actions: seq<Action>, trace: seq<System>) {
    && |trace| == |actions| + 1
    && trace[0] == System(0, map[], [])
    && forall n :: 0 <= n < |actions| ==> StepAt(step, actions, trace, n)
  }

  /** What a table may still hand out is below the counter, and no other table's and not
      issued before. */
  ghost predicate Inv(s: System) {
    && Distinct(s.issued)
    && (forall x :: x in s.issued ==> 2 <= x < s.counter)
    && (forall t :: t in s.tables ==> Fresh(s.tables[t], s.issued, s.counter))
    && (forall t, u :: t in s.tables && u in s.tables && t != u ==> Apart(s.tables[t], s.tables[u]))
  }

  ghost predicate Distinct(ids: seq<nat>) { forall i, j :: 0 <= i < j < |ids| ==> ids[i] != ids[j] }

  ghost predicate Fresh(r: Range, issued: seq<nat>, counter: nat) {
    && (r.next < r.max ==> 2 <= r.next && r.max <= counter)
    && forall x :: x in issued ==> x < r.next || r.max <= x
  }

  predicate Apart(a: Range, b: Range) { a.next >= a.max || b.next >= b.max || a.max <= b.next || b.max <= a.next }

  function Refilled(s: System, step: nat, t: nat): System {
    s.(counter := s.counter + step, tables := s.tables[t := Range(Max(2, s.counter), s.counter + step)])
  }

  function Issued(s: System, t: nat): System
    requires t in s.tables
  {
    s.(tables := s.tables[t := s.tables[t].(next := s.tables[t].next + 1)], issued := s.issued + [s.tables[t].next])
  }

  /** A refill takes ids nobody has. */
  lemma RefillKeeps(s: System, step: nat, t: nat)
    requires Inv(s) && step >= 3 && t in s.tables && s.tables[t].next >= s.tables[t].max
    ensures Inv(Refilled(s, step, t))
  {
  }

  lemma IssueKeeps(s: System, t: nat)
    requires Inv(s) && t in s.tables && s.tables[t].next < s.tables[t].max
    ensures Inv(Issued(s, t))
  {
    assert s.tables[t].next !in s.issued by { assert Fresh(s.tables[t], s.issued, s.counter); }
    assert forall i :: 0 <= i < |s.issued| ==> s.issued[i] in s.issued;
    forall u | u in s.tables
      ensures Fresh(Issued(s, t).tables[u], Issued(s, t).issued, s.counter)
    {
      if u != t { assert Apart(s.tables[t], s.tables[u]); }
    }
  }

  lemma AskSplits(s: System, step: nat, t: nat, s': System)
    requires Next(s, step, Ask(t), s') && (s.tables[t].next < s.tables[t].max ==> 2 <= s.tables[t].next)
    ensures s' == if s.tables[t].next < s.tables[t].max then Issued(s, t) else Issued(Refilled(s, step, t), t)
  {
    assert s'.tables == Refilled(s, step, t).tables[t := s'.tables[t]];
  }

  lemma AskKeeps(s: System, step: nat, t: nat, s': System)
    requires Inv(s) && step >= 3 && Next(s, step, Ask(t), s')
    ensures Inv(s')
  {
    AskSplits(s, step, t, s');
    if s.tables[t].next >= s.tables[t].max {
      RefillKeeps(s, step, t);
      IssueKeeps(Refilled(s, step, t), t);
    } else {
      IssueKeeps(s, t);
    }
  }

  lemma NextKeeps(s: System, step: nat, a: Action, s': System)
    requires Inv(s) && step >= 3 && Next(s, step, a, s')
    ensures Inv(s')
  {
    if a.Ask? { AskKeeps(s, step, a.t, s'); }
  }

  lemma {:induction false} RunKeeps(step: nat, actions: seq<Action>, trace: seq<System>, n: nat)
    requires step >= 3 && IsRun(step, actions, trace) && n < |trace|
    ensures Inv(trace[n])
  {
    if n > 0 {
      RunKeeps(step, actions, trace, n - 1);
      assert StepAt(step, actions, trace, n - 1);
      NextKeeps(trace[n - 1], step, actions[n - 1], trace[n]);
    }
  }

  ghost predicate Unique(ids: seq<nat>) {
    Distinct(ids) && forall x :: x in ids ==> 2 <= x
  }

  ghost predicate AlwaysUnique(step: nat) {
    forall actions: seq<Action>, trace: seq<System>, n: nat :: IsRun(step, actions, trace) && n < |trace| ==> Unique(trace[n].issued)
  }

  /** Two tables, one id each. */
  lemma TwoTables(step: nat) returns (actions: seq<Action>, trace: seq<System>)
    ensures IsRun(step, actions, trace) && |trace| == 5
    ensures trace[4].issued == [2, Max(2, step)]
  {
    var a, b := NextId(Range(0, 0), 0, step), NextId(Range(0, 0), step, step);
    var s0 := System(0, map[], []);
    var s1 := s0.(tables := s0.tables[0 := Range(0, 0)]);
    var s2 := System(a.counter, s1.tables[0 := a.range], s1.issued + [a.id]);
    var s3 := s2.(tables := s2.tables[1 := Range(0, 0)]);
    var s4 := System(b.counter, s3.tables[1 := b.range], s3.issued + [b.id]);
    actions, trace := [Open(0), Ask(0), Open(1), Ask(1)], [s0, s1, s2, s3, s4];
    assert Next(s0, step, Open(0), s1) && Next(s1, step, Ask(0), s2) && Next(s2, step, Open(1), s3) && Next(s3, step, Ask(1), s4);
  }

  /** Ids are unique across all tables, lost ones included, exactly for steps of at least 3:
      a smaller first range is used up by the ids it skips. */
  lemma UniqueExactly(step: nat)
    ensures AlwaysUnique(step) <==> step >= 3
  {
    if step >= 3 {
      forall actions: seq<Action>, trace: seq<System>, n: nat | IsRun(step, actions, trace) && n < |trace|
        ensures Unique(trace[n].issued)
      {
        RunKeeps(step, actions, trace, n);
      }
    } else {
      var actions, trace := TwoTables(step);
      assert !Unique(trace[4].issued) by { assert trace[4].issued[0] == trace[4].issued[1]; }
    }
  }

  // ---- one table wastes nothing --------------------------------------------------------

  /** Only table `t` is ever opened and asked, with or without failures. */
  ghost predicate OneTable(t: nat, actions: seq<Action>, n: nat)
    requires n <= |actions|
  {
    forall i :: 0 <= i < n ==> actions[i] == Open(t) || actions[i] == Ask(t) || actions[i] == AskFails(t)
  }

  ghost predicate CountingUp(t: nat, s: System) {
    && (forall i :: 0 <= i < |s.issued| ==> s.issued[i] == i + 2)
    && (s.tables == map[] || (t in s.tables && s.tables.Keys == {t}))
    && (s.issued == [] ==> s.counter == 0 && (t in s.tables ==> s.tables[t] == Range(0, 0)))
    && (s.issued != [] ==> t in s.tables && s.tables[t].next == |s.issued| + 2 <= s.tables[t].max == s.counter)
  }

  lemma CountingUpStep(t: nat, s: System, step: nat, a: Action, s': System)
    requires CountingUp(t, s) && step >= 3 && Next(s, step, a, s') && (a == Open(t) || a == Ask(t) || a == AskFails(t))
    ensures CountingUp(t, s')
  {
  }

  lemma {:induction false} OneTableCountsUp(t: nat, step: nat, actions: seq<Action>, trace: seq<System>, n: nat)
    requires step >= 3 && IsRun(step, actions, trace) && n < |trace| && OneTable(t, actions, n)
    ensures CountingUp(t, trace[n])
  {
    if n > 0 {
      OneTableCountsUp(t, step, actions, trace, n - 1);
      assert StepAt(step, actions, trace, n - 1);
      CountingUpStep(t, trace[n - 1], step, actions[n - 1], trace[n]);
    }
  }

  /** A single table hands out 2, 3, 4 and so on, without a gap, over any number of refills
      and failures. */
  lemma NoIdWasted(t: nat, step: nat, actions: seq<Action>, trace: seq<System>, n: nat)
    requires step >= 3 && IsRun(step, actions, trace) && n < |trace| && OneTable(t, actions, n)
    ensures forall i :: 0 <= i < |trace[n].issued| ==> trace[n].issued[i] == i + 2
  {
    OneTableCountsUp(t, step, actions, trace, n);
  }
}
