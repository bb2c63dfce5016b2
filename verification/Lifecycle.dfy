/** The mount lifecycle and the operations it admits, one atomic access at a time
    (components/vfs/src/lifecycle.rs). */
module Lifecycle {
  import opened Common

  datatype Life = Starting | Recovering | Ready | Draining | Stopped | Failed

  /** Beyond Ready: the mount is no longer, or never will be, open for operations. */
  predicate Past(l: Life) { l == Draining || l == Stopped || l == Failed }

  /** An operation: it saw Ready, counted itself, then holds a guard or takes itself off again;
      the last one off has waiters to notify. */
  datatype Op = Checked | Counted | Guarded | Withdrawing | Notifying

  /** A drain waiter: it has its notification future, or has seen a non-zero count and sleeps. */
  datatype Waiter = Prepared(notified: bool) | Asleep(notified: bool)

  datatype State = State(
    life: Life,
    count: nat,
    ops: map<nat, Op>,
    waiters: map<nat, Waiter>,
    failers: set<nat>,            // mark_failed between its load and its store
    drainers: map<nat, Life>)     // begin_draining between its load and its exchange

  datatype Action =
    | MarkRecovering | MarkReady | MarkStopped | MarkShutdownFailed
    | FailLoad(f: nat) | FailStore(f: nat)
    | DrainLoad(d: nat) | DrainExchange(d: nat)
    | Check(o: nat) | Count(o: nat) | Recheck(o: nat) | Release(o: nat) | Notify(o: nat)
    | Prepare(w: nat) | Look(w: nat) | Wake(w: nat)

  // ---- steps ----------------------------------------------------------------------

  predicate LifeStep(s: State, a: Action, s': State) {
    match a
    case MarkRecovering => s' == if s.life == Starting then s.(life := Recovering) else s
    case MarkReady => s' == if s.life == Recovering then s.(life := Ready) else s
    case MarkStopped => s' == s.(life := Stopped)
    case MarkShutdownFailed => s' == s.(life := Failed)
    case FailLoad(f) => s' == if s.life == Draining || s.life == Stopped then s else s.(failers := s.failers + {f})
    case FailStore(f) => f in s.failers && s' == s.(life := Failed, failers := s.failers - {f})
    case DrainLoad(d) => s' == if s.life == Draining || s.life == Stopped then s else s.(drainers := s.drainers[d := s.life])
    case DrainExchange(d) =>
      && d in s.drainers
      && s' == s.(life := if s.life == s.drainers[d] then Draining else s.life, drainers := s.drainers - {d})
    case _ => false
  }

  function Woken(w: Waiter): Waiter { w.(notified := true) }

  predicate OpStep(s: State, a: Action, s': State) {
    match a
    case Check(o) => o !in s.ops && s' == if s.life == Ready then s.(ops := s.ops[o := Checked]) else s
    case Count(o) => o in s.ops && s.ops[o] == Checked && s' == s.(count := s.count + 1, ops := s.ops[o := Counted])
    case Recheck(o) =>
      && o in s.ops && s.ops[o] == Counted
      && s' == s.(ops := s.ops[o := if s.life == Ready then Guarded else Withdrawing])
    case Release(o) =>
      && o in s.ops && (s.ops[o] == Guarded || s.ops[o] == Withdrawing) && s.count > 0
      && s' == s.(count := s.count - 1, ops := if s.count == 1 then s.ops[o := Notifying] else s.ops - {o})
    case Notify(o) =>
      && o in s.ops && s.ops[o] == Notifying
      && s' == s.(ops := s.ops - {o}, waiters := map w | w in s.waiters :: Woken(s.waiters[w]))
    case _ => false
  }

  predicate WaitStep(s: State, a: Action, s': State) {
    match a
    case Prepare(w) => w !in s.waiters && s' == s.(waiters := s.waiters[w := Prepared(false)])
    case Look(w) =>
      && w in s.waiters && s.waiters[w].Prepared?
      && s' == s.(waiters := if s.count == 0 then s.waiters - {w} else s.waiters[w := Asleep(s.waiters[w].notified)])
    case Wake(w) => w in s.waiters && s.waiters[w] == Asleep(true) && s' == s.(waiters := s.waiters - {w})
    case _ => false
  }

  predicate Next(s: State, a: Action, s': State) { LifeStep(s, a, s') || OpStep(s, a, s') || WaitStep(s, a, s') }

  // ---- invariant --------------------------------------------------------------------

  predicate Counts(x: Op) { x == Counted || x == Guarded || x == Withdrawing }

  function CountedOps(ops: map<nat, Op>): set<nat> { set o | o in ops && Counts(ops[o]) }

  function Guards(ops: map<nat, Op>): set<nat> { set o | o in ops && ops[o] == Guarded }

  ghost predicate Owed(s: State) { s.count > 0 || exists o :: o in s.ops && s.ops[o] == Notifying }

  ghost predicate Inv(s: State) {
    && s.count == |CountedOps(s.ops)|
    && (forall w :: w in s.waiters && s.waiters[w] == Asleep(false) ==> Owed(s))
  }

  lemma MovedCount(ops: map<nat, Op>, o: nat, x: Op)
    ensures |CountedOps(ops[o := x])| == |CountedOps(ops)| + (if Counts(x) then 1 else 0) - (if o in ops && Counts(ops[o]) then 1 else 0)
    ensures |CountedOps(ops - {o})| == |CountedOps(ops)| - (if o in ops && Counts(ops[o]) then 1 else 0)
  {
    if Counts(x) {
      assert CountedOps(ops[o := x]) == CountedOps(ops) + {o};
    } else {
      assert CountedOps(ops[o := x]) == CountedOps(ops) - {o};
    }
    assert CountedOps(ops - {o}) == CountedOps(ops) - {o};
  }

  lemma ReleaseKeeps(s: State, o: nat, s': State)
    requires Inv(s) && OpStep(s, Release(o), s')
    ensures Inv(s')
  {
    MovedCount(s.ops, o, Notifying);
    if s.count == 1 { assert o in s'.ops && s'.ops[o] == Notifying; }
  }

  lemma OpKeeps(s: State, a: Action, s': State)
    requires Inv(s) && OpStep(s, a, s') && !a.Release?
    ensures Inv(s')
  {
    MovedCount(s.ops, a.o, Checked);
    MovedCount(s.ops, a.o, Counted);
    MovedCount(s.ops, a.o, if s.life == Ready then Guarded else Withdrawing);
    if !a.Notify? && Owed(s) && s.count == 0 {
      var o :| o in s.ops && s.ops[o] == Notifying;
      assert o in s'.ops && s'.ops[o] == Notifying;
    }
  }

  lemma NextKeeps(s: State, a: Action, s': State)
    requires Inv(s) && Next(s, a, s')
    ensures Inv(s')
  {
    if a.Release? {
      ReleaseKeeps(s, a.o, s');
    } else if OpStep(s, a, s') {
      OpKeeps(s, a, s');
    } else {
      assert s'.ops == s.ops && s'.count == s.count;
    }
  }

  // ---- runs -------------------------------------------------------------------------

  function NewMount(): State { State(Starting, 0, map[], map[], {}, map[]) }

  ghost predicate StepAt(actions: seq<Action>, trace: seq<State>, n: nat)
    requires n < |actions| && |trace| == |actions| + 1
  {
    Next(trace[n], actions[n], trace[n + 1])
  }

  ghost predicate IsRun(actions: seq<Action>, trace: seq<State>) {
    && |trace| == |actions| + 1
    && trace[0] == NewMount()
    && forall n :: 0 <= n < |actions| ==> StepAt(actions, trace, n)
  }

  lemma {:induction false} RunKeeps(actions: seq<Action>, trace: seq<State>, n: nat)
    requires IsRun(actions, trace) && n < |trace|
    ensures Inv(trace[n])
  {
    if n > 0 {
      RunKeeps(actions, trace, n - 1);
      assert StepAt(actions, trace, n - 1);
      NextKeeps(trace[n - 1], actions[n - 1], trace[n]);
    }
  }

  /** The counter is the number of live guards plus the operations between counting
      themselves and holding a guard or taking themselves off. */
  lemma CountIsExact(actions: seq<Action>, trace: seq<State>, n: nat)
    requires IsRun(actions, trace) && n < |trace|
    ensures trace[n].count == |CountedOps(trace[n].ops)| && Guards(trace[n].ops) <= CountedOps(trace[n].ops)
  {
    RunKeeps(actions, trace, n);
  }

  /** A mount that has left Ready never returns to it, and its guards only go. */
  lemma PastStep(s: State, a: Action, s': State)
    requires Next(s, a, s')
    ensures s.life == Ready ==> s'.life == Ready || Past(s'.life)
    ensures Past(s.life) ==> Past(s'.life) && Guards(s'.ops) <= Guards(s.ops)
  {
  }

  lemma {:induction false} NeverReadyAgain(actions: seq<Action>, trace: seq<State>, n: nat, m: nat)
    requires IsRun(actions, trace) && n <= m < |trace|
    ensures Past(trace[n].life) ==> Past(trace[m].life) && Guards(trace[m].ops) <= Guards(trace[n].ops)
    ensures trace[n].life == Ready ==> trace[m].life == Ready || Past(trace[m].life)
    decreases m
  {
    if n < m {
      NeverReadyAgain(actions, trace, n, m - 1);
      assert StepAt(actions, trace, m - 1);
      PastStep(trace[m - 1], actions[m - 1], trace[m]);
    }
  }

  /** Once the mount is past Ready, a zero count means no guard is live then or ever after. */
  lemma DrainBarrier(actions: seq<Action>, trace: seq<State>, n: nat, m: nat)
    requires IsRun(actions, trace) && n <= m < |trace| && Past(trace[n].life) && trace[n].count == 0
    ensures Guards(trace[m].ops) == {}
  {
    CountIsExact(actions, trace, n);
    NeverReadyAgain(actions, trace, n, m);
    assert CountedOps(trace[n].ops) == {};
  }

  /** A waiter asleep without its notification still has a counted operation to wait for, or
      one about to notify: it never sleeps through the last release. */
  lemma LastReleaseIsNotMissed(actions: seq<Action>, trace: seq<State>, n: nat, w: nat)
    requires IsRun(actions, trace) && n < |trace| && w in trace[n].waiters && trace[n].waiters[w] == Asleep(false)
    ensures exists o :: o in trace[n].ops && (Counts(trace[n].ops[o]) || trace[n].ops[o] == Notifying)
  {
    RunKeeps(actions, trace, n);
    if trace[n].count > 0 {
      var o :| o in CountedOps(trace[n].ops);
      assert o in trace[n].ops && Counts(trace[n].ops[o]);
    }
  }

  /** A drain in flight loaded a state draining may begin from. */
  ghost predicate DrainersOpen(s: State) {
    forall d :: d in s.drainers ==> s.drainers[d] != Draining && s.drainers[d] != Stopped
  }

  lemma {:induction false} DrainersStayOpen(actions: seq<Action>, trace: seq<State>, n: nat)
    requires IsRun(actions, trace) && n < |trace|
    ensures DrainersOpen(trace[n])
  {
    if n > 0 {
      DrainersStayOpen(actions, trace, n - 1);
      assert StepAt(actions, trace, n - 1);
    }
  }

  /** However late a drain's exchange comes, a stopped mount does not start draining again:
      from Stopped it can only fail. */
  lemma StoppedNeverDrains(actions: seq<Action>, trace: seq<State>, n: nat)
    requires IsRun(actions, trace) && n < |actions| && trace[n].life == Stopped
    ensures trace[n + 1].life == Stopped || trace[n + 1].life == Failed
  {
    DrainersStayOpen(actions, trace, n);
    assert StepAt(actions, trace, n);
  }

  // ---- what the calls achieve when nobody interferes ---------------------------------------

  /** A ready mount admits an operation, and its guard can be released again. */
  lemma ReadyAdmits(s: State, o: nat) returns (s1: State, s2: State, s3: State, s4: State)
    requires s.life == Ready && o !in s.ops
    ensures Next(s, Check(o), s1) && Next(s1, Count(o), s2) && Next(s2, Recheck(o), s3) && Next(s3, Release(o), s4)
    ensures s3.ops == s.ops[o := Guarded] && s3.count == s.count + 1 && s3.life == Ready
    ensures s4.count == s.count && s4.ops == if s.count == 0 then s.ops[o := Notifying] else s.ops
  {
    s1 := s.(ops := s.ops[o := Checked]);
    s2 := s1.(count := s1.count + 1, ops := s1.ops[o := Counted]);
    s3 := s2.(ops := s2.ops[o := Guarded]);
    s4 := s3.(count := s3.count - 1, ops := if s3.count == 1 then s3.ops[o := Notifying] else s3.ops - {o});
    assert s3.ops == s.ops[o := Guarded];
    assert s3.ops - {o} == s.ops;
  }

  /** A mount in any other state refuses it: at once, or, if it left Ready in between, after
      taking the count back. */
  lemma OthersRefuse(s: State, a: Action, s': State)
    requires s.life != Ready && Next(s, a, s')
    ensures a.Check? ==> s' == s
    ensures a.Recheck? ==> s' == s.(ops := s.ops[a.o := Withdrawing])
  {
  }

  /** Draining begins unless it has begun or the mount has stopped. */
  lemma DrainBegins(s: State, d: nat) returns (s1: State, s2: State)
    requires s.life != Draining && s.life != Stopped
    ensures Next(s, DrainLoad(d), s1) && Next(s1, DrainExchange(d), s2)
    ensures s2.life == Draining && s2.ops == s.ops && s2.count == s.count
  {
    s1 := s.(drainers := s.drainers[d := s.life]);
    s2 := s1.(life := Draining, drainers := s1.drainers - {d});
  }

  /** Where each transition leaves the mount. */
  lemma Transitions(s: State, a: Action, s': State)
    requires Next(s, a, s')
    ensures a == MarkRecovering ==> s'.life == if s.life == Starting then Recovering else s.life
    ensures a == MarkReady ==> s'.life == if s.life == Recovering then Ready else s.life
    ensures a == MarkStopped ==> s'.life == Stopped
    ensures a == MarkShutdownFailed || a.FailStore? ==> s'.life == Failed
    ensures a.FailLoad? ==> (a.f in s'.failers <==> a.f in s.failers || (s.life != Draining && s.life != Stopped))
    ensures s'.life != s.life ==> a == MarkRecovering || a == MarkReady || a == MarkStopped || a == MarkShutdownFailed
                                  || a.FailStore? || (a.DrainExchange? && s'.life == Draining)
  {
  }

  /** The last release wakes every waiter, and a waiter that finds the count at zero returns. */
  lemma LastReleaseWakes(s: State, a: Action, s': State)
    requires Next(s, a, s')
    ensures a.Notify? ==> s'.waiters.Keys == s.waiters.Keys && forall w :: w in s'.waiters ==> s'.waiters[w].notified
    ensures a.Look? && s.count == 0 ==> s'.waiters == s.waiters - {a.w}
    ensures a.Look? && s.count > 0 ==> a.w in s'.waiters && s'.waiters[a.w].Asleep?
  {
  }
}
