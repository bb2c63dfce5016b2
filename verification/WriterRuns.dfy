/** What holds over whole runs of the slice-writer protocol
    (components/vfs/src/writer.rs). */
module WriterRuns {
  import opened Common
  import opened WriterProtocol

  function NewFile(): State {
    State(map[], map[], map[], 0, 0, Between, 0, false, {}, map[], None, {})
  }

  ghost predicate StepAt(actions: seq<Action>, trace: seq<State>, n: nat)
    requires n < |actions| && |trace| == |actions| + 1
  {
    Next(trace[n], actions[n], trace[n + 1])
  }

  ghost predicate IsRun(actions: seq<Action>, trace: seq<State>) {
    && |trace| == |actions| + 1
    && trace[0] == NewFile()
    && forall n :: 0 <= n < |actions| ==> StepAt(actions, trace, n)
  }

  lemma {:induction false} RunInv(actions: seq<Action>, trace: seq<State>, n: nat)
    requires IsRun(actions, trace) && n < |trace|
    ensures Inv(trace[n])
  {
    if n > 0 {
      RunInv(actions, trace, n - 1);
      assert StepAt(actions, trace, n - 1);
      NextOk(trace[n - 1], actions[n - 1], trace[n]);
    }
  }

  // ---- ownership --------------------------------------------------------------------

  /** A slice being flushed or committed has exactly one outstanding request, a slice in any
      other phase has none, and the flusher finds the slice in the phase its completion
      expects. */
  ghost predicate OneRequestEach(p: State) {
    && (forall s :: s in p.slices ==> (InFlight(p.slices[s].st) <==> HasReq(p.reqs, s)))
    && (forall l, m :: l in p.reqs && m in p.reqs && p.reqs[l].slice == p.reqs[m].slice ==> l == m)
    && (AtFlusher in p.reqs ==> && p.reqs[AtFlusher].slice in p.slices
                                && p.slices[p.reqs[AtFlusher].slice].st == PhaseOf(p.reqs[AtFlusher].kind))
  }

  /** A slice in Writing belongs to exactly one write, unless a failed write abandoned it. */
  ghost predicate OneWriterEach(p: State) {
    && (forall s :: s in p.slices ==>
                      (p.slices[s].st == Writing <==> s in p.orphans || exists w, i :: Holds(p.writes, w, i, s)))
    && (forall w, i, v, j, s :: Holds(p.writes, w, i, s) && Holds(p.writes, v, j, s) ==> w == v && i == j)
    && (forall w, i, s :: Holds(p.writes, w, i, s) ==> s !in p.orphans)
  }

  lemma ExclusiveOwnership(actions: seq<Action>, trace: seq<State>, n: nat)
    requires IsRun(actions, trace) && n < |trace|
    ensures OneRequestEach(trace[n])
    ensures OneWriterEach(trace[n])
    ensures trace[n].counter + (if trace[n].flusher == Counted then 1 else 0) == |NotDone(trace[n].slices)|
  {
    RunInv(actions, trace, n);
  }

  // ---- finish is complete -------------------------------------------------------------

  lemma FinishIsComplete(actions: seq<Action>, trace: seq<State>, n: nat)
    requires IsRun(actions, trace) && n < |actions| && actions[n] == EndFinish && !trace[n].error
    ensures forall s :: s in trace[n].slices ==> trace[n].slices[s].st == Done
    ensures trace[n].counter == 0 && trace[n].reqs == map[]
  {
    RunInv(actions, trace, n);
    assert StepAt(actions, trace, n);
    FinishComplete(trace[n], trace[n + 1]);
    assert NotDone(trace[n].slices) == {};
  }

  // ---- finish is never stuck, unless a write abandoned a slice --------------------------

  /** The write fails with slices still to be written: it covers more than one chunk. */
  ghost predicate Abandons(p: State, a: Action) {
    a.WriteFail? && a.w in p.writes && |p.writes[a.w].taken| > 1
  }

  lemma FailedWriteAbandons(p: State, w: nat, p': State)
    requires HoldInv(p.slices, p.writes, p.orphans) && WriteFailStep(p, w, p')
    ensures p.orphans <= p'.orphans
    ensures p'.orphans == p.orphans <==> |p.writes[w].taken| == 1
  {
    var rest := p.writes[w].taken[1..];
    if rest != [] {
      assert rest[0].slice in Slices(rest) && rest[0] == p.writes[w].taken[1];
    } else {
      assert Slices(rest) == {};
    }
  }

  lemma NobodyElseAbandons(p: State, a: Action, p': State)
    requires Next(p, a, p') && !a.WriteFail?
    ensures p'.orphans == p.orphans
  {
  }

  lemma OrphanStep(actions: seq<Action>, trace: seq<State>, n: nat)
    requires IsRun(actions, trace) && n < |actions|
    ensures trace[n].orphans <= trace[n + 1].orphans
    ensures trace[n + 1].orphans == trace[n].orphans <==> !Abandons(trace[n], actions[n])
  {
    RunInv(actions, trace, n);
    assert StepAt(actions, trace, n);
    if actions[n].WriteFail? {
      FailedWriteAbandons(trace[n], actions[n].w, trace[n + 1]);
    } else {
      NobodyElseAbandons(trace[n], actions[n], trace[n + 1]);
    }
  }

  /** No slice is ever abandoned exactly when every failing write had one slice left. */
  lemma {:induction false} OrphansExact(actions: seq<Action>, trace: seq<State>, n: nat)
    requires IsRun(actions, trace) && n < |trace|
    ensures trace[n].orphans == {} <==> forall m :: 0 <= m < n ==> !Abandons(trace[m], actions[m])
  {
    if n > 0 {
      OrphansExact(actions, trace, n - 1);
      OrphanStep(actions, trace, n - 1);
    }
  }

  lemma {:induction false} OrphanStays(actions: seq<Action>, trace: seq<State>, n: nat, m: nat)
    requires IsRun(actions, trace) && n <= m < |trace|
    ensures trace[n].orphans <= trace[m].orphans
    decreases m
  {
    if n < m {
      OrphanStays(actions, trace, n, m - 1);
      OrphanStep(actions, trace, m - 1);
    }
  }

  /** An abandoned slice stays in Writing for good, and from then on finish does not return
      unless a flush error lets it return that error. */
  lemma OrphanBlocksFinish(actions: seq<Action>, trace: seq<State>, n: nat, m: nat, s: nat)
    requires IsRun(actions, trace) && n <= m < |trace| && s in trace[n].orphans
    ensures s in trace[m].slices && trace[m].slices[s].st == Writing
    ensures m < |actions| && actions[m] == EndFinish ==> trace[m].error
  {
    OrphanStays(actions, trace, n, m);
    RunInv(actions, trace, m);
    if m < |actions| && actions[m] == EndFinish && !trace[m].error {
      FinishIsComplete(actions, trace, m);
    }
  }

  /** One write over two chunks that fails on the first leaves the second one's slice
      behind: no flush error is involved. */
  lemma AbandonedSlice()
    ensures exists actions: seq<Action>, trace: seq<State> :: IsRun(actions, trace) && |trace| == 5 && trace[4].orphans == {1} && !trace[4].error
  {
    var p0 := NewFile();
    var p1 := p0.(writes := p0.writes[0 := Write([0, 1], [])]);
    var p2 := p1.(slices := p1.slices[0 := Slice(0, Writing)], members := p1.members[0 := {} + {0}], counter := 1,
                  writes := p1.writes[0 := Write([0, 1][1..], [] + [Claim(0, Idle)])]);
    var p3 := p2.(slices := p2.slices[1 := Slice(1, Writing)], members := p2.members[1 := {} + {1}], counter := 2,
                  writes := p2.writes[0 := Write([0, 1][1..][1..], [] + [Claim(0, Idle)] + [Claim(1, Idle)])]);
    var taken := p3.writes[0].taken;
    var p4 := p3.(slices := p3.slices[0 := Slice(0, Idle)], writes := p3.writes - {0}, permits := {} + {0},
                  orphans := {} + Slices(taken[1..]));
    assert taken[1..] == [Claim(1, Idle)];
    assert Slices([Claim(1, Idle)]) == {1} by { assert [Claim(1, Idle)][0].slice == 1; }
    assert BeginWriteStep(p0, 0, [0, 1], p1);
    assert CreateStep(p1, 0, 0, p2);
    assert CreateStep(p2, 0, 1, p3);
    assert WriteFailStep(p3, 0, p4);
    var actions := [BeginWrite(0, [0, 1]), Create(0, 0), Create(0, 1), WriteFail(0)];
    var trace := [NewFile(), p1, p2, p3, p4];
    forall n | 0 <= n < 4
      ensures StepAt(actions, trace, n)
    {
    }
    assert IsRun(actions, trace);
  }

  /** A finish loop asleep has a request outstanding or a notification on its way for every
      slice it waits for. */
  lemma SleeperIsAwaited(actions: seq<Action>, trace: seq<State>, n: nat, c: nat)
    requires IsRun(actions, trace) && n < |trace|
    requires forall m :: 0 <= m < n ==> !Abandons(trace[m], actions[m])
    requires trace[n].finish.Some? && c in trace[n].finish.value && trace[n].finish.value[c] == Asleep
    ensures c in trace[n].members && trace[n].members[c] != {}
    ensures forall s :: s in trace[n].members[c] ==> HasReq(trace[n].reqs, s) || trace[n].flusher == Notify(c)
  {
    RunInv(actions, trace, n);
    OrphansExact(actions, trace, n);
  }

  ghost predicate Enabled(p: State, a: Action) { exists p' :: Next(p, a, p') }

  /** The flusher can always move on, and not only by failing, while it has something to do. */
  lemma FlusherMoves(p: State)
    requires Core(p) && (p.flusher != Between || p.head < p.tail)
    ensures exists a :: OfFlusher(a) && a != Fail && Enabled(p, a)
  {
    if p.flusher == Between {
      var p' := p.(reqs := Move(p.reqs, Ticket(p.head), AtFlusher), head := p.head + 1, flusher := Working);
      assert Next(p, Receive, p') && OfFlusher(Receive);
      assert Enabled(p, Receive);
    } else if p.flusher.Notify? {
      assert Next(p, SendNotify, Notified(p, p.flusher.c).(flusher := Between)) && OfFlusher(SendNotify);
      assert Enabled(p, SendNotify);
    } else if p.flusher == NotifyGone {
      assert Next(p, SendNotify, p.(flusher := Between)) && OfFlusher(SendNotify);
      assert Enabled(p, SendNotify);
    } else if p.flusher == Working && p.reqs[AtFlusher].kind != FlushBulk {
      assert p.reqs[AtFlusher].slice in NotDone(p.slices);
      assert Next(p, Count, p.(counter := p.counter - 1, flusher := Counted)) && OfFlusher(Count);
      assert Enabled(p, Count);
    } else {
      var r := p.reqs[AtFlusher];
      var p' := p.(slices := SetSt(p.slices, r.slice, After(p.flusher, r.kind)), reqs := p.reqs - {AtFlusher},
                   flusher := Notify(p.slices[r.slice].chunk));
      assert Next(p, Settle, p') && OfFlusher(Settle);
      assert Enabled(p, Settle);
    }
  }

  /** While a finish loop sleeps, the flusher or the loop of another chunk can step. */
  lemma NeverStuck(actions: seq<Action>, trace: seq<State>, n: nat, c: nat)
    requires IsRun(actions, trace) && n < |trace|
    requires forall m :: 0 <= m < n ==> !Abandons(trace[m], actions[m])
    requires trace[n].finish.Some? && c in trace[n].finish.value && trace[n].finish.value[c] == Asleep
    ensures exists a :: ((OfFlusher(a) && a != Fail) || a.SendFinish?) && Enabled(trace[n], a)
  {
    RunInv(actions, trace, n);
    SleeperIsAwaited(actions, trace, n, c);
    var p := trace[n];
    var s :| s in p.members[c];
    if p.flusher == Notify(c) {
      FlusherMoves(p);
    } else {
      var l :| l in p.reqs && p.reqs[l].slice == s;
      if l.Finish? {
        assert Next(p, SendFinish(l.c), p.(reqs := Move(p.reqs, l, Ticket(p.tail)), tail := p.tail + 1));
        assert Enabled(p, SendFinish(l.c));
      } else {
        FlusherMoves(p);
      }
    }
  }

  /** A finish loop that is neither asleep nor back can take its next step. */
  lemma LoopMoves(p: State, c: nat)
    requires Inv(p) && p.finish.Some? && c in p.finish.value && p.finish.value[c] != Asleep && p.finish.value[c] != Returned
    ensures exists a :: !OfWrite(a) && !OfFlusher(a) && Enabled(p, a)
  {
    var l := p.finish.value[c];
    assert LoopOk(p, c, l);
    if l == AtTop {
      assert Next(p, Top(c), SetLoop(p, c, if p.error || p.members[c] == {} then Returned else Scan(p.members[c], {}, None)));
      assert Enabled(p, Top(c));
    } else if l == ToWait {
      assert Next(p, Wait(c), if c in p.permits then SetLoop(p, c, AtTop).(permits := p.permits - {c}) else SetLoop(p, c, Asleep));
      assert Enabled(p, Wait(c));
    } else {
      ScanMoves(p, c);
    }
  }

  lemma ScanMoves(p: State, c: nat)
    requires Inv(p) && AtLoop(p, c) && p.finish.value[c].Scan?
    ensures exists a :: !OfWrite(a) && !OfFlusher(a) && Enabled(p, a)
  {
    var l := p.finish.value[c];
    assert LoopOk(p, c, l);
    if Finish(c) in p.reqs {
      assert Next(p, SendFinish(c), p.(reqs := Move(p.reqs, Finish(c), Ticket(p.tail)), tail := p.tail + 1));
      assert Enabled(p, SendFinish(c));
    } else if l.at.Some? {
      AskMoves(p, c);
    } else if l.todo != {} {
      var s :| s in l.todo;
      LookMoves(p, c, s);
    } else {
      EndScanMoves(p, c);
    }
  }

  lemma LookMoves(p: State, c: nat, s: nat)
    requires AtLoop(p, c) && p.finish.value[c].Scan? && Finish(c) !in p.reqs
    requires p.finish.value[c].at.None? && s in p.finish.value[c].todo && s in p.slices
    ensures Enabled(p, Look(c, s))
  {
    assert Next(p, Look(c, s), SetLoop(p, c, LookAt(p.finish.value[c], s, p.slices[s].st)));
  }

  lemma EndScanMoves(p: State, c: nat)
    requires AtLoop(p, c) && p.finish.value[c].Scan? && Finish(c) !in p.reqs
    requires p.finish.value[c].at.None? && p.finish.value[c].todo == {}
    ensures Enabled(p, EndScan(c))
  {
    var done := p.finish.value[c].done;
    var left := p.members[c] - done;
    assert Next(p, EndScan(c), SetLoop(p, c, if done != {} && left == {} then Returned else ToWait).(members := p.members[c := left]));
  }

  lemma AskMoves(p: State, c: nat)
    requires AtAsk(p, c)
    ensures exists a :: !OfWrite(a) && !OfFlusher(a) && Enabled(p, a)
  {
    var s := p.finish.value[c].at.value;
    if Resting(p.slices[s].st) {
      var k := if p.slices[s].st == Idle then CommitIdle else FlushFull;
      var p' := SetLoop(p, c, p.finish.value[c].(at := None)).(
        slices := SetSt(p.slices, s, PhaseOf(k)), reqs := p.reqs[Finish(c) := Req(s, k)]);
      assert Next(p, AskFinish(c), p');
      assert Enabled(p, AskFinish(c));
    } else {
      assert Next(p, PassOver(c), SetLoop(p, c, p.finish.value[c].(at := None)));
      assert Enabled(p, PassOver(c));
    }
  }

  /** From its start to its return, finish is never blocked: one of its loops, the flusher
      without failing, or the return itself can step. */
  lemma FinishAlwaysMoves(actions: seq<Action>, trace: seq<State>, n: nat)
    requires IsRun(actions, trace) && n < |trace| && trace[n].finish.Some?
    requires forall m :: 0 <= m < n ==> !Abandons(trace[m], actions[m])
    ensures exists a :: !OfWrite(a) && a != Fail && Enabled(trace[n], a)
  {
    RunInv(actions, trace, n);
    var p := trace[n];
    if exists c :: c in p.finish.value && p.finish.value[c] == Asleep {
      var c :| c in p.finish.value && p.finish.value[c] == Asleep;
      NeverStuck(actions, trace, n, c);
    } else if exists c :: c in p.finish.value && p.finish.value[c] != Returned {
      var c :| c in p.finish.value && p.finish.value[c] != Returned;
      LoopMoves(p, c);
    } else {
      EndMoves(p);
    }
  }

  lemma EndMoves(p: State)
    requires p.finish.Some? && forall c :: c in p.finish.value ==> p.finish.value[c] == Returned
    ensures Enabled(p, EndFinish)
  {
    var p' := if p.error then p.(error := false, finish := None)
              else p.(members := map[], permits := {}, finish := None, flusher := if p.flusher.Notify? then NotifyGone else p.flusher);
    assert Next(p, EndFinish, p');
  }
}
