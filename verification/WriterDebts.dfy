/** What the slice-writer protocol owes to its callers over whole runs: written data is flushed
    before it is committed, and a flush error is reported (components/vfs/src/writer.rs). */
module WriterDebts {
  import opened Common
  import opened WriterProtocol
  import opened WriterRuns

  // ---- written data -----------------------------------------------------------------

  ghost predicate Wrote(p: State, a: Action, s: nat) {
    a.WriteOk? && a.w in p.writes && p.writes[a.w].taken != [] && p.writes[a.w].taken[0].slice == s
  }

  /** The flusher finished a request for the slice without failing. */
  ghost predicate Succeeded(p: State, a: Action, s: nat) {
    a == Settle && AtFlusher in p.reqs && p.reqs[AtFlusher].slice == s && p.flusher != Failing
  }

  /** The slice was written, and no request for it has succeeded since. */
  ghost predicate Unflushed(actions: seq<Action>, trace: seq<State>, n: nat, s: nat)
    requires n <= |actions| < |trace|
  {
    exists m :: 0 <= m < n && Wrote(trace[m], actions[m], s) && NoSuccess(actions, trace, m + 1, n, s)
  }

  ghost predicate NoSuccess(actions: seq<Action>, trace: seq<State>, m: nat, n: nat, s: nat)
    requires n <= |actions| < |trace|
  {
    forall j :: m <= j < n ==> !Succeeded(trace[j], actions[j], s)
  }

  lemma UnflushedStep(actions: seq<Action>, trace: seq<State>, n: nat, s: nat)
    requires n < |actions| < |trace|
    ensures Unflushed(actions, trace, n + 1, s) <==>
              Wrote(trace[n], actions[n], s) || (Unflushed(actions, trace, n, s) && !Succeeded(trace[n], actions[n], s))
  {
    if Wrote(trace[n], actions[n], s) {
      assert NoSuccess(actions, trace, n + 1, n + 1, s);
    } else if Unflushed(actions, trace, n, s) && !Succeeded(trace[n], actions[n], s) {
      var m :| 0 <= m < n && Wrote(trace[m], actions[m], s) && NoSuccess(actions, trace, m + 1, n, s);
      assert NoSuccess(actions, trace, m + 1, n + 1, s);
    }
    if Unflushed(actions, trace, n + 1, s) && !Wrote(trace[n], actions[n], s) {
      var m :| 0 <= m < n + 1 && Wrote(trace[m], actions[m], s) && NoSuccess(actions, trace, m + 1, n + 1, s);
      assert NoSuccess(actions, trace, m + 1, n, s);
    }
  }

  function OwedNext(p: State, a: Action, owed: set<nat>): set<nat> {
    if a.WriteOk? && a.w in p.writes && p.writes[a.w].taken != [] then owed + {p.writes[a.w].taken[0].slice}
    else if a == Settle && AtFlusher in p.reqs && p.flusher != Failing then owed - {p.reqs[AtFlusher].slice}
    else owed
  }

  function OwedAt(actions: seq<Action>, trace: seq<State>, n: nat): set<nat>
    requires n <= |actions| < |trace|
  {
    if n == 0 then {} else OwedNext(trace[n - 1], actions[n - 1], OwedAt(actions, trace, n - 1))
  }

  lemma {:induction false} OwedIsUnflushed(actions: seq<Action>, trace: seq<State>, n: nat, s: nat)
    requires n <= |actions| < |trace|
    ensures s in OwedAt(actions, trace, n) <==> Unflushed(actions, trace, n, s)
  {
    if n > 0 {
      OwedIsUnflushed(actions, trace, n - 1, s);
      UnflushedStep(actions, trace, n - 1, s);
    }
  }

  /** Owed slices are dirty or being flushed, or held by a write that will put them back as
      dirty; no other slice is. */
  ghost predicate Debt(slices: map<nat, Slice>, writes: map<nat, Write>, owed: set<nat>) {
    && (forall s :: s in owed ==> s in slices)
    && (forall s :: s in slices && slices[s].st != Writing ==> (s in owed <==> slices[s].st == Dirty || slices[s].st == Flushing))
    && (forall w, i :: w in writes && 0 <= i < |writes[w].taken| ==>
                         (writes[w].taken[i].before == Dirty <==> writes[w].taken[i].slice in owed))
  }

  lemma TakeDebt(p: State, w: nat, s: nat, p': State, owed: set<nat>)
    requires Core(p) && Debt(p.slices, p.writes, owed) && TakeStep(p, w, s, p')
    ensures Debt(p'.slices, p'.writes, owed)
  {
  }

  lemma CreateDebt(p: State, w: nat, s: nat, p': State, owed: set<nat>)
    requires Core(p) && Debt(p.slices, p.writes, owed) && CreateStep(p, w, s, p')
    ensures Debt(p'.slices, p'.writes, owed)
  {
  }

  lemma WroteDebt(p: State, w: nat, p': State, owed: set<nat>)
    requires Core(p) && Debt(p.slices, p.writes, owed) && WriteOkStep(p, w, p')
    ensures Debt(p'.slices, p'.writes, OwedNext(p, WriteOk(w), owed))
  {
  }

  lemma WriteEndDebt(p: State, a: Action, p': State, owed: set<nat>)
    requires Core(p) && Debt(p.slices, p.writes, owed) && Next(p, a, p') && (a.BeginWrite? || a.WriteFail? || a.EndWrite?)
    ensures Debt(p'.slices, p'.writes, owed)
  {
  }

  lemma AskDebt(p: State, a: Action, p': State, owed: set<nat>)
    requires Core(p) && Debt(p.slices, p.writes, owed) && Next(p, a, p') && (a.AskFlush? || a.AskFinish?)
    ensures Debt(p'.slices, p'.writes, owed)
  {
  }

  lemma SettleDebt(p: State, p': State, owed: set<nat>)
    requires Core(p) && Debt(p.slices, p.writes, owed) && SettleStep(p, p')
    ensures Debt(p'.slices, p'.writes, OwedNext(p, Settle, owed))
  {
    assert p.slices[p.reqs[AtFlusher].slice].st == PhaseOf(p.reqs[AtFlusher].kind);
  }

  predicate TouchesSlices(a: Action) {
    a.BeginWrite? || a.Take? || a.Create? || a.WriteOk? || a.WriteFail? || a.EndWrite? || a.AskFlush? || a.AskFinish? || a == Settle
  }

  lemma QuietDebt(p: State, a: Action, p': State)
    requires Next(p, a, p') && !TouchesSlices(a)
    ensures p'.slices == p.slices && p'.writes == p.writes
  {
  }

  lemma DebtStep(p: State, a: Action, p': State, owed: set<nat>)
    requires Core(p) && Debt(p.slices, p.writes, owed) && Next(p, a, p')
    ensures Debt(p'.slices, p'.writes, OwedNext(p, a, owed))
  {
    if a.Take? {
      TakeDebt(p, a.w, a.s, p', owed);
    } else if a.Create? {
      CreateDebt(p, a.w, a.s, p', owed);
    } else if a.WriteOk? {
      WroteDebt(p, a.w, p', owed);
    } else if a.BeginWrite? || a.WriteFail? || a.EndWrite? {
      WriteEndDebt(p, a, p', owed);
    } else if a.AskFlush? || a.AskFinish? {
      AskDebt(p, a, p', owed);
    } else if a == Settle {
      SettleDebt(p, p', owed);
    } else {
      QuietDebt(p, a, p');
    }
  }

  lemma {:induction false} RunDebt(actions: seq<Action>, trace: seq<State>, n: nat)
    requires IsRun(actions, trace) && n < |trace|
    ensures Debt(trace[n].slices, trace[n].writes, OwedAt(actions, trace, n))
  {
    if n > 0 {
      RunDebt(actions, trace, n - 1);
      RunInv(actions, trace, n - 1);
      assert StepAt(actions, trace, n - 1);
      DebtStep(trace[n - 1], actions[n - 1], trace[n], OwedAt(actions, trace, n - 1));
    }
  }

  /** In every interleaving: a slice written since its last successful request is dirty, being
      flushed, or held by a write, so it is never asked to be committed as idle, whatever
      failed; and outside a write only such slices are dirty or being flushed. */
  lemma WrittenIsFlushedFirst(actions: seq<Action>, trace: seq<State>, n: nat, s: nat)
    requires IsRun(actions, trace) && n < |trace|
    ensures Unflushed(actions, trace, n, s) ==> && s in trace[n].slices
                                                && var st := trace[n].slices[s].st; st == Dirty || st == Flushing || st == Writing
    ensures Unflushed(actions, trace, n, s) ==>
              forall l :: l in trace[n].reqs && trace[n].reqs[l].slice == s ==> trace[n].reqs[l].kind != CommitIdle
    ensures s in trace[n].slices && (trace[n].slices[s].st == Dirty || trace[n].slices[s].st == Flushing) ==> Unflushed(actions, trace, n, s)
  {
    RunDebt(actions, trace, n);
    RunInv(actions, trace, n);
    OwedIsUnflushed(actions, trace, n, s);
  }

  // ---- what finish asks for -----------------------------------------------------------

  ghost predicate NoBulk(reqs: map<Loc, Req>) { forall c :: Finish(c) in reqs ==> reqs[Finish(c)].kind != FlushBulk }

  lemma NoBulkStepWrite(p: State, a: Action, p': State)
    requires NoBulk(p.reqs) && Next(p, a, p') && OfWrite(a)
    ensures NoBulk(p'.reqs)
  {
  }

  lemma NoBulkStepFlusher(p: State, a: Action, p': State)
    requires NoBulk(p.reqs) && Next(p, a, p') && OfFlusher(a)
    ensures NoBulk(p'.reqs)
  {
  }

  lemma NoBulkStepFinish(p: State, a: Action, p': State)
    requires NoBulk(p.reqs) && Next(p, a, p') && !OfWrite(a) && !OfFlusher(a)
    ensures NoBulk(p'.reqs)
  {
  }

  lemma NoBulkStep(p: State, a: Action, p': State)
    requires NoBulk(p.reqs) && Next(p, a, p')
    ensures NoBulk(p'.reqs)
  {
    if OfWrite(a) {
      NoBulkStepWrite(p, a, p');
    } else if OfFlusher(a) {
      NoBulkStepFlusher(p, a, p');
    } else {
      NoBulkStepFinish(p, a, p');
    }
  }

  /** finish never settles for the whole blocks of a slice. */
  lemma FinishAsksForAll(actions: seq<Action>, trace: seq<State>, n: nat, c: nat)
    requires IsRun(actions, trace) && n < |trace|
    ensures Finish(c) in trace[n].reqs ==> trace[n].reqs[Finish(c)].kind != FlushBulk
  {
    RunNoBulk(actions, trace, n);
  }

  lemma {:induction false} RunNoBulk(actions: seq<Action>, trace: seq<State>, n: nat)
    requires IsRun(actions, trace) && n < |trace|
    ensures NoBulk(trace[n].reqs)
  {
    if n > 0 {
      RunNoBulk(actions, trace, n - 1);
      assert StepAt(actions, trace, n - 1);
      NoBulkStep(trace[n - 1], actions[n - 1], trace[n]);
    }
  }

  // ---- errors -------------------------------------------------------------------------

  /** A write or a finish that starts, and a finish that ends, return a recorded error. */
  predicate Reports(a: Action) { a.BeginWrite? || a == BeginFinish || a == EndFinish }

  ghost predicate NoReport(actions: seq<Action>, m: nat, n: nat)
    requires n <= |actions|
  {
    forall j :: m <= j < n ==> !Reports(actions[j])
  }

  lemma ErrorStepWrite(p: State, a: Action, p': State)
    requires Next(p, a, p') && OfWrite(a)
    ensures p'.error <==> a == Fail || (p.error && !Reports(a))
  {
  }

  lemma ErrorStepFlusher(p: State, a: Action, p': State)
    requires Next(p, a, p') && OfFlusher(a)
    ensures p'.error <==> a == Fail || (p.error && !Reports(a))
  {
  }

  lemma ErrorStepFinish(p: State, a: Action, p': State)
    requires Next(p, a, p') && !OfWrite(a) && !OfFlusher(a)
    ensures p'.error <==> a == Fail || (p.error && !Reports(a))
  {
  }

  lemma ErrorStep(p: State, a: Action, p': State)
    requires Next(p, a, p')
    ensures p'.error <==> a == Fail || (p.error && !Reports(a))
  {
    if OfWrite(a) {
      ErrorStepWrite(p, a, p');
    } else if OfFlusher(a) {
      ErrorStepFlusher(p, a, p');
    } else {
      ErrorStepFinish(p, a, p');
    }
  }

  /** A failed flush stays recorded until the next write or finish returns it, and nothing else
      is ever recorded. */
  lemma {:induction false} ErrorIsReported(actions: seq<Action>, trace: seq<State>, n: nat)
    requires IsRun(actions, trace) && n < |trace|
    ensures trace[n].error <==> exists m :: 0 <= m < n && actions[m] == Fail && NoReport(actions, m + 1, n)
  {
    if n > 0 {
      ErrorIsReported(actions, trace, n - 1);
      assert StepAt(actions, trace, n - 1);
      ErrorStep(trace[n - 1], actions[n - 1], trace[n]);
      if actions[n - 1] == Fail {
        assert NoReport(actions, n, n);
      } else if trace[n].error {
        var m :| 0 <= m < n - 1 && actions[m] == Fail && NoReport(actions, m + 1, n - 1);
        assert NoReport(actions, m + 1, n);
      } else if exists m :: 0 <= m < n && actions[m] == Fail && NoReport(actions, m + 1, n) {
        var m :| 0 <= m < n && actions[m] == Fail && NoReport(actions, m + 1, n);
        assert NoReport(actions, m + 1, n - 1);
      }
    }
  }

  /** The call that returns the error does nothing else: no data is written, no finish begins,
      and a finish that ends with it keeps every chunk's slices for a retry. */
  lemma ReportingOnlyReports(p: State, a: Action, p': State)
    requires Next(p, a, p') && p.error && Reports(a)
    ensures p' == if a == EndFinish then p.(error := false, finish := None) else p.(error := false)
  {
  }

  // ---- writes go where they were meant to -----------------------------------------------

  /** The chunks a write still has to write to, in order. */
  function Plan(p: State, w: nat): seq<nat>
    requires w in p.writes && forall i :: 0 <= i < |p.writes[w].taken| ==> p.writes[w].taken[i].slice in p.slices
  {
    seq(|p.writes[w].taken|, i requires 0 <= i < |p.writes[w].taken| => p.slices[p.writes[w].taken[i].slice].chunk) + p.writes[w].regions
  }

  ghost predicate Planned(p: State, w: nat) {
    w in p.writes && forall i :: 0 <= i < |p.writes[w].taken| ==> p.writes[w].taken[i].slice in p.slices
  }

  lemma ChunksKept(p: State, a: Action, p': State, s: nat)
    requires Core(p) && Next(p, a, p') && s in p.slices
    ensures s in p'.slices && p'.slices[s].chunk == p.slices[s].chunk
  {
    if OfWrite(a) {
      ChunksKeptByWrite(p, a, p', s);
    } else if OfFlusher(a) {
      ChunksKeptByFlusher(p, a, p', s);
    } else {
      ChunksKeptByFinish(p, a, p', s);
    }
  }

  lemma ChunksKeptByFlusher(p: State, a: Action, p': State, s: nat)
    requires QueueInv(p.reqs, p.head, p.tail, p.flusher) && Next(p, a, p') && OfFlusher(a) && s in p.slices
    ensures s in p'.slices && p'.slices[s].chunk == p.slices[s].chunk
  {
  }

  lemma ChunksKeptByFinish(p: State, a: Action, p': State, s: nat)
    requires Next(p, a, p') && !OfWrite(a) && !OfFlusher(a) && s in p.slices
    ensures s in p'.slices && p'.slices[s].chunk == p.slices[s].chunk
  {
  }

  lemma ChunksKeptByWrite(p: State, a: Action, p': State, s: nat)
    requires Next(p, a, p') && OfWrite(a) && s in p.slices
    ensures s in p'.slices && p'.slices[s].chunk == p.slices[s].chunk
  {
  }

  lemma ClaimsAreSlices(p: State, w: nat)
    requires HoldInv(p.slices, p.writes, p.orphans) && w in p.writes
    ensures Planned(p, w)
  {
  }

  lemma SamePlan(p: State, p': State, w: nat)
    requires Planned(p, w) && w in p'.writes && p'.writes[w] == p.writes[w]
    requires forall s :: s in p.slices ==> s in p'.slices && p'.slices[s].chunk == p.slices[s].chunk
    ensures Planned(p', w) && Plan(p', w) == Plan(p, w)
  {
  }

  /** Taking or creating a slice of the next chunk leaves the plan as it is. */
  lemma ClaimPlan(p: State, w: nat, claim: Claim, p': State)
    requires Planned(p, w) && p.writes[w].regions != [] && w in p'.writes
    requires p'.writes[w] == Write(p.writes[w].regions[1..], p.writes[w].taken + [claim])
    requires forall s :: s in p.slices ==> s in p'.slices && p'.slices[s].chunk == p.slices[s].chunk
    requires claim.slice in p'.slices && p'.slices[claim.slice].chunk == p.writes[w].regions[0]
    ensures Planned(p', w) && Plan(p', w) == Plan(p, w)
  {
  }

  lemma WrittenPlan(p: State, w: nat, p': State)
    requires Planned(p, w) && w in p'.writes && p.writes[w].taken != []
    requires p'.writes[w] == p.writes[w].(taken := p.writes[w].taken[1..])
    requires forall s :: s in p.slices ==> s in p'.slices && p'.slices[s].chunk == p.slices[s].chunk
    ensures Planned(p', w) && Plan(p', w) == Plan(p, w)[1..]
  {
  }

  lemma AllChunksKept(p: State, a: Action, p': State)
    requires Core(p) && Next(p, a, p')
    ensures forall s :: s in p.slices ==> s in p'.slices && p'.slices[s].chunk == p.slices[s].chunk
  {
    forall s | s in p.slices
      ensures s in p'.slices && p'.slices[s].chunk == p.slices[s].chunk
    {
      ChunksKept(p, a, p', s);
    }
  }

  /** While a write goes on it takes or creates a slice of the next chunk of its plan each time
      and drops the first chunk as it is written. */
  lemma WriteFollowsPlan(p: State, a: Action, p': State, w: nat)
    requires Core(p) && Next(p, a, p') && w in p.writes && w in p'.writes
    ensures Planned(p, w) && Planned(p', w) && Plan(p', w) == if a == WriteOk(w) then Plan(p, w)[1..] else Plan(p, w)
  {
    ClaimsAreSlices(p, w);
    AllChunksKept(p, a, p');
    WritesKept(p, a, p', w);
    if a.Take? && a.w == w {
      ClaimPlan(p, w, Claim(a.s, p.slices[a.s].st), p');
    } else if a.Create? && a.w == w {
      ClaimPlan(p, w, Claim(a.s, Idle), p');
    } else if a == WriteOk(w) {
      WrittenPlan(p, w, p');
    } else {
      SamePlan(p, p', w);
    }
  }

  lemma OthersKeepWrites(p: State, a: Action, p': State)
    requires Next(p, a, p') && !OfWrite(a)
    ensures p'.writes == p.writes
  {
  }

  lemma WriteEnds(p: State, a: Action, p': State, w: nat)
    requires Next(p, a, p')
    ensures w in p.writes && w !in p'.writes ==> a == EndWrite(w) || a == WriteFail(w)
    ensures a == EndWrite(w) ==> w in p.writes && p.writes[w] == Write([], [])
  {
    if !OfWrite(a) {
      OthersKeepWrites(p, a, p');
    }
  }

  lemma WriteStarts(p: State, a: Action, p': State, w: nat)
    requires Next(p, a, p') && w !in p.writes && w in p'.writes
    ensures a.BeginWrite? && a.w == w && p'.writes[w] == Write(a.regions, [])
  {
    if !OfWrite(a) {
      OthersKeepWrites(p, a, p');
    }
  }

  /** It starts with the chunks it covers as its plan, and ends well when nothing is left. */
  lemma PlanStartsAndEnds(p: State, a: Action, p': State, w: nat)
    requires Core(p) && Next(p, a, p')
    ensures w !in p.writes && w in p'.writes ==> a.BeginWrite? && a.w == w && Planned(p', w) && Plan(p', w) == a.regions
    ensures a == EndWrite(w) ==> Planned(p, w) && Plan(p, w) == []
    ensures w in p.writes && w !in p'.writes ==> a == EndWrite(w) || a == WriteFail(w)
  {
    WriteEnds(p, a, p', w);
    if w !in p.writes && w in p'.writes {
      WriteStarts(p, a, p', w);
    }
  }

  lemma WritesKept(p: State, a: Action, p': State, w: nat)
    requires Next(p, a, p') && w in p.writes && w in p'.writes
    ensures p'.writes[w] == p.writes[w] || ((a.Take? || a.Create? || a.WriteOk?) && a.w == w)
  {
    if !OfWrite(a) {
      OthersKeepWrites(p, a, p');
    }
  }
}
