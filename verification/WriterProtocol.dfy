/** How slice writers change hands: concurrent writes, the flusher with its request queue,
    and the finish loop that sleeps until slices are done, interleaved one atomic access at a
    time (components/vfs/src/writer.rs). The flusher is live and no future is cancelled. */
module WriterProtocol {
  import opened Common

  datatype Phase = Idle | Writing | Dirty | Flushing | Committing | Done

  datatype Slice = Slice(chunk: nat, st: Phase)

  datatype Kind = FlushBulk | FlushFull | CommitIdle

  datatype Req = Req(slice: nat, kind: Kind)

  /** Where a request is: in the hands of a write or of a chunk's finish loop, in the queue
      under its ticket, or with the flusher. */
  datatype Loc = Hand(w: nat) | Finish(c: nat) | Ticket(t: nat) | AtFlusher

  function PhaseOf(k: Kind): Phase { if k == CommitIdle then Committing else Flushing }

  predicate InFlight(p: Phase) { p == Flushing || p == Committing }

  // ---- requests -----------------------------------------------------------------

  ghost predicate HasReq(reqs: map<Loc, Req>, s: nat) {
    exists l :: l in reqs && reqs[l].slice == s
  }

  /** A slice is being flushed or committed exactly when one request for it is outstanding,
      and the request is of the matching kind. */
  ghost predicate ReqInv(slices: map<nat, Slice>, reqs: map<Loc, Req>) {
    && (forall l :: l in reqs ==> reqs[l].slice in slices && slices[reqs[l].slice].st == PhaseOf(reqs[l].kind))
    && (forall l, m :: l in reqs && m in reqs && reqs[l].slice == reqs[m].slice ==> l == m)
    && (forall s :: s in slices && InFlight(slices[s].st) ==> HasReq(reqs, s))
  }

  function SetSt(slices: map<nat, Slice>, s: nat, p: Phase): map<nat, Slice>
    requires s in slices
  {
    slices[s := slices[s].(st := p)]
  }

  /** A slice nobody has asked about changes among the phases without a request. */
  lemma ReqQuiet(slices: map<nat, Slice>, reqs: map<Loc, Req>, s: nat, x: Slice)
    requires ReqInv(slices, reqs) && !InFlight(x.st)
    requires s in slices ==> !InFlight(slices[s].st)
    ensures ReqInv(slices[s := x], reqs)
  {
  }

  /** Asking for a flush takes the slice out of a resting phase and creates the one request. */
  lemma ReqAsk(slices: map<nat, Slice>, reqs: map<Loc, Req>, s: nat, l: Loc, k: Kind)
    requires ReqInv(slices, reqs) && s in slices && !InFlight(slices[s].st) && l !in reqs
    ensures ReqInv(SetSt(slices, s, PhaseOf(k)), reqs[l := Req(s, k)])
  {
    var reqs' := reqs[l := Req(s, k)];
    forall x | x in slices && (x == s || InFlight(slices[x].st))
      ensures HasReq(reqs', x)
    {
      if x == s {
        assert l in reqs' && reqs'[l].slice == s;
      } else {
        var m :| m in reqs && reqs[m].slice == x;
        assert m in reqs' && reqs'[m].slice == x;
      }
    }
  }

  function Move(reqs: map<Loc, Req>, l: Loc, m: Loc): map<Loc, Req>
    requires l in reqs
  {
    (reqs - {l})[m := reqs[l]]
  }

  lemma ReqMove(slices: map<nat, Slice>, reqs: map<Loc, Req>, l: Loc, m: Loc)
    requires ReqInv(slices, reqs) && l in reqs && m !in reqs
    ensures ReqInv(slices, Move(reqs, l, m))
    ensures forall s :: HasReq(reqs, s) <==> HasReq(Move(reqs, l, m), s)
  {
    var reqs' := Move(reqs, l, m);
    forall s
      ensures HasReq(reqs, s) <==> HasReq(reqs', s)
    {
      if HasReq(reqs, s) {
        var n :| n in reqs && reqs[n].slice == s;
        var n' := if n == l then m else n;
        assert n' in reqs' && reqs'[n'].slice == s;
      }
      if HasReq(reqs', s) {
        var n :| n in reqs' && reqs'[n].slice == s;
        var n' := if n == m then l else n;
        assert n' in reqs && reqs[n'].slice == s;
      }
    }
  }

  /** Settling a request puts the slice into a phase without one. */
  lemma ReqSettle(slices: map<nat, Slice>, reqs: map<Loc, Req>, l: Loc, p: Phase)
    requires ReqInv(slices, reqs) && l in reqs && !InFlight(p)
    ensures ReqInv(SetSt(slices, reqs[l].slice, p), reqs - {l})
    ensures forall s :: s != reqs[l].slice ==> (HasReq(reqs, s) <==> HasReq(reqs - {l}, s))
  {
    forall s | s != reqs[l].slice && HasReq(reqs, s)
      ensures HasReq(reqs - {l}, s)
    {
      var m :| m in reqs && reqs[m].slice == s;
      assert m in reqs - {l} && (reqs - {l})[m].slice == s;
    }
    forall s | HasReq(reqs - {l}, s)
      ensures HasReq(reqs, s)
    {
      var m :| m in reqs - {l} && (reqs - {l})[m].slice == s;
      assert m in reqs && reqs[m].slice == s;
    }
  }

  // ---- writers ------------------------------------------------------------------

  /** A slice claimed by a write, with the phase it had before. */
  datatype Claim = Claim(slice: nat, before: Phase)

  /** A write in progress: chunks it still has to find a slice for, then slices it still has
      to write. */
  datatype Write = Write(regions: seq<nat>, taken: seq<Claim>)

  ghost predicate Holds(writes: map<nat, Write>, w: nat, i: nat, s: nat) {
    w in writes && 0 <= i < |writes[w].taken| && writes[w].taken[i].slice == s
  }

  /** A slice in Writing belongs to exactly one write, or was abandoned by one. */
  ghost predicate HoldInv(slices: map<nat, Slice>, writes: map<nat, Write>, orphans: set<nat>) {
    && (forall w, i :: w in writes && 0 <= i < |writes[w].taken| ==>
                         && writes[w].taken[i].slice in slices
                         && slices[writes[w].taken[i].slice].st == Writing
                         && writes[w].taken[i].slice !in orphans
                         && (writes[w].taken[i].before == Idle || writes[w].taken[i].before == Dirty))
    && (forall w, i, v, j :: w in writes && 0 <= i < |writes[w].taken| && v in writes && 0 <= j < |writes[v].taken| ==>
                               writes[w].taken[i].slice == writes[v].taken[j].slice ==> w == v && i == j)
    && (forall s :: s in orphans ==> s in slices && slices[s].st == Writing)
    && (forall s :: s in slices && slices[s].st == Writing ==> s in orphans || exists w, i :: Holds(writes, w, i, s))
  }

  lemma HoldQuiet(slices: map<nat, Slice>, writes: map<nat, Write>, orphans: set<nat>, s: nat, x: Slice)
    requires HoldInv(slices, writes, orphans) && x.st != Writing && (s in slices ==> slices[s].st != Writing)
    ensures HoldInv(slices[s := x], writes, orphans)
  {
  }

  lemma HoldClaim(slices: map<nat, Slice>, writes: map<nat, Write>, orphans: set<nat>, w: nat, rest: seq<nat>, c: Claim, x: Slice)
    requires HoldInv(slices, writes, orphans) && w in writes && x.st == Writing && (c.before == Idle || c.before == Dirty)
    requires c.slice in slices ==> slices[c.slice].st != Writing
    ensures HoldInv(slices[c.slice := x], writes[w := Write(rest, writes[w].taken + [c])], orphans)
  {
    var slices' := slices[c.slice := x];
    var writes' := writes[w := Write(rest, writes[w].taken + [c])];
    forall s | s in slices' && slices'[s].st == Writing && s !in orphans
      ensures exists v, i :: Holds(writes', v, i, s)
    {
      if s == c.slice {
        assert Holds(writes', w, |writes[w].taken|, s);
      } else {
        var v: nat, i: nat :| Holds(writes, v, i, s);
        assert Holds(writes', v, i, s);
      }
    }
  }

  lemma HoldRelease(slices: map<nat, Slice>, writes: map<nat, Write>, orphans: set<nat>, w: nat, p: Phase)
    requires HoldInv(slices, writes, orphans) && w in writes && writes[w].taken != [] && p != Writing
    ensures HoldInv(SetSt(slices, writes[w].taken[0].slice, p), writes[w := writes[w].(taken := writes[w].taken[1..])], orphans)
  {
    var slices' := SetSt(slices, writes[w].taken[0].slice, p);
    var writes' := writes[w := writes[w].(taken := writes[w].taken[1..])];
    forall s | s in slices' && slices'[s].st == Writing && s !in orphans
      ensures exists v, i :: Holds(writes', v, i, s)
    {
      var v: nat, i: nat :| Holds(writes, v, i, s);
      assert Holds(writes', v, if v == w then i - 1 else i, s);
    }
  }

  function Slices(taken: seq<Claim>): set<nat> { set i | 0 <= i < |taken| :: taken[i].slice }

  /** A write that ends while it still holds slices leaves them behind in Writing. */
  lemma HoldAbandon(slices: map<nat, Slice>, writes: map<nat, Write>, orphans: set<nat>, w: nat)
    requires HoldInv(slices, writes, orphans) && w in writes
    ensures HoldInv(slices, writes - {w}, orphans + Slices(writes[w].taken))
  {
    var orphans' := orphans + Slices(writes[w].taken);
    assert forall i :: 0 <= i < |writes[w].taken| ==> writes[w].taken[i].slice in Slices(writes[w].taken);
    forall s | s in slices && slices[s].st == Writing && s !in orphans'
      ensures exists v, i :: Holds(writes - {w}, v, i, s)
    {
      var v: nat, i: nat :| Holds(writes, v, i, s);
      assert Holds(writes - {w}, v, i, s);
    }
  }

  // ---- counting -----------------------------------------------------------------

  function NotDone(slices: map<nat, Slice>): set<nat> { set s | s in slices && slices[s].st != Done }

  /** The slice-writer counter; the flusher takes one off just before it marks a slice Done. */
  ghost predicate CountInv(slices: map<nat, Slice>, flusher: Flusher, counter: nat) {
    counter + (if flusher == Counted then 1 else 0) == |NotDone(slices)|
  }

  lemma CountChange(slices: map<nat, Slice>, s: nat, x: Slice)
    requires s in slices ==> slices[s].st != Done
    ensures |NotDone(slices[s := x])| == |NotDone(slices)| + (if s in slices then 0 else 1) - (if x.st == Done then 1 else 0)
  {
    var before, after := NotDone(slices), NotDone(slices[s := x]);
    if x.st != Done {
      assert after == before + {s};
    } else {
      assert after == before - {s};
    }
  }

  // ---- the whole protocol -------------------------------------------------------

  /** Between requests; working on one; failed and recorded the error; took one off the
      counter; or changed the phase and about to notify the chunk writer, which may be gone. */
  datatype Flusher = Between | Working | Failing | Counted | Notify(c: nat) | NotifyGone

  /** A chunk's finish loop: at the top, scanning a snapshot (slices not looked at, slices
      found done, the slice being asked about), about to wait, asleep, or returned. */
  datatype Loop = AtTop | Scan(todo: set<nat>, done: set<nat>, at: Option<nat>) | ToWait | Asleep | Returned

  datatype State = State(
    slices: map<nat, Slice>,
    members: map<nat, set<nat>>,     // slice_writers by chunk
    reqs: map<Loc, Req>,
    head: nat, tail: nat,            // tickets in the queue
    flusher: Flusher,
    counter: nat,
    error: bool,                     // a flush error is recorded
    permits: set<nat>,               // chunks whose notification is stored
    writes: map<nat, Write>,         // they share the operation lock
    finish: Option<map<nat, Loop>>,  // holds it alone
    orphans: set<nat>)

  datatype Action =
    // a write
    | BeginWrite(w: nat, regions: seq<nat>)
    | Take(w: nat, s: nat)
    | Create(w: nat, s: nat)
    | WriteOk(w: nat)
    | WriteFail(w: nat)
    | AskFlush(w: nat, s: nat, kind: Kind)
    | Send(w: nat)
    | EndWrite(w: nat)
    // the flusher
    | Receive
    | Fail
    | Count
    | Settle
    | SendNotify
    // finish
    | BeginFinish
    | Top(c: nat)
    | Look(c: nat, s: nat)
    | AskFinish(c: nat)
    | PassOver(c: nat)
    | SendFinish(c: nat)
    | EndScan(c: nat)
    | Wait(c: nat)
    | EndFinish

  function Notified(p: State, c: nat): State {
    if p.finish.Some? && c in p.finish.value && p.finish.value[c] == Asleep
    then p.(finish := Some(p.finish.value[c := AtTop]))
    else p.(permits := p.permits + {c})
  }

  /** Where a settled request leaves its slice. */
  function After(f: Flusher, k: Kind): Phase {
    if f == Counted then Done
    else if f == Failing && k != CommitIdle then Dirty
    else Idle
  }

  predicate Resting(x: Phase) { x == Idle || x == Dirty }

  /** make_flush_req: an idle slice can only be committed, a dirty one flushed. */
  predicate MayAsk(x: Phase, k: Kind) { if k == CommitIdle then x == Idle else x == Dirty }

  // -- a write

  /** A recorded flush error is reported once, instead of writing. */
  ghost predicate BeginWriteStep(p: State, w: nat, regions: seq<nat>, p': State) {
    && p.finish.None? && w !in p.writes && regions != []
    && p' == if p.error then p.(error := false) else p.(writes := p.writes[w := Write(regions, [])])
  }

  ghost predicate TakeStep(p: State, w: nat, s: nat, p': State) {
    && w in p.writes && Hand(w) !in p.reqs && p.writes[w].regions != []
    && s in p.slices && Resting(p.slices[s].st) && p.slices[s].chunk == p.writes[w].regions[0]
    && p' == p.(slices := SetSt(p.slices, s, Writing),
                writes := p.writes[w := Write(p.writes[w].regions[1..], p.writes[w].taken + [Claim(s, p.slices[s].st)])])
  }

  ghost predicate CreateStep(p: State, w: nat, s: nat, p': State) {
    && w in p.writes && Hand(w) !in p.reqs && p.writes[w].regions != [] && s !in p.slices
    && var c := p.writes[w].regions[0];
       p' == p.(slices := p.slices[s := Slice(c, Writing)],
                members := p.members[c := (if c in p.members then p.members[c] else {}) + {s}],
                counter := p.counter + 1,
                writes := p.writes[w := Write(p.writes[w].regions[1..], p.writes[w].taken + [Claim(s, Idle)])])
  }

  /** The write has a slice for every region and is at its write loop. */
  ghost predicate AtWriteLoop(p: State, w: nat) {
    && w in p.writes && Hand(w) !in p.reqs && p.writes[w].regions == [] && p.writes[w].taken != []
    && p.writes[w].taken[0].slice in p.slices
  }

  ghost predicate WriteOkStep(p: State, w: nat, p': State) {
    && AtWriteLoop(p, w)
    && p' == p.(slices := SetSt(p.slices, p.writes[w].taken[0].slice, Dirty),
                writes := p.writes[w := p.writes[w].(taken := p.writes[w].taken[1..])])
  }

  /** The first failure ends the write; the slices after it stay claimed. */
  ghost predicate WriteFailStep(p: State, w: nat, p': State) {
    && AtWriteLoop(p, w)
    && var first := p.writes[w].taken[0];
       p' == Notified(p, p.slices[first.slice].chunk).(
               slices := SetSt(p.slices, first.slice, first.before),
               writes := p.writes - {w},
               orphans := p.orphans + Slices(p.writes[w].taken[1..]))
  }

  ghost predicate AskFlushStep(p: State, w: nat, s: nat, k: Kind, p': State) {
    && w in p.writes && Hand(w) !in p.reqs && s in p.slices && MayAsk(p.slices[s].st, k)
    && p' == p.(slices := SetSt(p.slices, s, PhaseOf(k)), reqs := p.reqs[Hand(w) := Req(s, k)])
  }

  ghost predicate SendStep(p: State, l: Loc, p': State) {
    && l in p.reqs
    && p' == p.(reqs := Move(p.reqs, l, Ticket(p.tail)), tail := p.tail + 1)
  }

  ghost predicate EndWriteStep(p: State, w: nat, p': State) {
    && w in p.writes && Hand(w) !in p.reqs && p.writes[w] == Write([], [])
    && p' == p.(writes := p.writes - {w})
  }

  // -- the flusher

  ghost predicate ReceiveStep(p: State, p': State) {
    && p.flusher == Between && p.head < p.tail && Ticket(p.head) in p.reqs
    && p' == p.(reqs := Move(p.reqs, Ticket(p.head), AtFlusher), head := p.head + 1, flusher := Working)
  }

  ghost predicate FailStep(p: State, p': State) {
    p.flusher == Working && p' == p.(error := true, flusher := Failing)
  }

  ghost predicate CountStep(p: State, p': State) {
    && p.flusher == Working && AtFlusher in p.reqs && p.reqs[AtFlusher].kind != FlushBulk && p.counter > 0
    && p' == p.(counter := p.counter - 1, flusher := Counted)
  }

  ghost predicate SettleStep(p: State, p': State) {
    && AtFlusher in p.reqs && p.reqs[AtFlusher].slice in p.slices
    && var r := p.reqs[AtFlusher];
       && (p.flusher == Counted || p.flusher == Failing || (p.flusher == Working && r.kind == FlushBulk))
       && p' == p.(slices := SetSt(p.slices, r.slice, After(p.flusher, r.kind)), reqs := p.reqs - {AtFlusher},
                   flusher := Notify(p.slices[r.slice].chunk))
  }

  ghost predicate NotifyStep(p: State, p': State) {
    || (p.flusher.Notify? && p' == Notified(p, p.flusher.c).(flusher := Between))
    || (p.flusher == NotifyGone && p' == p.(flusher := Between))
  }

  // -- finish

  /** A recorded error is reported once; otherwise one loop per chunk starts. */
  ghost predicate BeginFinishStep(p: State, p': State) {
    && p.finish.None? && p.writes == map[]
    && p' == if p.error then p.(error := false) else p.(finish := Some(map c | c in p.members :: AtTop))
  }

  /** finish returns an error if one is recorded by now, else Ok and drops the chunk writers
      with their stored notifications; one still to be sent then reaches nobody. */
  ghost predicate EndFinishStep(p: State, p': State) {
    && p.finish.Some? && (forall c :: c in p.finish.value ==> p.finish.value[c] == Returned)
    && p' == if p.error then p.(error := false, finish := None)
             else p.(members := map[], permits := {}, finish := None, flusher := if p.flusher.Notify? then NotifyGone else p.flusher)
  }

  ghost predicate AtLoop(p: State, c: nat) { p.finish.Some? && c in p.finish.value && c in p.members }

  function SetLoop(p: State, c: nat, l: Loop): State
    requires p.finish.Some?
  {
    p.(finish := Some(p.finish.value[c := l]))
  }

  ghost predicate TopStep(p: State, c: nat, p': State) {
    && AtLoop(p, c) && p.finish.value[c] == AtTop
    && p' == SetLoop(p, c, if p.error || p.members[c] == {} then Returned else Scan(p.members[c], {}, None))
  }

  /** The finish loop's first look at a slice. */
  function LookAt(l: Loop, s: nat, x: Phase): Loop
    requires l.Scan?
  {
    if x == Writing || x == Flushing then l.(todo := l.todo - {s})
    else if x == Done then l.(todo := l.todo - {s}, done := l.done + {s})
    else l.(todo := l.todo - {s}, at := Some(s))
  }

  ghost predicate LookStep(p: State, c: nat, s: nat, p': State) {
    && AtLoop(p, c) && p.finish.value[c].Scan? && Finish(c) !in p.reqs
    && p.finish.value[c].at.None? && s in p.finish.value[c].todo && s in p.slices
    && p' == SetLoop(p, c, LookAt(p.finish.value[c], s, p.slices[s].st))
  }

  ghost predicate AtAsk(p: State, c: nat) {
    && AtLoop(p, c) && p.finish.value[c].Scan? && p.finish.value[c].at.Some? && Finish(c) !in p.reqs
    && p.finish.value[c].at.value in p.slices
  }

  /** Its second look, inside make_flush_req: a resting slice is asked about ... */
  ghost predicate AskFinishStep(p: State, c: nat, p': State) {
    && AtAsk(p, c) && Resting(p.slices[p.finish.value[c].at.value].st)
    && var s := p.finish.value[c].at.value;
       var k := if p.slices[s].st == Idle then CommitIdle else FlushFull;
       p' == SetLoop(p, c, p.finish.value[c].(at := None)).(
               slices := SetSt(p.slices, s, PhaseOf(k)), reqs := p.reqs[Finish(c) := Req(s, k)])
  }

  /** ... and any other is passed over. */
  ghost predicate PassOverStep(p: State, c: nat, p': State) {
    && AtAsk(p, c) && !Resting(p.slices[p.finish.value[c].at.value].st)
    && p' == SetLoop(p, c, p.finish.value[c].(at := None))
  }

  ghost predicate EndScanStep(p: State, c: nat, p': State) {
    && AtLoop(p, c) && p.finish.value[c].Scan? && Finish(c) !in p.reqs
    && p.finish.value[c].todo == {} && p.finish.value[c].at.None?
    && var done := p.finish.value[c].done;
       var left := p.members[c] - done;
       p' == SetLoop(p, c, if done != {} && left == {} then Returned else ToWait).(members := p.members[c := left])
  }

  /** A stored notification is consumed at once; otherwise the loop sleeps. */
  ghost predicate WaitStep(p: State, c: nat, p': State) {
    && AtLoop(p, c) && p.finish.value[c] == ToWait
    && p' == if c in p.permits then SetLoop(p, c, AtTop).(permits := p.permits - {c}) else SetLoop(p, c, Asleep)
  }

  predicate OfWrite(a: Action) {
    a.BeginWrite? || a.Take? || a.Create? || a.WriteOk? || a.WriteFail? || a.AskFlush? || a.Send? || a.EndWrite?
  }

  predicate OfFlusher(a: Action) { a == Receive || a == Fail || a == Count || a == Settle || a == SendNotify }

  ghost predicate Next(p: State, a: Action, p': State) {
    match a
    case BeginWrite(w, regions) => BeginWriteStep(p, w, regions, p')
    case Take(w, s) => TakeStep(p, w, s, p')
    case Create(w, s) => CreateStep(p, w, s, p')
    case WriteOk(w) => WriteOkStep(p, w, p')
    case WriteFail(w) => WriteFailStep(p, w, p')
    case AskFlush(w, s, k) => AskFlushStep(p, w, s, k, p')
    case Send(w) => SendStep(p, Hand(w), p')
    case EndWrite(w) => EndWriteStep(p, w, p')
    case Receive => ReceiveStep(p, p')
    case Fail => FailStep(p, p')
    case Count => CountStep(p, p')
    case Settle => SettleStep(p, p')
    case SendNotify => NotifyStep(p, p')
    case BeginFinish => BeginFinishStep(p, p')
    case EndFinish => EndFinishStep(p, p')
    case Top(c) => TopStep(p, c, p')
    case Look(c, s) => LookStep(p, c, s, p')
    case AskFinish(c) => AskFinishStep(p, c, p')
    case PassOver(c) => PassOverStep(p, c, p')
    case SendFinish(c) => SendStep(p, Finish(c), p')
    case EndScan(c) => EndScanStep(p, c, p')
    case Wait(c) => WaitStep(p, c, p')
  }

  // ---- invariant ----------------------------------------------------------------

  ghost predicate QueueInv(reqs: map<Loc, Req>, head: nat, tail: nat, flusher: Flusher) {
    && head <= tail
    && (forall t: nat :: Ticket(t) in reqs <==> head <= t < tail)
    && (AtFlusher in reqs <==> flusher == Working || flusher == Failing || flusher == Counted)
    && (flusher == Counted ==> reqs[AtFlusher].kind != FlushBulk)
  }

  ghost predicate HandInv(reqs: map<Loc, Req>, writes: map<nat, Write>, finish: Option<map<nat, Loop>>) {
    && (forall w :: Hand(w) in reqs ==> w in writes)
    && (forall c :: Finish(c) in reqs ==> finish.Some? && c in finish.value && finish.value[c].Scan?)
  }

  /** A slice that is not done is in its chunk's map. */
  ghost predicate MemberInv(slices: map<nat, Slice>, members: map<nat, set<nat>>) {
    && (forall s :: s in slices && slices[s].st != Done ==> slices[s].chunk in members && s in members[slices[s].chunk])
    && (forall c, s :: c in members && s in members[c] ==> s in slices && slices[s].chunk == c)
  }

  /** A completion for the chunk is still to come, or will never come because a write left
      the slice behind. */
  ghost predicate Busy(p: State, c: nat, s: nat) {
    HasReq(p.reqs, s) || p.flusher == Notify(c) || s in p.orphans
  }

  ghost predicate Awaited(p: State, c: nat, s: nat) { Busy(p, c, s) || c in p.permits }

  ghost predicate LoopOk(p: State, c: nat, l: Loop)
    requires c in p.members
  {
    match l
    case AtTop => true
    case Returned => p.error || p.members[c] == {}
    case Scan(todo, done, at) => p.members[c] != {} && ScanOk(p, c, todo, done, at)
    case ToWait => p.members[c] != {} && forall s :: s in p.members[c] ==> Awaited(p, c, s)
    case Asleep => p.members[c] != {} && forall s :: s in p.members[c] ==> Busy(p, c, s)
  }

  /** Every slice already looked at is done, awaited, or the one being asked about. */
  ghost predicate ScanOk(p: State, c: nat, todo: set<nat>, done: set<nat>, at: Option<nat>)
    requires c in p.members
  {
    && todo <= p.members[c]
    && (forall s :: s in done ==> s in p.slices && p.slices[s].st == Done)
    && (forall s :: s in p.members[c] ==> s in todo || s in done || at == Some(s) || Awaited(p, c, s))
    && (at.Some? ==> && at.value in p.members[c] && at.value in p.slices
                     && (Resting(p.slices[at.value].st) || Awaited(p, c, at.value)))
  }

  ghost predicate FinishInv(p: State) {
    p.finish.Some? ==>
      && p.writes == map[]
      && p.finish.value.Keys == p.members.Keys
      && forall c :: c in p.finish.value ==> LoopOk(p, c, p.finish.value[c])
  }

  /** Everything but the finish loops. */
  ghost predicate Core(p: State) {
    && ReqInv(p.slices, p.reqs)
    && HoldInv(p.slices, p.writes, p.orphans)
    && CountInv(p.slices, p.flusher, p.counter)
    && MemberInv(p.slices, p.members)
    && QueueInv(p.reqs, p.head, p.tail, p.flusher)
    && HandInv(p.reqs, p.writes, p.finish)
  }

  ghost predicate Inv(p: State) { Core(p) && FinishInv(p) }

  // ---- writes keep it -----------------------------------------------------------

  lemma TakeOk(p: State, w: nat, s: nat, p': State)
    requires Inv(p) && TakeStep(p, w, s, p')
    ensures Inv(p')
  {
    ReqQuiet(p.slices, p.reqs, s, p.slices[s].(st := Writing));
    HoldClaim(p.slices, p.writes, p.orphans, w, p.writes[w].regions[1..], Claim(s, p.slices[s].st), p.slices[s].(st := Writing));
    CountChange(p.slices, s, p.slices[s].(st := Writing));
  }

  lemma CreateOk(p: State, w: nat, s: nat, p': State)
    requires Inv(p) && CreateStep(p, w, s, p')
    ensures Inv(p')
  {
    var x := Slice(p.writes[w].regions[0], Writing);
    ReqQuiet(p.slices, p.reqs, s, x);
    HoldClaim(p.slices, p.writes, p.orphans, w, p.writes[w].regions[1..], Claim(s, Idle), x);
    CountChange(p.slices, s, x);
    MemberCreate(p.slices, p.members, s, x);
  }

  lemma MemberCreate(slices: map<nat, Slice>, members: map<nat, set<nat>>, s: nat, x: Slice)
    requires MemberInv(slices, members) && s !in slices
    ensures MemberInv(slices[s := x], members[x.chunk := (if x.chunk in members then members[x.chunk] else {}) + {s}])
  {
  }

  lemma WriteOkOk(p: State, w: nat, p': State)
    requires Inv(p) && WriteOkStep(p, w, p')
    ensures Inv(p')
  {
    var s := p.writes[w].taken[0].slice;
    ReqQuiet(p.slices, p.reqs, s, p.slices[s].(st := Dirty));
    HoldRelease(p.slices, p.writes, p.orphans, w, Dirty);
    CountChange(p.slices, s, p.slices[s].(st := Dirty));
  }

  lemma WriteFailOk(p: State, w: nat, p': State)
    requires Inv(p) && WriteFailStep(p, w, p')
    ensures Inv(p')
  {
    var first := p.writes[w].taken[0];
    var x := p.slices[first.slice].(st := first.before);
    ReqQuiet(p.slices, p.reqs, first.slice, x);
    HoldRelease(p.slices, p.writes, p.orphans, w, first.before);
    var writes := p.writes[w := p.writes[w].(taken := p.writes[w].taken[1..])];
    HoldAbandon(SetSt(p.slices, first.slice, first.before), writes, p.orphans, w);
    assert writes - {w} == p.writes - {w};
    CountChange(p.slices, first.slice, x);
  }

  lemma AskFlushOk(p: State, w: nat, s: nat, k: Kind, p': State)
    requires Inv(p) && AskFlushStep(p, w, s, k, p')
    ensures Inv(p')
  {
    var x := p.slices[s].(st := PhaseOf(k));
    ReqAsk(p.slices, p.reqs, s, Hand(w), k);
    HoldQuiet(p.slices, p.writes, p.orphans, s, x);
    CountChange(p.slices, s, x);
  }

  lemma BeginWriteOk(p: State, w: nat, regions: seq<nat>, p': State)
    requires Inv(p) && BeginWriteStep(p, w, regions, p')
    ensures Inv(p')
  {
    assert forall v: nat, i: nat, s: nat :: Holds(p.writes, v, i, s) ==> Holds(p'.writes, v, i, s);
  }

  lemma EndWriteOk(p: State, w: nat, p': State)
    requires Inv(p) && EndWriteStep(p, w, p')
    ensures Inv(p')
  {
    HoldAbandon(p.slices, p.writes, p.orphans, w);
    assert p.orphans + Slices([]) == p.orphans;
  }

  // ---- finish loops while someone else steps --------------------------------------

  /** What a step has to leave alone for the finish loop of chunk `c`. */
  ghost predicate Calm(p: State, p': State, c: nat, l: Loop)
    requires c in p.members && c in p'.members
  {
    && p'.members[c] == p.members[c]
    && (p.error ==> p'.error)
    && (forall s :: s in p.slices ==>
                      && s in p'.slices
                      && (p.slices[s].st == Done ==> p'.slices[s].st == Done)
                      && (Resting(p.slices[s].st) && s in p.members[c] ==> p'.slices[s].st == p.slices[s].st))
    && (forall s :: s in p.members[c] && Awaited(p, c, s) ==> Awaited(p', c, s))
    && (l == Asleep ==> forall s :: s in p.members[c] && Busy(p, c, s) ==> Busy(p', c, s))
  }

  lemma LoopKept(p: State, p': State, c: nat, l: Loop)
    requires c in p.members && c in p'.members && Calm(p, p', c, l) && LoopOk(p, c, l)
    ensures LoopOk(p', c, l)
  {
  }

  /** Finish loops are only ever disturbed one at a time. */
  lemma LoopsKept(p: State, p': State, c: Option<nat>)
    requires FinishInv(p) && p.finish.Some? && p'.finish.Some? && p'.writes == p.writes
    requires p'.finish.value.Keys == p.finish.value.Keys && p'.members.Keys == p.members.Keys
    requires forall d :: d in p.finish.value && Some(d) != c ==>
                           p'.finish.value[d] == p.finish.value[d] && Calm(p, p', d, p.finish.value[d])
    requires c.Some? ==> c.value in p.finish.value && LoopOk(p', c.value, p'.finish.value[c.value])
    ensures FinishInv(p')
  {
    forall d | d in p'.finish.value
      ensures LoopOk(p', d, p'.finish.value[d])
    {
      if Some(d) != c { LoopKept(p, p', d, p.finish.value[d]); }
    }
  }

  /** A step that changes no slice, no map and no request any loop waits for. */
  lemma AllCalm(p: State, p': State)
    requires FinishInv(p) && p'.finish == p.finish && p'.writes == p.writes && p'.members == p.members
    requires p'.slices == p.slices && p'.permits == p.permits && p'.orphans == p.orphans && (p.error ==> p'.error)
    requires (p.flusher.Notify? ==> p'.flusher == p.flusher)
    requires forall s :: HasReq(p.reqs, s) ==> HasReq(p'.reqs, s)
    ensures FinishInv(p')
  {
    if p.finish.Some? { LoopsKept(p, p', None); }
  }

  // ---- requests on their way ------------------------------------------------------

  lemma SendQueue(reqs: map<Loc, Req>, head: nat, tail: nat, flusher: Flusher, l: Loc)
    requires QueueInv(reqs, head, tail, flusher) && l in reqs && (l.Hand? || l.Finish?)
    ensures QueueInv(Move(reqs, l, Ticket(tail)), head, tail + 1, flusher)
  {
  }

  lemma SendOk(p: State, l: Loc, p': State)
    requires Inv(p) && SendStep(p, l, p') && (l.Hand? || l.Finish?)
    ensures Inv(p')
  {
    ReqMove(p.slices, p.reqs, l, Ticket(p.tail));
    SendQueue(p.reqs, p.head, p.tail, p.flusher, l);
    AllCalm(p, p');
  }

  lemma ReceiveQueue(reqs: map<Loc, Req>, head: nat, tail: nat)
    requires QueueInv(reqs, head, tail, Between) && head < tail
    ensures QueueInv(Move(reqs, Ticket(head), AtFlusher), head + 1, tail, Working)
  {
  }

  lemma ReceiveOk(p: State, p': State)
    requires Inv(p) && ReceiveStep(p, p')
    ensures Inv(p')
  {
    ReqMove(p.slices, p.reqs, Ticket(p.head), AtFlusher);
    ReceiveQueue(p.reqs, p.head, p.tail);
    AllCalm(p, p');
  }

  lemma FailOk(p: State, p': State)
    requires Inv(p) && FailStep(p, p')
    ensures Inv(p')
  {
    AllCalm(p, p');
  }

  lemma CountOk(p: State, p': State)
    requires Inv(p) && CountStep(p, p')
    ensures Inv(p')
  {
    AllCalm(p, p');
  }

  // ---- completions ----------------------------------------------------------------

  lemma SettleCore(p: State, p': State)
    requires Core(p) && SettleStep(p, p')
    ensures Core(p')
  {
    var r := p.reqs[AtFlusher];
    var x := p.slices[r.slice].(st := After(p.flusher, r.kind));
    ReqSettle(p.slices, p.reqs, AtFlusher, x.st);
    HoldQuiet(p.slices, p.writes, p.orphans, r.slice, x);
    CountChange(p.slices, r.slice, x);
  }

  /** A settled request no longer counts, but the notification it owes does. */
  lemma SettleCalm(p: State, p': State, c: nat, l: Loop)
    requires Core(p) && SettleStep(p, p') && c in p.members
    ensures Calm(p, p', c, l)
  {
    ReqSettle(p.slices, p.reqs, AtFlusher, After(p.flusher, p.reqs[AtFlusher].kind));
  }

  lemma SettleOk(p: State, p': State)
    requires Inv(p) && SettleStep(p, p')
    ensures Inv(p')
  {
    SettleCore(p, p');
    if p.finish.Some? {
      forall d | d in p.finish.value
        ensures Calm(p, p', d, p.finish.value[d])
      {
        SettleCalm(p, p', d, p.finish.value[d]);
      }
      LoopsKept(p, p', None);
    }
  }

  /** A notification wakes the sleeper or is stored, so the loop it is for never misses it. */
  lemma NotifyCalm(p: State, p': State, c: nat)
    requires NotifyStep(p, p') && AtLoop(p, c)
    ensures p'.finish.Some? && c in p'.finish.value
    ensures p.flusher == Notify(c) ==> p'.finish.value[c] == AtTop || c in p'.permits
    ensures p'.finish.value[c] == AtTop || (p'.finish.value[c] == p.finish.value[c] && Calm(p, p', c, p.finish.value[c]))
  {
  }

  lemma NotifyLoops(p: State, p': State)
    requires FinishInv(p) && NotifyStep(p, p') && p.finish.Some?
    ensures FinishInv(p')
  {
    assert p'.finish.value.Keys == p.finish.value.Keys;
    forall d | d in p.finish.value
      ensures LoopOk(p', d, p'.finish.value[d])
    {
      NotifyCalm(p, p', d);
      if p'.finish.value[d] != AtTop { LoopKept(p, p', d, p.finish.value[d]); }
    }
  }

  lemma NotifyHand(p: State, p': State)
    requires HandInv(p.reqs, p.writes, p.finish) && NotifyStep(p, p')
    ensures HandInv(p'.reqs, p'.writes, p'.finish)
    ensures p' == p.(finish := p'.finish, permits := p'.permits, flusher := Between)
  {
  }

  /** The finish loops' positions and the stored notifications are no part of the core. */
  lemma CoreKept(p: State, p': State)
    requires Core(p) && p' == p.(finish := p'.finish, permits := p'.permits, flusher := p'.flusher)
    requires p'.flusher == p.flusher || ((p.flusher.Notify? || p.flusher == NotifyGone) && p'.flusher == Between)
    requires HandInv(p'.reqs, p'.writes, p'.finish)
    ensures Core(p')
  {
  }

  lemma NotifyOk(p: State, p': State)
    requires Inv(p) && NotifyStep(p, p')
    ensures Inv(p')
  {
    NotifyHand(p, p');
    CoreKept(p, p');
    if p.finish.Some? { NotifyLoops(p, p'); }
  }

  // ---- the finish loop keeps it -----------------------------------------------------

  lemma BeginFinishOk(p: State, p': State)
    requires Inv(p) && BeginFinishStep(p, p')
    ensures Inv(p')
  {
  }

  /** finish returns Ok only when every slice of the file is done. */
  lemma FinishComplete(p: State, p': State)
    requires Inv(p) && EndFinishStep(p, p') && !p.error
    ensures forall s :: s in p.slices ==> p.slices[s].st == Done
  {
    forall c | c in p.members
      ensures p.members[c] == {}
    {
      assert c in p.finish.value;
    }
  }

  lemma EndFinishOk(p: State, p': State)
    requires Inv(p) && EndFinishStep(p, p')
    ensures Inv(p')
  {
    if !p.error { FinishComplete(p, p'); }
  }

  /** Only chunk `c`'s own loop position changes. */
  ghost predicate OwnStep(p: State, p': State, c: nat) {
    && AtLoop(p, c) && p'.finish.Some?
    && p' == p.(finish := p'.finish)
    && p'.finish.value.Keys == p.finish.value.Keys
    && forall d :: d in p.finish.value && d != c ==> p'.finish.value[d] == p.finish.value[d]
  }

  lemma OwnStepOk(p: State, p': State, c: nat)
    requires Inv(p) && OwnStep(p, p', c) && LoopOk(p', c, p'.finish.value[c])
    requires p.finish.value[c].Scan? ==> p'.finish.value[c].Scan? || Finish(c) !in p.reqs
    ensures Inv(p')
  {
    LoopsKept(p, p', Some(c));
  }

  lemma TopOk(p: State, c: nat, p': State)
    requires Inv(p) && TopStep(p, c, p')
    ensures Inv(p')
  {
    OwnStepOk(p, p', c);
  }

  lemma LookLoop(p: State, c: nat, s: nat, p': State)
    requires Inv(p) && LookStep(p, c, s, p')
    ensures OwnStep(p, p', c) && LoopOk(p', c, p'.finish.value[c])
  {
    assert LoopOk(p, c, p.finish.value[c]);
    assert InFlight(p.slices[s].st) ==> HasReq(p.reqs, s);
  }

  lemma LookOk(p: State, c: nat, s: nat, p': State)
    requires Inv(p) && LookStep(p, c, s, p')
    ensures Inv(p')
  {
    LookLoop(p, c, s, p');
    OwnStepOk(p, p', c);
  }

  lemma PassOverOk(p: State, c: nat, p': State)
    requires Inv(p) && PassOverStep(p, c, p')
    ensures Inv(p')
  {
    assert LoopOk(p, c, p.finish.value[c]);
    OwnStepOk(p, p', c);
  }

  lemma AskFinishCore(p: State, c: nat, p': State)
    requires Core(p) && AskFinishStep(p, c, p')
    ensures Core(p')
    ensures forall x :: HasReq(p.reqs, x) || x == p.finish.value[c].at.value ==> HasReq(p'.reqs, x)
  {
    var s := p.finish.value[c].at.value;
    var k := if p.slices[s].st == Idle then CommitIdle else FlushFull;
    var x := p.slices[s].(st := PhaseOf(k));
    ReqAsk(p.slices, p.reqs, s, Finish(c), k);
    HoldQuiet(p.slices, p.writes, p.orphans, s, x);
    CountChange(p.slices, s, x);
    ReqAdded(p.reqs, Finish(c), Req(s, k));
  }

  lemma ReqAdded(reqs: map<Loc, Req>, l: Loc, r: Req)
    requires l !in reqs
    ensures forall x :: HasReq(reqs, x) || x == r.slice ==> HasReq(reqs[l := r], x)
  {
    var reqs' := reqs[l := r];
    assert l in reqs' && reqs'[l].slice == r.slice;
    forall x | HasReq(reqs, x)
      ensures HasReq(reqs', x)
    {
      var m :| m in reqs && reqs[m].slice == x;
      assert m in reqs' && reqs'[m].slice == x;
    }
  }

  lemma AskFinishCalm(p: State, c: nat, p': State, d: nat, l: Loop)
    requires Core(p) && AskFinishStep(p, c, p') && d in p.members && d != c && p.finish.value[c].at.value in p.members[c]
    requires forall x :: HasReq(p.reqs, x) ==> HasReq(p'.reqs, x)
    ensures Calm(p, p', d, l)
  {
  }

  lemma AskFinishLoop(p: State, c: nat, p': State)
    requires Inv(p) && AskFinishStep(p, c, p')
    requires forall x :: HasReq(p.reqs, x) || x == p.finish.value[c].at.value ==> HasReq(p'.reqs, x)
    ensures LoopOk(p', c, p'.finish.value[c]) && p.finish.value[c].at.value in p.members[c]
  {
    assert LoopOk(p, c, p.finish.value[c]);
  }

  lemma AskFinishOk(p: State, c: nat, p': State)
    requires Inv(p) && AskFinishStep(p, c, p')
    ensures Inv(p')
  {
    AskFinishCore(p, c, p');
    AskFinishLoop(p, c, p');
    forall d | d in p.finish.value && d != c
      ensures Calm(p, p', d, p.finish.value[d])
    {
      AskFinishCalm(p, c, p', d, p.finish.value[d]);
    }
    LoopsKept(p, p', Some(c));
  }

  lemma EndScanLoop(p: State, c: nat, p': State)
    requires FinishInv(p) && EndScanStep(p, c, p')
    ensures LoopOk(p', c, p'.finish.value[c])
    ensures forall s :: s in p.members[c] && s !in p'.members[c] ==> s in p.slices && p.slices[s].st == Done
  {
    assert LoopOk(p, c, p.finish.value[c]);
  }

  lemma EndScanCalm(p: State, c: nat, p': State, d: nat, l: Loop)
    requires EndScanStep(p, c, p') && d in p.members && d != c
    ensures Calm(p, p', d, l)
  {
  }

  lemma MemberForget(slices: map<nat, Slice>, members: map<nat, set<nat>>, c: nat, left: set<nat>)
    requires MemberInv(slices, members) && c in members && left <= members[c]
    requires forall s :: s in members[c] && s !in left ==> s in slices && slices[s].st == Done
    ensures MemberInv(slices, members[c := left])
  {
  }

  lemma EndScanCore(p: State, c: nat, p': State)
    requires Core(p) && EndScanStep(p, c, p')
    requires forall s :: s in p.members[c] && s !in p'.members[c] ==> s in p.slices && p.slices[s].st == Done
    ensures Core(p')
  {
    MemberForget(p.slices, p.members, c, p'.members[c]);
  }

  lemma EndScanOk(p: State, c: nat, p': State)
    requires Inv(p) && EndScanStep(p, c, p')
    ensures Inv(p')
  {
    EndScanLoop(p, c, p');
    EndScanCore(p, c, p');
    forall d | d in p.finish.value && d != c
      ensures Calm(p, p', d, p.finish.value[d])
    {
      EndScanCalm(p, c, p', d, p.finish.value[d]);
    }
    LoopsKept(p, p', Some(c));
  }

  lemma WaitLoop(p: State, c: nat, p': State)
    requires FinishInv(p) && WaitStep(p, c, p')
    ensures LoopOk(p', c, p'.finish.value[c])
  {
    assert LoopOk(p, c, p.finish.value[c]);
  }

  lemma WaitCalm(p: State, c: nat, p': State, d: nat, l: Loop)
    requires WaitStep(p, c, p') && d in p.members && d != c
    ensures Calm(p, p', d, l)
  {
  }

  lemma WaitHand(p: State, c: nat, p': State)
    requires HandInv(p.reqs, p.writes, p.finish) && WaitStep(p, c, p')
    ensures HandInv(p'.reqs, p'.writes, p'.finish)
    ensures p' == p.(finish := p'.finish, permits := p'.permits)
  {
  }

  lemma WaitOk(p: State, c: nat, p': State)
    requires Inv(p) && WaitStep(p, c, p')
    ensures Inv(p')
  {
    WaitHand(p, c, p');
    CoreKept(p, p');
    WaitLoop(p, c, p');
    forall d | d in p.finish.value && d != c
      ensures Calm(p, p', d, p.finish.value[d])
    {
      WaitCalm(p, c, p', d, p.finish.value[d]);
    }
    LoopsKept(p, p', Some(c));
  }

  // ---- runs -------------------------------------------------------------------------

  lemma WriteStepOk(p: State, a: Action, p': State)
    requires Inv(p) && Next(p, a, p') && OfWrite(a)
    ensures Inv(p')
  {
    match a
    case BeginWrite(w, regions) => BeginWriteOk(p, w, regions, p');
    case Take(w, s) => TakeOk(p, w, s, p');
    case Create(w, s) => CreateOk(p, w, s, p');
    case WriteOk(w) => WriteOkOk(p, w, p');
    case WriteFail(w) => WriteFailOk(p, w, p');
    case AskFlush(w, s, k) => AskFlushOk(p, w, s, k, p');
    case Send(w) => SendOk(p, Hand(w), p');
    case EndWrite(w) => EndWriteOk(p, w, p');
  }

  lemma FlusherStepOk(p: State, a: Action, p': State)
    requires Inv(p) && Next(p, a, p') && OfFlusher(a)
    ensures Inv(p')
  {
    match a
    case Receive => ReceiveOk(p, p');
    case Fail => FailOk(p, p');
    case Count => CountOk(p, p');
    case Settle => SettleOk(p, p');
    case SendNotify => NotifyOk(p, p');
  }

  lemma FinishStepOk(p: State, a: Action, p': State)
    requires Inv(p) && Next(p, a, p') && !OfWrite(a) && !OfFlusher(a)
    ensures Inv(p')
  {
    match a
    case BeginFinish => BeginFinishOk(p, p');
    case EndFinish => EndFinishOk(p, p');
    case Top(c) => TopOk(p, c, p');
    case Look(c, s) => LookOk(p, c, s, p');
    case AskFinish(c) => AskFinishOk(p, c, p');
    case PassOver(c) => PassOverOk(p, c, p');
    case SendFinish(c) => SendOk(p, Finish(c), p');
    case EndScan(c) => EndScanOk(p, c, p');
    case Wait(c) => WaitOk(p, c, p');
  }

  lemma NextOk(p: State, a: Action, p': State)
    requires Inv(p) && Next(p, a, p')
    ensures Inv(p')
  {
    if OfWrite(a) {
      WriteStepOk(p, a, p');
    } else if OfFlusher(a) {
      FlusherStepOk(p, a, p');
    } else {
      FinishStepOk(p, a, p');
    }
  }
}
