/** The stage cache under concurrency, failure and restart: staging, reading, migrating to
    remote storage, and fsync, interleaved one atomic access at a time
    (components/storage/src/cache/file_cache.rs, components/vfs/src/writer.rs).

    A step of an operation is one access to shared state: the local directory, remote
    storage, the index, the byte counter. The policy cache may forget an entry at any moment.
    The lock that serialises migrations of one generation is not needed by any property here,
    so the model also allows the interleavings it rules out. */
module StageCache {
  import opened Common
  import opened SliceTypes

  /** A block's key determines its bytes, and `max` bounds the bytes staged locally. */
  datatype Config = Config(content: SliceKey -> seq<byte>, max: nat)

  ghost predicate WellFormedConfig(c: Config) {
    forall k :: |c.content(k)| == k.size
  }

  datatype Shared = Shared(
    local: map<SliceKey, seq<byte>>,
    remote: map<SliceKey, seq<byte>>,
    index: map<SliceKey, nat>,       // staged_index: generation by key
    policy: map<SliceKey, nat>,      // the moka cache
    nextGen: nat,
    bytes: nat,                      // staged_bytes
    durable: set<SliceKey>,          // stage returned Ok
    published: set<nat>,             // slices this writer has recorded as published
    pending: set<nat>)               // published_slices: not yet known to be remote

  // ---- what a step can do to shared state ---------------------------------------

  datatype Effect =
    | Nothing
    | Reserve(n: nat)
    | Release(n: nat)
    | Return(key: SliceKey)
    | WriteLocal(key: SliceKey)
    | Register(key: SliceKey)
    | PutIndex(key: SliceKey, gen: nat)
    | Unindex(key: SliceKey)
    | Upload(key: SliceKey)
    | DeleteLocal(key: SliceKey)
    | Synced(id: nat)

  function Apply(c: Config, s: Shared, e: Effect): Shared {
    match e
    case Nothing => s
    case Reserve(n) => s.(bytes := s.bytes + n)
    case Release(n) => s.(bytes := if n <= s.bytes then s.bytes - n else 0)
    case Return(key) => s.(durable := s.durable + {key})
    case WriteLocal(key) => s.(local := s.local[key := c.content(key)])
    case Register(key) => s.(policy := s.policy[key := s.nextGen], nextGen := s.nextGen + 1)
    case PutIndex(key, gen) => s.(index := s.index[key := gen])
    case Unindex(key) => s.(index := s.index - {key})
    case Upload(key) => if key in s.local then s.(remote := s.remote[key := s.local[key]]) else s
    case DeleteLocal(key) => s.(local := s.local - {key})
    case Synced(id) => s.(pending := s.pending - {id})
  }

  ghost predicate Somewhere(s: Shared, key: SliceKey) { key in s.local || key in s.remote }

  ghost predicate AllRemote(s: Shared, id: nat) {
    forall k :: k in s.durable && k.id == id ==> k in s.remote
  }

  ghost predicate Faithful(c: Config, s: Shared) {
    && (forall k :: k in s.local ==> s.local[k] == c.content(k))
    && (forall k :: k in s.remote ==> s.remote[k] == c.content(k))
  }

  /** Nothing known to the index, the policy cache or a returned stage is lost; leaving the
      index means being remote; leaving the fsync set means being remote. */
  ghost predicate Safe(s: Shared) {
    && (forall k :: k in s.index ==> Somewhere(s, k))
    && (forall k :: k in s.policy ==> Somewhere(s, k))
    && (forall k :: k in s.durable ==> k in s.index || k in s.remote)
    && (forall id :: id in s.published && id !in s.pending ==> AllRemote(s, id))
    && s.pending <= s.published
  }

  /** When an effect is harmless. */
  ghost predicate Harmless(s: Shared, e: Effect) {
    match e
    case Return(key) => key.id !in s.published && (key in s.index || key in s.remote)
    case Register(key) => Somewhere(s, key)
    case PutIndex(key, gen) => key.id !in s.published && Somewhere(s, key)
    case Unindex(key) => key in s.remote
    case DeleteLocal(key) => key in s.remote
    case Synced(id) => AllRemote(s, id)
    case _ => true
  }

  /** What other operations may rely on across anyone's step. */
  ghost predicate Evolves(s: Shared, s': Shared) {
    && (forall k :: k in s.remote ==> k in s'.remote)
    && (forall k :: Somewhere(s, k) ==> Somewhere(s', k))
    && (forall k :: k in s.durable ==> k in s'.durable)
    && (forall k :: k in s'.durable && k !in s.durable ==> k.id !in s'.published)
    && (forall k :: k in s.index ==> k in s'.index || k in s'.remote)
    && (forall k :: k in s'.index && k.id in s'.published ==> k in s.index && s'.index[k] == s.index[k])
    && s.published <= s'.published
  }

  lemma HarmlessEvolves(c: Config, s: Shared, e: Effect)
    requires Harmless(s, e)
    ensures Evolves(s, Apply(c, s, e)) && Apply(c, s, e).published == s.published
  {
  }

  lemma AllRemoteKept(s: Shared, s': Shared, id: nat)
    requires Evolves(s, s') && AllRemote(s, id) && id in s'.published
    ensures AllRemote(s', id)
  {
  }

  lemma HarmlessSafe(c: Config, s: Shared, e: Effect)
    requires Safe(s) && Harmless(s, e)
    ensures Safe(Apply(c, s, e))
  {
    HarmlessEvolves(c, s, e);
    var s' := Apply(c, s, e);
    forall id | id in s'.published && id !in s'.pending
      ensures AllRemote(s', id)
    {
      if !(e.Synced? && e.id == id) { AllRemoteKept(s, s', id); }
    }
  }

  lemma HarmlessFaithful(c: Config, s: Shared, e: Effect)
    requires Faithful(c, s)
    ensures Faithful(c, Apply(c, s, e))
  {
  }

  // ---- operations ---------------------------------------------------------------

  /** Where one migration attempt is. */
  datatype Stop = Queued | Current | Copied | Confirmed | Deleted | Unindexed

  datatype Migration = Migration(key: SliceKey, gen: nat, at: Stop)

  /** Flushing one published slice: blocks still to do, and the one being migrated. */
  datatype Flush = Flush(id: nat, keys: set<SliceKey>, mig: Option<Migration>)

  datatype Op =
    | StageAsked(key: SliceKey)
    | StageMissed(key: SliceKey)
    | StageReserved(key: SliceKey)
    | StageWritten(key: SliceKey)
    | StageGot(key: SliceKey, gen: nat)
    | StageReplaced(key: SliceKey)
    | StageFailed(key: SliceKey)
    | StageIndexed(key: SliceKey)
    // get_range; `asked` is whether the key had been staged when the read began
    | GetIndexed(key: SliceKey, asked: bool)
    | GetMissing(key: SliceKey, asked: bool)
    | GetConfirmed(key: SliceKey, asked: bool)
    | GetUnindexed(key: SliceKey, asked: bool)
    | GetDone(key: SliceKey, asked: bool, result: Option<seq<byte>>)
    | GetFailed(key: SliceKey, asked: bool)      // reported as lost: neither local nor remote
    | GetErrored(key: SliceKey, asked: bool)     // local or remote storage answered with an error
    | Migrating(mig: Migration)
    // sync_remote; `since` is what had been published when it began
    | Syncing(since: set<nat>, todo: set<nat>, cur: Option<Flush>)
    | SyncDone(since: set<nat>)

  predicate Staging(op: Op) {
    op.StageAsked? || op.StageMissed? || op.StageReserved? || op.StageWritten? || op.StageGot? || op.StageReplaced? || op.StageFailed? || op.StageIndexed?
  }

  predicate IsCurrent(s: Shared, m: Migration) { m.key in s.index && s.index[m.key] == m.gen }

  predicate RemoteConfirmed(s: Shared, key: SliceKey) { key in s.remote && |s.remote[key]| == key.size }

  /** A migration attempt goes on, returns Ok, or returns an error. */
  datatype MigResult = Goes(mig: Migration) | Returns | Fails

  predicate MigAllowed(s: Shared, m: Migration, e: Effect, r: MigResult) {
    match m.at
    case Queued => e == Nothing && r == if IsCurrent(s, m) then Goes(m.(at := Current)) else Returns
    case Current => (e == Nothing && r == Fails) || (m.key in s.local && e == Upload(m.key) && r == Goes(m.(at := Copied)))
    case Copied => e == Nothing && (r == Fails || (RemoteConfirmed(s, m.key) && r == Goes(m.(at := Confirmed))))
    case Confirmed => (e == Nothing && r == Fails) || (e == DeleteLocal(m.key) && r == Goes(m.(at := Deleted)))
    case Deleted =>
      if IsCurrent(s, m) then e == Unindex(m.key) && r == Goes(m.(at := Unindexed)) else e == Nothing && r == Returns
    case Unindexed => e == Release(m.key.size) && r == Returns
  }

  predicate StageAllowed(c: Config, s: Shared, op: Op, e: Effect, next: Option<Op>) {
    match op
    case StageAsked(key) => e == Nothing && next == Some(if key in s.index then StageIndexed(key) else StageMissed(key))
    case StageMissed(key) =>
      || (e == Nothing && next == None)              // no room
      || (s.bytes + key.size <= c.max && e == Reserve(key.size) && next == Some(StageReserved(key)))
    case StageReserved(key) =>
      || (e == Nothing && next == Some(StageFailed(key)))
      || (key in s.policy && e == Nothing && next == Some(StageGot(key, s.policy[key])))
      || (e == WriteLocal(key) && next == Some(StageWritten(key)))
    case StageWritten(key) => e == Register(key) && next == Some(StageGot(key, s.nextGen))
    case StageGot(key, gen) => e == PutIndex(key, gen) && next == Some(if key in s.index then StageReplaced(key) else StageIndexed(key))
    case StageReplaced(key) => e == Release(key.size) && next == Some(StageIndexed(key))
    case StageFailed(key) => e == Release(key.size) && next == None
    case StageIndexed(key) => e == Return(key) && next == None
    case _ => false
  }

  predicate GetAllowed(s: Shared, op: Op, e: Effect, next: Option<Op>) {
    match op
    case GetIndexed(key, asked) =>
      && e == Nothing
      && (|| next == Some(GetErrored(key, asked))
          || next == Some(if key in s.local then GetDone(key, asked, Some(s.local[key])) else GetMissing(key, asked)))
    case GetMissing(key, asked) =>
      && e == Nothing
      && (|| next == Some(GetErrored(key, asked))
          || next == Some(if RemoteConfirmed(s, key) then GetConfirmed(key, asked) else GetFailed(key, asked)))
    case GetConfirmed(key, asked) =>
      if key in s.index then e == Unindex(key) && next == Some(GetUnindexed(key, asked))
      else e == Nothing && next == Some(GetDone(key, asked, None))
    case GetUnindexed(key, asked) => e == Release(key.size) && next == Some(GetDone(key, asked, None))
    case _ => false
  }

  function IndexedOf(s: Shared, id: nat): set<SliceKey> { set k | k in s.index && k.id == id }

  ghost predicate SyncAllowed(s: Shared, op: Op, e: Effect, next: Option<Op>)
    requires op.Syncing?
  {
    match op.cur
    case None =>
      && e == Nothing
      && (|| (op.todo == {} && next == Some(SyncDone(op.since)))
          || exists id :: id in op.todo && next == Some(Syncing(op.since, op.todo - {id}, Some(Flush(id, IndexedOf(s, id), None)))))
    case Some(f) =>
      if f.mig.None? then
        || (f.keys == {} && e == Synced(f.id) && next == Some(Syncing(op.since, op.todo, None)))
        || (e == Nothing && exists key :: key in f.keys && next == Some(op.(cur := Some(PickBlock(s, f, key)))))
      else
        exists r :: MigAllowed(s, f.mig.value, e, r) && next == AfterMig(op, f, r)
  }

  function PickBlock(s: Shared, f: Flush, key: SliceKey): Flush {
    Flush(f.id, f.keys - {key}, if key in s.index then Some(Migration(key, s.index[key], Queued)) else None)
  }

  /** A failed migration abandons the sync; the slice stays in the fsync set. */
  function AfterMig(op: Op, f: Flush, r: MigResult): Option<Op>
    requires op.Syncing?
  {
    match r
    case Goes(m) => Some(op.(cur := Some(f.(mig := Some(m)))))
    case Returns => Some(op.(cur := Some(f.(mig := None))))
    case Fails => None
  }

  ghost predicate Allowed(c: Config, s: Shared, op: Op, e: Effect, next: Option<Op>) {
    if Staging(op) then StageAllowed(c, s, op, e, next)
    else if op.Migrating? then
      exists r :: MigAllowed(s, op.mig, e, r) && next == if r.Goes? then Some(Migrating(r.mig)) else None
    else if op.Syncing? then SyncAllowed(s, op, e, next)
    else GetAllowed(s, op, e, next)
  }

  // ---- what an operation relies on ----------------------------------------------

  ghost predicate MigOk(s: Shared, m: Migration) {
    m.at != Queued && m.at != Current ==> m.key in s.remote
  }

  ghost predicate FlushOk(s: Shared, f: Flush) {
    && f.id in s.published
    && (forall k :: k in f.keys ==> k.id == f.id)
    && (forall k :: k in s.durable && k.id == f.id ==>
                      k in s.remote || k in f.keys || (f.mig.Some? && f.mig.value.key == k))
    && (f.mig.Some? ==>
          && MigOk(s, f.mig.value)
          && f.mig.value.key.id == f.id
          && (f.mig.value.key in s.index ==> s.index[f.mig.value.key] == f.mig.value.gen))
  }

  ghost predicate StageOk(s: Shared, op: Op)
    requires Staging(op)
  {
    && op.key.id !in s.published
    && (op.StageWritten? || op.StageGot? ==> Somewhere(s, op.key))
    && (op.StageReplaced? || op.StageIndexed? ==> op.key in s.index || op.key in s.remote)
  }

  ghost predicate GetOk(c: Config, s: Shared, op: Op) {
    match op
    case GetIndexed(key, asked) => asked ==> key in s.durable
    case GetMissing(key, asked) => asked ==> key in s.remote
    case GetConfirmed(key, asked) => key in s.remote
    case GetUnindexed(key, asked) => key in s.remote
    case GetDone(key, asked, result) =>
      && (result.Some? ==> result.value == c.content(key))
      && (result.None? && asked ==> key in s.remote)
    case GetFailed(key, asked) => !asked
    case _ => true
  }

  ghost predicate SyncOk(s: Shared, op: Op) {
    match op
    case Syncing(since, todo, cur) =>
      && since <= s.published && todo <= s.published
      && (forall id :: id in since ==> AllRemote(s, id) || id in todo || (cur.Some? && cur.value.id == id))
      && (cur.Some? ==> FlushOk(s, cur.value))
    case SyncDone(since) => since <= s.published && forall id :: id in since ==> AllRemote(s, id)
    case _ => true
  }

  ghost predicate OpOk(c: Config, s: Shared, op: Op) {
    if Staging(op) then StageOk(s, op)
    else if op.Migrating? then MigOk(s, op.mig)
    else if op.Syncing? || op.SyncDone? then SyncOk(s, op)
    else GetOk(c, s, op)
  }

  lemma FlushKept(s: Shared, s': Shared, f: Flush)
    requires Evolves(s, s') && FlushOk(s, f)
    ensures FlushOk(s', f)
  {
  }

  lemma SyncKept(s: Shared, s': Shared, op: Op)
    requires Evolves(s, s') && SyncOk(s, op)
    ensures SyncOk(s', op)
  {
    if op.Syncing? && op.cur.Some? { FlushKept(s, s', op.cur.value); }
    forall id | id in s.published && AllRemote(s, id)
      ensures AllRemote(s', id)
    {
      AllRemoteKept(s, s', id);
    }
  }

  /** Whatever step anyone takes, an operation can go on relying on what it relied on. */
  lemma Undisturbed(c: Config, s: Shared, s': Shared, op: Op)
    requires Evolves(s, s') && OpOk(c, s, op)
    requires Staging(op) ==> op.key.id !in s'.published
    ensures OpOk(c, s', op)
  {
    if op.Syncing? || op.SyncDone? { SyncKept(s, s', op); }
  }

  // ---- every allowed step is harmless -------------------------------------------

  lemma StageStepOk(c: Config, s: Shared, op: Op, e: Effect, next: Option<Op>)
    requires Safe(s) && Staging(op) && StageOk(s, op) && StageAllowed(c, s, op, e, next)
    ensures Harmless(s, e)
    ensures next.Some? ==> Staging(next.value) && StageOk(Apply(c, s, e), next.value)
  {
  }

  lemma GetStepOk(c: Config, s: Shared, op: Op, e: Effect, next: Option<Op>)
    requires WellFormedConfig(c) && Faithful(c, s) && Safe(s) && GetOk(c, s, op) && GetAllowed(s, op, e, next)
    ensures Harmless(s, e)
    ensures next.Some? && OpOk(c, Apply(c, s, e), next.value)
  {
  }

  lemma MigStepOk(c: Config, s: Shared, m: Migration, e: Effect, r: MigResult)
    requires Safe(s) && MigOk(s, m) && MigAllowed(s, m, e, r)
    ensures Harmless(s, e)
    ensures r.Goes? ==> MigOk(Apply(c, s, e), r.mig) && r.mig.key == m.key && r.mig.gen == m.gen
    ensures r.Returns? ==> m.key in s.remote || !IsCurrent(s, m)
  {
  }

  lemma FlushStepOk(c: Config, s: Shared, f: Flush, e: Effect, r: MigResult)
    requires Safe(s) && FlushOk(s, f) && f.mig.Some? && MigAllowed(s, f.mig.value, e, r)
    ensures Harmless(s, e)
    ensures r.Goes? ==> FlushOk(Apply(c, s, e), f.(mig := Some(r.mig)))
    ensures r.Returns? ==> FlushOk(Apply(c, s, e), f.(mig := None))
  {
    MigStepOk(c, s, f.mig.value, e, r);
    HarmlessEvolves(c, s, e);
    FlushKept(s, Apply(c, s, e), f);
  }

  lemma SyncStepOk(c: Config, s: Shared, op: Op, e: Effect, next: Option<Op>)
    requires Safe(s) && op.Syncing? && SyncOk(s, op) && SyncAllowed(s, op, e, next)
    ensures Harmless(s, e)
    ensures next.Some? ==> (next.value.Syncing? || next.value.SyncDone?) && SyncOk(Apply(c, s, e), next.value)
  {
    if op.cur.Some? && op.cur.value.mig.Some? {
      var f := op.cur.value;
      var r :| MigAllowed(s, f.mig.value, e, r) && next == AfterMig(op, f, r);
      FlushStepOk(c, s, f, e, r);
      HarmlessEvolves(c, s, e);
      SyncKept(s, Apply(c, s, e), op);
    } else if op.cur.Some? && e.Synced? {
      assert AllRemote(s, op.cur.value.id);
      HarmlessEvolves(c, s, e);
      SyncKept(s, Apply(c, s, e), op);
    }
  }

  lemma StepOk(c: Config, s: Shared, op: Op, e: Effect, next: Option<Op>)
    requires WellFormedConfig(c) && Faithful(c, s) && Safe(s) && OpOk(c, s, op) && Allowed(c, s, op, e, next)
    ensures Harmless(s, e)
    ensures next.Some? ==> OpOk(c, Apply(c, s, e), next.value)
  {
    if Staging(op) {
      StageStepOk(c, s, op, e, next);
    } else if op.Migrating? {
      var r :| MigAllowed(s, op.mig, e, r) && next == if r.Goes? then Some(Migrating(r.mig)) else None;
      MigStepOk(c, s, op.mig, e, r);
    } else if op.Syncing? {
      SyncStepOk(c, s, op, e, next);
    } else {
      GetStepOk(c, s, op, e, next);
    }
  }

  // ---- byte accounting ----------------------------------------------------------

  ghost function SumSizes(keys: set<SliceKey>): nat {
    if keys == {} then 0 else var k :| k in keys; k.size + SumSizes(keys - {k})
  }

  lemma {:induction false} SumSizesRemove(keys: set<SliceKey>, k: SliceKey)
    requires k in keys
    ensures SumSizes(keys) == k.size + SumSizes(keys - {k})
  {
    var j :| j in keys && SumSizes(keys) == j.size + SumSizes(keys - {j});
    if j != k {
      SumSizesRemove(keys - {j}, k);
      SumSizesRemove(keys - {k}, j);
      assert keys - {j} - {k} == keys - {k} - {j};
    }
  }

  /** Bytes an operation has reserved and not yet handed to the index, or has taken out of
      the index and not yet given back. */
  function Owed(op: Op): nat {
    match op
    case StageReserved(key) => key.size
    case StageWritten(key) => key.size
    case StageGot(key, _) => key.size
    case StageReplaced(key) => key.size
    case StageFailed(key) => key.size
    case GetUnindexed(key, _) => key.size
    case Migrating(m) => OwedBy(m)
    case Syncing(_, _, cur) => if cur.Some? && cur.value.mig.Some? then OwedBy(cur.value.mig.value) else 0
    case _ => 0
  }

  function OwedBy(m: Migration): nat { if m.at == Unindexed then m.key.size else 0 }

  function OwedNext(next: Option<Op>): nat { if next.Some? then Owed(next.value) else 0 }

  ghost function SumOwed(ops: map<nat, Op>): nat
    decreases |ops|
  {
    if ops == map[] then 0 else var i :| i in ops; Owed(ops[i]) + SumOwed(ops - {i})
  }

  lemma {:induction false} SumOwedRemove(ops: map<nat, Op>, i: nat)
    requires i in ops
    ensures SumOwed(ops) == Owed(ops[i]) + SumOwed(ops - {i})
    decreases |ops|
  {
    var j :| j in ops && SumOwed(ops) == Owed(ops[j]) + SumOwed(ops - {j});
    if j != i {
      SumOwedRemove(ops - {j}, i);
      SumOwedRemove(ops - {i}, j);
      assert ops - {j} - {i} == ops - {i} - {j};
    }
  }

  function SetOp(ops: map<nat, Op>, i: nat, next: Option<Op>): map<nat, Op> {
    if next.Some? then ops[i := next.value] else ops - {i}
  }

  lemma SumOwedSet(ops: map<nat, Op>, i: nat, next: Option<Op>)
    ensures SumOwed(SetOp(ops, i, next)) == SumOwed(ops) - (if i in ops then Owed(ops[i]) else 0) + OwedNext(next)
  {
    if i in ops { SumOwedRemove(ops, i); } else { assert ops - {i} == ops; }
    if next.Some? {
      SumOwedRemove(SetOp(ops, i, next), i);
      assert SetOp(ops, i, next) - {i} == ops - {i};
    }
  }

  /** How an effect moves the bytes counted by the index. */
  lemma EffectBytes(c: Config, s: Shared, e: Effect)
    ensures SumSizes(Apply(c, s, e).index.Keys) ==
            if e.PutIndex? && e.key !in s.index then SumSizes(s.index.Keys) + e.key.size
            else if e.Unindex? && e.key in s.index then SumSizes(s.index.Keys) - e.key.size
            else SumSizes(s.index.Keys)
  {
    var s' := Apply(c, s, e);
    if e.PutIndex? {
      assert s'.index.Keys == s.index.Keys + {e.key};
      if e.key in s.index {
        assert s'.index.Keys == s.index.Keys;
      } else {
        SumSizesRemove(s'.index.Keys, e.key);
        assert s'.index.Keys - {e.key} == s.index.Keys;
      }
    } else if e.Unindex? {
      assert s'.index.Keys == s.index.Keys - {e.key};
      if e.key in s.index { SumSizesRemove(s.index.Keys, e.key); } else { assert s'.index.Keys == s.index.Keys; }
    }
  }

  /** Every allowed step moves the counter by exactly what it moves between the index and the
      operation's own account. */
  ghost predicate Balanced(s: Shared, owed: nat, e: Effect, owed': nat) {
    match e
    case Reserve(n) => owed' == owed + n
    case Release(n) => owed == owed' + n
    case PutIndex(key, _) => owed == key.size && owed' == if key in s.index then owed else 0
    case Unindex(key) => owed == 0 && key in s.index && owed' == key.size
    case _ => owed' == owed
  }

  lemma MigBalanced(s: Shared, m: Migration, e: Effect, r: MigResult)
    requires MigAllowed(s, m, e, r)
    ensures Balanced(s, OwedBy(m), e, if r.Goes? then OwedBy(r.mig) else 0)
  {
  }

  lemma SyncBalanced(s: Shared, op: Op, e: Effect, next: Option<Op>)
    requires op.Syncing? && SyncAllowed(s, op, e, next)
    ensures Balanced(s, Owed(op), e, OwedNext(next))
  {
    if op.cur.Some? && op.cur.value.mig.Some? {
      var r :| MigAllowed(s, op.cur.value.mig.value, e, r) && next == AfterMig(op, op.cur.value, r);
      MigBalanced(s, op.cur.value.mig.value, e, r);
    }
  }

  lemma StageBalanced(c: Config, s: Shared, op: Op, e: Effect, next: Option<Op>)
    requires Staging(op) && StageAllowed(c, s, op, e, next)
    ensures Balanced(s, Owed(op), e, OwedNext(next))
  {
  }

  lemma GetBalanced(s: Shared, op: Op, e: Effect, next: Option<Op>)
    requires GetAllowed(s, op, e, next)
    ensures Balanced(s, Owed(op), e, OwedNext(next))
  {
  }

  lemma StepBalanced(c: Config, s: Shared, op: Op, e: Effect, next: Option<Op>)
    requires Allowed(c, s, op, e, next)
    ensures Balanced(s, Owed(op), e, OwedNext(next))
  {
    if Staging(op) {
      StageBalanced(c, s, op, e, next);
    } else if op.Migrating? {
      var r :| MigAllowed(s, op.mig, e, r) && next == if r.Goes? then Some(Migrating(r.mig)) else None;
      MigBalanced(s, op.mig, e, r);
    } else if op.Syncing? {
      SyncBalanced(s, op, e, next);
    } else {
      GetBalanced(s, op, e, next);
    }
  }

  // ---- the whole system ---------------------------------------------------------

  /** `recovered` is what the last start found staged; `up` is false from a crash until a
      recovery succeeds. */
  datatype State = State(shared: Shared, ops: map<nat, Op>, recovered: nat, up: bool)

  datatype Action =
    | Begin(op: Op)
    | Do(e: Effect, next: Option<Op>)
    | Forget(key: SliceKey)          // the policy cache evicts
    | Publish(id: nat)
    | Crash
    | Recover                        // the stage directory is read back
    | RecoverFails                   // it holds something unreadable; another start may follow

  ghost predicate CanBegin(s: Shared, op: Op) {
    match op
    case StageAsked(key) => key.id !in s.published
    case GetIndexed(key, asked) => key in s.index && asked == (key in s.durable)
    case GetDone(key, asked, result) => key !in s.index && asked == (key in s.durable) && result == None
    case Migrating(m) => m.at == Queued
    case Syncing(since, todo, cur) => since == s.published && todo == s.pending && cur == None
    case _ => false
  }

  ghost predicate Next(c: Config, s: State, i: nat, a: Action, s': State) {
    match a
    case Begin(op) => s.up && i !in s.ops && CanBegin(s.shared, op) && s' == s.(ops := s.ops[i := op])
    case Do(e, next) =>
      && i in s.ops && Allowed(c, s.shared, s.ops[i], e, next)
      && s' == s.(shared := Apply(c, s.shared, e), ops := SetOp(s.ops, i, next))
    case Forget(key) => s.up && s' == s.(shared := s.shared.(policy := s.shared.policy - {key}))
    case Publish(id) =>
      && s.up
      && (forall j :: j in s.ops && Staging(s.ops[j]) ==> s.ops[j].key.id != id)
      && s' == s.(shared := s.shared.(published := s.shared.published + {id}, pending := s.shared.pending + {id}))
    case Crash =>
      s' == State(Shared(s.shared.local, s.shared.remote, map[], map[], s.shared.nextGen, 0, s.shared.durable, {}, {}), map[], 0, false)
    case Recover =>
      && !s.up
      && (forall k :: k in s.shared.local ==> |s.shared.local[k]| == k.size)
      && s'.recovered == SumSizes(s.shared.local.Keys)
      && s' == s.(shared := s.shared.(index := map k | k in s.shared.local :: s.shared.nextGen,
                                      nextGen := s.shared.nextGen + 1, bytes := s'.recovered),
                  recovered := s'.recovered, up := true)
    case RecoverFails => !s.up && s' == s
  }

  ghost predicate Accounted(c: Config, s: State) {
    && s.shared.bytes == SumSizes(s.shared.index.Keys) + SumOwed(s.ops)
    && s.shared.bytes <= Max(c.max, s.recovered)
  }

  ghost predicate OpsOk(c: Config, s: State) {
    forall i :: i in s.ops ==> OpOk(c, s.shared, s.ops[i])
  }

  /** Between a crash and a recovery only the two stores are left. */
  ghost predicate Down(s: State) {
    && s.ops == map[] && s.shared.index == map[] && s.shared.policy == map[]
    && s.shared.published == {} && s.shared.pending == {}
    && forall k :: k in s.shared.durable ==> Somewhere(s.shared, k)
  }

  ghost predicate Inv(c: Config, s: State) {
    Faithful(c, s.shared) && (if s.up then Safe(s.shared) else Down(s)) && OpsOk(c, s) && Accounted(c, s)
  }

  ghost predicate Init(s: State) {
    s == State(Shared(map[], map[], map[], map[], 0, 0, {}, {}, {}), map[], 0, true)
  }

  lemma BeginOk(c: Config, s: State, i: nat, op: Op)
    requires Inv(c, s) && s.up && i !in s.ops && CanBegin(s.shared, op)
    ensures Inv(c, s.(ops := s.ops[i := op]))
  {
    SumOwedSet(s.ops, i, Some(op));
  }

  lemma DoOk(c: Config, s: State, i: nat, e: Effect, next: Option<Op>)
    requires WellFormedConfig(c) && Inv(c, s) && i in s.ops && Allowed(c, s.shared, s.ops[i], e, next)
    ensures Faithful(c, Apply(c, s.shared, e)) && Safe(Apply(c, s.shared, e))
    ensures OpsOk(c, s.(shared := Apply(c, s.shared, e), ops := SetOp(s.ops, i, next)))
  {
    StepOk(c, s.shared, s.ops[i], e, next);
    HarmlessEvolves(c, s.shared, e);
    HarmlessSafe(c, s.shared, e);
    HarmlessFaithful(c, s.shared, e);
    forall j | j in s.ops && j != i
      ensures OpOk(c, Apply(c, s.shared, e), s.ops[j])
    {
      Undisturbed(c, s.shared, Apply(c, s.shared, e), s.ops[j]);
    }
  }

  /** The counter never goes below zero: what is released is still accounted for. */
  lemma DoAccounted(c: Config, s: State, i: nat, e: Effect, next: Option<Op>)
    requires Accounted(c, s) && i in s.ops && Allowed(c, s.shared, s.ops[i], e, next)
    ensures e.Release? ==> e.n <= s.shared.bytes
    ensures Accounted(c, s.(shared := Apply(c, s.shared, e), ops := SetOp(s.ops, i, next)))
  {
    StepBalanced(c, s.shared, s.ops[i], e, next);
    SumOwedSet(s.ops, i, next);
    SumOwedRemove(s.ops, i);
    EffectBytes(c, s.shared, e);
    if e.Reserve? { assert s.ops[i].StageMissed?; }
  }

  lemma PublishOk(c: Config, s: State, id: nat)
    requires Inv(c, s) && s.up && forall j :: j in s.ops && Staging(s.ops[j]) ==> s.ops[j].key.id != id
    ensures Inv(c, s.(shared := s.shared.(published := s.shared.published + {id}, pending := s.shared.pending + {id})))
  {
    var s' := s.shared.(published := s.shared.published + {id}, pending := s.shared.pending + {id});
    forall x | x in s'.published && x !in s'.pending
      ensures AllRemote(s', x)
    {
      assert AllRemote(s.shared, x);
    }
    forall j | j in s.ops
      ensures OpOk(c, s', s.ops[j])
    {
      Undisturbed(c, s.shared, s', s.ops[j]);
    }
  }

  lemma ForgetOk(c: Config, s: State, key: SliceKey)
    requires Inv(c, s) && s.up
    ensures Inv(c, s.(shared := s.shared.(policy := s.shared.policy - {key})))
  {
    var s' := s.shared.(policy := s.shared.policy - {key});
    forall j | j in s.ops
      ensures OpOk(c, s', s.ops[j])
    {
      Undisturbed(c, s.shared, s', s.ops[j]);
    }
  }

  /** A crash at any moment, any number of failed recoveries, and one that succeeds. */
  lemma RestartOk(c: Config, s: State, a: Action, s': State)
    requires Inv(c, s) && (a == Crash || a == Recover || a == RecoverFails) && Next(c, s, 0, a, s')
    ensures Inv(c, s')
    ensures a == Recover ==> s'.shared.index.Keys == s.shared.local.Keys
    ensures s'.shared.local == s.shared.local && s'.shared.remote == s.shared.remote && s'.shared.durable == s.shared.durable
  {
    if a == Recover { assert s'.shared.index.Keys == s.shared.local.Keys; }
  }

  lemma NextOk(c: Config, s: State, i: nat, a: Action, s': State)
    requires WellFormedConfig(c) && Inv(c, s) && Next(c, s, i, a, s')
    ensures Inv(c, s')
  {
    match a
    case Begin(op) => BeginOk(c, s, i, op);
    case Do(e, next) => DoOk(c, s, i, e, next); DoAccounted(c, s, i, e, next);
    case Forget(key) => ForgetOk(c, s, key);
    case Publish(id) => PublishOk(c, s, id);
    case _ => RestartOk(c, s, a, s');
  }

  // ---- runs ---------------------------------------------------------------------

  datatype Label = Label(i: nat, a: Action)

  ghost predicate StepAt(c: Config, labels: seq<Label>, trace: seq<State>, n: nat)
    requires n < |labels| && |trace| == |labels| + 1
  {
    Next(c, trace[n], labels[n].i, labels[n].a, trace[n + 1])
  }

  ghost predicate IsRun(c: Config, labels: seq<Label>, trace: seq<State>) {
    && WellFormedConfig(c)
    && |trace| == |labels| + 1
    && Init(trace[0])
    && forall n :: 0 <= n < |labels| ==> StepAt(c, labels, trace, n)
  }

  lemma InitOk(c: Config, s: State)
    requires Init(s)
    ensures Inv(c, s)
  {
  }

  lemma {:induction false} RunInv(c: Config, labels: seq<Label>, trace: seq<State>, n: nat)
    requires IsRun(c, labels, trace) && n < |trace|
    ensures Inv(c, trace[n])
  {
    if n == 0 {
      InitOk(c, trace[0]);
    } else {
      RunInv(c, labels, trace, n - 1);
      assert StepAt(c, labels, trace, n - 1);
      NextOk(c, trace[n - 1], labels[n - 1].i, labels[n - 1].a, trace[n]);
    }
  }

  lemma NextDurable(c: Config, s: State, i: nat, a: Action, s': State)
    requires Next(c, s, i, a, s')
    ensures s.shared.durable <= s'.shared.durable && s.shared.remote.Keys <= s'.shared.remote.Keys
  {
    if a.Do? { EffectDurable(c, s.shared, a.e); }
  }

  lemma EffectDurable(c: Config, s: Shared, e: Effect)
    ensures s.durable <= Apply(c, s, e).durable && s.remote.Keys <= Apply(c, s, e).remote.Keys
  {
  }

  lemma {:induction false} DurableForever(c: Config, labels: seq<Label>, trace: seq<State>, m: nat, n: nat)
    requires IsRun(c, labels, trace) && m <= n < |trace|
    ensures trace[m].shared.durable <= trace[n].shared.durable
    ensures trace[m].shared.remote.Keys <= trace[n].shared.remote.Keys
  {
    if m < n {
      DurableForever(c, labels, trace, m, n - 1);
      assert StepAt(c, labels, trace, n - 1);
      NextDurable(c, trace[n - 1], labels[n - 1].i, labels[n - 1].a, trace[n]);
    }
  }

  /** Once stage(key) has returned Ok, the block's bytes are in local or remote storage in
      every later state, through migrations, failures, crashes, failed recoveries and
      restarts; and what is there is exactly the block. While the cache is up, a key that has
      left the index is remote. */
  lemma StageDurability(c: Config, labels: seq<Label>, trace: seq<State>, m: nat, n: nat, key: SliceKey)
    requires IsRun(c, labels, trace) && m <= n < |trace|
    requires key in trace[m].shared.durable
    ensures var s := trace[n].shared;
            && Somewhere(s, key)
            && (key in s.local ==> s.local[key] == c.content(key))
            && (key in s.remote ==> s.remote[key] == c.content(key))
            && (trace[n].up && key !in s.index ==> key in s.remote)
  {
    DurableForever(c, labels, trace, m, n);
    RunInv(c, labels, trace, n);
  }

  /** A read that began after stage returned never finds the block lost. Unless local or remote
      storage answers with an error, it yields exactly the staged bytes, or nothing with the
      remote copy in place. */
  lemma ReadThrough(c: Config, labels: seq<Label>, trace: seq<State>, n: nat, i: nat)
    requires IsRun(c, labels, trace) && n < |trace| && i in trace[n].ops
    ensures var op := trace[n].ops[i];
            && (op.GetFailed? ==> !op.asked)
            && (op.GetDone? && op.result.Some? ==> op.result.value == c.content(op.key))
            && (op.GetDone? && op.result.None? && op.asked ==>
                  op.key in trace[n].shared.remote && trace[n].shared.remote[op.key] == c.content(op.key))
  {
    RunInv(c, labels, trace, n);
    assert OpOk(c, trace[n].shared, trace[n].ops[i]);
  }

  /** A finished sync means that every slice published before it began is fully remote; and
      at all times a published slice that is not fully remote is still in the set the next
      sync will work through, whatever failed. */
  lemma FsyncMeansRemote(c: Config, labels: seq<Label>, trace: seq<State>, n: nat)
    requires IsRun(c, labels, trace) && n < |trace|
    ensures forall i, id :: i in trace[n].ops && trace[n].ops[i].SyncDone? && id in trace[n].ops[i].since ==> AllRemote(trace[n].shared, id)
    ensures forall id :: id in trace[n].shared.published && !AllRemote(trace[n].shared, id) ==> id in trace[n].shared.pending
  {
    RunInv(c, labels, trace, n);
    forall i, id | i in trace[n].ops && trace[n].ops[i].SyncDone? && id in trace[n].ops[i].since
      ensures AllRemote(trace[n].shared, id)
    {
      assert OpOk(c, trace[n].shared, trace[n].ops[i]);
    }
  }

  /** The counter is the bytes indexed plus what operations in flight hold, and stays within
      the configured maximum or what the last start found, whichever is larger. */
  lemma ByteConservation(c: Config, labels: seq<Label>, trace: seq<State>, n: nat)
    requires IsRun(c, labels, trace) && n < |trace|
    ensures trace[n].shared.bytes == SumSizes(trace[n].shared.index.Keys) + SumOwed(trace[n].ops)
    ensures trace[n].shared.bytes <= Max(c.max, trace[n].recovered)
    ensures n < |labels| && labels[n].a.Do? && labels[n].a.e.Release? ==> labels[n].a.e.n <= trace[n].shared.bytes
  {
    RunInv(c, labels, trace, n);
    if n < |labels| {
      assert StepAt(c, labels, trace, n);
      if labels[n].a.Do? { DoAccounted(c, trace[n], labels[n].i, labels[n].a.e, labels[n].a.next); }
    }
  }
}
