/** What the operations of the stage cache achieve when nothing fails and nobody interferes
    (components/storage/src/cache/file_cache.rs, components/vfs/src/writer.rs). */
module StageOutcomes {
  import opened Common
  import opened SliceTypes
  import opened StageCache

  // ---- migration --------------------------------------------------------------------

  ghost predicate MigStepAt(c: Config, states: seq<Shared>, migs: seq<Migration>, es: seq<Effect>, k: nat)
    requires k < |migs| == |es| < |states|
  {
    && MigAllowed(states[k], migs[k], es[k], if k + 1 < |migs| then Goes(migs[k + 1]) else Returns)
    && states[k + 1] == Apply(c, states[k], es[k])
  }

  /** A migration by itself, from its start to its return without an error. */
  ghost predicate MigRun(c: Config, states: seq<Shared>, migs: seq<Migration>, es: seq<Effect>) {
    && 0 < |migs| == |es| && |states| == |migs| + 1 && migs[0].at == Queued
    && forall k :: 0 <= k < |migs| ==> MigStepAt(c, states, migs, es, k)
  }

  /** The block is remote, has left local disk and the index, and its bytes are free again;
      nothing else changed. */
  ghost predicate Migrated(c: Config, s: Shared, key: SliceKey, s': Shared)
    requires key.size <= s.bytes
  {
    s' == s.(remote := s.remote[key := c.content(key)], local := s.local - {key}, index := s.index - {key},
             bytes := s.bytes - key.size)
  }

  /** The migration of a current entry moves the block. */
  lemma MigrationAchieves(c: Config, states: seq<Shared>, migs: seq<Migration>, es: seq<Effect>)
    requires MigRun(c, states, migs, es) && Faithful(c, states[0]) && IsCurrent(states[0], migs[0])
    requires migs[0].key.size <= states[0].bytes
    ensures |migs| == 6 && Migrated(c, states[0], migs[0].key, states[6])
  {
    assert MigStepAt(c, states, migs, es, 0);
    assert MigStepAt(c, states, migs, es, 1);
    assert MigStepAt(c, states, migs, es, 2);
    assert MigStepAt(c, states, migs, es, 3);
    assert MigStepAt(c, states, migs, es, 4);
    assert MigStepAt(c, states, migs, es, 5);
  }

  /** A migration only ever takes its own generation out of the index: a block staged again
      meanwhile keeps its entry. */
  lemma OwnGenerationOnly(c: Config, s: Shared, m: Migration, e: Effect, r: MigResult)
    requires MigAllowed(s, m, e, r)
    ensures forall k :: k in s.index && (k != m.key || s.index[k] != m.gen) ==>
                          k in Apply(c, s, e).index && Apply(c, s, e).index[k] == s.index[k]
    ensures Apply(c, s, e).bytes != s.bytes ==> m.at == Unindexed
  {
  }

  ghost predicate MigStepSeen(states: seq<Shared>, migs: seq<Migration>, es: seq<Effect>, k: nat)
    requires k < |es| == |states| == |migs| - 1
  {
    MigAllowed(states[k], migs[k], es[k], Goes(migs[k + 1]))
  }

  /** The steps of one migration up to its first deletion, each in the state it finds: others may change
      anything in between. */
  ghost predicate UpToDelete(states: seq<Shared>, migs: seq<Migration>, es: seq<Effect>) {
    && 0 < |es| == |states| == |migs| - 1 && migs[0].at == Queued && es[|es| - 1].DeleteLocal?
    && (forall k :: 0 <= k < |es| ==> MigStepSeen(states, migs, es, k))
    && (forall k :: 0 <= k < |es| - 1 ==> !es[k].DeleteLocal?)
  }

  /** Whatever others do, a migration deletes a local block only after it has found its own
      generation indexed, uploaded the block, and seen the whole of it in remote storage. */
  lemma DeleteIsEarned(states: seq<Shared>, migs: seq<Migration>, es: seq<Effect>)
    requires UpToDelete(states, migs, es)
    ensures var m := migs[0];
            && |es| == 4 && IsCurrent(states[0], m) && es[1] == Upload(m.key) && m.key in states[1].local
            && m.key in states[2].remote && |states[2].remote[m.key]| == m.key.size && es[3] == DeleteLocal(m.key)
  {
    assert MigStepSeen(states, migs, es, 0);
    if |es| > 1 { assert MigStepSeen(states, migs, es, 1); }
    if |es| > 2 { assert MigStepSeen(states, migs, es, 2); }
    if |es| > 3 { assert MigStepSeen(states, migs, es, 3); }
  }

  /** A block that is there can be migrated. */
  lemma MigrationCompletes(c: Config, s: Shared, m: Migration) returns (states: seq<Shared>, migs: seq<Migration>, es: seq<Effect>)
    requires WellFormedConfig(c) && Faithful(c, s) && m.at == Queued && IsCurrent(s, m) && m.key in s.local
    ensures MigRun(c, states, migs, es) && states[0] == s && migs[0] == m
  {
    var s1 := Apply(c, s, Upload(m.key));
    var s2 := Apply(c, s1, DeleteLocal(m.key));
    var s3 := Apply(c, s2, Unindex(m.key));
    var s4 := Apply(c, s3, Release(m.key.size));
    states := [s, s, s1, s1, s2, s3, s4];
    migs := [m, m.(at := Current), m.(at := Copied), m.(at := Confirmed), m.(at := Deleted), m.(at := Unindexed)];
    es := [Nothing, Upload(m.key), Nothing, DeleteLocal(m.key), Unindex(m.key), Release(m.key.size)];
    assert Apply(c, s, Nothing) == s && Apply(c, s1, Nothing) == s1;
    forall k | 0 <= k < 6
      ensures MigStepAt(c, states, migs, es, k)
    {
    }
  }

  // ---- staging ------------------------------------------------------------------------

  ghost predicate StageStepAt(c: Config, states: seq<Shared>, ops: seq<Op>, es: seq<Effect>, k: nat)
    requires k < |ops| == |es| < |states|
  {
    && StageAllowed(c, states[k], ops[k], es[k], if k + 1 < |ops| then Some(ops[k + 1]) else None)
    && states[k + 1] == Apply(c, states[k], es[k])
  }

  /** A stage by itself that returns Ok. */
  ghost predicate StageRun(c: Config, states: seq<Shared>, ops: seq<Op>, es: seq<Effect>) {
    && 0 < |ops| == |es| && |states| == |ops| + 1 && ops[0].StageAsked? && ops[|ops| - 1].StageIndexed?
    && forall k :: 0 <= k < |ops| ==> StageStepAt(c, states, ops, es, k)
  }

  /** Staging a block that is not indexed leaves it indexed under its policy generation,
      acknowledged and accounted for, and on local disk under a new generation unless the policy
      cache had it; staging it again only acknowledges. */
  lemma StageAchieves(c: Config, states: seq<Shared>, ops: seq<Op>, es: seq<Effect>)
    requires StageRun(c, states, ops, es)
    ensures var s, s', key := states[0], states[|ops|], ops[0].key;
            && key in s'.index && s'.durable == s.durable + {key} && s'.remote == s.remote
            && s'.bytes == s.bytes + (if key in s.index then 0 else key.size)
            && s'.index.Keys == s.index.Keys + {key}
            && (key in s.index ==> s'.local == s.local)
            && (key !in s.index && key !in s.policy ==> s'.local == s.local[key := c.content(key)])
            && (key !in s.index ==> key in s'.policy && s'.index[key] == s'.policy[key])
            && (key !in s.index && key !in s.policy ==> s'.index[key] == s.nextGen < s'.nextGen)
  {
    assert StageStepAt(c, states, ops, es, 0);
    if ops[0].key !in states[0].index {
      assert StageStepAt(c, states, ops, es, 1);
      assert StageStepAt(c, states, ops, es, 2);
      assert StageStepAt(c, states, ops, es, 3);
      assert StageStepAt(c, states, ops, es, 4);
      if ops[3].StageWritten? { assert StageStepAt(c, states, ops, es, 5); }
    } else {
      assert StageStepAt(c, states, ops, es, 1);
    }
  }

  /** With room, a new block can be staged. */
  lemma StageCompletes(c: Config, s: Shared, key: SliceKey) returns (states: seq<Shared>, ops: seq<Op>, es: seq<Effect>)
    requires key !in s.index && s.bytes + key.size <= c.max
    ensures StageRun(c, states, ops, es) && states[0] == s && ops[0] == StageAsked(key)
  {
    var s1 := Apply(c, s, Reserve(key.size));
    var s2 := Apply(c, s1, WriteLocal(key));
    var s3 := Apply(c, s2, Register(key));
    var s4 := Apply(c, s3, PutIndex(key, s2.nextGen));
    var s5 := Apply(c, s4, Return(key));
    states := [s, s, s1, s2, s3, s4, s5];
    ops := [StageAsked(key), StageMissed(key), StageReserved(key), StageWritten(key), StageGot(key, s2.nextGen), StageIndexed(key)];
    es := [Nothing, Reserve(key.size), WriteLocal(key), Register(key), PutIndex(key, s2.nextGen), Return(key)];
    assert Apply(c, s, Nothing) == s;
    forall k | 0 <= k < 6
      ensures StageStepAt(c, states, ops, es, k)
    {
    }
  }

  // ---- reading ------------------------------------------------------------------------

  ghost predicate GetStepAt(c: Config, states: seq<Shared>, ops: seq<Op>, es: seq<Effect>, k: nat)
    requires k + 1 < |ops| == |es| + 1 <= |states|
  {
    GetAllowed(states[k], ops[k], es[k], Some(ops[k + 1])) && states[k + 1] == Apply(c, states[k], es[k])
  }

  /** A read of an indexed block by itself that gives an answer. */
  ghost predicate GetRun(c: Config, states: seq<Shared>, ops: seq<Op>, es: seq<Effect>) {
    && 1 < |ops| == |states| == |es| + 1 && ops[0].GetIndexed? && ops[0].key in states[0].index && ops[|ops| - 1].GetDone?
    && forall k :: 0 <= k < |ops| - 1 ==> GetStepAt(c, states, ops, es, k)
  }

  lemma AnswerIsLast(c: Config, states: seq<Shared>, ops: seq<Op>, es: seq<Effect>, k: nat)
    requires GetRun(c, states, ops, es) && k + 1 < |ops|
    ensures !ops[k].GetDone?
  {
    assert GetStepAt(c, states, ops, es, k);
  }

  /** A local block is read and nothing changes; a block that has gone remote leaves the index,
      gives its bytes back, and the answer is to read it remotely. */
  lemma ReadAchieves(c: Config, states: seq<Shared>, ops: seq<Op>, es: seq<Effect>)
    requires GetRun(c, states, ops, es) && ops[0].key.size <= states[0].bytes
    ensures var s, s', key, result := states[0], states[|ops| - 1], ops[0].key, ops[|ops| - 1].result;
            && ops[|ops| - 1].key == key
            && if key in s.local then result == Some(s.local[key]) && s' == s
               else result == None && RemoteConfirmed(s, key) && s' == s.(index := s.index - {key}, bytes := s.bytes - key.size)
  {
    assert GetStepAt(c, states, ops, es, 0);
    if |ops| > 2 { assert GetStepAt(c, states, ops, es, 1); }
    if |ops| > 3 { assert GetStepAt(c, states, ops, es, 2); }
    if |ops| > 4 { assert GetStepAt(c, states, ops, es, 3); }
    if |ops| > 5 { AnswerIsLast(c, states, ops, es, 4); }
  }

  lemma ReadCompletes(c: Config, s: Shared, key: SliceKey, asked: bool) returns (states: seq<Shared>, ops: seq<Op>, es: seq<Effect>)
    requires key in s.index && (key in s.local || RemoteConfirmed(s, key))
    ensures GetRun(c, states, ops, es) && states[0] == s && ops[0] == GetIndexed(key, asked)
  {
    assert Apply(c, s, Nothing) == s;
    if key in s.local {
      states, ops, es := [s, s], [GetIndexed(key, asked), GetDone(key, asked, Some(s.local[key]))], [Nothing];
      assert GetStepAt(c, states, ops, es, 0);
    } else {
      var s1 := Apply(c, s, Unindex(key));
      var s2 := Apply(c, s1, Release(key.size));
      states := [s, s, s, s1, s2];
      ops := [GetIndexed(key, asked), GetMissing(key, asked), GetConfirmed(key, asked), GetUnindexed(key, asked), GetDone(key, asked, None)];
      es := [Nothing, Nothing, Unindex(key), Release(key.size)];
      forall k | 0 <= k < 4
        ensures GetStepAt(c, states, ops, es, k)
      {
      }
    }
  }

  // ---- syncing --------------------------------------------------------------------------

  ghost predicate SyncStepAt(c: Config, states: seq<Shared>, ops: seq<Op>, es: seq<Effect>, k: nat)
    requires k + 1 < |ops| == |es| + 1 <= |states|
  {
    ops[k].Syncing? && SyncAllowed(states[k], ops[k], es[k], Some(ops[k + 1])) && states[k + 1] == Apply(c, states[k], es[k])
  }

  /** A sync by itself, so far without an error. */
  ghost predicate SyncRun(c: Config, states: seq<Shared>, ops: seq<Op>, es: seq<Effect>) {
    && 0 < |ops| == |states| == |es| + 1 && ops[0].Syncing? && ops[0].cur == None
    && forall k :: 0 <= k < |ops| - 1 ==> SyncStepAt(c, states, ops, es, k)
  }

  /** Slices the sync is through with. */
  function Through(op: Op, todo: set<nat>): set<nat>
    requires op.Syncing? || op.SyncDone?
  {
    if op.SyncDone? then todo else todo - op.todo - (if op.cur.Some? then {op.cur.value.id} else {})
  }

  ghost predicate MigPlace(s: Shared, m: Migration) {
    && (m.at == Unindexed <==> m.key !in s.index)
    && (m.key in s.index ==> s.index[m.key] == m.gen)
    && (m.at == Deleted || m.at == Unindexed ==> m.key !in s.local)
  }

  /** Where a slice's flush is: blocks to do are still indexed, all others of the slice are
      neither indexed nor on local disk. */
  ghost predicate FlushPlace(s0: Shared, s: Shared, f: Flush) {
    && (forall k :: k in f.keys ==> k in s.index && k.id == f.id)
    && (f.mig.Some? ==> MigPlace(s, f.mig.value) && f.mig.value.key.id == f.id && f.mig.value.key !in f.keys)
    && (forall k :: k in s0.index && k.id == f.id && k !in f.keys && !(f.mig.Some? && f.mig.value.key == k) ==> Gone(s, k))
  }

  ghost predicate Gone(s: Shared, k: SliceKey) { k !in s.index && k !in s.local }

  ghost predicate SyncPlace(s0: Shared, todo: set<nat>, s: Shared, op: Op) {
    && (op.Syncing? || op.SyncDone?)
    && s.pending == s0.pending - Through(op, todo)
    && (forall k :: k in s.index ==> k in s0.index)
    && (forall k :: k in s0.index && k.id in Through(op, todo) ==> Gone(s, k))
    && (op.Syncing? ==> && op.todo <= todo
                        && (forall k :: k in s0.index && k.id in op.todo ==> k in s.index)
                        && (op.cur.Some? ==> && op.cur.value.id in todo && op.cur.value.id !in op.todo
                                             && FlushPlace(s0, s, op.cur.value)))
  }

  /** A step of the migration inside a sync disturbs no block but its own. */
  lemma MigPlaceStep(c: Config, s: Shared, m: Migration, e: Effect, r: MigResult)
    requires MigPlace(s, m) && MigAllowed(s, m, e, r) && !r.Fails?
    ensures var s' := Apply(c, s, e);
            && s'.pending == s.pending
            && (forall k :: k != m.key ==> (k in s'.index <==> k in s.index) && (k in s'.local <==> k in s.local))
            && (m.key in s'.index ==> m.key in s.index)
            && (r.Goes? ==> r.mig.key == m.key && MigPlace(s', r.mig))
            && (r.Returns? ==> Gone(s', m.key))
  {
  }

  lemma SyncMigStep(c: Config, s0: Shared, todo: set<nat>, s: Shared, op: Op, e: Effect, next: Op)
    requires op.Syncing? && op.cur.Some? && op.cur.value.mig.Some?
    requires SyncPlace(s0, todo, s, op) && SyncAllowed(s, op, e, Some(next))
    ensures SyncPlace(s0, todo, Apply(c, s, e), next)
  {
    var f := op.cur.value;
    var r :| MigAllowed(s, f.mig.value, e, r) && Some(next) == AfterMig(op, f, r);
    MigPlaceStep(c, s, f.mig.value, e, r);
    var s' := Apply(c, s, e);
    forall k | k in s0.index && k.id in Through(next, todo)
      ensures Gone(s', k)
    {
      assert Gone(s, k);
    }
    forall k | k in s0.index && k.id == f.id && k !in f.keys && k != f.mig.value.key
      ensures Gone(s', k)
    {
      assert Gone(s, k);
    }
  }

  lemma SyncOtherStep(c: Config, s0: Shared, todo: set<nat>, s: Shared, op: Op, e: Effect, next: Op)
    requires op.Syncing? && !(op.cur.Some? && op.cur.value.mig.Some?)
    requires SyncPlace(s0, todo, s, op) && SyncAllowed(s, op, e, Some(next))
    ensures SyncPlace(s0, todo, Apply(c, s, e), next)
  {
    var s' := Apply(c, s, e);
    forall k | k in s0.index && (next.Syncing? || next.SyncDone?) && k.id in Through(next, todo)
      ensures Gone(s', k)
    {
      assert Gone(s, k);
    }
  }

  lemma {:induction false} SyncPlaces(c: Config, states: seq<Shared>, ops: seq<Op>, es: seq<Effect>, n: nat)
    requires SyncRun(c, states, ops, es) && n < |ops|
    ensures SyncPlace(states[0], ops[0].todo, states[n], ops[n])
  {
    if n > 0 {
      SyncPlaces(c, states, ops, es, n - 1);
      assert SyncStepAt(c, states, ops, es, n - 1);
      if ops[n - 1].cur.Some? && ops[n - 1].cur.value.mig.Some? {
        SyncMigStep(c, states[0], ops[0].todo, states[n - 1], ops[n - 1], es[n - 1], ops[n]);
      } else {
        SyncOtherStep(c, states[0], ops[0].todo, states[n - 1], ops[n - 1], es[n - 1], ops[n]);
      }
    }
  }

  /** A sync by itself that succeeds has worked through every slice it started with: none of
      them is still in the retry set, and none of their blocks is still indexed or local. */
  lemma SyncAchieves(c: Config, states: seq<Shared>, ops: seq<Op>, es: seq<Effect>)
    requires SyncRun(c, states, ops, es) && ops[|ops| - 1].SyncDone?
    ensures var s, s', todo := states[0], states[|ops| - 1], ops[0].todo;
            && s'.pending == s.pending - todo
            && forall k :: k in s.index && k.id in todo ==> k !in s'.index && k !in s'.local
  {
    SyncPlaces(c, states, ops, es, |ops| - 1);
    forall k | k in states[0].index && k.id in ops[0].todo
      ensures k !in states[|ops| - 1].index && k !in states[|ops| - 1].local
    {
      assert Gone(states[|ops| - 1], k);
    }
  }
}
