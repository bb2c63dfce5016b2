/** Admitting, finishing and draining a mount's background tasks, one atomic access at a time
    (components/storage/src/task_registry.rs). */
module TaskRegistry {
  import opened Common

  /** A spawn holds the admission lock from the check to its return; `Locked` and `Looked` also
      hold the handle lock. */
  datatype Spawn =
    | Admitted
    | Activated
    | Tallied
    | Numbered(id: nat)
    | Started(id: nat)
    | Locked(id: nat)
    | Looked(id: nat, live: bool)
    | Registered

  /** A task runs; its completion guard then sets the finished flag, removes the handle, and
      moves the two counters. */
  datatype Task = Running | Finishing | Unhandled | Deactivated | Completed

  datatype State = State(
    accepting: bool,
    spawn: Option<Spawn>,
    tasks: map<nat, Task>,
    handles: set<nat>,
    aborted: set<nat>,
    nextId: nat, active: nat, spawned: nat, completed: nat)

  datatype Action =
    | Enter | Activate | Tally | Number | Start | Lock | LoadFinished | Insert | Leave
    | Finish(t: nat) | Unhandle(t: nat) | Deactivate(t: nat) | Complete(t: nat)
    | BeginDraining | AbortAll

  predicate HandlesLocked(s: State) { s.spawn.Some? && (s.spawn.value.Locked? || s.spawn.value.Looked?) }

  /** Handles abort_all keeps to abort: those of tasks that are not over. */
  function Unfinished(s: State): set<nat> { set t | t in s.handles && !(t in s.tasks && s.tasks[t] == Completed) }

  // ---- steps ----------------------------------------------------------------------

  predicate SpawnStep(s: State, a: Action, s': State) {
    if a == Enter then s.spawn.None? && s' == if s.accepting then s.(spawn := Some(Admitted)) else s
    else
      && s.spawn.Some?
      && match (a, s.spawn.value)
         case (Activate, Admitted) => s' == s.(active := s.active + 1, spawn := Some(Activated))
         case (Tally, Activated) => s' == s.(spawned := s.spawned + 1, spawn := Some(Tallied))
         case (Number, Tallied) => s' == s.(nextId := s.nextId + 1, spawn := Some(Numbered(s.nextId)))
         case (Start, Numbered(id)) => s' == s.(tasks := s.tasks[id := Running], spawn := Some(Started(id)))
         case (Lock, Started(id)) => s' == s.(spawn := Some(Locked(id)))
         case (LoadFinished, Locked(id)) => id in s.tasks && s' == s.(spawn := Some(Looked(id, s.tasks[id] == Running)))
         case (Insert, Looked(id, live)) => s' == s.(handles := if live then s.handles + {id} else s.handles, spawn := Some(Registered))
         case (Leave, Registered) => s' == s.(spawn := None)
         case _ => false
  }

  predicate TaskStep(s: State, a: Action, s': State) {
    match a
    case Finish(t) => t in s.tasks && s.tasks[t] == Running && s' == s.(tasks := s.tasks[t := Finishing])
    case Unhandle(t) =>
      && t in s.tasks && s.tasks[t] == Finishing && !HandlesLocked(s)
      && s' == s.(tasks := s.tasks[t := Unhandled], handles := s.handles - {t})
    case Deactivate(t) =>
      && t in s.tasks && s.tasks[t] == Unhandled && s.active > 0
      && s' == s.(tasks := s.tasks[t := Deactivated], active := s.active - 1)
    case Complete(t) =>
      && t in s.tasks && s.tasks[t] == Deactivated
      && s' == s.(tasks := s.tasks[t := Completed], completed := s.completed + 1)
    case _ => false
  }

  predicate DrainStep(s: State, a: Action, s': State) {
    match a
    case BeginDraining => s.spawn.None? && s' == s.(accepting := false)
    case AbortAll => !HandlesLocked(s) && s' == s.(handles := {}, aborted := s.aborted + Unfinished(s))
    case _ => false
  }

  predicate Next(s: State, a: Action, s': State) { SpawnStep(s, a, s') || TaskStep(s, a, s') || DrainStep(s, a, s') }

  // ---- invariant --------------------------------------------------------------------

  function At(tasks: map<nat, Task>, p: Task): set<nat> { set t | t in tasks && tasks[t] == p }

  predicate Pending(s: State) {
    s.spawn.Some? && (s.spawn.value == Activated || s.spawn.value == Tallied || s.spawn.value.Numbered?)
  }

  /** Every task is counted where it stands. */
  ghost predicate CountInv(s: State) {
    && s.active == |At(s.tasks, Running)| + |At(s.tasks, Finishing)| + |At(s.tasks, Unhandled)| + (if Pending(s) then 1 else 0)
    && s.completed == |At(s.tasks, Completed)|
    && s.spawned + (if s.spawn == Some(Activated) then 1 else 0) == s.active + |At(s.tasks, Deactivated)| + s.completed
  }

  /** The task a spawn has started and not yet dealt with. */
  predicate Unregistered(s: State, t: nat) {
    && s.spawn.Some?
    && match s.spawn.value
       case Started(id) => id == t
       case Locked(id) => id == t
       case Looked(id, live) => id == t && live
       case _ => false
  }

  ghost predicate HandleInv(s: State) {
    && (forall t :: t in s.handles ==> t in s.tasks && (s.tasks[t] == Running || s.tasks[t] == Finishing))
    && (forall t :: t in s.tasks && s.tasks[t] == Running ==> t in s.handles || t in s.aborted || Unregistered(s, t))
    && (s.spawn.Some? && s.spawn.value.Looked? && s.spawn.value.live ==>
          s.spawn.value.id in s.tasks && (s.tasks[s.spawn.value.id] == Running || s.tasks[s.spawn.value.id] == Finishing))
  }

  ghost predicate IdInv(s: State) {
    && (forall t :: t in s.tasks ==> t < s.nextId)
    && (s.spawn.Some? && s.spawn.value.Numbered? ==> s.spawn.value.id < s.nextId && s.spawn.value.id !in s.tasks)
    && (s.spawn.Some? && (s.spawn.value.Started? || s.spawn.value.Locked?) ==> s.spawn.value.id in s.tasks)
  }

  ghost predicate Inv(s: State) {
    CountInv(s) && HandleInv(s) && IdInv(s) && (!s.accepting ==> s.spawn.None?)
  }

  lemma MovedSet(tasks: map<nat, Task>, t: nat, q: Task, p: Task)
    ensures At(tasks[t := q], p) == if q == p then At(tasks, p) + {t} else At(tasks, p) - {t}
    ensures t in At(tasks, p) <==> t in tasks && tasks[t] == p
  {
  }

  lemma MovedCount(tasks: map<nat, Task>, t: nat, q: Task, p: Task)
    ensures |At(tasks[t := q], p)| == |At(tasks, p)| + (if q == p then 1 else 0) - (if t in tasks && tasks[t] == p then 1 else 0)
  {
    MovedSet(tasks, t, q, p);
  }

  lemma MovedCounts(tasks: map<nat, Task>, t: nat, q: Task)
    ensures forall p :: |At(tasks[t := q], p)| == |At(tasks, p)| + (if q == p then 1 else 0) - (if t in tasks && tasks[t] == p then 1 else 0)
  {
    forall p
      ensures |At(tasks[t := q], p)| == |At(tasks, p)| + (if q == p then 1 else 0) - (if t in tasks && tasks[t] == p then 1 else 0)
    {
      MovedCount(tasks, t, q, p);
    }
  }

  lemma SpawnKeeps(s: State, a: Action, s': State)
    requires Inv(s) && SpawnStep(s, a, s')
    ensures Inv(s')
  {
    if a == Start { MovedCounts(s.tasks, s.spawn.value.id, Running); }
  }

  lemma TaskKeeps(s: State, a: Action, s': State)
    requires Inv(s) && TaskStep(s, a, s')
    ensures Inv(s')
  {
    MovedCounts(s.tasks, a.t, s'.tasks[a.t]);
  }

  lemma DrainKeeps(s: State, a: Action, s': State)
    requires Inv(s) && DrainStep(s, a, s')
    ensures Inv(s')
  {
  }

  lemma NextKeeps(s: State, a: Action, s': State)
    requires Inv(s) && Next(s, a, s')
    ensures Inv(s')
  {
    if SpawnStep(s, a, s') {
      SpawnKeeps(s, a, s');
    } else if TaskStep(s, a, s') {
      TaskKeeps(s, a, s');
    } else {
      DrainKeeps(s, a, s');
    }
  }

  // ---- runs -------------------------------------------------------------------------

  function NewRegistry(): State { State(true, None, map[], {}, {}, 0, 0, 0, 0) }

  ghost predicate StepAt(actions: seq<Action>, trace: seq<State>, n: nat)
    requires n < |actions| && |trace| == |actions| + 1
  {
    Next(trace[n], actions[n], trace[n + 1])
  }

  ghost predicate IsRun(actions: seq<Action>, trace: seq<State>) {
    && |trace| == |actions| + 1
    && trace[0] == NewRegistry()
    && forall n :: 0 <= n < |actions| ==> StepAt(actions, trace, n)
  }

  lemma {:induction false} RunKeeps(actions: seq<Action>, trace: seq<State>, n: nat)
    requires IsRun(actions, trace) && n < |trace|
    ensures Inv(trace[n])
  {
    if n > 0 {
      RunKeeps(actions, trace, n - 1);
      assert StepAt(actions, trace, n - 1);
      NextKeeps(trace[n - 1], actions[n - 1], trace[n]);
    }
  }

  /** Once draining has begun, every task that has not started completing has its handle
      registered or has been aborted; a completed guard leaves no handle; and abort_all
      aborts every handle it finds. */
  lemma DrainMissesNoTask(actions: seq<Action>, trace: seq<State>, n: nat)
    requires IsRun(actions, trace) && n < |trace|
    ensures !trace[n].accepting ==>
              forall t :: t in trace[n].tasks && trace[n].tasks[t] == Running ==> t in trace[n].handles || t in trace[n].aborted
    ensures forall t :: t in trace[n].tasks && trace[n].tasks[t] != Running && trace[n].tasks[t] != Finishing ==> t !in trace[n].handles
    ensures Unfinished(trace[n]) == trace[n].handles <= trace[n].tasks.Keys
  {
    RunKeeps(actions, trace, n);
  }

  /** Once draining has begun it stays so and no task is ever added. */
  lemma {:induction false} NoneAdmittedLater(actions: seq<Action>, trace: seq<State>, n: nat, m: nat)
    requires IsRun(actions, trace) && n <= m < |trace| && !trace[n].accepting
    ensures !trace[m].accepting && trace[m].tasks.Keys == trace[n].tasks.Keys && trace[m].spawned == trace[n].spawned
    decreases m
  {
    if n < m {
      NoneAdmittedLater(actions, trace, n, m - 1);
      RunKeeps(actions, trace, m - 1);
      assert StepAt(actions, trace, m - 1);
    }
  }

  /** Started tasks are the active ones, the completed ones, and those whose guard is between
      the two counters; a spawn between its own two counters is one ahead. */
  lemma TasksAddUp(actions: seq<Action>, trace: seq<State>, n: nat)
    requires IsRun(actions, trace) && n < |trace|
    ensures trace[n].spawned + (if trace[n].spawn == Some(Activated) then 1 else 0) ==
            trace[n].active + |At(trace[n].tasks, Deactivated)| + trace[n].completed
    ensures (forall t :: t in trace[n].tasks ==> trace[n].tasks[t] == Completed) && trace[n].spawn.None? ==>
              trace[n].active == 0 && trace[n].completed == trace[n].spawned
    ensures At(trace[n].tasks, Unhandled) != {} ==> trace[n].active > 0
  {
    RunKeeps(actions, trace, n);
    var tasks := trace[n].tasks;
    if forall t :: t in tasks ==> tasks[t] == Completed {
      assert At(tasks, Running) == {} && At(tasks, Finishing) == {} && At(tasks, Unhandled) == {} && At(tasks, Deactivated) == {};
    }
  }

  // ---- what the calls achieve when nobody interferes ---------------------------------------

  /** While tasks are accepted a spawn starts one, with its abort handle registered and
      counted. */
  lemma SpawnStarts(s: State) returns (s1: State, s2: State, s3: State, s4: State, s5: State, s6: State, s7: State, s8: State, s9: State)
    requires s.accepting && s.spawn.None?
    ensures SpawnStep(s, Enter, s1) && SpawnStep(s1, Activate, s2) && SpawnStep(s2, Tally, s3) && SpawnStep(s3, Number, s4)
    ensures SpawnStep(s4, Start, s5) && SpawnStep(s5, Lock, s6) && SpawnStep(s6, LoadFinished, s7)
    ensures SpawnStep(s7, Insert, s8) && SpawnStep(s8, Leave, s9)
    ensures s9 == s.(tasks := s.tasks[s.nextId := Running], handles := s.handles + {s.nextId}, nextId := s.nextId + 1,
                     active := s.active + 1, spawned := s.spawned + 1)
  {
    s1, s2, s3, s4 := SpawnCounts(s);
    s5, s6, s7, s8, s9 := SpawnRegisters(s4, s.nextId);
  }

  lemma SpawnCounts(s: State) returns (s1: State, s2: State, s3: State, s4: State)
    requires s.accepting && s.spawn.None?
    ensures SpawnStep(s, Enter, s1) && SpawnStep(s1, Activate, s2) && SpawnStep(s2, Tally, s3) && SpawnStep(s3, Number, s4)
    ensures s4 == s.(spawn := Some(Numbered(s.nextId)), nextId := s.nextId + 1, active := s.active + 1, spawned := s.spawned + 1)
  {
    s1 := s.(spawn := Some(Admitted));
    s2 := s1.(active := s.active + 1, spawn := Some(Activated));
    s3 := s2.(spawned := s.spawned + 1, spawn := Some(Tallied));
    s4 := s3.(nextId := s.nextId + 1, spawn := Some(Numbered(s.nextId)));
  }

  lemma SpawnRegisters(s: State, id: nat) returns (s1: State, s2: State, s3: State, s4: State, s5: State)
    requires s.spawn == Some(Numbered(id))
    ensures SpawnStep(s, Start, s1) && SpawnStep(s1, Lock, s2) && SpawnStep(s2, LoadFinished, s3)
    ensures SpawnStep(s3, Insert, s4) && SpawnStep(s4, Leave, s5)
    ensures s5 == s.(tasks := s.tasks[id := Running], handles := s.handles + {id}, spawn := None)
  {
    s1 := s.(tasks := s.tasks[id := Running], spawn := Some(Started(id)));
    s2 := s1.(spawn := Some(Locked(id)));
    s3 := s2.(spawn := Some(Looked(id, true)));
    s4 := s3.(handles := s.handles + {id}, spawn := Some(Registered));
    s5 := s4.(spawn := None);
  }

  /** A running task completes: its handle goes, and it moves from active to completed. */
  lemma TaskCompletes(s: State, t: nat) returns (s1: State, s2: State, s3: State, s4: State)
    requires Inv(s) && t in s.tasks && s.tasks[t] == Running && !HandlesLocked(s)
    ensures Next(s, Finish(t), s1) && Next(s1, Unhandle(t), s2) && Next(s2, Deactivate(t), s3) && Next(s3, Complete(t), s4)
    ensures s.active > 0
    ensures s4 == s.(tasks := s.tasks[t := Completed], handles := s.handles - {t}, active := s.active - 1, completed := s.completed + 1)
  {
    assert t in At(s.tasks, Running);
    s1 := s.(tasks := s.tasks[t := Finishing]);
    s2 := s1.(tasks := s1.tasks[t := Unhandled], handles := s1.handles - {t});
    s3 := s2.(tasks := s2.tasks[t := Deactivated], active := s2.active - 1);
    s4 := s3.(tasks := s3.tasks[t := Completed], completed := s3.completed + 1);
    assert s4.tasks == s.tasks[t := Completed];
  }

  /** Draining closes the registry, a closed registry refuses, and aborting takes every handle
      of a task that is not over. */
  lemma DrainCloses(s: State, a: Action, s': State)
    requires Next(s, a, s')
    ensures a == BeginDraining ==> s' == s.(accepting := false)
    ensures a == Enter && !s.accepting ==> s' == s
    ensures a == AbortAll ==> s'.handles == {} && forall t :: t in s.handles && t in s.tasks && s.tasks[t] != Completed ==> t in s'.aborted
  {
  }
}
