/**
 * Owner IDs and the conversion of control methods (dep/acpica/dispatcher/dsmethod.c): which steps may change them.
 */
module OwnerIds {
  import opened ControlMethods

  /** The step is an entry into method `m`, with the owner ID it would allocate. */
  ghost predicate Enters(s: State, a: Action, m: MethodId, newOwner: nat)
    requires Enabled(s, a) && m in s.methods && m in Step(s, a).methods
  {
    && (a.Begin? || a.Resume?) && a.newOwner == newOwner
    && |Step(s, a).methods[m].active| == |s.methods[m].active| + 1
  }


  /** What a step can do to the owner ID: nothing, the first entry's allocation, or the last exit's release. */
  ghost predicate OwnerMoves(d: Method, d': Method, newOwner: nat) {
    && d'.moduleLevel == d.moduleLevel
    && (|| (d'.active == d.active && d'.ownerId == d.ownerId)
        || (|d'.active| == |d.active| + 1 && d'.ownerId == if d.ownerId == NO_OWNER then newOwner else d.ownerId)
        || (|d'.active| + 1 == |d.active| && (d'.active != multiset{} || d.moduleLevel) && d'.ownerId == d.ownerId)
        || (d'.active == multiset{} && |d.active| == 1 && !d.moduleLevel && d'.ownerId == NO_OWNER))
  }

  function NewOwner(a: Action): nat {
    if a.Begin? || a.Resume? then a.newOwner else NO_OWNER
  }

  lemma ResumeMoves(s: State, t: Thread, newOwner: nat, m: MethodId)
    requires CanResume(s, t) && m in s.methods
    ensures var s' := Resuming(s, t, newOwner); m in s'.methods && OwnerMoves(s.methods[m], s'.methods[m], newOwner)
  {
  }

  lemma BeginMoves(s: State, t: Thread, m: MethodId, newOwner: nat, k: MethodId)
    requires Enabled(s, Begin(t, m, newOwner)) && k in s.methods
    ensures var s' := Beginning(s, t, m, newOwner).0;
            k in s'.methods && OwnerMoves(s.methods[k], s'.methods[k], newOwner)
  {
    var c, d := s.threads[t], s.methods[m];
    var d1 := CreateMutex(d);
    if d.threadCount != REENTRANCY_LIMIT && d.serialized {
      if !OrderViolated(d1, c.stack != [], c.level) && MustAcquire(d1, t, c.stack != [])
        && d1.mutex.value.holder.None? {
        var waiting := With(s, t, c.(pc := Blocked(m)), m, d1);
        ResumeMoves(Granting(waiting, t), t, newOwner, k);
        assert Beginning(s, t, m, newOwner).0 == Resuming(Granting(waiting, t), t, newOwner);
      }
    }
  }

  lemma TerminateMoves(s: State, t: Thread, m: MethodId)
    requires Inv(s) && Enabled(s, Terminate(t)) && m in s.methods
    ensures var s' := Terminating(s, t); m in s'.methods && OwnerMoves(s.methods[m], s'.methods[m], NO_OWNER)
  {
    var c := s.threads[t];
    if m == c.stack[|c.stack| - 1] {
      InvAt(s, t, m);
      var d := s.methods[m];
      assert t in d.active;
      assert |d.active - multiset{t}| == |d.active| - 1;
      assert |d.active| == 1 ==> d.active - multiset{t} == multiset{};
    }
  }

  lemma StepMoves(s: State, a: Action, m: MethodId)
    requires Inv(s) && Enabled(s, a) && m in s.methods
    ensures m in Step(s, a).methods && OwnerMoves(s.methods[m], Step(s, a).methods[m], NewOwner(a))
  {
    match a
    case Begin(t, k, newOwner) => BeginMoves(s, t, k, newOwner, m);
    case Resume(t, newOwner) => ResumeMoves(s, t, newOwner, m);
    case Terminate(t) => TerminateMoves(s, t, m);
    case Grant(t) =>
    case MarkPending(k) =>
  }

  /** A method that runs before and after a step has the same owner ID before and after. */
  lemma OwnerKeptWhileRunning(s: State, a: Action, m: MethodId)
    requires Reachable(s) && Enabled(s, a) && m in s.methods && s.methods[m].threadCount > 0
    ensures m in Step(s, a).methods
    ensures Step(s, a).methods[m].threadCount > 0 || s.methods[m].moduleLevel ==>
              Step(s, a).methods[m].ownerId == s.methods[m].ownerId
  {
    ReachableInv(s);
    StepKeepsInv(s, a);
    StepMoves(s, a, m);
    assert MethodOk(s, m) && MethodOk(Step(s, a), m);
  }

  /** The entry into a method without an owner ID gives it the one allocated for that entry. */
  lemma FirstEntryAllocates(s: State, a: Action, m: MethodId, newOwner: nat)
    requires Reachable(s) && Enabled(s, a) && m in s.methods && m in Step(s, a).methods && Enters(s, a, m, newOwner)
    ensures Step(s, a).methods[m].ownerId == if s.methods[m].ownerId == NO_OWNER then newOwner else s.methods[m].ownerId
    ensures s.methods[m].threadCount == 0 && !s.methods[m].moduleLevel ==> Step(s, a).methods[m].ownerId == newOwner
  {
    ReachableInv(s);
    StepMoves(s, a, m);
    assert MethodOk(s, m);
  }

  /** Throughout an invocation the method has the owner ID it was entered with, whatever anybody does meanwhile. */
  lemma {:induction false} OwnerThroughout(s: State, actions: seq<Action>, s': State, t: Thread, floor: seq<MethodId>,
                                           m: MethodId)
    requires Inv(s) && ReachesAbove(s, actions, s', t, floor) && m in floor
    ensures m in s.methods && m in s'.methods && s.methods[m].ownerId != NO_OWNER
    ensures s'.methods[m].ownerId == s.methods[m].ownerId
    decreases |actions|
  {
    Inside(s, t, floor, m);
    if actions != [] {
      var next := Step(s, actions[0]);
      StepKeepsInv(s, actions[0]);
      StepMoves(s, actions[0], m);
      OwnerThroughout(next, actions[1..], s', t, floor, m);
      Inside(next, t, floor, m);
    }
  }

  lemma Inside(s: State, t: Thread, floor: seq<MethodId>, m: MethodId)
    requires Inv(s) && t in s.threads && floor <= s.threads[t].stack && m in floor
    ensures m in s.methods && s.methods[m].active != multiset{} && s.methods[m].ownerId != NO_OWNER
  {
    assert m in s.threads[t].stack;
    assert ThreadOk(s, t);
    InvAt(s, t, m);
    assert t in s.methods[m].active;
  }

  /** Module-level code keeps the owner ID it got on its first entry. */
  lemma {:induction false} ModuleKeepsOwner(s: State, actions: seq<Action>, s': State, m: MethodId)
    requires Inv(s) && Reaches(s, actions, s') && m in s.methods
    requires s.methods[m].moduleLevel && s.methods[m].ownerId != NO_OWNER
    ensures m in s'.methods && s'.methods[m].ownerId == s.methods[m].ownerId && s'.methods[m].moduleLevel
    decreases |actions|
  {
    if actions != [] {
      StepKeepsInv(s, actions[0]);
      StepMoves(s, actions[0], m);
      ModuleKeepsOwner(Step(s, actions[0]), actions[1..], s', m);
    }
  }

  // ----- Conversion

  lemma EndedSerialized(d: Method, t: Thread)
    requires MethodInv(d) && t in d.active
    ensures Ended(d, t).serialized <==> d.serialized || (d.serializedPending && |d.active| == 1)
    ensures Ended(d, t).serializedPending <==> d.serializedPending && |d.active| > 1
  {
  }

  predicate Exits(s: State, a: Action, m: MethodId)
    requires Enabled(s, a)
  {
    a.Terminate? && s.threads[a.t].stack[|s.threads[a.t].stack| - 1] == m
  }

  lemma ExitConverts(s: State, t: Thread, m: MethodId)
    requires Inv(s) && Enabled(s, Terminate(t)) && Exits(s, Terminate(t), m) && m in s.methods
    ensures m in Terminating(s, t).methods
    ensures Terminating(s, t).methods[m].serialized
            <==> s.methods[m].serialized || (s.methods[m].serializedPending && s.methods[m].threadCount == 1)
  {
    InvAt(s, t, m);
    assert t in s.methods[m].active;
    EndedSerialized(s.methods[m], t);
  }

  lemma OthersAreNotConverted(s: State, a: Action, m: MethodId)
    requires Inv(s) && Enabled(s, a) && m in s.methods && !Exits(s, a, m)
    ensures m in Step(s, a).methods && Step(s, a).methods[m].serialized == s.methods[m].serialized
  {
    match a
    case Begin(t, k, newOwner) => BeginConfig(s, t, k, newOwner, m);
    case Terminate(t) =>
    case _ => WaitConfig(s, a, m);
  }

  /** Only the exit of the last thread converts a method, and only if it has been marked. */
  lemma ConvertedByLastExit(s: State, a: Action, m: MethodId)
    requires Reachable(s) && Enabled(s, a) && m in s.methods && m in Step(s, a).methods && !s.methods[m].serialized
    ensures Step(s, a).methods[m].serialized
            <==> Exits(s, a, m) && s.methods[m].serializedPending && s.methods[m].threadCount == 1
  {
    ReachableInv(s);
    if Exits(s, a, m) {
      ExitConverts(s, a.t, m);
    } else {
      OthersAreNotConverted(s, a, m);
    }
  }

  // ----- Refusals

  /**
   * A call is refused exactly if 255 invocations are in progress, or if it comes from within a method at a level above
   * that of a serialized method that takes part in the order; it then changes nothing but that the mutex may be made.
   */
  lemma RefusedExactly(s: State, t: Thread, m: MethodId, newOwner: nat)
    requires Reachable(s) && Enabled(s, Begin(t, m, newOwner))
    ensures var (s', outcome) := Beginning(s, t, m, newOwner);
            var c, d := s.threads[t], s.methods[m];
            && (outcome == LimitReached <==> |d.active| == REENTRANCY_LIMIT)
            && (outcome == OrderError
                <==> |d.active| < REENTRANCY_LIMIT && d.serialized && c.stack != [] && !d.ignoreSyncLevel
                     && c.level > d.syncLevel)
            && (outcome == LimitReached || outcome == OrderError ==>
                  s'.threads == s.threads && s' == s.(methods := s.methods[m := s'.methods[m]])
                  && s'.methods[m] == d.(mutex := s'.methods[m].mutex))
            && (outcome == Entry <==> s'.threads[t].stack == c.stack + [m])
            && (outcome == Wait <==> s'.threads[t].pc == Blocked(m))
  {
    ReachableInv(s);
    assert MethodOk(s, m);
    var d := s.methods[m];
    assert d == d.(mutex := d.mutex);
    assert s.methods == s.methods[m := d] && s.threads == s.threads[t := s.threads[t]];
  }
}
