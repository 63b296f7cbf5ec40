/**
 * Deadlock among control methods (dep/acpica/dispatcher/dsmethod.c): what the order check of sync levels prevents, and
 * exactly which systems of methods can still deadlock. Any thread may call any method, and any method that runs without
 * being serialized may be marked to become so.
 */
module Deadlock {
  import opened ControlMethods
  import opened Wrappers

  /** Thread `t` is blocked on the mutex of a method that thread `u` holds. */
  predicate WaitsFor(s: State, t: Thread, u: Thread) {
    && Known(s, t) && u in s.threads && s.threads[t].pc.Blocked?
    && var d := s.methods[s.threads[t].pc.m];
       d.mutex.Some? && d.mutex.value.holder == Some(u)
  }

  function After(ts: seq<Thread>, i: nat): Thread
    requires i < |ts|
  {
    if i + 1 < |ts| then ts[i + 1] else ts[0]
  }

  ghost predicate WaitsAt(s: State, ts: seq<Thread>, i: int) {
    0 <= i < |ts| ==> WaitsFor(s, ts[i], After(ts, i))
  }

  /** Each thread waits for the next, and the last for the first. */
  ghost predicate WaitCycle(s: State, ts: seq<Thread>) {
    ts != [] && forall i :: WaitsAt(s, ts, i)
  }

  /** The method on whose mutex a thread is blocked. */
  function Awaited(s: State, t: Thread): Option<Method> {
    if Known(s, t) && s.threads[t].pc.Blocked? then Some(s.methods[s.threads[t].pc.m]) else None
  }

  function LevelAwaited(s: State, t: Thread): nat {
    if Awaited(s, t).Some? then Awaited(s, t).value.syncLevel else 0
  }

  predicate AwaitsLevel(s: State, t: Thread) {
    Awaited(s, t).Some? && !Awaited(s, t).value.ignoreSyncLevel
  }

  /** A cycle among methods that take part in the order of sync levels: none of them is auto-serialized. */
  ghost predicate LeveledCycle(s: State, ts: seq<Thread>) {
    WaitCycle(s, ts) && forall t :: t in ts ==> AwaitsLevel(s, t)
  }

  // ----- What a blocked thread holds

  lemma {:induction false} FirstOccurrence(stack: seq<MethodId>, m: MethodId) returns (i: nat)
    requires m in stack
    ensures i < |stack| && stack[i] == m && m !in stack[..i]
  {
    if stack[0] == m {
      i := 0;
    } else {
      var j := FirstOccurrence(stack[1..], m);
      i := j + 1;
      assert stack[..i] == [stack[0]] + stack[1..][..j];
    }
  }

  /** A blocked thread is inside the methods it holds, and outside the one it waits for. */
  lemma HoldersAreInside(s: State, t: Thread, u: Thread)
    requires Inv(s) && WaitsFor(s, t, u) && Known(s, u) && s.threads[u].pc.Blocked?
    ensures s.threads[t].pc.m in s.threads[u].stack && s.threads[u].pc.m !in s.threads[u].stack
    ensures t != u && s.threads[t].pc.m != s.threads[u].pc.m
  {
    var m := s.threads[t].pc.m;
    InvAt(s, u, m);
    InvAt(s, t, m);
    InvAt(s, u, s.threads[u].pc.m);
    assert u in s.methods[m].active;
  }

  /** A thread that is itself blocked holds no mutex of a higher level than the one it waits for. */
  lemma HeldIsNoHigher(s: State, t: Thread, u: Thread)
    requires Inv(s) && WaitsFor(s, t, u) && AwaitsLevel(s, t) && AwaitsLevel(s, u)
    ensures LevelAwaited(s, t) <= LevelAwaited(s, u)
  {
    var c, m := s.threads[u], s.threads[t].pc.m;
    HoldersAreInside(s, t, u);
    InvAt(s, u, m);
    InvAt(s, u, c.pc.m);
    var i := FirstOccurrence(c.stack, m);
    LevelCovers(s.methods, c, i, |c.stack|);
    assert c.stack[..|c.stack|] == c.stack;
  }

  lemma CycleAt(s: State, ts: seq<Thread>, i: nat)
    requires Inv(s) && WaitCycle(s, ts) && i < |ts|
    ensures WaitsFor(s, ts[i], After(ts, i)) && Known(s, After(ts, i)) && s.threads[After(ts, i)].pc.Blocked?
    ensures ts[i] != After(ts, i) && s.threads[ts[i]].pc.m != s.threads[After(ts, i)].pc.m
  {
    assert WaitsAt(s, ts, i) && WaitsAt(s, ts, if i + 1 < |ts| then i + 1 else 0);
    HoldersAreInside(s, ts[i], After(ts, i));
  }

  lemma {:induction false} LevelsRise(s: State, ts: seq<Thread>, i: nat, j: nat)
    requires Inv(s) && LeveledCycle(s, ts) && i <= j < |ts|
    ensures LevelAwaited(s, ts[i]) <= LevelAwaited(s, ts[j])
    decreases j
  {
    if i < j {
      LevelsRise(s, ts, i, j - 1);
      CycleAt(s, ts, j - 1);
      HeldIsNoHigher(s, ts[j - 1], ts[j]);
    }
  }

  /** The order check leaves no deadlock among methods of different sync levels, auto-serialized ones aside. */
  lemma DeadlockHasOneLevel(s: State, ts: seq<Thread>, i: nat)
    requires Reachable(s) && LeveledCycle(s, ts) && i < |ts|
    ensures |ts| > 1 && LevelAwaited(s, ts[i]) == LevelAwaited(s, ts[0])
  {
    ReachableInv(s);
    var n := |ts| - 1;
    LevelsRise(s, ts, 0, i);
    LevelsRise(s, ts, i, n);
    CycleAt(s, ts, n);
    HeldIsNoHigher(s, ts[n], ts[0]);
  }

  // ----- What no step changes about a method

  /** A serialized method keeps its level; one that becomes serialized is auto-serialized. */
  predicate KeptFrom(was: Method, d: Method) {
    && (was.serialized ==> d.serialized && d.ignoreSyncLevel == was.ignoreSyncLevel && d.syncLevel == was.syncLevel)
    && (!was.serialized && d.serialized ==> d.ignoreSyncLevel)
  }

  ghost predicate KeptAt(s: State, s': State, m: MethodId) {
    m in s.methods && m in s'.methods ==> KeptFrom(s.methods[m], s'.methods[m])
  }

  ghost predicate SystemKept(s: State, s': State) {
    s'.methods.Keys == s.methods.Keys && s'.threads.Keys == s.threads.Keys && forall m :: KeptAt(s, s', m)
  }

  lemma BeginKeepsKeys(s: State, t: Thread, m: MethodId, newOwner: nat)
    requires Enabled(s, Begin(t, m, newOwner))
    ensures var s' := Beginning(s, t, m, newOwner).0;
            s'.methods.Keys == s.methods.Keys && s'.threads.Keys == s.threads.Keys
  {
  }

  lemma StepKeepsKeys(s: State, a: Action)
    requires Enabled(s, a)
    ensures Step(s, a).methods.Keys == s.methods.Keys && Step(s, a).threads.Keys == s.threads.Keys
  {
    if a.Begin? {
      BeginKeepsKeys(s, a.t, a.m, a.newOwner);
    }
  }

  lemma EndedKept(d: Method, t: Thread)
    requires MethodInv(d)
    ensures KeptFrom(d, Ended(d, t))
  {
  }

  lemma StepKeepsSystem(s: State, a: Action)
    requires Inv(s) && Enabled(s, a)
    ensures SystemKept(s, Step(s, a))
  {
    StepKeepsKeys(s, a);
    forall m
      ensures KeptAt(s, Step(s, a), m)
    {
      if m in s.methods {
        StepKeepsMethod(s, a, m);
      }
    }
  }

  lemma StepKeepsMethod(s: State, a: Action, m: MethodId)
    requires Inv(s) && Enabled(s, a) && m in s.methods
    ensures KeptAt(s, Step(s, a), m)
  {
    match a
    case Begin(t, k, newOwner) => BeginConfig(s, t, k, newOwner, m);
    case Terminate(t) =>
      assert MethodOk(s, m);
      EndedKept(s.methods[m], t);
    case _ => WaitConfig(s, a, m);
  }

  ghost predicate Follows(start: State, s: State) {
    exists actions :: Reaches(start, actions, s)
  }

  lemma {:induction false} RunKeepsSystem(s: State, actions: seq<Action>, s': State)
    requires Inv(s) && Reaches(s, actions, s')
    ensures SystemKept(s, s')
    decreases |actions|
  {
    if actions != [] {
      var next := Step(s, actions[0]);
      StepKeepsSystem(s, actions[0]);
      StepKeepsInv(s, actions[0]);
      RunKeepsSystem(next, actions[1..], s');
      forall m
        ensures KeptAt(s, s', m)
      {
        assert KeptAt(s, next, m) && KeptAt(next, s', m);
      }
    }
  }

  // ----- Which systems can deadlock

  /** Auto-serialized, or still able to become so. */
  predicate MayBeAuto(d: Method) {
    !d.serialized || d.ignoreSyncLevel
  }

  /** The level a thread gets by calling the method first, once it is serialized. */
  function EntryLevel(d: Method): nat {
    if d.serialized then d.syncLevel else 0
  }

  ghost predicate LowEntry(methods: map<MethodId, Method>, m: MethodId, c: MethodId) {
    c in methods && m in methods && c != m && EntryLevel(methods[c]) <= methods[m].syncLevel
  }

  /**
   * Two methods that two threads can hold against each other: both may be auto-serialized; or one of them may, and a
   * thread can start low enough to be allowed to wait for the other; or both have the same sync level.
   */
  ghost predicate Prone(methods: map<MethodId, Method>, m1: MethodId, m2: MethodId) {
    && m1 in methods && m2 in methods && m1 != m2
    && if MayBeAuto(methods[m1]) then MayBeAuto(methods[m2]) || exists c :: LowEntry(methods, m2, c)
       else !MayBeAuto(methods[m2]) && methods[m1].syncLevel == methods[m2].syncLevel
  }

  ghost predicate SameLevel(methods: map<MethodId, Method>, m1: MethodId, m2: MethodId) {
    && m1 in methods && m2 in methods && m1 != m2 && !MayBeAuto(methods[m1]) && !MayBeAuto(methods[m2])
    && methods[m1].syncLevel == methods[m2].syncLevel
  }

  ghost predicate TwoThreads(s: State) {
    exists t, u :: t in s.threads && u in s.threads && t != u
  }

  ghost predicate CanDeadlock(start: State) {
    exists s, ts :: Follows(start, s) && WaitCycle(s, ts)
  }

  ghost predicate CanDeadlockLeveled(start: State) {
    exists s, ts :: Follows(start, s) && LeveledCycle(s, ts)
  }

  // ----- Only these can

  lemma {:induction false} LevelFromStart(methods: map<MethodId, Method>, c: Context, j: nat)
    requires ThreadInv(methods, c) && j <= |c.stack|
    ensures LevelAfter(methods, c.start, c.stack[..j]) >= c.start
    decreases j
  {
    if j > 0 {
      assert c.stack[..j][..j - 1] == c.stack[..j - 1];
      assert Acquires(methods, c.stack[..j], j - 1) <==> Acquires(methods, c.stack, j - 1);
      LevelFromStart(methods, c, j - 1);
      if Acquires(methods, c.stack, j - 1) {
        assert AcquiredAt(methods, c, j - 1);
      }
    }
  }

  /** A blocked thread that is inside a method has started at a level no higher than that of the one it waits for. */
  lemma StartedLow(start: State, s: State, u: Thread)
    requires Inv(s) && SystemKept(start, s) && AwaitsLevel(s, u) && s.threads[u].stack != []
    requires s.threads[u].pc.m !in s.threads[u].stack
    ensures LowEntry(start.methods, s.threads[u].pc.m, s.threads[u].stack[0])
  {
    var c := s.threads[u];
    var m, first := c.pc.m, c.stack[0];
    InvAt(s, u, m);
    LevelFromStart(s.methods, c, |c.stack|);
    assert c.stack[..|c.stack|] == c.stack;
    assert KeptAt(start, s, m) && KeptAt(start, s, first);
  }

  lemma CycleIsProne(start: State, s: State, ts: seq<Thread>, i: nat)
    requires Inv(s) && SystemKept(start, s) && WaitCycle(s, ts) && i < |ts| && !AwaitsLevel(s, ts[i])
    ensures exists m1, m2 :: Prone(start.methods, m1, m2)
  {
    CycleAt(s, ts, i);
    var t, u := ts[i], After(ts, i);
    var m1, m2 := s.threads[t].pc.m, s.threads[u].pc.m;
    HoldersAreInside(s, t, u);
    assert KeptAt(start, s, m1) && KeptAt(start, s, m2);
    InvAt(s, t, m1);
    InvAt(s, u, m2);
    if AwaitsLevel(s, u) {
      StartedLow(start, s, u);
    }
    assert Prone(start.methods, m1, m2);
  }

  lemma LeveledCycleIsSameLevel(start: State, s: State, ts: seq<Thread>)
    requires Reachable(s) && SystemKept(start, s) && LeveledCycle(s, ts)
    ensures TwoThreads(start) && exists m1, m2 :: SameLevel(start.methods, m1, m2)
  {
    ReachableInv(s);
    DeadlockHasOneLevel(s, ts, if |ts| > 1 then 1 else 0);
    CycleAt(s, ts, 0);
    var t, u := ts[0], After(ts, 0);
    var m1, m2 := s.threads[t].pc.m, s.threads[u].pc.m;
    assert AwaitsLevel(s, t) && AwaitsLevel(s, u);
    assert KeptAt(start, s, m1) && KeptAt(start, s, m2);
    InvAt(s, t, m1);
    InvAt(s, u, m2);
    assert SameLevel(start.methods, m1, m2);
  }

  lemma StartInv(s: State)
    requires Start(s)
    ensures Inv(s) && Reachable(s)
  {
    assert Reaches(s, [], s);
    ReachableInv(s);
  }

  lemma FollowsStart(start: State, s: State)
    requires Start(start) && Follows(start, s)
    ensures Reachable(s) && Inv(s) && SystemKept(start, s)
  {
    var actions :| Reaches(start, actions, s);
    StartInv(start);
    ReachableInv(s);
    RunKeepsSystem(start, actions, s);
  }

  lemma DeadlockIsProne(start: State, s: State, ts: seq<Thread>)
    requires Start(start) && Follows(start, s) && WaitCycle(s, ts)
    ensures TwoThreads(start) && exists m1, m2 :: Prone(start.methods, m1, m2)
  {
    FollowsStart(start, s);
    CycleAt(s, ts, 0);
    assert ts[0] in start.threads && After(ts, 0) in start.threads;
    if LeveledCycle(s, ts) {
      LeveledCycleIsSameLevel(start, s, ts);
      var m1, m2 :| SameLevel(start.methods, m1, m2);
      assert Prone(start.methods, m1, m2);
    } else {
      var t :| t in ts && !AwaitsLevel(s, t);
      var i :| 0 <= i < |ts| && ts[i] == t;
      CycleIsProne(start, s, ts, i);
    }
  }

  // ----- All of these can

  lemma {:induction false} ReachesStep(start: State, actions: seq<Action>, s: State, a: Action)
    requires Reaches(start, actions, s) && Enabled(s, a)
    ensures Reaches(start, actions + [a], Step(s, a))
    decreases |actions|
  {
    if actions == [] {
      assert [] + [a] == [a] && [a][1..] == [];
      assert Reaches(Step(s, a), [], Step(s, a));
    } else {
      ReachesStep(Step(start, actions[0]), actions[1..], s, a);
      assert (actions + [a])[1..] == actions[1..] + [a];
    }
  }

  lemma OneMore(start: State, s: State, a: Action) returns (s': State)
    requires Follows(start, s) && Enabled(s, a)
    ensures Follows(start, s') && s' == Step(s, a)
  {
    s' := Step(s, a);
    var actions :| Reaches(start, actions, s);
    ReachesStep(start, actions, s, a);
  }

  predicate Idle(s: State, t: Thread) {
    t in s.threads && s.threads[t].stack == [] && s.threads[t].pc == Running
  }

  /** A serialized method that has not been called since it became so. */
  predicate Fresh(s: State, m: MethodId) {
    m in s.methods && s.methods[m].serialized && s.methods[m].mutex == None && s.methods[m].threadCount == 0
  }

  /** Method `was` is now inside thread `t`, which holds its mutex. */
  predicate HeldBy(d: Method, t: Thread, was: Method) {
    && d.mutex.Some? && d.mutex.value.holder == Some(t) && d.mutex.value.threadId == t
    && d.mutex.value.syncLevel == was.syncLevel && d.threadCount == 1
    && d.serialized && d.ignoreSyncLevel == was.ignoreSyncLevel && d.syncLevel == was.syncLevel
  }

  /** Whether the order check lets thread `t` call method `m`. */
  predicate MayCall(s: State, t: Thread, m: MethodId)
    requires t in s.threads && m in s.methods
  {
    s.threads[t].stack == [] || s.methods[m].ignoreSyncLevel || s.threads[t].level <= s.methods[m].syncLevel
  }

  function Inside(c: Context, m: MethodId, d: Method): Context {
    if c.stack == [] then Context(d.syncLevel, d.syncLevel, [m], Running)
    else Context(LevelInside(d, c.level), c.start, c.stack + [m], Running)
  }

  lemma Enter(start: State, s: State, t: Thread, m: MethodId) returns (s': State)
    requires Follows(start, s) && t in s.threads && s.threads[t].pc == Running && Fresh(s, m) && MayCall(s, t, m)
    ensures Follows(start, s') && m in s'.methods && HeldBy(s'.methods[m], t, s.methods[m])
    ensures s'.methods == s.methods[m := s'.methods[m]]
    ensures s'.threads == s.threads[t := Inside(s.threads[t], m, s.methods[m])]
  {
    s' := OneMore(start, s, Begin(t, m, 1));
  }

  lemma Block(start: State, s: State, t: Thread, m: MethodId, u: Thread, was: Method) returns (s': State)
    requires Follows(start, s) && t in s.threads && s.threads[t].pc == Running && s.threads[t].stack != []
    requires m in s.methods && HeldBy(s.methods[m], u, was) && u != t && MayCall(s, t, m)
    ensures Follows(start, s') && s'.methods == s.methods
    ensures s'.threads == s.threads[t := s.threads[t].(pc := Blocked(m))]
  {
    s' := OneMore(start, s, Begin(t, m, 1));
    assert s.methods == s.methods[m := s.methods[m]];
  }

  /** Two threads inside one method each call the other's. */
  lemma Embrace(start: State, s: State, t1: Thread, t2: Thread, m1: MethodId, m2: MethodId, was1: Method, was2: Method)
    returns (s': State)
    requires Follows(start, s) && t1 in s.threads && t2 in s.threads && t1 != t2
    requires m1 in s.methods && HeldBy(s.methods[m1], t1, was1) && m2 in s.methods && HeldBy(s.methods[m2], t2, was2)
    requires s.threads[t1].pc == Running && s.threads[t1].stack != [] && MayCall(s, t1, m2)
    requires s.threads[t2].pc == Running && s.threads[t2].stack != [] && MayCall(s, t2, m1)
    ensures Follows(start, s') && WaitCycle(s', [t1, t2])
    ensures !s.methods[m1].ignoreSyncLevel && !s.methods[m2].ignoreSyncLevel ==> LeveledCycle(s', [t1, t2])
  {
    var between := Block(start, s, t1, m2, t2, was2);
    s' := Block(start, between, t2, m1, t1, was1);
    assert WaitsFor(s', t1, t2) && WaitsFor(s', t2, t1);
  }

  /** Two idle threads enter one method each, and then call the other's. */
  lemma Cross(start: State, s: State, t1: Thread, t2: Thread, m1: MethodId, m2: MethodId) returns (s': State)
    requires Follows(start, s) && Idle(s, t1) && Idle(s, t2) && t1 != t2 && Fresh(s, m1) && Fresh(s, m2) && m1 != m2
    requires s.methods[m2].ignoreSyncLevel || s.methods[m1].syncLevel <= s.methods[m2].syncLevel
    requires s.methods[m1].ignoreSyncLevel || s.methods[m2].syncLevel <= s.methods[m1].syncLevel
    ensures Follows(start, s') && WaitCycle(s', [t1, t2])
    ensures !s.methods[m1].ignoreSyncLevel && !s.methods[m2].ignoreSyncLevel ==> LeveledCycle(s', [t1, t2])
  {
    var first := Enter(start, s, t1, m1);
    var both := Enter(start, first, t2, m2);
    s' := Embrace(start, both, t1, t2, m1, m2, s.methods[m1], s.methods[m2]);
  }

  /** The first thread goes through method `c`, which puts it low enough to wait for `m2`. */
  lemma CrossThrough(start: State, s: State, t1: Thread, t2: Thread, c: MethodId, m1: MethodId, m2: MethodId)
    returns (s': State)
    requires Follows(start, s) && Idle(s, t1) && Idle(s, t2) && t1 != t2
    requires Fresh(s, c) && Fresh(s, m1) && Fresh(s, m2) && c != m1 && c != m2 && m1 != m2
    requires s.methods[m1].ignoreSyncLevel && s.methods[c].syncLevel <= s.methods[m2].syncLevel
    ensures Follows(start, s') && WaitCycle(s', [t1, t2])
  {
    var low := Enter(start, s, t1, c);
    var first := Enter(start, low, t1, m1);
    var both := Enter(start, first, t2, m2);
    s' := Embrace(start, both, t1, t2, m1, m2, s.methods[m1], s.methods[m2]);
  }

  /** A method as it can be made: serialized, at once or by conversion, and not called since. */
  ghost predicate MadeOf(d: Method, was: Method) {
    && d.serialized && d.mutex == None && d.threadCount == 0
    && d.ignoreSyncLevel == MayBeAuto(was) && d.syncLevel == EntryLevel(was)
  }

  ghost predicate Uncalled(d: Method) {
    d.threadCount == 0 && d.active == multiset{} && d.mutex == None && !d.serializedPending
  }

  /** An idle thread calls a method that is not serialized, which is marked meanwhile and converted at the end. */
  lemma Convert(start: State, s: State, t: Thread, m: MethodId) returns (s': State)
    requires Follows(start, s) && Idle(s, t) && m in s.methods && Uncalled(s.methods[m]) && !s.methods[m].serialized
    ensures Follows(start, s') && Idle(s', t) && s'.threads == s.threads[t := s'.threads[t]]
    ensures m in s'.methods && s'.methods == s.methods[m := s'.methods[m]] && MadeOf(s'.methods[m], s.methods[m])
  {
    var called := OneMore(start, s, Begin(t, m, 1));
    assert called.methods[m].active == multiset{t} && called.threads[t].stack == [m];
    var marked := OneMore(start, called, MarkPending(m));
    s' := OneMore(start, marked, Terminate(t));
    assert [m][..0] == [];
  }

  lemma Prepare(start: State, s: State, t: Thread, m: MethodId) returns (s': State)
    requires Follows(start, s) && Idle(s, t) && m in s.methods && Uncalled(s.methods[m])
    ensures Follows(start, s') && Idle(s', t) && s'.threads == s.threads[t := s'.threads[t]]
    ensures m in s'.methods && s'.methods == s.methods[m := s'.methods[m]] && MadeOf(s'.methods[m], s.methods[m])
  {
    if s.methods[m].serialized {
      s' := s;
      assert s.threads == s.threads[t := s.threads[t]] && s.methods == s.methods[m := s.methods[m]];
    } else {
      s' := Convert(start, s, t, m);
    }
  }

  lemma ProneDeadlocks(start: State, t1: Thread, t2: Thread, m1: MethodId, m2: MethodId) returns (s: State)
    requires Start(start) && t1 in start.threads && t2 in start.threads && t1 != t2 && Prone(start.methods, m1, m2)
    ensures Follows(start, s) && WaitCycle(s, [t1, t2])
    ensures SameLevel(start.methods, m1, m2) ==> LeveledCycle(s, [t1, t2])
  {
    assert Reaches(start, [], start);
    var methods := start.methods;
    var one := Prepare(start, start, t1, m1);
    if MayBeAuto(methods[m1]) && !MayBeAuto(methods[m2]) {
      var c: MethodId :| LowEntry(methods, m2, c);
      if MayBeAuto(methods[c]) {
        var low := one;
        if c != m1 {
          low := Prepare(start, one, t1, c);
        }
        var ready := Prepare(start, low, t1, m2);
        s := Cross(start, ready, t1, t2, c, m2);
      } else {
        var low := Prepare(start, one, t1, c);
        var ready := Prepare(start, low, t1, m2);
        s := CrossThrough(start, ready, t1, t2, c, m1, m2);
      }
    } else {
      var ready := Prepare(start, one, t1, m2);
      s := Cross(start, ready, t1, t2, m1, m2);
    }
  }

  // ----- The exact conditions

  /** A system can deadlock exactly if it has two threads and two methods that are prone to it. */
  lemma DeadlockExactly(start: State)
    requires Start(start)
    ensures CanDeadlock(start) <==> TwoThreads(start) && exists m1, m2 :: Prone(start.methods, m1, m2)
  {
    if CanDeadlock(start) {
      var s, ts :| Follows(start, s) && WaitCycle(s, ts);
      DeadlockIsProne(start, s, ts);
    }
    if TwoThreads(start) && exists m1, m2 :: Prone(start.methods, m1, m2) {
      var t1, t2 :| t1 in start.threads && t2 in start.threads && t1 != t2;
      var m1, m2 :| Prone(start.methods, m1, m2);
      var s := ProneDeadlocks(start, t1, t2, m1, m2);
    }
  }

  /** Among methods that take part in the order, exactly if two of them have the same sync level. */
  lemma LeveledDeadlockExactly(start: State)
    requires Start(start)
    ensures CanDeadlockLeveled(start) <==> TwoThreads(start) && exists m1, m2 :: SameLevel(start.methods, m1, m2)
  {
    if CanDeadlockLeveled(start) {
      var s, ts :| Follows(start, s) && LeveledCycle(s, ts);
      FollowsStart(start, s);
      LeveledCycleIsSameLevel(start, s, ts);
    }
    if TwoThreads(start) && exists m1, m2 :: SameLevel(start.methods, m1, m2) {
      var t1, t2 :| t1 in start.threads && t2 in start.threads && t1 != t2;
      var m1, m2 :| SameLevel(start.methods, m1, m2);
      var s := ProneDeadlocks(start, t1, t2, m1, m2);
    }
  }
}
