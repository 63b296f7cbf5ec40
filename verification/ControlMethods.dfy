/**
 * Entry to and exit from control methods by many threads (dep/acpica/dispatcher/dsmethod.c), as a state machine.
 * One step is what a thread does while it holds the interpreter lock; blocking on a method mutex ends a step.
 */
module ControlMethods {
  import opened MachineWords
  import opened Wrappers

  type Thread = nat    // 0 is no thread
  type MethodId = nat

  const NO_THREAD: Thread := 0
  const NO_OWNER: nat := 0
  const REENTRANCY_LIMIT := 255

  datatype MethodMutex = MethodMutex(
    syncLevel: nat,
    holder: Option<Thread>,   // the OS mutex: who, if anyone, has taken it
    threadId: Thread,
    originalSyncLevel: nat,
    depth: nat                // AcquisitionDepth
  )

  datatype Method = Method(
    threadCount: uint8,
    serialized: bool,
    ignoreSyncLevel: bool,    // auto-serialized
    serializedPending: bool,
    moduleLevel: bool,
    syncLevel: nat,
    ownerId: nat,
    mutex: Option<MethodMutex>,
    active: multiset<Thread>  // the invocations in progress, by thread
  )

  datatype Pc = Running | Blocked(m: MethodId) | Granted(m: MethodId)

  /** A thread: its CurrentSyncLevel, the level it started with, its nested invocations and whether it waits. */
  datatype Context = Context(level: nat, start: nat, stack: seq<MethodId>, pc: Pc)

  datatype State = State(methods: map<MethodId, Method>, threads: map<Thread, Context>)

  datatype Action =
    | Begin(t: Thread, m: MethodId, newOwner: nat)
    | Grant(t: Thread)                    // the OS gives a free mutex to a waiting thread
    | Resume(t: Thread, newOwner: nat)    // which goes on when it has the interpreter back
    | Terminate(t: Thread)
    | MarkPending(m: MethodId)            // a name collision inside a method that is not serialized

  // ----- One method

  function CreateMutex(d: Method): Method {
    if d.mutex.Some? then d else d.(mutex := Some(MethodMutex(d.syncLevel, None, NO_THREAD, 0, 0)))
  }

  /** The deadlock-prevention check, made for calls from within a method only. */
  predicate OrderViolated(d: Method, nested: bool, level: nat)
    requires d.mutex.Some?
  {
    nested && !d.ignoreSyncLevel && level > d.mutex.value.syncLevel
  }

  predicate MustAcquire(d: Method, t: Thread, nested: bool)
    requires d.mutex.Some?
  {
    !nested || d.mutex.value.threadId == NO_THREAD || t != d.mutex.value.threadId
  }

  /** After the OS mutex is taken: record the owner and the level to go back to. */
  function TakeOver(d: Method, t: Thread, nested: bool, level: nat): Method
    requires d.mutex.Some?
  {
    var mutex := d.mutex.value;
    d.(mutex := Some(mutex.(threadId := t, originalSyncLevel := if nested then level else mutex.syncLevel)))
  }

  function LevelInside(d: Method, level: nat): nat {
    if d.ignoreSyncLevel then level else d.syncLevel
  }

  /** The common end of a successful entry: depth, owner ID and thread count. */
  function Counted(d: Method, t: Thread, newOwner: nat): Method {
    d.(mutex := if d.serialized && d.mutex.Some? then Some(d.mutex.value.(depth := d.mutex.value.depth + 1))
                else d.mutex,
       ownerId := if d.ownerId == NO_OWNER then newOwner else d.ownerId,
       threadCount := if d.threadCount == TWO8 - 1 then 0 else d.threadCount + 1,
       active := d.active + multiset{t})
  }

  /** Whether the invocation that ends is the outermost one that holds the mutex. */
  predicate GivesBack(d: Method) {
    d.mutex.Some? && d.mutex.value.depth == 1
  }

  /** The mutex is given back by the outermost invocation that holds it. */
  function MutexLeft(d: Method): Method {
    d.(mutex :=
      if d.mutex.None? then None
      else if GivesBack(d) then Some(d.mutex.value.(depth := 0, holder := None, threadId := NO_THREAD))
      else Some(d.mutex.value.(depth := if d.mutex.value.depth == 0 then 0 else d.mutex.value.depth - 1)))
  }

  /** The last thread to leave serializes a method that waits for it, and gives back the owner ID. */
  function ThreadLeft(d: Method, t: Thread): Method {
    var count: uint8 := if d.threadCount == 0 then 0 else d.threadCount - 1;
    var left := d.(threadCount := count, active := d.active - multiset{t});
    if count != 0 then left
    else
      var converted :=
        if d.serializedPending
        then left.(serializedPending := false, serialized := true, ignoreSyncLevel := true, syncLevel := 0)
        else left;
      if d.moduleLevel then converted else converted.(ownerId := NO_OWNER)
  }

  function Ended(d: Method, t: Thread): Method {
    ThreadLeft(MutexLeft(d), t)
  }

  // ----- The system

  function With(s: State, t: Thread, c: Context, m: MethodId, d: Method): State {
    State(s.methods[m := d], s.threads[t := c])
  }

  /** The invocation is on its way; a thread's outermost invocation starts it at the method's level. */
  function Entered(s: State, t: Thread, m: MethodId, d: Method, level: nat): State
    requires t in s.threads
  {
    var c := s.threads[t];
    var c' := if c.stack == [] then Context(d.syncLevel, d.syncLevel, [m], Running)
              else Context(level, c.start, c.stack + [m], Running);
    With(s, t, c', m, d)
  }

  predicate Known(s: State, t: Thread) {
    t in s.threads && (s.threads[t].pc != Running ==> s.threads[t].pc.m in s.methods)
  }

  predicate CanGrant(s: State, t: Thread) {
    && Known(s, t) && s.threads[t].pc.Blocked?
    && var d := s.methods[s.threads[t].pc.m];
       d.mutex.Some? && d.mutex.value.holder == None
  }

  function Granting(s: State, t: Thread): State
    requires CanGrant(s, t)
  {
    var m := s.threads[t].pc.m;
    var d := s.methods[m];
    With(s, t, s.threads[t].(pc := Granted(m)), m, d.(mutex := Some(d.mutex.value.(holder := Some(t)))))
  }

  predicate CanResume(s: State, t: Thread) {
    Known(s, t) && s.threads[t].pc.Granted? && s.methods[s.threads[t].pc.m].mutex.Some?
  }

  function Resuming(s: State, t: Thread, newOwner: nat): State
    requires CanResume(s, t)
  {
    var c := s.threads[t];
    var d := s.methods[c.pc.m];
    var owned := TakeOver(d, t, c.stack != [], c.level);
    Entered(s, t, c.pc.m, Counted(owned, t, newOwner), LevelInside(d, c.level))
  }

  datatype Outcome = Entry | Wait | LimitReached | OrderError

  /** AcpiDsBeginMethodExecution up to the point where it blocks, if it does. */
  function Beginning(s: State, t: Thread, m: MethodId, newOwner: nat): (State, Outcome)
    requires t in s.threads && m in s.methods
  {
    var c := s.threads[t];
    var d := s.methods[m];
    if d.threadCount == REENTRANCY_LIMIT then (s, LimitReached)
    else if !d.serialized then (Entered(s, t, m, Counted(d, t, newOwner), c.level), Entry)
    else
      var d1 := CreateMutex(d);
      if OrderViolated(d1, c.stack != [], c.level) then (With(s, t, c, m, d1), OrderError)
      else if !MustAcquire(d1, t, c.stack != []) then (Entered(s, t, m, Counted(d1, t, newOwner), c.level), Entry)
      else
        var waiting := With(s, t, c.(pc := Blocked(m)), m, d1);
        if d1.mutex.value.holder.Some? then (waiting, Wait)
        else (Resuming(Granting(waiting, t), t, newOwner), Entry)
  }

  predicate Enabled(s: State, a: Action) {
    match a
    case Begin(t, m, newOwner) => t in s.threads && s.threads[t].pc == Running && m in s.methods && newOwner != NO_OWNER
    case Grant(t) => CanGrant(s, t)
    case Resume(t, newOwner) => CanResume(s, t) && newOwner != NO_OWNER
    case Terminate(t) =>
      t in s.threads && s.threads[t].pc == Running && s.threads[t].stack != []
      && s.threads[t].stack[|s.threads[t].stack| - 1] in s.methods
    case MarkPending(m) => m in s.methods && !s.methods[m].serialized && s.methods[m].active != multiset{}
  }

  function Terminating(s: State, t: Thread): State
    requires Enabled(s, Terminate(t))
  {
    var c := s.threads[t];
    var n := |c.stack| - 1;
    var d := s.methods[c.stack[n]];
    var level := if GivesBack(d) then d.mutex.value.originalSyncLevel else c.level;
    With(s, t, c.(level := level, stack := c.stack[..n]), c.stack[n], Ended(d, t))
  }

  function Step(s: State, a: Action): State
    requires Enabled(s, a)
  {
    match a
    case Begin(t, m, newOwner) => Beginning(s, t, m, newOwner).0
    case Grant(t) => Granting(s, t)
    case Resume(t, newOwner) => Resuming(s, t, newOwner)
    case Terminate(t) => Terminating(s, t)
    case MarkPending(m) => s.(methods := s.methods[m := s.methods[m].(serializedPending := true)])
  }

  ghost predicate Reaches(s: State, actions: seq<Action>, s': State)
    decreases |actions|
  {
    if actions == [] then s == s'
    else Enabled(s, actions[0]) && Reaches(Step(s, actions[0]), actions[1..], s')
  }

  // ----- Invariants

  /** The accounting of one method. */
  ghost predicate MethodInv(d: Method) {
    && d.threadCount == |d.active| <= REENTRANCY_LIMIT
    && NO_THREAD !in d.active
    && (d.mutex.Some? ==> d.serialized)
    && (d.serialized && d.mutex.None? ==> d.active == multiset{})
    && (d.serializedPending ==> !d.serialized)
    && (d.active != multiset{} ==> d.ownerId != NO_OWNER)
    && (d.active == multiset{} && !d.moduleLevel ==> d.ownerId == NO_OWNER)
    && (d.mutex.Some? ==>
          var mutex := d.mutex.value;
          && mutex.syncLevel == d.syncLevel
          && mutex.depth == |d.active|
          && (mutex.depth > 0 ==> mutex.threadId != NO_THREAD && mutex.holder == Some(mutex.threadId))
          && (mutex.depth == 0 ==> mutex.threadId == NO_THREAD)
          && (forall u :: u in d.active ==> u == mutex.threadId))
  }

  /** What a thread and a method say about each other. */
  ghost predicate Linked(t: Thread, c: Context, m: MethodId, d: Method) {
    && d.active[t] == multiset(c.stack)[m]
    && (c.pc == Granted(m) <==> d.mutex.Some? && d.mutex.value.holder == Some(t) && d.mutex.value.depth == 0)
    && (c.pc == Blocked(m) || c.pc == Granted(m) ==>
          d.mutex.Some? && m !in c.stack && (c.stack != [] && !d.ignoreSyncLevel ==> c.level <= d.syncLevel))
  }

  /** Invocation `i` of the stack is the one that acquired its method's mutex. */
  predicate Acquires(methods: map<MethodId, Method>, stack: seq<MethodId>, i: nat)
    requires i < |stack| && stack[i] in methods
  {
    methods[stack[i]].serialized && stack[i] !in stack[..i]
  }

  /** The sync level a thread has after entering the methods of `stack`, which it started at `start`. */
  function LevelAfter(methods: map<MethodId, Method>, start: nat, stack: seq<MethodId>): nat
    requires forall m :: m in stack ==> m in methods
  {
    if stack == [] then start
    else
      var n := |stack| - 1;
      if Acquires(methods, stack, n) && !methods[stack[n]].ignoreSyncLevel then methods[stack[n]].syncLevel
      else LevelAfter(methods, start, stack[..n])
  }

  /** The level is the one of the innermost acquisition, and every acquisition remembers the level below it. */
  ghost predicate ThreadInv(methods: map<MethodId, Method>, c: Context) {
    && (forall m :: m in c.stack ==> m in methods)
    && (c.pc != Running ==> c.pc.m in methods)
    && (c.stack != [] ==> c.start == methods[c.stack[0]].syncLevel && c.level == LevelAfter(methods, c.start, c.stack))
    && (forall i :: 0 <= i < |c.stack| && Acquires(methods, c.stack, i) ==> AcquiredAt(methods, c, i))
  }

  ghost predicate AcquiredAt(methods: map<MethodId, Method>, c: Context, i: nat)
    requires i < |c.stack| && forall m :: m in c.stack ==> m in methods
  {
    var d := methods[c.stack[i]];
    && d.mutex.Some? && d.mutex.value.originalSyncLevel == LevelAfter(methods, c.start, c.stack[..i])
    && (!d.ignoreSyncLevel ==> LevelAfter(methods, c.start, c.stack[..i]) <= d.syncLevel)
  }

  ghost predicate MethodOk(s: State, m: MethodId) {
    m in s.methods ==> MethodInv(s.methods[m]) && forall u :: u in s.methods[m].active ==> u in s.threads
  }

  ghost predicate LinkOk(s: State, t: Thread, m: MethodId) {
    t in s.threads && m in s.methods ==> Linked(t, s.threads[t], m, s.methods[m])
  }

  ghost predicate ThreadOk(s: State, t: Thread) {
    t in s.threads ==> t != NO_THREAD && ThreadInv(s.methods, s.threads[t])
  }

  ghost predicate Inv(s: State) {
    (forall m :: MethodOk(s, m)) && (forall t, m :: LinkOk(s, t, m)) && (forall t :: ThreadOk(s, t))
  }

  lemma InvAt(s: State, t: Thread, m: MethodId)
    requires Inv(s) && t in s.threads && m in s.methods
    ensures t != NO_THREAD && MethodInv(s.methods[m]) && Linked(t, s.threads[t], m, s.methods[m])
    ensures ThreadInv(s.methods, s.threads[t]) && forall u :: u in s.methods[m].active ==> u in s.threads
  {
    assert MethodOk(s, m) && LinkOk(s, t, m) && ThreadOk(s, t);
  }

  // ----- The accounting is kept

  lemma AllSame(a: multiset<Thread>, t: Thread)
    requires forall u :: u in a ==> u == t
    ensures |a| == a[t]
  {
    assert a == multiset{}[t := a[t]];
  }

  lemma EnterInv(d: Method, t: Thread, newOwner: nat)
    requires MethodInv(d) && t != NO_THREAD && newOwner != NO_OWNER && d.threadCount < REENTRANCY_LIMIT
    requires d.serialized ==> d.mutex.Some? && d.mutex.value.threadId == t
    ensures MethodInv(Counted(d, t, newOwner))
  {
  }

  lemma ResumeInv(d: Method, t: Thread, nested: bool, level: nat, newOwner: nat)
    requires MethodInv(d) && t != NO_THREAD && newOwner != NO_OWNER
    requires d.mutex.Some? && d.mutex.value.holder == Some(t) && d.mutex.value.depth == 0
    ensures MethodInv(Counted(TakeOver(d, t, nested, level), t, newOwner))
  {
  }

  lemma EndedInv(d: Method, t: Thread)
    requires MethodInv(d) && t in d.active
    ensures MethodInv(Ended(d, t))
    ensures forall u :: u in Ended(d, t).active ==> u in d.active
  {
    assert |d.active - multiset{t}| == |d.active| - 1;
    assert |d.active| == 1 ==> d.active - multiset{t} == multiset{};
    assert forall u :: u in d.active - multiset{t} ==> u in d.active;
  }

  // ----- Levels depend only on the configuration of the methods on the stack

  predicate SameConfig(d: Method, d': Method) {
    d.serialized == d'.serialized && d.ignoreSyncLevel == d'.ignoreSyncLevel && d.syncLevel == d'.syncLevel
  }

  /** A change to a method that the threads inside it cannot tell. */
  predicate SameInside(d: Method, d': Method) {
    && SameConfig(d, d')
    && (d.mutex.Some? ==> d'.mutex.Some? && d'.mutex.value.originalSyncLevel == d.mutex.value.originalSyncLevel)
  }

  lemma {:induction false} LevelFrame(methods: map<MethodId, Method>, methods': map<MethodId, Method>, start: nat,
                                      stack: seq<MethodId>)
    requires forall m :: m in stack ==> m in methods && m in methods' && SameConfig(methods[m], methods'[m])
    ensures LevelAfter(methods', start, stack) == LevelAfter(methods, start, stack)
  {
    if stack != [] {
      LevelFrame(methods, methods', start, stack[..|stack| - 1]);
    }
  }

  lemma ThreadFrame(methods: map<MethodId, Method>, c: Context, m: MethodId, d': Method)
    requires ThreadInv(methods, c) && m in methods
    requires m in c.stack ==> SameInside(methods[m], d')
    ensures ThreadInv(methods[m := d'], c)
  {
    var methods' := methods[m := d'];
    LevelFrame(methods, methods', c.start, c.stack);
    forall i | 0 <= i < |c.stack| && Acquires(methods', c.stack, i)
      ensures AcquiredAt(methods', c, i)
    {
      assert c.stack[i] in c.stack;
      assert Acquires(methods, c.stack, i) && AcquiredAt(methods, c, i);
      LevelFrame(methods, methods', c.start, c.stack[..i]);
    }
  }

  /** One more invocation on the stack. */
  lemma ThreadPushed(methods: map<MethodId, Method>, c: Context, m: MethodId, level: nat)
    requires ThreadInv(methods, c.(pc := Running)) && c.stack != [] && m in methods
    requires var d := methods[m];
             if d.serialized && m !in c.stack
             then d.mutex.Some? && d.mutex.value.originalSyncLevel == c.level && level == LevelInside(d, c.level)
                  && (!d.ignoreSyncLevel ==> c.level <= d.syncLevel)
             else level == c.level
    ensures ThreadInv(methods, Context(level, c.start, c.stack + [m], Running))
  {
    var n := |c.stack|;
    var c' := Context(level, c.start, c.stack + [m], Running);
    assert c'.stack[..n] == c.stack;
    forall i | 0 <= i < |c'.stack| && Acquires(methods, c'.stack, i)
      ensures AcquiredAt(methods, c', i)
    {
      if i < n {
        assert c'.stack[..i] == c.stack[..i];
        assert Acquires(methods, c.stack, i) && AcquiredAt(methods, c.(pc := Running), i);
      }
    }
  }

  lemma ThreadStarted(methods: map<MethodId, Method>, m: MethodId)
    requires m in methods
    requires var d := methods[m];
             d.serialized ==> d.mutex.Some? && d.mutex.value.originalSyncLevel == d.syncLevel
    ensures ThreadInv(methods, Context(methods[m].syncLevel, methods[m].syncLevel, [m], Running))
  {
    var c := Context(methods[m].syncLevel, methods[m].syncLevel, [m], Running);
    assert c.stack[..0] == [];
    forall i | 0 <= i < |c.stack| && Acquires(methods, c.stack, i)
      ensures AcquiredAt(methods, c, i)
    {
    }
  }

  lemma ThreadPopped(methods: map<MethodId, Method>, c: Context, level: nat)
    requires ThreadInv(methods, c) && c.stack != [] && c.pc == Running
    requires var n := |c.stack| - 1;
             level == if Acquires(methods, c.stack, n) then methods[c.stack[n]].mutex.value.originalSyncLevel
               else c.level
    ensures ThreadInv(methods, c.(level := level, stack := c.stack[..|c.stack| - 1]))
  {
    var n := |c.stack| - 1;
    var c' := c.(level := level, stack := c.stack[..n]);
    if Acquires(methods, c.stack, n) {
      assert AcquiredAt(methods, c, n);
    }
    forall i | 0 <= i < |c'.stack| && Acquires(methods, c'.stack, i)
      ensures AcquiredAt(methods, c', i)
    {
      assert c'.stack[..i] == c.stack[..i];
      assert Acquires(methods, c.stack, i) && AcquiredAt(methods, c, i);
    }
  }

  // ----- Every step keeps the invariant

  /** What thread `u` must not notice of a change to method `m`. */
  ghost predicate Unaffected(s: State, u: Thread, m: MethodId, d': Method)
    requires u in s.threads && m in s.methods
  {
    Linked(u, s.threads[u], m, d') && (m in s.threads[u].stack ==> SameInside(s.methods[m], d'))
  }

  lemma UpdateKeepsInv(s: State, t: Thread, c': Context, m: MethodId, d': Method)
    requires Inv(s) && t in s.threads && m in s.methods
    requires MethodInv(d') && forall u :: u in d'.active ==> u == t || u in s.methods[m].active
    requires forall u :: u in s.threads && u != t ==> Unaffected(s, u, m, d')
    requires Linked(t, c', m, d') && forall k :: k in s.methods && k != m ==> Linked(t, c', k, s.methods[k])
    requires ThreadInv(s.methods[m := d'], c')
    ensures Inv(With(s, t, c', m, d'))
  {
    var s' := With(s, t, c', m, d');
    InvAt(s, t, m);
    forall u
      ensures ThreadOk(s', u)
    {
      if u in s.threads && u != t {
        assert ThreadOk(s, u) && Unaffected(s, u, m, d');
        ThreadFrame(s.methods, s.threads[u], m, d');
      }
    }
    forall u, k
      ensures LinkOk(s', u, k)
    {
      if u in s.threads && k in s.methods && u != t {
        assert LinkOk(s, u, k) && Unaffected(s, u, m, d');
      }
    }
    forall k
      ensures MethodOk(s', k)
    {
      assert MethodOk(s, k);
    }
  }

  /** The other methods do not notice that `m` is pushed, popped or waited for. */
  lemma OtherLinks(s: State, t: Thread, c': Context, m: MethodId)
    requires Inv(s) && t in s.threads && m in s.methods
    requires forall k :: k != m ==> multiset(c'.stack)[k] == multiset(s.threads[t].stack)[k]
    requires s.threads[t].pc == Running || (s.threads[t].pc != Running && s.threads[t].pc.m == m)
    requires c'.pc == Running || (c'.pc != Running && c'.pc.m == m)
    ensures forall k :: k in s.methods && k != m ==> Linked(t, c', k, s.methods[k])
  {
    forall k | k in s.methods && k != m
      ensures Linked(t, c', k, s.methods[k])
    {
      assert LinkOk(s, t, k);
    }
  }

  lemma Pushed(stack: seq<MethodId>, m: MethodId)
    ensures multiset(stack + [m])[m] == multiset(stack)[m] + 1
    ensures forall k :: k != m ==> multiset(stack + [m])[k] == multiset(stack)[k]
    ensures stack == [] ==> stack + [m] == [m]
  {
  }

  /** No thread but `t` notices a change that leaves the counts, the record of the level and the waiting state alone. */
  lemma Unnoticed(s: State, t: Thread, m: MethodId, d': Method)
    requires Inv(s) && m in s.methods
    requires var d := s.methods[m];
             && (forall u :: u != t ==> d'.active[u] == d.active[u])
             && SameInside(d, d')
             && (forall u :: u != t ==> ((d'.mutex.Some? && d'.mutex.value.holder == Some(u)
                                          && d'.mutex.value.depth == 0)
                                         <==> (d.mutex.Some? && d.mutex.value.holder == Some(u)
                                               && d.mutex.value.depth == 0)))
    ensures forall u :: u in s.threads && u != t ==> Unaffected(s, u, m, d')
  {
    forall u | u in s.threads && u != t
      ensures Unaffected(s, u, m, d')
    {
      assert LinkOk(s, u, m);
    }
  }

  lemma CreateMutexKeepsInv(s: State, t: Thread, m: MethodId)
    requires Inv(s) && t in s.threads && m in s.methods && s.methods[m].serialized
    ensures Inv(With(s, t, s.threads[t], m, CreateMutex(s.methods[m])))
  {
    var c, d := s.threads[t], s.methods[m];
    var d' := CreateMutex(d);
    InvAt(s, t, m);
    if d.mutex.None? {
      Unnoticed(s, t, m, d');
      SameContext(s, t, m);
      ThreadFrame(s.methods, c, m, d');
      UpdateKeepsInv(s, t, c, m, d');
    } else {
      assert With(s, t, c, m, d) == s;
    }
  }

  lemma SameContext(s: State, t: Thread, m: MethodId)
    requires Inv(s) && t in s.threads && m in s.methods
    ensures forall k :: k in s.methods ==> Linked(t, s.threads[t], k, s.methods[k])
  {
    forall k | k in s.methods
      ensures Linked(t, s.threads[t], k, s.methods[k])
    {
      assert LinkOk(s, t, k);
    }
  }

  /** Entry without taking a mutex: the method is not serialized, or the thread is inside already. */
  lemma EnterKeepsInv(s: State, t: Thread, m: MethodId, newOwner: nat)
    requires Inv(s) && t in s.threads && m in s.methods && s.threads[t].pc == Running && newOwner != NO_OWNER
    requires s.methods[m].threadCount < REENTRANCY_LIMIT
    requires s.methods[m].serialized ==>
               s.threads[t].stack != [] && s.methods[m].mutex.Some? && s.methods[m].mutex.value.threadId == t
    ensures Inv(Entered(s, t, m, Counted(s.methods[m], t, newOwner), s.threads[t].level))
  {
    var c, d := s.threads[t], s.methods[m];
    var d' := Counted(d, t, newOwner);
    var c' := if c.stack == [] then Context(d.syncLevel, d.syncLevel, [m], Running)
              else Context(c.level, c.start, c.stack + [m], Running);
    Pushed(c.stack, m);
    EnteredLink(s, t, m, newOwner, c');
    Unnoticed(s, t, m, d');
    OtherLinks(s, t, c', m);
    UpdateKeepsInv(s, t, c', m, d');
  }

  lemma EnteredLink(s: State, t: Thread, m: MethodId, newOwner: nat, c': Context)
    requires Inv(s) && t in s.threads && m in s.methods && s.threads[t].pc == Running && newOwner != NO_OWNER
    requires s.methods[m].threadCount < REENTRANCY_LIMIT
    requires s.methods[m].serialized ==>
               s.threads[t].stack != [] && s.methods[m].mutex.Some? && s.methods[m].mutex.value.threadId == t
    requires var c, d := s.threads[t], s.methods[m];
             c' == if c.stack == [] then Context(d.syncLevel, d.syncLevel, [m], Running)
                   else Context(c.level, c.start, c.stack + [m], Running)
    ensures var d' := Counted(s.methods[m], t, newOwner);
            && MethodInv(d') && Linked(t, c', m, d') && ThreadInv(s.methods[m := d'], c')
            && SameInside(s.methods[m], d')
  {
    var c, d := s.threads[t], s.methods[m];
    var d' := Counted(d, t, newOwner);
    InvAt(s, t, m);
    Pushed(c.stack, m);
    EnterInv(d, t, newOwner);
    if d.serialized {
      SerializedInside(d);
    }
    ThreadFrame(s.methods, c, m, d');
    EnterThread(s.methods[m := d'], c, m);
  }

  lemma EnterThread(methods: map<MethodId, Method>, c: Context, m: MethodId)
    requires ThreadInv(methods, c) && m in methods && c.pc == Running
    requires methods[m].serialized ==> m in c.stack
    ensures ThreadInv(methods, if c.stack == [] then Context(methods[m].syncLevel, methods[m].syncLevel, [m], Running)
                               else Context(c.level, c.start, c.stack + [m], Running))
  {
    if c.stack == [] {
      ThreadStarted(methods, m);
    } else {
      ThreadPushed(methods, c, m, c.level);
    }
  }

  /** A method mutex with an owner has that owner inside the method. */
  lemma SerializedInside(d: Method)
    requires MethodInv(d) && d.mutex.Some? && d.mutex.value.threadId != NO_THREAD
    ensures d.mutex.value.threadId in d.active
  {
    assert |d.active| > 0;
    var u :| u in d.active;
  }

  lemma BlockKeepsInv(s: State, t: Thread, m: MethodId)
    requires Inv(s) && t in s.threads && m in s.methods && s.threads[t].pc == Running
    requires s.methods[m].mutex.Some? && MustAcquire(s.methods[m], t, s.threads[t].stack != [])
    requires !OrderViolated(s.methods[m], s.threads[t].stack != [], s.threads[t].level)
    ensures Inv(With(s, t, s.threads[t].(pc := Blocked(m)), m, s.methods[m]))
  {
    var c, d := s.threads[t], s.methods[m];
    var c' := c.(pc := Blocked(m));
    InvAt(s, t, m);
    Unnoticed(s, t, m, d);
    OtherLinks(s, t, c', m);
    WaitingKeepsThread(s.methods, c, Blocked(m));
    assert s.methods[m := d] == s.methods;
    UpdateKeepsInv(s, t, c', m, d);
  }

  lemma WaitingKeepsThread(methods: map<MethodId, Method>, c: Context, pc: Pc)
    requires ThreadInv(methods, c) && (pc != Running ==> pc.m in methods)
    ensures ThreadInv(methods, c.(pc := pc))
  {
    forall i | 0 <= i < |c.stack| && Acquires(methods, c.stack, i)
      ensures AcquiredAt(methods, c.(pc := pc), i)
    {
      assert AcquiredAt(methods, c, i);
    }
  }

  lemma GrantKeepsInv(s: State, t: Thread)
    requires Inv(s) && CanGrant(s, t)
    ensures Inv(Granting(s, t))
  {
    var c := s.threads[t];
    var m := c.pc.m;
    var d := s.methods[m];
    var d' := d.(mutex := Some(d.mutex.value.(holder := Some(t))));
    var c' := c.(pc := Granted(m));
    InvAt(s, t, m);
    Unnoticed(s, t, m, d');
    OtherLinks(s, t, c', m);
    ThreadFrame(s.methods, c, m, d');
    WaitingKeepsThread(s.methods[m := d'], c, Granted(m));
    UpdateKeepsInv(s, t, c', m, d');
  }

  lemma ResumeKeepsInv(s: State, t: Thread, newOwner: nat)
    requires Inv(s) && CanResume(s, t) && newOwner != NO_OWNER
    ensures Inv(Resuming(s, t, newOwner))
  {
    var c := s.threads[t];
    var m := c.pc.m;
    var d := s.methods[m];
    var d' := Counted(TakeOver(d, t, c.stack != [], c.level), t, newOwner);
    var c' := Resuming(s, t, newOwner).threads[t];
    InvAt(s, t, m);
    Pushed(c.stack, m);
    ResumeInv(d, t, c.stack != [], c.level, newOwner);
    assert d.active == multiset{};
    forall u | u in s.threads && u != t
      ensures Unaffected(s, u, m, d')
    {
      assert LinkOk(s, u, m);
      assert multiset(s.threads[u].stack)[m] == 0;
    }
    OtherLinks(s, t, c', m);
    ThreadFrame(s.methods, c, m, d');
    WaitingKeepsThread(s.methods[m := d'], c, Running);
    if c.stack == [] {
      ThreadStarted(s.methods[m := d'], m);
    } else {
      ThreadPushed(s.methods[m := d'], c, m, LevelInside(d, c.level));
    }
    UpdateKeepsInv(s, t, c', m, d');
  }

  lemma BeginKeepsInv(s: State, t: Thread, m: MethodId, newOwner: nat)
    requires Inv(s) && Enabled(s, Begin(t, m, newOwner))
    ensures Inv(Beginning(s, t, m, newOwner).0)
  {
    var c, d := s.threads[t], s.methods[m];
    InvAt(s, t, m);
    if d.threadCount < REENTRANCY_LIMIT {
      if !d.serialized {
        EnterKeepsInv(s, t, m, newOwner);
      } else {
        var s1 := With(s, t, c, m, CreateMutex(d));
        CreateMutexKeepsInv(s, t, m);
        BeginAfterCreate(s, t, m, newOwner);
        BeginSerialized(s1, t, m, newOwner);
      }
    }
  }

  /** Creating the mutex first makes no difference to what follows. */
  lemma BeginAfterCreate(s: State, t: Thread, m: MethodId, newOwner: nat)
    requires Enabled(s, Begin(t, m, newOwner)) && s.methods[m].serialized
    requires s.methods[m].threadCount != REENTRANCY_LIMIT
    ensures Beginning(s, t, m, newOwner)
            == Beginning(With(s, t, s.threads[t], m, CreateMutex(s.methods[m])), t, m, newOwner)
  {
    var c, d1 := s.threads[t], CreateMutex(s.methods[m]);
    var s1 := With(s, t, c, m, d1);
    assert With(s1, t, c, m, d1) == With(s, t, c, m, d1);
    var c' := c.(pc := Blocked(m));
    assert With(s1, t, c', m, d1) == With(s, t, c', m, d1);
    var d2 := Counted(d1, t, newOwner);
    assert s1.methods[m := d2] == s.methods[m := d2];
    assert s1.threads == s.threads;
  }

  /** The same, once the mutex exists. */
  lemma BeginSerialized(s: State, t: Thread, m: MethodId, newOwner: nat)
    requires Inv(s) && Enabled(s, Begin(t, m, newOwner)) && s.methods[m].threadCount < REENTRANCY_LIMIT
    requires s.methods[m].serialized && s.methods[m].mutex.Some?
    ensures Inv(Beginning(s, t, m, newOwner).0)
  {
    var c, d := s.threads[t], s.methods[m];
    assert With(s, t, c, m, d) == s;
    if !OrderViolated(d, c.stack != [], c.level) {
      if !MustAcquire(d, t, c.stack != []) {
        EnterKeepsInv(s, t, m, newOwner);
      } else {
        BlockKeepsInv(s, t, m);
        var waiting := With(s, t, c.(pc := Blocked(m)), m, d);
        if d.mutex.value.holder.None? {
          GrantKeepsInv(waiting, t);
          ResumeKeepsInv(Granting(waiting, t), t, newOwner);
        }
      }
    }
  }

  lemma TerminateKeepsInv(s: State, t: Thread)
    requires Inv(s) && Enabled(s, Terminate(t))
    ensures Inv(Terminating(s, t))
  {
    var c := s.threads[t];
    var n := |c.stack| - 1;
    var m := c.stack[n];
    var d := s.methods[m];
    var d' := Ended(d, t);
    var c' := Terminating(s, t).threads[t];
    InvAt(s, t, m);
    assert t in d.active;
    EndedLink(d, t);
    TerminatedLink(t, c, d, d', c'.level);
    EndedInv(d, t);
    TerminatedThread(s.methods, c, d, t);
    OtherLinks(s, t, c', m);
    TerminateUnnoticed(s, t, m);
    UpdateKeepsInv(s, t, c', m, d');
  }

  lemma EndedLink(d: Method, t: Thread)
    requires MethodInv(d) && t in d.active
    ensures Ended(d, t).active == d.active - multiset{t}
    ensures Ended(d, t).mutex.Some? && Ended(d, t).mutex.value.depth == 0 ==> Ended(d, t).mutex.value.holder == None
  {
  }

  lemma TerminatedLink(t: Thread, c: Context, d: Method, d': Method, level: nat)
    requires c.stack != [] && c.pc == Running && d.active[t] == multiset(c.stack)[c.stack[|c.stack| - 1]]
    requires d'.active == d.active - multiset{t}
    requires d'.mutex.Some? && d'.mutex.value.depth == 0 ==> d'.mutex.value.holder == None
    ensures Linked(t, c.(level := level, stack := c.stack[..|c.stack| - 1]), c.stack[|c.stack| - 1], d')
    ensures forall k :: k != c.stack[|c.stack| - 1] ==> multiset(c.stack[..|c.stack| - 1])[k] == multiset(c.stack)[k]
  {
    var n := |c.stack| - 1;
    assert c.stack == c.stack[..n] + [c.stack[n]];
    Pushed(c.stack[..n], c.stack[n]);
  }

  lemma TerminateUnnoticed(s: State, t: Thread, m: MethodId)
    requires Inv(s) && t in s.threads && m in s.methods && t in s.methods[m].active
    ensures forall u :: u in s.threads && u != t ==> Unaffected(s, u, m, Ended(s.methods[m], t))
  {
    InvAt(s, t, m);
    forall u | u in s.threads && u != t
      ensures Unaffected(s, u, m, Ended(s.methods[m], t))
    {
      assert LinkOk(s, u, m);
      TerminateUnseen(s.methods[m], t, u);
    }
  }

  lemma TerminatedThread(methods: map<MethodId, Method>, c: Context, d: Method, t: Thread)
    requires ThreadInv(methods, c) && c.stack != [] && c.pc == Running
    requires var m := c.stack[|c.stack| - 1];
             m in methods && methods[m] == d && MethodInv(d) && d.active[t] == multiset(c.stack)[m]
    ensures var n := |c.stack| - 1;
            ThreadInv(methods[c.stack[n] := Ended(d, t)],
                      c.(level := if GivesBack(d) then d.mutex.value.originalSyncLevel else c.level,
                         stack := c.stack[..n]))
  {
    var n := |c.stack| - 1;
    var m := c.stack[n];
    var c' := c.(level := if GivesBack(d) then d.mutex.value.originalSyncLevel else c.level, stack := c.stack[..n]);
    assert c.stack == c.stack[..n] + [m];
    Pushed(c.stack[..n], m);
    LastAcquisition(c, d, t, n);
    ThreadPopped(methods, c, c'.level);
    if m in c'.stack {
      assert multiset(c'.stack)[m] > 0;
      TerminateSeen(d, t);
    }
    ThreadFrame(methods, c', m, Ended(d, t));
  }

  /** The mutex is given back exactly by the invocation that acquired it. */
  lemma LastAcquisition(c: Context, d: Method, t: Thread, n: nat)
    requires MethodInv(d) && n + 1 == |c.stack| && d.active[t] == multiset(c.stack)[c.stack[n]]
    ensures d.serialized && c.stack[n] !in c.stack[..n] <==> GivesBack(d)
  {
    assert c.stack == c.stack[..n] + [c.stack[n]];
    Pushed(c.stack[..n], c.stack[n]);
    if d.serialized {
      assert t in d.active;
      AllSame(d.active, t);
    }
  }

  /** Another thread inside keeps the method's configuration and its mutex record. */
  lemma TerminateUnseen(d: Method, t: Thread, u: Thread)
    requires MethodInv(d) && t in d.active && u != t
    ensures u in d.active ==> SameInside(d, Ended(d, t))
    ensures d.mutex.Some? <==> Ended(d, t).mutex.Some?
    ensures d.mutex.Some? ==> SameConfig(d, Ended(d, t)) && d.mutex.value.depth > 0 && d.mutex.value.holder != Some(u)
                              && Ended(d, t).mutex.value.holder != Some(u)
  {
    if u in d.active {
      assert u in d.active - multiset{t};
      assert |d.active - multiset{t}| > 0;
    }
  }

  lemma TerminateSeen(d: Method, t: Thread)
    requires MethodInv(d) && d.active[t] > 1
    ensures SameInside(d, Ended(d, t))
  {
    assert t in d.active - multiset{t};
    assert |d.active - multiset{t}| > 0;
  }

  lemma MarkKeepsInv(s: State, m: MethodId)
    requires Inv(s) && Enabled(s, MarkPending(m))
    ensures Inv(Step(s, MarkPending(m)))
  {
    var d := s.methods[m];
    var d' := d.(serializedPending := true);
    var t :| t in d.active;
    assert MethodOk(s, m);
    InvAt(s, t, m);
    Unnoticed(s, t, m, d');
    SameContext(s, t, m);
    ThreadFrame(s.methods, s.threads[t], m, d');
    UpdateKeepsInv(s, t, s.threads[t], m, d');
    assert s.threads[t := s.threads[t]] == s.threads;
  }

  lemma StepKeepsInv(s: State, a: Action)
    requires Inv(s) && Enabled(s, a)
    ensures Inv(Step(s, a))
  {
    match a
    case Begin(t, m, newOwner) => BeginKeepsInv(s, t, m, newOwner);
    case Grant(t) => GrantKeepsInv(s, t);
    case Resume(t, newOwner) => ResumeKeepsInv(s, t, newOwner);
    case Terminate(t) => TerminateKeepsInv(s, t);
    case MarkPending(m) => MarkKeepsInv(s, m);
  }

  lemma {:induction false} RunKeepsInv(s: State, actions: seq<Action>, s': State)
    requires Inv(s) && Reaches(s, actions, s')
    ensures Inv(s')
    decreases |actions|
  {
    if actions != [] {
      StepKeepsInv(s, actions[0]);
      RunKeepsInv(Step(s, actions[0]), actions[1..], s');
    }
  }

  // ----- What the protocol promises, in every reachable state

  /** Nothing has been called yet. */
  ghost predicate Start(s: State) {
    && (forall t :: t in s.threads ==> t != NO_THREAD && s.threads[t].stack == [] && s.threads[t].pc == Running)
    && (forall m :: m in s.methods ==>
          var d := s.methods[m];
          d.threadCount == 0 && d.active == multiset{} && d.mutex == None && d.ownerId == NO_OWNER
            && !d.serializedPending)
  }

  ghost predicate Reachable(s: State) {
    exists start, actions :: Start(start) && Reaches(start, actions, s)
  }

  lemma ReachableInv(s: State)
    requires Reachable(s)
    ensures Inv(s)
  {
    var start, actions :| Start(start) && Reaches(start, actions, s);
    RunKeepsInv(start, actions, s);
  }

  /** ThreadCount is the number of invocations in progress, summed over the threads' stacks, and never wraps. */
  lemma ThreadCountIsExact(s: State, m: MethodId)
    requires Reachable(s) && m in s.methods
    ensures s.methods[m].threadCount == |s.methods[m].active| <= REENTRANCY_LIMIT
    ensures forall t :: t in s.methods[m].active ==> t in s.threads
    ensures forall t :: t in s.threads ==> s.methods[m].active[t] == multiset(s.threads[t].stack)[m]
  {
    ReachableInv(s);
    assert MethodOk(s, m);
    forall t | t in s.threads
      ensures s.methods[m].active[t] == multiset(s.threads[t].stack)[m]
    {
      assert LinkOk(s, t, m);
    }
  }

  /** Invocations of a serialized method belong to one thread, which holds the mutex, and number AcquisitionDepth. */
  lemma SerializedMeansOneThread(s: State, m: MethodId, t: Thread, u: Thread)
    requires Reachable(s) && m in s.methods && s.methods[m].serialized
    requires t in s.threads && m in s.threads[t].stack
    ensures u in s.threads && m in s.threads[u].stack ==> u == t
    ensures var d := s.methods[m];
            d.mutex.Some? && d.mutex.value.holder == Some(t) && d.mutex.value.threadId == t
            && d.mutex.value.depth == d.threadCount == multiset(s.threads[t].stack)[m]
  {
    ReachableInv(s);
    InvAt(s, t, m);
    assert LinkOk(s, u, m);
    assert t in s.methods[m].active;
    AllSame(s.methods[m].active, t);
  }

  /** A method has an owner ID exactly while it runs, unless it is module-level code, which keeps the one it got. */
  lemma OwnerWhileRunning(s: State, m: MethodId)
    requires Reachable(s) && m in s.methods
    ensures s.methods[m].threadCount > 0 ==> s.methods[m].ownerId != NO_OWNER
    ensures !s.methods[m].moduleLevel && s.methods[m].threadCount == 0 ==> s.methods[m].ownerId == NO_OWNER
  {
    ReachableInv(s);
    assert MethodOk(s, m);
  }

  // ----- Sync levels

  lemma {:induction false} LevelCovers(methods: map<MethodId, Method>, c: Context, i: nat, j: nat)
    requires ThreadInv(methods, c) && i < j <= |c.stack|
    requires Acquires(methods, c.stack, i) && !methods[c.stack[i]].ignoreSyncLevel
    ensures LevelAfter(methods, c.start, c.stack[..j]) >= methods[c.stack[i]].syncLevel
    decreases j
  {
    assert c.stack[..j][..j - 1] == c.stack[..j - 1];
    assert Acquires(methods, c.stack[..j], j - 1) <==> Acquires(methods, c.stack, j - 1);
    if i < j - 1 {
      LevelCovers(methods, c, i, j - 1);
      if Acquires(methods, c.stack, j - 1) {
        assert AcquiredAt(methods, c, j - 1);
      }
    }
  }

  /** The mutexes a thread holds have been taken in order of their sync levels, auto-serialized methods aside. */
  lemma AcquisitionOrder(s: State, t: Thread, i: nat, j: nat)
    requires Reachable(s) && t in s.threads && i < j < |s.threads[t].stack|
    ensures s.threads[t].stack[i] in s.methods && s.threads[t].stack[j] in s.methods
    ensures var stack := s.threads[t].stack;
            Acquires(s.methods, stack, i) && !s.methods[stack[i]].ignoreSyncLevel
            && Acquires(s.methods, stack, j) && !s.methods[stack[j]].ignoreSyncLevel
            ==> s.methods[stack[i]].syncLevel <= s.methods[stack[j]].syncLevel
  {
    ReachableInv(s);
    assert ThreadOk(s, t);
    var c := s.threads[t];
    if Acquires(s.methods, c.stack, i) && !s.methods[c.stack[i]].ignoreSyncLevel && Acquires(s.methods, c.stack, j) {
      LevelCovers(s.methods, c, i, j);
      assert AcquiredAt(s.methods, c, j);
    }
  }

  /** A run during which thread `t` stays inside the invocations `floor`. */
  ghost predicate ReachesAbove(s: State, actions: seq<Action>, s': State, t: Thread, floor: seq<MethodId>)
    decreases |actions|
  {
    && t in s.threads && floor <= s.threads[t].stack
    && if actions == [] then s == s'
       else Enabled(s, actions[0]) && ReachesAbove(Step(s, actions[0]), actions[1..], s', t, floor)
  }

  /** The methods a thread is inside are not reconfigured by anyone. */
  lemma InsideKeepsConfig(s: State, a: Action, t: Thread, floor: seq<MethodId>)
    requires Inv(s) && Enabled(s, a) && t in s.threads && floor != []
    requires floor <= s.threads[t].stack && floor <= Step(s, a).threads[t].stack
    ensures Step(s, a).threads[t].start == s.threads[t].start
    ensures forall m :: m in floor ==>
              m in s.methods && m in Step(s, a).methods && SameConfig(s.methods[m], Step(s, a).methods[m])
  {
    StepKeepsInv(s, a);
    var s' := Step(s, a);
    forall m | m in floor
      ensures m in s.methods && m in s'.methods && SameConfig(s.methods[m], s'.methods[m])
    {
      assert m in s.threads[t].stack && m in s'.threads[t].stack;
      assert ThreadOk(s, t) && ThreadOk(s', t);
      assert LinkOk(s, t, m) && LinkOk(s', t, m);
      assert t in s'.methods[m].active;
      ConfigWhileActive(s, a, m);
    }
  }

  lemma EndedConfig(d: Method, t: Thread)
    requires MethodInv(d) && t in d.active && Ended(d, t).active != multiset{}
    ensures SameConfig(d, Ended(d, t))
  {
    assert |d.active - multiset{t}| == |d.active| - 1;
    var u :| u in d.active - multiset{t};
    assert |d.active - multiset{t}| > 0;
  }

  lemma WaitConfig(s: State, a: Action, k: MethodId)
    requires Enabled(s, a) && k in s.methods && (a.Grant? || a.Resume? || a.MarkPending?)
    ensures k in Step(s, a).methods && SameConfig(s.methods[k], Step(s, a).methods[k])
  {
  }

  lemma BeginConfig(s: State, t: Thread, m: MethodId, newOwner: nat, k: MethodId)
    requires Enabled(s, Begin(t, m, newOwner)) && k in s.methods
    ensures var s' := Beginning(s, t, m, newOwner).0; k in s'.methods && SameConfig(s.methods[k], s'.methods[k])
  {
    var c, d := s.threads[t], s.methods[m];
    var d1 := CreateMutex(d);
    if d.threadCount != REENTRANCY_LIMIT && d.serialized {
      if !OrderViolated(d1, c.stack != [], c.level) && MustAcquire(d1, t, c.stack != [])
        && d1.mutex.value.holder.None? {
        var waiting := With(s, t, c.(pc := Blocked(m)), m, d1);
        WaitConfig(waiting, Grant(t), k);
        WaitConfig(Granting(waiting, t), Resume(t, newOwner), k);
        assert Beginning(s, t, m, newOwner).0 == Resuming(Granting(waiting, t), t, newOwner);
      }
    }
  }

  lemma TerminateConfig(s: State, t: Thread, m: MethodId)
    requires Inv(s) && Enabled(s, Terminate(t)) && m in s.methods && Terminating(s, t).methods[m].active != multiset{}
    ensures SameConfig(s.methods[m], Terminating(s, t).methods[m])
  {
    var c := s.threads[t];
    if m == c.stack[|c.stack| - 1] {
      InvAt(s, t, m);
      assert t in s.methods[m].active;
      EndedConfig(s.methods[m], t);
    }
  }

  lemma ConfigWhileActive(s: State, a: Action, m: MethodId)
    requires Inv(s) && Enabled(s, a) && m in s.methods && m in Step(s, a).methods
    requires Step(s, a).methods[m].active != multiset{}
    ensures SameConfig(s.methods[m], Step(s, a).methods[m])
  {
    match a
    case Begin(t, k, newOwner) => BeginConfig(s, t, k, newOwner, m);
    case Terminate(t) => TerminateConfig(s, t, m);
    case _ => WaitConfig(s, a, m);
  }

  lemma {:induction false} LevelAboveFloor(s: State, actions: seq<Action>, s': State, t: Thread, floor: seq<MethodId>)
    requires Inv(s) && floor != [] && ReachesAbove(s, actions, s', t, floor)
    ensures Inv(s') && t in s'.threads && forall m :: m in floor ==> m in s.methods && m in s'.methods
    ensures LevelAfter(s'.methods, s'.threads[t].start, floor) == LevelAfter(s.methods, s.threads[t].start, floor)
    decreases |actions|
  {
    assert ThreadOk(s, t);
    if actions != [] {
      var next := Step(s, actions[0]);
      StepKeepsInv(s, actions[0]);
      InsideKeepsConfig(s, actions[0], t, floor);
      LevelFrame(s.methods, next.methods, s.threads[t].start, floor);
      LevelAboveFloor(next, actions[1..], s', t, floor);
    }
  }

  /**
   * Whatever a thread calls, directly or in turn, and whatever the others do meanwhile: when it is back in the
   * invocation it called from, its sync level is what it was.
   */
  lemma CallsRestoreLevel(s: State, actions: seq<Action>, s': State, t: Thread)
    requires Reachable(s) && t in s.threads && s.threads[t].stack != []
    requires ReachesAbove(s, actions, s', t, s.threads[t].stack)
    requires t in s'.threads && s'.threads[t].stack == s.threads[t].stack
    ensures s'.threads[t].level == s.threads[t].level
  {
    ReachableInv(s);
    LevelAboveFloor(s, actions, s', t, s.threads[t].stack);
    assert ThreadOk(s, t) && ThreadOk(s', t);
  }
}
