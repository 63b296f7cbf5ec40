/**
 * The control-method code of dep/acpica/dispatcher/dsmethod.c as it updates its objects in place. What a thread does
 * without giving up the interpreter lock is one method here, and one step of the state machine in ControlMethods.
 */
module MethodObjects {
  import opened MachineWords
  import opened ControlMethods
  import opened Wrappers

  class MutexObject {
    const syncLevel: nat
    var osMutex: Option<Thread>
    var threadId: Thread
    var originalSyncLevel: nat
    var acquisitionDepth: nat

    constructor (syncLevel: nat)
      ensures View() == MethodMutex(syncLevel, None, NO_THREAD, 0, 0)
    {
      this.syncLevel := syncLevel;
      osMutex, threadId, originalSyncLevel, acquisitionDepth := None, NO_THREAD, 0, 0;
    }

    function View(): MethodMutex
      reads this
    {
      MethodMutex(syncLevel, osMutex, threadId, originalSyncLevel, acquisitionDepth)
    }
  }

  /** The state of one thread. The flag `walking` below says whether it is inside a method already. */
  class ThreadState {
    const threadId: Thread
    var currentSyncLevel: nat

    constructor (threadId: Thread, level: nat)
      ensures this.threadId == threadId && currentSyncLevel == level
    {
      this.threadId, currentSyncLevel := threadId, level;
    }
  }

  class MethodObject {
    const moduleLevel: bool
    var threadCount: uint8
    var serialized: bool
    var ignoreSyncLevel: bool
    var serializedPending: bool
    var syncLevel: nat
    var ownerId: nat
    var mutex: MutexObject?
    ghost var active: multiset<Thread>

    constructor (serialized: bool, moduleLevel: bool, syncLevel: nat)
      ensures View() == Method(0, serialized, false, false, moduleLevel, syncLevel, NO_OWNER, None, multiset{})
    {
      this.serialized, this.moduleLevel, this.syncLevel := serialized, moduleLevel, syncLevel;
      threadCount, ignoreSyncLevel, serializedPending, ownerId := 0, false, false, NO_OWNER;
      mutex, active := null, multiset{};
    }

    ghost function View(): Method
      reads this, mutex
    {
      Method(threadCount, serialized, ignoreSyncLevel, serializedPending, moduleLevel, syncLevel, ownerId,
             if mutex == null then None else Some(mutex.View()), active)
    }

    method CreateMethodMutex()
      modifies `mutex
      ensures View() == CreateMutex(old(View()))
      ensures mutex != null && (old(mutex) == null ==> fresh(mutex)) && (old(mutex) != null ==> mutex == old(mutex))
    {
      if mutex == null {
        mutex := new MutexObject(syncLevel);
      }
    }

    /** AcpiDsBeginMethodExecution as far as it goes without blocking; `newOwner` is the owner ID to be allocated. */
    method BeginMethodExecution(thread: ThreadState, walking: bool, newOwner: nat) returns (outcome: Outcome)
      modifies this, mutex, thread`currentSyncLevel
      ensures outcome == Begun(old(View()), thread.threadId, walking, old(thread.currentSyncLevel))
      ensures View() == AfterBegin(old(View()), thread.threadId, walking, old(thread.currentSyncLevel), newOwner)
      ensures thread.currentSyncLevel
              == if walking && outcome == Entry && Takes(old(View()), thread.threadId, walking)
                 then LevelInside(old(View()), old(thread.currentSyncLevel)) else old(thread.currentSyncLevel)
    {
      if threadCount == TWO8 - 1 {
        return LimitReached;
      }
      if serialized {
        CreateMethodMutex();
        if walking && !ignoreSyncLevel && thread.currentSyncLevel > mutex.syncLevel {
          return OrderError;
        }
        if !walking || mutex.threadId == NO_THREAD || thread.threadId != mutex.threadId {
          if mutex.osMutex.Some? {
            return Wait;
          }
          GiveMutex(thread.threadId);
          RecordOwner(thread, walking);
        }
      }
      FinishEntry(thread.threadId, newOwner);
      return Entry;
    }

    /** The OS mutex is free and taken at once. */
    method GiveMutex(t: Thread)
      requires mutex != null
      modifies mutex
      ensures View() == Handed(old(View()), t)
    {
      mutex.osMutex := Some(t);
    }

    /** The rest of it, once the OS has handed over the mutex that the thread has waited for. */
    method ResumeExecution(thread: ThreadState, walking: bool, newOwner: nat)
      requires serialized && mutex != null && mutex.osMutex == Some(thread.threadId)
      modifies this, mutex, thread`currentSyncLevel
      ensures View() == Counted(TakeOver(old(View()), thread.threadId, walking, old(thread.currentSyncLevel)),
                                thread.threadId, newOwner)
      ensures ownerId == if old(ownerId) == NO_OWNER then newOwner else old(ownerId)
      ensures thread.currentSyncLevel
              == if walking then LevelInside(old(View()), old(thread.currentSyncLevel))
                else old(thread.currentSyncLevel)
    {
      RecordOwner(thread, walking);
      FinishEntry(thread.threadId, newOwner);
    }

    method RecordOwner(thread: ThreadState, walking: bool)
      requires mutex != null
      modifies mutex, thread`currentSyncLevel
      ensures View() == TakeOver(old(View()), thread.threadId, walking, old(thread.currentSyncLevel))
      ensures thread.currentSyncLevel
              == if walking then LevelInside(old(View()), old(thread.currentSyncLevel))
                else old(thread.currentSyncLevel)
    {
      mutex.originalSyncLevel := if walking then thread.currentSyncLevel else mutex.syncLevel;
      mutex.threadId := thread.threadId;
      if walking && !ignoreSyncLevel {
        thread.currentSyncLevel := syncLevel;
      }
    }

    method FinishEntry(t: Thread, newOwner: nat)
      modifies this, mutex
      ensures View() == Counted(old(View()), t, newOwner)
      ensures mutex == old(mutex)
    {
      if serialized && mutex != null {
        mutex.acquisitionDepth := mutex.acquisitionDepth + 1;
      }
      if ownerId == NO_OWNER {
        ownerId := newOwner;
      }
      threadCount := if threadCount == TWO8 - 1 then 0 else threadCount + 1;
      active := active + multiset{t};
    }

    /** AcpiDsTerminateControlMethod with a walk state. */
    method TerminateControlMethod(thread: ThreadState)
      requires mutex != null ==> mutex.acquisitionDepth > 0
      modifies this, mutex, thread`currentSyncLevel
      ensures View() == Ended(old(View()), thread.threadId)
      ensures ownerId == if old(threadCount) > 1 || moduleLevel then old(ownerId) else NO_OWNER
      ensures thread.currentSyncLevel
              == if GivesBack(old(View())) then old(View()).mutex.value.originalSyncLevel
                else old(thread.currentSyncLevel)
    {
      LeaveMutex(thread);
      LeaveMethod(thread.threadId);
    }

    method LeaveMutex(thread: ThreadState)
      requires mutex != null ==> mutex.acquisitionDepth > 0
      modifies mutex, thread`currentSyncLevel
      ensures View() == MutexLeft(old(View()))
      ensures thread.currentSyncLevel
              == if GivesBack(old(View())) then old(View()).mutex.value.originalSyncLevel
                else old(thread.currentSyncLevel)
    {
      if mutex != null {
        mutex.acquisitionDepth := mutex.acquisitionDepth - 1;
        if mutex.acquisitionDepth == 0 {
          thread.currentSyncLevel := mutex.originalSyncLevel;
          mutex.osMutex := None;
          mutex.threadId := NO_THREAD;
        }
      }
    }

    method LeaveMethod(t: Thread)
      modifies `threadCount, `active, `serialized, `serializedPending, `ignoreSyncLevel, `syncLevel, `ownerId
      ensures View() == ThreadLeft(old(View()), t)
    {
      ghost var left := View();
      active := active - multiset{t};
      if threadCount != 0 {
        threadCount := threadCount - 1;
      }
      left := left.(threadCount := threadCount, active := active);
      assert View() == left;
      if threadCount == 0 {
        LastThreadLeaves();
      }
    }

    /** A method that waits to be serialized is so from now on; the owner ID is given back. */
    method LastThreadLeaves()
      modifies `serialized, `serializedPending, `ignoreSyncLevel, `syncLevel, `ownerId
      ensures View() == var was := old(View());
                        var now := if was.serializedPending
                                   then was.(serializedPending := false, serialized := true, ignoreSyncLevel := true,
                                             syncLevel := 0)
                                   else was;
                        if was.moduleLevel then now else now.(ownerId := NO_OWNER)
    {
      if serializedPending {
        serializedPending := false;
        serialized, ignoreSyncLevel := true, true;
        syncLevel := 0;
      }
      if !moduleLevel {
        ownerId := NO_OWNER;
      }
    }
  }

  // ----- Entry to one method, as the state machine has it

  /** Whether a free mutex has to be taken. */
  predicate Takes(d: Method, t: Thread, walking: bool) {
    d.serialized && MustAcquire(CreateMutex(d), t, walking)
  }

  function Begun(d: Method, t: Thread, walking: bool, level: nat): Outcome {
    if d.threadCount == REENTRANCY_LIMIT then LimitReached
    else if d.serialized && OrderViolated(CreateMutex(d), walking, level) then OrderError
    else if Takes(d, t, walking) && CreateMutex(d).mutex.value.holder.Some? then Wait
    else Entry
  }

  function Handed(d: Method, t: Thread): Method
    requires d.mutex.Some?
  {
    d.(mutex := Some(d.mutex.value.(holder := Some(t))))
  }

  function AfterBegin(d: Method, t: Thread, walking: bool, level: nat, newOwner: nat): Method {
    match Begun(d, t, walking, level)
    case LimitReached => d
    case OrderError | Wait => CreateMutex(d)
    case Entry =>
      if !d.serialized then Counted(d, t, newOwner)
      else if Takes(d, t, walking) then Counted(TakeOver(Handed(CreateMutex(d), t), t, walking, level), t, newOwner)
      else Counted(CreateMutex(d), t, newOwner)
  }

  /** An owner ID is allocated only for a method that has none; a call that is refused or waits allocates none. */
  lemma BeginAllocates(d: Method, t: Thread, walking: bool, level: nat, newOwner: nat)
    ensures var d', entered := AfterBegin(d, t, walking, level, newOwner), Begun(d, t, walking, level) == Entry;
            && d'.ownerId == (if entered && d.ownerId == NO_OWNER then newOwner else d.ownerId)
            && d'.threadCount == (if entered then d.threadCount + 1 else d.threadCount)
  {
  }

  /** The code's outcome and its effect on the method are those of the state machine's step. */
  lemma BeginIsStep(s: State, t: Thread, m: MethodId, newOwner: nat)
    requires Enabled(s, Begin(t, m, newOwner))
    ensures var c := s.threads[t];
            var (s', outcome) := Beginning(s, t, m, newOwner);
            && outcome == Begun(s.methods[m], t, c.stack != [], c.level)
            && s'.methods == s.methods[m := AfterBegin(s.methods[m], t, c.stack != [], c.level, newOwner)]
            && t in s'.threads && (outcome == Entry ==>
                                   s'.threads[t].stack == c.stack + [m] && s'.threads[t].pc == Running)
            && (outcome == Entry && c.stack != [] ==>
                  s'.threads[t].level == if Takes(s.methods[m], t, true) then LevelInside(s.methods[m], c.level)
                    else c.level)
            && (outcome == Wait ==> s'.threads[t] == c.(pc := Blocked(m)))
            && ((outcome == LimitReached || outcome == OrderError) ==> s'.threads[t] == c)
  {
    var c, d := s.threads[t], s.methods[m];
    var d1 := CreateMutex(d);
    if d.threadCount == REENTRANCY_LIMIT {
      assert s.methods == s.methods[m := d];
    } else if Begun(d, t, c.stack != [], c.level) == Entry && Takes(d, t, c.stack != []) {
      var waiting := With(s, t, c.(pc := Blocked(m)), m, d1);
      var granted := Granting(waiting, t);
      assert granted.methods == s.methods[m := Handed(d1, t)];
      assert granted.threads[t] == c.(pc := Granted(m));
      var last := Resuming(granted, t, newOwner);
      assert last.methods == s.methods[m := AfterBegin(d, t, c.stack != [], c.level, newOwner)];
    }
  }

  /** The rest of the entry, after the wait, has the effect of the step too. */
  lemma ResumeIsStep(s: State, t: Thread, newOwner: nat)
    requires Enabled(s, Resume(t, newOwner))
    ensures var c, s' := s.threads[t], Step(s, Resume(t, newOwner));
            var d := s.methods[c.pc.m];
            && s'.methods == s.methods[c.pc.m := Counted(TakeOver(d, t, c.stack != [], c.level), t, newOwner)]
            && t in s'.threads && s'.threads[t].stack == c.stack + [c.pc.m] && s'.threads[t].pc == Running
            && (c.stack != [] ==> s'.threads[t].level == LevelInside(d, c.level))
            && forall u :: u in s.threads && u != t ==> u in s'.threads && s'.threads[u] == s.threads[u]
  {
  }

  /** And so has the exit. */
  lemma TerminateIsStep(s: State, t: Thread)
    requires Enabled(s, Terminate(t))
    ensures var c, s' := s.threads[t], Step(s, Terminate(t));
            var n := |c.stack| - 1;
            var d := s.methods[c.stack[n]];
            && s'.methods == s.methods[c.stack[n] := Ended(d, t)]
            && t in s'.threads && s'.threads[t].stack == c.stack[..n] && s'.threads[t].pc == Running
            && s'.threads[t].level == (if GivesBack(d) then d.mutex.value.originalSyncLevel else c.level)
            && forall u :: u in s.threads && u != t ==> u in s'.threads && s'.threads[u] == s.threads[u]
  {
  }
}
