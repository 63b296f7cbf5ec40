/**
 * The ACPI Global Lock handshake (dep/acpica/events/evglock.c) as a state machine: requesting threads, the
 * release-interrupt handler and the firmware take turns in any order, one access to shared state per step.
 */
module GlobalLock {
  import opened MachineWords
  import opened Wrappers

  type Thread = nat

  /** Where a thread is in AcpiEvAcquireGlobalLock or AcpiEvReleaseGlobalLock. */
  datatype Pc =
    | Idle
    | GotMutex     // owns the OS mutex, has updated the handle
    | Spinning     // about to take the pending spin lock
    | Attempting   // holds it, about to try the FACS word
    | Won          // got the hardware lock
    | WonSet       // has set GlobalLockAcquired
    | Leaving      // has cleared GlobalLockPending
    | Lost         // did not get the hardware lock
    | LostSet      // has set GlobalLockPending
    | Waiting      // on the semaphore, spin lock released
    | Holding      // the acquire call has returned with the lock
    | RelFacs      // in the release call, about to release the FACS word
    | RelNotify(told: bool)  // about to write GBL_RLS if firmware is waiting
    | RelClear     // about to clear GlobalLockAcquired
    | RelMutex     // about to release the OS mutex

  datatype HandlerPc = HIdle | HEntered | HLocked | HSignal | HSignalled | HLeaving

  datatype FirmwarePc = FwIdle | FwOwns | FwMustRaise

  datatype Spin = Free | ByThread | ByHandler

  /** Everything but the threads themselves. */
  datatype Shared = Shared(
    present: bool,           // AcpiGbl_GlobalLockPresent
    facsOwned: bool,         // the FACS word, section 5.2.10.1 of the ACPI Specification
    facsPending: bool,
    handle: uint16,          // AcpiGbl_GlobalLockHandle
    spin: Spin,              // AcpiGbl_GlobalLockPendingLock
    pending: bool,           // AcpiGbl_GlobalLockPending
    acquired: bool,          // AcpiGbl_GlobalLockAcquired
    units: nat,              // AcpiGbl_GlobalLockSemaphore
    interrupt: bool,         // a release interrupt is raised and not yet taken
    rls: bool,               // GBL_RLS has been written and firmware has not yet tried again
    firmwareWaits: bool,     // firmware has tried the lock in vain
    handler: HandlerPc,
    firmware: FirmwarePc
  )

  /** The OS mutex names its owner for reference only: any thread may release the lock. */
  datatype State = State(m: Shared, mutex: Option<Thread>, threads: map<Thread, Pc>)

  datatype Action =
    | Acquire(t: Thread)       // call AcpiEvAcquireGlobalLock, as far as the mutex
    | Continue(t: Thread)      // the next access of a call in progress
    | Release(t: Thread)       // call AcpiEvReleaseGlobalLock
    | Other(event: Event)

  datatype Event = TakeInterrupt | HandlerStep | FirmwareTry | FirmwareRelease | FirmwareRaise | SpuriousInterrupt

  function NextHandle(handle: uint16): (next: uint16)
    ensures next != 0
  {
    if handle == TWO16 - 1 then 1 else handle + 1
  }

  predicate CanAdvance(m: Shared, pc: Pc) {
    match pc
    case Idle | Holding => false
    case Spinning => m.spin == Free
    case Waiting => m.units > 0
    case _ => true
  }

  /** The next access of a thread at `pc`. */
  function Advance(m: Shared, pc: Pc): (Shared, Pc)
    requires CanAdvance(m, pc)
  {
    match pc
    case GotMutex => if m.present then (m, Spinning) else (m.(acquired := true), Holding)
    case Spinning => (m.(spin := ByThread), Attempting)
    case Attempting => if m.facsOwned then (m.(facsPending := true), Lost) else (m.(facsOwned := true), Won)
    case Won => (m.(acquired := true), WonSet)
    case WonSet => (m.(pending := false), Leaving)
    case Leaving => (m.(spin := Free), Holding)
    case Lost => (m.(pending := true), LostSet)
    case LostSet => (m.(spin := Free), Waiting)
    case Waiting => (m.(units := m.units - 1), Spinning)
    case RelFacs =>
      if m.present then (m.(facsOwned := false, facsPending := false), RelNotify(m.facsPending)) else (m, RelClear)
    case RelNotify(told) => (m.(rls := m.rls || told), RelClear)
    case RelClear => (m.(acquired := false), RelMutex)
    case RelMutex => (m, Idle)
  }

  predicate CanHappen(m: Shared, event: Event) {
    match event
    case TakeInterrupt => m.handler == HIdle && m.interrupt
    case HandlerStep => m.handler != HIdle && (m.handler == HEntered ==> m.spin == Free)
    case FirmwareTry => m.firmware == FwIdle
    case FirmwareRelease => m.firmware == FwOwns
    case FirmwareRaise => m.firmware == FwMustRaise
    case SpuriousInterrupt => true
  }

  /** The next access of the release-interrupt handler AcpiEvGlobalLockHandler. */
  function AdvanceHandler(m: Shared): Shared
    requires m.handler != HIdle
  {
    match m.handler
    case HEntered => m.(handler := HLocked, spin := ByHandler)
    case HLocked => m.(handler := if m.pending then HSignal else HLeaving)
    case HSignal => m.(handler := HSignalled, units := m.units + 1)
    case HSignalled => m.(handler := HLeaving, pending := false)
    case HLeaving => m.(handler := HIdle, spin := Free)
  }

  function Happen(m: Shared, event: Event): Shared
    requires CanHappen(m, event)
  {
    match event
    case TakeInterrupt => m.(handler := HEntered, interrupt := false)
    case HandlerStep => AdvanceHandler(m)
    case FirmwareTry =>
      if !m.present then m
      else if m.facsOwned then m.(facsPending := true, firmwareWaits := true, rls := false)
      else m.(facsOwned := true, firmware := FwOwns, firmwareWaits := false, rls := false)
    case FirmwareRelease =>
      m.(facsOwned := false, facsPending := false, firmware := if m.facsPending then FwMustRaise else FwIdle)
    case FirmwareRaise => m.(interrupt := true, firmware := FwIdle)
    case SpuriousInterrupt => m.(interrupt := true)
  }

  /** The program counter of the thread that owns the mutex; Idle if none does. */
  function Current(s: State): Pc {
    if s.mutex.Some? && s.mutex.value in s.threads then s.threads[s.mutex.value] else Idle
  }

  predicate Enabled(s: State, a: Action) {
    match a
    case Acquire(t) => t in s.threads && s.threads[t] == Idle && s.mutex == None
    case Continue(t) => t in s.threads && CanAdvance(s.m, s.threads[t])
    // A release is made once for each acquire that has returned, by any thread that is not inside a call
    case Release(t) => t in s.threads && (s.threads[t] == Idle || s.threads[t] == Holding)
      && (s.m.acquired ==> Current(s) == Holding)
    case Other(event) => CanHappen(s.m, event)
  }

  function Step(s: State, a: Action): State
    requires Enabled(s, a)
  {
    match a
    case Acquire(t) => State(s.m.(handle := NextHandle(s.m.handle)), Some(t), s.threads[t := GotMutex])
    case Continue(t) =>
      var (m, pc) := Advance(s.m, s.threads[t]);
      State(m, if pc == Idle then None else s.mutex, s.threads[t := pc])
    case Release(t) =>
      if !s.m.acquired then s  // AE_NOT_ACQUIRED
      else State(s.m, Some(t), (if s.mutex.Some? then s.threads[s.mutex.value := Idle] else s.threads)[t := RelFacs])
    case Other(event) => s.(m := Happen(s.m, event))
  }

  ghost predicate Start(s: State) {
    && !s.m.facsOwned && !s.m.facsPending && s.mutex == None && s.m.spin == Free && !s.m.pending && !s.m.acquired
    && s.m.units == 0 && !s.m.firmwareWaits && s.m.handler == HIdle && s.m.firmware == FwIdle
    && forall t :: t in s.threads ==> s.threads[t] == Idle
  }

  /** A run: a sequence of actions, each enabled where it is taken. */
  ghost predicate Reaches(s: State, actions: seq<Action>, s': State)
    decreases |actions|
  {
    if actions == [] then s == s'
    else Enabled(s, actions[0]) && Reaches(Step(s, actions[0]), actions[1..], s')
  }

  // ----- What every step keeps, for the thread inside at `pc`

  predicate InSpin(pc: Pc) {
    pc == Attempting || pc == Won || pc == WonSet || pc == Leaving || pc == Lost || pc == LostSet
  }

  /** The OS owns the hardware lock: told so by the FACS word, and not yet given back. */
  predicate OsOwns(m: Shared, pc: Pc) {
    m.present && (pc == Won || pc == WonSet || pc == Leaving || pc == Holding || pc == RelFacs)
  }

  predicate InLoop(pc: Pc) {
    InSpin(pc) || pc == Spinning || pc == Waiting
  }

  predicate Blocked(m: Shared, pc: Pc) {
    pc == Waiting && m.units == 0
  }

  /** Somebody is on the way to wake the requester: firmware that owns the lock and was told, or an interrupt. */
  predicate WakeComing(m: Shared) {
    || (m.firmware == FwOwns && m.facsPending)
    || m.firmware == FwMustRaise
    || m.interrupt
    || m.handler == HEntered || m.handler == HLocked || m.handler == HSignal
  }

  predicate SpinHeld(m: Shared, pc: Pc) {
    && (m.spin == ByThread <==> InSpin(pc))
    && (m.spin == ByHandler
        <==> (m.handler == HLocked || m.handler == HSignal || m.handler == HSignalled || m.handler == HLeaving))
  }

  predicate FacsAgrees(m: Shared, pc: Pc) {
    && (m.facsOwned <==> OsOwns(m, pc) || m.firmware == FwOwns)
    && !(OsOwns(m, pc) && m.firmware == FwOwns)
    && (m.facsPending ==> m.facsOwned)
    && (m.firmware == FwOwns ==> m.present)
  }

  predicate AcquiredAgrees(m: Shared, pc: Pc) {
    m.acquired <==> pc == WonSet || pc == Leaving || pc == Holding || pc == RelFacs || pc.RelNotify? || pc == RelClear
  }

  /** The flag and the semaphore: at most one wakeup is requested or granted, and only for a waiting requester. */
  predicate FlagAgrees(m: Shared, pc: Pc) {
    && (m.pending ==> pc == LostSet || pc == Waiting || (pc == Spinning && m.handler == HSignalled))
    && (pc == LostSet ==> m.pending)
    && (m.handler == HSignal || m.handler == HSignalled ==> m.pending)
    && (m.units > 0 ==> m.units == 1 && pc == Waiting && (m.pending ==> m.handler == HSignalled))
    && (Blocked(m, pc) ==> m.pending && m.handler != HSignalled)
    && (InLoop(pc) ==> m.present)
  }

  predicate WakeAgrees(m: Shared, pc: Pc) {
    pc == Lost || pc == LostSet || Blocked(m, pc) ==> WakeComing(m)
  }

  /** The other direction of the handshake: firmware that waits is in the FACS word, or is being told, or has been. */
  predicate FirmwareAgrees(m: Shared, pc: Pc) {
    m.firmwareWaits ==> (OsOwns(m, pc) && m.facsPending) || pc == RelNotify(true) || m.rls
  }

  predicate SharedInv(m: Shared, pc: Pc) {
    && SpinHeld(m, pc) && FacsAgrees(m, pc) && AcquiredAgrees(m, pc) && FlagAgrees(m, pc) && WakeAgrees(m, pc)
    && FirmwareAgrees(m, pc)
  }

  ghost predicate OneInside(s: State) {
    && (s.mutex.Some? ==> s.mutex.value in s.threads && s.threads[s.mutex.value] != Idle)
    && (forall t :: t in s.threads && s.threads[t] != Idle ==> s.mutex == Some(t))
  }

  ghost predicate Inv(s: State) {
    OneInside(s) && SharedInv(s.m, Current(s))
  }

  lemma AttemptKeeps(m: Shared, pc: Pc)
    requires SharedInv(m, pc) && CanAdvance(m, pc) && InLoop(pc)
    ensures SharedInv(Advance(m, pc).0, Advance(m, pc).1)
  {
  }

  lemma ReleaseKeeps(m: Shared, pc: Pc)
    requires SharedInv(m, pc) && CanAdvance(m, pc) && !InLoop(pc)
    ensures SharedInv(Advance(m, pc).0, Advance(m, pc).1)
  {
  }

  lemma AdvanceKeeps(m: Shared, pc: Pc)
    requires SharedInv(m, pc) && CanAdvance(m, pc)
    ensures SharedInv(Advance(m, pc).0, Advance(m, pc).1)
  {
    if InLoop(pc) {
      AttemptKeeps(m, pc);
    } else {
      ReleaseKeeps(m, pc);
    }
  }

  lemma HandlerEntersKeeps(m: Shared, pc: Pc)
    requires SharedInv(m, pc) && CanHappen(m, HandlerStep) && (m.handler == HEntered || m.handler == HLocked)
    ensures SharedInv(AdvanceHandler(m), pc)
  {
  }

  lemma HandlerSignalsKeeps(m: Shared, pc: Pc)
    requires SharedInv(m, pc) && (m.handler == HSignal || m.handler == HSignalled)
    ensures SharedInv(AdvanceHandler(m), pc)
  {
    assert m.pending && (pc == Waiting || pc == Spinning);
  }

  lemma HandlerLeavesKeeps(m: Shared, pc: Pc)
    requires SharedInv(m, pc) && m.handler == HLeaving
    ensures SharedInv(AdvanceHandler(m), pc)
  {
  }

  lemma InterruptKeeps(m: Shared, pc: Pc, event: Event)
    requires SharedInv(m, pc) && CanHappen(m, event)
    requires event == TakeInterrupt || event == FirmwareRaise || event == SpuriousInterrupt
    ensures SharedInv(Happen(m, event), pc)
  {
  }

  lemma FirmwareKeeps(m: Shared, pc: Pc, event: Event)
    requires SharedInv(m, pc) && CanHappen(m, event) && (event == FirmwareTry || event == FirmwareRelease)
    ensures SharedInv(Happen(m, event), pc)
  {
  }

  lemma HappenKeeps(m: Shared, pc: Pc, event: Event)
    requires SharedInv(m, pc) && CanHappen(m, event)
    ensures SharedInv(Happen(m, event), pc)
  {
    match event
    case HandlerStep =>
      match m.handler {
        case HEntered | HLocked => HandlerEntersKeeps(m, pc);
        case HSignal | HSignalled => HandlerSignalsKeeps(m, pc);
        case HLeaving => HandlerLeavesKeeps(m, pc);
      }
    case FirmwareTry | FirmwareRelease => FirmwareKeeps(m, pc, event);
    case _ => InterruptKeeps(m, pc, event);
  }

  lemma AcquireKeepsInv(s: State, t: Thread)
    requires Inv(s) && Enabled(s, Acquire(t))
    ensures Inv(Step(s, Acquire(t)))
  {
  }

  lemma ContinueKeepsInv(s: State, t: Thread)
    requires Inv(s) && Enabled(s, Continue(t))
    ensures Inv(Step(s, Continue(t)))
  {
    AdvanceKeeps(s.m, s.threads[t]);
    InsideMoves(s, t, Advance(s.m, s.threads[t]).0, Advance(s.m, s.threads[t]).1);
  }

  lemma InsideMoves(s: State, t: Thread, m: Shared, pc: Pc)
    requires OneInside(s) && t in s.threads && s.threads[t] != Idle
    ensures Current(s) == s.threads[t]
    ensures var s' := State(m, if pc == Idle then None else s.mutex, s.threads[t := pc]);
            OneInside(s') && Current(s') == pc
  {
    assert s.mutex == Some(t);
  }

  lemma ReleaseKeepsInv(s: State, t: Thread)
    requires Inv(s) && Enabled(s, Release(t))
    ensures Inv(Step(s, Release(t)))
  {
  }

  lemma StepKeepsInv(s: State, a: Action)
    requires Inv(s) && Enabled(s, a)
    ensures Inv(Step(s, a))
  {
    match a
    case Acquire(t) => AcquireKeepsInv(s, t);
    case Continue(t) => ContinueKeepsInv(s, t);
    case Release(t) => ReleaseKeepsInv(s, t);
    case Other(event) => HappenKeeps(s.m, Current(s), event);
  }

  lemma {:induction false} RunKeepsInv(s: State, actions: seq<Action>, s': State)
    requires Inv(s) && Reaches(s, actions, s')
    ensures Inv(s')
    decreases |actions|
  {
    if actions != [] {
      StepKeepsInv(s, actions[0]);
      RunKeepsInv(Step(s, actions[0]), actions[1..], s');
    }
  }

  // ----- What the handshake promises, in every reachable state

  ghost predicate Reachable(s: State) {
    exists start, actions :: Start(start) && Reaches(start, actions, s)
  }

  lemma ReachableInv(s: State)
    requires Reachable(s)
    ensures Inv(s)
  {
    var start, actions :| Start(start) && Reaches(start, actions, s);
    RunKeepsInv(start, actions, s);
  }

  /**
   * No lost wakeup: a requester that waits on an empty semaphore has its request flagged, and either firmware owns
   * the lock and will find the pending bit, or is about to raise the interrupt, or the interrupt is raised, or its
   * handler has still to look at the flag or signal.
   */
  lemma NoLostWakeup(s: State, t: Thread)
    requires Reachable(s) && t in s.threads && s.threads[t] == Waiting && s.m.units == 0
    ensures s.m.pending && WakeComing(s.m)
  {
    ReachableInv(s);
    assert s.mutex == Some(t);
  }

  /** Mutual exclusion: one thread at a time is inside, and the OS and firmware never own the hardware lock together. */
  lemma Exclusion(s: State)
    requires Reachable(s)
    ensures forall t, u :: t in s.threads && u in s.threads && s.threads[t] != Idle && s.threads[u] != Idle ==> t == u
    ensures !(OsOwns(s.m, Current(s)) && s.m.firmware == FwOwns)
    ensures s.m.facsOwned <==> OsOwns(s.m, Current(s)) || s.m.firmware == FwOwns
  {
    ReachableInv(s);
  }

  /** A thread whose acquire call has returned has the lock, on paper and in hardware. */
  lemma HoldingIsOwning(s: State, t: Thread)
    requires Reachable(s) && t in s.threads && s.threads[t] == Holding
    ensures s.m.acquired
    ensures s.m.present ==> s.m.facsOwned && s.m.firmware != FwOwns
  {
    ReachableInv(s);
    assert s.mutex == Some(t);
  }

  /** GlobalLockAcquired is set only while the OS owns the lock, except in the last accesses of a release call. */
  lemma AcquiredMeansOwned(s: State)
    requires Reachable(s) && s.m.present && s.m.acquired
    ensures OsOwns(s.m, Current(s)) <==> !Current(s).RelNotify? && Current(s) != RelClear
  {
    ReachableInv(s);
  }

  /**
   * Wakeups are not hoarded: semaphore units and flag together stay at one, but for the moment between the signal and
   * the clearing of the flag; and nothing is left behind.
   */
  lemma WakeupsAreCounted(s: State)
    requires Reachable(s)
    ensures s.m.units <= 1
    ensures s.m.units + (if s.m.pending then 1 else 0) <= 1 <==> !(s.m.handler == HSignalled && s.m.units == 1)
    ensures !InLoop(Current(s)) ==> s.m.units == 0 && !s.m.pending
  {
    ReachableInv(s);
  }

  /** The flag is always clear when the requester that has got the lock clears it. */
  lemma FlagAlreadyClear(s: State, t: Thread)
    requires Reachable(s) && t in s.threads && s.threads[t] == WonSet
    ensures !s.m.pending
  {
    ReachableInv(s);
    assert s.mutex == Some(t);
  }

  /**
   * Nor is firmware forgotten: while it waits it is recorded in the word the OS owns, or is being told, or has been.
   */
  lemma FirmwareIsTold(s: State)
    requires Reachable(s) && s.m.firmwareWaits && !s.m.rls
    ensures (OsOwns(s.m, Current(s)) && s.m.facsPending) || Current(s) == RelNotify(true)
  {
    ReachableInv(s);
  }

  // ----- When a release writes GBL_RLS

  /** Thread `t` takes its next access, at `pc`. */
  predicate Accesses(s: State, a: Action, t: Thread, pc: Pc) {
    a == Continue(t) && t in s.threads && s.threads[t] == pc
  }

  lemma AdvanceBits(m: Shared, pc: Pc)
    requires CanAdvance(m, pc)
    ensures Advance(m, pc).0.handle == m.handle
    ensures Advance(m, pc).0.rls <==> m.rls || pc == RelNotify(true)
  {
    match pc
    case RelNotify(told) =>
    case _ =>
  }

  lemma HandlerBits(m: Shared)
    requires m.handler != HIdle
    ensures AdvanceHandler(m).handle == m.handle && AdvanceHandler(m).rls == m.rls
  {
    match m.handler
    case HLocked => assert m.pending || !m.pending;
    case _ =>
  }

  lemma FirmwareBits(m: Shared)
    ensures Happen(m.(firmware := FwIdle), FirmwareTry).handle == m.handle
    ensures Happen(m.(firmware := FwIdle), FirmwareTry).rls <==> m.rls && !m.present
  {
  }

  lemma HappenBits(m: Shared, event: Event)
    requires CanHappen(m, event)
    ensures Happen(m, event).handle == m.handle
    ensures Happen(m, event).rls <==> m.rls && !(event == FirmwareTry && m.present)
  {
    match event
    case HandlerStep => HandlerBits(m);
    case FirmwareTry =>
      assert m == m.(firmware := FwIdle);
      FirmwareBits(m);
    case _ =>
  }

  /**
   * GBL_RLS becomes set only by a release that was told of a waiter, and by every such release; it is reset only when
   * firmware tries again.
   */
  lemma ReleaseBitWritten(s: State, a: Action)
    requires Enabled(s, a)
    ensures Step(s, a).m.rls <==> (exists t :: Accesses(s, a, t, RelNotify(true)))
                                  || (s.m.rls && !(a == Other(FirmwareTry) && s.m.present))
  {
    match a
    case Continue(t) =>
      AdvanceBits(s.m, s.threads[t]);
      assert Accesses(s, a, t, RelNotify(true)) <==> s.threads[t] == RelNotify(true);
    case Other(event) => HappenBits(s.m, event);
    case _ =>
  }

  /** A release has been told of a waiter exactly if the pending bit was set when it gave the FACS word back. */
  lemma ToldByPendingBit(s: State, a: Action, t: Thread)
    requires Enabled(s, a) && t in s.threads && t in Step(s, a).threads && !s.threads[t].RelNotify?
    ensures Step(s, a).threads[t] == RelNotify(true)
            <==> Accesses(s, a, t, RelFacs) && s.m.present && s.m.facsPending
    ensures Step(s, a).threads[t] == RelNotify(false)
            <==> Accesses(s, a, t, RelFacs) && s.m.present && !s.m.facsPending
  {
  }

  /** While the OS owns the lock, the pending bit stands for firmware that has tried in vain. */
  predicate PendingIsFirmware(m: Shared, pc: Pc) {
    OsOwns(m, pc) && m.facsPending ==> m.firmwareWaits
  }

  lemma StepKeepsPending(s: State, a: Action)
    requires Inv(s) && PendingIsFirmware(s.m, Current(s)) && Enabled(s, a)
    ensures PendingIsFirmware(Step(s, a).m, Current(Step(s, a)))
  {
  }

  lemma {:induction false} RunKeepsPending(s: State, actions: seq<Action>, s': State)
    requires Inv(s) && PendingIsFirmware(s.m, Current(s)) && Reaches(s, actions, s')
    ensures PendingIsFirmware(s'.m, Current(s'))
    decreases |actions|
  {
    if actions != [] {
      StepKeepsInv(s, actions[0]);
      StepKeepsPending(s, actions[0]);
      RunKeepsPending(Step(s, actions[0]), actions[1..], s');
    }
  }

  /** A release is told of a waiter only if firmware is waiting. */
  lemma ToldMeansWaiting(s: State, t: Thread)
    requires Reachable(s) && t in s.threads && s.threads[t] == RelFacs && s.m.present && s.m.facsPending
    ensures s.m.firmwareWaits
  {
    var start, actions :| Start(start) && Reaches(start, actions, s);
    RunKeepsPending(start, actions, s);
    ReachableInv(s);
    assert s.mutex == Some(t);
  }

  /** Firmware has neither tried nor been told of anything. */
  predicate NoFirmware(m: Shared) {
    && !m.rls && !m.firmwareWaits && m.firmware == FwIdle
  }

  lemma StepWithoutFirmware(s: State, a: Action)
    requires Inv(s) && NoFirmware(s.m) && Enabled(s, a) && a != Other(FirmwareTry)
    requires !s.m.facsPending && forall t :: t in s.threads ==> s.threads[t] != RelNotify(true)
    ensures var s' := Step(s, a);
            NoFirmware(s'.m) && !s'.m.facsPending && forall t :: t in s'.threads ==> s'.threads[t] != RelNotify(true)
  {
  }

  /** As long as firmware does not try for the lock, no release writes GBL_RLS. */
  lemma {:induction false} NoReleaseBitWithoutFirmware(s: State, actions: seq<Action>, s': State)
    requires Inv(s) && NoFirmware(s.m) && !s.m.facsPending
    requires forall t :: t in s.threads ==> s.threads[t] != RelNotify(true)
    requires Reaches(s, actions, s') && Other(FirmwareTry) !in actions
    ensures !s'.m.rls && !s'.m.facsPending
    decreases |actions|
  {
    if actions != [] {
      assert actions[0] in actions;
      StepKeepsInv(s, actions[0]);
      StepWithoutFirmware(s, actions[0]);
      NoReleaseBitWithoutFirmware(Step(s, actions[0]), actions[1..], s');
    }
  }

  lemma NoReleaseBitFromStart(start: State, actions: seq<Action>, s: State)
    requires Start(start) && !start.m.rls && Reaches(start, actions, s) && Other(FirmwareTry) !in actions
    ensures !s.m.rls
  {
    NoReleaseBitWithoutFirmware(start, actions, s);
  }

  // ----- Handles

  function Acquires(actions: seq<Action>): nat {
    if actions == [] then 0 else Acquires(actions[1..]) + if actions[0].Acquire? then 1 else 0
  }

  /** The handle counts the acquires of a run in the cycle of the numbers from 1 to 65535. */
  lemma {:induction false} HandleCounts(s: State, actions: seq<Action>, s': State)
    requires Reaches(s, actions, s')
    ensures var n := Acquires(actions);
            s'.m.handle == if n == 0 then s.m.handle else (s.m.handle + n - 1) % (TWO16 - 1) + 1
    decreases |actions|
  {
    if actions != [] {
      HandleCounts(Step(s, actions[0]), actions[1..], s');
      HandleStep(s, actions[0]);
      HandleCycle(s.m.handle, Acquires(actions[1..]));
    }
  }

  lemma HandleStep(s: State, a: Action)
    requires Enabled(s, a)
    ensures Step(s, a).m.handle == if a.Acquire? then NextHandle(s.m.handle) else s.m.handle
  {
    match a
    case Continue(t) => AdvanceBits(s.m, s.threads[t]);
    case Other(event) => HappenBits(s.m, event);
    case _ =>
  }

  lemma HandleCycle(handle: uint16, n: nat)
    ensures (NextHandle(handle) + n) % (TWO16 - 1) == (handle + n + 1) % (TWO16 - 1)
    ensures NextHandle(handle) == handle % (TWO16 - 1) + 1
  {
    if handle == TWO16 - 1 {
      assert handle + n + 1 == (n + 1) + 1 * (TWO16 - 1);
    }
  }

  // ----- Two things that hold at every access but one

  lemma {:induction false} ReachesStep(start: State, actions: seq<Action>, s: State, a: Action)
    requires Reaches(start, actions, s) && Enabled(s, a)
    ensures Reaches(start, actions + [a], Step(s, a))
    decreases |actions|
  {
    if actions == [] {
      assert [] + [a] == [a];
      assert Reaches(Step(s, a), [a][1..], Step(s, a));
    } else {
      ReachesStep(Step(start, actions[0]), actions[1..], s, a);
      assert (actions + [a])[1..] == actions[1..] + [a];
    }
  }

  lemma ReachableStep(s: State, a: Action) returns (s': State)
    requires Reachable(s) && Enabled(s, a)
    ensures Reachable(s') && s' == Step(s, a)
  {
    s' := Step(s, a);
    var start, actions :| Start(start) && Reaches(start, actions, s);
    ReachesStep(start, actions, s, a);
  }

  function Quiet(): State {
    State(Shared(true, false, false, 0, Free, false, false, 0, false, false, false, HIdle, FwIdle), None,
          map[1 := Idle])
  }

  lemma QuietIsReachable()
    ensures Reachable(Quiet())
  {
    assert Start(Quiet()) && Reaches(Quiet(), [], Quiet());
  }

  /** A release clears GlobalLockAcquired only after it has given the hardware lock back. */
  lemma AcquiredOutlivesOwnership() returns (s: State)
    ensures Reachable(s) && s.m.present && s.m.acquired && !s.m.facsOwned
  {
    QuietIsReachable();
    s := ReachableStep(Quiet(), Acquire(1));
    s := ReachableStep(s, Continue(1));
    s := ReachableStep(s, Continue(1));
    s := ReachableStep(s, Continue(1));
    s := ReachableStep(s, Continue(1));
    s := ReachableStep(s, Continue(1));
    s := ReachableStep(s, Continue(1));
    s := ReachableStep(s, Release(1));
    s := ReachableStep(s, Continue(1));
  }

  /** A thread waits for a lock that firmware owns. */
  lemma WaitingIsReachable() returns (s: State)
    ensures Reachable(s)
    ensures s.m.pending && s.m.units == 0 && s.m.handler == HIdle && s.m.spin == Free
  {
    QuietIsReachable();
    s := ReachableStep(Quiet(), Other(FirmwareTry));
    s := ReachableStep(s, Acquire(1));
    s := ReachableStep(s, Continue(1));
    s := ReachableStep(s, Continue(1));
    s := ReachableStep(s, Continue(1));
    s := ReachableStep(s, Continue(1));
    s := ReachableStep(s, Continue(1));
  }

  /** The handler clears GlobalLockPending only after it has signalled the semaphore. */
  lemma FlagOutlivesSignal() returns (s: State)
    ensures Reachable(s) && s.m.pending && s.m.units == 1
  {
    s := WaitingIsReachable();
    s := ReachableStep(s, Other(SpuriousInterrupt));
    s := ReachableStep(s, Other(TakeInterrupt));
    s := ReachableStep(s, Other(HandlerStep));
    s := ReachableStep(s, Other(HandlerStep));
    s := ReachableStep(s, Other(HandlerStep));
  }

  // ----- A blocked requester is woken after boundedly many steps of handler and firmware

  /** How many steps of the responsible parties remain until the signal. */
  function Distance(m: Shared): nat {
    if m.handler == HSignal then 1
    else if m.handler == HLocked then 2
    else if m.handler == HEntered then 3
    else if m.interrupt then (if m.handler == HIdle then 4 else 5)
    else if m.firmware == FwMustRaise then 6
    else 7
  }

  function Responsible(m: Shared): Event {
    if m.handler == HSignal || m.handler == HLocked || m.handler == HEntered then HandlerStep
    else if m.interrupt then (if m.handler == HIdle then TakeInterrupt else HandlerStep)
    else if m.firmware == FwMustRaise then FirmwareRaise
    else FirmwareRelease
  }

  lemma EventProgress(m: Shared, event: Event)
    requires SharedInv(m, Waiting) && m.units == 0
    ensures CanHappen(m, Responsible(m))
    ensures CanHappen(m, event) ==> var m' := Happen(m, event);
              m'.units > 0 || (if event == Responsible(m) then Distance(m') < Distance(m)
                               else Distance(m') <= Distance(m))
  {
  }

  /** The responsible step is possible and brings the signal closer; no step of anyone moves it away. */
  lemma WakeupProgress(s: State, a: Action)
    requires Reachable(s) && Blocked(s.m, Current(s))
    ensures Enabled(s, Other(Responsible(s.m)))
    ensures var s' := Step(s, Other(Responsible(s.m))); s'.m.units > 0 || Distance(s'.m) < Distance(s.m)
    ensures Enabled(s, a) ==> var s' := Step(s, a); s'.m.units > 0 || Distance(s'.m) <= Distance(s.m)
    ensures Enabled(s, a) ==> Step(s, a).mutex == s.mutex && Current(Step(s, a)) == Waiting
  {
    ReachableInv(s);
    EventProgress(s.m, Responsible(s.m));
    if Enabled(s, a) {
      OnlyEventsWhileBlocked(s, a);
      if a.Other? {
        EventProgress(s.m, a.event);
      }
    }
  }

  /** While the requester is blocked no thread can do anything but be refused a release. */
  lemma OnlyEventsWhileBlocked(s: State, a: Action)
    requires Inv(s) && Blocked(s.m, Current(s)) && Enabled(s, a)
    ensures a.Other? || Step(s, a) == s
  {
    assert forall t :: t in s.threads && t != s.mutex.value ==> s.threads[t] == Idle;
  }
}
