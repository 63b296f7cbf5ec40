/**
 * General-purpose events that share one 8-bit enable register: runtime references, masking,
 * dispatch and handlers (dep/acpica/events/evgpe.c, evxface.c; dep/acpica/hardware/hwgpe.c).
 */
module Gpe {
  import opened MachineWords

  // ----- Bits of a register

  function Bit(j: int): bv8
    requires 0 <= j < 8
  {
    if j == 0 then 1 else if j == 1 then 2 else if j == 2 then 4 else if j == 3 then 8
    else if j == 4 then 16 else if j == 5 then 32 else if j == 6 then 64 else 128
  }

  lemma BitIsShift(j: int)
    requires 0 <= j < 8
    ensures Bit(j) == (1 as bv8) << j
  {
  }

  predicate Has(mask: bv8, j: int)
    requires 0 <= j < 8
  {
    mask & Bit(j) != 0
  }

  function SetBit(mask: bv8, j: int): bv8
    requires 0 <= j < 8
  {
    mask | Bit(j)
  }

  function ClearBit(mask: bv8, j: int): bv8
    requires 0 <= j < 8
  {
    mask & !Bit(j)
  }

  lemma BitsDisjoint(j: int, k: int)
    requires 0 <= j < 8 && 0 <= k < 8
    ensures Bit(j) != 0 && (j != k ==> Bit(j) & Bit(k) == 0)
  {
  }

  lemma MaskAlgebra(mask: bv8, b: bv8, c: bv8)
    ensures (mask | b) & b == b && (mask & !b) & b == 0
    ensures b & c == 0 ==> (mask | b) & c == mask & c && (mask & !b) & c == mask & c
  {
  }

  lemma BitsOf(mask: bv8, j: int, k: int)
    requires 0 <= j < 8 && 0 <= k < 8
    ensures Has(SetBit(mask, j), k) <==> j == k || Has(mask, k)
    ensures Has(ClearBit(mask, j), k) <==> j != k && Has(mask, k)
  {
    BitsDisjoint(j, k);
    MaskAlgebra(mask, Bit(j), Bit(k));
  }

  lemma SameBits(a: bv8, b: bv8)
    requires forall k :: 0 <= k < 8 ==> Has(a, k) == Has(b, k)
    ensures a == b
  {
    assert Has(a, 0) == Has(b, 0) && Has(a, 1) == Has(b, 1) && Has(a, 2) == Has(b, 2) && Has(a, 3) == Has(b, 3);
    assert Has(a, 4) == Has(b, 4) && Has(a, 5) == Has(b, 5) && Has(a, 6) == Has(b, 6) && Has(a, 7) == Has(b, 7);
  }

  // ----- State

  const DISPATCH_NONE: bv8 := 0x00
  const DISPATCH_METHOD: bv8 := 0x01
  const DISPATCH_HANDLER: bv8 := 0x02
  const DISPATCH_NOTIFY: bv8 := 0x03
  const DISPATCH_RAW_HANDLER: bv8 := 0x04
  const DISPATCH_MASK: bv8 := 0x07
  const XRUPT_TYPE_MASK: bv8 := 0x08
  const LEVEL_TRIGGERED: bv8 := 0x08

  const UINT8_MAX := 255

  datatype Status = Ok | Limit | BadParameter | AlreadyExists | NotExist | HardwareError

  /** Stored by an installed handler so that the state before it can be restored. */
  datatype HandlerInfo = HandlerInfo(address: int, context: int, node: int, originalFlags: bv8, originallyEnabled: bool)

  /** The dispatch union: a method node or notify list, or an installed handler. */
  datatype Target = Node(node: int) | Handler(handler: HandlerInfo)

  datatype Event = Event(runtimeCount: uint8, disableForDispatch: bool, flags: bv8, target: Target)
  {
    function DispatchType(): bv8 {
      flags & DISPATCH_MASK
    }

    predicate LevelTriggered() {
      flags & XRUPT_TYPE_MASK == LEVEL_TRIGGERED
    }

    predicate HasHandler() {
      DispatchType() == DISPATCH_HANDLER || DispatchType() == DISPATCH_RAW_HANDLER
    }

    /** The dispatch flags tell which member of the dispatch union is in use. */
    predicate Consistent() {
      && (HasHandler() <==> target.Handler?)
      && (target.Handler? ==>
            && TypeBits(target.handler.originalFlags) == target.handler.originalFlags
            && target.handler.originalFlags & DISPATCH_MASK != DISPATCH_HANDLER
            && target.handler.originalFlags & DISPATCH_MASK != DISPATCH_RAW_HANDLER)
    }
  }

  /** The software masks of a register pair, and the enable register in hardware. */
  datatype Register = Register(enableForRun: bv8, enableMask: bv8, maskForRun: bv8, enabled: bv8)

  // ----- One event in its register

  datatype Action = Enable | Disable | ConditionalEnable

  /** A state of one event and its register, and the status an operation returns. */
  datatype Outcome = Outcome(reg: Register, event: Event, status: Status)

  /** AcpiHwLowSetGpe; `access` tells whether the hardware accesses succeed. */
  function LowSet(reg: Register, j: int, action: Action, access: bool): (Register, Status)
    requires 0 <= j < 8
  {
    if !access then (reg, HardwareError)
    else if action == ConditionalEnable && !Has(reg.enableMask, j) then (reg, BadParameter)
    else
      var value := if action == Disable then ClearBit(reg.enabled, j) else SetBit(reg.enabled, j);
      (if Has(reg.maskForRun, j) then reg else reg.(enabled := value), Ok)
  }

  function UpdateEnableMask(reg: Register, event: Event, j: int): Register
    requires 0 <= j < 8
  {
    var cleared := ClearBit(reg.enableForRun, j);
    var run := if event.runtimeCount > 0 then SetBit(cleared, j) else cleared;
    reg.(enableForRun := run, enableMask := run)
  }

  function AddReference(reg: Register, event: Event, j: int, access: bool): Outcome
    requires 0 <= j < 8
  {
    if event.runtimeCount == UINT8_MAX then Outcome(reg, event, Limit)
    else
      var event' := event.(runtimeCount := event.runtimeCount + 1);
      if event'.runtimeCount != 1 then Outcome(reg, event', Ok)
      else
        var (reg', status) := LowSet(UpdateEnableMask(reg, event', j), j, Enable, access);
        Outcome(reg', if status == Ok then event' else event, status)
  }

  function RemoveReference(reg: Register, event: Event, j: int, access: bool): Outcome
    requires 0 <= j < 8
  {
    if event.runtimeCount == 0 then Outcome(reg, event, Limit)
    else
      var event' := event.(runtimeCount := event.runtimeCount - 1);
      if event'.runtimeCount != 0 then Outcome(reg, event', Ok)
      else
        var (reg', status) := LowSet(UpdateEnableMask(reg, event', j), j, Disable, access);
        Outcome(reg', if status == Ok then event' else event, status)
  }

  function MaskEvent(reg: Register, event: Event, j: int, masked: bool, access: bool): Outcome
    requires 0 <= j < 8
  {
    if masked == Has(reg.maskForRun, j) then Outcome(reg, event, BadParameter)
    else if masked then
      var off := LowSet(reg, j, Disable, access).0;
      Outcome(off.(maskForRun := SetBit(off.maskForRun, j)), event, Ok)
    else
      var unmasked := reg.(maskForRun := ClearBit(reg.maskForRun, j));
      Outcome(if event.runtimeCount > 0 && !event.disableForDispatch then LowSet(unmasked, j, Enable, access).0
              else unmasked,
              event, Ok)
  }

  /** `clears` is whether the write to the status register succeeds. */
  function FinishEvent(reg: Register, event: Event, j: int, clears: bool, access: bool): Outcome
    requires 0 <= j < 8
  {
    if event.LevelTriggered() && !clears then Outcome(reg, event, HardwareError)
    else Outcome(LowSet(reg, j, ConditionalEnable, access).0, event.(disableForDispatch := false), Ok)
  }

  /** Whether the accesses of a dispatch succeed: to disable the event, to clear its status and to enable it again. */
  datatype Accesses = Accesses(disables: bool, clears: bool, enables: bool)

  /**
   * `reenable` is what an installed handler answers; a method or notify finishes later, by FinishEvent. A failing
   * status means that the event is reported as not handled.
   */
  function DispatchEvent(reg: Register, event: Event, j: int, hw: Accesses, reenable: bool): Outcome
    requires 0 <= j < 8
  {
    if !hw.disables then Outcome(reg, event, HardwareError)
    else
      var off := LowSet(reg, j, Disable, true).0;
      if !event.LevelTriggered() && !hw.clears then
        Outcome(LowSet(off, j, ConditionalEnable, hw.enables).0, event, HardwareError)
      else
        var busy := event.(disableForDispatch := true);
        if event.DispatchType() == DISPATCH_HANDLER && reenable then
          FinishEvent(off, busy, j, hw.clears, hw.enables).(status := Ok)
        else
          Outcome(off, busy, Ok)
  }

  /** The trigger and dispatch bits of an event's flags, and the flags with these bits replaced. */
  function TypeBits(flags: bv8): bv8 {
    flags & (XRUPT_TYPE_MASK | DISPATCH_MASK)
  }

  function WithTypeBits(flags: bv8, bits: bv8): bv8 {
    (flags & !(XRUPT_TYPE_MASK | DISPATCH_MASK)) | bits
  }

  predicate RunsMethod(flags: bv8) {
    flags & DISPATCH_MASK == DISPATCH_METHOD || flags & DISPATCH_MASK == DISPATCH_NOTIFY
  }

  function InstallHandler(reg: Register, event: Event, j: int, address: int, context: int, kind: bv8,
                          raw: bool): (out: Outcome)
    requires 0 <= j < 8 && event.Consistent()
    ensures out.event.Consistent()
  {
    if address == 0 || kind & !XRUPT_TYPE_MASK != 0 then Outcome(reg, event, BadParameter)
    else if event.HasHandler() then Outcome(reg, event, AlreadyExists)
    else
      var originalFlags := TypeBits(event.flags);
      var enabled := RunsMethod(originalFlags) && event.runtimeCount > 0;
      var removed := if enabled then RemoveReference(reg, event, j, true) else Outcome(reg, event, Ok);
      var flags := WithTypeBits(removed.event.flags, kind | if raw then DISPATCH_RAW_HANDLER else DISPATCH_HANDLER);
      var handler := HandlerInfo(address, context, event.target.node, originalFlags, enabled);
      Outcome(removed.reg, removed.event.(flags := flags, target := Handler(handler)), Ok)
  }

  function RemoveHandler(reg: Register, event: Event, j: int, address: int): (out: Outcome)
    requires 0 <= j < 8 && event.Consistent()
    ensures out.event.Consistent()
  {
    if address == 0 then Outcome(reg, event, BadParameter)
    else if !event.HasHandler() then Outcome(reg, event, NotExist)
    else if event.target.handler.address != address then Outcome(reg, event, BadParameter)
    else
      var handler := event.target.handler;
      var flags := WithTypeBits(event.flags, handler.originalFlags);
      var restored := event.(flags := flags, target := Node(handler.node));
      if RunsMethod(handler.originalFlags) && handler.originallyEnabled then
        AddReference(reg, restored, j, true).(status := Ok)
      else
        Outcome(reg, restored, Ok)
  }

  // ----- Eight events sharing a register

  datatype Bank = Bank(reg: Register, events: seq<Event>)

  datatype Op =
    | Add(j: int)
    | Remove(j: int)
    | Mask(j: int, masked: bool)
    | Dispatch(j: int, clears: bool, reenable: bool)
    | Finish(j: int, clears: bool)
    | Install(j: int, address: int, context: int, kind: bv8, raw: bool)
    | Uninstall(j: int, address: int)

  predicate Proper(bank: Bank) {
    |bank.events| == 8 && forall e :: e in bank.events ==> e.Consistent()
  }

  function StepAt(reg: Register, event: Event, op: Op): (out: Outcome)
    requires 0 <= op.j < 8 && event.Consistent()
    ensures out.event.Consistent()
  {
    match op
    case Add(j) => AddReference(reg, event, j, true)
    case Remove(j) => RemoveReference(reg, event, j, true)
    case Mask(j, masked) => MaskEvent(reg, event, j, masked, true)
    case Dispatch(j, clears, reenable) => DispatchEvent(reg, event, j, Accesses(true, clears, true), reenable)
    case Finish(j, clears) => FinishEvent(reg, event, j, clears, true)
    case Install(j, address, context, kind, raw) => InstallHandler(reg, event, j, address, context, kind, raw)
    case Uninstall(j, address) => RemoveHandler(reg, event, j, address)
  }

  function Step(bank: Bank, op: Op): (after: Bank)
    requires Proper(bank) && 0 <= op.j < 8
    ensures Proper(after)
  {
    var out := StepAt(bank.reg, bank.events[op.j], op);
    Bank(out.reg, bank.events[op.j := out.event])
  }

  function Run(bank: Bank, ops: seq<Op>): (after: Bank)
    requires Proper(bank) && forall op :: op in ops ==> 0 <= op.j < 8
    ensures Proper(after)
    decreases |ops|
  {
    if ops == [] then bank else Run(Step(bank, ops[0]), ops[1..])
  }

  /** What the register says about event `k` agrees with that event. */
  ghost predicate Sandwiched(reg: Register, event: Event, k: int)
    requires 0 <= k < 8
  {
    && (Has(reg.enableForRun, k) <==> event.runtimeCount > 0)
    && (Has(reg.enabled, k) ==> event.runtimeCount > 0 && !Has(reg.maskForRun, k))
    && (event.runtimeCount > 0 && !Has(reg.maskForRun, k) && !event.disableForDispatch ==> Has(reg.enabled, k))
  }

  ghost predicate Good(bank: Bank) {
    && Proper(bank)
    && bank.reg.enableMask == bank.reg.enableForRun
    && forall k :: 0 <= k < 8 ==> Sandwiched(bank.reg, bank.events[k], k)
  }

  /** An operation on one event leaves the other bits of every mask alone. */
  ghost predicate SameElsewhere(before: Register, after: Register, j: int, k: int)
    requires 0 <= j < 8 && 0 <= k < 8
  {
    j != k ==>
      && Has(after.enableForRun, k) == Has(before.enableForRun, k)
      && Has(after.maskForRun, k) == Has(before.maskForRun, k)
      && Has(after.enabled, k) == Has(before.enabled, k)
  }

  lemma LowSetBits(reg: Register, j: int, action: Action, access: bool, k: int)
    requires 0 <= j < 8 && 0 <= k < 8
    ensures var (after, status) := LowSet(reg, j, action, access);
            && after == reg.(enabled := after.enabled)
            && (j != k ==> Has(after.enabled, k) == Has(reg.enabled, k))
            && (status == Ok && !Has(reg.maskForRun, j) ==> Has(after.enabled, j) == (action != Disable))
            && (status != Ok || Has(reg.maskForRun, j) ==> after == reg)
  {
    BitsOf(reg.enabled, j, k);
    BitsOf(reg.enabled, j, j);
  }

  lemma UpdateBits(reg: Register, event: Event, j: int, k: int)
    requires 0 <= j < 8 && 0 <= k < 8
    ensures var after := UpdateEnableMask(reg, event, j);
            && after.enableMask == after.enableForRun
            && after.maskForRun == reg.maskForRun && after.enabled == reg.enabled
            && Has(after.enableForRun, k) == (if k == j then event.runtimeCount > 0 else Has(reg.enableForRun, k))
  {
    BitsOf(reg.enableForRun, j, k);
    BitsOf(ClearBit(reg.enableForRun, j), j, k);
  }

  /** What one operation on event `j` must keep: its own bits right, all others as they were. */
  ghost predicate Keeps(reg: Register, out: Outcome, j: int, k: int)
    requires 0 <= j < 8 && 0 <= k < 8
  {
    && out.reg.enableMask == out.reg.enableForRun
    && Sandwiched(out.reg, out.event, j)
    && SameElsewhere(reg, out.reg, j, k)
  }

  /** With a failing access a first reference leaves its run bit behind, so the masks stay right exactly otherwise. */
  lemma AddReferenceKeeps(reg: Register, event: Event, j: int, access: bool, k: int)
    requires 0 <= j < 8 && 0 <= k < 8
    requires reg.enableMask == reg.enableForRun && Sandwiched(reg, event, j)
    ensures Keeps(reg, AddReference(reg, event, j, access), j, k) <==> access || event.runtimeCount > 0
  {
    var event' := event.(runtimeCount := if event.runtimeCount == UINT8_MAX then UINT8_MAX else event.runtimeCount + 1);
    var updated := UpdateEnableMask(reg, event', j);
    UpdateBits(reg, event', j, k);
    UpdateBits(reg, event', j, j);
    LowSetBits(updated, j, Enable, access, k);
  }

  /** Likewise a failing access to drop the last reference clears the run bit but keeps the reference. */
  lemma RemoveReferenceKeeps(reg: Register, event: Event, j: int, access: bool, k: int)
    requires 0 <= j < 8 && 0 <= k < 8
    requires reg.enableMask == reg.enableForRun && Sandwiched(reg, event, j)
    ensures Keeps(reg, RemoveReference(reg, event, j, access), j, k) <==> access || event.runtimeCount != 1
  {
    if event.runtimeCount == 1 {
      LastReferenceRemoved(reg, event, j, access, k);
    }
  }

  lemma LastReferenceRemoved(reg: Register, event: Event, j: int, access: bool, k: int)
    requires 0 <= j < 8 && 0 <= k < 8 && event.runtimeCount == 1
    requires Sandwiched(reg, event, j)
    ensures Keeps(reg, RemoveReference(reg, event, j, access), j, k) <==> access
  {
    var event' := event.(runtimeCount := 0);
    var updated := UpdateEnableMask(reg, event', j);
    UpdateBits(reg, event', j, k);
    UpdateBits(reg, event', j, j);
    LowSetBits(updated, j, Disable, access, k);
    assert RemoveReference(reg, event, j, access).reg == LowSet(updated, j, Disable, access).0;
  }

  /** Masking must turn an enabled event off in hardware. */
  lemma MaskOnKeeps(reg: Register, event: Event, j: int, access: bool, k: int)
    requires 0 <= j < 8 && 0 <= k < 8
    requires reg.enableMask == reg.enableForRun && Sandwiched(reg, event, j)
    ensures Keeps(reg, MaskEvent(reg, event, j, true, access), j, k) <==> access || !Has(reg.enabled, j)
    ensures var out := MaskEvent(reg, event, j, true, access);
            && Has(out.reg.maskForRun, j) && out.event == event && out.reg.enableForRun == reg.enableForRun
            && (out.status == Ok <==> !Has(reg.maskForRun, j))
  {
    BitsOf(reg.maskForRun, j, k);
    BitsOf(reg.maskForRun, j, j);
    LowSetBits(reg, j, Disable, access, k);
    LowSetBits(reg, j, Disable, access, j);
  }

  /** Unmasking must turn a referenced idle event on. */
  lemma MaskOffKeeps(reg: Register, event: Event, j: int, access: bool, k: int)
    requires 0 <= j < 8 && 0 <= k < 8
    requires reg.enableMask == reg.enableForRun && Sandwiched(reg, event, j)
    ensures Keeps(reg, MaskEvent(reg, event, j, false, access), j, k)
            <==> access || !Has(reg.maskForRun, j) || event.runtimeCount == 0 || event.disableForDispatch
    ensures var out := MaskEvent(reg, event, j, false, access);
            && !Has(out.reg.maskForRun, j) && out.event == event && out.reg.enableForRun == reg.enableForRun
            && (out.status == Ok <==> Has(reg.maskForRun, j))
  {
    BitsOf(reg.maskForRun, j, k);
    BitsOf(reg.maskForRun, j, j);
    LowSetBits(reg.(maskForRun := ClearBit(reg.maskForRun, j)), j, Enable, access, k);
  }

  /** The event is wanted on in hardware unless it is being dispatched. */
  predicate Wanted(reg: Register, event: Event, j: int)
    requires 0 <= j < 8
  {
    event.runtimeCount > 0 && !Has(reg.maskForRun, j)
  }

  lemma FinishKeeps(reg: Register, event: Event, j: int, clears: bool, access: bool, k: int)
    requires 0 <= j < 8 && 0 <= k < 8
    requires reg.enableMask == reg.enableForRun && Sandwiched(reg, event, j)
    ensures Keeps(reg, FinishEvent(reg, event, j, clears, access), j, k)
            <==> access || Has(reg.enabled, j) || !Wanted(reg, event, j) || (event.LevelTriggered() && !clears)
    ensures var out := FinishEvent(reg, event, j, clears, access);
            && out.event == event.(disableForDispatch := event.LevelTriggered() && !clears && event.disableForDispatch)
            && (access && !event.LevelTriggered() ==> (Has(out.reg.enabled, j) <==> Wanted(reg, event, j)))
  {
    LowSetBits(reg, j, ConditionalEnable, access, k);
    LowSetBits(reg, j, ConditionalEnable, access, j);
  }

  /** A dispatch that cannot enable the event again keeps the masks right if that is not called for. */
  lemma DispatchKeeps(reg: Register, event: Event, j: int, hw: Accesses, reenable: bool, k: int)
    requires 0 <= j < 8 && 0 <= k < 8
    requires reg.enableMask == reg.enableForRun && Sandwiched(reg, event, j)
    ensures Keeps(reg, DispatchEvent(reg, event, j, hw, reenable), j, k)
            <==> !hw.disables || hw.enables || !Wanted(reg, event, j)
                 || (if hw.clears then event.DispatchType() != DISPATCH_HANDLER || !reenable
                     else event.LevelTriggered() || event.disableForDispatch)
  {
    var off := LowSet(reg, j, Disable, true).0;
    var busy := event.(disableForDispatch := true);
    DisabledKeeps(reg, event, j, k);
    var out := DispatchEvent(reg, event, j, hw, reenable);
    if !hw.disables {
      assert out == Outcome(reg, event, HardwareError);
    } else if !event.LevelTriggered() && !hw.clears {
      RestoredKeeps(off, event, j, hw.enables, k);
      assert out == Outcome(LowSet(off, j, ConditionalEnable, hw.enables).0, event, HardwareError);
    } else if event.DispatchType() == DISPATCH_HANDLER && reenable {
      FinishKeeps(off, busy, j, hw.clears, hw.enables, k);
      assert out == FinishEvent(off, busy, j, hw.clears, hw.enables).(status := Ok);
    } else {
      assert out == Outcome(off, busy, Ok);
    }
  }

  lemma DisabledKeeps(reg: Register, event: Event, j: int, k: int)
    requires 0 <= j < 8 && 0 <= k < 8
    requires reg.enableMask == reg.enableForRun && Sandwiched(reg, event, j)
    ensures var off := LowSet(reg, j, Disable, true).0;
            && off == reg.(enabled := off.enabled) && !Has(off.enabled, j) && SameElsewhere(reg, off, j, k)
            && Sandwiched(off, event.(disableForDispatch := true), j)
  {
    LowSetBits(reg, j, Disable, true, k);
    LowSetBits(reg, j, Disable, true, j);
  }

  lemma RestoredKeeps(off: Register, event: Event, j: int, access: bool, k: int)
    requires 0 <= j < 8 && 0 <= k < 8 && off.enableMask == off.enableForRun && !Has(off.enabled, j)
    requires Sandwiched(off, event.(disableForDispatch := true), j)
    ensures var on := LowSet(off, j, ConditionalEnable, access).0;
            && on == off.(enabled := on.enabled) && SameElsewhere(off, on, j, k)
            && (Sandwiched(on, event, j) <==> access || !Wanted(off, event, j) || event.disableForDispatch)
  {
    LowSetBits(off, j, ConditionalEnable, access, k);
    LowSetBits(off, j, ConditionalEnable, access, j);
  }

  /**
   * How a dispatch ends when the accesses succeed: after a handler that asks for it, out of dispatch and enabled if it
   * is referenced and unmasked; in every other case in dispatch and disabled.
   */
  lemma DispatchEnds(reg: Register, event: Event, j: int, reenable: bool)
    requires 0 <= j < 8 && reg.enableMask == reg.enableForRun && Sandwiched(reg, event, j)
    ensures var out := DispatchEvent(reg, event, j, Accesses(true, true, true), reenable);
            var finished := event.DispatchType() == DISPATCH_HANDLER && reenable;
            && out.status == Ok && out.event == event.(disableForDispatch := !finished)
            && out.reg == reg.(enabled := out.reg.enabled)
            && (Has(out.reg.enabled, j) <==> finished && event.runtimeCount > 0 && !Has(reg.maskForRun, j))
  {
    LowSetBits(reg, j, Disable, true, j);
    var off := LowSet(reg, j, Disable, true).0;
    LowSetBits(off, j, ConditionalEnable, true, j);
  }

  /**
   * When the event cannot be disabled, or an edge-triggered one not cleared, it is not handled and nothing about it
   * changes; a level-triggered one that cannot be cleared stays in dispatch, whatever its handler answers.
   */
  lemma DispatchFails(reg: Register, event: Event, j: int, hw: Accesses, reenable: bool)
    requires 0 <= j < 8 && reg.enableMask == reg.enableForRun && Sandwiched(reg, event, j)
    ensures var out := DispatchEvent(reg, event, j, hw, reenable);
            && (out.status == Ok <==> hw.disables && (event.flags & 0x08 != 0 || hw.clears))
            && (out.status != Ok ==> out.event == event)
            && (!hw.disables ==> out.reg == reg)
            && (out.status == Ok && !hw.clears ==> out.event.disableForDispatch && !Has(out.reg.enabled, j))
  {
    LowSetBits(reg, j, Disable, true, j);
  }

  lemma InstallKeeps(reg: Register, event: Event, j: int, address: int, context: int, kind: bv8, raw: bool, k: int)
    requires 0 <= j < 8 && 0 <= k < 8 && event.Consistent()
    requires reg.enableMask == reg.enableForRun && Sandwiched(reg, event, j)
    ensures Keeps(reg, InstallHandler(reg, event, j, address, context, kind, raw), j, k)
  {
    RemoveReferenceKeeps(reg, event, j, true, k);
  }

  lemma UninstallKeeps(reg: Register, event: Event, j: int, address: int, k: int)
    requires 0 <= j < 8 && 0 <= k < 8 && event.Consistent()
    requires reg.enableMask == reg.enableForRun && Sandwiched(reg, event, j)
    ensures Keeps(reg, RemoveHandler(reg, event, j, address), j, k)
  {
    if event.HasHandler() {
      var handler := event.target.handler;
      var flags := WithTypeBits(event.flags, handler.originalFlags);
      AddReferenceKeeps(reg, event.(flags := flags, target := Node(handler.node)), j, true, k);
    }
  }

  lemma StepKeeps(reg: Register, event: Event, op: Op, k: int)
    requires 0 <= op.j < 8 && 0 <= k < 8 && event.Consistent()
    requires reg.enableMask == reg.enableForRun && Sandwiched(reg, event, op.j)
    ensures Keeps(reg, StepAt(reg, event, op), op.j, k)
  {
    match op
    case Add(j) => AddReferenceKeeps(reg, event, j, true, k);
    case Remove(j) => RemoveReferenceKeeps(reg, event, j, true, k);
    case Mask(j, masked) =>
      MaskOnKeeps(reg, event, j, true, k);
      MaskOffKeeps(reg, event, j, true, k);
    case Dispatch(j, clears, reenable) => DispatchKeeps(reg, event, j, Accesses(true, clears, true), reenable, k);
    case Finish(j, clears) => FinishKeeps(reg, event, j, clears, true, k);
    case Install(j, address, context, kind, raw) => InstallKeeps(reg, event, j, address, context, kind, raw, k);
    case Uninstall(j, address) => UninstallKeeps(reg, event, j, address, k);
  }

  lemma StepKeepsGood(bank: Bank, op: Op)
    requires Good(bank) && 0 <= op.j < 8
    ensures Good(Step(bank, op))
  {
    var after := Step(bank, op);
    forall k | 0 <= k < 8
      ensures Sandwiched(after.reg, after.events[k], k) && after.reg.enableMask == after.reg.enableForRun
    {
      assert Sandwiched(bank.reg, bank.events[k], k) && Sandwiched(bank.reg, bank.events[op.j], op.j);
      assert bank.events[op.j] in bank.events;
      StepKeeps(bank.reg, bank.events[op.j], op, k);
    }
    assert Sandwiched(after.reg, after.events[0], 0);
  }

  /** The enable sandwich holds after any sequence of operations on the eight events. */
  lemma {:induction false} RunKeepsGood(bank: Bank, ops: seq<Op>)
    requires Good(bank) && forall op :: op in ops ==> 0 <= op.j < 8
    ensures Good(Run(bank, ops))
    decreases |ops|
  {
    if ops == [] {
    } else {
      assert ops[0] in ops;
      StepKeepsGood(bank, ops[0]);
      RunKeepsGood(Step(bank, ops[0]), ops[1..]);
    }
  }

  /** What adding and removing references does to a count, kept between 0 and 255. */
  function Saturated(count: nat, ops: seq<Op>, j: int): nat
    decreases |ops|
  {
    if ops == [] then count
    else
      var next := if ops[0] == Add(j) && count < 255 then count + 1
                  else if ops[0] == Remove(j) && count > 0 then count - 1
                  else count;
      Saturated(next, ops[1..], j)
  }

  predicate Handles(op: Op) {
    op.Install? || op.Uninstall?
  }

  /** Over any run the count of an event follows its references, and nothing else but a handler change moves it. */
  lemma {:induction false} RunCounts(bank: Bank, ops: seq<Op>, j: int)
    requires Good(bank) && 0 <= j < 8
    requires forall op :: op in ops ==> 0 <= op.j < 8 && (op.j == j ==> !Handles(op))
    ensures Run(bank, ops).events[j].runtimeCount == Saturated(bank.events[j].runtimeCount, ops, j)
    decreases |ops|
  {
    if ops == [] {
    } else {
      assert ops[0] in ops;
      StepKeepsGood(bank, ops[0]);
      StepCounts(bank, ops[0], j);
      RunCounts(Step(bank, ops[0]), ops[1..], j);
    }
  }

  lemma StepCounts(bank: Bank, op: Op, j: int)
    requires Proper(bank) && 0 <= j < 8 && 0 <= op.j < 8 && (op.j == j ==> !Handles(op))
    ensures var count := bank.events[j].runtimeCount;
            Step(bank, op).events[j].runtimeCount
            == if op == Add(j) && count < 255 then count + 1
               else if op == Remove(j) && count > 0 then count - 1
               else count
  {
    assert bank.events[j] in bank.events;
  }

  /** When nothing is being dispatched the hardware register is exactly the run mask without the masked events. */
  lemma QuietHardware(bank: Bank)
    requires Good(bank) && forall k :: 0 <= k < 8 ==> !bank.events[k].disableForDispatch
    ensures bank.reg.enabled == bank.reg.enableForRun & !bank.reg.maskForRun
  {
    var wanted := bank.reg.enableForRun & !bank.reg.maskForRun;
    forall k | 0 <= k < 8
      ensures Has(bank.reg.enabled, k) == Has(wanted, k)
    {
      assert Sandwiched(bank.reg, bank.events[k], k);
      AndNot(bank.reg.enableForRun, bank.reg.maskForRun, k);
    }
    SameBits(bank.reg.enabled, wanted);
  }

  lemma AndNot(a: bv8, b: bv8, k: int)
    requires 0 <= k < 8
    ensures Has(a & !b, k) <==> Has(a, k) && !Has(b, k)
  {
  }

  // ----- Handler round trip

  /** Event `j` itself is only dispatched, finished and masked; the others may be operated on at will. */
  predicate Between(op: Op, j: int) {
    op.j == j ==> op.Mask? || op.Dispatch? || op.Finish?
  }

  lemma OwnStep(reg: Register, event: Event, op: Op, j: int)
    requires 0 <= j < 8 && Between(op, j) && op.j == j && event.Consistent()
    ensures var out := StepAt(reg, event, op);
            && out.reg.enableForRun == reg.enableForRun
            && out.event == event.(disableForDispatch := out.event.disableForDispatch)
  {
  }

  /** What is done in between touches neither the references of event `j` nor its handler. */
  lemma {:induction false} RunAround(bank: Bank, ops: seq<Op>, j: int)
    requires Good(bank) && 0 <= j < 8 && forall op :: op in ops ==> 0 <= op.j < 8 && Between(op, j)
    ensures Good(Run(bank, ops))
    ensures Run(bank, ops).events[j]
            == bank.events[j].(disableForDispatch := Run(bank, ops).events[j].disableForDispatch)
    ensures Has(Run(bank, ops).reg.enableForRun, j) == Has(bank.reg.enableForRun, j)
    ensures (forall op :: op in ops ==> op.j != j) ==>
              && Run(bank, ops).events[j] == bank.events[j]
              && Has(Run(bank, ops).reg.maskForRun, j) == Has(bank.reg.maskForRun, j)
    decreases |ops|
  {
    if ops == [] {
    } else {
      var op := ops[0];
      assert op in ops;
      StepKeepsGood(bank, op);
      assert Sandwiched(bank.reg, bank.events[op.j], op.j) && bank.events[op.j] in bank.events;
      StepKeeps(bank.reg, bank.events[op.j], op, j);
      if op.j == j {
        OwnStep(bank.reg, bank.events[j], op, j);
      }
      RunAround(Step(bank, op), ops[1..], j);
    }
  }

  lemma FlagsRestored(flags: bv8, kind: bv8, dispatch: bv8)
    requires kind & !XRUPT_TYPE_MASK == 0 && dispatch & !DISPATCH_MASK == 0
    ensures var installed := WithTypeBits(flags, kind | dispatch);
            && installed & DISPATCH_MASK == dispatch && installed & XRUPT_TYPE_MASK == kind
            && WithTypeBits(installed, TypeBits(flags)) == flags
            && TypeBits(flags) & DISPATCH_MASK == flags & DISPATCH_MASK
  {
  }

  /**
   * Installing a handler on a handler-free event and removing it later restores the event and its run bit, whatever
   * happened to the other seven events of the register in between, and however often the event itself was dispatched,
   * finished or masked. Only these decide whether it is in dispatch or masked at the end.
   */
  lemma HandlerRoundTrip(bank: Bank, j: int, address: int, context: int, kind: bv8, raw: bool, ops: seq<Op>)
    requires Good(bank) && 0 <= j < 8 && !bank.events[j].HasHandler()
    requires address != 0 && kind & !XRUPT_TYPE_MASK == 0
    requires forall op :: op in ops ==> 0 <= op.j < 8 && Between(op, j)
    ensures var installed := Step(bank, Install(j, address, context, kind, raw));
            var between := Run(installed, ops);
            var removed := Step(between, Uninstall(j, address));
            var event := bank.events[j];
            && installed.events[j].DispatchType() == (if raw then DISPATCH_RAW_HANDLER else DISPATCH_HANDLER)
            && installed.events[j].flags & XRUPT_TYPE_MASK == kind
            && removed.events[j] == event.(disableForDispatch := between.events[j].disableForDispatch)
            && Has(removed.reg.enableForRun, j) == Has(bank.reg.enableForRun, j)
            && Has(removed.reg.maskForRun, j) == Has(between.reg.maskForRun, j)
            && (!removed.events[j].disableForDispatch ==>
                  Has(removed.reg.enabled, j) == (event.runtimeCount > 0 && !Has(removed.reg.maskForRun, j)))
            && ((forall op :: op in ops ==> op.j != j) ==>
                  removed.events[j] == event && Has(removed.reg.maskForRun, j) == Has(bank.reg.maskForRun, j))
  {
    var install := Install(j, address, context, kind, raw);
    var installed := Step(bank, install);
    assert bank.events[j] in bank.events && Sandwiched(bank.reg, bank.events[j], j);
    StepKeepsGood(bank, install);
    RunAround(installed, ops, j);
    var between := Run(installed, ops);
    StepKeepsGood(between, Uninstall(j, address));
    InstalledEvent(bank.reg, bank.events[j], j, address, context, kind, raw);
    RoundTripEvent(bank.reg, bank.events[j], between.reg, j, address, context, kind, raw,
                   between.events[j].disableForDispatch);
    var removed := Step(between, Uninstall(j, address));
    assert Sandwiched(removed.reg, removed.events[j], j);
  }

  /**
   * A handler is removed only by its own address, and no second one is installed over it; refusals change nothing.
   */
  lemma HandlerIsExclusive(reg: Register, event: Event, j: int, address: int, context: int, kind: bv8, raw: bool)
    requires 0 <= j < 8 && event.Consistent()
    ensures var removed := RemoveHandler(reg, event, j, address);
            var installed := InstallHandler(reg, event, j, address, context, kind, raw);
            && (removed.status == Ok
                <==> address != 0 && event.target.Handler? && event.target.handler.address == address)
            && (removed.status != Ok ==> removed == Outcome(reg, event, removed.status))
            && (installed.status == Ok <==> address != 0 && kind & !XRUPT_TYPE_MASK == 0 && event.target.Node?)
            && (installed.status != Ok ==> installed == Outcome(reg, event, installed.status))
            && (installed.status == Ok ==>
                  installed.event.target.Handler? && installed.event.target.handler.address == address)
  {
  }

  lemma InstalledEvent(reg: Register, event: Event, j: int, address: int, context: int, kind: bv8, raw: bool)
    requires 0 <= j < 8 && event.Consistent() && !event.HasHandler()
    requires address != 0 && kind & !XRUPT_TYPE_MASK == 0
    ensures var installed := InstallHandler(reg, event, j, address, context, kind, raw);
            var dropped := event.DispatchType() in {DISPATCH_METHOD, DISPATCH_NOTIFY} && event.runtimeCount > 0;
            && installed.event.DispatchType() == (if raw then DISPATCH_RAW_HANDLER else DISPATCH_HANDLER)
            && installed.event.flags & XRUPT_TYPE_MASK == kind
            && installed.reg.maskForRun == reg.maskForRun
            && installed.event.disableForDispatch == event.disableForDispatch
            && installed.event.target
               == Handler(HandlerInfo(address, context, event.target.node, TypeBits(event.flags), dropped))
            && installed.event.runtimeCount == (if dropped then event.runtimeCount - 1 else event.runtimeCount)
            && WithTypeBits(installed.event.flags, TypeBits(event.flags)) == event.flags
            && (RunsMethod(TypeBits(event.flags)) <==> event.DispatchType() in {DISPATCH_METHOD, DISPATCH_NOTIFY})
  {
    FlagsRestored(event.flags, kind, if raw then DISPATCH_RAW_HANDLER else DISPATCH_HANDLER);
  }

  /**
   * The event alone: the second operation undoes the first whatever the register then holds, and whether the event is
   * then in dispatch or not. In between it has one reference less if a method or notification was enabled.
   */
  lemma RoundTripEvent(reg: Register, event: Event, later: Register, j: int, address: int, context: int, kind: bv8,
                       raw: bool, busy: bool)
    requires 0 <= j < 8 && event.Consistent() && !event.HasHandler()
    requires address != 0 && kind & !XRUPT_TYPE_MASK == 0
    ensures var installed := InstallHandler(reg, event, j, address, context, kind, raw);
            var removed := RemoveHandler(later, installed.event.(disableForDispatch := busy), j, address);
            removed.event == event.(disableForDispatch := busy) && removed.reg.maskForRun == later.maskForRun
  {
    InstalledEvent(reg, event, j, address, context, kind, raw);
    var installed := InstallHandler(reg, event, j, address, context, kind, raw).event;
    assert installed.HasHandler();
  }

  // ----- The objects of the source

  class RegisterInfo {
    const baseGpeNumber: uint16
    var enableForRun: bv8
    var enableMask: bv8
    var maskForRun: bv8
    var enableRegister: bv8  // the hardware register

    constructor (baseGpeNumber: uint16)
      ensures View() == Register(0, 0, 0, 0) && this.baseGpeNumber == baseGpeNumber
    {
      this.baseGpeNumber := baseGpeNumber;
      enableForRun, enableMask, maskForRun, enableRegister := 0, 0, 0, 0;
    }

    function View(): Register
      reads this
    {
      Register(enableForRun, enableMask, maskForRun, enableRegister)
    }
  }

  class EventInfo {
    const registerInfo: RegisterInfo
    const gpeNumber: uint8
    var runtimeCount: uint8
    var disableForDispatch: bool
    var flags: bv8
    var dispatch: Target

    constructor (register: RegisterInfo, gpeNumber: uint8)
      ensures registerInfo == register && this.gpeNumber == gpeNumber
      ensures View() == Event(0, false, DISPATCH_NONE, Node(0))
    {
      registerInfo, this.gpeNumber := register, gpeNumber;
      runtimeCount, disableForDispatch, flags, dispatch := 0, false, DISPATCH_NONE, Node(0);
    }

    /** The bit of the register that the hardware layer computes for this event. */
    function Index(): int {
      gpeNumber - registerInfo.baseGpeNumber
    }

    function View(): Event
      reads this
    {
      Event(runtimeCount, disableForDispatch, flags, dispatch)
    }

    method HwLowSetGpe(action: Action, access: bool) returns (status: Status)
      requires 0 <= Index() < 8
      modifies registerInfo`enableRegister
      ensures (registerInfo.View(), status) == LowSet(old(registerInfo.View()), Index(), action, access)
    {
      if !access {
        return HardwareError;
      }
      var mask := registerInfo.enableRegister;
      match action {
        case ConditionalEnable =>
          if !Has(registerInfo.enableMask, Index()) {
            return BadParameter;
          }
          mask := SetBit(mask, Index());
        case Enable =>
          mask := SetBit(mask, Index());
        case Disable =>
          mask := ClearBit(mask, Index());
      }
      if !Has(registerInfo.maskForRun, Index()) {
        registerInfo.enableRegister := mask;
      }
      return Ok;
    }

    method UpdateGpeEnableMask()
      requires 0 <= Index() < 8
      modifies registerInfo`enableForRun, registerInfo`enableMask
      ensures registerInfo.View() == UpdateEnableMask(old(registerInfo.View()), View(), Index())
    {
      registerInfo.enableForRun := ClearBit(registerInfo.enableForRun, Index());
      if runtimeCount > 0 {
        registerInfo.enableForRun := SetBit(registerInfo.enableForRun, Index());
      }
      registerInfo.enableMask := registerInfo.enableForRun;
    }

    method AddGpeReference(access: bool) returns (status: Status)
      requires 0 <= Index() < 8
      modifies this, registerInfo
      ensures Outcome(registerInfo.View(), View(), status)
              == AddReference(old(registerInfo.View()), old(View()), Index(), access)
    {
      if runtimeCount == UINT8_MAX {
        return Limit;
      }
      status := Ok;
      runtimeCount := runtimeCount + 1;
      if runtimeCount == 1 {
        UpdateGpeEnableMask();
        status := HwLowSetGpe(Enable, access);
        if status != Ok {
          runtimeCount := runtimeCount - 1;
        }
      }
    }

    method RemoveGpeReference(access: bool) returns (status: Status)
      requires 0 <= Index() < 8
      modifies this, registerInfo
      ensures Outcome(registerInfo.View(), View(), status)
              == RemoveReference(old(registerInfo.View()), old(View()), Index(), access)
    {
      if runtimeCount == 0 {
        return Limit;
      }
      status := Ok;
      runtimeCount := runtimeCount - 1;
      if runtimeCount == 0 {
        UpdateGpeEnableMask();
        status := HwLowSetGpe(Disable, access);
        if status != Ok {
          runtimeCount := runtimeCount + 1;
        }
      }
    }

    method MaskGpe(masked: bool, access: bool) returns (status: Status)
      requires 0 <= Index() < 8
      modifies registerInfo
      ensures Outcome(registerInfo.View(), View(), status)
              == MaskEvent(old(registerInfo.View()), View(), Index(), masked, access)
    {
      if masked {
        if Has(registerInfo.maskForRun, Index()) {
          return BadParameter;
        }
        var _ := HwLowSetGpe(Disable, access);
        registerInfo.maskForRun := SetBit(registerInfo.maskForRun, Index());
      } else {
        if !Has(registerInfo.maskForRun, Index()) {
          return BadParameter;
        }
        registerInfo.maskForRun := ClearBit(registerInfo.maskForRun, Index());
        if runtimeCount > 0 && !disableForDispatch {
          var _ := HwLowSetGpe(Enable, access);
        }
      }
      return Ok;
    }

    method FinishGpe(clears: bool, access: bool) returns (status: Status)
      requires 0 <= Index() < 8
      modifies this, registerInfo
      ensures Outcome(registerInfo.View(), View(), status)
              == FinishEvent(old(registerInfo.View()), old(View()), Index(), clears, access)
    {
      if flags & XRUPT_TYPE_MASK == LEVEL_TRIGGERED && !clears {
        return HardwareError;
      }
      var _ := HwLowSetGpe(ConditionalEnable, access);
      disableForDispatch := false;
      return Ok;
    }

    method GpeDispatch(hw: Accesses, reenable: bool) returns (status: Status)
      requires 0 <= Index() < 8
      modifies this, registerInfo
      ensures Outcome(registerInfo.View(), View(), status)
              == DispatchEvent(old(registerInfo.View()), old(View()), Index(), hw, reenable)
    {
      status := HwLowSetGpe(Disable, hw.disables);
      if status != Ok {
        return;
      }
      if flags & XRUPT_TYPE_MASK != LEVEL_TRIGGERED && !hw.clears {
        var _ := HwLowSetGpe(ConditionalEnable, hw.enables);
        return HardwareError;
      }
      disableForDispatch := true;
      if flags & DISPATCH_MASK == DISPATCH_HANDLER && reenable {
        var _ := FinishGpe(hw.clears, hw.enables);
      }
      return Ok;
    }

    method InstallGpeHandler(kind: bv8, raw: bool, address: int, context: int) returns (status: Status)
      requires 0 <= Index() < 8 && View().Consistent()
      modifies this, registerInfo
      ensures Outcome(registerInfo.View(), View(), status)
              == InstallHandler(old(registerInfo.View()), old(View()), Index(), address, context, kind, raw)
    {
      if address == 0 || kind & !XRUPT_TYPE_MASK != 0 {
        return BadParameter;
      }
      if flags & DISPATCH_MASK == DISPATCH_HANDLER || flags & DISPATCH_MASK == DISPATCH_RAW_HANDLER {
        return AlreadyExists;
      }
      var handler := HandlerInfo(address, context, dispatch.node, TypeBits(flags), false);
      if RunsMethod(handler.originalFlags) && runtimeCount > 0 {
        handler := handler.(originallyEnabled := true);
        var _ := RemoveGpeReference(true);
      }
      dispatch := Handler(handler);
      flags := WithTypeBits(flags, kind | if raw then DISPATCH_RAW_HANDLER else DISPATCH_HANDLER);
      return Ok;
    }

    method RemoveGpeHandler(address: int) returns (status: Status)
      requires 0 <= Index() < 8 && View().Consistent()
      modifies this, registerInfo
      ensures Outcome(registerInfo.View(), View(), status)
              == RemoveHandler(old(registerInfo.View()), old(View()), Index(), address)
    {
      if address == 0 {
        return BadParameter;
      }
      if flags & DISPATCH_MASK != DISPATCH_HANDLER && flags & DISPATCH_MASK != DISPATCH_RAW_HANDLER {
        return NotExist;
      }
      if dispatch.handler.address != address {
        return BadParameter;
      }
      var handler := dispatch.handler;
      dispatch := Node(handler.node);
      flags := WithTypeBits(flags, handler.originalFlags);
      if RunsMethod(handler.originalFlags) && handler.originallyEnabled {
        var _ := AddGpeReference(true);
      }
      return Ok;
    }
  }

  /** Eight event objects with one register object: any operation acts on the whole as Step says. */
  class GpeRegisterBlock {
    const register: RegisterInfo
    const events: seq<EventInfo>

    /**
     * A zeroed register with its eight zeroed events, numbered as the table of a block that ends below 256 has them.
     */
    constructor (baseGpeNumber: uint16)
      requires baseGpeNumber + 8 <= TWO8
      ensures Valid() && Good(View())
    {
      var r := new RegisterInfo(baseGpeNumber);
      var es: seq<EventInfo> := [];
      for i := 0 to 8
        invariant fresh(r) && r.View() == Register(0, 0, 0, 0) && r.baseGpeNumber == baseGpeNumber && |es| == i
        invariant forall k :: 0 <= k < i ==> fresh(es[k]) && es[k].registerInfo == r && es[k].Index() == k
        invariant forall k :: 0 <= k < i ==> es[k].View() == Event(0, false, DISPATCH_NONE, Node(0))
      {
        var e := new EventInfo(r, (baseGpeNumber + i) % TWO8);
        es := es + [e];
      }
      register := r;
      events := es;
    }

    ghost predicate Valid() {
      && |events| == 8
      && (forall k :: 0 <= k < 8 ==> events[k].registerInfo == register && events[k].Index() == k)
    }

    function View(): Bank
      reads register, events
    {
      Bank(register.View(), seq(|events|, k requires 0 <= k < |events| reads events => events[k].View()))
    }

    method Perform(op: Op)
      requires Valid() && 0 <= op.j < 8 && Proper(View())
      modifies register, events[op.j]
      ensures Valid() && View() == Step(old(View()), op)
    {
      var event := events[op.j];
      assert View().events[op.j] == event.View() && event.View() in View().events;
      match op {
        case Add(_) => var _ := event.AddGpeReference(true);
        case Remove(_) => var _ := event.RemoveGpeReference(true);
        case Mask(_, masked) => var _ := event.MaskGpe(masked, true);
        case Dispatch(_, clears, reenable) => var _ := event.GpeDispatch(Accesses(true, clears, true), reenable);
        case Finish(_, clears) => var _ := event.FinishGpe(clears, true);
        case Install(_, address, context, kind, raw) => var _ := event.InstallGpeHandler(kind, raw, address, context);
        case Uninstall(_, address) => var _ := event.RemoveGpeHandler(address);
      }
      assert forall k :: 0 <= k < 8 && k != op.j ==> events[k].Index() != op.j;
    }
  }
}
