/**
 * Handlers for device notifications (dep/acpica/events/evxface.c): one handler object may be on the system list, on the
 * device list, or on both, and is freed when it has left the last of them.
 */
module NotifyHandlers {
  import opened Sequences

  datatype Status = Ok | BadParameter | AlreadyExists | NotExist | WrongType

  const NUM_NOTIFY_TYPES := 2
  const ALL_NOTIFY := 3

  /** `HandlerType & (i + 1)` for the types 1, 2 and 3. */
  predicate Wants(kind: int, i: int) {
    kind == i + 1 || kind == ALL_NOTIFY
  }

  predicate ProperKind(kind: int) {
    1 <= kind <= ALL_NOTIFY
  }

  class NotifyObj {
    const handlerType: int
    const handler: int
    const context: int
    var next: seq<NotifyObj?>  // one link for each list
    var references: nat

    constructor (handlerType: int, handler: int, context: int)
      ensures this.handlerType == handlerType && this.handler == handler && this.context == context
      ensures next == [null, null] && references == 1
    {
      this.handlerType, this.handler, this.context := handlerType, handler, context;
      next, references := [null, null], 1;
    }
  }

  function At(list: seq<NotifyObj>, k: int): NotifyObj? {
    if 0 <= k < |list| then list[k] else null
  }

  /** The position of the first object with the handler; the length of the list if there is none. */
  function Find(list: seq<NotifyObj>, handler: int): (k: nat)
    ensures k <= |list|
    ensures k < |list| ==> list[k].handler == handler
    ensures forall j :: 0 <= j < k ==> list[j].handler != handler
  {
    if list == [] || list[0].handler == handler then 0 else 1 + Find(list[1..], handler)
  }

  predicate Installed(list: seq<NotifyObj>, handler: int) {
    Find(list, handler) < |list|
  }

  function WithoutHandler(list: seq<NotifyObj>, handler: int): seq<NotifyObj> {
    var k := Find(list, handler);
    if k < |list| then Without(list, k) else list
  }

  /** No handler is on a list twice. */
  ghost predicate DistinctHandlers(list: seq<NotifyObj>) {
    forall j, k :: 0 <= j < k < |list| ==> list[j].handler != list[k].handler
  }

  function Membership(o: NotifyObj, system: seq<NotifyObj>, device: seq<NotifyObj>): nat {
    (if o in system then 1 else 0) + (if o in device then 1 else 0)
  }

  ghost predicate LinkAt(list: seq<NotifyObj>, i: int, k: int)
    reads list`next
  {
    0 <= i < NUM_NOTIFY_TYPES && 0 <= k < |list| ==>
      |list[k].next| == NUM_NOTIFY_TYPES && list[k].next[i] == At(list, k + 1)
  }

  ghost predicate Linked(list: seq<NotifyObj>, head: NotifyObj?, i: int)
    reads list`next
  {
    head == At(list, 0) && DistinctHandlers(list) && forall k :: LinkAt(list, i, k)
  }

  /** An object that may receive notifications, with its two handler lists. */
  class Device {
    const notifiable: bool      // its type is one of those that take notifications
    var heads: seq<NotifyObj?>  // NotifyList
    ghost var system: seq<NotifyObj>
    ghost var device: seq<NotifyObj>

    ghost function List(i: int): seq<NotifyObj>
      reads this
    {
      if i == 0 then system else device
    }

    ghost predicate BothLinked()
      reads this, system`next, device`next
    {
      |heads| == NUM_NOTIFY_TYPES && Linked(system, heads[0], 0) && Linked(device, heads[1], 1)
    }

    /** The reference count of every handler object is the number of lists it is on. */
    ghost predicate Valid()
      reads this, system, device
    {
      && BothLinked()
      && (forall o :: o in system ==> o.references == Membership(o, system, device))
      && (forall o :: o in device ==> o.references == Membership(o, system, device))
    }

    constructor (notifiable: bool)
      ensures Valid() && this.notifiable == notifiable && system == [] && device == []
    {
      this.notifiable := notifiable;
      heads, system, device := [null, null], [], [];
    }

    /** The search for a handler in list `i`: the object found and the one before it. */
    method Search(i: int, handler: int, ghost list: seq<NotifyObj>) returns (previous: NotifyObj?, found: NotifyObj?)
      requires 0 <= i < NUM_NOTIFY_TYPES && |heads| == NUM_NOTIFY_TYPES && Linked(list, heads[i], i)
      ensures found == At(list, Find(list, handler))
      ensures previous == At(list, Find(list, handler) - 1)
    {
      previous, found := null, heads[i];
      ghost var k := 0;
      while found != null && found.handler != handler
        invariant 0 <= k <= |list| && found == At(list, k) && previous == At(list, k - 1)
        invariant forall j :: 0 <= j < k ==> list[j].handler != handler
        decreases |list| - k
      {
        assert LinkAt(list, i, k);
        previous := found;
        found := found.next[i];
        k := k + 1;
      }
    }

    /** Installs a new handler object at the head of the list or lists that `kind` names. */
    method Install(kind: int, handler: int, context: int) returns (status: Status, ghost created: NotifyObj?)
      requires Valid()
      modifies this
      ensures Valid()
      ensures status == if !ProperKind(kind) || handler == 0 then BadParameter
                        else if !notifiable then WrongType
                        else if (Wants(kind, 0) && Installed(old(system), handler))
                          || (Wants(kind, 1) && Installed(old(device), handler))
                        then AlreadyExists else Ok
      ensures status != Ok ==> system == old(system) && device == old(device)
      ensures status == Ok ==>
                && created != null && fresh(created)
                && created.handlerType == kind && created.handler == handler && created.context == context
                && system == (if Wants(kind, 0) then [created] else []) + old(system)
                && device == (if Wants(kind, 1) then [created] else []) + old(device)
      ensures status == Ok ==>
                && |system| == |old(system)| + (if kind == 2 then 0 else 1)
                && |device| == |old(device)| + (if kind == 1 then 0 else 1)
    {
      created := null;
      if handler == 0 || kind <= 0 || kind > ALL_NOTIFY {
        return BadParameter, null;
      }
      if !notifiable {
        return WrongType, null;
      }
      var present := Present(kind, handler);
      if present {
        return AlreadyExists, null;
      }
      var obj := new NotifyObj(kind, handler, context);
      forall k
        ensures LinkAt(system, 0, k) && LinkAt(device, 1, k)
      {
        assert old(LinkAt(system, 0, k)) && old(LinkAt(device, 1, k));
      }
      Push(kind, obj);
      if kind == ALL_NOTIFY {
        obj.references := obj.references + 1;
        assert BothLinked();
      }
      return Ok, obj;
    }

    /** Whether the handler is already on a list that `kind` names. */
    method Present(kind: int, handler: int) returns (present: bool)
      requires BothLinked()
      ensures present <==> ((Wants(kind, 0) && Installed(system, handler))
                            || (Wants(kind, 1) && Installed(device, handler)))
    {
      for i := 0 to NUM_NOTIFY_TYPES
        invariant forall j :: 0 <= j < i && Wants(kind, j) ==> !Installed(List(j), handler)
      {
        if Wants(kind, i) {
          var _, found := Search(i, handler, List(i));
          if found != null {
            return true;
          }
        }
      }
      assert Wants(kind, 0) ==> !Installed(List(0), handler);
      assert Wants(kind, 1) ==> !Installed(List(1), handler);
      return false;
    }

    method Push(kind: int, obj: NotifyObj)
      requires BothLinked() && |obj.next| == NUM_NOTIFY_TYPES && obj !in system && obj !in device
      requires (Wants(kind, 0) ==> !Installed(system, obj.handler))
      requires (Wants(kind, 1) ==> !Installed(device, obj.handler))
      modifies `heads, `system, `device, obj`next
      ensures BothLinked()
      ensures system == (if Wants(kind, 0) then [obj] else []) + old(system)
      ensures device == (if Wants(kind, 1) then [obj] else []) + old(device)
    {
      if Wants(kind, 0) {
        PushSystem(obj);
      }
      if Wants(kind, 1) {
        PushDevice(obj);
      }
    }

    method PushSystem(obj: NotifyObj)
      requires BothLinked() && |obj.next| == NUM_NOTIFY_TYPES && obj !in system && obj !in device
      requires !Installed(system, obj.handler)
      modifies `heads, `system, obj`next
      ensures BothLinked() && |obj.next| == NUM_NOTIFY_TYPES && obj.next[1] == old(obj.next[1])
      ensures system == [obj] + old(system)
    {
      obj.next := obj.next[0 := heads[0]];
      heads := heads[0 := obj];
      system := [obj] + system;
      forall k
        ensures LinkAt(system, 0, k)
      {
        assert old(LinkAt(system, 0, k - 1));
      }
      forall k
        ensures LinkAt(device, 1, k)
      {
        assert old(LinkAt(device, 1, k));
      }
    }

    method PushDevice(obj: NotifyObj)
      requires BothLinked() && |obj.next| == NUM_NOTIFY_TYPES && obj !in device
      requires !Installed(device, obj.handler)
      modifies `heads, `device, obj`next
      ensures BothLinked() && device == [obj] + old(device)
    {
      obj.next := obj.next[1 := heads[1]];
      heads := heads[1 := obj];
      device := [obj] + device;
      forall k
        ensures LinkAt(device, 1, k)
      {
        assert old(LinkAt(device, 1, k - 1));
      }
      forall k
        ensures LinkAt(system, 0, k)
      {
        assert old(LinkAt(system, 0, k));
      }
    }

    /** Unlinks element `k` of the system list; `next` of its neighbour is all that changes in the objects. */
    method UnlinkSystem(previous: NotifyObj?, obj: NotifyObj, ghost k: nat)
      requires BothLinked() && k < |system| && obj == system[k] && previous == At(system, k - 1)
      modifies `heads, `system, system`next
      ensures BothLinked() && system == old(system)[..k] + old(system)[k + 1..]
    {
      assert LinkAt(system, 0, k) && LinkAt(system, 0, k - 1);
      if previous != null {
        previous.next := previous.next[0 := obj.next[0]];
      } else {
        heads := heads[0 := obj.next[0]];
      }
      system := system[..k] + system[k + 1..];
      forall j
        ensures LinkAt(system, 0, j)
      {
        assert old(LinkAt(system, 0, if j < k then j else j + 1));
      }
      forall j
        ensures LinkAt(device, 1, j)
      {
        assert old(LinkAt(device, 1, j));
      }
    }

    method UnlinkDevice(previous: NotifyObj?, obj: NotifyObj, ghost k: nat)
      requires BothLinked() && k < |device| && obj == device[k] && previous == At(device, k - 1)
      modifies `heads, `device, device`next
      ensures BothLinked() && device == old(device)[..k] + old(device)[k + 1..]
    {
      assert LinkAt(device, 1, k) && LinkAt(device, 1, k - 1);
      if previous != null {
        previous.next := previous.next[1 := obj.next[1]];
      } else {
        heads := heads[1 := obj.next[1]];
      }
      device := device[..k] + device[k + 1..];
      forall j
        ensures LinkAt(device, 1, j)
      {
        assert old(LinkAt(device, 1, if j < k then j else j + 1));
      }
      forall j
        ensures LinkAt(system, 0, j)
      {
        assert old(LinkAt(system, 0, j));
      }
    }

    /** One turn of the removal loop: takes the handler off list `i` and drops the reference that the list held. */
    method RemoveFrom(i: int, handler: int) returns (removed: NotifyObj?)
      requires Valid() && 0 <= i < NUM_NOTIFY_TYPES
      modifies `heads, `system, `device, system, device
      ensures Valid()
      ensures removed == At(old(List(i)), Find(old(List(i)), handler))
      ensures system == (if i == 0 then WithoutHandler(old(system), handler) else old(system))
      ensures device == (if i == 1 then WithoutHandler(old(device), handler) else old(device))
      ensures forall o :: o in old(system) || o in old(device) ==> o.references == Membership(o, system, device)
    {
      var previous;
      previous, removed := Search(i, handler, List(i));
      if removed == null {
        return;
      }
      ghost var k := Find(List(i), handler);
      LeavesOnly(List(i), k);
      if i == 0 {
        UnlinkSystem(previous, removed, k);
      } else {
        UnlinkDevice(previous, removed, k);
      }
      DropReference(removed);
    }

    method DropReference(obj: NotifyObj)
      requires BothLinked() && obj.references == Membership(obj, system, device) + 1
      requires forall o :: o in system && o != obj ==> o.references == Membership(o, system, device)
      requires forall o :: o in device && o != obj ==> o.references == Membership(o, system, device)
      modifies obj`references
      ensures Valid() && obj.references == Membership(obj, system, device)
    {
      obj.references := obj.references - 1;
      assert BothLinked();
    }

    /** Takes the handler off the lists that `kind` names, giving up at the first on which it is not. */
    method Remove(kind: int, handler: int) returns (status: Status)
      requires Valid()
      modifies `heads, `system, `device, system, device
      ensures Valid()
      ensures status == if !ProperKind(kind) || handler == 0 then BadParameter
                        else if !notifiable then WrongType
                        else if (Wants(kind, 0) && !Installed(old(system), handler))
                          || (Wants(kind, 1) && !Installed(old(device), handler))
                        then NotExist else Ok
      ensures system == if (status == Ok || status == NotExist) && Wants(kind, 0)
                        then WithoutHandler(old(system), handler) else old(system)
      ensures device == if (status == Ok || status == NotExist) && Wants(kind, 1)
              && (Wants(kind, 0) ==> Installed(old(system), handler))
                        then WithoutHandler(old(device), handler) else old(device)
      ensures forall o :: o in old(system) || o in old(device) ==> o.references == Membership(o, system, device)
      ensures kind == 1 ==> device == old(device)
      ensures kind == 2 ==> system == old(system)
    {
      if handler == 0 || kind <= 0 || kind > ALL_NOTIFY {
        return BadParameter;
      }
      if !notifiable {
        return WrongType;
      }
      if Wants(kind, 0) {
        var removed := RemoveFrom(0, handler);
        if removed == null {
          return NotExist;
        }
      }
      if Wants(kind, 1) {
        var removed := RemoveFrom(1, handler);
        if removed == null {
          return NotExist;
        }
      }
      return Ok;
    }

    /** Installing a handler that was not there puts its object on the lists; removing it again frees the object. */
    method RoundTrip(kind: int, handler: int, context: int)
      returns (installed: Status, removed: Status, ghost created: NotifyObj?,
               ghost between: (seq<NotifyObj>, seq<NotifyObj>))
      requires Valid() && ProperKind(kind) && handler != 0 && notifiable
      requires (Wants(kind, 0) ==> !Installed(system, handler)) && (Wants(kind, 1) ==> !Installed(device, handler))
      modifies this, system, device
      ensures installed == Ok && removed == Ok && created != null && fresh(created) && created.handler == handler
      ensures between.0 == (if Wants(kind, 0) then [created] else []) + old(system)
      ensures between.1 == (if Wants(kind, 1) then [created] else []) + old(device)
      ensures Valid() && system == old(system) && device == old(device) && created.references == 0
    {
      installed, created := Install(kind, handler, context);
      between := (system, device);
      removed := Undo(kind, handler, created, old(system), old(device));
    }

    /** Removes the handler of an object that was put on top of both lists, or of one. */
    method Undo(kind: int, handler: int, ghost obj: NotifyObj, ghost s: seq<NotifyObj>, ghost d: seq<NotifyObj>)
      returns (status: Status)
      requires Valid() && ProperKind(kind) && notifiable && handler == obj.handler != 0 && obj !in s && obj !in d
      requires system == (if Wants(kind, 0) then [obj] else []) + s
      requires device == (if Wants(kind, 1) then [obj] else []) + d
      modifies `heads, `system, `device, system, device
      ensures Valid() && status == Ok && system == s && device == d && obj.references == 0
    {
      Undone(obj, s, Wants(kind, 0));
      Undone(obj, d, Wants(kind, 1));
      status := Remove(kind, handler);
    }
  }

  /** The handlers for all objects, one for each type of notification; zero where there is none. */
  class GlobalNotify {
    var handlers: seq<int>
    var contexts: seq<int>

    ghost predicate Valid()
      reads this
    {
      |handlers| == |contexts| == NUM_NOTIFY_TYPES
    }

    constructor ()
      ensures Valid() && handlers == [0, 0]
    {
      handlers, contexts := [0, 0], [0, 0];
    }

    /**
     * Refused at the first type that has a handler; one that was set before that stays. So a refusal changes something
     * exactly when both types are asked for and the first is free.
     */
    method Install(kind: int, handler: int, context: int) returns (status: Status)
      requires Valid()
      modifies this
      ensures Valid()
      ensures status == if !ProperKind(kind) || handler == 0 then BadParameter
                        else if (Wants(kind, 0) && old(handlers[0]) != 0) || (Wants(kind, 1) && old(handlers[1]) != 0)
                        then AlreadyExists else Ok
      ensures forall i :: 0 <= i < NUM_NOTIFY_TYPES ==>
                            var free := Wants(kind, i) && forall j :: 0 <= j <= i && Wants(kind, j) ==>
                              old(handlers)[j] == 0;
                            handlers[i] == (if status != BadParameter && free then handler else old(handlers[i]))
                            && contexts[i] == (if status != BadParameter && free then context else old(contexts[i]))
      ensures status == AlreadyExists ==>
                (handlers == old(handlers) <==> !(kind == ALL_NOTIFY && old(handlers[0]) == 0))
      ensures status == Ok ==>
                && handlers == [if kind == 2 then old(handlers[0]) else handler,
                                if kind == 1 then old(handlers[1]) else handler]
                && contexts == [if kind == 2 then old(contexts[0]) else context,
                                if kind == 1 then old(contexts[1]) else context]
    {
      if handler == 0 || kind <= 0 || kind > ALL_NOTIFY {
        return BadParameter;
      }
      for i := 0 to NUM_NOTIFY_TYPES
        invariant Valid() && forall j :: 0 <= j < i && Wants(kind, j) ==> old(handlers)[j] == 0
        invariant forall j :: 0 <= j < NUM_NOTIFY_TYPES ==>
                                handlers[j] == (if j < i && Wants(kind, j) then handler else old(handlers)[j])
                                && contexts[j] == (if j < i && Wants(kind, j) then context else old(contexts)[j])
      {
        if Wants(kind, i) {
          if handlers[i] != 0 {
            return AlreadyExists;
          }
          handlers := handlers[i := handler];
          contexts := contexts[i := context];
        }
      }
      return Ok;
    }

    /** Gives up at the first type that has another handler or none. */
    method Remove(kind: int, handler: int) returns (status: Status)
      requires Valid()
      modifies this
      ensures Valid()
      ensures status == if !ProperKind(kind) || handler == 0 then BadParameter
                        else if (Wants(kind, 0) && old(handlers[0]) != handler)
                          || (Wants(kind, 1) && old(handlers[1]) != handler)
                        then NotExist else Ok
      ensures forall i :: 0 <= i < NUM_NOTIFY_TYPES ==>
                            var mine := Wants(kind, i)
                                        && forall j :: 0 <= j <= i && Wants(kind, j) ==> old(handlers)[j] == handler;
                            handlers[i] == (if status != BadParameter && mine then 0 else old(handlers[i]))
                            && contexts[i] == (if status != BadParameter && mine then 0 else old(contexts[i]))
      ensures status == Ok ==>
                handlers == [if kind == 2 then old(handlers[0]) else 0, if kind == 1 then old(handlers[1]) else 0]
    {
      if handler == 0 || kind <= 0 || kind > ALL_NOTIFY {
        return BadParameter;
      }
      for i := 0 to NUM_NOTIFY_TYPES
        invariant Valid() && forall j :: 0 <= j < i && Wants(kind, j) ==> old(handlers)[j] == handler
        invariant forall j :: 0 <= j < NUM_NOTIFY_TYPES ==>
                                handlers[j] == (if j < i && Wants(kind, j) then 0 else old(handlers)[j])
                                && contexts[j] == (if j < i && Wants(kind, j) then 0 else old(contexts)[j])
      {
        if Wants(kind, i) {
          if handlers[i] != handler {
            return NotExist;
          }
          handlers := handlers[i := 0];
          contexts := contexts[i := 0];
        }
      }
      return Ok;
    }
  }

  // ----- The round trip among other changes

  datatype Change = Put(obj: NotifyObj) | Drop(handler: int)

  function Changed(list: seq<NotifyObj>, change: Change): seq<NotifyObj> {
    match change
    case Put(obj) => [obj] + list
    case Drop(handler) => WithoutHandler(list, handler)
  }

  /** A list after a sequence of installations and removals. */
  function After(list: seq<NotifyObj>, changes: seq<Change>): seq<NotifyObj>
    decreases |changes|
  {
    if changes == [] then list else After(Changed(list, changes[0]), changes[1..])
  }

  predicate About(change: Change, handler: int) {
    match change
    case Put(obj) => obj.handler == handler
    case Drop(h) => h == handler
  }

  lemma {:induction false} WithoutTail(o: NotifyObj, list: seq<NotifyObj>, handler: int)
    ensures WithoutHandler([o] + list, handler)
            == if o.handler == handler then list else [o] + WithoutHandler(list, handler)
  {
    var whole, k := [o] + list, Find(list, handler);
    assert whole[1..] == list;
    if o.handler == handler {
      assert Find(whole, handler) == 0 && whole[..0] == [];
    } else {
      assert Find(whole, handler) == k + 1;
      if k < |list| {
        assert whole[..k + 1] == [o] + list[..k] && whole[k + 2..] == list[k + 1..];
        assert [o] + (list[..k] + list[k + 1..]) == [o] + list[..k] + list[k + 1..];
      }
    }
  }

  lemma Undone(o: NotifyObj, list: seq<NotifyObj>, wanted: bool)
    ensures var l := (if wanted then [o] else []) + list;
            && (if wanted then WithoutHandler(l, o.handler) else l) == list
            && (wanted ==> Installed(l, o.handler) && o in l)
  {
    WithoutTail(o, list, o.handler);
    assert [] + list == list;
  }

  lemma {:induction false} RemovalsCommute(list: seq<NotifyObj>, g: int, h: int)
    ensures WithoutHandler(WithoutHandler(list, g), h) == WithoutHandler(WithoutHandler(list, h), g)
  {
    if list != [] {
      var o, rest := list[0], list[1..];
      assert list == [o] + rest;
      WithoutTail(o, rest, g);
      WithoutTail(o, rest, h);
      WithoutTail(o, WithoutHandler(rest, g), h);
      WithoutTail(o, WithoutHandler(rest, h), g);
      RemovalsCommute(rest, g, h);
    }
  }

  /** Removing a handler before or after changes that concern other handlers comes to the same. */
  lemma {:induction false} RemovalPasses(list: seq<NotifyObj>, changes: seq<Change>, handler: int)
    requires forall c :: c in changes ==> !About(c, handler)
    ensures WithoutHandler(After(list, changes), handler) == After(WithoutHandler(list, handler), changes)
    decreases |changes|
  {
    if changes != [] {
      assert !About(changes[0], handler);
      match changes[0] {
        case Put(obj) => WithoutTail(obj, list, handler);
        case Drop(g) => RemovalsCommute(list, g, handler);
      }
      RemovalPasses(Changed(list, changes[0]), changes[1..], handler);
    }
  }

  /** Installing a handler and removing it leaves a list as if neither had happened, whatever happens in between. */
  lemma RoundTripAmongOthers(list: seq<NotifyObj>, o: NotifyObj, changes: seq<Change>)
    requires forall c :: c in changes ==> !About(c, o.handler)
    requires !Installed(list, o.handler)
    ensures Installed(After(Changed(list, Put(o)), changes), o.handler)
    ensures Changed(After(Changed(list, Put(o)), changes), Drop(o.handler)) == After(list, changes)
  {
    RemovalPasses([o] + list, changes, o.handler);
    WithoutTail(o, list, o.handler);
    StaysInstalled([o] + list, changes, o.handler);
  }

  lemma {:induction false} StaysInstalled(list: seq<NotifyObj>, changes: seq<Change>, handler: int)
    requires forall c :: c in changes ==> !About(c, handler)
    requires Installed(list, handler)
    ensures Installed(After(list, changes), handler)
    decreases |changes|
  {
    if changes != [] {
      assert !About(changes[0], handler);
      match changes[0] {
        case Put(obj) => assert ([obj] + list)[1..] == list;
        case Drop(g) => OthersStay(list, g, handler);
      }
      StaysInstalled(Changed(list, changes[0]), changes[1..], handler);
    }
  }

  lemma {:induction false} OthersStay(list: seq<NotifyObj>, g: int, handler: int)
    requires g != handler && Installed(list, handler)
    ensures Installed(WithoutHandler(list, g), handler)
  {
    var o, rest := list[0], list[1..];
    assert list == [o] + rest;
    WithoutTail(o, rest, g);
    if o.handler != handler {
      assert Installed(rest, handler);
      if o.handler != g {
        OthersStay(rest, g, handler);
        assert ([o] + WithoutHandler(rest, g))[1..] == WithoutHandler(rest, g);
      }
    }
  }

  /** In a list without repeated handlers, an object that is taken out is no longer on the list. */
  lemma LeavesOnly(list: seq<NotifyObj>, k: nat)
    requires DistinctHandlers(list) && k < |list|
    ensures forall o :: o in list[..k] + list[k + 1..] <==> o in list && o != list[k]
  {
    var rest := list[..k] + list[k + 1..];
    forall o | o in list && o != list[k]
      ensures o in rest
    {
      var j :| 0 <= j < |list| && list[j] == o;
      assert rest[if j < k then j else j - 1] == o;
    }
  }
}
