/**
 * Address-space handlers and operation regions (dep/acpica/events/evhandler.c, evregion.c, evrgnini.c): the handler
 * cached in each region against the scoping rule.
 */
module AddressSpaces {
  import opened RegionLists
  import opened Scoping
  import opened Sequences
  import opened Wrappers

  datatype Status = Ok | BadParameter | SameHandler | AlreadyExists | NotPossible

  /** What the walk callback returns: go on below this node, or leave its subtree out (AE_CTRL_DEPTH). */
  datatype WalkStatus = GoOn | SkipBelow

  datatype Op =
    | Create(r: Region, n: Node, space: int)
    | Initialize(r: Region)
    | Install(n: Node, space: int, address: int, h: Handler)

  type Heads = map<Node, Option<Handler>>
  type Chains = map<Node, seq<Handler>>

  // ----- The handler list of a node

  ghost predicate ChainLink(handlers: Handlers, chain: seq<Handler>, n: Node, i: int) {
    0 <= i < |chain| ==>
      chain[i] in handlers && handlers[chain[i]].next == Nth(chain, i + 1) && handlers[chain[i]].node == n
  }

  ghost predicate ChainOk(handlers: Handlers, head: Option<Handler>, chain: seq<Handler>, n: Node) {
    && head == Nth(chain, 0)
    && (forall i :: ChainLink(handlers, chain, n, i))
  }

  ghost predicate ChainAt(handlers: Handlers, heads: Heads, chains: Chains, n: Node) {
    n in heads && n in chains ==> ChainOk(handlers, heads[n], chains[n], n)
  }

  ghost predicate Chained(handlers: Handlers, heads: Heads, chains: Chains) {
    chains.Keys == heads.Keys && forall n :: ChainAt(handlers, heads, chains, n)
  }

  /** The first handler of a chain for the address space. */
  function Lookup(handlers: Handlers, chain: seq<Handler>, space: int): (h: Option<Handler>)
    ensures h.Some? ==> h.value in chain && h.value in handlers && handlers[h.value].space == space
  {
    if chain == [] then None
    else if chain[0] in handlers && handlers[chain[0]].space == space then Some(chain[0])
    else Lookup(handlers, chain[1..], space)
  }

  function FoundFor(handlers: Handlers, chains: Chains, space: int): Found {
    map n | n in chains && Lookup(handlers, chains[n], space).Some? :: Lookup(handlers, chains[n], space).value
  }

  /** Handler objects that differ at most in their region lists. */
  ghost predicate SameHandlers(a: Handlers, b: Handlers) {
    a.Keys == b.Keys && forall h :: SameObject(a, b, h)
  }

  ghost predicate SameObject(a: Handlers, b: Handlers, h: Handler) {
    h in a && h in b ==>
      a[h].node == b[h].node && a[h].space == b[h].space && a[h].address == b[h].address && a[h].next == b[h].next
  }

  lemma {:induction false} LookupFrame(a: Handlers, b: Handlers, chain: seq<Handler>, space: int)
    requires forall h :: h in chain ==> (h in a <==> h in b) && (h in a ==> a[h].space == b[h].space)
    ensures Lookup(a, chain, space) == Lookup(b, chain, space)
  {
    if chain != [] {
      LookupFrame(a, b, chain[1..], space);
    }
  }

  lemma FoundFrame(a: Handlers, b: Handlers, chains: Chains, space: int)
    requires SameHandlers(a, b)
    ensures FoundFor(a, chains, space) == FoundFor(b, chains, space)
  {
    forall n | n in chains
      ensures Lookup(a, chains[n], space) == Lookup(b, chains[n], space)
    {
      assert forall h :: h in chains[n] ==> SameObject(a, b, h);
      LookupFrame(a, b, chains[n], space);
    }
  }

  lemma SameFound(a: Handlers, b: Handlers, chains: Chains, h: Handler)
    requires SameHandlers(a, b) && h in a
    ensures h in b && b[h].space == a[h].space
    ensures FoundFor(a, chains, a[h].space) == FoundFor(b, chains, a[h].space)
  {
    assert SameObject(a, b, h);
    FoundFrame(a, b, chains, a[h].space);
  }

  lemma ChainedFrame(a: Handlers, b: Handlers, heads: Heads, chains: Chains)
    requires SameHandlers(a, b) && Chained(a, heads, chains)
    ensures Chained(b, heads, chains)
  {
    forall n
      ensures ChainAt(b, heads, chains, n)
    {
      assert ChainAt(a, heads, chains, n);
      if n in heads {
        forall i
          ensures ChainLink(b, chains[n], n, i)
        {
          assert ChainLink(a, chains[n], n, i);
          assert 0 <= i < |chains[n]| ==> SameObject(a, b, chains[n][i]);
        }
      }
    }
  }

  // ----- Regions and the nodes they are attached to

  ghost predicate RegionPlaced(ns: Namespace, regions: Regions, regionAt: map<Node, Region>, r: Region) {
    r in regions ==>
      && regions[r].node in regionAt && regionAt[regions[r].node] == r
      && regions[r].node in ns.parent && regions[r].node in ns.kind && ns.kind[regions[r].node] == OpRegion
  }

  ghost predicate NodePlaced(regions: Regions, regionAt: map<Node, Region>, n: Node) {
    n in regionAt ==> regionAt[n] in regions && regions[regionAt[n]].node == n
  }

  ghost predicate RegionsPlaced(ns: Namespace, regions: Regions, regionAt: map<Node, Region>) {
    (forall r :: RegionPlaced(ns, regions, regionAt, r)) && (forall n :: NodePlaced(regions, regionAt, n))
  }

  ghost predicate RehandledAt(before: Regions, after: Regions, nodes: set<Node>, space: int, h: Handler, r: Region) {
    r in before && r in after ==>
      after[r] == before[r].(next := after[r].next,
                             handler := if before[r].space == space && before[r].node in nodes then Some(h)
                                        else before[r].handler)
  }

  /** Regions of `space` at `nodes` have moved to handler `h`; nothing else about regions has changed. */
  ghost predicate Rehandled(before: Regions, after: Regions, nodes: set<Node>, space: int, h: Handler) {
    after.Keys == before.Keys && forall r :: RehandledAt(before, after, nodes, space, h, r)
  }

  ghost predicate UnhandledAt(before: Regions, after: Regions, r: Region, q: Region) {
    q in before && q in after ==>
      after[q] == before[q].(next := after[q].next, handler := if q == r then None else before[q].handler)
  }

  /** Region `r` has lost its handler; nothing else about regions has changed. */
  ghost predicate Unhandled(before: Regions, after: Regions, r: Region) {
    after.Keys == before.Keys && forall q :: UnhandledAt(before, after, r, q)
  }

  lemma AttachEffect(ns: Namespace, regions: Regions, handlers: Handlers, regionAt: map<Node, Region>, h: Handler,
                     r: Region)
    requires r in regions && h in handlers && regions[r].space == handlers[h].space
    requires RegionsPlaced(ns, regions, regionAt)
    ensures var (regions', handlers') := Attached(regions, handlers, h, r);
            SameHandlers(handlers, handlers') && Rehandled(regions, regions', {regions[r].node}, handlers[h].space, h)
            && RegionsPlaced(ns, regions', regionAt)
  {
    var (regions', handlers') := Attached(regions, handlers, h, r);
    assert RegionPlaced(ns, regions, regionAt, r);
    forall q
      ensures RehandledAt(regions, regions', {regions[r].node}, handlers[h].space, h, q)
    {
      assert RegionPlaced(ns, regions, regionAt, q);
    }
    PlacedFrame(ns, regions, regions', regionAt);
  }

  lemma DetachEffect(ns: Namespace, regions: Regions, handlers: Handlers, regionAt: map<Node, Region>, h: Handler,
                     list: seq<Region>, k: int)
    requires h in handlers && 0 <= k < |list| && (forall q :: q in list ==> q in regions) && Distinct(list)
    requires handlers[h].references > 0 && RegionsPlaced(ns, regions, regionAt)
    ensures k > 0 ==> list[k - 1] != list[k]
    ensures var (regions', handlers') := Detached(regions, handlers, h, list, k);
            SameHandlers(handlers, handlers') && Unhandled(regions, regions', list[k])
              && RegionsPlaced(ns, regions', regionAt)
  {
    PlacedFrame(ns, regions, Detached(regions, handlers, h, list, k).0, regionAt);
  }

  lemma PlacedFrame(ns: Namespace, before: Regions, after: Regions, regionAt: map<Node, Region>)
    requires RegionsPlaced(ns, before, regionAt)
    requires after.Keys == before.Keys && forall r :: r in before ==> after[r].node == before[r].node
    ensures RegionsPlaced(ns, after, regionAt)
  {
    forall r
      ensures RegionPlaced(ns, after, regionAt, r)
    {
      assert RegionPlaced(ns, before, regionAt, r);
    }
    forall n
      ensures NodePlaced(after, regionAt, n)
    {
      assert NodePlaced(before, regionAt, n);
    }
  }

  lemma RehandledCompose(a: Regions, b: Regions, c: Regions, xs: set<Node>, ys: set<Node>, space: int, h: Handler)
    requires Rehandled(a, b, xs, space, h) && Rehandled(b, c, ys, space, h)
    ensures Rehandled(a, c, xs + ys, space, h)
  {
    forall r
      ensures RehandledAt(a, c, xs + ys, space, h, r)
    {
      assert RehandledAt(a, b, xs, space, h, r) && RehandledAt(b, c, ys, space, h, r);
    }
  }

  /** One more child of `n` has been walked. */
  lemma WalkedFurther(ns: Namespace, limits: Limits, n: Node, k: nat,
                      a: Regions, b: Regions, c: Regions, space: int, h: Handler)
    requires Tree(ns) && n in ns.kind && k < |ns.children[n]|
    requires Rehandled(a, b, Visited(ns, limits, n, k), space, h)
    requires Rehandled(b, c, Subtree(ns, limits, ns.children[n][k]), space, h)
    ensures Rehandled(a, c, Visited(ns, limits, n, k + 1), space, h)
  {
    VisitedNext(ns, limits, n, k);
    RehandledCompose(a, b, c, Visited(ns, limits, n, k), Subtree(ns, limits, ns.children[n][k]), space, h);
  }

  /** Taken from its old handler and given to `h`. */
  lemma Moved(ns: Namespace, regionAt: map<Node, Region>, a: Regions, b: Regions, c: Regions, r: Region, space: int,
              h: Handler)
    requires RegionsPlaced(ns, a, regionAt) && r in a && a[r].space == space
    requires Unhandled(a, b, r) && Rehandled(b, c, {a[r].node}, space, h)
    ensures Rehandled(a, c, {a[r].node}, space, h)
  {
    forall q
      ensures RehandledAt(a, c, {a[r].node}, space, h, q)
    {
      assert RegionPlaced(ns, a, regionAt, r) && RegionPlaced(ns, a, regionAt, q);
      assert UnhandledAt(a, b, r, q) && RehandledAt(b, c, {a[r].node}, space, h, q);
    }
  }

  // ----- The cached handler and the scoping rule

  /** The handler a region should have: that of the nearest node above it with one for its address space. */
  function NearestFor(ns: Namespace, handlers: Handlers, chains: Chains, obj: RegionObj): Option<Handler>
    requires Tree(ns) && obj.node in ns.parent
  {
    Nearest(ns, FoundFor(handlers, chains, obj.space), ns.parent[obj.node])
  }

  /** An initialized region has the nearest handler; one not yet initialized has that or none. */
  ghost predicate Agrees(ns: Namespace, handlers: Handlers, chains: Chains, obj: RegionObj)
    requires Tree(ns) && obj.node in ns.parent
  {
    obj.handler == NearestFor(ns, handlers, chains, obj) || (!obj.initialized && obj.handler == None)
  }

  predicate MayHaveHandlers(kind: Kind) {
    kind == Device || kind == Processor || kind == Thermal
  }

  /** What the walk down from a new handler leaves out. */
  function Walking(ns: Namespace, found: Found): Limits {
    Limits(ns.temporary, Blocking(ns, found))
  }

  /** Nodes at which the walk down from a new handler for `space` turns back: devices only. */
  function Blocking(ns: Namespace, found: Found): set<Node> {
    set n | n in found && n in ns.kind && ns.kind[n] == Device
  }

  // ----- What a new handler changes

  lemma {:induction false} LookupMembers(handlers: Handlers, chain: seq<Handler>, space: int)
    ensures Lookup(handlers, chain, space).None? ==>
              forall h :: h in chain && h in handlers ==> handlers[h].space != space
  {
    if chain != [] {
      LookupMembers(handlers, chain[1..], space);
    }
  }

  /** The state of the handler objects with one more, not yet in use, at the head of the list of node `n`. */
  function Added(handlers: Handlers, heads: Heads, h: Handler, n: Node, space: int, address: int): Handlers {
    handlers[h := HandlerObj(n, space, address, None, if n in heads then heads[n] else None, 1)]
  }

  lemma AddedAssociated(regions: Regions, handlers: Handlers, lists: Lists, h: Handler, obj: HandlerObj)
    requires Associated(regions, handlers, lists) && h !in handlers && obj.regionList == None && obj.references == 1
    ensures Associated(regions, handlers[h := obj], lists[h := []])
  {
    var handlers', lists' := handlers[h := obj], lists[h := []];
    forall g
      ensures HandlerOk(regions, handlers', lists', g)
    {
      assert HandlerOk(regions, handlers, lists, g);
    }
    forall r
      ensures RegionOk(regions, handlers', lists', r)
    {
      assert RegionOk(regions, handlers, lists, r);
    }
  }

  function ChainBefore(chains: Chains, n: Node): seq<Handler> {
    if n in chains then chains[n] else []
  }

  lemma ChainHead(handlers: Handlers, heads: Heads, chains: Chains, n: Node)
    requires Chained(handlers, heads, chains)
    ensures (if n in heads then heads[n] else None) == Nth(ChainBefore(chains, n), 0)
  {
    assert ChainAt(handlers, heads, chains, n);
  }

  lemma AddedChained(handlers: Handlers, heads: Heads, chains: Chains, h: Handler, n: Node, space: int, address: int)
    requires Chained(handlers, heads, chains) && h !in handlers
    ensures Chained(Added(handlers, heads, h, n, space, address), heads[n := Some(h)],
                    chains[n := [h] + ChainBefore(chains, n)])
  {
    var handlers' := Added(handlers, heads, h, n, space, address);
    var heads', chains' := heads[n := Some(h)], chains[n := [h] + ChainBefore(chains, n)];
    ChainHead(handlers, heads, chains, n);
    forall k
      ensures ChainAt(handlers', heads', chains', k)
    {
      assert ChainAt(handlers, heads, chains, k);
      if k in heads' {
        forall i
          ensures ChainLink(handlers', chains'[k], k, i)
        {
          if k == n {
            assert n in heads ==> ChainLink(handlers, chains[n], n, i - 1);
          } else {
            assert ChainLink(handlers, chains[k], k, i);
          }
        }
      }
    }
  }

  lemma AddedFound(handlers: Handlers, heads: Heads, chains: Chains, h: Handler, n: Node, space: int, address: int,
                   other: int)
    requires Chained(handlers, heads, chains) && h !in handlers
    ensures var found := FoundFor(handlers, chains, other);
            FoundFor(Added(handlers, heads, h, n, space, address), chains[n := [h] + ChainBefore(chains, n)], other)
            == if other == space then found[n := h] else found
  {
    var handlers' := Added(handlers, heads, h, n, space, address);
    forall k | k in chains || k == n
      ensures Lookup(handlers', ChainBefore(chains, k), other) == Lookup(handlers, ChainBefore(chains, k), other)
    {
      assert ChainAt(handlers, heads, chains, k);
      assert forall g :: g in ChainBefore(chains, k) ==> g != h by {
        forall g | g in ChainBefore(chains, k)
          ensures g != h
        {
          var i :| 0 <= i < |chains[k]| && chains[k][i] == g;
          assert ChainLink(handlers, chains[k], k, i);
        }
      }
      LookupFrame(handlers, handlers', ChainBefore(chains, k), other);
    }
    assert ([h] + ChainBefore(chains, n))[1..] == ChainBefore(chains, n);
  }

  /** Whether a node blocks does not matter to a walk that starts there. */
  lemma {:induction false} StartDoesNotBlock(ns: Namespace, skipped: set<Node>, blocked: set<Node>, n: Node, m: Node)
    requires Tree(ns) && m in ns.kind
    ensures Reaches(ns, Limits(skipped, blocked + {n}), n, m) == Reaches(ns, Limits(skipped, blocked), n, m)
    decreases ns.depth[m]
  {
    if m in ns.parent && ns.parent[m] != n {
      StartDoesNotBlock(ns, skipped, blocked, n, ns.parent[m]);
    }
  }

  /** What a search for handlers of `other` finds once `h` has been installed at `n` for `space`. */
  ghost predicate InstalledFound(handlers: Handlers, chains: Chains, handlers': Handlers, chains': Chains, n: Node,
                                 space: int, h: Handler, other: int) {
    FoundFor(handlers', chains', other)
    == if other == space then FoundFor(handlers, chains, other)[n := h] else FoundFor(handlers, chains, other)
  }

  ghost predicate InstalledOnly(handlers: Handlers, chains: Chains, handlers': Handlers, chains': Chains, n: Node,
                                space: int, h: Handler) {
    forall other :: InstalledFound(handlers, chains, handlers', chains', n, space, h, other)
  }

  lemma InstalledOnlyAdded(handlers: Handlers, heads: Heads, chains: Chains, h: Handler, n: Node, space: int,
                           address: int)
    requires Chained(handlers, heads, chains) && h !in handlers
    ensures InstalledOnly(handlers, chains, Added(handlers, heads, h, n, space, address),
                          chains[n := [h] + ChainBefore(chains, n)], n, space, h)
  {
    var handlers', chains' := Added(handlers, heads, h, n, space, address), chains[n := [h] + ChainBefore(chains, n)];
    forall other
      ensures InstalledFound(handlers, chains, handlers', chains', n, space, h, other)
    {
      AddedFound(handlers, heads, chains, h, n, space, address, other);
    }
  }

  lemma InstalledOnlyFrame(handlers: Handlers, chains: Chains, added: Handlers, handlers': Handlers, chains': Chains,
                           n: Node, space: int, h: Handler)
    requires InstalledOnly(handlers, chains, added, chains', n, space, h) && SameHandlers(added, handlers')
    ensures InstalledOnly(handlers, chains, handlers', chains', n, space, h)
  {
    forall other
      ensures InstalledFound(handlers, chains, handlers', chains', n, space, h, other)
    {
      assert InstalledFound(handlers, chains, added, chains', n, space, h, other);
      FoundFrame(added, handlers', chains', other);
    }
  }

  lemma ReachedFromNew(ns: Namespace, found: Found, n: Node, h: Handler)
    requires Tree(ns)
    ensures Reached(ns, Walking(ns, found[n := h]), n) == Reached(ns, Walking(ns, found), n)
  {
    var blocked := Blocking(ns, found);
    assert Blocking(ns, found[n := h]) == blocked || Blocking(ns, found[n := h]) == blocked + {n};
    forall m | m in ns.kind
      ensures Reaches(ns, Walking(ns, found[n := h]), n, m) == Reaches(ns, Walking(ns, found), n, m)
    {
      StartDoesNotBlock(ns, ns.temporary, blocked, n, m);
    }
  }

  lemma SameHandlersReflexive(a: Handlers)
    ensures SameHandlers(a, a)
  {
  }

  lemma RehandledNone(a: Regions, nodes: set<Node>, space: int, h: Handler)
    requires nodes == {}
    ensures Rehandled(a, a, nodes, space, h)
  {
  }

  // ----- Agreement with the scoping rule

  lemma {:induction false} NearestIsFound(ns: Namespace, found: Found, n: Node)
    requires Tree(ns) && n in ns.kind
    ensures Nearest(ns, found, n).Some? ==> Nearest(ns, found, n).value in found.Values
    decreases ns.depth[n]
  {
    if n !in found && n in ns.parent {
      NearestIsFound(ns, found, ns.parent[n]);
    }
  }

  /** The walk down passes a handler that the search up would have stopped at: one that is not on a device. */
  predicate Overtaken(ns: Namespace, found: Found, n: Node, m: Node)
    requires Tree(ns) && m in ns.kind
  {
    Reaches(ns, Walking(ns, found), n, m) && !Reaches(ns, Past(found), n, m)
  }

  /** The search up would find the new handler, but the walk down does not get there: past a temporary node. */
  predicate Missed(ns: Namespace, found: Found, n: Node, m: Node)
    requires Tree(ns) && m in ns.kind
  {
    Reaches(ns, Past(found), n, m) && !Reaches(ns, Walking(ns, found), n, m)
  }

  /**
   * Exactly when an installation keeps a region in agreement with the scoping rule: the region is for another address
   * space, or the walk down has neither overtaken a nearer handler on a processor or thermal zone nor missed the
   * region, unless that has no handler and is still to be initialized.
   */
  predicate KeepsAgreement(ns: Namespace, found: Found, n: Node, space: int, obj: RegionObj)
    requires Tree(ns) && obj.node in ns.kind
  {
    obj.space == space ==>
      && !Overtaken(ns, found, n, obj.node)
      && (Missed(ns, found, n, obj.node) ==> obj.handler == None && !obj.initialized)
  }

  lemma InstallKeepsAgreement(ns: Namespace, handlers: Handlers, chains: Chains, handlers': Handlers, chains': Chains,
                              n: Node, space: int, h: Handler, obj: RegionObj, obj': RegionObj)
    requires Tree(ns) && obj.node in ns.parent && obj.node in ns.kind && h !in handlers
    requires Agrees(ns, handlers, chains, obj)
    requires n !in FoundFor(handlers, chains, space)
    requires InstalledOnly(handlers, chains, handlers', chains', n, space, h)
    requires var reached := Reached(ns, Walking(ns, FoundFor(handlers, chains, space)), n);
             obj' == obj.(next := obj'.next,
                          handler := if obj.space == space && obj.node in reached then Some(h) else obj.handler)
    ensures Agrees(ns, handlers', chains', obj')
            <==> KeepsAgreement(ns, FoundFor(handlers, chains, space), n, space, obj)
  {
    var found := FoundFor(handlers, chains, obj.space);
    assert InstalledFound(handlers, chains, handlers', chains', n, space, h, obj.space);
    if obj.space == space {
      NearestAfterInstall(ns, found, n, h, obj.node);
      NearestIsFound(ns, found, ns.parent[obj.node]);
      assert h !in found.Values;
    }
  }

  /** With handlers on devices only, walking down and searching up stop at the same permanent nodes. */
  lemma DevicesAreNotOvertaken(ns: Namespace, found: Found, n: Node, m: Node)
    requires Tree(ns) && m in ns.kind && forall k :: k in found ==> k in ns.kind && ns.kind[k] == Device
    ensures !Overtaken(ns, found, n, m)
    ensures Permanent(ns, m) ==> !Missed(ns, found, n, m)
  {
    assert Blocking(ns, found) == found.Keys;
    SkippingTemporary(ns, found.Keys, n, m);
  }

  ghost predicate InitializedAt(before: Regions, after: Regions, r: Region, handler: Option<Handler>, q: Region) {
    q in before && q in after ==>
      after[q] == if q == r then before[q].(next := after[q].next, handler := handler, initialized := true)
                  else before[q].(next := after[q].next)
  }

  /** Region `r` is initialized and has `handler`; nothing else about regions has changed. */
  ghost predicate Initialized(before: Regions, after: Regions, r: Region, handler: Option<Handler>) {
    after.Keys == before.Keys && forall q :: InitializedAt(before, after, r, handler, q)
  }

  lemma InitializedBy(ns: Namespace, regionAt: map<Node, Region>, a: Regions, b: Regions, c: Regions, r: Region,
                      space: int, h: Handler)
    requires RegionsPlaced(ns, b, regionAt) && r in a && b == a[r := a[r].(initialized := true)] && a[r].space == space
    requires if a[r].handler.Some? then c == b else Rehandled(b, c, {b[r].node}, space, h)
    ensures Initialized(a, c, r, if a[r].handler.Some? then a[r].handler else Some(h))
  {
    var handler := if a[r].handler.Some? then a[r].handler else Some(h);
    forall q
      ensures InitializedAt(a, c, r, handler, q)
    {
      assert RegionPlaced(ns, b, regionAt, r) && RegionPlaced(ns, b, regionAt, q);
      if a[r].handler.None? {
        assert RehandledAt(b, c, {b[r].node}, space, h, q);
      }
    }
  }

  lemma InitializedOnly(a: Regions, r: Region)
    requires r in a
    ensures Initialized(a, a[r := a[r].(initialized := true)], r, a[r].handler)
  {
    var b := a[r := a[r].(initialized := true)];
    forall q
      ensures InitializedAt(a, b, r, a[r].handler, q)
    {
    }
  }

  lemma NoRegionHere(ns: Namespace, regions: Regions, regionAt: map<Node, Region>, n: Node, space: int, h: Handler)
    requires RegionsPlaced(ns, regions, regionAt) && n in ns.kind && (ns.kind[n] != OpRegion || n !in regionAt)
    ensures Rehandled(regions, regions, {n}, space, h)
  {
    forall r
      ensures RehandledAt(regions, regions, {n}, space, h, r)
    {
      assert RegionPlaced(ns, regions, regionAt, r);
    }
  }

  lemma OtherSpaceHere(ns: Namespace, regions: Regions, regionAt: map<Node, Region>, n: Node, space: int, h: Handler)
    requires RegionsPlaced(ns, regions, regionAt) && n in regionAt && regionAt[n] in regions
    requires regions[regionAt[n]].space != space
    ensures Rehandled(regions, regions, {n}, space, h)
  {
    forall r
      ensures RehandledAt(regions, regions, {n}, space, h, r)
    {
      assert RegionPlaced(ns, regions, regionAt, r);
    }
  }

  lemma SameHandlersCompose(a: Handlers, b: Handlers, c: Handlers)
    requires SameHandlers(a, b) && SameHandlers(b, c)
    ensures SameHandlers(a, c)
  {
    forall h
      ensures SameObject(a, c, h)
    {
      assert SameObject(a, b, h) && SameObject(b, c, h);
    }
  }

  // ----- Operations and their effects

  /** What the operations see of the state: everything but the region lists. */
  datatype Snapshot = Snapshot(
    regions: Regions,
    handlers: Handlers,
    heads: Heads,
    regionAt: map<Node, Region>,
    chains: Chains
  )

  ghost predicate Placed(ns: Namespace, s: Snapshot) {
    && Tree(ns) && RegionsPlaced(ns, s.regions, s.regionAt) && Chained(s.handlers, s.heads, s.chains)
    && forall n :: n in s.heads ==> n in ns.kind && MayHaveHandlers(ns.kind[n])
  }

  /** Whether the interpreter can be asked for the operation now. */
  predicate Possible(ns: Namespace, s: Snapshot, op: Op) {
    match op
    case Create(r, n, space) => r !in s.regions && n in ns.parent && n in ns.kind && ns.kind[n] == OpRegion
    case Initialize(r) => r in s.regions
    case Install(n, space, address, h) => n in ns.kind && h !in s.handlers
  }

  /** The status of an installation, decided by the handler already found at the node for the address space. */
  function InstallStatus(ns: Namespace, handlers: Handlers, chains: Chains, n: Node, space: int, address: int): Status
    requires n in ns.kind
  {
    if !MayHaveHandlers(ns.kind[n]) then BadParameter
    else
      match Lookup(handlers, ChainBefore(chains, n), space)
      case None => Ok
      case Some(g) => if handlers[g].address == address then SameHandler else AlreadyExists
  }

  ghost predicate InstalledBy(ns: Namespace, a: Snapshot, b: Snapshot, n: Node, space: int, address: int, h: Handler)
    requires Tree(ns)
  {
    && b.regionAt == a.regionAt && b.heads == a.heads[n := Some(h)]
    && b.chains == a.chains[n := [h] + ChainBefore(a.chains, n)]
    && SameHandlers(Added(a.handlers, a.heads, h, n, space, address), b.handlers)
    && Rehandled(a.regions, b.regions, Reached(ns, Walking(ns, FoundFor(a.handlers, a.chains, space)), n), space, h)
  }

  ghost predicate InitializedIn(ns: Namespace, a: Snapshot, b: Snapshot, r: Region)
    requires Tree(ns) && r in a.regions
  {
    && SameHandlers(a.handlers, b.handlers) && b.heads == a.heads && b.regionAt == a.regionAt && b.chains == a.chains
    && var obj := a.regions[r];
       if obj.initialized then b.regions == a.regions
       else
         && obj.node in ns.parent
         && var near := NearestFor(ns, a.handlers, a.chains, obj);
            Initialized(a.regions, b.regions, r, if obj.handler.Some? then obj.handler else near)
  }

  /** The effect of one operation and its status; an operation that is not possible has none. */
  ghost predicate Performed(ns: Namespace, a: Snapshot, op: Op, status: Status, b: Snapshot)
    requires Tree(ns)
  {
    if !Possible(ns, a, op) then status == NotPossible && b == a
    else
      match op
      case Create(r, n, space) =>
        && status == Ok
        && b == if n in a.regionAt then a
                else a.(regions := a.regions[r := RegionObj(n, space, None, None, false)],
                        regionAt := a.regionAt[n := r])
      case Initialize(r) => status == Ok && InitializedIn(ns, a, b, r)
      case Install(n, space, address, h) =>
        && status == InstallStatus(ns, a.handlers, a.chains, n, space, address)
        && if status == Ok then InstalledBy(ns, a, b, n, space, address, h) else b == a
  }

  /**
   * Installing for the same node and address space again is refused without effect, as the same handler or as another
   * one.
   */
  lemma InstalledOnce(ns: Namespace, a: Snapshot, b: Snapshot, c: Snapshot, n: Node, space: int, address: int,
                      h: Handler, again: int, g: Handler, first: Status, second: Status)
    requires Tree(ns) && Performed(ns, a, Install(n, space, address, h), first, b) && first == Ok
    requires Performed(ns, b, Install(n, space, again, g), second, c) && g !in b.handlers
    ensures c == b && second == if again == address then SameHandler else AlreadyExists
  {
    var added := Added(a.handlers, a.heads, h, n, space, address);
    assert SameObject(added, b.handlers, h);
    assert b.chains[n] == [h] + ChainBefore(a.chains, n);
  }

  /** An installation succeeds exactly on a device, processor or thermal zone without a handler for that space. */
  lemma InstalledExactly(ns: Namespace, a: Snapshot, b: Snapshot, n: Node, space: int, address: int, h: Handler,
                         status: Status)
    requires Tree(ns) && Performed(ns, a, Install(n, space, address, h), status, b)
    requires h !in a.handlers && n in ns.kind
    ensures status == Ok <==> ns.kind[n] in {Device, Processor, Thermal} && n !in FoundFor(a.handlers, a.chains, space)
    ensures status == BadParameter <==> ns.kind[n] !in {Device, Processor, Thermal}
  {
  }

  // ----- The index over whole histories

  ghost predicate AgreesAt(ns: Namespace, regions: Regions, handlers: Handlers, chains: Chains, r: Region)
    requires Tree(ns)
  {
    r in regions ==> regions[r].node in ns.parent && Agrees(ns, handlers, chains, regions[r])
  }

  /** Every region agrees with the scoping rule. */
  ghost predicate IndexAgrees(ns: Namespace, s: Snapshot)
    requires Tree(ns)
  {
    forall r :: AgreesAt(ns, s.regions, s.handlers, s.chains, r)
  }

  lemma CreateKeepsIndex(ns: Namespace, a: Snapshot, b: Snapshot, r: Region)
    requires Tree(ns) && IndexAgrees(ns, a)
    requires r in b.regions && b == a.(regions := a.regions[r := b.regions[r]], regionAt := b.regionAt)
    requires b.regions[r].node in ns.parent && b.regions[r].handler == None && !b.regions[r].initialized
    ensures IndexAgrees(ns, b)
  {
    forall q
      ensures AgreesAt(ns, b.regions, b.handlers, b.chains, q)
    {
      assert AgreesAt(ns, a.regions, a.handlers, a.chains, q);
    }
  }

  lemma InitializeKeepsIndex(ns: Namespace, a: Snapshot, b: Snapshot, r: Region)
    requires Tree(ns) && IndexAgrees(ns, a) && r in a.regions && InitializedIn(ns, a, b, r)
    ensures IndexAgrees(ns, b)
  {
    var obj := a.regions[r];
    forall q
      ensures AgreesAt(ns, b.regions, b.handlers, b.chains, q)
    {
      assert AgreesAt(ns, a.regions, a.handlers, a.chains, q);
      if q in a.regions {
        FoundFrame(a.handlers, b.handlers, a.chains, a.regions[q].space);
        if !obj.initialized {
          var near := NearestFor(ns, a.handlers, a.chains, obj);
          assert InitializedAt(a.regions, b.regions, r, if obj.handler.Some? then obj.handler else near, q);
        }
      }
    }
  }

  ghost predicate RegionKept(ns: Namespace, s: Snapshot, n: Node, space: int, r: Region)
    requires Tree(ns)
  {
    r in s.regions && s.regions[r].node in ns.kind ==>
      KeepsAgreement(ns, FoundFor(s.handlers, s.chains, space), n, space, s.regions[r])
  }

  /** Exactly when an installation keeps the whole index. */
  lemma InstallKeepsIndex(ns: Namespace, a: Snapshot, b: Snapshot, n: Node, space: int, address: int, h: Handler)
    requires Placed(ns, a) && IndexAgrees(ns, a) && h !in a.handlers && n in ns.kind
    requires InstallStatus(ns, a.handlers, a.chains, n, space, address) == Ok
    requires InstalledBy(ns, a, b, n, space, address, h)
    ensures IndexAgrees(ns, b) <==> forall r :: RegionKept(ns, a, n, space, r)
  {
    InstalledOnlyAdded(a.handlers, a.heads, a.chains, h, n, space, address);
    var added := Added(a.handlers, a.heads, h, n, space, address);
    InstalledOnlyFrame(a.handlers, a.chains, added, b.handlers, b.chains, n, space, h);
    forall q
      ensures AgreesAt(ns, b.regions, b.handlers, b.chains, q) <==> RegionKept(ns, a, n, space, q)
    {
      assert AgreesAt(ns, a.regions, a.handlers, a.chains, q);
      if q in a.regions {
        assert RegionPlaced(ns, a.regions, a.regionAt, q);
        var reached := Reached(ns, Walking(ns, FoundFor(a.handlers, a.chains, space)), n);
        assert RehandledAt(a.regions, b.regions, reached, space, h, q);
        InstallKeepsAgreement(ns, a.handlers, a.chains, b.handlers, b.chains, n, space, h, a.regions[q], b.regions[q]);
      }
    }
  }

  ghost predicate HandlersOnDevices(ns: Namespace, s: Snapshot) {
    forall n :: n in s.heads ==> n in ns.kind && ns.kind[n] == Device
  }

  ghost predicate RegionsPermanent(ns: Namespace, s: Snapshot)
    requires Tree(ns)
  {
    forall r :: r in s.regions ==> s.regions[r].node in ns.kind && Permanent(ns, s.regions[r].node)
  }

  /** Handlers are installed on devices, and regions are not created by running methods. */
  ghost predicate Regular(ns: Namespace, op: Op)
    requires Tree(ns)
  {
    match op
    case Create(r, n, space) => n in ns.kind ==> Permanent(ns, n)
    case Initialize(r) => true
    case Install(n, space, address, h) => n in ns.kind ==> ns.kind[n] == Device
  }

  ghost predicate Agreeing(ns: Namespace, s: Snapshot)
    requires Tree(ns)
  {
    IndexAgrees(ns, s) && HandlersOnDevices(ns, s) && RegionsPermanent(ns, s)
  }

  lemma PerformedKeepsIndex(ns: Namespace, a: Snapshot, op: Op, status: Status, b: Snapshot)
    requires Placed(ns, a) && Agreeing(ns, a) && Regular(ns, op) && Performed(ns, a, op, status, b)
    ensures Agreeing(ns, b)
  {
    if Possible(ns, a, op) {
      match op {
        case Create(r, n, space) =>
          if n !in a.regionAt {
            CreateKeepsIndex(ns, a, b, r);
          }
        case Initialize(r) =>
          InitializeKeepsIndex(ns, a, b, r);
          InitializeKeepsNodes(ns, a, b, r);
        case Install(n, space, address, h) =>
          if status == Ok {
            DeviceInstallKeepsIndex(ns, a, b, n, space, address, h);
          }
      }
    }
  }

  lemma InitializeKeepsNodes(ns: Namespace, a: Snapshot, b: Snapshot, r: Region)
    requires Tree(ns) && r in a.regions && InitializedIn(ns, a, b, r)
    ensures b.regions.Keys == a.regions.Keys && forall q :: q in a.regions ==> b.regions[q].node == a.regions[q].node
  {
    var obj := a.regions[r];
    if !obj.initialized {
      var near := NearestFor(ns, a.handlers, a.chains, obj);
      forall q | q in a.regions
        ensures b.regions[q].node == a.regions[q].node
      {
        assert InitializedAt(a.regions, b.regions, r, if obj.handler.Some? then obj.handler else near, q);
      }
    }
  }

  lemma DeviceInstallKeepsIndex(ns: Namespace, a: Snapshot, b: Snapshot, n: Node, space: int, address: int, h: Handler)
    requires Placed(ns, a) && Agreeing(ns, a) && h !in a.handlers && n in ns.kind && ns.kind[n] == Device
    requires InstallStatus(ns, a.handlers, a.chains, n, space, address) == Ok
    requires InstalledBy(ns, a, b, n, space, address, h)
    ensures Agreeing(ns, b)
  {
    var found := FoundFor(a.handlers, a.chains, space);
    forall r
      ensures RegionKept(ns, a, n, space, r)
    {
      if r in a.regions {
        DevicesAreNotOvertaken(ns, found, n, a.regions[r].node);
      }
    }
    InstallKeepsIndex(ns, a, b, n, space, address, h);
    var reached := Reached(ns, Walking(ns, found), n);
    forall r | r in b.regions
      ensures b.regions[r].node in ns.kind && Permanent(ns, b.regions[r].node)
    {
      assert RehandledAt(a.regions, b.regions, reached, space, h, r);
    }
  }

  ghost predicate StepOf(ns: Namespace, trace: seq<Snapshot>, ops: seq<Op>, statuses: seq<Status>, i: int)
    requires Tree(ns) && |trace| == |ops| + 1 && |statuses| == |ops|
  {
    0 <= i < |ops| ==> Placed(ns, trace[i]) && Performed(ns, trace[i], ops[i], statuses[i], trace[i + 1])
  }

  /** The snapshots of a history, one before and one after each operation. */
  ghost predicate TraceOf(ns: Namespace, trace: seq<Snapshot>, ops: seq<Op>, statuses: seq<Status>) {
    && Tree(ns) && |trace| == |ops| + 1 && |statuses| == |ops|
    && forall i :: StepOf(ns, trace, ops, statuses, i)
  }

  /**
   * In every history of region creations, initializations and handler installations on devices, every initialized
   * region has the nearest handler at all times, and every other region that one or none.
   */
  lemma {:induction false} RunKeepsIndex(ns: Namespace, trace: seq<Snapshot>, ops: seq<Op>, statuses: seq<Status>,
                                         k: nat)
    requires TraceOf(ns, trace, ops, statuses) && k <= |ops|
    requires Agreeing(ns, trace[0]) && forall op :: op in ops ==> Regular(ns, op)
    ensures Agreeing(ns, trace[k])
  {
    if k > 0 {
      RunKeepsIndex(ns, trace, ops, statuses, k - 1);
      assert StepOf(ns, trace, ops, statuses, k - 1);
      PerformedKeepsIndex(ns, trace[k - 1], ops[k - 1], statuses[k - 1], trace[k]);
    }
  }

  // ----- Histories that end in disagreement

  function Empty(): Snapshot {
    Snapshot(map[], map[], map[], map[], map[])
  }

  /** Region 5, of space 0, is the only one; so all the index says is about that. */
  ghost predicate OneRegion(s: Snapshot, n: Node, handler: Option<Handler>, initialized: bool) {
    s.regions.Keys == {5} && s.regions[5] == RegionObj(n, 0, handler, s.regions[5].next, initialized)
  }

  lemma OneRegionAgrees(ns: Namespace, s: Snapshot, n: Node, handler: Option<Handler>, initialized: bool)
    requires Tree(ns) && n in ns.parent && OneRegion(s, n, handler, initialized)
    ensures IndexAgrees(ns, s)
            <==> handler == Nearest(ns, FoundFor(s.handlers, s.chains, 0), ns.parent[n])
                 || (!initialized && handler == None)
  {
    var near := Nearest(ns, FoundFor(s.handlers, s.chains, 0), ns.parent[n]);
    assert AgreesAt(ns, s.regions, s.handlers, s.chains, 5) <==> handler == near || (!initialized && handler == None);
    assert forall r :: r != 5 ==> AgreesAt(ns, s.regions, s.handlers, s.chains, r);
  }

  /** What the installation of handler `h` for space 0 does to region 5 and to the search upward. */
  lemma OneInstalled(ns: Namespace, a: Snapshot, status: Status, b: Snapshot, n: Node, address: int, h: Handler,
                     m: Node, handler: Option<Handler>, initialized: bool)
    requires Placed(ns, a) && OneRegion(a, m, handler, initialized) && n in ns.kind && MayHaveHandlers(ns.kind[n])
    requires h !in a.handlers && ChainBefore(a.chains, n) == []
    requires Performed(ns, a, Install(n, 0, address, h), status, b)
    ensures status == Ok && b.handlers.Keys == a.handlers.Keys + {h} && b.chains == a.chains[n := [h]]
    ensures FoundFor(b.handlers, b.chains, 0) == FoundFor(a.handlers, a.chains, 0)[n := h]
    ensures m in ns.kind
            && OneRegion(b, m, if Reaches(ns, Walking(ns, FoundFor(a.handlers, a.chains, 0)), n, m) then Some(h)
                               else handler, initialized)
  {
    var found := FoundFor(a.handlers, a.chains, 0);
    assert [h] + ChainBefore(a.chains, n) == [h];
    assert RegionPlaced(ns, a.regions, a.regionAt, 5);
    assert RehandledAt(a.regions, b.regions, Reached(ns, Walking(ns, found), n), 0, h, 5);
    InstalledOnlyAdded(a.handlers, a.heads, a.chains, h, n, 0, address);
    var added := Added(a.handlers, a.heads, h, n, 0, address);
    InstalledOnlyFrame(a.handlers, a.chains, added, b.handlers, b.chains, n, 0, h);
    assert InstalledFound(a.handlers, a.chains, b.handlers, b.chains, n, 0, h, 0);
  }

  /** A region below a processor below the root. */
  function ProcessorTree(): Namespace {
    Namespace(map[0 := Device, 1 := Processor, 2 := OpRegion], map[1 := 0, 2 := 1], map[0 := [1], 1 := [2], 2 := []],
              map[0 := 0, 1 := 1, 2 := 2], 2, {})
  }

  const PROCESSOR_HISTORY := [Create(5, 2, 0), Install(1, 0, 10, 7), Install(0, 0, 11, 8)]

  /** The walk from node 0 gets to the region at node 2, for which the search upward finds the handler at node 1. */
  ghost predicate ProcessorBetween(ns: Namespace) {
    && Tree(ns) && {0, 1, 2} <= ns.kind.Keys && 2 in ns.parent && ns.parent[2] == 1
    && MayHaveHandlers(ns.kind[0]) && MayHaveHandlers(ns.kind[1]) && ns.kind[2] == OpRegion
    && Nearest(ns, map[1 := 7, 0 := 8], 1) == Some(7)
    && Reaches(ns, Walking(ns, map[]), 1, 2) && Reaches(ns, Walking(ns, map[1 := 7]), 0, 2)
  }

  lemma ProcessorSearches()
    ensures ProcessorBetween(ProcessorTree())
  {
    var ns := ProcessorTree();
    assert ns.parent[2] == 1 && ns.parent[1] == 0;
    assert Reaches(ns, Walking(ns, map[1 := 7]), 0, 1);
  }

  /** One operation of a history that has a snapshot for each. */
  lemma StepTaken(ns: Namespace, trace: seq<Snapshot>, ops: seq<Op>, statuses: seq<Status>, i: nat)
    requires TraceOf(ns, trace, ops, statuses) && i < |ops|
    ensures Placed(ns, trace[i]) && Performed(ns, trace[i], ops[i], statuses[i], trace[i + 1])
  {
    assert StepOf(ns, trace, ops, statuses, i);
  }

  lemma FirstCreated(ns: Namespace, n: Node, status: Status, b: Snapshot)
    requires Tree(ns) && n in ns.parent && n in ns.kind && ns.kind[n] == OpRegion
    requires Performed(ns, Empty(), Create(5, n, 0), status, b)
    ensures status == Ok && OneRegion(b, n, None, false) && b.handlers == map[] && b.chains == map[]
    ensures FoundFor(b.handlers, b.chains, 0) == map[]
  {
  }

  lemma RootInstalled(ns: Namespace, a: Snapshot, status: Status, b: Snapshot)
    requires ProcessorBetween(ns) && Placed(ns, a) && OneRegion(a, 2, Some(7), false)
    requires a.handlers.Keys == {7} && a.chains.Keys == {1} && FoundFor(a.handlers, a.chains, 0) == map[1 := 7]
    requires Performed(ns, a, Install(0, 0, 11, 8), status, b)
    ensures status == Ok && OneRegion(b, 2, Some(8), false) && !IndexAgrees(ns, b)
  {
    OneInstalled(ns, a, status, b, 0, 11, 8, 2, Some(7), false);
    OneRegionAgrees(ns, b, 2, Some(8), false);
  }

  /** On a processor the walk does not turn back: the handler at the root overtakes that of the processor below it. */
  lemma ProcessorIsOvertaken(ns: Namespace, trace: seq<Snapshot>, statuses: seq<Status>)
    requires ProcessorBetween(ns) && TraceOf(ns, trace, PROCESSOR_HISTORY, statuses) && trace[0] == Empty()
    ensures statuses == [Ok, Ok, Ok]
    ensures OneRegion(trace[3], 2, Some(8), false) && !IndexAgrees(ns, trace[3])
  {
    var ops := PROCESSOR_HISTORY;
    StepTaken(ns, trace, ops, statuses, 0);
    StepTaken(ns, trace, ops, statuses, 1);
    StepTaken(ns, trace, ops, statuses, 2);
    FirstCreated(ns, 2, statuses[0], trace[1]);
    OneInstalled(ns, trace[1], statuses[1], trace[2], 1, 10, 7, 2, None, false);
    RootInstalled(ns, trace[2], statuses[2], trace[3]);
  }

  /** A region that a running method has created under the root. */
  function TemporaryTree(): Namespace {
    Namespace(map[0 := Device, 1 := OpRegion], map[1 := 0], map[0 := [1], 1 := []], map[0 := 0, 1 := 1], 1, {1})
  }

  const TEMPORARY_HISTORY := [Create(5, 1, 0), Initialize(5), Install(0, 0, 10, 7)]

  /** The walk from node 0 does not get to the region at node 1 below. */
  ghost predicate TemporaryBelow(ns: Namespace) {
    && Tree(ns) && {0, 1} <= ns.kind.Keys && 1 in ns.parent && ns.parent[1] == 0
    && MayHaveHandlers(ns.kind[0]) && ns.kind[1] == OpRegion
    && Nearest(ns, map[], 0) == None && Nearest(ns, map[0 := 7], 0) == Some(7)
    && !Reaches(ns, Walking(ns, map[]), 0, 1)
  }

  lemma TemporarySearches()
    ensures TemporaryBelow(TemporaryTree())
  {
    var ns := TemporaryTree();
    assert ns.parent[1] == 0;
  }

  lemma InitializedWithout(ns: Namespace, a: Snapshot, n: Node, status: Status, b: Snapshot)
    requires Tree(ns) && n in ns.parent && OneRegion(a, n, None, false) && a.handlers == map[] && a.chains == map[]
    requires Nearest(ns, map[], ns.parent[n]) == None && Performed(ns, a, Initialize(5), status, b)
    ensures status == Ok && OneRegion(b, n, None, true) && b.handlers == map[] && b.chains == map[]
    ensures FoundFor(b.handlers, b.chains, 0) == map[]
  {
    assert FoundFor(a.handlers, a.chains, 0) == map[];
    assert InitializedAt(a.regions, b.regions, 5, None, 5);
  }

  /** The walk does not get to the region, which is left without the handler installed at the root. */
  lemma TemporaryIsMissed(ns: Namespace, trace: seq<Snapshot>, statuses: seq<Status>)
    requires TemporaryBelow(ns) && TraceOf(ns, trace, TEMPORARY_HISTORY, statuses) && trace[0] == Empty()
    ensures statuses == [Ok, Ok, Ok]
    ensures OneRegion(trace[3], 1, None, true) && !IndexAgrees(ns, trace[3])
  {
    var ops := TEMPORARY_HISTORY;
    StepTaken(ns, trace, ops, statuses, 0);
    StepTaken(ns, trace, ops, statuses, 1);
    StepTaken(ns, trace, ops, statuses, 2);
    FirstCreated(ns, 1, statuses[0], trace[1]);
    InitializedWithout(ns, trace[1], 1, statuses[1], trace[2]);
    OneInstalled(ns, trace[2], statuses[2], trace[3], 0, 10, 7, 1, None, true);
    OneRegionAgrees(ns, trace[3], 1, None, true);
  }

  /** The histories can be run from the start. */
  method RunProcessorHistory() returns (interpreter: Interpreter)
    ensures interpreter.Valid() && interpreter.ns == ProcessorTree()
    ensures !IndexAgrees(ProcessorTree(), interpreter.Now())
  {
    ProcessorSearches();
    interpreter := new Interpreter(ProcessorTree());
    ghost var trace;
    var statuses;
    statuses, trace := interpreter.Run(PROCESSOR_HISTORY);
    ProcessorIsOvertaken(ProcessorTree(), trace, statuses);
  }

  method RunTemporaryHistory() returns (interpreter: Interpreter)
    ensures interpreter.Valid() && interpreter.ns == TemporaryTree()
    ensures !IndexAgrees(TemporaryTree(), interpreter.Now())
  {
    TemporarySearches();
    interpreter := new Interpreter(TemporaryTree());
    ghost var trace;
    var statuses;
    statuses, trace := interpreter.Run(TEMPORARY_HISTORY);
    TemporaryIsMissed(TemporaryTree(), trace, statuses);
  }

  class Interpreter {
    const ns: Namespace
    var regions: Regions
    var handlers: Handlers
    var heads: Heads                 // nodes with an attached device object, and the head of its handler list
    var regionAt: map<Node, Region>  // region objects attached to nodes
    ghost var lists: Lists
    ghost var chains: Chains

    ghost predicate Valid()
      reads this
    {
      && Tree(ns) && Associated(regions, handlers, lists) && Chained(handlers, heads, chains)
      && RegionsPlaced(ns, regions, regionAt)
      && (forall n :: n in heads ==> n in ns.kind && MayHaveHandlers(ns.kind[n]))
    }

    ghost function Now(): Snapshot
      reads this
    {
      Snapshot(regions, handlers, heads, regionAt, chains)
    }

    /** A namespace without handlers or regions. */
    constructor (ns: Namespace)
      requires Tree(ns)
      ensures Valid() && this.ns == ns && Now() == Snapshot(map[], map[], map[], map[], map[])
      ensures Agreeing(ns, Now())
    {
      this.ns := ns;
      regions, handlers, heads, regionAt := map[], map[], map[], map[];
      lists, chains := map[], map[];
    }

    method AttachRegion(h: Handler, r: Region) returns (status: Status)
      requires Valid() && h in handlers && r in regions && regions[r].space == handlers[h].space
      modifies `regions, `handlers, `lists
      ensures Valid() && SameHandlers(old(handlers), handlers)
      ensures status == if old(regions)[r].handler.Some? then AlreadyExists else Ok
      ensures status != Ok ==> regions == old(regions) && handlers == old(handlers)
      ensures status == Ok ==> Rehandled(old(regions), regions, {old(regions)[r].node}, old(handlers)[h].space, h)
    {
      if regions[r].handler.Some? {
        return AlreadyExists;
      }
      AttachKeeps(regions, handlers, lists, h, r);
      AttachEffect(ns, regions, handlers, regionAt, h, r);
      var list := handlers[h].regionList;
      regions := regions[r := regions[r].(next := list, handler := Some(h))];
      handlers := handlers[h := handlers[h].(regionList := Some(r), references := handlers[h].references + 1)];
      lists := lists[h := [r] + lists[h]];
      ChainedFrame(old(handlers), handlers, heads, chains);
      return Ok;
    }

    /** Looks for the region in its handler's list; `last` is the element before it, none for the list head. */
    method FindInList(h: Handler, r: Region, ghost list: seq<Region>) returns (last: Option<Region>, ghost k: int)
      requires h in handlers && ListOk(regions, h, handlers[h], list) && r in list
      ensures 0 <= k < |list| && list[k] == r && last == Nth(list, k - 1)
    {
      k := 0;
      var obj := handlers[h].regionList;
      var start := obj;
      last := None;
      while obj.Some? && obj.value != r
        invariant 0 <= k < |list| && obj == Some(list[k]) && last == Nth(list, k - 1)
        invariant start == Some(list[0]) && r in list[k..]
        decreases |list| - k
      {
        assert ElementOk(regions, h, handlers[h].space, list, k);
        last := obj;
        obj := regions[obj.value].next;
        k := k + 1;
        if obj == start {  // a circular list, which ListOk excludes
          assert false;
        }
      }
    }

    /** Finds the region in its handler's list and unlinks it there; the search always ends at the region. */
    method DetachRegion(r: Region)
      requires Valid() && r in regions
      modifies `regions, `handlers, `lists
      ensures Valid() && SameHandlers(old(handlers), handlers)
      ensures Unhandled(old(regions), regions, r)
    {
      assert RegionOk(regions, handlers, lists, r);
      if regions[r].handler.None? {
        return;
      }
      var h := regions[r].handler.value;
      assert HandlerOk(regions, handlers, lists, h);
      ghost var list := lists[h];
      ghost var k;
      var last;
      last, k := FindInList(h, r, list);
      DetachKeeps(regions, handlers, lists, h, k);
      DetachEffect(ns, regions, handlers, regionAt, h, list, k);
      var next := regions[r].next;
      if last.Some? {
        regions := regions[last.value := regions[last.value].(next := next)];
      }
      handlers := handlers[h := handlers[h].(regionList := if last.None? then next else handlers[h].regionList,
                                             references := handlers[h].references - 1)];
      regions := regions[r := regions[r].(next := None, handler := None)];
      lists := lists[h := Without(list, k)];
      ChainedFrame(old(handlers), handlers, heads, chains);
    }

    /** Walks the handler list that starts at `head`. */
    method FindRegionHandler(space: int, head: Option<Handler>, ghost chain: seq<Handler>, ghost n: Node)
      returns (h: Option<Handler>)
      requires ChainOk(handlers, head, chain, n)
      ensures h == Lookup(handlers, chain, space)
    {
      h := head;
      ghost var i := 0;
      while h.Some?
        invariant 0 <= i <= |chain| && h == Nth(chain, i)
        invariant Lookup(handlers, chain, space) == Lookup(handlers, chain[i..], space)
        decreases |chain| - i
      {
        assert ChainLink(handlers, chain, n, i);
        if handlers[h.value].space == space {
          return;
        }
        h := handlers[h.value].next;
        i := i + 1;
      }
    }

    /** A region object created by AML, unless the node has one; it starts without a handler and uninitialized. */
    method CreateRegion(r: Region, n: Node, space: int)
      requires Valid() && r !in regions && n in ns.parent && n in ns.kind && ns.kind[n] == OpRegion
      modifies `regions, `regionAt
      ensures Valid()
      ensures if n in old(regionAt) then regions == old(regions) && regionAt == old(regionAt)
              else (regions == old(regions)[r := RegionObj(n, space, None, None, false)]
                    && regionAt == old(regionAt)[n := r])
    {
      if n in regionAt {
        return;
      }
      regions := regions[r := RegionObj(n, space, None, None, false)];
      regionAt := regionAt[n := r];
      forall q
        ensures RegionPlaced(ns, regions, regionAt, q)
      {
        assert RegionPlaced(ns, old(regions), old(regionAt), q);
      }
      forall k
        ensures NodePlaced(regions, regionAt, k)
      {
        assert NodePlaced(old(regions), old(regionAt), k);
      }
      forall q
        ensures RegionOk(regions, handlers, lists, q)
      {
        assert RegionOk(old(regions), handlers, lists, q);
      }
      forall h
        ensures HandlerOk(regions, handlers, lists, h)
      {
        assert HandlerOk(old(regions), handlers, lists, h);
        if h in handlers {
          forall i
            ensures ElementOk(regions, h, handlers[h].space, lists[h], i)
          {
            assert ElementOk(old(regions), h, handlers[h].space, lists[h], i);
          }
        }
      }
    }

    /** Searches upward from the region's node and attaches the region to the first handler found. */
    method InitializeRegion(r: Region)
      requires Valid() && r in regions
      modifies `regions, `handlers, `lists
      ensures Valid() && SameHandlers(old(handlers), handlers)
      ensures old(regions)[r].initialized ==> regions == old(regions)
      ensures !old(regions)[r].initialized ==>
                && old(regions)[r].node in ns.parent
                && (var near := NearestFor(ns, old(handlers), chains, old(regions)[r]);
                    Initialized(old(regions), regions, r,
                                if old(regions)[r].handler.Some? then old(regions)[r].handler else near))
    {
      assert RegionPlaced(ns, regions, regionAt, r);
      if regions[r].initialized {
        return;
      }
      ghost var before := regions;
      MarkInitialized(r);
      ghost var marked := regions;
      InitializedOnly(before, r);
      var space := regions[r].space;
      var h := SearchUpward(ns.parent[regions[r].node], space);
      if h.Some? {
        var _ := AttachRegion(h.value, r);
        InitializedBy(ns, regionAt, before, marked, regions, r, space, h.value);
      }
    }

    /** The loop over the node and its ancestors, up to the first with a handler for the address space. */
    method SearchUpward(start: Node, space: int) returns (h: Option<Handler>)
      requires Valid() && start in ns.kind
      ensures h == Nearest(ns, FoundFor(handlers, chains, space), start)
      ensures h.Some? ==> h.value in handlers && handlers[h.value].space == space
    {
      ghost var found := FoundFor(handlers, chains, space);
      var node: Option<Node> := Some(start);
      while node.Some?
        invariant node.Some? ==> node.value in ns.kind
        invariant Nearest(ns, found, start) == if node.Some? then Nearest(ns, found, node.value) else None
        decreases if node.Some? then ns.depth[node.value] + 1 else 0
      {
        var n := node.value;
        if n in heads {
          h := None;
          match ns.kind[n] {
            case Device | Processor | Thermal => h := heads[n];
            case _ =>
          }
          assert ChainAt(handlers, heads, chains, n);
          h := FindRegionHandler(space, h, chains[n], n);
          if h.Some? {
            return;
          }
        }
        node := if n in ns.parent then Some(ns.parent[n]) else None;
      }
      h := None;
    }

    method MarkInitialized(r: Region)
      requires Valid() && r in regions
      modifies `regions
      ensures Valid() && regions == old(regions)[r := old(regions)[r].(initialized := true)]
    {
      regions := regions[r := regions[r].(initialized := true)];
      PlacedFrame(ns, old(regions), regions, regionAt);
      forall q
        ensures RegionOk(regions, handlers, lists, q)
      {
        assert RegionOk(old(regions), handlers, lists, q);
      }
      forall h
        ensures HandlerOk(regions, handlers, lists, h)
      {
        assert HandlerOk(old(regions), handlers, lists, h);
        if h in handlers {
          forall i
            ensures ElementOk(regions, h, handlers[h].space, lists[h], i)
          {
            assert ElementOk(old(regions), h, handlers[h].space, lists[h], i);
          }
        }
      }
    }

    /** The walk callback: turn back at a device with a handler of its own, move a region of the address space. */
    method InstallHandler(n: Node, h: Handler) returns (status: WalkStatus)
      requires Valid() && n in ns.kind && h in handlers
      modifies `regions, `handlers, `lists
      ensures Valid() && SameHandlers(old(handlers), handlers)
      ensures status == SkipBelow <==> n in Blocking(ns, FoundFor(old(handlers), chains, old(handlers)[h].space))
      ensures Rehandled(old(regions), regions, {n}, old(handlers)[h].space, h)
    {
      ghost var before := regions;
      if ns.kind[n] != Device && ns.kind[n] != OpRegion {
        NoRegionHere(ns, regions, regionAt, n, handlers[h].space, h);
        return GoOn;
      }
      if ns.kind[n] == Device {
        NoRegionHere(ns, regions, regionAt, n, handlers[h].space, h);
        if n !in heads {
          return GoOn;
        }
        assert ChainAt(handlers, heads, chains, n);
        var other := FindRegionHandler(handlers[h].space, heads[n], chains[n], n);
        return if other.Some? then SkipBelow else GoOn;
      }
      if n !in regionAt {
        NoRegionHere(ns, regions, regionAt, n, handlers[h].space, h);
        return GoOn;
      }
      var r := regionAt[n];
      assert NodePlaced(regions, regionAt, n);
      if regions[r].space != handlers[h].space {
        OtherSpaceHere(ns, regions, regionAt, n, handlers[h].space, h);
        return GoOn;
      }
      DetachRegion(r);
      ghost var middle := regions;
      ghost var between := handlers;
      assert UnhandledAt(before, middle, r, r) && SameObject(old(handlers), between, h);
      var _ := AttachRegion(h, r);
      assert SameObject(between, handlers, h);
      Moved(ns, regionAt, before, middle, regions, r, handlers[h].space, h);
      SameHandlersCompose(old(handlers), between, handlers);
      FoundFrame(old(handlers), handlers, chains, handlers[h].space);
      return GoOn;
    }

    /**
     * The walk's visit of node `c` and of what is below it, unless it is temporary or the callback says to stop there.
     */
    method VisitSubtree(c: Node, h: Handler)
      requires Valid() && c in ns.kind && h in handlers
      modifies `regions, `handlers, `lists
      ensures Valid() && SameHandlers(old(handlers), handlers)
      ensures Rehandled(old(regions), regions,
                        Subtree(ns, Walking(ns, FoundFor(old(handlers), chains, old(handlers)[h].space)), c),
                        old(handlers)[h].space, h)
      decreases ns.height - ns.depth[c], 2
    {
      ghost var before := regions;
      ghost var limits := Walking(ns, FoundFor(handlers, chains, handlers[h].space));
      if c in ns.temporary {
        SameHandlersReflexive(handlers);
        RehandledNone(regions, Subtree(ns, limits, c), handlers[h].space, h);
        return;
      }
      var status := InstallHandler(c, h);
      ghost var middle, between := regions, handlers;
      if status == GoOn {
        SameFound(old(handlers), between, chains, h);
        WalkNamespace(c, h);
        RehandledCompose(before, middle, regions, {c}, Reached(ns, limits, c), old(handlers)[h].space, h);
        SameHandlersCompose(old(handlers), between, handlers);
        assert Subtree(ns, limits, c) == {c} + Reached(ns, limits, c);
      } else {
        assert Subtree(ns, limits, c) == {c};
      }
    }

    /** The pre-order walk below node `n` with InstallHandler as its callback. */
    method WalkNamespace(n: Node, h: Handler)
      requires Valid() && n in ns.kind && h in handlers
      modifies `regions, `handlers, `lists
      ensures Valid() && SameHandlers(old(handlers), handlers)
      ensures Rehandled(old(regions), regions,
                        Reached(ns, Walking(ns, FoundFor(old(handlers), chains, old(handlers)[h].space)), n),
                        old(handlers)[h].space, h)
      decreases ns.height - ns.depth[n], 1
    {
      ghost var space := handlers[h].space;
      ghost var limits := Walking(ns, FoundFor(handlers, chains, space));
      SameHandlersReflexive(handlers);
      RehandledNone(regions, Visited(ns, limits, n, 0), space, h);
      for i := 0 to |ns.children[n]|
        invariant Valid() && SameHandlers(old(handlers), handlers)
        invariant Rehandled(old(regions), regions, Visited(ns, limits, n, i), space, h)
      {
        ghost var before, between := regions, handlers;
        SameFound(old(handlers), between, chains, h);
        var c := ns.children[n][i];
        VisitSubtree(c, h);
        WalkedFurther(ns, limits, n, i, old(regions), before, regions, space, h);
        SameHandlersCompose(old(handlers), between, handlers);
      }
      VisitedAll(ns, limits, n);
    }

    /** A handler already there is found by the check that precedes installation. */
    method Existing(n: Node, space: int) returns (h: Option<Handler>)
      requires Valid() && n in ns.kind
      ensures h == Lookup(handlers, ChainBefore(chains, n), space)
      ensures h.Some? <==> n in FoundFor(handlers, chains, space)
      ensures h.Some? ==> h.value in handlers
    {
      h := None;
      if n in heads {
        assert ChainAt(handlers, heads, chains, n);
        h := FindRegionHandler(space, heads[n], chains[n], n);
      }
    }

    /** Links a new handler object at the head of the list of node `n`, creating a device object if it has none. */
    method LinkHandler(n: Node, space: int, address: int, h: Handler)
      requires Valid() && n in ns.kind && h !in handlers && MayHaveHandlers(ns.kind[n])
      modifies `handlers, `heads, `chains, `lists
      ensures Valid()
      ensures handlers == Added(old(handlers), old(heads), h, n, space, address)
      ensures heads == old(heads)[n := Some(h)]
      ensures chains == old(chains)[n := [h] + ChainBefore(old(chains), n)]
    {
      AddedAssociated(regions, handlers, lists, h, Added(handlers, heads, h, n, space, address)[h]);
      AddedChained(handlers, heads, chains, h, n, space, address);
      if n !in heads {
        heads := heads[n := None];
      }
      handlers := handlers[h := HandlerObj(n, space, address, None, heads[n], 1)];
      heads := heads[n := Some(h)];
      chains := chains[n := [h] + ChainBefore(chains, n)];
      lists := lists[h := []];
      assert handlers == Added(old(handlers), old(heads), h, n, space, address);
      assert heads == old(heads)[n := Some(h)];
    }

    /** `h` is the handler object to be allocated. */
    method InstallSpaceHandler(n: Node, space: int, address: int, h: Handler) returns (status: Status)
      requires Valid() && n in ns.kind && h !in handlers
      modifies `regions, `handlers, `heads, `lists, `chains
      ensures Valid()
      ensures status == InstallStatus(ns, old(handlers), old(chains), n, space, address)
      ensures if status == Ok then InstalledBy(ns, old(Now()), Now(), n, space, address, h) else Now() == old(Now())
    {
      if !MayHaveHandlers(ns.kind[n]) {
        return BadParameter;
      }
      var existing := Existing(n, space);
      if existing.Some? {
        if handlers[existing.value].address == address {
          return SameHandler;
        }
        return AlreadyExists;
      }
      InstalledOnlyAdded(handlers, heads, chains, h, n, space, address);
      LinkHandler(n, space, address, h);
      ReachedFromNew(ns, FoundFor(old(handlers), old(chains), space), n, h);
      assert InstalledFound(old(handlers), old(chains), handlers, chains, n, space, h, space);
      WalkNamespace(n, h);
      return Ok;
    }

    // ----- Whole histories

    method Perform(op: Op) returns (status: Status)
      requires Valid()
      modifies this
      ensures Valid() && Performed(ns, old(Now()), op, status, Now())
    {
      if !CanPerform(op) {
        return NotPossible;
      }
      match op {
        case Create(r, n, space) =>
          CreateRegion(r, n, space);
          return Ok;
        case Initialize(r) =>
          InitializeRegion(r);
          return Ok;
        case Install(n, space, address, h) =>
          status := InstallSpaceHandler(n, space, address, h);
      }
    }

    predicate CanPerform(op: Op)
      reads this
      ensures CanPerform(op) == Possible(ns, Now(), op)
    {
      match op
      case Create(r, n, space) => r !in regions && n in ns.parent && n in ns.kind && ns.kind[n] == OpRegion
      case Initialize(r) => r in regions
      case Install(n, space, address, h) => n in ns.kind && h !in handlers
    }

    /** A history, with the snapshots it goes through. */
    method Run(ops: seq<Op>) returns (statuses: seq<Status>, ghost trace: seq<Snapshot>)
      requires Valid()
      modifies this
      ensures Valid() && TraceOf(ns, trace, ops, statuses) && trace[0] == old(Now()) && trace[|ops|] == Now()
      ensures Agreeing(ns, old(Now())) && (forall op :: op in ops ==> Regular(ns, op)) ==>
                forall k :: 0 <= k <= |ops| ==> Agreeing(ns, trace[k])
    {
      statuses, trace := [], [Now()];
      for i := 0 to |ops|
        invariant Valid() && |trace| == i + 1 && trace[0] == old(Now()) && trace[i] == Now()
        invariant TraceOf(ns, trace, ops[..i], statuses)
      {
        ghost var before, done, next := trace, statuses, ops[..i + 1];
        var status := Perform(ops[i]);
        statuses := statuses + [status];
        trace := trace + [Now()];
        forall k
          ensures StepOf(ns, trace, next, statuses, k)
        {
          assert StepOf(ns, before, ops[..i], done, k);
        }
      }
      assert ops[..|ops|] == ops;
      if Agreeing(ns, old(Now())) && forall op :: op in ops ==> Regular(ns, op) {
        forall k | 0 <= k <= |ops|
          ensures Agreeing(ns, trace[k])
        {
          RunKeepsIndex(ns, trace, ops, statuses, k);
        }
      }
    }
  }
}
