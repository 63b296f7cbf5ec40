/**
 * The scoping rule of address-space handlers over an arbitrary finite namespace: which handler is nearest, and which
 * nodes a walk down from a new handler reaches.
 */
module Scoping {
  import opened RegionLists
  import opened Wrappers

  datatype Kind = Device | Processor | Thermal | OpRegion | Other

  /** A finite tree; the root has no parent. Temporary nodes are those a method has created while it runs. */
  datatype Namespace = Namespace(
    kind: map<Node, Kind>,
    parent: map<Node, Node>,
    children: map<Node, seq<Node>>,
    depth: map<Node, nat>,
    height: nat,
    temporary: set<Node>
  )

  ghost predicate Tree(ns: Namespace) {
    && ns.children.Keys == ns.kind.Keys && ns.depth.Keys == ns.kind.Keys && ns.parent.Keys <= ns.kind.Keys
    && (forall n :: n in ns.kind ==> ns.depth[n] <= ns.height)
    && (forall n :: n in ns.parent ==>
          ns.parent[n] in ns.kind && ns.depth[n] == ns.depth[ns.parent[n]] + 1 && n in ns.children[ns.parent[n]])
    && (forall p, i :: p in ns.kind && 0 <= i < |ns.children[p]| ==>
          ns.children[p][i] in ns.parent && ns.parent[ns.children[p][i]] == p)
  }

  /** For one address space: the handler found at each node that has one. */
  type Found = map<Node, Handler>

  /** The search upward: the handler of the first node on the way to the root that has one. */
  function Nearest(ns: Namespace, found: Found, n: Node): Option<Handler>
    requires Tree(ns) && n in ns.kind
    decreases ns.depth[n]
  {
    if n in found then Some(found[n])
    else if n in ns.parent then Nearest(ns, found, ns.parent[n])
    else None
  }

  /** Which nodes a walk leaves out with all that is below, and which it visits without going on below. */
  datatype Limits = Limits(skipped: set<Node>, blocked: set<Node>)

  /** Node `m` lies below `n`, with no skipped node on the way to it and no blocking node strictly between. */
  predicate Reaches(ns: Namespace, limits: Limits, n: Node, m: Node)
    requires Tree(ns) && m in ns.kind
    decreases ns.depth[m]
  {
    && m in ns.parent && m !in limits.skipped
    && (ns.parent[m] == n || (ns.parent[m] !in limits.blocked && Reaches(ns, limits, n, ns.parent[m])))
  }

  /** The nodes below `n` up to the existing handlers, temporary or not. */
  function Past(found: Found): Limits {
    Limits({}, found.Keys)
  }

  /** A new handler at `n` becomes the nearest one for exactly the nodes it reaches past the existing handlers. */
  lemma {:induction false} NearestAfterInstall(ns: Namespace, found: Found, n: Node, h: Handler, m: Node)
    requires Tree(ns) && m in ns.parent && n !in found
    ensures Nearest(ns, found[n := h], ns.parent[m])
            == if Reaches(ns, Past(found), n, m) then Some(h) else Nearest(ns, found, ns.parent[m])
    decreases ns.depth[m]
  {
    var p := ns.parent[m];
    if p != n && p !in found && p in ns.parent {
      NearestAfterInstall(ns, found, n, h, p);
    }
  }

  /** A node that is not temporary nor below one that is. */
  predicate Permanent(ns: Namespace, m: Node)
    requires Tree(ns) && m in ns.kind
    decreases ns.depth[m]
  {
    m !in ns.temporary && (m in ns.parent ==> Permanent(ns, ns.parent[m]))
  }

  /** A walk that skips temporary nodes reaches no more than one that does not, and no less among permanent nodes. */
  lemma {:induction false} SkippingTemporary(ns: Namespace, blocked: set<Node>, n: Node, m: Node)
    requires Tree(ns) && m in ns.kind
    ensures Reaches(ns, Limits(ns.temporary, blocked), n, m) ==> Reaches(ns, Limits({}, blocked), n, m)
    ensures Permanent(ns, m) ==>
              Reaches(ns, Limits(ns.temporary, blocked), n, m) == Reaches(ns, Limits({}, blocked), n, m)
    decreases ns.depth[m]
  {
    if m in ns.parent && ns.parent[m] != n {
      SkippingTemporary(ns, blocked, n, ns.parent[m]);
    }
  }

  // ----- What a pre-order walk below a node covers

  /** The nodes a walk visits in the subtree of child `c`: itself and what is below, unless it is skipped or blocks. */
  predicate CoversBelow(ns: Namespace, limits: Limits, c: Node, m: Node)
    requires Tree(ns) && m in ns.kind
  {
    c !in limits.skipped && (m == c || (c !in limits.blocked && Reaches(ns, limits, c, m)))
  }

  /** What is reached from a node is what is reached through one of its children. */
  lemma {:induction false} ReachesThroughChild(ns: Namespace, limits: Limits, n: Node, m: Node)
    requires Tree(ns) && n in ns.kind && m in ns.kind && Reaches(ns, limits, n, m)
    ensures exists c :: c in ns.children[n] && CoversBelow(ns, limits, c, m)
    decreases ns.depth[m]
  {
    var p := ns.parent[m];
    if p == n {
      assert m in ns.children[n] && CoversBelow(ns, limits, m, m);
    } else {
      ReachesThroughChild(ns, limits, n, p);
      var c :| c in ns.children[n] && CoversBelow(ns, limits, c, p);
      assert CoversBelow(ns, limits, c, m);
    }
  }

  lemma {:induction false} ChildReaches(ns: Namespace, limits: Limits, n: Node, c: Node, m: Node)
    requires Tree(ns) && n in ns.kind && m in ns.kind && c in ns.children[n] && CoversBelow(ns, limits, c, m)
    ensures Reaches(ns, limits, n, m)
    decreases ns.depth[m]
  {
    var i :| 0 <= i < |ns.children[n]| && ns.children[n][i] == c;
    if m != c && ns.parent[m] != c {
      ChildReaches(ns, limits, n, c, ns.parent[m]);
    }
  }

  /** The nodes a walk from `n` visits through its first `k` children. */
  function Visited(ns: Namespace, limits: Limits, n: Node, k: nat): set<Node>
    requires Tree(ns) && n in ns.kind && k <= |ns.children[n]|
  {
    set m | m in ns.kind && exists i :: 0 <= i < k && CoversBelow(ns, limits, ns.children[n][i], m)
  }

  /** The nodes a walk visits from child `c` on. */
  function Subtree(ns: Namespace, limits: Limits, c: Node): set<Node>
    requires Tree(ns)
  {
    if c in limits.skipped then {} else {c} + if c in limits.blocked then {} else Reached(ns, limits, c)
  }

  function Reached(ns: Namespace, limits: Limits, n: Node): set<Node>
    requires Tree(ns)
  {
    set m | m in ns.kind && Reaches(ns, limits, n, m)
  }

  lemma VisitedNext(ns: Namespace, limits: Limits, n: Node, k: nat)
    requires Tree(ns) && n in ns.kind && k < |ns.children[n]|
    ensures ns.children[n][k] in ns.parent && ns.parent[ns.children[n][k]] == n
    ensures Visited(ns, limits, n, k + 1) == Visited(ns, limits, n, k) + Subtree(ns, limits, ns.children[n][k])
  {
    var c := ns.children[n][k];
    forall m | m in ns.kind
      ensures m in Visited(ns, limits, n, k + 1) <==> m in Visited(ns, limits, n, k) || m in Subtree(ns, limits, c)
    {
      if m in Visited(ns, limits, n, k + 1) {
        var i :| 0 <= i < k + 1 && CoversBelow(ns, limits, ns.children[n][i], m);
        assert i < k ==> m in Visited(ns, limits, n, k);
      }
      if m in Subtree(ns, limits, c) {
        assert CoversBelow(ns, limits, ns.children[n][k], m);
      }
      if m in Visited(ns, limits, n, k) {
        var i :| 0 <= i < k && CoversBelow(ns, limits, ns.children[n][i], m);
        assert 0 <= i < k + 1;
      }
    }
  }

  /** The whole walk visits exactly the nodes reached. */
  lemma VisitedAll(ns: Namespace, limits: Limits, n: Node)
    requires Tree(ns) && n in ns.kind
    ensures Visited(ns, limits, n, |ns.children[n]|) == Reached(ns, limits, n)
  {
    var k := |ns.children[n]|;
    forall m | m in ns.kind
      ensures m in Visited(ns, limits, n, k) <==> Reaches(ns, limits, n, m)
    {
      if m in Visited(ns, limits, n, k) {
        var i :| 0 <= i < k && CoversBelow(ns, limits, ns.children[n][i], m);
        ChildReaches(ns, limits, n, ns.children[n][i], m);
      }
      if Reaches(ns, limits, n, m) {
        ReachesThroughChild(ns, limits, n, m);
        var c :| c in ns.children[n] && CoversBelow(ns, limits, c, m);
        var i :| 0 <= i < k && ns.children[n][i] == c;
        assert CoversBelow(ns, limits, ns.children[n][i], m);
      }
    }
  }
}
