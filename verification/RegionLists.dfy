/**
 * The two-way association of operation regions and address-space handlers (dep/acpica/events/evregion.c). Every
 * field of the C structures is a map from the object to its value, so that lists are threaded through the objects
 * and updated in place.
 */
module RegionLists {
  import opened Sequences
  import opened Wrappers

  type Node = nat
  type Region = nat
  type Handler = nat

  datatype RegionObj = RegionObj(node: Node, space: int, handler: Option<Handler>, next: Option<Region>,
                                 initialized: bool)

  datatype HandlerObj = HandlerObj(node: Node, space: int, address: int, regionList: Option<Region>,
                                   next: Option<Handler>, references: nat)

  type Regions = map<Region, RegionObj>
  type Handlers = map<Handler, HandlerObj>
  type Lists = map<Handler, seq<Region>>

  function Nth(list: seq<Region>, i: int): Option<Region> {
    if 0 <= i < |list| then Some(list[i]) else None
  }

  /** Element `i` of a handler's list: where it points and whose it is. */
  ghost predicate ElementOk(regions: Regions, h: Handler, space: int, list: seq<Region>, i: int) {
    0 <= i < |list| ==>
      list[i] in regions && regions[list[i]].next == Nth(list, i + 1)
      && regions[list[i]].handler == Some(h) && regions[list[i]].space == space
  }

  /** `list` is what the handler's RegionList pointer leads through. */
  ghost predicate ListOk(regions: Regions, h: Handler, obj: HandlerObj, list: seq<Region>) {
    && Distinct(list)
    && obj.regionList == Nth(list, 0)
    && obj.references == 1 + |list|
    && forall i :: ElementOk(regions, h, obj.space, list, i)
  }

  /** The region is on the list of the handler it names, if it names one. */
  ghost predicate RegionOk(regions: Regions, handlers: Handlers, lists: Lists, r: Region) {
    r in regions ==>
      match regions[r].handler
      case None => regions[r].next == None
      case Some(h) => h in handlers && h in lists && r in lists[h]
  }

  ghost predicate HandlerOk(regions: Regions, handlers: Handlers, lists: Lists, h: Handler) {
    h in handlers && h in lists ==> ListOk(regions, h, handlers[h], lists[h])
  }

  /** All lists are well formed, and a region is on the list of exactly the handler it names. */
  ghost predicate Associated(regions: Regions, handlers: Handlers, lists: Lists) {
    && lists.Keys == handlers.Keys
    && (forall h :: HandlerOk(regions, handlers, lists, h))
    && (forall r :: RegionOk(regions, handlers, lists, r))
  }

  function Attached(regions: Regions, handlers: Handlers, h: Handler, r: Region): (Regions, Handlers)
    requires r in regions && h in handlers
  {
    (regions[r := regions[r].(next := handlers[h].regionList, handler := Some(h))],
     handlers[h := handlers[h].(regionList := Some(r), references := handlers[h].references + 1)])
  }

  lemma AttachKeeps(regions: Regions, handlers: Handlers, lists: Lists, h: Handler, r: Region)
    requires Associated(regions, handlers, lists)
    requires r in regions && h in handlers && regions[r].handler == None && regions[r].space == handlers[h].space
    ensures var (regions', handlers') := Attached(regions, handlers, h, r);
            Associated(regions', handlers', lists[h := [r] + lists[h]])
  {
    var (regions', handlers') := Attached(regions, handlers, h, r);
    var lists' := lists[h := [r] + lists[h]];
    forall k
      ensures HandlerOk(regions', handlers', lists', k)
    {
      if k in handlers {
        AttachKeepsList(regions, handlers, lists, h, r, k);
      }
    }
    forall q
      ensures RegionOk(regions', handlers', lists', q)
    {
      assert RegionOk(regions, handlers, lists, q);
    }
  }

  lemma AttachKeepsList(regions: Regions, handlers: Handlers, lists: Lists, h: Handler, r: Region, k: Handler)
    requires Associated(regions, handlers, lists)
    requires r in regions && h in handlers && regions[r].handler == None && regions[r].space == handlers[h].space
    requires k in handlers
    ensures var (regions', handlers') := Attached(regions, handlers, h, r);
            ListOk(regions', k, handlers'[k], if k == h then [r] + lists[h] else lists[k])
  {
    var (regions', handlers') := Attached(regions, handlers, h, r);
    assert HandlerOk(regions, handlers, lists, k);
    var list := if k == h then [r] + lists[h] else lists[k];
    forall i
      ensures ElementOk(regions', k, handlers'[k].space, list, i)
    {
      if k == h {
        assert ElementOk(regions, k, handlers[k].space, lists[k], i - 1);
      } else {
        assert ElementOk(regions, k, handlers[k].space, lists[k], i);
      }
    }
    forall i, j | 0 <= i < j < |list|
      ensures list[i] != list[j]
    {
      if k == h {
        assert ElementOk(regions, k, handlers[k].space, lists[k], j - 1);
      }
    }
  }

  /** Unlinking element `k` of the list of `h`, and forgetting the association. */
  function Detached(regions: Regions, handlers: Handlers, h: Handler, list: seq<Region>, k: int): (Regions, Handlers)
    requires h in handlers && 0 <= k < |list| && forall q :: q in list ==> q in regions
    requires handlers[h].references > 0
  {
    var r := list[k];
    var linked := if k == 0 then regions else regions[list[k - 1] := regions[list[k - 1]].(next := regions[r].next)];
    (linked[r := regions[r].(next := None, handler := None)],
     handlers[h := handlers[h].(regionList := if k == 0 then regions[r].next else handlers[h].regionList,
                                references := handlers[h].references - 1)])
  }

  lemma ListMembers(regions: Regions, h: Handler, obj: HandlerObj, list: seq<Region>)
    requires ListOk(regions, h, obj, list)
    ensures forall q :: q in list ==> q in regions && regions[q].handler == Some(h) && regions[q].space == obj.space
  {
    forall q | q in list
      ensures q in regions && regions[q].handler == Some(h) && regions[q].space == obj.space
    {
      var i :| 0 <= i < |list| && list[i] == q;
      assert ElementOk(regions, h, obj.space, list, i);
    }
  }

  /** The list the region leaves: its neighbours now meet. */
  lemma DetachKeepsOwnList(regions: Regions, handlers: Handlers, h: Handler, list: seq<Region>, k: int)
    requires h in handlers && ListOk(regions, h, handlers[h], list) && 0 <= k < |list|
    requires forall q :: q in list ==> q in regions
    ensures var (regions', handlers') := Detached(regions, handlers, h, list, k);
            ListOk(regions', h, handlers'[h], Without(list, k))
  {
    var (regions', handlers') := Detached(regions, handlers, h, list, k);
    var space := handlers[h].space;
    assert ElementOk(regions, h, space, list, k);
    forall i
      ensures ElementOk(regions', h, space, Without(list, k), i)
    {
      assert ElementOk(regions, h, space, list, if i < k then i else i + 1);
    }
    assert ElementOk(regions, h, space, list, 0);
  }

  /** The other lists share no region with it, and stay as they are. */
  lemma DetachKeepsOtherList(regions: Regions, handlers: Handlers, h: Handler, list: seq<Region>, k: int, g: Handler,
                             other: seq<Region>)
    requires h in handlers && ListOk(regions, h, handlers[h], list) && 0 <= k < |list|
    requires g in handlers && g != h && ListOk(regions, g, handlers[g], other)
    requires forall q :: q in list ==> q in regions && regions[q].handler == Some(h)
    ensures var (regions', handlers') := Detached(regions, handlers, h, list, k);
            ListOk(regions', g, handlers'[g], other)
  {
    var (regions', handlers') := Detached(regions, handlers, h, list, k);
    assert list[k] in list && (k > 0 ==> list[k - 1] in list);
    forall i
      ensures ElementOk(regions', g, handlers[g].space, other, i)
    {
      assert ElementOk(regions, g, handlers[g].space, other, i);
    }
  }

  lemma DetachKeeps(regions: Regions, handlers: Handlers, lists: Lists, h: Handler, k: int)
    requires Associated(regions, handlers, lists)
    requires h in handlers && 0 <= k < |lists[h]|
    ensures forall q :: q in lists[h] ==> q in regions
    ensures handlers[h].references > 0
    ensures var (regions', handlers') := Detached(regions, handlers, h, lists[h], k);
            Associated(regions', handlers', lists[h := Without(lists[h], k)])
  {
    assert HandlerOk(regions, handlers, lists, h);
    ListMembers(regions, h, handlers[h], lists[h]);
    var (regions', handlers') := Detached(regions, handlers, h, lists[h], k);
    var lists' := lists[h := Without(lists[h], k)];
    forall g
      ensures HandlerOk(regions', handlers', lists', g)
    {
      if g in handlers {
        assert HandlerOk(regions, handlers, lists, g);
        if g == h {
          DetachKeepsOwnList(regions, handlers, h, lists[h], k);
        } else {
          DetachKeepsOtherList(regions, handlers, h, lists[h], k, g, lists[g]);
        }
      }
    }
    forall q
      ensures RegionOk(regions', handlers', lists', q)
    {
      assert RegionOk(regions, handlers, lists, q);
      if q in lists[h] && q != lists[h][k] {
        var i :| 0 <= i < |lists[h]| && lists[h][i] == q;
        assert Without(lists[h], k)[if i < k then i else i - 1] == q;
      }
    }
  }
}
