/**
 * The lists of GPE blocks, one per interrupt, and the numbering of GPEs across them (dep/acpica/events/evgpeblk.c,
 * evgpeutil.c).
 */
module GpeLists {
  import opened MachineWords
  import opened Sequences
  import GpeNumbering
  import opened Wrappers

  datatype Status = Ok | NotExist | InstallFailed

  class BlockInfo {
    const gpeCount: uint16
    const registerCount: uint32
    const blockBaseNumber: uint16
    const node: nat
    const onDevice: bool  // the node's type is ACPI_TYPE_DEVICE
    var next: BlockInfo?
    var previous: BlockInfo?
    var xruptBlock: XruptInfo?

    constructor (registerCount: uint32, blockBaseNumber: uint16, node: nat, onDevice: bool)
      ensures next == null && previous == null
      ensures gpeCount == registerCount * GpeNumbering.REGISTER_WIDTH % TWO16
      ensures this.registerCount == registerCount && this.blockBaseNumber == blockBaseNumber
      ensures this.node == node && this.onDevice == onDevice
    {
      this.gpeCount := registerCount * GpeNumbering.REGISTER_WIDTH % TWO16;
      this.registerCount, this.blockBaseNumber := registerCount, blockBaseNumber;
      this.node, this.onDevice := node, onDevice;
      next, previous, xruptBlock := null, null, null;
    }
  }

  function BlockAt(blocks: seq<BlockInfo>, i: int): BlockInfo? {
    if 0 <= i < |blocks| then blocks[i] else null
  }

  /** The descriptor of one interrupt, with the doubly linked list of its GPE blocks. */
  class XruptInfo {
    const interruptNumber: uint32
    ghost const accepted: bool  // whether the OS accepted its handler when the descriptor was made
    var next: XruptInfo?
    var previous: XruptInfo?
    var gpeBlockListHead: BlockInfo?
    ghost var blocks: seq<BlockInfo>

    constructor (interruptNumber: uint32, ghost accepted: bool)
      ensures this.interruptNumber == interruptNumber && this.accepted == accepted
      ensures next == null && previous == null && blocks == [] && Linked()
    {
      this.interruptNumber, this.accepted := interruptNumber, accepted;
      next, previous, gpeBlockListHead := null, null, null;
      blocks := [];
    }

    ghost predicate LinkAt(i: int)
      reads `blocks, blocks
    {
      0 <= i < |blocks| ==>
        blocks[i].previous == BlockAt(blocks, i - 1) && blocks[i].next == BlockAt(blocks, i + 1)
          && blocks[i].xruptBlock == this
    }

    ghost predicate Linked()
      reads `gpeBlockListHead, `blocks, blocks
    {
      gpeBlockListHead == BlockAt(blocks, 0) && Distinct(blocks) && forall i :: LinkAt(i)
    }

    /** Installs the block at the end of the list. */
    method Append(block: BlockInfo)
      requires Linked() && block !in blocks && block.next == null && block.previous == null
      modifies `gpeBlockListHead, `blocks, block, blocks
      ensures Linked() && blocks == old(blocks) + [block]
    {
      if gpeBlockListHead != null {
        assert LinkAt(0);
        var last := gpeBlockListHead;
        ghost var k := 0;
        while last.next != null
          invariant 0 <= k < |blocks| && last == blocks[k] && LinkAt(k)
          decreases |blocks| - k
        {
          assert LinkAt(k + 1);
          last := last.next;
          k := k + 1;
        }
        last.next := block;
        block.previous := last;
      } else {
        gpeBlockListHead := block;
      }
      block.xruptBlock := this;
      blocks := blocks + [block];
      forall i
        ensures LinkAt(i)
      {
        assert old(LinkAt(i));
      }
    }

    /** Unlinks a block that is not the only one. */
    method Unlink(block: BlockInfo, ghost k: int)
      requires Linked() && 0 <= k < |blocks| && blocks[k] == block && (block.previous != null || block.next != null)
      modifies `gpeBlockListHead, `blocks, blocks
      ensures Linked() && blocks == Without(old(blocks), k)
    {
      assert LinkAt(k) && LinkAt(k - 1) && LinkAt(k + 1);
      if block.previous != null {
        block.previous.next := block.next;
      } else {
        gpeBlockListHead := block.next;
      }
      if block.next != null {
        block.next.previous := block.previous;
      }
      blocks := Without(blocks, k);
      forall i
        ensures LinkAt(i)
      {
        assert old(LinkAt(if i < k then i else i + 1));
      }
    }

    /** The last block of the SCI is taken away by clearing the head; the descriptor itself stays. */
    method Clear()
      modifies `gpeBlockListHead, `blocks
      ensures Linked() && blocks == []
    {
      gpeBlockListHead := null;
      blocks := [];
    }
  }

  // ----- All blocks in walking order

  function Flatten(lists: seq<seq<BlockInfo>>): seq<BlockInfo> {
    if lists == [] then [] else lists[0] + Flatten(lists[1..])
  }

  function Total(blocks: seq<BlockInfo>): nat {
    if blocks == [] then 0 else blocks[0].gpeCount + Total(blocks[1..])
  }

  lemma {:induction false} FlattenSplit(lists: seq<seq<BlockInfo>>, i: nat)
    requires i < |lists|
    ensures Flatten(lists) == Flatten(lists[..i]) + lists[i] + Flatten(lists[i + 1..])
  {
    if i > 0 {
      FlattenSplit(lists[1..], i - 1);
      assert lists[1..][..i - 1] == lists[..i][1..];
      assert lists[1..][i..] == lists[i + 1..];
    }
  }

  lemma {:induction false} FlattenAppend(a: seq<seq<BlockInfo>>, b: seq<seq<BlockInfo>>)
    ensures Flatten(a + b) == Flatten(a) + Flatten(b)
  {
    if a == [] {
      assert a + b == b;
    } else {
      FlattenAppend(a[1..], b);
      assert (a + b)[0] == a[0] && (a + b)[1..] == a[1..] + b;
      assert a[0] + (Flatten(a[1..]) + Flatten(b)) == a[0] + Flatten(a[1..]) + Flatten(b);
    }
  }

  lemma FlattenUpdate(lists: seq<seq<BlockInfo>>, i: nat, list: seq<BlockInfo>)
    requires i < |lists|
    ensures Flatten(lists[i := list]) == Flatten(lists[..i]) + list + Flatten(lists[i + 1..])
  {
    FlattenSplit(lists[i := list], i);
    assert lists[i := list][..i] == lists[..i] && lists[i := list][i + 1..] == lists[i + 1..];
  }

  lemma FlattenWithout(lists: seq<seq<BlockInfo>>, i: nat)
    requires i < |lists|
    ensures Flatten(Without(lists, i)) == Flatten(lists[..i]) + Flatten(lists[i + 1..])
  {
    FlattenAppend(lists[..i], lists[i + 1..]);
  }

  /** Taking element `k` out of one list takes one element out of the walk. */
  lemma WithoutInWalk(lists: seq<seq<BlockInfo>>, i: nat, k: nat) returns (p: nat)
    requires i < |lists| && k < |lists[i]|
    ensures p < |Flatten(lists)| && Flatten(lists)[p] == lists[i][k]
    ensures Flatten(lists[i := Without(lists[i], k)]) == Without(Flatten(lists), p)
    ensures |lists[i]| == 1 ==> Flatten(Without(lists, i)) == Without(Flatten(lists), p)
  {
    FlattenSplit(lists, i);
    FlattenUpdate(lists, i, Without(lists[i], k));
    FlattenWithout(lists, i);
    p := |Flatten(lists[..i])| + k;
  }

  lemma {:induction false} TotalWithout(blocks: seq<BlockInfo>, p: nat)
    requires p < |blocks|
    ensures Total(blocks) == Total(Without(blocks, p)) + blocks[p].gpeCount
  {
    if p == 0 {
      assert Without(blocks, p) == blocks[1..];
    } else {
      TotalWithout(blocks[1..], p - 1);
      assert Without(blocks, p)[0] == blocks[0] && Without(blocks, p)[1..] == Without(blocks[1..], p - 1);
    }
  }

  /** The position of the descriptor of an interrupt; the number of descriptors if there is none. */
  function Find(xrupts: seq<XruptInfo>, interrupt: uint32): (i: nat)
    ensures i <= |xrupts|
    ensures i < |xrupts| ==> xrupts[i].interruptNumber == interrupt
    ensures forall j :: 0 <= j < i ==> xrupts[j].interruptNumber != interrupt
  {
    if xrupts == [] || xrupts[0].interruptNumber == interrupt then 0 else 1 + Find(xrupts[1..], interrupt)
  }

  ghost predicate DistinctInterrupts(xrupts: seq<XruptInfo>) {
    forall i, j :: 0 <= i < j < |xrupts| ==> xrupts[i].interruptNumber != xrupts[j].interruptNumber
  }

  function XruptAt(xrupts: seq<XruptInfo>, i: int): XruptInfo? {
    if 0 <= i < |xrupts| then xrupts[i] else null
  }

  ghost function BlocksOf(lists: seq<seq<BlockInfo>>): (blocks: set<BlockInfo>)
    ensures forall i, b :: 0 <= i < |lists| && b in lists[i] ==> b in blocks
  {
    set i, b | 0 <= i < |lists| && b in lists[i] :: b
  }

  ghost predicate LinkIn(xrupts: seq<XruptInfo>, i: int)
    reads xrupts
  {
    0 <= i < |xrupts| ==> xrupts[i].previous == XruptAt(xrupts, i - 1) && xrupts[i].next == XruptAt(xrupts, i + 1)
  }

  class GpeLists {
    const sciInterrupt: uint32
    var xruptListHead: XruptInfo?
    var currentGpeCount: uint32
    ghost var xrupts: seq<XruptInfo>
    ghost var lists: seq<seq<BlockInfo>>
    ghost var handled: set<uint32>  // the interrupts for which the OS has the handler installed

    constructor (sciInterrupt: uint32)
      ensures Valid() && lists == [] && this.sciInterrupt == sciInterrupt
    {
      this.sciInterrupt, handled := sciInterrupt, {};
      xruptListHead, currentGpeCount, xrupts, lists := null, 0, [], [];
    }

    ghost predicate LinkAt(i: int)
      reads `xrupts, xrupts
    {
      LinkIn(xrupts, i)
    }

    ghost predicate BlocksAt(i: int)
      reads `xrupts, `lists, xrupts, BlocksOf(lists)
    {
      0 <= i < |xrupts| && i < |lists| ==> xrupts[i].blocks == lists[i] && xrupts[i].Linked()
    }

    /** Both levels of lists are well formed, and no two descriptors are for the same interrupt. */
    ghost predicate Linked()
      reads `xruptListHead, `xrupts, `lists, xrupts, BlocksOf(lists)
    {
      && |lists| == |xrupts| && xruptListHead == XruptAt(xrupts, 0) && DistinctInterrupts(xrupts)
      && (forall i :: LinkAt(i))
      && (forall i :: BlocksAt(i))
    }

    /** The handler is installed for the interrupts of the accepted descriptors; that of the SCI is not made here. */
    ghost predicate HandlersKnown()
      reads `handled, `xrupts
    {
      && (forall x :: x in xrupts ==> (x.interruptNumber in handled <==> IsHandled(x)))
      && (forall n :: n in handled ==> exists x :: x in xrupts && x.interruptNumber == n)
    }

    ghost predicate IsHandled(x: XruptInfo) {
      x.accepted && x.interruptNumber != sciInterrupt
    }

    ghost predicate Valid()
      reads this, xrupts, BlocksOf(lists)
    {
      Linked() && HandlersKnown() && currentGpeCount == Total(Flatten(lists)) % TWO32
    }

    /**
     * Finds the descriptor of the interrupt, or appends a new one; `installs` is whether the OS accepts its handler.
     */
    method GetXruptBlock(interrupt: uint32, installs: bool) returns (xrupt: XruptInfo?)
      requires Linked() && HandlersKnown()
      modifies `xruptListHead, `xrupts, `lists, `handled, xrupts
      ensures Linked() && HandlersKnown()
      ensures var i := Find(old(xrupts), interrupt);
              if i < |old(xrupts)| then
                xrupts == old(xrupts) && lists == old(lists) && handled == old(handled) && xrupt == xrupts[i]
              else
                && |xrupts| == i + 1 && xrupts[..i] == old(xrupts) && fresh(xrupts[i])
                  && xrupts[i].interruptNumber == interrupt && xrupts[i].accepted == installs
                && lists == old(lists) + [[]]
                && handled == old(handled) + (if interrupt != sciInterrupt && installs then {interrupt} else {})
                && xrupt == if interrupt == sciInterrupt || installs then xrupts[i] else null
    {
      var x := xruptListHead;
      ghost var i := 0;
      while x != null
        invariant 0 <= i <= |xrupts| && x == XruptAt(xrupts, i)
        invariant forall j :: 0 <= j < i ==> xrupts[j].interruptNumber != interrupt
        decreases |xrupts| - i
      {
        assert LinkAt(i);
        if x.interruptNumber == interrupt {
          return x;
        }
        x := x.next;
        i := i + 1;
      }
      var created := new XruptInfo(interrupt, installs);
      forall j
        ensures LinkAt(j) && BlocksAt(j)
      {
        assert old(LinkAt(j)) && old(BlocksAt(j));
      }
      AppendXrupt(created);
      if interrupt != sciInterrupt {
        if !installs {
          return null;
        }
        SetHandled(handled + {interrupt});
      }
      return created;
    }

    ghost method SetHandled(interrupts: set<uint32>)
      requires Linked()
      modifies `handled
      ensures Linked() && handled == interrupts
    {
      handled := interrupts;
      forall j
        ensures LinkAt(j) && BlocksAt(j)
      {
        assert old(LinkAt(j)) && old(BlocksAt(j));
      }
    }

    method AppendXrupt(x: XruptInfo)
      requires Linked() && x !in xrupts && x.next == null && x.previous == null && x.blocks == [] && x.Linked()
      requires forall y :: y in xrupts ==> y.interruptNumber != x.interruptNumber
      modifies `xruptListHead, `xrupts, `lists, x, xrupts
      ensures Linked() && xrupts == old(xrupts) + [x] && lists == old(lists) + [[]]
    {
      if xruptListHead != null {
        assert LinkAt(0);
        var last := xruptListHead;
        ghost var k := 0;
        while last.next != null
          invariant 0 <= k < |xrupts| && last == xrupts[k] && LinkAt(k)
          decreases |xrupts| - k
        {
          assert LinkAt(k + 1);
          last := last.next;
          k := k + 1;
        }
        last.next := x;
        x.previous := last;
      } else {
        xruptListHead := x;
      }
      xrupts := xrupts + [x];
      lists := lists + [[]];
      forall i
        ensures LinkAt(i) && BlocksAt(i)
      {
        assert old(LinkAt(i)) && old(BlocksAt(i));
        if 0 <= i < |xrupts| - 1 {
          forall k
            ensures xrupts[i].LinkAt(k)
          {
            assert xrupts[i] == old(xrupts)[i] && old(xrupts[i].LinkAt(k));
          }
        }
      }
    }

    lemma Owned(i: int)
      requires Linked() && 0 <= i < |lists|
      ensures forall b :: b in lists[i] ==> b.xruptBlock == xrupts[i] && b in BlocksOf(lists)
    {
      assert BlocksAt(i);
      forall b | b in lists[i]
        ensures b.xruptBlock == xrupts[i]
      {
        var k :| 0 <= k < |lists[i]| && lists[i][k] == b;
        assert xrupts[i].LinkAt(k);
      }
    }

    /** The lists of different interrupts share no block. */
    lemma OtherLists(i: int)
      requires Linked() && 0 <= i < |lists|
      ensures forall j :: 0 <= j < |lists| && j != i ==> xrupts[j] != xrupts[i]
      ensures forall j, b :: 0 <= j < |lists| && j != i && b in lists[j] ==> b !in lists[i]
    {
      Owned(i);
      forall j, b | 0 <= j < |lists| && j != i && b in lists[j]
        ensures b !in lists[i]
      {
        Owned(j);
      }
    }

    method AppendAt(xrupt: XruptInfo, ghost i: int, block: BlockInfo)
      requires Linked() && 0 <= i < |xrupts| && xrupts[i] == xrupt
      requires block !in BlocksOf(lists) && block.next == null && block.previous == null
      modifies `lists, xrupt, block, lists[i]
      ensures Linked() && lists == old(lists)[i := old(lists)[i] + [block]]
    {
      assert BlocksAt(i);
      OtherLists(i);
      ghost var was := lists;
      label Before:
      xrupt.Append(block);
      lists := lists[i := lists[i] + [block]];
      forall j
        ensures BlocksAt(j)
      {
        assert old@Before(BlocksAt(j));
        if 0 <= j < |lists| && j != i {
          forall k
            ensures xrupts[j].LinkAt(k)
          {
            assert old@Before(xrupts[j].LinkAt(k));
            var list := was[j];
            if 0 <= k < |list| {
              assert list[k] in list && list[k] != block && list[k] !in was[i];
              assert lists[j] == list && xrupts[j].blocks == list;
            }
          }
        }
      }
      forall j
        ensures LinkAt(j)
      {
        assert old@Before(LinkAt(j));
      }
    }

    /**
     * Appends the block to the list of its interrupt. When the OS has refused the handler of that interrupt, only the
     * first installation says so: a later one finds the descriptor and succeeds without a handler.
     */
    method InstallGpeBlock(block: BlockInfo, interrupt: uint32, installs: bool) returns (status: Status)
      requires Linked() && HandlersKnown() && block !in BlocksOf(lists) && block.next == null && block.previous == null
      modifies `xruptListHead, `xrupts, `lists, `handled, xrupts, block, BlocksOf(lists)
      ensures Linked() && HandlersKnown()
      ensures var i := Find(old(xrupts), interrupt);
              status == Ok ==>
                (interrupt in handled <==>
                   interrupt != sciInterrupt && (i < |old(xrupts)| ==> old(xrupts)[i].accepted))
      ensures forall n :: n != interrupt ==> (n in handled <==> n in old(handled))
      ensures var i := Find(old(xrupts), interrupt);
              if i < |old(xrupts)| then
                status == Ok && xrupts == old(xrupts) && lists == old(lists)[i := old(lists)[i] + [block]]
              else
                && |xrupts| == i + 1 && xrupts[..i] == old(xrupts) && xrupts[i].interruptNumber == interrupt
                  && xrupts[i].accepted == installs
                && status == (if interrupt == sciInterrupt || installs then Ok else InstallFailed)
                && lists == old(lists) + [if status == Ok then [block] else []]
    {
      ghost var i := Find(xrupts, interrupt);
      var xrupt := GetXruptBlock(interrupt, installs);
      if xrupt == null {
        return InstallFailed;
      }
      assert i < |old(xrupts)| ==> forall b :: b in lists[i] ==> b in BlocksOf(old(lists));
      AppendAt(xrupt, i, block);
      assert [] + [block] == [block];
      assert i == |old(xrupts)| ==> lists == old(lists) + [[block]];
      return Ok;
    }

    /** Creates a block with its tables and installs it; nothing happens for an empty block. */
    method CreateGpeBlock(node: nat, onDevice: bool, registerCount: uint32, blockBaseNumber: uint16, interrupt: uint32,
                          installs: bool)
      returns (status: Status, block: BlockInfo?)
      requires Valid()
      modifies `xruptListHead, `xrupts, `lists, `handled, `currentGpeCount, xrupts, BlocksOf(lists)
      ensures Valid()
      ensures block != null <==> registerCount > 0 && status == Ok
      ensures registerCount == 0 ==> status == Ok && lists == old(lists) && xrupts == old(xrupts)
      ensures status != Ok ==> Flatten(lists) == old(Flatten(lists)) && currentGpeCount == old(currentGpeCount)
      ensures var i := Find(old(xrupts), interrupt);
              block != null ==>
                (interrupt in handled <==>
                   interrupt != sciInterrupt && (i < |old(xrupts)| ==> old(xrupts)[i].accepted))
      ensures block != null ==>
                && fresh(block) && block.node == node && block.onDevice == onDevice
                  && block.registerCount == registerCount
                && block.blockBaseNumber == blockBaseNumber
                  && block.gpeCount == registerCount * GpeNumbering.REGISTER_WIDTH % TWO16
                && exists p :: InsertedAt(old(Flatten(lists)), Flatten(lists), block, p)
    {
      if registerCount == 0 {
        return Ok, null;
      }
      var created := new BlockInfo(registerCount, blockBaseNumber, node, onDevice);
      forall j
        ensures LinkAt(j) && BlocksAt(j)
      {
        assert old(LinkAt(j)) && old(BlocksAt(j));
      }
      ghost var was, count := lists, currentGpeCount;
      ghost var i := Find(xrupts, interrupt);
      status := InstallGpeBlock(created, interrupt, installs);
      if status != Ok {
        NothingAppended(was);
        return status, null;
      }
      ghost var p := Inserted(was, i, lists, created);
      InsertedCount(Flatten(was), Flatten(lists), created, p, count);
      SetGpeCount(Add32(currentGpeCount, created.gpeCount));
      return Ok, created;
    }

    method SetGpeCount(count: uint32)
      requires Linked() && HandlersKnown() && count == Total(Flatten(lists)) % TWO32
      modifies `currentGpeCount
      ensures Valid() && currentGpeCount == count
    {
      currentGpeCount := count;
      forall j
        ensures LinkAt(j) && BlocksAt(j)
      {
        assert old(LinkAt(j)) && old(BlocksAt(j));
      }
    }

    /** The neighbours of descriptor `i` are made to meet. */
    method Bypass(xrupt: XruptInfo, ghost i: int)
      requires 0 <= i < |xrupts| && xrupts[i] == xrupt && xruptListHead == XruptAt(xrupts, 0)
      requires DistinctInterrupts(xrupts) && forall j :: LinkAt(j)
      modifies `xruptListHead, xrupts`next, xrupts`previous
      ensures xruptListHead == XruptAt(Without(xrupts, i), 0)
      ensures forall j :: LinkIn(Without(xrupts, i), j)
    {
      assert LinkAt(i) && LinkAt(i - 1) && LinkAt(i + 1);
      if xrupt.previous != null {
        xrupt.previous.next := xrupt.next;
      } else {
        xruptListHead := xrupt.next;
      }
      if xrupt.next != null {
        xrupt.next.previous := xrupt.previous;
      }
      forall j
        ensures LinkIn(Without(xrupts, i), j)
      {
        assert old(LinkAt(if j < i then j else j + 1));
      }
    }

    /** Unlinks the descriptor at position `i` with its list. */
    method UnlinkXrupt(xrupt: XruptInfo, ghost i: int)
      requires Linked() && 0 <= i < |xrupts| && xrupts[i] == xrupt
      modifies `xruptListHead, `xrupts, `lists, xrupts`next, xrupts`previous
      ensures Linked() && xrupts == Without(old(xrupts), i) && lists == Without(old(lists), i)
    {
      Bypass(xrupt, i);
      xrupts := Without(xrupts, i);
      lists := Without(lists, i);
      forall j
        ensures LinkAt(j) && BlocksAt(j)
      {
        var j0 := if j < i then j else j + 1;
        assert old(BlocksAt(j0)) && LinkIn(xrupts, j);
        if 0 <= j < |xrupts| {
          forall k
            ensures xrupts[j].LinkAt(k)
          {
            assert xrupts[j] == old(xrupts)[j0] && old(xrupts[j0].LinkAt(k));
          }
        }
      }
    }

    /**
     * Drops the descriptor of an interrupt without blocks; that of the SCI stays. `removes` is whether the OS removes
     * the handler.
     */
    method DeleteGpeXrupt(xrupt: XruptInfo, ghost i: int, removes: bool) returns (ok: bool)
      requires Linked() && HandlersKnown() && 0 <= i < |xrupts| && xrupts[i] == xrupt
      modifies `xruptListHead, `xrupts, `lists, `handled, xrupts
      ensures Linked() && HandlersKnown() && ok == (xrupt.interruptNumber == sciInterrupt || removes)
      ensures !ok ==> xrupts == old(xrupts) && lists == old(lists) && handled == old(handled)
      ensures ok && xrupt.interruptNumber == sciInterrupt ==> xrupts == old(xrupts) && lists == old(lists)[i := []]
      ensures ok && xrupt.interruptNumber != sciInterrupt ==>
              xrupts == Without(old(xrupts), i) && lists == Without(old(lists), i)
                && handled == old(handled) - {xrupt.interruptNumber}
    {
      if xrupt.interruptNumber == sciInterrupt {
        ReplaceList(xrupt, i);
        return true;
      }
      if !removes {
        return false;
      }
      UnlinkXrupt(xrupt, i);
      SetHandled(handled - {xrupt.interruptNumber});
      return true;
    }

    method ReplaceList(xrupt: XruptInfo, ghost i: int)
      requires Linked() && 0 <= i < |xrupts| && xrupts[i] == xrupt
      modifies `lists, xrupt`gpeBlockListHead, xrupt`blocks
      ensures Linked() && lists == old(lists)[i := []]
    {
      OtherLists(i);
      xrupt.Clear();
      lists := lists[i := []];
      forall j
        ensures LinkAt(j) && BlocksAt(j)
      {
        assert old(LinkAt(j)) && old(BlocksAt(j));
        if 0 <= j < |lists| && j != i {
          forall k
            ensures xrupts[j].LinkAt(k)
          {
            assert old(xrupts[j].LinkAt(k));
          }
        }
      }
    }

    method UnlinkAt(xrupt: XruptInfo, ghost i: int, block: BlockInfo, ghost k: int)
      requires Linked() && 0 <= i < |xrupts| && xrupts[i] == xrupt
      requires 0 <= k < |lists[i]| && lists[i][k] == block && (block.previous != null || block.next != null)
      modifies `lists, xrupt, lists[i]
      ensures Linked() && lists == old(lists)[i := Without(old(lists)[i], k)]
    {
      assert BlocksAt(i);
      OtherLists(i);
      ghost var was := lists;
      xrupt.Unlink(block, k);
      lists := lists[i := Without(lists[i], k)];
      forall j
        ensures BlocksAt(j)
      {
        assert old(BlocksAt(j));
        if 0 <= j < |lists| && j != i {
          forall l
            ensures xrupts[j].LinkAt(l)
          {
            assert old(xrupts[j].LinkAt(l));
            var list := was[j];
            if 0 <= l < |list| {
              assert list[l] in list && list[l] !in was[i];
              assert lists[j] == list && xrupts[j].blocks == list;
            }
          }
        }
      }
      forall j
        ensures LinkAt(j)
      {
        assert old(LinkAt(j));
      }
    }

    /** Element `k` of list `i` is deleted: unlinked, or its interrupt dropped with it. */
    method DeleteGpeBlock(block: BlockInfo, ghost i: int, ghost k: int, removes: bool) returns (freed: bool)
      requires Valid() && 0 <= i < |lists| && 0 <= k < |lists[i]| && lists[i][k] == block
      modifies `xruptListHead, `xrupts, `lists, `handled, `currentGpeCount, xrupts, BlocksOf(lists)
      ensures Valid()
      ensures freed <==> |old(lists)[i]| > 1 || old(xrupts)[i].interruptNumber == sciInterrupt || removes
      ensures freed ==> exists p :: 0 <= p < |old(Flatten(lists))| && old(Flatten(lists))[p] == block
                                    && Flatten(lists) == Without(old(Flatten(lists)), p)
      ensures !freed ==> lists == old(lists) && xrupts == old(xrupts)
      ensures xrupts == if |old(lists)[i]| == 1 && old(xrupts)[i].interruptNumber != sciInterrupt && removes
                        then Without(old(xrupts), i) else old(xrupts)
      ensures handled == old(handled) - (set x | x in old(xrupts) && x !in xrupts :: x.interruptNumber)
    {
      Owned(i);
      assert BlocksAt(i) && xrupts[i].LinkAt(k) && block in lists[i];
      assert block.xruptBlock == xrupts[i];
      ghost var p := WithoutInWalk(lists, i, k);
      RemovedCount(Flatten(lists), p, currentGpeCount);
      var count := Sub32(currentGpeCount, block.gpeCount);
      if block.previous == null && block.next == null {
        assert |lists[i]| == 1 && Without(lists[i], k) == [];
        var ok := DeleteGpeXrupt(block.xruptBlock, i, removes);
        if !ok {
          SetGpeCount(currentGpeCount);
          return false;
        }
      } else {
        UnlinkAt(block.xruptBlock, i, block, k);
      }
      SetGpeCount(count);
      return true;
    }

    /** The walk over all blocks with a counting callback: the device of the block that holds GPE `index`. */
    method GetGpeDevice(index: uint32) returns (status: Status, device: Option<nat>)
      requires Valid()
      ensures var blocks := Flatten(lists);
              var k := Answer(blocks, currentGpeCount, index);
              if k == None then status == NotExist && device == None
              else
                && status == Ok && 0 <= k.value < |blocks|
                && device == if blocks[k.value].onDevice then Some(blocks[k.value].node) else None
    {
      if index >= currentGpeCount {
        return NotExist, None;
      }
      var block := WalkGpeList(index);
      if block == null {
        return NotExist, None;
      }
      return Ok, if block.onDevice then Some(block.node) else None;
    }

    /** The walk of both list levels, with the counting callback; the block at which it ends, if any. */
    method WalkGpeList(index: uint32) returns (block: BlockInfo?)
      requires Linked()
      ensures block == BlockAt(Flatten(lists), Stop(Flatten(lists), index, 0))
    {
      var base: uint32 := 0;
      var xrupt := xruptListHead;
      ghost var i := 0;
      WalkBegins(lists, index);
      while xrupt != null
        invariant 0 <= i <= |xrupts| && xrupt == XruptAt(xrupts, i)
        invariant Linked() && WalkedTo(lists, i, index, base)
        decreases |xrupts| - i
      {
        assert LinkAt(i) && BlocksAt(i);
        WalkOn(lists, i, index, base);
        label Before:
        block, base := WalkBlocks(xrupt, index, base);
        forall j
          ensures LinkAt(j) && BlocksAt(j)
        {
          assert old@Before(LinkAt(j)) && old@Before(BlocksAt(j));
        }
        if block != null {
          return;
        }
        xrupt := xrupt.next;
        i := i + 1;
      }
      WalkEnds(lists, index, base);
      return null;
    }

    /** The inner loop: the callback for the blocks of one interrupt, until it ends the walk. */
    method WalkBlocks(xrupt: XruptInfo, index: uint32, start: uint32) returns (block: BlockInfo?, base: uint32)
      requires xrupt.Linked()
      ensures block == BlockAt(xrupt.blocks, Stop(xrupt.blocks, index, start))
      ensures block == null ==> base == NextBase(xrupt.blocks, start)
    {
      block, base := xrupt.gpeBlockListHead, start;
      ghost var k := 0;
      while block != null
        invariant 0 <= k <= |xrupt.blocks| && block == BlockAt(xrupt.blocks, k)
        invariant Stop(xrupt.blocks, index, start) == k + Stop(xrupt.blocks[k..], index, base)
        invariant NextBase(xrupt.blocks, start) == NextBase(xrupt.blocks[k..], base)
        decreases |xrupt.blocks| - k
      {
        assert xrupt.LinkAt(k);
        base := Add32(base, block.gpeCount);
        if index < base {
          return;
        }
        block := block.next;
        k := k + 1;
      }
    }
  }

  /** The running sum of GPE counts after all blocks. */
  function NextBase(blocks: seq<BlockInfo>, base: uint32): uint32 {
    if blocks == [] then base else NextBase(blocks[1..], Add32(base, blocks[0].gpeCount))
  }

  /** The position in the walk at which the running sum of GPE counts first exceeds the index. */
  function Stop(blocks: seq<BlockInfo>, index: uint32, base: uint32): (k: nat)
    ensures k <= |blocks|
  {
    if blocks == [] then 0
    else
      var next := Add32(base, blocks[0].gpeCount);
      if index < next then 0 else 1 + Stop(blocks[1..], index, next)
  }

  lemma {:induction false} StopAppend(a: seq<BlockInfo>, b: seq<BlockInfo>, index: uint32, base: uint32)
    ensures Stop(a + b, index, base)
            == if Stop(a, index, base) < |a| then Stop(a, index, base) else |a| + Stop(b, index, NextBase(a, base))
  {
    if a == [] {
      assert a + b == b;
    } else {
      StopAppend(a[1..], b, index, Add32(base, a[0].gpeCount));
      assert (a + b)[1..] == a[1..] + b;
    }
  }

  /** The walk has passed the first `i` lists with running sum `base`. */
  ghost predicate WalkedTo(lists: seq<seq<BlockInfo>>, i: nat, index: uint32, base: uint32)
    requires i <= |lists|
  {
    Stop(Flatten(lists), index, 0) == |Flatten(lists[..i])| + Stop(Flatten(lists[i..]), index, base)
  }

  /** The walk stops in list `i`, or goes on with the next. */
  lemma WalkOn(lists: seq<seq<BlockInfo>>, i: nat, index: uint32, base: uint32)
    requires i < |lists| && WalkedTo(lists, i, index, base)
    ensures var s := Stop(lists[i], index, base);
            if s < |lists[i]| then BlockAt(Flatten(lists), Stop(Flatten(lists), index, 0)) == lists[i][s]
            else WalkedTo(lists, i + 1, index, NextBase(lists[i], base))
  {
    assert lists[i..][1..] == lists[i + 1..];
    StopAppend(lists[i], Flatten(lists[i + 1..]), index, base);
    FlattenSplit(lists, i);
    FlattenAppend(lists[..i], [lists[i]]);
    assert lists[..i + 1] == lists[..i] + [lists[i]] && Flatten([lists[i]]) == lists[i];
  }

  lemma WalkEnds(lists: seq<seq<BlockInfo>>, index: uint32, base: uint32)
    requires WalkedTo(lists, |lists|, index, base)
    ensures Stop(Flatten(lists), index, 0) == |Flatten(lists)|
  {
    assert lists[..|lists|] == lists && lists[|lists|..] == [];
  }

  lemma WalkBegins(lists: seq<seq<BlockInfo>>, index: uint32)
    ensures WalkedTo(lists, 0, index, 0)
  {
    assert lists[..0] == [] && lists[0..] == lists;
  }

  /** GPE `index` is one of those that block `k` of the walk contributes. */
  ghost predicate Holds(blocks: seq<BlockInfo>, k: int, index: int) {
    0 <= k < |blocks| && Total(blocks[..k]) <= index < Total(blocks[..k]) + blocks[k].gpeCount
  }

  lemma {:induction false} TotalPrefix(blocks: seq<BlockInfo>, k: nat)
    requires k < |blocks|
    ensures Total(blocks[..k + 1]) == Total(blocks[..k]) + blocks[k].gpeCount
  {
    TotalWithout(blocks[..k + 1], k);
    assert Without(blocks[..k + 1], k) == blocks[..k];
  }

  lemma {:induction false} TotalMonotone(blocks: seq<BlockInfo>, j: nat, k: nat)
    requires j <= k <= |blocks|
    ensures Total(blocks[..j]) <= Total(blocks[..k])
  {
    if j < k {
      TotalMonotone(blocks, j, k - 1);
      TotalPrefix(blocks, k - 1);
    }
  }

  /** At most one block holds an index. */
  lemma HeldOnce(blocks: seq<BlockInfo>, j: int, k: int, index: int)
    requires Holds(blocks, j, index) && Holds(blocks, k, index)
    ensures j == k
  {
    if j < k {
      TotalPrefix(blocks, j);
      TotalMonotone(blocks, j + 1, k);
    } else if k < j {
      TotalPrefix(blocks, k);
      TotalMonotone(blocks, k + 1, j);
    }
  }

  /** The running sum is exact up to the first block whose range reaches beyond the index. */
  lemma {:induction false} StopsNoEarlier(blocks: seq<BlockInfo>, index: uint32, k: nat)
    requires k <= |blocks| && Total(blocks[..k]) <= index
    ensures Stop(blocks, index, 0) == k + Stop(blocks[k..], index, Total(blocks[..k]))
  {
    if k == 0 {
      assert blocks[k..] == blocks;
    } else {
      TotalPrefix(blocks, k - 1);
      StopsNoEarlier(blocks, index, k - 1);
      assert blocks[k - 1..][1..] == blocks[k..];
    }
  }

  /** The walk stops at the block that holds the index, exactly when that block's range ends below 2^32. */
  lemma StopsAtHolder(blocks: seq<BlockInfo>, index: uint32, k: int)
    requires Holds(blocks, k, index)
    ensures Stop(blocks, index, 0) == k <==> Total(blocks[..k + 1]) < TWO32
  {
    StopsNoEarlier(blocks, index, k);
    TotalPrefix(blocks, k);
  }

  /** The position of the block that AcpiGetGpeDevice answers for, if it answers. */
  function Answer(blocks: seq<BlockInfo>, count: uint32, index: uint32): Option<nat> {
    if index < count && Stop(blocks, index, 0) < |blocks| then Some(Stop(blocks, index, 0)) else None
  }

  /** The answer is the block that holds the index, exactly if that is below the count and the block ends below 2^32. */
  lemma AnswersForHolder(blocks: seq<BlockInfo>, index: uint32, k: int)
    requires Holds(blocks, k, index)
    ensures var count := Total(blocks) % TWO32;
            Answer(blocks, count, index) == Some(k) <==> index < count && Total(blocks[..k + 1]) < TWO32
  {
    StopsAtHolder(blocks, index, k);
  }

  const MANY := 131088

  /** 131088 blocks of 65528 events and one of 120. */
  ghost predicate ManyBlocks(blocks: seq<BlockInfo>) {
    && Distinct(blocks) && |blocks| == MANY + 1 && blocks[MANY].gpeCount == 120
    && forall i :: 0 <= i < MANY ==> blocks[i].gpeCount == 65528
  }

  function SumOfLarge(n: nat): uint32
    requires n <= MANY
  {
    if n <= 65544 then n * 65528 else n * 65528 - TWO32
  }

  lemma LargeSum(n: nat)
    requires n < MANY
    ensures Add32(SumOfLarge(n), 65528) == SumOfLarge(n + 1) < TWO32 - 9
  {
  }

  /** The running sum wraps on the way through the large blocks and never exceeds 2^32 - 9. */
  lemma {:induction false} PassesLargeBlocks(blocks: seq<BlockInfo>, n: nat)
    requires ManyBlocks(blocks) && n <= MANY
    ensures Total(blocks[..n]) == n * 65528
    ensures Stop(blocks, TWO32 - 9, 0) == n + Stop(blocks[n..], TWO32 - 9, SumOfLarge(n))
  {
    if n == 0 {
      assert blocks[n..] == blocks;
    } else {
      PassesLargeBlocks(blocks, n - 1);
      TotalPrefix(blocks, n - 1);
      assert blocks[n - 1..][1..] == blocks[n..];
      LargeSum(n - 1);
    }
  }

  /** Among so many blocks, block 65544 holds index 2^32 - 9, which is below the count; the answer is another block. */
  lemma WrappedWalk(blocks: seq<BlockInfo>)
    requires ManyBlocks(blocks)
    ensures TWO32 - 9 < Total(blocks) % TWO32 && Holds(blocks, 65544, TWO32 - 9)
    ensures Answer(blocks, Total(blocks) % TWO32, TWO32 - 9) == Some(MANY)
  {
    PassesLargeBlocks(blocks, 65544);
    PassesLargeBlocks(blocks, MANY);
    TotalPrefix(blocks, MANY);
    assert blocks[..MANY + 1] == blocks;
  }

  /** Every index below the sum is held, and only those. */
  lemma {:induction false} HeldBelowTotal(blocks: seq<BlockInfo>, index: nat)
    ensures index < Total(blocks) <==> exists k :: Holds(blocks, k, index)
  {
    if index < Total(blocks) {
      var k := 0;
      assert Total(blocks[..0]) == 0;
      while k < |blocks| && Total(blocks[..k + 1]) <= index
        invariant 0 <= k <= |blocks| && Total(blocks[..k]) <= index
      {
        k := k + 1;
      }
      assert blocks[..|blocks|] == blocks;
      TotalPrefix(blocks, k);
      assert Holds(blocks, k, index);
    }
    forall k | Holds(blocks, k, index)
      ensures index < Total(blocks)
    {
      TotalPrefix(blocks, k);
      TotalMonotone(blocks, k + 1, |blocks|);
      assert blocks[..|blocks|] == blocks;
    }
  }

  ghost predicate InsertedAt(before: seq<BlockInfo>, after: seq<BlockInfo>, block: BlockInfo, p: int) {
    0 <= p <= |before| && after == before[..p] + [block] + before[p..]
  }

  /** Appending to one list inserts one element into the walk. */
  lemma Inserted(was: seq<seq<BlockInfo>>, i: nat, lists: seq<seq<BlockInfo>>, block: BlockInfo) returns (p: nat)
    requires i <= |was| && lists == if i < |was| then was[i := was[i] + [block]] else was + [[block]]
    ensures InsertedAt(Flatten(was), Flatten(lists), block, p)
  {
    if i < |was| {
      FlattenSplit(was, i);
      FlattenUpdate(was, i, was[i] + [block]);
      p := |Flatten(was[..i])| + |was[i]|;
    } else {
      FlattenAppend(was, [[block]]);
      assert Flatten([[block]]) == [block];
      p := |Flatten(was)|;
    }
  }

  lemma NothingAppended(was: seq<seq<BlockInfo>>)
    ensures Flatten(was + [[]]) == Flatten(was)
  {
    FlattenAppend(was, [[]]);
    assert Flatten([[]]) == [];
  }

  lemma InsertedCount(before: seq<BlockInfo>, after: seq<BlockInfo>, block: BlockInfo, p: int, count: uint32)
    requires InsertedAt(before, after, block, p) && count == Total(before) % TWO32
    ensures Add32(count, block.gpeCount) == Total(after) % TWO32
  {
    TotalWithout(after, p);
    assert Without(after, p) == before;
    Add32Wraps(Total(before), block.gpeCount);
  }

  lemma RemovedCount(before: seq<BlockInfo>, p: nat, count: uint32)
    requires p < |before| && count == Total(before) % TWO32
    ensures Sub32(count, before[p].gpeCount) == Total(Without(before, p)) % TWO32
  {
    TotalWithout(before, p);
    Sub32Wraps(Total(before), before[p].gpeCount);
  }
}
