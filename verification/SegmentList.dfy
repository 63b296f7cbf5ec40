/**
 * The list of usable memory that the kernel receives (PhysicalMap::Build): every node is stored in
 * the page it describes, in the same memory that holds the map being read.
 */
module SegmentList {
  import opened MachineWords
  import opened MemoryMap
  import opened Paging

  // Field offsets of EFI_MEMORY_DESCRIPTOR and its size
  const DESC_TYPE := 0
  const DESC_START := 8
  const DESC_PAGES := 24
  const DESC_SIZE := 40

  // Field offsets of PhysicalMapSegment
  const SEG_BASE := 0
  const SEG_PAGES := 8
  const SEG_NEXT := 16
  const SEG_PREV := 24
  const SEG_SIZE := 32

  const NULL: uint64 := 0

  /** Physical memory as 8-byte words by physical address. */
  type Words = map<int, int>

  function Peek(words: Words, physical: int): int {
    if physical in words then words[physical] else 0
  }

  /** An access through a pointer goes where the page table sends it. */
  class Memory {
    var words: Words

    method Load(va: uint64) returns (value: int)
      requires Intended(va).Physical?
      ensures value == Peek(words, Intended(va).address)
    {
      value := Peek(words, Intended(va).address);
    }

    method Store(va: uint64, value: int)
      requires Intended(va).Physical?
      modifies this
      ensures words == old(words)[Intended(va).address := value]
    {
      words := words[Intended(va).address := value];
    }
  }

  function Slot(buffer: int, entrySize: int, i: int): int {
    buffer + i * entrySize
  }

  /** The map buffer at physical address `buffer` holds the descriptors `ds`. */
  ghost predicate HoldsMap(words: Words, buffer: int, entrySize: int, ds: seq<Descriptor>) {
    forall i :: 0 <= i < |ds| ==>
      && Peek(words, Slot(buffer, entrySize, i) + DESC_TYPE) % TWO32 == ds[i].kind
      && Peek(words, Slot(buffer, entrySize, i) + DESC_START) == ds[i].start
      && Peek(words, Slot(buffer, entrySize, i) + DESC_PAGES) == ds[i].pages
  }

  /** What the list needs of the cleaned map: it lies below 512 GB and leaves the map buffer alone. */
  ghost predicate Placed(buffer: int, entrySize: int, ds: seq<Descriptor>) {
    && 0 <= buffer && DESC_SIZE <= entrySize && buffer + |ds| * entrySize <= SIZE_512G
    && (forall i :: 0 <= i < |ds| ==> ds[i].Live() && ds[i].pages > 0 && ds[i].start + ds[i].pages * PAGE <= SIZE_512G)
    && (forall i, j :: 0 <= i < j < |ds| ==> ds[i].Apart(ds[j]))
    && (forall i, address :: 0 <= i < |ds| && buffer <= address < buffer + |ds| * entrySize ==> !ds[i].Holds(address))
  }

  /** The pointer to the node of entry `i`; null outside the map. */
  function NodePtr(ds: seq<Descriptor>, i: int): uint64 {
    if 0 <= i < |ds| then ConvertPtr(ds[i].start) else NULL
  }

  ghost predicate NodeIs(words: Words, d: Descriptor, next: uint64, prev: uint64) {
    && Peek(words, d.start + SEG_BASE) == d.start
    && Peek(words, d.start + SEG_PAGES) == d.pages
    && Peek(words, d.start + SEG_NEXT) == next
    && Peek(words, d.start + SEG_PREV) == prev
  }

  ghost predicate LinkedAt(words: Words, ds: seq<Descriptor>, n: int, i: int)
    requires 0 <= i < |ds|
  {
    NodeIs(words, ds[i], if i + 1 < n then NodePtr(ds, i + 1) else NULL, NodePtr(ds, i - 1))
  }

  /** The nodes of the first `n` entries form a null-terminated doubly linked list in map order. */
  ghost predicate ListOf(words: Words, ds: seq<Descriptor>, n: int) {
    forall i :: 0 <= i < n && i < |ds| ==> LinkedAt(words, ds, n, i)
  }

  /** The nodes as the kernel reads them: base, page count, next and previous pointer, in consecutive words. */
  lemma NodeLayout(words: Words, ds: seq<Descriptor>, i: int)
    requires ListOf(words, ds, |ds|) && 0 <= i < |ds|
    ensures var node := ds[i].start;
            && Peek(words, node) == ds[i].start && Peek(words, node + 8) == ds[i].pages
            && Peek(words, node + 16) == (if i + 1 < |ds| then ConvertPtr(ds[i + 1].start) else 0)
            && Peek(words, node + 24) == (if i > 0 then ConvertPtr(ds[i - 1].start) else 0)
  {
    assert LinkedAt(words, ds, |ds|, i);
  }

  /** A descriptor as firmware stores it: type and padding, physical start, virtual start, page count, attribute. */
  lemma DescriptorLayout(words: Words, buffer: int, entrySize: int, ds: seq<Descriptor>)
    ensures HoldsMap(words, buffer, entrySize, ds)
            <==> forall i :: 0 <= i < |ds| ==>
                   var at := Slot(buffer, entrySize, i);
                   && Peek(words, at) % TWO32 == ds[i].kind && Peek(words, at + 8) == ds[i].start
                   && Peek(words, at + 24) == ds[i].pages
  {
  }

  lemma NodePtrTranslates(ds: seq<Descriptor>, i: int, offset: int)
    requires 0 <= i < |ds| && ds[i].start + SEG_SIZE <= SIZE_512G && 0 <= offset < SEG_SIZE
    ensures NodePtr(ds, i) != NULL && NodePtr(ds, i) + offset < TWO64
    ensures Intended(NodePtr(ds, i) + offset) == Physical(ds[i].start + offset)
  {
  }

  lemma SlotInBuffer(buffer: int, entrySize: int, n: int, i: int)
    requires 0 <= i < n && DESC_SIZE <= entrySize
    ensures buffer <= Slot(buffer, entrySize, i)
    ensures Slot(buffer, entrySize, i) + DESC_SIZE <= buffer + n * entrySize
  {
    assert i * entrySize + entrySize == (i + 1) * entrySize <= n * entrySize;
  }

  /** Words of a node are not words of the map buffer. */
  lemma WritesMissMap(words: Words, after: Words, buffer: int, entrySize: int, ds: seq<Descriptor>)
    requires Placed(buffer, entrySize, ds) && HoldsMap(words, buffer, entrySize, ds)
    requires forall a :: buffer <= a < buffer + |ds| * entrySize ==> Peek(after, a) == Peek(words, a)
    ensures HoldsMap(after, buffer, entrySize, ds)
  {
    forall i | 0 <= i < |ds|
      ensures Peek(after, Slot(buffer, entrySize, i) + DESC_TYPE) % TWO32 == ds[i].kind
      ensures Peek(after, Slot(buffer, entrySize, i) + DESC_START) == ds[i].start
      ensures Peek(after, Slot(buffer, entrySize, i) + DESC_PAGES) == ds[i].pages
    {
      SlotInBuffer(buffer, entrySize, |ds|, i);
    }
  }

  /** The words written for entry `i`, over the words before. */
  function NodeWritten(words: Words, ds: seq<Descriptor>, i: int): Words
    requires 0 <= i < |ds|
  {
    var linked := if i == 0 then words else words[ds[i - 1].start + SEG_NEXT := NodePtr(ds, i)];
    linked[ds[i].start + SEG_PREV := NodePtr(ds, i - 1)][ds[i].start + SEG_BASE := ds[i].start]
          [ds[i].start + SEG_PAGES := ds[i].pages][ds[i].start + SEG_NEXT := NULL]
  }

  /** Only the new node and the link of the one before it change. */
  lemma NodeWrittenFrame(words: Words, ds: seq<Descriptor>, i: int, a: int)
    requires 0 <= i < |ds|
    requires !(ds[i].start <= a < ds[i].start + SEG_SIZE)
    requires i > 0 ==> a != ds[i - 1].start + SEG_NEXT
    ensures Peek(NodeWritten(words, ds, i), a) == Peek(words, a)
  {
  }

  lemma NodeExtendsList(words: Words, buffer: int, entrySize: int, ds: seq<Descriptor>, i: int)
    requires 0 <= i < |ds| && Placed(buffer, entrySize, ds) && ListOf(words, ds, i)
    ensures ListOf(NodeWritten(words, ds, i), ds, i + 1)
  {
    var after, n := NodeWritten(words, ds, i), i + 1;
    forall k | 0 <= k < n
      ensures LinkedAt(after, ds, n, k)
    {
      if k < i {
        NodeKept(words, buffer, entrySize, ds, i, k);
      }
    }
  }

  lemma NodeKept(words: Words, buffer: int, entrySize: int, ds: seq<Descriptor>, i: int, k: int)
    requires 0 <= k < i < |ds| && Placed(buffer, entrySize, ds) && ListOf(words, ds, i)
    ensures LinkedAt(NodeWritten(words, ds, i), ds, i + 1, k)
  {
    var d := ds[k];
    assert d.Apart(ds[i]) && d.pages > 0 && ds[i].pages > 0;
    assert k < i - 1 ==> d.Apart(ds[i - 1]) && ds[i - 1].pages > 0;
    assert LinkedAt(words, ds, i, k);
    NodeWrittenFrame(words, ds, i, d.start + SEG_BASE);
    NodeWrittenFrame(words, ds, i, d.start + SEG_PAGES);
    NodeWrittenFrame(words, ds, i, d.start + SEG_PREV);
    if k < i - 1 {
      NodeWrittenFrame(words, ds, i, d.start + SEG_NEXT);
    }
  }

  lemma NodeMissesMap(words: Words, buffer: int, entrySize: int, ds: seq<Descriptor>, i: int)
    requires 0 <= i < |ds| && Placed(buffer, entrySize, ds) && HoldsMap(words, buffer, entrySize, ds)
    ensures HoldsMap(NodeWritten(words, ds, i), buffer, entrySize, ds)
  {
    var after := NodeWritten(words, ds, i);
    forall a | buffer <= a < buffer + |ds| * entrySize
      ensures Peek(after, a) == Peek(words, a)
    {
      assert ds[i].pages > 0 && !ds[i].Holds(a);
      assert i > 0 ==> ds[i - 1].pages > 0 && !ds[i - 1].Holds(a);
      NodeWrittenFrame(words, ds, i, a);
    }
    WritesMissMap(words, after, buffer, entrySize, ds);
  }

  /** Builds the list while reading the map from the same memory. */
  method Build(mem: Memory, buffer: uint64, entrySize: int, length: int, ghost ds: seq<Descriptor>)
    returns (first: uint64)
    requires length == |ds| && Placed(buffer, entrySize, ds) && HoldsMap(mem.words, buffer, entrySize, ds)
    modifies mem
    ensures first == NodePtr(ds, 0)
    ensures ListOf(mem.words, ds, |ds|)
    ensures HoldsMap(mem.words, buffer, entrySize, ds)
  {
    first := NULL;
    var last: uint64 := NULL;
    for i := 0 to length
      invariant HoldsMap(mem.words, buffer, entrySize, ds)
      invariant ListOf(mem.words, ds, i)
      invariant first == (if i == 0 then NULL else NodePtr(ds, 0)) && last == NodePtr(ds, i - 1)
    {
      first, last := AddSegment(mem, buffer, entrySize, i, first, last, ds);
    }
  }

  /** One turn of the loop: entry `i` is read, and its node joins the list. */
  method AddSegment(mem: Memory, buffer: uint64, entrySize: int, i: int, first: uint64, last: uint64,
                    ghost ds: seq<Descriptor>)
      returns (first': uint64, last': uint64)
    requires 0 <= i < |ds| && Placed(buffer, entrySize, ds) && HoldsMap(mem.words, buffer, entrySize, ds)
    requires ListOf(mem.words, ds, i)
    requires first == (if i == 0 then NULL else NodePtr(ds, 0)) && last == NodePtr(ds, i - 1)
    modifies mem
    ensures HoldsMap(mem.words, buffer, entrySize, ds) && ListOf(mem.words, ds, i + 1)
    ensures first' == NodePtr(ds, 0) && last' == NodePtr(ds, i)
  {
    first', last' := first, last;
    ghost var before := mem.words;
    var kind, start, pages := ReadDescriptor(mem, buffer, entrySize, i, ds);
    NodesFit(buffer, entrySize, ds);
    if kind == EFI_CONVENTIONAL_MEMORY {
      first', last' := InsertNode(mem, first', last', start, pages, ds, i);
      NodeExtendsList(before, buffer, entrySize, ds, i);
      NodeMissesMap(before, buffer, entrySize, ds, i);
    }
  }

  /** Inserts the node of entry `i` into the list that ends at `last`. */
  method InsertNode(mem: Memory, first: uint64, last: uint64, start: uint64, pages: int, ghost ds: seq<Descriptor>,
                    ghost i: int)
      returns (first': uint64, last': uint64)
    requires 0 <= i < |ds| && start == ds[i].start && pages == ds[i].pages
    requires forall k :: 0 <= k < |ds| ==> ds[k].start + SEG_SIZE <= SIZE_512G
    requires first == (if i == 0 then NULL else NodePtr(ds, 0)) && last == NodePtr(ds, i - 1)
    modifies mem
    ensures mem.words == NodeWritten(old(mem.words), ds, i)
    ensures first' == NodePtr(ds, 0) && last' == NodePtr(ds, i)
  {
    first', last' := first, last;
    var seg := ConvertPtr(start);
    NodePtrTranslates(ds, 0, 0);
    if first' == NULL {
      first' := seg;
      last' := first';
      WriteNode(mem, first', NULL, start, pages, ds, i);
    } else {
      NodePtrTranslates(ds, i - 1, SEG_NEXT);
      mem.Store(last' + SEG_NEXT, seg);
      WriteNode(mem, seg, last', start, pages, ds, i);
      last' := seg;
    }
  }

  /** Every entry has at least one page, which has room for a node. */
  lemma NodesFit(buffer: int, entrySize: int, ds: seq<Descriptor>)
    requires Placed(buffer, entrySize, ds)
    ensures forall k :: 0 <= k < |ds| ==> ds[k].start + SEG_SIZE <= SIZE_512G
  {
  }

  method ReadDescriptor(mem: Memory, buffer: uint64, entrySize: int, i: int, ghost ds: seq<Descriptor>)
      returns (kind: int, start: uint64, pages: int)
    requires 0 <= i < |ds| && Placed(buffer, entrySize, ds) && HoldsMap(mem.words, buffer, entrySize, ds)
    ensures kind == ds[i].kind && start == ds[i].start && pages == ds[i].pages
  {
    SlotInBuffer(buffer, entrySize, |ds|, i);
    var desc := Slot(buffer, entrySize, i);
    kind := mem.Load(desc + DESC_TYPE);
    kind := kind % TWO32;
    start := mem.Load(desc + DESC_START);
    pages := mem.Load(desc + DESC_PAGES);
  }

  method WriteNode(mem: Memory, seg: uint64, prev: uint64, start: int, pages: int, ghost ds: seq<Descriptor>,
                   ghost i: int)
    requires 0 <= i < |ds| && ds[i].start + SEG_SIZE <= SIZE_512G && seg == NodePtr(ds, i)
    modifies mem
    ensures mem.words == old(mem.words)[ds[i].start + SEG_PREV := prev][ds[i].start + SEG_BASE := start]
                         [ds[i].start + SEG_PAGES := pages][ds[i].start + SEG_NEXT := NULL]
  {
    NodePtrTranslates(ds, i, SEG_BASE);
    NodePtrTranslates(ds, i, SEG_PAGES);
    NodePtrTranslates(ds, i, SEG_NEXT);
    NodePtrTranslates(ds, i, SEG_PREV);
    mem.Store(seg + SEG_PREV, prev);
    mem.Store(seg + SEG_BASE, start);
    mem.Store(seg + SEG_PAGES, pages);
    mem.Store(seg + SEG_NEXT, NULL);
  }

  /** Follows `next` pointers for at most `fuel` nodes. */
  function Forward(words: Words, ptr: int, fuel: nat): seq<(int, int)>
    decreases fuel
  {
    if ptr == NULL || fuel == 0 || !(0 <= ptr < TWO64) || !Intended(ptr).Physical? then []
    else
      var node := Intended(ptr).address;
      [(Peek(words, node + SEG_BASE), Peek(words, node + SEG_PAGES))] + Forward(words, Peek(words, node + SEG_NEXT),
                                                                                fuel - 1)
  }

  function Extents(ds: seq<Descriptor>): seq<(int, int)> {
    seq(|ds|, i requires 0 <= i < |ds| => (ds[i].start, ds[i].pages))
  }

  /** However far the traversal may go, it visits exactly the cleaned descriptors, in order. */
  lemma {:induction false} ForwardFrom(words: Words, buffer: int, entrySize: int, ds: seq<Descriptor>, i: int,
                                       fuel: nat)
    requires Placed(buffer, entrySize, ds) && ListOf(words, ds, |ds|)
    requires 0 <= i <= |ds| && fuel >= |ds| - i
    ensures Forward(words, NodePtr(ds, i), fuel) == Extents(ds)[i..]
    decreases |ds| - i
  {
    if i < |ds| {
      assert LinkedAt(words, ds, |ds|, i);
      NodePtrTranslates(ds, i, 0);
      ForwardFrom(words, buffer, entrySize, ds, i + 1, fuel - 1);
      assert Extents(ds)[i..] == [(ds[i].start, ds[i].pages)] + Extents(ds)[i + 1..];
    }
  }

  /** Going forth and back, or back and forth, returns to the same node. */
  lemma LinksAreInverse(words: Words, buffer: int, entrySize: int, ds: seq<Descriptor>, i: int)
    requires Placed(buffer, entrySize, ds) && ListOf(words, ds, |ds|) && 0 <= i < |ds| - 1
    ensures Peek(words, ds[i].start + SEG_NEXT) == NodePtr(ds, i + 1)
    ensures Peek(words, ds[i + 1].start + SEG_PREV) == NodePtr(ds, i)
    ensures Intended(NodePtr(ds, i)) == Physical(ds[i].start)
    ensures Intended(NodePtr(ds, i + 1)) == Physical(ds[i + 1].start)
  {
    assert LinkedAt(words, ds, |ds|, i) && LinkedAt(words, ds, |ds|, i + 1);
    NodePtrTranslates(ds, i, 0);
    NodePtrTranslates(ds, i + 1, 0);
  }

  /** The loader's walk to the end of a non-empty list. */
  method FindTail(mem: Memory, first: uint64, ghost buffer: int, ghost entrySize: int, ghost ds: seq<Descriptor>)
    returns (tail: uint64)
    requires Placed(buffer, entrySize, ds) && ListOf(mem.words, ds, |ds|)
    requires |ds| > 0 && first == NodePtr(ds, 0)
    ensures tail == NodePtr(ds, |ds| - 1)
  {
    tail := first;
    ghost var i := 0;
    assert LinkedAt(mem.words, ds, |ds|, 0);
    NodePtrTranslates(ds, 0, SEG_NEXT);
    var next := mem.Load(tail + SEG_NEXT);
    while next != NULL
      invariant 0 <= i < |ds| && tail == NodePtr(ds, i)
      invariant next == NodePtr(ds, i + 1)
      decreases |ds| - i
    {
      tail := next;
      i := i + 1;
      assert LinkedAt(mem.words, ds, |ds|, i);
      NodePtrTranslates(ds, i, SEG_NEXT);
      next := mem.Load(tail + SEG_NEXT);
    }
    if i + 1 < |ds| {
      NodePtrTranslates(ds, i + 1, 0);
    }
  }

  /**
   * A map cleaned by CleanupMemMap is fit for the list, if it lies below 512 GB and the buffer is not usable memory.
   */
  lemma CleanIsPlaced(buffer: int, entrySize: int, ds: seq<Descriptor>, original: seq<Descriptor>)
    requires Clean(ds, original)
    requires 0 <= buffer && DESC_SIZE <= entrySize && buffer + |ds| * entrySize <= SIZE_512G
    requires forall address :: UsableAt(original, address) ==> address < SIZE_512G
    requires forall address :: buffer <= address < buffer + |ds| * entrySize ==> !UsableAt(original, address)
    ensures Placed(buffer, entrySize, ds)
  {
    forall i | 0 <= i < |ds|
      ensures ds[i].Live() && ds[i].pages > 0 && ds[i].start + ds[i].pages * PAGE <= SIZE_512G
    {
      assert ds[i].Sound() && ds[i].Holds(ds[i].start + ds[i].pages * PAGE - 1);
      assert LiveAt(ds, ds[i].start + ds[i].pages * PAGE - 1);
    }
    forall i, address | 0 <= i < |ds| && buffer <= address < buffer + |ds| * entrySize
      ensures !ds[i].Holds(address)
    {
      assert LiveAt(ds, address) <==> UsableAt(original, address);
    }
  }

  // ----- The whole of PhysicalMap::Build

  /** The words of entry `i` of the map hold the descriptor; the type is the low half of its word. */
  ghost predicate SlotHolds(words: Words, slot: int, d: Descriptor) {
    && Peek(words, slot + DESC_TYPE) % TWO32 == d.kind
    && Peek(words, slot + DESC_START) == d.start
    && Peek(words, slot + DESC_PAGES) == d.pages
  }

  /** The stores of CleanupMemMap to one entry. */
  method StoreDescriptor(mem: Memory, slot: uint64, d: Descriptor)
    requires slot + DESC_SIZE <= SIZE_512G
    modifies mem
    ensures SlotHolds(mem.words, slot, d)
    ensures forall a :: !(slot <= a < slot + DESC_SIZE) ==> Peek(mem.words, a) == Peek(old(mem.words), a)
  {
    var kind := mem.Load(slot + DESC_TYPE);
    kind := kind - kind % TWO32 + d.kind;
    mem.Store(slot + DESC_TYPE, kind);
    mem.Store(slot + DESC_START, d.start);
    mem.Store(slot + DESC_PAGES, d.pages);
  }

  /** Stores the entries of the array view of the map in the buffer that it is a view of. */
  method StoreMap(mem: Memory, buffer: uint64, entrySize: int, entries: array<Descriptor>, count: nat)
    requires count <= entries.Length && DESC_SIZE <= entrySize && buffer + count * entrySize <= SIZE_512G
    modifies mem
    ensures HoldsMap(mem.words, buffer, entrySize, entries[..count])
  {
    for i := 0 to count
      invariant forall k :: 0 <= k < i ==> SlotHolds(mem.words, Slot(buffer, entrySize, k), entries[k])
    {
      SlotInBuffer(buffer, entrySize, count, i);
      ghost var before := mem.words;
      StoreDescriptor(mem, Slot(buffer, entrySize, i), entries[i]);
      forall k | 0 <= k < i
        ensures SlotHolds(mem.words, Slot(buffer, entrySize, k), entries[k])
      {
        SlotInBuffer(buffer, entrySize, i, k);
        assert SlotHolds(before, Slot(buffer, entrySize, k), entries[k]);
      }
    }
    forall k | 0 <= k < count
      ensures SlotHolds(mem.words, Slot(buffer, entrySize, k), entries[..count][k])
    {
    }
  }

  /** The extents hold exactly the memory that is usable in the map, and no two of them overlap or touch. */
  ghost predicate AreUsableMemory(extents: seq<(int, int)>, original: seq<Descriptor>) {
    && (forall address :: UsableAt(original, address) <==> exists i :: HeldBy(extents, i, address))
    && (forall i, j :: 0 <= i < |extents| && 0 <= j < |extents| && i != j ==>
          extents[i].0 + extents[i].1 * PAGE < extents[j].0 || extents[j].0 + extents[j].1 * PAGE < extents[i].0)
  }

  predicate HeldBy(extents: seq<(int, int)>, i: int, address: int) {
    0 <= i < |extents| && extents[i].0 <= address < extents[i].0 + extents[i].1 * PAGE
  }

  lemma CleanIsUsableMemory(ds: seq<Descriptor>, original: seq<Descriptor>)
    requires Clean(ds, original)
    ensures AreUsableMemory(Extents(ds), original)
  {
    forall address
      ensures UsableAt(original, address) <==> exists i :: HeldBy(Extents(ds), i, address)
    {
      assert UsableAt(original, address) <==> LiveAt(ds, address);
      if LiveAt(ds, address) {
        var i :| 0 <= i < |ds| && ds[i].Live() && ds[i].Holds(address);
        assert HeldBy(Extents(ds), i, address);
      }
      if i :| HeldBy(Extents(ds), i, address) {
        assert ds[i].Live() && ds[i].Holds(address);
      }
    }
    forall i, j | 0 <= i < |ds| && 0 <= j < |ds| && i != j
      ensures ds[i].start + ds[i].pages * PAGE < ds[j].start || ds[j].start + ds[j].pages * PAGE < ds[i].start
    {
      assert ds[i].Live() && ds[j].Live() && !ds[i].Touches(ds[j]);
      assert if i < j then ds[i].Apart(ds[j]) else ds[j].Apart(ds[i]);
    }
  }

  /**
   * Cleanup and list building on one map. `entries` is the map in the buffer, seen as an array; what the cleanup stores
   * in it is stored in memory before the list is built there. The list is exactly the usable memory of the original
   * map.
   */
  method BuildFromMap(mem: Memory, buffer: uint64, entrySize: int, entries: array<Descriptor>)
      returns (first: uint64, ghost ds: seq<Descriptor>)
    requires WellFormed(entries[..]) && HoldsMap(mem.words, buffer, entrySize, entries[..])
    requires DESC_SIZE <= entrySize && entries.Length < TWO64 && buffer + entries.Length * entrySize <= SIZE_512G
    requires forall a :: UsableAt(entries[..], a) ==>
             a < SIZE_512G && !(buffer <= a < buffer + entries.Length * entrySize)
    modifies mem, entries
    ensures Clean(ds, old(entries[..])) && first == NodePtr(ds, 0) && ListOf(mem.words, ds, |ds|)
    ensures AreUsableMemory(Forward(mem.words, first, |ds|), old(entries[..]))
  {
    ghost var original := entries[..];
    var count := CleanupMemMap(entries);
    ds := entries[..count];
    assert count * entrySize <= entries.Length * entrySize;
    StoreMap(mem, buffer, entrySize, entries, count);
    CleanIsPlaced(buffer, entrySize, ds, original);
    first := Build(mem, buffer, entrySize, count, ds);
    ForwardFrom(mem.words, buffer, entrySize, ds, 0, |ds|);
    CleanIsUsableMemory(ds, original);
    assert Extents(ds)[0..] == Extents(ds);
  }
}
