/**
 * The physical memory map of the boot loader (kernel/Bootloader/physicalMap.cpp): the in-place
 * classification, coalescing and compaction of the UEFI memory map.
 */
module MemoryMap {
  import opened MachineWords

  // EFI_MEMORY_TYPE values
  const EFI_LOADER_CODE := 1
  const EFI_LOADER_DATA := 2
  const EFI_BOOT_SERVICES_CODE := 3
  const EFI_BOOT_SERVICES_DATA := 4
  const EFI_CONVENTIONAL_MEMORY := 7
  const EFI_UNUSABLE_MEMORY := 8

  /** The PhysicalStart that marks an entry as no longer in use, (uint64)-1. */
  const UNUSED: uint64 := TWO64 - 1

  datatype Descriptor = Descriptor(kind: uint32, start: uint64, virtualStart: uint64, pages: uint64, attribute: uint64)
  {
    /** One past the last byte, as the 64-bit code computes it. */
    function End(): uint64 {
      Wrap64(start + pages * PAGE)
    }

    predicate Usable() {
      kind == EFI_LOADER_CODE || kind == EFI_LOADER_DATA || kind == EFI_BOOT_SERVICES_CODE
      || kind == EFI_BOOT_SERVICES_DATA || kind == EFI_CONVENTIONAL_MEMORY
    }

    predicate Live() {
      kind == EFI_CONVENTIONAL_MEMORY && start != UNUSED
    }

    predicate Holds(address: int) {
      start <= address < start + pages * PAGE
    }

    /** Page-aligned, non-empty and not reaching the top of the address space. */
    predicate Sound() {
      start % PAGE == 0 && pages > 0 && start + pages * PAGE < TWO64
    }

    predicate Apart(other: Descriptor) {
      start + pages * PAGE <= other.start || other.start + other.pages * PAGE <= start
    }

    predicate Touches(other: Descriptor) {
      start + pages * PAGE == other.start || other.start + other.pages * PAGE == start
    }
  }

  /** What UEFI promises of its map: usable descriptors are sound and pairwise disjoint. */
  ghost predicate WellFormed(entries: seq<Descriptor>) {
    && (forall i :: 0 <= i < |entries| && entries[i].Usable() ==> entries[i].Sound())
    && (forall i, j :: 0 <= i < j < |entries| && entries[i].Usable() && entries[j].Usable() ==>
        entries[i].Apart(entries[j]))
  }

  ghost predicate UsableAt(entries: seq<Descriptor>, address: int) {
    exists i :: 0 <= i < |entries| && entries[i].Usable() && entries[i].Holds(address)
  }

  ghost predicate LiveAt(entries: seq<Descriptor>, address: int) {
    exists i :: 0 <= i < |entries| && entries[i].Live() && entries[i].Holds(address)
  }

  /** Live entries are sound and pairwise disjoint, and hold exactly the memory usable in `original`. */
  ghost predicate Describes(entries: seq<Descriptor>, original: seq<Descriptor>) {
    && (forall i :: 0 <= i < |entries| && entries[i].Live() ==> entries[i].Sound())
    && (forall i, j :: 0 <= i < j < |entries| && entries[i].Live() && entries[j].Live() ==>
        entries[i].Apart(entries[j]))
    && (forall address :: LiveAt(entries, address) <==> UsableAt(original, address))
  }

  /** No live entry before `limit` touches any other live entry. */
  ghost predicate SettledBelow(entries: seq<Descriptor>, limit: int) {
    forall i, j :: (0 <= i < limit && i < |entries| && 0 <= j < |entries| && i != j
                    && entries[i].Live() && entries[j].Live())
                   ==> !entries[i].Touches(entries[j])
  }

  ghost function LiveSet(entries: seq<Descriptor>): set<int> {
    set i | 0 <= i < |entries| && entries[i].Live()
  }

  // ----- Phase 1: classification

  function Classified(d: Descriptor): Descriptor {
    if d.Usable() then d.(kind := EFI_CONVENTIONAL_MEMORY) else d.(kind := EFI_UNUSABLE_MEMORY, start := UNUSED)
  }

  /** Every entry that is not usable carries the unused mark. */
  ghost predicate Marked(entries: seq<Descriptor>) {
    forall i :: 0 <= i < |entries| && entries[i].start != UNUSED ==> entries[i].kind == EFI_CONVENTIONAL_MEMORY
  }

  method Classify(entries: array<Descriptor>)
    modifies entries
    ensures forall i :: 0 <= i < entries.Length ==> entries[i] == Classified(old(entries[i]))
  {
    for s := 0 to entries.Length
      invariant forall i :: 0 <= i < s ==> entries[i] == Classified(old(entries[i]))
      invariant forall i :: s <= i < entries.Length ==> entries[i] == old(entries[i])
    {
      if entries[s].Usable() {
        entries[s] := entries[s].(kind := EFI_CONVENTIONAL_MEMORY);
      } else {
        entries[s] := entries[s].(kind := EFI_UNUSABLE_MEMORY);
        entries[s] := entries[s].(start := UNUSED);
      }
    }
  }

  lemma ClassifiedDescribes(entries: seq<Descriptor>, original: seq<Descriptor>)
    requires WellFormed(original)
    requires |entries| == |original| && forall i :: 0 <= i < |entries| ==> entries[i] == Classified(original[i])
    ensures Describes(entries, original) && Marked(entries)
  {
    forall i | 0 <= i < |entries|
      ensures entries[i].Live() <==> original[i].Usable()
    {
      assert original[i].Usable() ==> original[i].Sound();
    }
    forall address
      ensures LiveAt(entries, address) <==> UsableAt(original, address)
    {
      if LiveAt(entries, address) {
        var i :| 0 <= i < |entries| && entries[i].Live() && entries[i].Holds(address);
        assert original[i].Usable() && original[i].Holds(address);
      }
      if UsableAt(original, address) {
        var i :| 0 <= i < |entries| && original[i].Usable() && original[i].Holds(address);
        assert entries[i].Live() && entries[i].Holds(address);
      }
    }
  }

  // ----- Phase 2: coalescing

  /** Entry `c` joined to entry `s`, behind it or in front of it. */
  function Joined(entries: seq<Descriptor>, s: nat, c: nat, front: bool): (joined: seq<Descriptor>)
    requires s < c < |entries|
    ensures |joined| == |entries|
  {
    var start := if front then entries[c].start else entries[s].start;
    var pages := Wrap64(entries[s].pages + entries[c].pages);
    entries[s := entries[s].(start := start, pages := pages)][c := entries[c].(start := UNUSED)]
  }

  lemma JoinedLiveSet(entries: seq<Descriptor>, s: nat, c: nat, front: bool)
    requires s < c < |entries| && entries[s].Live() && entries[c].Live()
    ensures LiveSet(Joined(entries, s, c, front)) == LiveSet(entries) - {c} < LiveSet(entries)
  {
    var after := Joined(entries, s, c, front);
    forall i
      ensures i in LiveSet(after) <==> i in LiveSet(entries) - {c}
    {
      if 0 <= i < |entries| && i != s && i != c {
        assert after[i] == entries[i];
      }
    }
    assert c in LiveSet(entries);
  }

  /** Two touching disjoint entries join into the entry that holds exactly their addresses. */
  lemma JoinedEntry(entries: seq<Descriptor>, s: nat, c: nat, front: bool)
    requires s < c < |entries| && entries[s].Live() && entries[c].Live()
    requires entries[s].Sound() && entries[c].Sound() && entries[s].Apart(entries[c])
    requires if front then entries[c].End() == entries[s].start else entries[c].start == entries[s].End()
    ensures var seg := Joined(entries, s, c, front)[s];
            && seg.Live() && seg.Sound()
            && (forall address :: seg.Holds(address) <==> entries[s].Holds(address) || entries[c].Holds(address))
            && (forall d: Descriptor :: d.Apart(entries[s]) && d.Apart(entries[c]) && d.pages > 0 ==> d.Apart(seg))
            && (forall d: Descriptor :: d.Touches(seg) ==> d.Touches(entries[s]) || d.Touches(entries[c]))
  {
  }

  lemma JoinedDescribes(entries: seq<Descriptor>, original: seq<Descriptor>, s: nat, c: nat, front: bool)
    requires Describes(entries, original)
    requires s < c < |entries| && entries[s].Live() && entries[c].Live()
    requires if front then entries[c].End() == entries[s].start else entries[c].start == entries[s].End()
    ensures Describes(Joined(entries, s, c, front), original)
  {
    var after := Joined(entries, s, c, front);
    JoinedEntry(entries, s, c, front);
    assert forall i :: 0 <= i < |entries| && i != s && i != c ==> after[i] == entries[i];
    assert forall i, j :: 0 <= i < j < |entries| && entries[i].Live() && entries[j].Live() ==>
      entries[i].Apart(entries[j]);
    forall i, j | 0 <= i < j < |after| && after[i].Live() && after[j].Live()
      ensures after[i].Apart(after[j])
    {
      if i == s {
        assert entries[j].Apart(entries[s]) && entries[j].Apart(entries[c]);
      } else if j == s {
        assert entries[i].Apart(entries[s]) && entries[i].Apart(entries[c]);
      }
    }
    forall address
      ensures LiveAt(after, address) <==> LiveAt(entries, address)
    {
      if LiveAt(entries, address) {
        var i :| 0 <= i < |entries| && entries[i].Live() && entries[i].Holds(address);
        var k := if i == c then s else i;
        assert after[k].Live() && after[k].Holds(address);
      }
      if LiveAt(after, address) {
        var i :| 0 <= i < |after| && after[i].Live() && after[i].Holds(address);
        if i == s && !entries[s].Holds(address) {
          assert entries[c].Holds(address);
        } else {
          assert entries[i].Live() && entries[i].Holds(address);
        }
      }
    }
  }

  /** An earlier entry was compared with both parts, so it does not touch the joined entry either. */
  lemma JoinedSettled(entries: seq<Descriptor>, original: seq<Descriptor>, s: nat, c: nat, front: bool)
    requires Describes(entries, original)
    requires s < c < |entries| && entries[s].Live() && entries[c].Live()
    requires if front then entries[c].End() == entries[s].start else entries[c].start == entries[s].End()
    requires SettledBelow(entries, s)
    ensures SettledBelow(Joined(entries, s, c, front), s)
  {
    var after := Joined(entries, s, c, front);
    JoinedEntry(entries, s, c, front);
    forall i, j | 0 <= i < s && 0 <= j < |after| && i != j && after[i].Live() && after[j].Live()
      ensures !after[i].Touches(after[j])
    {
      assert after[i] == entries[i];
      assert !entries[i].Touches(entries[s]) && !entries[i].Touches(entries[c]);
    }
  }

  ghost predicate Joinable(entries: seq<Descriptor>, s: nat, c: nat, front: bool) {
    && s < c < |entries| && entries[s].Live() && entries[c].Live()
    && if front then entries[c].End() == entries[s].start else entries[c].start == entries[s].End()
  }

  /** Joins the first later entry that touches entry `s` to it; changes nothing if there is none. */
  method JoinNeighbour(entries: array<Descriptor>, s: uint64) returns (joined: bool, ghost c: nat, ghost front: bool)
    requires s < entries.Length < TWO64 && entries[s].Live()
    modifies entries
    ensures joined ==> Joinable(old(entries[..]), s, c, front)
                       && entries[..] == Joined(old(entries[..]), s, c, front)
    ensures !joined ==> entries[..] == old(entries[..])
                        && forall k :: s < k < entries.Length && entries[k].Live()
                                       ==> entries[k].start != entries[s].End() && entries[k].End() != entries[s].start
  {
    var start := entries[s].start;
    var end := entries[s].End();
    var k := s + 1;
    while k < entries.Length
      invariant s < k <= entries.Length
      invariant entries[..] == old(entries[..])
      invariant forall j :: s < j < k && entries[j].Live() ==> entries[j].start != end && entries[j].End() != start
    {
      var cmp := entries[k];
      if cmp.kind == EFI_CONVENTIONAL_MEMORY && cmp.start != UNUSED {
        var cmpStart := cmp.start;
        var cmpEnd := cmp.End();
        if cmpStart == end {
          entries[s] := entries[s].(pages := Wrap64(entries[s].pages + cmp.pages));
          entries[k] := entries[k].(start := UNUSED);
          return true, k, false;
        } else if cmpEnd == start {
          entries[s] := entries[s].(start := cmp.start);
          entries[s] := entries[s].(pages := Wrap64(entries[s].pages + cmp.pages));
          entries[k] := entries[k].(start := UNUSED);
          return true, k, true;
        }
      }
      k := k + 1;
    }
    return false, 0, false;
  }

  /** One join keeps everything the loop has established and leaves one live entry fewer. */
  lemma JoinedKeeps(entries: seq<Descriptor>, original: seq<Descriptor>, s: nat, c: nat, front: bool)
    requires Joinable(entries, s, c, front)
    ensures LiveSet(Joined(entries, s, c, front)) < LiveSet(entries)
    ensures Marked(entries) ==> Marked(Joined(entries, s, c, front))
    ensures Describes(entries, original) && SettledBelow(entries, s)
            ==> Describes(Joined(entries, s, c, front), original) && SettledBelow(Joined(entries, s, c, front), s)
  {
    JoinedLiveSet(entries, s, c, front);
    if Describes(entries, original) && SettledBelow(entries, s) {
      JoinedDescribes(entries, original, s, c, front);
      JoinedSettled(entries, original, s, c, front);
    }
  }

  /** An entry that no later entry touches is settled: earlier ones were settled against it before. */
  lemma SettledNext(entries: seq<Descriptor>, original: seq<Descriptor>, s: nat)
    requires Describes(entries, original) && SettledBelow(entries, s) && s < |entries|
    requires entries[s].Live() ==> forall k :: s < k < |entries| && entries[k].Live()
                                               ==> (entries[k].start != entries[s].End()
                                                    && entries[k].End() != entries[s].start)
    ensures SettledBelow(entries, s + 1)
  {
    forall j | 0 <= j < |entries| && s != j && entries[s].Live() && entries[j].Live()
      ensures !entries[s].Touches(entries[j])
    {
      assert entries[s].Sound() && entries[j].Sound();
      assert j < s ==> !entries[j].Touches(entries[s]);
    }
  }

  method Coalesce(entries: array<Descriptor>, ghost original: seq<Descriptor>)
    requires entries.Length < TWO64
    modifies entries
    ensures old(Marked(entries[..])) ==> Marked(entries[..])
    ensures old(Describes(entries[..], original)) ==>
            Describes(entries[..], original) && SettledBelow(entries[..], entries.Length)
  {
    ghost var good := Describes(entries[..], original);
    ghost var marked := Marked(entries[..]);
    var s: uint64 := 0;
    while s < entries.Length
      invariant s <= entries.Length
      invariant marked ==> Marked(entries[..])
      invariant good ==> Describes(entries[..], original) && SettledBelow(entries[..], s)
      decreases LiveSet(entries[..]), entries.Length - s
    {
      ghost var before := entries[..];
      var joined := false;
      if entries[s].kind == EFI_CONVENTIONAL_MEMORY && entries[s].start != UNUSED {
        ghost var c, front;
        joined, c, front := JoinNeighbour(entries, s);
        if joined {
          JoinedKeeps(before, original, s, c, front);
          s := Decrement(s);
        }
      }
      if good && !joined {
        SettledNext(before, original, s);
      }
      s := Increment(s);
    }
  }

  // ----- Phase 3: compaction

  /** The entries still in use, in order. */
  function InUse(entries: seq<Descriptor>): (kept: seq<Descriptor>)
    ensures |kept| <= |entries|
  {
    if entries == [] then []
    else if entries[0].start != UNUSED then [entries[0]] + InUse(entries[1..])
    else InUse(entries[1..])
  }

  lemma InUseAppend(entries: seq<Descriptor>, d: Descriptor)
    ensures InUse(entries + [d]) == InUse(entries) + if d.start != UNUSED then [d] else []
  {
    if entries == [] {
    } else {
      assert (entries + [d])[1..] == entries[1..] + [d];
    }
  }

  /** Moves the entries behind `s` one place down, over entry `s`. */
  method ShiftDown(entries: array<Descriptor>, s: nat, count: nat)
    requires s < count <= entries.Length
    modifies entries
    ensures entries[..count - 1] == old(entries[..count])[..s] + old(entries[..count])[s + 1..]
  {
    var m := s + 1;
    while m < count
      invariant s < m <= count
      invariant forall i :: 0 <= i < s || m <= i < count ==> entries[i] == old(entries[i])
      invariant forall i :: s <= i < m - 1 ==> entries[i] == old(entries[i + 1])
    {
      entries[m - 1] := entries[m];
      m := m + 1;
    }
    ghost var was := old(entries[..count]);
    assert forall i :: 0 <= i < count - 1 ==> entries[i] == (was[..s] + was[s + 1..])[i];
  }

  /** `entries` is the compacted part of the first `read` originals, of length `s`, followed by the rest. */
  ghost predicate CompactedUpTo(entries: seq<Descriptor>, original: seq<Descriptor>, read: int, s: int) {
    0 <= read <= |original| && s == |InUse(original[..read])| && entries == InUse(original[..read]) + original[read..]
  }

  /** Deciding one more entry: it stays where it is, or the entries behind it move down over it. */
  lemma CompactStep(entries: seq<Descriptor>, original: seq<Descriptor>, read: int, s: int)
    requires CompactedUpTo(entries, original, read, s) && read < |original|
    ensures 0 <= s < |entries| && entries[s] == original[read]
    ensures |entries| - s == |original| - read
    ensures if entries[s].start != UNUSED then CompactedUpTo(entries, original, read + 1, s + 1)
            else CompactedUpTo(entries[..s] + entries[s + 1..], original, read + 1, s)
  {
    assert original[..read + 1] == original[..read] + [original[read]];
    InUseAppend(original[..read], original[read]);
    assert original[read..] == [original[read]] + original[read + 1..];
  }

  lemma CompactEnds(entries: seq<Descriptor>, original: seq<Descriptor>, read: int, s: int)
    requires CompactedUpTo(entries, original, read, s)
    ensures |entries| - s == |original| - read
    ensures s == |entries| ==> entries == InUse(original)
  {
    assert |entries| == s + |original[read..]|;
    if s == |entries| {
      assert original[read..] == [] && original[..read] == original;
      assert InUse(original) + [] == InUse(original);
    }
  }

  method Compact(entries: array<Descriptor>) returns (count: nat)
    requires entries.Length < TWO64
    modifies entries
    ensures count <= entries.Length && entries[..count] == InUse(old(entries[..]))
  {
    ghost var original := entries[..];
    ghost var read := 0;  // how many of the original entries have been decided
    assert original == InUse(original[..0]) + original[0..];
    var s: uint64 := 0;
    count := entries.Length;
    while s < count
      invariant s <= count <= entries.Length
      invariant CompactedUpTo(entries[..count], original, read, s)
      decreases count - s
    {
      CompactEnds(entries[..count], original, read, s);
      CompactStep(entries[..count], original, read, s);
      if entries[s].start == UNUSED {
        ShiftDown(entries, s, count);
        count := count - 1;
        s := Decrement(s);
      }
      read := read + 1;
      s := Increment(s);
    }
    CompactEnds(entries[..count], original, read, s);
  }

  /** The positions the kept entries had, strictly increasing and missing none in use. */
  lemma {:induction false} InUsePositions(entries: seq<Descriptor>) returns (at: seq<int>)
    ensures |at| == |InUse(entries)|
    ensures forall i :: 0 <= i < |at| ==> 0 <= at[i] < |entries| && entries[at[i]] == InUse(entries)[i]
    ensures forall i, j :: 0 <= i < j < |at| ==> at[i] < at[j]
    ensures forall k :: 0 <= k < |entries| && entries[k].start != UNUSED ==> k in at
  {
    if entries == [] {
      at := [];
    } else {
      var n := |entries| - 1;
      assert entries == entries[..n] + [entries[n]];
      InUseAppend(entries[..n], entries[n]);
      var earlier := InUsePositions(entries[..n]);
      at := earlier + if entries[n].start != UNUSED then [n] else [];
      assert entries[n].start != UNUSED ==> at[|earlier|] == n;
      forall k | 0 <= k < |entries| && entries[k].start != UNUSED
        ensures k in at
      {
        if k < n {
          assert entries[..n][k] == entries[k];
        }
      }
    }
  }

  ghost predicate AllLive(entries: seq<Descriptor>) {
    forall i :: 0 <= i < |entries| ==> entries[i].Live()
  }

  /** A cleaned map: exactly the usable memory of `original`, disjoint, and as few entries as possible. */
  ghost predicate Clean(entries: seq<Descriptor>, original: seq<Descriptor>) {
    AllLive(entries) && Describes(entries, original) && SettledBelow(entries, |entries|)
  }

  lemma InUseClean(entries: seq<Descriptor>, original: seq<Descriptor>)
    requires Marked(entries)
    ensures AllLive(InUse(entries))
    ensures Describes(entries, original) && SettledBelow(entries, |entries|) ==> Clean(InUse(entries), original)
  {
    var kept := InUse(entries);
    var at := InUsePositions(entries);
    forall i | 0 <= i < |kept|
      ensures kept[i].Live()
    {
      InUseMembers(entries, i);
    }
    if Describes(entries, original) && SettledBelow(entries, |entries|) {
      forall address
        ensures LiveAt(kept, address) <==> LiveAt(entries, address)
      {
        KeptLive(entries, kept, at, address);
      }
    }
  }

  lemma KeptLive(entries: seq<Descriptor>, kept: seq<Descriptor>, at: seq<int>, address: int)
    requires |at| == |kept| && forall i :: 0 <= i < |at| ==> 0 <= at[i] < |entries| && entries[at[i]] == kept[i]
    requires forall k :: 0 <= k < |entries| && entries[k].start != UNUSED ==> k in at
    requires Marked(entries)
    ensures LiveAt(kept, address) <==> LiveAt(entries, address)
  {
    if LiveAt(kept, address) {
      var i :| 0 <= i < |kept| && kept[i].Live() && kept[i].Holds(address);
      assert entries[at[i]].Live() && entries[at[i]].Holds(address);
    }
    if LiveAt(entries, address) {
      var k :| 0 <= k < |entries| && entries[k].Live() && entries[k].Holds(address);
      var i :| 0 <= i < |at| && at[i] == k;
      assert kept[i].Live() && kept[i].Holds(address);
    }
  }

  lemma {:induction false} InUseMembers(entries: seq<Descriptor>, i: nat)
    requires i < |InUse(entries)|
    ensures InUse(entries)[i] in entries && InUse(entries)[i].start != UNUSED
  {
    if entries[0].start != UNUSED {
      if i > 0 {
        InUseMembers(entries[1..], i - 1);
      }
    } else {
      InUseMembers(entries[1..], i);
    }
  }

  // ----- The whole cleanup

  /** A descriptor of one of these types of the UEFI specification holds the address. */
  ghost predicate OfTypesAt(types: set<int>, entries: seq<Descriptor>, address: int) {
    exists i :: 0 <= i < |entries| && entries[i].kind in types && entries[i].Holds(address)
  }

  /** Memory that survives is conventional memory and that of loader and boot services, code and data. */
  lemma UsableTypes(entries: seq<Descriptor>)
    ensures forall address :: UsableAt(entries, address) <==> OfTypesAt({1, 2, 3, 4, 7}, entries, address)
  {
    forall address
      ensures UsableAt(entries, address) <==> OfTypesAt({1, 2, 3, 4, 7}, entries, address)
    {
      if UsableAt(entries, address) {
        var i :| 0 <= i < |entries| && entries[i].Usable() && entries[i].Holds(address);
        assert entries[i].kind in {1, 2, 3, 4, 7};
      }
      if OfTypesAt({1, 2, 3, 4, 7}, entries, address) {
        var i :| 0 <= i < |entries| && entries[i].kind in {1, 2, 3, 4, 7} && entries[i].Holds(address);
        assert entries[i].Usable();
      }
    }
  }

  method CleanupMemMap(entries: array<Descriptor>) returns (count: nat)
    requires entries.Length < TWO64
    modifies entries
    ensures count <= entries.Length
    ensures AllLive(entries[..count])
    ensures WellFormed(old(entries[..])) ==> Clean(entries[..count], old(entries[..]))
    ensures WellFormed(old(entries[..])) ==>
              forall address ::
                LiveAt(entries[..count], address) <==> OfTypesAt({1, 2, 3, 4, 7}, old(entries[..]), address)
  {
    ghost var original := entries[..];
    UsableTypes(original);
    Classify(entries);
    if WellFormed(original) {
      ClassifiedDescribes(entries[..], original);
    }
    Coalesce(entries, original);
    ghost var coalesced := entries[..];
    count := Compact(entries);
    InUseClean(coalesced, original);
  }

  /** Every entry of a cleaned map is one maximal run of usable memory, so the map has no redundancy left. */
  lemma CleanIsMaximal(entries: seq<Descriptor>, original: seq<Descriptor>, i: nat)
    requires Clean(entries, original) && i < |entries|
    ensures var d := entries[i];
            && d.start % 4096 == 0 && d.pages > 0
            && (forall address :: d.start <= address < d.start + d.pages * 4096 ==> UsableAt(original, address))
            && !UsableAt(original, d.start - 1)
            && !UsableAt(original, d.start + d.pages * 4096)
  {
    var d := entries[i];
    forall address | d.Holds(address)
      ensures UsableAt(original, address)
    {
      assert LiveAt(entries, address);
    }
    forall j | 0 <= j < |entries| && entries[j].Live()
      ensures !entries[j].Holds(d.start - 1) && !entries[j].Holds(d.start + d.pages * PAGE)
    {
      assert entries[i].Sound() && entries[j].Sound();
      if i != j {
        assert entries[i].Apart(entries[j]) || entries[j].Apart(entries[i]);
        assert !entries[i].Touches(entries[j]);
      }
    }
    assert LiveAt(entries, d.start - 1) <==> UsableAt(original, d.start - 1);
    assert LiveAt(entries, d.start + d.pages * PAGE) <==> UsableAt(original, d.start + d.pages * PAGE);
  }
}
