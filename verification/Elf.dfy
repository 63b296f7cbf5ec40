/**
 * Loading the kernel image (kernel/Bootloader/ELF.cpp): segments are copied into a buffer and relative relocations of
 * the System V ABI (AMD64 supplement, section 4.4) are applied in it.
 */
module Elf {
  import opened MachineWords
  import opened LittleEndian
  import opened Wrappers

  const HEADER_SIZE := 64
  const SEGMENT_SIZE := 56
  const DYNAMIC_SIZE := 16
  const RELA_SIZE := 24

  const PT_LOAD := 1
  const PT_DYNAMIC := 2

  const DT_NULL := 0
  const DT_RELA := 7
  const DT_RELASZ := 8
  const DT_RELAENT := 9

  const R_RELATIVE := 8

  // ----- The file

  datatype Segment = Segment(kind: nat, dataOffset: uint64, virtualAddress: uint64, dataSize: uint64,
                             virtualSize: uint64) {
    /** The number of bytes stored for a loaded segment. */
    function Extent(): nat {
      if dataSize <= virtualSize then virtualSize else dataSize
    }
  }

  /** The header and the program headers it names lie in the file. */
  predicate HeaderFits(file: Bytes) {
    |file| >= HEADER_SIZE && Word64(file, 32) + SEGMENT_SIZE * Word(file, 56, 2) <= |file|
  }

  function EntryPoint(file: Bytes): uint64
    requires HeaderFits(file)
  {
    Word64(file, 24)
  }

  function SegmentAt(file: Bytes, at: nat): Segment
    requires at + SEGMENT_SIZE <= |file|
  {
    Segment(Word(file, at, 4), Word64(file, at + 8), Word64(file, at + 16), Word64(file, at + 32),
            Word64(file, at + 40))
  }

  function Segments(file: Bytes): (segments: seq<Segment>)
    requires HeaderFits(file)
    ensures |segments| == Word(file, 56, 2)
  {
    var count := Word(file, 56, 2);
    seq(count, s requires 0 <= s < count => SegmentAt(file, Word64(file, 32) + SEGMENT_SIZE * s))
  }

  /** The largest end address of a loaded segment, with 64-bit wrap-around; zero if there is none. */
  ghost predicate IsImageSize(segments: seq<Segment>, size: uint64) {
    && (forall s :: 0 <= s < |segments| && segments[s].kind == PT_LOAD ==>
          Add64(segments[s].virtualAddress, segments[s].virtualSize) <= size)
    && (size == 0 || exists s :: 0 <= s < |segments| && segments[s].kind == PT_LOAD
                                 && Add64(segments[s].virtualAddress, segments[s].virtualSize) == size)
  }

  method GetELFSize(image: Bytes) returns (size: uint64)
    requires HeaderFits(image)
    ensures IsImageSize(Segments(image), size)
  {
    size := 0;
    ghost var segments := Segments(image);
    for s := 0 to Word(image, 56, 2)
      invariant IsImageSize(segments[..s], size)
    {
      ghost var before := size;
      var segment := SegmentAt(image, Word64(image, 32) + SEGMENT_SIZE * s);
      assert segments[..s + 1] == segments[..s] + [segment];
      if segment.kind == PT_LOAD {
        var offs := Add64(segment.virtualAddress, segment.virtualSize);
        if offs > size {
          size := offs;
          assert segments[..s + 1][s] == segment;
        }
      }
      if size == before && size != 0 {
        var k :| 0 <= k < s && segments[..s][k].kind == PT_LOAD
                 && Add64(segments[..s][k].virtualAddress, segments[..s][k].virtualSize) == size;
        assert segments[..s + 1][k] == segments[..s][k];
      }
    }
    assert segments[..|segments|] == segments;
  }

  // ----- What loading does to the buffer

  /** Fault: an access outside the file or the buffer, a division by zero, or a relocation loop that does not end. */
  datatype Result = Fault | Done(mem: Bytes, ok: bool)

  predicate LoadFits(size: nat, file: Bytes, segment: Segment) {
    && (segment.Extent() > 0 ==> segment.virtualAddress + segment.Extent() <= size)
    && (segment.dataSize > 0 ==> segment.dataOffset + segment.dataSize <= |file|)
  }

  /** The byte at offset `j` of the buffer after a segment has been loaded. */
  function LoadedByte(mem: Bytes, file: Bytes, segment: Segment, j: int): uint8
    requires LoadFits(|mem|, file, segment) && 0 <= j < |mem|
  {
    if segment.virtualAddress <= j < segment.virtualAddress + segment.dataSize then
      file[segment.dataOffset + (j - segment.virtualAddress)]
    else if segment.virtualAddress <= j < segment.virtualAddress + segment.virtualSize then 0
    else mem[j]
  }

  function Load(mem: Bytes, file: Bytes, segment: Segment): (loaded: Bytes)
    requires LoadFits(|mem|, file, segment)
    ensures |loaded| == |mem|
  {
    seq(|mem|, j requires 0 <= j < |mem| => LoadedByte(mem, file, segment, j))
  }

  datatype RelaTable = RelaTable(address: uint64, size: uint64, entrySize: uint64)

  /** Reads the dynamic table from `at` up to its null entry; the last entry of each kind counts. */
  function ScanDynamic(mem: Bytes, at: nat, table: RelaTable): Option<RelaTable>
    decreases |mem| - at
  {
    if at + 8 > |mem| then None
    else if Word64(mem, at) == DT_NULL then Some(table)
    else if at + DYNAMIC_SIZE > |mem| then None
    else ScanDynamic(mem, at + DYNAMIC_SIZE, WithEntry(table, Word64(mem, at), Word64(mem, at + 8)))
  }

  function WithEntry(table: RelaTable, tag: uint64, value: uint64): RelaTable {
    if tag == DT_RELA then table.(address := value)
    else if tag == DT_RELASZ then table.(size := value)
    else if tag == DT_RELAENT then table.(entrySize := value)
    else table
  }

  datatype Rela = Rela(address: uint64, info: uint64, addend: uint64) {
    predicate Relative() {
      info % TWO32 == R_RELATIVE
    }
  }

  function RelaAt(mem: Bytes, at: nat): Rela
    requires at + RELA_SIZE <= |mem|
  {
    Rela(Word64(mem, at), Word64(mem, at + 8), Word64(mem, at + 16))
  }

  /** The relocation whose table entry is at offset `at`. */
  function RelocateOne(mem: Bytes, base: uint64, at: nat): Result {
    if at + RELA_SIZE > |mem| then Fault
    else
      var rela := RelaAt(mem, at);
      if !rela.Relative() then Done(mem, false)
      else if rela.address + 8 > |mem| then Fault
      else Done(Put64(mem, rela.address, Add64(rela.addend, base)), true)
  }

  /** Relocations `i` and on, each read from the buffer that the earlier ones have changed. */
  function Relocate(mem: Bytes, base: uint64, table: nat, count: nat, i: nat): Result
    requires i <= count
    decreases count - i
  {
    if i == count then Done(mem, true)
    else
      match RelocateOne(mem, base, table + RELA_SIZE * i)
      case Fault => Fault
      case Done(m, ok) => if ok then Relocate(m, base, table, count, i + 1) else Done(m, false)
  }

  const NO_TABLE := RelaTable(0, 0, RELA_SIZE)

  /** The loop counter is 32 bits wide, so that it never reaches a count of 2^32 or more. */
  predicate Countable(table: RelaTable) {
    table.entrySize != 0 && table.size / table.entrySize < TWO32
  }

  function Link(mem: Bytes, at: nat, base: uint64): Result {
    match ScanDynamic(mem, at, NO_TABLE)
    case None => Fault
    case Some(table) =>
      if Countable(table) then Relocate(mem, base, table.address, table.size / table.entrySize, 0) else Fault
  }

  function PrepareSegment(mem: Bytes, file: Bytes, segment: Segment, base: uint64): Result {
    if segment.kind == PT_LOAD then
      if LoadFits(|mem|, file, segment) then Done(Load(mem, file, segment), true) else Fault
    else if segment.kind == PT_DYNAMIC then Link(mem, segment.virtualAddress, base)
    else Done(mem, true)
  }

  function Prepare(mem: Bytes, file: Bytes, segments: seq<Segment>, base: uint64): Result
    decreases |segments|
  {
    if segments == [] then Done(mem, true)
    else
      match PrepareSegment(mem, file, segments[0], base)
      case Fault => Fault
      case Done(m, ok) => if ok then Prepare(m, file, segments[1..], base) else Done(m, false)
  }

  // ----- The loader itself

  method LoadSegment(file: Bytes, dest: array<uint8>, segment: Segment)
    requires LoadFits(dest.Length, file, segment)
    modifies dest
    ensures dest[..] == Load(old(dest[..]), file, segment)
  {
    var va := segment.virtualAddress;
    var i := 0;
    while i < segment.dataSize
      invariant 0 <= i <= segment.dataSize
      invariant forall j :: 0 <= j < dest.Length ==>
                              dest[j] == if va <= j < va + i then file[segment.dataOffset + (j - va)] else old(dest[j])
    {
      dest[va + i] := file[segment.dataOffset + i];
      i := i + 1;
    }
    while i < segment.virtualSize
      invariant segment.dataSize <= i <= segment.Extent()
      invariant forall j :: 0 <= j < dest.Length ==>
                              dest[j] == if va <= j < va + segment.dataSize then file[segment.dataOffset + (j - va)]
                                         else if va <= j < va + i then 0 else old(dest[j])
    {
      dest[va + i] := 0;
      i := i + 1;
    }
  }

  method Store64(dest: array<uint8>, at: nat, v: uint64)
    requires at + 8 <= dest.Length
    modifies dest
    ensures dest[..] == Put64(old(dest[..]), at, v)
  {
    var bytes := Encode(v, 8);
    forall k | 0 <= k < 8 {
      dest[at + k] := bytes[k];
    }
    assert forall j :: at <= j < at + 8 ==> dest[j] == bytes[j - at];
  }

  method ReadDynamic(dest: array<uint8>, at: nat) returns (table: RelaTable)
    requires ScanDynamic(dest[..], at, NO_TABLE).Some?
    ensures Some(table) == ScanDynamic(dest[..], at, NO_TABLE)
  {
    table := NO_TABLE;
    var dyn := at;
    while Word64(dest[..], dyn) != DT_NULL
      invariant dyn + 8 <= dest.Length
      invariant ScanDynamic(dest[..], at, NO_TABLE) == ScanDynamic(dest[..], dyn, table)
      decreases dest.Length - dyn
    {
      table := WithEntry(table, Word64(dest[..], dyn), Word64(dest[..], dyn + 8));
      dyn := dyn + DYNAMIC_SIZE;
    }
  }

  method ApplyRelocation(dest: array<uint8>, base: uint64, at: nat) returns (ok: bool)
    requires !RelocateOne(dest[..], base, at).Fault?
    modifies dest
    ensures Done(dest[..], ok) == RelocateOne(old(dest[..]), base, at)
  {
    var rela := RelaAt(dest[..], at);
    if !rela.Relative() {
      return false;
    }
    Store64(dest, rela.address, Add64(rela.addend, base));
    return true;
  }

  method ApplyRelocations(dest: array<uint8>, base: uint64, table: nat, count: uint32) returns (ok: bool)
    requires !Relocate(dest[..], base, table, count, 0).Fault?
    modifies dest
    ensures Done(dest[..], ok) == Relocate(old(dest[..]), base, table, count, 0)
  {
    ghost var result := Relocate(dest[..], base, table, count, 0);
    for i := 0 to count
      invariant result == Relocate(dest[..], base, table, count, i)
    {
      var applied := ApplyRelocation(dest, base, table + RELA_SIZE * i);
      if !applied {
        return false;
      }
    }
    return true;
  }

  method LinkImage(dest: array<uint8>, at: nat, base: uint64) returns (ok: bool)
    requires !Link(dest[..], at, base).Fault?
    modifies dest
    ensures Done(dest[..], ok) == Link(old(dest[..]), at, base)
  {
    LinkedBy(dest[..], at, base);
    var table := ReadDynamic(dest, at);
    var relaCount: uint32 := table.size / table.entrySize;
    ok := ApplyRelocations(dest, base, table.address, relaCount);
  }

  lemma LinkedBy(mem: Bytes, at: nat, base: uint64)
    requires !Link(mem, at, base).Fault?
    ensures ScanDynamic(mem, at, NO_TABLE).Some?
    ensures var table := ScanDynamic(mem, at, NO_TABLE).value;
            && table.entrySize != 0 && table.size / table.entrySize < TWO32
            && Relocate(mem, base, table.address, table.size / table.entrySize, 0) == Link(mem, at, base)
  {
  }

  method PrepareOne(diskImg: Bytes, dest: array<uint8>, segment: Segment, base: uint64) returns (ok: bool)
    requires !PrepareSegment(dest[..], diskImg, segment, base).Fault?
    modifies dest
    ensures Done(dest[..], ok) == PrepareSegment(old(dest[..]), diskImg, segment, base)
  {
    ok := true;
    if segment.kind == PT_LOAD {
      LoadSegment(diskImg, dest, segment);
    } else if segment.kind == PT_DYNAMIC {
      ok := LinkImage(dest, segment.virtualAddress, base);
    }
  }

  /** What is done for program header `s`. */
  method PrepareAt(diskImg: Bytes, dest: array<uint8>, s: nat, base: uint64) returns (ok: bool)
    requires HeaderFits(diskImg) && s < |Segments(diskImg)|
    requires !PrepareSegment(dest[..], diskImg, Segments(diskImg)[s], base).Fault?
    modifies dest
    ensures Done(dest[..], ok) == PrepareSegment(old(dest[..]), diskImg, Segments(diskImg)[s], base)
  {
    var segment := SegmentAt(diskImg, Word64(diskImg, 32) + SEGMENT_SIZE * s);
    assert segment == Segments(diskImg)[s];
    ok := PrepareOne(diskImg, dest, segment, base);
  }

  lemma PrepareNext(mem: Bytes, file: Bytes, segments: seq<Segment>, s: nat, base: uint64)
    requires s < |segments|
    ensures Prepare(mem, file, segments[s..], base)
            == match PrepareSegment(mem, file, segments[s], base)
               case Fault => Fault
               case Done(m, ok) => if ok then Prepare(m, file, segments[s + 1..], base) else Done(m, false)
  {
    assert segments[s..][0] == segments[s] && segments[s..][1..] == segments[s + 1..];
  }

  /** The entry point is stored only if everything went well. Addresses in the buffer are offsets from `base`. */
  method PrepareELF(diskImg: Bytes, dest: array<uint8>, base: uint64) returns (ok: bool, entryPoint: Option<uint64>)
    requires HeaderFits(diskImg) && !Prepare(dest[..], diskImg, Segments(diskImg), base).Fault?
    modifies dest
    ensures Done(dest[..], ok) == Prepare(old(dest[..]), diskImg, Segments(diskImg), base)
    ensures entryPoint == if ok then Some(Add64(base, EntryPoint(diskImg))) else None
  {
    ghost var segments := Segments(diskImg);
    ghost var result := Prepare(dest[..], diskImg, segments, base);
    for s := 0 to Word(diskImg, 56, 2)
      invariant result == Prepare(dest[..], diskImg, segments[s..], base)
    {
      PrepareNext(dest[..], diskImg, segments, s, base);
      var prepared := PrepareAt(diskImg, dest, s, base);
      if !prepared {
        return false, None;
      }
    }
    return true, Some(Add64(base, EntryPoint(diskImg)));
  }

  // ----- What relocation comes to

  function Relas(mem: Bytes, table: nat, count: nat): (relas: seq<Rela>)
    requires table + RELA_SIZE * count <= |mem|
    ensures |relas| == count
  {
    seq(count, i requires 0 <= i < count => RelaAt(mem, table + RELA_SIZE * i))
  }

  predicate Hits(rela: Rela, j: int) {
    rela.address <= j < rela.address + 8
  }

  predicate HitsBefore(relas: seq<Rela>, n: nat, j: int)
    requires n <= |relas|
  {
    exists k :: 0 <= k < n && Hits(relas[k], j)
  }

  lemma HitsBeforeNext(relas: seq<Rela>, n: nat, j: int)
    requires n < |relas|
    ensures HitsBefore(relas, n + 1, j) <==> HitsBefore(relas, n, j) || Hits(relas[n], j)
  {
    if HitsBefore(relas, n, j) {
      var k :| 0 <= k < n && Hits(relas[k], j);
      assert 0 <= k < n + 1;
    }
  }

  /**
   * The first `n` relocations have been applied to `before`: their words hold addend plus base, all other bytes are
   * kept.
   */
  ghost predicate Relocated(before: Bytes, after: Bytes, base: uint64, relas: seq<Rela>, n: nat)
    requires n <= |relas|
  {
    && |after| == |before|
    && (forall k :: 0 <= k < n ==> relas[k].address + 8 <= |after|
                                   && Word64(after, relas[k].address) == Add64(relas[k].addend, base))
    && (forall j :: 0 <= j < |before| && !HitsBefore(relas, n, j) ==> after[j] == before[j])
  }

  /** The first `n` relocations are the relative ones up to the first that is not. */
  ghost predicate RelativeUpTo(relas: seq<Rela>, n: nat) {
    n <= |relas| && (forall k :: 0 <= k < n ==> relas[k].Relative()) && (n < |relas| ==> !relas[n].Relative())
  }

  ghost predicate ClearOf(rela: Rela, size: nat, table: nat, count: nat) {
    rela.address + 8 <= size && (rela.address + 8 <= table || table + RELA_SIZE * count <= rela.address)
  }

  /** Targets lie in the buffer, overlap neither each other nor the relocation table. */
  ghost predicate Separate(relas: seq<Rela>, n: nat, size: nat, table: nat)
    requires n <= |relas|
  {
    && (forall k :: 0 <= k < n ==> ClearOf(relas[k], size, table, |relas|))
    && (forall k, l :: 0 <= k < l < n ==>
        relas[k].address + 8 <= relas[l].address || relas[l].address + 8 <= relas[k].address)
  }

  /** No relocation so far has changed an entry of the table. */
  lemma TableKept(before: Bytes, after: Bytes, base: uint64, table: nat, relas: seq<Rela>, n: nat, i: nat)
    requires table + RELA_SIZE * |relas| <= |before| && relas == Relas(before, table, |relas|)
    requires n <= |relas| && i < |relas| && Separate(relas, n, |before|, table)
    requires Relocated(before, after, base, relas, n)
    ensures RelaAt(after, table + RELA_SIZE * i) == relas[i]
  {
    var at := table + RELA_SIZE * i;
    forall j | at <= j < at + RELA_SIZE
      ensures after[j] == before[j]
    {
      forall k | 0 <= k < n
        ensures !Hits(relas[k], j)
      {
        assert ClearOf(relas[k], |before|, table, |relas|);
      }
    }
    SameWord(after, before, at, 8);
    SameWord(after, before, at + 8, 8);
    SameWord(after, before, at + 16, 8);
  }

  lemma RelocatedNext(before: Bytes, after: Bytes, base: uint64, table: nat, relas: seq<Rela>, n: nat)
    requires n < |relas| && Separate(relas, n + 1, |before|, table) && Relocated(before, after, base, relas, n)
    ensures relas[n].address + 8 <= |after|
    ensures Relocated(before, Put64(after, relas[n].address, Add64(relas[n].addend, base)), base, relas, n + 1)
  {
    assert ClearOf(relas[n], |before|, table, |relas|);
    var at, v := relas[n].address, Add64(relas[n].addend, base);
    var next := Put64(after, at, v);
    Put64Bytes(after, at, v);
    forall k | 0 <= k < n
      ensures Word64(next, relas[k].address) == Add64(relas[k].addend, base)
    {
      SameWord(next, after, relas[k].address, 8);
    }
    forall j | 0 <= j < |before| && !HitsBefore(relas, n + 1, j)
      ensures next[j] == before[j]
    {
      HitsBeforeNext(relas, n, j);
    }
  }

  /** Running the loop has the effect of applying the table as it was loaded. */
  lemma {:induction false} RelocateApplies(before: Bytes, mem: Bytes, base: uint64, table: nat, relas: seq<Rela>,
                                           n: nat, i: nat)
    returns (after: Bytes)
    requires table + RELA_SIZE * |relas| <= |before| && relas == Relas(before, table, |relas|)
    requires i <= n && RelativeUpTo(relas, n) && Separate(relas, n, |before|, table)
    requires Relocated(before, mem, base, relas, i)
    ensures Relocate(mem, base, table, |relas|, i) == Done(after, n == |relas|)
    ensures Relocated(before, after, base, relas, n)
    decreases n - i
  {
    after := mem;
    if i < n {
      var next := RelocateStep(before, mem, base, table, relas, n, i);
      RelocateUnfolds(mem, base, table, |relas|, i);
      after := RelocateApplies(before, next, base, table, relas, n, i + 1);
    } else if i < |relas| {
      TableKept(before, mem, base, table, relas, i, i);
      RelocateStops(mem, base, table, |relas|, i);
    }
  }

  lemma RelocateStops(mem: Bytes, base: uint64, table: nat, count: nat, i: nat)
    requires i < count && table + RELA_SIZE * count <= |mem| && !RelaAt(mem, table + RELA_SIZE * i).Relative()
    ensures Relocate(mem, base, table, count, i) == Done(mem, false)
  {
    RelocateUnfolds(mem, base, table, count, i);
  }

  lemma RelocateStep(before: Bytes, mem: Bytes, base: uint64, table: nat, relas: seq<Rela>, n: nat, i: nat)
    returns (next: Bytes)
    requires table + RELA_SIZE * |relas| <= |before| && relas == Relas(before, table, |relas|)
    requires i < n && RelativeUpTo(relas, n) && Separate(relas, n, |before|, table)
    requires Relocated(before, mem, base, relas, i)
    ensures RelocateOne(mem, base, table + RELA_SIZE * i) == Done(next, true)
    ensures Relocated(before, next, base, relas, i + 1)
  {
    assert Separate(relas, i, |before|, table) && Separate(relas, i + 1, |before|, table);
    TableKept(before, mem, base, table, relas, i, i);
    RelocatedNext(before, mem, base, table, relas, i);
    next := Put64(mem, relas[i].address, Add64(relas[i].addend, base));
  }

  lemma RelocateUnfolds(mem: Bytes, base: uint64, table: nat, count: nat, i: nat)
    requires i < count
    ensures var one := RelocateOne(mem, base, table + RELA_SIZE * i);
            Relocate(mem, base, table, count, i)
            == if one.Done? && one.ok then Relocate(one.mem, base, table, count, i + 1) else one
  {
  }

  function Sub64(x: uint64, y: uint64): uint64 {
    if y <= x then x - y else x - y + TWO64
  }

  /** Two buffers that differ by `delta` in the words of the first `n` relocations and in nothing else. */
  ghost predicate Shifted(a: Bytes, b: Bytes, delta: uint64, relas: seq<Rela>, n: nat)
    requires n <= |relas|
  {
    && |a| == |b|
    && (forall k :: 0 <= k < n ==> relas[k].address + 8 <= |a|
                                   && Word64(b, relas[k].address) == Add64(Word64(a, relas[k].address), delta))
    && (forall j :: 0 <= j < |a| && !HitsBefore(relas, n, j) ==> b[j] == a[j])
  }

  // ----- Well-formed images

  /** Segment `d` is the only dynamic one and comes after every loaded one; with `d` past the end there is none. */
  ghost predicate DynamicLast(segments: seq<Segment>, d: nat) {
    && d <= |segments|
    && (forall s :: 0 <= s < d ==> segments[s].kind != PT_DYNAMIC)
    && (d < |segments| ==> segments[d].kind == PT_DYNAMIC)
    && (forall s :: d < s < |segments| ==> segments[s].kind != PT_DYNAMIC && segments[s].kind != PT_LOAD)
  }

  ghost predicate LoadOk(file: Bytes, segment: Segment) {
    segment.kind == PT_LOAD ==>
      && segment.dataSize <= segment.virtualSize && segment.virtualAddress + segment.virtualSize < TWO64
      && segment.dataOffset + segment.dataSize <= |file|
  }

  ghost predicate LoadsOk(file: Bytes, segments: seq<Segment>) {
    forall s :: 0 <= s < |segments| ==> LoadOk(file, segments[s])
  }

  /** A buffer of the size that GetELFSize computes holds every loaded segment. */
  lemma SizeHoldsLoads(file: Bytes, segments: seq<Segment>, size: uint64)
    requires LoadsOk(file, segments) && IsImageSize(segments, size)
    ensures forall s :: 0 <= s < |segments| && segments[s].kind == PT_LOAD ==> LoadFits(size, file, segments[s])
  {
    forall s | 0 <= s < |segments| && segments[s].kind == PT_LOAD
      ensures LoadFits(size, file, segments[s])
    {
      assert LoadOk(file, segments[s]);
    }
  }

  function LoadAll(mem: Bytes, file: Bytes, segments: seq<Segment>): (loaded: Bytes)
    requires forall s :: 0 <= s < |segments| && segments[s].kind == PT_LOAD ==> LoadFits(|mem|, file, segments[s])
    ensures |loaded| == |mem|
    decreases |segments|
  {
    if segments == [] then mem
    else
      var rest := segments[1..];
      LoadAll(if segments[0].kind == PT_LOAD then Load(mem, file, segments[0]) else mem, file, rest)
  }

  lemma {:induction false} PrepareLoads(mem: Bytes, file: Bytes, segments: seq<Segment>, d: nat, base: uint64)
    requires d <= |segments| && forall s :: 0 <= s < d ==> segments[s].kind != PT_DYNAMIC
    requires forall s :: 0 <= s < d && segments[s].kind == PT_LOAD ==> LoadFits(|mem|, file, segments[s])
    ensures Prepare(mem, file, segments, base) == Prepare(LoadAll(mem, file, segments[..d]), file, segments[d..], base)
    decreases d
  {
    if d > 0 {
      var next := if segments[0].kind == PT_LOAD then Load(mem, file, segments[0]) else mem;
      PrepareLoads(next, file, segments[1..], d - 1, base);
      assert segments[..d][1..] == segments[1..][..d - 1] && segments[1..][d - 1..] == segments[d..];
    } else {
      assert segments[..d] == [] && segments[d..] == segments;
    }
  }

  lemma {:induction false} PrepareNothing(mem: Bytes, file: Bytes, segments: seq<Segment>, base: uint64)
    requires forall s :: 0 <= s < |segments| ==> segments[s].kind != PT_DYNAMIC && segments[s].kind != PT_LOAD
    ensures Prepare(mem, file, segments, base) == Done(mem, true)
    decreases |segments|
  {
    if segments != [] {
      PrepareNothing(mem, file, segments[1..], base);
    }
  }

  /** The dynamic table of a loaded image names a relocation table in the buffer whose targets are separate. */
  ghost predicate Linkable(mem: Bytes, at: nat, relas: seq<Rela>, n: nat) {
    match ScanDynamic(mem, at, NO_TABLE)
    case None => false
    case Some(table) =>
      && Countable(table) && |relas| == table.size / table.entrySize
      && table.address + RELA_SIZE * |relas| <= |mem| && relas == Relas(mem, table.address, |relas|)
      && RelativeUpTo(relas, n) && Separate(relas, n, |mem|, table.address)
  }

  /** The buffer when the first `d` segments have been loaded. */
  ghost function LoadedImage(init: Bytes, file: Bytes, segments: seq<Segment>, d: nat): (loaded: Bytes)
    requires |init| < TWO64 && IsImageSize(segments, |init|) && LoadsOk(file, segments) && d <= |segments|
    ensures |loaded| == |init|
  {
    SizeHoldsLoads(file, segments, |init|);
    LoadAll(init, file, segments[..d])
  }

  /**
   * An image for a buffer of exactly the size computed for it; `relas` is its relocation table, applied up to entry
   * `n`.
   */
  ghost predicate WellFormed(init: Bytes, file: Bytes, segments: seq<Segment>, d: nat, relas: seq<Rela>, n: nat) {
    && |init| < TWO64 && IsImageSize(segments, |init|)
    && LoadsOk(file, segments) && DynamicLast(segments, d) && n <= |relas|
    && (if d < |segments| then Linkable(LoadedImage(init, file, segments, d), segments[d].virtualAddress, relas, n)
        else relas == [])
  }

  /**
   * Loading at one base: every access is in bounds, and the result is the loaded segments with the relocations applied.
   */
  lemma PrepareApplies(init: Bytes, file: Bytes, segments: seq<Segment>, d: nat, relas: seq<Rela>, n: nat, base: uint64)
    returns (after: Bytes)
    requires WellFormed(init, file, segments, d, relas, n)
    ensures Prepare(init, file, segments, base) == Done(after, n == |relas|)
    ensures Relocated(LoadedImage(init, file, segments, d), after, base, relas, n)
  {
    SizeHoldsLoads(file, segments, |init|);
    var loaded := LoadedImage(init, file, segments, d);
    PrepareLoads(init, file, segments, d, base);
    if d == |segments| {
      after := loaded;
    } else {
      var table := ScanDynamic(loaded, segments[d].virtualAddress, NO_TABLE).value;
      after := RelocateApplies(loaded, loaded, base, table.address, relas, n, 0);
      assert segments[d..][0] == segments[d] && segments[d..][1..] == segments[d + 1..];
      PrepareNothing(after, file, segments[d + 1..], base);
    }
  }

  /**
   * Images loaded at `a` and at `b` differ by b - a in the relocated words and in the entry point, and nowhere else.
   */
  lemma PositionIndependent(init: Bytes, file: Bytes, segments: seq<Segment>, d: nat, relas: seq<Rela>, n: nat,
                            entry: uint64, a: uint64, b: uint64)
    requires WellFormed(init, file, segments, d, relas, n)
    ensures var atA, atB := Prepare(init, file, segments, a), Prepare(init, file, segments, b);
            atA.Done? && atB.Done? && atA.ok == atB.ok && Shifted(atA.mem, atB.mem, Sub64(b, a), relas, n)
    ensures Add64(b, entry) == Add64(Add64(a, entry), Sub64(b, a))
  {
    var memA := PrepareApplies(init, file, segments, d, relas, n, a);
    var memB := PrepareApplies(init, file, segments, d, relas, n, b);
  }

  // ----- What ends up in the buffer

  predicate Within(segment: Segment, j: int) {
    segment.virtualAddress <= j < segment.virtualAddress + segment.virtualSize
  }

  ghost predicate DisjointLoads(segments: seq<Segment>) {
    forall s, t, j: int :: 0 <= s < t < |segments| && segments[s].kind == PT_LOAD && segments[t].kind == PT_LOAD ==>
                             !(Within(segments[s], j) && Within(segments[t], j))
  }

  /** The byte that the file gives for offset `j` of a segment's memory: its data, then zeros. */
  function FileByte(file: Bytes, segment: Segment, j: int): uint8
    requires segment.dataOffset + segment.dataSize <= |file| && Within(segment, j)
  {
    var i := j - segment.virtualAddress;
    if i < segment.dataSize then file[segment.dataOffset + i] else 0
  }

  lemma {:induction false} LoadAllElsewhere(mem: Bytes, file: Bytes, segments: seq<Segment>, j: int)
    requires LoadsOk(file, segments) && 0 <= j < |mem|
    requires forall s :: 0 <= s < |segments| && segments[s].kind == PT_LOAD ==> LoadFits(|mem|, file, segments[s])
    requires forall s :: 0 <= s < |segments| && segments[s].kind == PT_LOAD ==> !Within(segments[s], j)
    ensures LoadAll(mem, file, segments)[j] == mem[j]
    decreases |segments|
  {
    if segments != [] {
      assert LoadOk(file, segments[0]);
      var next := if segments[0].kind == PT_LOAD then Load(mem, file, segments[0]) else mem;
      LoadAllElsewhere(next, file, segments[1..], j);
    }
  }

  /** After all loads, every disjoint segment holds what the file gives for it. */
  lemma {:induction false} LoadAllContents(mem: Bytes, file: Bytes, segments: seq<Segment>, s: nat, j: int)
    requires LoadsOk(file, segments) && DisjointLoads(segments)
    requires forall t :: 0 <= t < |segments| && segments[t].kind == PT_LOAD ==> LoadFits(|mem|, file, segments[t])
    requires s < |segments| && segments[s].kind == PT_LOAD && Within(segments[s], j)
    ensures LoadOk(file, segments[s]) && 0 <= j < |mem|
    ensures LoadAll(mem, file, segments)[j] == FileByte(file, segments[s], j)
    decreases |segments|
  {
    assert LoadOk(file, segments[s]);
    var next := if segments[0].kind == PT_LOAD then Load(mem, file, segments[0]) else mem;
    if s == 0 {
      LoadAllElsewhere(next, file, segments[1..], j);
    } else {
      LoadAllContents(next, file, segments[1..], s - 1, j);
    }
  }

  /**
   * The prepared image: each byte of a loaded segment that no relocation hits is the file's, each relocated word is
   * addend plus base.
   */
  lemma PreparedContents(init: Bytes, file: Bytes, segments: seq<Segment>, d: nat, relas: seq<Rela>, n: nat,
                         base: uint64, s: nat, j: int)
    requires WellFormed(init, file, segments, d, relas, n) && DisjointLoads(segments)
    requires s < |segments| && segments[s].kind == PT_LOAD && Within(segments[s], j) && !HitsBefore(relas, n, j)
    ensures LoadOk(file, segments[s]) && 0 <= j < |init|
    ensures var result := Prepare(init, file, segments, base);
            && result.Done? && |result.mem| == |init| && result.mem[j] == FileByte(file, segments[s], j)
            && forall k :: 0 <= k < n ==> relas[k].address + 8 <= |init|
                                          && Word64(result.mem, relas[k].address) == Add64(relas[k].addend, base)
  {
    SizeHoldsLoads(file, segments, |init|);
    var after := PrepareApplies(init, file, segments, d, relas, n, base);
    assert s < d;
    LoadAllContents(init, file, segments[..d], s, j);
  }
}
