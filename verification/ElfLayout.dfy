/**
 * The structures of an image in the file (kernel/Bootloader/ELF.h): their fields in order, little-endian and without
 * gaps, and what the loader reads from them.
 */
module ElfLayout {
  import opened MachineWords
  import opened LittleEndian
  import opened Wrappers
  import opened Elf

  // ----- Fields one after another

  /** A number stored in so many bytes. */
  datatype Field = Field(value: nat, width: nat) {
    predicate Fits() {
      value < Pow256(width)
    }
  }

  function Stored(fields: seq<Field>): Bytes {
    if fields == [] then [] else Encode(fields[0].value, fields[0].width) + Stored(fields[1..])
  }

  function Offset(fields: seq<Field>, i: nat): nat
    requires i <= |fields|
  {
    if i == 0 then 0 else Offset(fields, i - 1) + fields[i - 1].width
  }

  lemma {:induction false} OffsetInTail(fields: seq<Field>, i: nat)
    requires 0 < i <= |fields|
    ensures Offset(fields, i) == fields[0].width + Offset(fields[1..], i - 1)
  {
    if i > 1 {
      OffsetInTail(fields, i - 1);
    }
  }

  lemma {:induction false} StoredSize(fields: seq<Field>)
    ensures |Stored(fields)| == Offset(fields, |fields|)
  {
    if fields != [] {
      StoredSize(fields[1..]);
      OffsetInTail(fields, |fields|);
    }
  }

  /** The bytes from `at` on are `bytes`. */
  predicate Holds(file: Bytes, at: nat, bytes: Bytes) {
    at + |bytes| <= |file| && file[at..at + |bytes|] == bytes
  }

  lemma HoldsParts(file: Bytes, at: nat, a: Bytes, b: Bytes)
    requires Holds(file, at, a + b)
    ensures Holds(file, at, a) && Holds(file, at + |a|, b)
  {
    assert (a + b)[..|a|] == a && (a + b)[|a|..] == b;
    assert file[at..at + |a + b|][..|a|] == file[at..at + |a|];
    assert file[at..at + |a + b|][|a|..] == file[at + |a|..at + |a| + |b|];
  }

  /** A stored field is read back at its offset. */
  lemma {:induction false} FieldRead(file: Bytes, at: nat, fields: seq<Field>, i: nat)
    requires i < |fields| && Holds(file, at, Stored(fields)) && fields[i].Fits()
    ensures at + Offset(fields, i) + fields[i].width <= |file|
    ensures Word(file, at + Offset(fields, i), fields[i].width) == fields[i].value
    decreases |fields|
  {
    HoldsParts(file, at, Encode(fields[0].value, fields[0].width), Stored(fields[1..]));
    if i == 0 {
      ValueOfEncode(fields[0].value, fields[0].width);
    } else {
      FieldRead(file, at + fields[0].width, fields[1..], i - 1);
      OffsetInTail(fields, i);
    }
  }

  lemma Widths()
    ensures Pow256(1) == TWO8 && Pow256(2) == TWO16 && Pow256(4) == TWO32 && Pow256(8) == TWO64
  {
    Pow256Of8();
    assert Pow256(4) == TWO32;
  }

  // ----- The structures

  datatype FileHeader = FileHeader(
    magic: uint32,
    elfBits: uint8,
    endianness: uint8,
    elfVersion: uint8,
    abi: uint8,
    padding: uint64,
    objectType: uint16,
    machineType: uint16,
    elfXVersion: uint32,
    entryPoint: uint64,
    phOffset: uint64,
    shOffset: uint64,
    flags: uint32,
    headerSize: uint16,
    phEntrySize: uint16,
    phEntryCount: uint16,
    shEntrySize: uint16,
    shEntryCount: uint16,
    sectionNameStringTableIndex: uint16
  ) {
    function Fields(): seq<Field> {
      [Field(magic, 4), Field(elfBits, 1), Field(endianness, 1), Field(elfVersion, 1), Field(abi, 1),
       Field(padding, 8), Field(objectType, 2), Field(machineType, 2), Field(elfXVersion, 4), Field(entryPoint, 8),
       Field(phOffset, 8), Field(shOffset, 8), Field(flags, 4), Field(headerSize, 2), Field(phEntrySize, 2),
       Field(phEntryCount, 2), Field(shEntrySize, 2), Field(shEntryCount, 2), Field(sectionNameStringTableIndex, 2)]
    }
  }

  datatype SegmentHeader = SegmentHeader(
    kind: uint32,
    flags: uint32,
    dataOffset: uint64,
    virtualAddress: uint64,
    unused: uint64,
    dataSize: uint64,
    virtualSize: uint64,
    alignment: uint64
  ) {
    function Fields(): seq<Field> {
      [Field(kind, 4), Field(flags, 4), Field(dataOffset, 8), Field(virtualAddress, 8), Field(unused, 8),
       Field(dataSize, 8), Field(virtualSize, 8), Field(alignment, 8)]
    }

    /** The loader's view of it. */
    predicate IsRead(segment: Segment) {
      && segment.kind == kind && segment.dataOffset == dataOffset && segment.virtualAddress == virtualAddress
      && segment.dataSize == dataSize && segment.virtualSize == virtualSize
    }
  }

  datatype DynamicEntry = DynamicEntry(tag: uint64, value: uint64) {
    function Fields(): seq<Field> {
      [Field(tag, 8), Field(value, 8)]
    }
  }

  /** A relocation; the low half of its info field is the type and the high half the symbol. */
  datatype RelaEntry = RelaEntry(address: uint64, kind: uint32, symbol: uint32, addend: uint64) {
    function Fields(): seq<Field> {
      [Field(address, 8), Field(kind, 4), Field(symbol, 4), Field(addend, 8)]
    }

    predicate IsRead(rela: Rela) {
      rela.address == address && rela.addend == addend && (rela.Relative() <==> kind == 8)
    }
  }

  // ----- What is read

  lemma HeaderRead(file: Bytes, h: FileHeader)
    requires Holds(file, 0, Stored(h.Fields()))
    ensures |file| >= HEADER_SIZE && Word64(file, 24) == h.entryPoint && Word64(file, 32) == h.phOffset
    ensures Word(file, 56, 2) == h.phEntryCount
  {
    Widths();
    var fields := h.Fields();
    HeaderOffsets(h);
    StoredSize(fields);
    FieldRead(file, 0, fields, 9);
    FieldRead(file, 0, fields, 10);
    FieldRead(file, 0, fields, 15);
  }

  lemma HeaderOffsets(h: FileHeader)
    ensures Offset(h.Fields(), 9) == 24 && Offset(h.Fields(), 10) == 32 && Offset(h.Fields(), 15) == 56
    ensures Offset(h.Fields(), 19) == HEADER_SIZE
  {
    var f := h.Fields();
    assert Offset(f, 1) == 4 && Offset(f, 2) == 5 && Offset(f, 3) == 6;
    assert Offset(f, 4) == 7 && Offset(f, 5) == 8 && Offset(f, 6) == 16;
    assert Offset(f, 7) == 18 && Offset(f, 8) == 20 && Offset(f, 9) == 24;
    assert Offset(f, 10) == 32 && Offset(f, 11) == 40 && Offset(f, 12) == 48;
    assert Offset(f, 13) == 52 && Offset(f, 14) == 54 && Offset(f, 15) == 56;
    assert Offset(f, 16) == 58 && Offset(f, 17) == 60 && Offset(f, 18) == 62;
    assert Offset(f, 19) == 64;
  }

  lemma SegmentRead(file: Bytes, at: nat, h: SegmentHeader)
    requires Holds(file, at, Stored(h.Fields()))
    ensures |Stored(h.Fields())| == SEGMENT_SIZE && h.IsRead(SegmentAt(file, at))
  {
    Widths();
    var fields := h.Fields();
    StoredSize(fields);
    assert Offset(fields, 1) == 4 && Offset(fields, 2) == 8 && Offset(fields, 3) == 16;
    assert Offset(fields, 4) == 24 && Offset(fields, 5) == 32 && Offset(fields, 6) == 40;
    assert Offset(fields, 7) == 48 && Offset(fields, 8) == 56;
    FieldRead(file, at, fields, 0);
    FieldRead(file, at, fields, 2);
    FieldRead(file, at, fields, 3);
    FieldRead(file, at, fields, 5);
    FieldRead(file, at, fields, 6);
  }

  function StoredHeaders(headers: seq<SegmentHeader>): Bytes {
    if headers == [] then [] else Stored(headers[0].Fields()) + StoredHeaders(headers[1..])
  }

  lemma {:induction false} HeadersRead(file: Bytes, at: nat, headers: seq<SegmentHeader>, s: nat)
    requires Holds(file, at, StoredHeaders(headers)) && s <= |headers|
    ensures |StoredHeaders(headers)| == SEGMENT_SIZE * |headers| && at + SEGMENT_SIZE * |headers| <= |file|
    ensures s < |headers| ==> headers[s].IsRead(SegmentAt(file, at + SEGMENT_SIZE * s))
    decreases |headers|
  {
    if headers != [] {
      HoldsParts(file, at, Stored(headers[0].Fields()), StoredHeaders(headers[1..]));
      SegmentRead(file, at, headers[0]);
      HeadersRead(file, at + SEGMENT_SIZE, headers[1..], if s == 0 then 0 else s - 1);
      if 0 < s {
        assert at + SEGMENT_SIZE * s == at + SEGMENT_SIZE + SEGMENT_SIZE * (s - 1);
      }
    }
  }

  /** A file with this header, and with these program headers where the header says. */
  predicate IsImage(file: Bytes, h: FileHeader, headers: seq<SegmentHeader>) {
    && Holds(file, 0, Stored(h.Fields()))
    && h.phEntryCount == |headers| && Holds(file, h.phOffset, StoredHeaders(headers))
  }

  /** The loader reads from an image the segments that its program headers describe, and its entry point. */
  lemma {:induction false} ImageRead(file: Bytes, h: FileHeader, headers: seq<SegmentHeader>)
    requires IsImage(file, h, headers)
    ensures HeaderFits(file) && |Segments(file)| == |headers| && EntryPoint(file) == h.entryPoint
    ensures forall s :: 0 <= s < |headers| ==>
              && headers[s].IsRead(Segments(file)[s])
              && (Segments(file)[s].kind == PT_LOAD <==> headers[s].kind == 1)
              && (Segments(file)[s].kind == PT_DYNAMIC <==> headers[s].kind == 2)
  {
    HeaderRead(file, h);
    HeadersRead(file, h.phOffset, headers, 0);
    forall s | 0 <= s < |headers|
      ensures headers[s].IsRead(Segments(file)[s])
    {
      HeadersRead(file, h.phOffset, headers, s);
    }
  }

  function End(h: SegmentHeader): uint64 {
    (h.virtualAddress + h.virtualSize) % TWO64
  }

  /** The size computed for an image is the largest end in memory of a program header of type 1, or zero. */
  lemma ImageSize(file: Bytes, h: FileHeader, headers: seq<SegmentHeader>, size: uint64)
    requires IsImage(file, h, headers) && HeaderFits(file)
    ensures IsImageSize(Segments(file), size)
            <==> && (forall s :: 0 <= s < |headers| && headers[s].kind == 1 ==> End(headers[s]) <= size)
                 && (size == 0 || exists s :: 0 <= s < |headers| && headers[s].kind == 1 && End(headers[s]) == size)
  {
    ImageRead(file, h, headers);
    var segments := Segments(file);
    forall s | 0 <= s < |headers|
      ensures segments[s].kind == headers[s].kind
      ensures Add64(segments[s].virtualAddress, segments[s].virtualSize) == End(headers[s])
    {
      assert headers[s].IsRead(segments[s]);
    }
  }

  // ----- Relocations

  lemma TwoBytes(bytes: Bytes)
    requires |bytes| >= 2
    ensures Value(bytes) == bytes[0] + TWO8 * bytes[1] + TWO16 * Value(bytes[2..])
  {
    assert bytes[1..][1..] == bytes[2..];
  }

  /** The low half of an 8-byte word. */
  lemma LowHalf(bytes: Bytes)
    requires |bytes| == 8
    ensures Value(bytes) % TWO32 == Value(bytes[..4])
  {
    var low := bytes[..4];
    assert bytes[2..][2..] == bytes[4..] && low[2..][2..] == [];
    TwoBytes(bytes);
    TwoBytes(bytes[2..]);
    TwoBytes(low);
    TwoBytes(low[2..]);
    HighHalf(Value(low), Value(bytes[4..]));
  }

  lemma HighHalf(low: uint32, high: nat)
    ensures (low + TWO32 * high) % TWO32 == low
  {
  }

  lemma RelaRead(mem: Bytes, at: nat, entry: RelaEntry)
    requires Holds(mem, at, Stored(entry.Fields()))
    ensures |Stored(entry.Fields())| == RELA_SIZE && entry.IsRead(RelaAt(mem, at))
  {
    Widths();
    var fields := entry.Fields();
    StoredSize(fields);
    assert Offset(fields, 1) == 8 && Offset(fields, 2) == 12;
    assert Offset(fields, 3) == 16 && Offset(fields, 4) == 24;
    FieldRead(mem, at, fields, 0);
    FieldRead(mem, at, fields, 1);
    FieldRead(mem, at, fields, 3);
    LowHalf(mem[at + 8..at + 16]);
    assert mem[at + 8..at + 16][..4] == mem[at + 8..at + 12];
  }

  function StoredRelas(entries: seq<RelaEntry>): Bytes {
    if entries == [] then [] else Stored(entries[0].Fields()) + StoredRelas(entries[1..])
  }

  lemma {:induction false} RelasReadAt(mem: Bytes, table: nat, entries: seq<RelaEntry>, i: nat)
    requires Holds(mem, table, StoredRelas(entries)) && i <= |entries|
    ensures table + RELA_SIZE * |entries| <= |mem|
    ensures i < |entries| ==> entries[i].IsRead(RelaAt(mem, table + RELA_SIZE * i))
    decreases |entries|
  {
    if entries != [] {
      HoldsParts(mem, table, Stored(entries[0].Fields()), StoredRelas(entries[1..]));
      RelaRead(mem, table, entries[0]);
      RelasReadAt(mem, table + RELA_SIZE, entries[1..], if i == 0 then 0 else i - 1);
      if 0 < i {
        assert table + RELA_SIZE * i == table + RELA_SIZE + RELA_SIZE * (i - 1);
      }
    }
  }

  /** The loop takes its relocations from consecutive entries, and applies those of type 8. */
  lemma {:induction false} RelasRead(mem: Bytes, table: nat, entries: seq<RelaEntry>)
    requires Holds(mem, table, StoredRelas(entries))
    ensures table + RELA_SIZE * |entries| <= |mem|
    ensures var relas := Relas(mem, table, |entries|);
            forall i :: 0 <= i < |entries| ==> entries[i].IsRead(relas[i])
  {
    RelasReadAt(mem, table, entries, 0);
    forall i | 0 <= i < |entries|
      ensures entries[i].IsRead(RelaAt(mem, table + RELA_SIZE * i))
    {
      RelasReadAt(mem, table, entries, i);
    }
  }

  // ----- The dynamic table

  /** Entries up to the null entry, of which the loader looks at the tag only. */
  function StoredDynamic(entries: seq<DynamicEntry>): Bytes {
    if entries == [] then Encode(0, 8) else Stored(entries[0].Fields()) + StoredDynamic(entries[1..])
  }

  /** `v` is what the last entry with the tag says, or `otherwise` if there is none. */
  ghost predicate LastSays(entries: seq<DynamicEntry>, tag: uint64, otherwise: uint64, v: uint64) {
    || (v == otherwise && forall k :: 0 <= k < |entries| ==> entries[k].tag != tag)
    || exists k :: && 0 <= k < |entries| && entries[k] == DynamicEntry(tag, v)
                   && forall l :: k < l < |entries| ==> entries[l].tag != tag
  }

  lemma EntryRead(mem: Bytes, at: nat, entry: DynamicEntry)
    requires Holds(mem, at, Stored(entry.Fields()))
    ensures |Stored(entry.Fields())| == DYNAMIC_SIZE && at + DYNAMIC_SIZE <= |mem|
    ensures Word64(mem, at) == entry.tag && Word64(mem, at + 8) == entry.value
  {
    Widths();
    var fields := entry.Fields();
    StoredSize(fields);
    assert Offset(fields, 1) == 8 && Offset(fields, 2) == 16;
    FieldRead(mem, at, fields, 0);
    FieldRead(mem, at, fields, 1);
  }

  lemma LastSaysNext(entries: seq<DynamicEntry>, tag: uint64, otherwise: uint64, v: uint64)
    requires entries != []
    requires LastSays(entries[1..], tag, if entries[0].tag == tag then entries[0].value else otherwise, v)
    ensures LastSays(entries, tag, otherwise, v)
  {
    var rest := entries[1..];
    if forall k :: 0 <= k < |rest| ==> rest[k].tag != tag {
      forall l | 0 < l < |entries|
        ensures entries[l].tag != tag
      {
        assert entries[l] == rest[l - 1];
      }
      assert entries[0].tag == tag ==> entries[0] == DynamicEntry(tag, v);
    } else {
      var k :| && 0 <= k < |rest| && rest[k] == DynamicEntry(tag, v)
               && forall l :: k < l < |rest| ==> rest[l].tag != tag;
      forall l | k + 1 < l < |entries|
        ensures entries[l].tag != tag
      {
        assert entries[l] == rest[l - 1];
      }
      assert entries[k + 1] == DynamicEntry(tag, v);
    }
  }

  lemma {:induction false} DynamicReadFrom(mem: Bytes, at: nat, entries: seq<DynamicEntry>, table: RelaTable)
    returns (read: RelaTable)
    requires Holds(mem, at, StoredDynamic(entries)) && forall k :: 0 <= k < |entries| ==> entries[k].tag != 0
    ensures ScanDynamic(mem, at, table) == Some(read)
    ensures LastSays(entries, 7, table.address, read.address) && LastSays(entries, 8, table.size, read.size)
    ensures LastSays(entries, 9, table.entrySize, read.entrySize)
    decreases |entries|
  {
    if entries == [] {
      Widths();
      ValueOfEncode(0, 8);
      read := table;
    } else {
      HoldsParts(mem, at, Stored(entries[0].Fields()), StoredDynamic(entries[1..]));
      EntryRead(mem, at, entries[0]);
      var next := WithEntry(table, entries[0].tag, entries[0].value);
      read := DynamicReadFrom(mem, at + DYNAMIC_SIZE, entries[1..], next);
      LastSaysNext(entries, 7, table.address, read.address);
      LastSaysNext(entries, 8, table.size, read.size);
      LastSaysNext(entries, 9, table.entrySize, read.entrySize);
    }
  }

  /** The dynamic table gives address, size and entry size of the relocation table: the last of tags 7, 8 and 9. */
  lemma DynamicRead(mem: Bytes, at: nat, entries: seq<DynamicEntry>) returns (read: RelaTable)
    requires Holds(mem, at, StoredDynamic(entries)) && forall k :: 0 <= k < |entries| ==> entries[k].tag != 0
    ensures ScanDynamic(mem, at, NO_TABLE) == Some(read)
    ensures LastSays(entries, 7, 0, read.address) && LastSays(entries, 8, 0, read.size)
    ensures LastSays(entries, 9, 24, read.entrySize)
  {
    read := DynamicReadFrom(mem, at, entries, NO_TABLE);
  }
}
