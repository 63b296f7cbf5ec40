/**
 * The boot page table (kernel/Bootloader/paging.cpp), judged against the 4-level page walk of
 * section 4.5 of the Intel SDM Volume 3A.
 */
module Paging {
  import opened MachineWords

  const SIZE_2M := 0x20_0000
  const SIZE_1G := 0x4000_0000
  const SIZE_512G := 0x80_0000_0000

  const PRESENT := 0x1
  const WRITABLE := 0x2
  /** Bit 7: PAT in the source's PML1 names, and the page-size bit of an upper-level entry. */
  const PAGE_SIZE := 0x80

  /** First address of the upper 512 GB. */
  const HIGH_MEM_BASE: uint64 := 0xFFFF_FF80_0000_0000

  const TABLE_WORDS := 514 * 512

  /** It is what the source computes: 511 shifted left by 39, with the sign extension OR-ed in. */
  lemma HighMemBaseBits()
    ensures Or(511 * SIZE_512G, 0xFFFF_0000_0000_0000) == HIGH_MEM_BASE
  {
    Pow2Of48();
    OrSymmetric(511 * SIZE_512G, 0xFFFF_0000_0000_0000);
    OrSplits(0xFFFF, 48, 0, 511 * SIZE_512G);
    OrZero(511 * SIZE_512G);
  }

  lemma Pow2Of48()
    ensures Pow2(48) == 0x1_0000_0000_0000
  {
    assert Pow2(8) == 0x100;
    assert Pow2(16) == 0x1_0000;
    assert Pow2(24) == 0x100_0000;
    assert Pow2(32) == 0x1_0000_0000;
    assert Pow2(40) == 0x100_0000_0000;
  }

  // ----- The table that Init builds

  /** The word at index `k` of a paging buffer at physical address `base`, with the flags OR-ed in. */
  function Entry(base: nat, k: nat): nat {
    if k == 0 || k == 511 then Or(Or(base + 8 * 512, PRESENT), WRITABLE)
    else if k < 512 then 0
    else if k < 1024 then Or(Or(base + 8 * (1024 + 512 * (k - 512)), PRESENT), WRITABLE)
    else Or(Or(Or((k - 1024) * SIZE_2M, PRESENT), WRITABLE), PAGE_SIZE)
  }

  /** OR-ing the flags into a page-aligned address adds them. */
  lemma FlagsAreAdded(p: nat)
    ensures var address := p * PAGE;
            && Or(Or(address, PRESENT), WRITABLE) == address + 3
            && Or(Or(Or(address, PRESENT), WRITABLE), PAGE_SIZE) == address + 0x83
  {
    Flags();
    FlagAdded(p, 0, PRESENT);
    FlagAdded(p, 1, WRITABLE);
    FlagAdded(p, 3, PAGE_SIZE);
  }

  lemma Flags()
    ensures Or(0, PRESENT) == 1 && Or(1, WRITABLE) == 3 && Or(3, PAGE_SIZE) == 0x83
  {
  }

  lemma FlagAdded(p: nat, flags: nat, flag: nat)
    requires flags < PAGE && flag < PAGE
    ensures Or(p * PAGE + flags, flag) == p * PAGE + Or(flags, flag)
  {
    assert Pow2(12) == PAGE;
    OrSplits(p, 12, flags, flag);
  }

  /** The entries of a page-aligned table as sums. */
  lemma EntrySums(b: nat, k: nat)
    ensures k == 0 || k == 511 ==> Entry(b * PAGE, k) == b * PAGE + 8 * 512 + 3
    ensures 512 <= k < 1024 ==> Entry(b * PAGE, k) == b * PAGE + PAGE * (2 + (k - 512)) + 3
    ensures k >= 1024 ==> Entry(b * PAGE, k) == (k - 1024) * SIZE_2M + 0x83
  {
    if k == 0 || k == 511 {
      FlagsAreAdded(b + 1);
    } else if 512 <= k < 1024 {
      FlagsAreAdded(b + 2 + (k - 512));
    } else if k >= 1024 {
      FlagsAreAdded((k - 1024) * 512);
    }
  }

  class Pager {
    var highMemBase: uint64
    var cr3: int

    function Convert(address: uint64): uint64
      reads this
    {
      Add64(address, highMemBase)
    }

    /**
     * Builds the table in `buffer`, which lies at physical address `base`, and switches to it.
     * Returns what the kernel header is told: the buffer's higher-half address and its size in pages.
     */
    method Init(buffer: array<int>, base: uint64) returns (pageBuffer: uint64, pageBufferPages: int)
      requires buffer.Length == TABLE_WORDS && base + 8 * TABLE_WORDS <= TWO64
      modifies this, buffer
      ensures forall k :: 0 <= k < TABLE_WORDS ==> buffer[k] == Entry(base, k)
      ensures cr3 == base && highMemBase == HIGH_MEM_BASE
      ensures pageBuffer == ConvertPtr(base) && pageBufferPages * PAGE == 8 * TABLE_WORDS
    {
      for i := 0 to 512
        invariant forall k :: 0 <= k < i ==> buffer[k] == 0
      {
        buffer[i] := 0;
      }
      buffer[511] := Or(Or(base + 8 * 512, PRESENT), WRITABLE);
      buffer[0] := buffer[511];

      for i := 0 to 512
        invariant forall k :: 0 <= k < 512 + i ==> buffer[k] == Entry(base, k)
      {
        buffer[512 + i] := Or(Or(base + 8 * (1024 + 512 * i), PRESENT), WRITABLE);
      }

      for i := 0 to 512 * 512
        invariant forall k :: 0 <= k < 1024 + i ==> buffer[k] == Entry(base, k)
      {
        buffer[1024 + i] := Or(Or(Or(i * SIZE_2M, PRESENT), WRITABLE), PAGE_SIZE);
      }

      cr3 := base;
      HighMemBaseBits();
      highMemBase := Or(511 * SIZE_512G, 0xFFFF_0000_0000_0000);
      pageBuffer := Convert(base);
      pageBufferPages := 1 + 1 + 512;
    }
  }

  /** Physical address to higher-half address, by 64-bit addition. */
  function ConvertPtr(address: uint64): uint64 {
    Add64(address, HIGH_MEM_BASE)
  }

  // ----- The hardware walk

  datatype Translation = NotCanonical | NotPresent | ReservedBit | Physical(address: int)

  /** The address field of an entry: bits 51 to 12. */
  function AddressField(entry: int): int {
    entry % 0x10_0000_0000_0000 / PAGE * PAGE
  }

  predicate Has(entry: int, bit: int)
    requires bit > 0
  {
    entry / bit % 2 == 1
  }

  predicate Canonical(va: uint64) {
    va < 0x8000_0000_0000 || va >= TWO64 - 0x8000_0000_0000
  }

  function WalkTable(pte: int, va: uint64): Translation {
    if !Has(pte, PRESENT) then NotPresent
    else Physical(AddressField(pte) + va % PAGE)
  }

  function WalkDirectory(memory: int -> int, pde: int, va: uint64): Translation {
    if !Has(pde, PRESENT) then NotPresent
    else if Has(pde, PAGE_SIZE) then
      (if pde % SIZE_2M / 0x2000 != 0 then ReservedBit
       else Physical(pde % 0x10_0000_0000_0000 / SIZE_2M * SIZE_2M + va % SIZE_2M))
    else WalkTable(memory(AddressField(pde) + 8 * (va / PAGE % 512)), va)
  }

  function WalkPointers(memory: int -> int, pdpte: int, va: uint64): Translation {
    if !Has(pdpte, PRESENT) then NotPresent
    else if Has(pdpte, PAGE_SIZE) then
      (if pdpte % SIZE_1G / 0x2000 != 0 then ReservedBit
       else Physical(pdpte % 0x10_0000_0000_0000 / SIZE_1G * SIZE_1G + va % SIZE_1G))
    else WalkDirectory(memory, memory(AddressField(pdpte) + 8 * (va / SIZE_2M % 512)), va)
  }

  function Walk(memory: int -> int, cr3: int, va: uint64): Translation {
    if !Canonical(va) then NotCanonical
    else
      var pml4e := memory(AddressField(cr3) + 8 * (va / SIZE_512G % 512));
      if !Has(pml4e, PRESENT) then NotPresent
      else if Has(pml4e, PAGE_SIZE) then ReservedBit
      else WalkPointers(memory, memory(AddressField(pml4e) + 8 * (va / SIZE_1G % 512)), va)
  }

  /** Physical memory holds the finished table at `base`, a page-aligned 52-bit address. */
  ghost predicate HoldsTable(memory: int -> int, base: int) {
    && 0 <= base && base % PAGE == 0 && base + 8 * TABLE_WORDS <= 0x10_0000_0000_0000
    && forall k :: 0 <= k < TABLE_WORDS ==> memory(base + 8 * k) == Entry(base, k)
  }

  lemma LargePageEntry(page: int)
    requires 0 <= page < 512 * 512
    ensures var pde := Entry(0, 1024 + page);
            && Has(pde, PRESENT) && Has(pde, PAGE_SIZE) && pde % SIZE_2M / 0x2000 == 0
            && pde % 0x10_0000_0000_0000 == pde && pde / SIZE_2M == page
  {
    EntrySums(0, 1024 + page);
    DivMod(page * 0x10_0000 + 0x41, PRESENT + 1, 1);
    DivMod(page * 0x4000 + 1, PAGE_SIZE, 3);
    DivMod(page * 0x2000, 2, 1);
    DivMod(page, SIZE_2M, 0x83);
    DivMod(0, 0x10_0000_0000_0000, Entry(0, 1024 + page));
  }

  lemma WalkThroughDirectory(memory: int -> int, page: int, va: uint64)
    requires 0 <= page < 512 * 512
    ensures WalkDirectory(memory, Entry(0, 1024 + page), va) == Physical(page * SIZE_2M + va % SIZE_2M)
  {
    LargePageEntry(page);
  }

  /** An entry that points to the table in page `p`. */
  lemma PointerEntry(p: int)
    requires 0 <= p && p * PAGE < 0x10_0000_0000_0000
    ensures AddressField(p * PAGE) == p * PAGE
    ensures var entry := p * PAGE + 3;
            Has(entry, PRESENT) && !Has(entry, PAGE_SIZE) && AddressField(entry) == p * PAGE
  {
    var entry := p * PAGE + 3;
    DivMod(0, 0x10_0000_0000_0000, p * PAGE);
    DivMod(0, 0x10_0000_0000_0000, entry);
    DivMod(p, PAGE, 0);
    DivMod(p, PAGE, 3);
    DivMod(p * 0x800 + 1, 2, 1);
    DivMod(p * 0x20, PAGE_SIZE, 3);
    DivMod(p * 0x10, 2, 0);
  }

  lemma WalkThroughPointers(memory: int -> int, base: int, row: int, va: uint64)
    requires HoldsTable(memory, base) && 0 <= row < 512
    ensures WalkPointers(memory, memory(base + 8 * (512 + row)), va)
            == Physical((512 * row + va / SIZE_2M % 512) * SIZE_2M + va % SIZE_2M)
  {
    var pdpte := memory(base + 8 * (512 + row));
    EntrySums(base / PAGE, 512 + row);
    PointerEntry(base / PAGE + 2 + row);
    var page := 512 * row + va / SIZE_2M % 512;
    assert memory(base + 8 * (1024 + page)) == Entry(base, 1024 + page) == Entry(0, 1024 + page);
    WalkThroughDirectory(memory, page, va);
  }

  /** The whole mapping: identity below 512 GB, a second view at the top, nothing else. */
  function Intended(va: uint64): Translation {
    if !Canonical(va) then NotCanonical
    else if va < SIZE_512G then Physical(va)
    else if va >= HIGH_MEM_BASE then Physical(va - HIGH_MEM_BASE)
    else NotPresent
  }

  /** The three table indices and the page offset of an address are its digits. */
  lemma Digits(va: uint64)
    ensures (512 * (va / SIZE_1G % 512) + va / SIZE_2M % 512) * SIZE_2M + va % SIZE_2M == va % SIZE_512G
  {
    var pages, rest := va / SIZE_2M, va % SIZE_2M;
    var rows, page := pages / 512, pages % 512;
    DivMod(rows, SIZE_1G, page * SIZE_2M + rest);
    DivMod(rows / 512, SIZE_512G, (512 * (rows % 512) + page) * SIZE_2M + rest);
  }

  lemma TopIndex(va: uint64)
    requires Canonical(va)
    ensures va / SIZE_512G % 512 == 0 <==> va < SIZE_512G
    ensures va / SIZE_512G % 512 == 511 <==> va >= HIGH_MEM_BASE
    ensures va < SIZE_512G ==> va % SIZE_512G == va
    ensures va >= HIGH_MEM_BASE ==> va % SIZE_512G == va - HIGH_MEM_BASE
  {
  }

  lemma TableRealisesIntended(memory: int -> int, base: int, va: uint64)
    requires HoldsTable(memory, base)
    ensures Walk(memory, base, va) == Intended(va)
  {
    if Canonical(va) {
      TopIndex(va);
      TopEntry(memory, base, va / SIZE_512G % 512);
      Digits(va);
      WalkThroughPointers(memory, base, va / SIZE_1G % 512, va);
    }
  }

  lemma TopEntry(memory: int -> int, base: int, slot: int)
    requires HoldsTable(memory, base) && 0 <= slot < 512
    ensures AddressField(base) == base
    ensures var pml4e := memory(base + 8 * slot);
            && (slot == 0 || slot == 511 ==>
                Has(pml4e, PRESENT) && !Has(pml4e, PAGE_SIZE) && AddressField(pml4e) == base + 8 * 512)
            && (slot != 0 && slot != 511 ==> !Has(pml4e, PRESENT))
  {
    assert memory(base + 8 * slot) == Entry(base, slot);
    EntrySums(base / PAGE, slot);
    PointerEntry(base / PAGE);
    PointerEntry(base / PAGE + 1);
  }

  /** Both views of every physical address below 512 GB. */
  lemma BothViews(memory: int -> int, base: int, p: uint64)
    requires HoldsTable(memory, base) && p < SIZE_512G
    ensures Walk(memory, base, p) == Physical(p)
    ensures Walk(memory, base, ConvertPtr(p)) == Physical(p)
  {
    TableRealisesIntended(memory, base, p);
    TableRealisesIntended(memory, base, ConvertPtr(p));
  }
}
