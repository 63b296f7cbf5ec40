/**
 * How GPEs are numbered: the register and event tables of a block (dep/acpica/events/evgpeblk.c), the two FADT blocks
 * (evgpeinit.c), and finding a GPE by its number (evgpe.c).
 */
module GpeNumbering {
  import opened MachineWords
  import opened Wrappers

  const REGISTER_WIDTH: int := 8

  datatype RegisterEntry = RegisterEntry(baseGpeNumber: uint16, statusAddress: uint64, enableAddress: uint64)

  /** `register` is the index of the register entry that the source points to. */
  datatype EventEntry = EventEntry(gpeNumber: uint8, register: nat)

  function BaseNumber(blockBaseNumber: uint16, i: nat): uint16 {
    (blockBaseNumber + i * REGISTER_WIDTH) % TWO16
  }

  /** Entry `i` of the register table of a block. */
  function RegisterFor(blockBaseNumber: uint16, address: uint64, registerCount: uint32, i: nat): RegisterEntry {
    RegisterEntry(BaseNumber(blockBaseNumber, i), Wrap64(address + i), Wrap64(address + i + registerCount))
  }

  /** Entry `e` of the event table: bit `e % 8` of register `e / 8`. */
  function EventFor(blockBaseNumber: uint16, e: nat): EventEntry {
    EventEntry((BaseNumber(blockBaseNumber, e / REGISTER_WIDTH) + e % REGISTER_WIDTH) % TWO8, e / REGISTER_WIDTH)
  }

  /** A block that does not wrap: first its status registers, then its enable registers, numbered by eights. */
  lemma RegistersInHalves(blockBaseNumber: uint16, address: uint64, registerCount: uint32, i: nat)
    requires i < registerCount && blockBaseNumber + registerCount * 8 <= TWO16 && address + 2 * registerCount <= TWO64
    ensures var entry := RegisterFor(blockBaseNumber, address, registerCount, i);
            InHalves(entry, address, registerCount, i) && entry.baseGpeNumber == blockBaseNumber + i * 8
  {
  }

  /** The status register is in the lower half of the block's registers, its enable register as far up in the upper. */
  predicate InHalves(entry: RegisterEntry, address: uint64, registerCount: uint32, i: nat) {
    && address <= entry.statusAddress == address + i < address + registerCount
    && address + registerCount <= entry.enableAddress == entry.statusAddress + registerCount
       < address + 2 * registerCount
  }

  /** Its events are numbered on from the base, as far as eight bits go. */
  lemma EventsAreNumbered(blockBaseNumber: uint16, registerCount: uint32, e: nat)
    requires e < registerCount * 8 && blockBaseNumber + registerCount * 8 <= TWO16
    ensures EventFor(blockBaseNumber, e).gpeNumber == (blockBaseNumber + e) % 256
    ensures 8 * EventFor(blockBaseNumber, e).register <= e < 8 * EventFor(blockBaseNumber, e).register + 8
  {
  }

  /**
   * Fills both tables with one running event pointer. The event table has as many entries as the 16-bit GPE count
   * says, which is enough for all registers only below 8192 of them.
   */
  method CreateGpeInfoBlocks(blockBaseNumber: uint16, address: uint64, registerCount: uint32, gpeCount: uint16)
    returns (registers: array<RegisterEntry>, events: array<EventEntry>)
    requires gpeCount == registerCount * REGISTER_WIDTH % TWO16 && registerCount < 8192
    ensures fresh(registers) && fresh(events)
    ensures registers.Length == registerCount && events.Length == registerCount * REGISTER_WIDTH
    ensures forall i :: 0 <= i < registerCount ==>
            registers[i] == RegisterFor(blockBaseNumber, address, registerCount, i)
    ensures forall e :: 0 <= e < events.Length ==> events[e] == EventFor(blockBaseNumber, e)
  {
    registers := new RegisterEntry[registerCount](_ => RegisterEntry(0, 0, 0));
    events := new EventEntry[gpeCount](_ => EventEntry(0, 0));
    var thisEvent := 0;
    for i := 0 to registerCount
      invariant thisEvent == i * REGISTER_WIDTH
      invariant forall k :: 0 <= k < i ==> registers[k] == RegisterFor(blockBaseNumber, address, registerCount, k)
      invariant forall e :: 0 <= e < thisEvent ==> events[e] == EventFor(blockBaseNumber, e)
    {
      registers[i] := RegisterEntry((blockBaseNumber + i * REGISTER_WIDTH) % TWO16, Wrap64(address + i),
                                    Wrap64(address + i + registerCount));
      for j := 0 to REGISTER_WIDTH
        invariant thisEvent == i * REGISTER_WIDTH + j
        invariant forall k :: 0 <= k <= i ==> registers[k] == RegisterFor(blockBaseNumber, address, registerCount, k)
        invariant forall e :: 0 <= e < thisEvent ==> events[e] == EventFor(blockBaseNumber, e)
      {
        assert EventFor(blockBaseNumber, thisEvent) == EventEntry((registers[i].baseGpeNumber + j) % TWO8, i);
        events[thisEvent] := EventEntry((registers[i].baseGpeNumber + j) % TWO8, i);
        thisEvent := thisEvent + 1;
      }
    }
  }

  /** The event table is long enough for the loops exactly when the GPE count has not been truncated. */
  lemma TableIsLongEnough(registerCount: uint32)
    ensures registerCount * REGISTER_WIDTH <= registerCount * REGISTER_WIDTH % TWO16 <==> registerCount < 8192
  {
  }

  /** The bit that the hardware layer computes for event `e`, and its bit in the register. */
  predicate BitIsRight(blockBaseNumber: uint16, e: nat) {
    var event := EventFor(blockBaseNumber, e);
    event.gpeNumber - BaseNumber(blockBaseNumber, event.register) == e % REGISTER_WIDTH
  }

  lemma BitIsRightBelow256(blockBaseNumber: uint16, e: nat)
    ensures BitIsRight(blockBaseNumber, e)
            <==> BaseNumber(blockBaseNumber, e / REGISTER_WIDTH) + e % REGISTER_WIDTH < TWO8
  {
  }

  /** The hardware layer finds the right bit for every event of a block exactly when the block ends below number 256. */
  lemma RegisterBitIsRight(blockBaseNumber: uint16, registerCount: uint32)
    requires registerCount > 0
    ensures (forall e :: 0 <= e < registerCount * REGISTER_WIDTH ==> BitIsRight(blockBaseNumber, e))
            <==> blockBaseNumber + registerCount * REGISTER_WIDTH <= TWO8
  {
    if blockBaseNumber + registerCount * REGISTER_WIDTH > TWO8 {
      var i := if blockBaseNumber >= TWO8 then 0 else (TWO8 - blockBaseNumber) / REGISTER_WIDTH;
      var last := i * REGISTER_WIDTH + (REGISTER_WIDTH - 1);
      assert i < registerCount && BaseNumber(blockBaseNumber, i) == blockBaseNumber + i * REGISTER_WIDTH;
      assert last / REGISTER_WIDTH == i && last % REGISTER_WIDTH == REGISTER_WIDTH - 1;
      BitIsRightBelow256(blockBaseNumber, last);
      assert !BitIsRight(blockBaseNumber, last);
    } else {
      forall e | 0 <= e < registerCount * REGISTER_WIDTH
        ensures BitIsRight(blockBaseNumber, e)
      {
        BitIsRightBelow256(blockBaseNumber, e);
      }
    }
  }

  // ----- The two blocks of the FADT

  datatype Block = Block(blockBaseNumber: uint16, gpeCount: uint16)

  datatype Fadt = Fadt(gpe0Length: uint8, gpe0Address: uint64, gpe1Length: uint8, gpe1Address: uint64, gpe1Base: uint8)

  /** The block that creation leaves behind, if it succeeds; a block without registers is not created. */
  function Created(registerCount: uint32, base: uint16, succeeds: bool): Option<Block> {
    if registerCount == 0 || !succeeds then None else Some(Block(base, registerCount * REGISTER_WIDTH % TWO16))
  }

  /** Installs the FADT blocks; `succeeds0` and `succeeds1` say whether their creation succeeds. */
  method GpeInitialize(fadt: Fadt, succeeds0: bool, succeeds1: bool)
    returns (block0: Option<Block>, block1: Option<Block>, gpeNumberMax: uint32)
    ensures block0 == if fadt.gpe0Address == 0 then None else Created(fadt.gpe0Length / 2, 0, succeeds0)
    ensures block1.Some? ==> fadt.gpe1Address != 0 && block1 == Created(fadt.gpe1Length / 2, fadt.gpe1Base, succeeds1)
    ensures block1 == None ==>
              || fadt.gpe1Length < 2 || fadt.gpe1Address == 0 || !succeeds1
              || (fadt.gpe0Address != 0 && 0 < fadt.gpe0Length / 2
                  && fadt.gpe1Base < fadt.gpe0Length / 2 * REGISTER_WIDTH)
    ensures block0.Some? ==> forall n: int :: Within(block0, n) <==> 0 <= n < fadt.gpe0Length / 2 * 8
    ensures block1.Some? ==>
              forall n: int :: Within(block1, n) <==> fadt.gpe1Base <= n < fadt.gpe1Base + fadt.gpe1Length / 2 * 8
    ensures forall n: int :: !(Within(block0, n) && Within(block1, n))
    ensures forall n: int :: Within(block0, n) || Within(block1, n) ==> n <= gpeNumberMax
  {
    var registerCount0: uint32, registerCount1: uint32 := 0, 0;
    block0, block1, gpeNumberMax := None, None, 0;
    if fadt.gpe0Length != 0 && fadt.gpe0Address != 0 {
      registerCount0 := fadt.gpe0Length / 2;
      gpeNumberMax := Sub32(registerCount0 * REGISTER_WIDTH, 1);
      block0 := Created(registerCount0, 0, succeeds0);
    }
    if fadt.gpe1Length != 0 && fadt.gpe1Address != 0 {
      registerCount1 := fadt.gpe1Length / 2;
      if registerCount0 != 0 && gpeNumberMax >= fadt.gpe1Base {
        registerCount1 := 0;
      } else {
        block1 := Created(registerCount1, fadt.gpe1Base, succeeds1);
        gpeNumberMax := Sub32(Add32(fadt.gpe1Base, registerCount1 * REGISTER_WIDTH), 1);
      }
    }
  }

  predicate Within(block: Option<Block>, n: int) {
    block.Some? && block.value.blockBaseNumber <= n < block.value.blockBaseNumber + block.value.gpeCount
  }

  // ----- Finding a GPE by number

  /** The event table index of a GPE number in one block. */
  function LowGetGpeInfo(n: uint32, block: Option<Block>): (e: Option<nat>)
    ensures e.Some? <==> Within(block, n)
    ensures e.Some? ==> e.value < block.value.gpeCount && block.value.blockBaseNumber + e.value == n
  {
    if block.None? || n < block.value.blockBaseNumber then None
    else
      var index := n - block.value.blockBaseNumber;
      if index >= block.value.gpeCount then None else Some(index)
  }

  /** The event found at index `e` of a block's table. */
  predicate Names(found: Option<(Block, nat)>, block: Option<Block>, n: uint32) {
    block.Some? && found == Some((block.value, n - block.value.blockBaseNumber)) && Within(block, n)
  }

  /** Looks in the block of a GPE block device, which may have none, or else in the FADT blocks in their order. */
  method GetGpeEventInfo(n: uint32, fadt: seq<Option<Block>>, device: Option<Option<Block>>)
    returns (found: Option<(Block, nat)>)
    requires |fadt| == 2
    ensures device.Some? ==> if Within(device.value, n) then Names(found, device.value, n) else found == None
    ensures device.None? ==>
              if Within(fadt[0], n) then Names(found, fadt[0], n)
              else if Within(fadt[1], n) then Names(found, fadt[1], n)
              else found == None
  {
    if device.Some? {
      var e := LowGetGpeInfo(n, device.value);
      return if e.Some? then Some((device.value.value, e.value)) else None;
    }
    for i := 0 to 2
      invariant forall k :: 0 <= k < i ==> !Within(fadt[k], n)
    {
      var e := LowGetGpeInfo(n, fadt[i]);
      if e.Some? {
        return Some((fadt[i].value, e.value));
      }
    }
    return None;
  }

  predicate SharedNumber(a: Block, b: Block, e: nat, f: nat) {
    e < a.gpeCount && f < b.gpeCount
      && EventFor(a.blockBaseNumber, e).gpeNumber == EventFor(b.blockBaseNumber, f).gpeNumber
  }

  /**
   * The 8-bit numbers stored in the events are those of the two blocks reduced modulo 256: with both FADT blocks
   * present, an event of one carries the number of an event of the other exactly when GPE1 reaches past number 255.
   */
  lemma StoredNumbersCollide(a: Block, b: Block)
    requires a.blockBaseNumber == 0 && 0 < a.gpeCount <= b.blockBaseNumber < TWO8
    requires 0 < b.gpeCount <= 127 * REGISTER_WIDTH && a.gpeCount % REGISTER_WIDTH == 0
    requires b.gpeCount % REGISTER_WIDTH == 0
    ensures (exists e, f :: SharedNumber(a, b, e, f)) <==> b.blockBaseNumber + b.gpeCount > TWO8
  {
    if b.blockBaseNumber + b.gpeCount > TWO8 {
      assert SharedNumber(a, b, 0, TWO8 - b.blockBaseNumber);
    }
  }
}
