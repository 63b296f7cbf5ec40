/** Unsigned integers as little-endian bytes. */
module LittleEndian {
  import opened MachineWords

  type Bytes = seq<uint8>

  function Pow256(n: nat): nat {
    if n == 0 then 1 else TWO8 * Pow256(n - 1)
  }

  function Value(bytes: Bytes): (v: nat)
    ensures v < Pow256(|bytes|)
  {
    if bytes == [] then 0 else bytes[0] + TWO8 * Value(bytes[1..])
  }

  /** The `n` low bytes of a number. */
  function Encode(v: nat, n: nat): (bytes: Bytes)
    ensures |bytes| == n
  {
    if n == 0 then [] else [v % TWO8] + Encode(v / TWO8, n - 1)
  }

  lemma {:induction false} ValueOfEncode(v: nat, n: nat)
    requires v < Pow256(n)
    ensures Value(Encode(v, n)) == v
  {
    if n > 0 {
      ValueOfEncode(v / TWO8, n - 1);
      assert Encode(v, n)[1..] == Encode(v / TWO8, n - 1);
    }
  }

  lemma Pow256Of8()
    ensures Pow256(8) == TWO64
  {
    assert Pow256(4) == TWO32;
    assert Pow256(8) == TWO8 * (TWO8 * (TWO8 * (TWO8 * Pow256(4))));
  }

  function Word(bytes: Bytes, at: nat, n: nat): nat
    requires at + n <= |bytes|
  {
    Value(bytes[at..at + n])
  }

  function Word64(bytes: Bytes, at: nat): uint64
    requires at + 8 <= |bytes|
  {
    Pow256Of8();
    Word(bytes, at, 8)
  }

  /** An 8-byte store. */
  function Put64(bytes: Bytes, at: nat, v: uint64): Bytes
    requires at + 8 <= |bytes|
  {
    bytes[..at] + Encode(v, 8) + bytes[at + 8..]
  }

  lemma Put64Bytes(bytes: Bytes, at: nat, v: uint64)
    requires at + 8 <= |bytes|
    ensures |Put64(bytes, at, v)| == |bytes|
    ensures Word64(Put64(bytes, at, v), at) == v
    ensures forall j :: 0 <= j < |bytes| && !(at <= j < at + 8) ==> Put64(bytes, at, v)[j] == bytes[j]
  {
    assert Put64(bytes, at, v)[at..at + 8] == Encode(v, 8);
    Pow256Of8();
    ValueOfEncode(v, 8);
  }

  /** A word depends on its own bytes only. */
  lemma SameWord(a: Bytes, b: Bytes, at: nat, n: nat)
    requires |a| == |b| && at + n <= |a| && forall j :: at <= j < at + n ==> a[j] == b[j]
    ensures Word(a, at, n) == Word(b, at, n)
  {
    assert a[at..at + n] == b[at..at + n];
  }
}
