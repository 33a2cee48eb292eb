/**
 Bloom filters: an array of bits in which each key sets as many as there are probes,
 found by double hashing.  The hash of a key is any 32-bit number.
 */
module Blooms {
  import opened Comparator
  import opened Codings

  // ----- Bits of bytes -----

  /** 1 << i */
  function Bit(i: nat): (p: nat)
    ensures p > 0
  {
    if i == 0 then 1 else 2 * Bit(i - 1)
  }

  predicate HasBit(x: nat, i: nat) {
    if i == 0 then x % 2 == 1 else HasBit(x / 2, i - 1)
  }

  predicate ByteBit(x: byte, i: nat) {
    HasBit(x as nat, i)
  }

  /** x | (1 << i) */
  function SetBit(x: byte, i: nat): (y: byte)
    requires i < 8
    ensures forall j: nat :: ByteBit(y, j) <==> ByteBit(x, j) || j == i
  {
    if ByteBit(x, i) then x
    else
      assert Bit(4) == 16 && Bit(8) == 16 * Bit(4);
      NewBitFits(x as nat, i, 8);
      var y := (x as nat + Bit(i)) as byte;
      assert forall j: nat :: ByteBit(y, j) <==> ByteBit(x, j) || j == i by {
        forall j: nat
          ensures ByteBit(y, j) <==> ByteBit(x, j) || j == i
        {
          NewBit(x as nat, i, j);
        }
      }
      y
  }

  /** Adding a bit that was clear sets it and no other. */
  lemma {:induction false} NewBit(x: nat, i: nat, j: nat)
    requires !HasBit(x, i)
    ensures HasBit(x + Bit(i), j) <==> HasBit(x, j) || j == i
  {
    if i > 0 {
      assert (x + Bit(i)) / 2 == x / 2 + Bit(i - 1) && (x + Bit(i)) % 2 == x % 2;
      if j > 0 {
        NewBit(x / 2, i - 1, j - 1);
      }
    } else if j > 0 {
      assert (x + 1) / 2 == x / 2;
    }
  }

  lemma {:induction false} NewBitFits(x: nat, i: nat, n: nat)
    requires x < Bit(n) && i < n && !HasBit(x, i)
    ensures x + Bit(i) < Bit(n)
  {
    var half := Bit(n - 1);
    assert Bit(n) == 2 * half;
    if i > 0 {
      var low := Bit(i - 1);
      assert x / 2 < half;
      NewBitFits(x / 2, i - 1, n - 1);
      assert x / 2 + low < half && Bit(i) == 2 * low;
    }
  }

  lemma {:induction false} NoBits(i: nat)
    ensures !HasBit(0, i)
  {
    if i > 0 {
      NoBits(i - 1);
    }
  }

  // ----- Probes -----

  /** Rotates right 17 bits. */
  function Rotated(h: uint32): uint32 {
    h / 0x2_0000 + h % 0x2_0000 * 0x8000
  }

  /** The hash value of probe j: the hash plus j times its rotation, in 32 bits. */
  function Probe(h: uint32, j: nat): uint32 {
    if j == 0 then h else (Probe(h, j - 1) + Rotated(h)) % TWO_TO_32
  }

  predicate BitAt(bits: Bytes, p: nat)
    requires p < 8 * |bits|
  {
    ByteBit(bits[p / 8], p % 8)
  }

  /** All of the first k probes of h find their bits set. */
  predicate AllSet(bits: Bytes, h: uint32, k: nat)
    requires bits != []
  {
    forall j | 0 <= j < k :: BitAt(bits, Probe(h, j) % (8 * |bits|))
  }

  /** No bit that was set is cleared. */
  predicate Covers(bits: Bytes, bits0: Bytes) {
    |bits| == |bits0| && forall p | 0 <= p < 8 * |bits| :: BitAt(bits0, p) ==> BitAt(bits, p)
  }

  lemma CoversKeepsSet(bits: Bytes, bits0: Bytes, h: uint32, k: nat)
    requires bits != [] && Covers(bits, bits0) && AllSet(bits0, h, k)
    ensures AllSet(bits, h, k)
  {
  }

  /** A bit of the new array is set only if it was, or if it is one of the probes. */
  predicate OnlyProbes(bits: Bytes, bits0: Bytes, h: uint32, k: nat)
    requires bits != [] && |bits| == |bits0|
  {
    forall p | 0 <= p < 8 * |bits| :: BitAt(bits, p) ==> BitAt(bits0, p) || IsProbe(|bits|, h, k, p)
  }

  predicate IsProbe(bytes: nat, h: uint32, k: nat, p: nat)
    requires bytes > 0
  {
    exists j | 0 <= j < k :: Probe(h, j) % (8 * bytes) == p
  }

  method SetProbes(bits0: Bytes, h0: uint32, k: nat) returns (bits: Bytes)
    requires bits0 != []
    ensures Covers(bits, bits0) && AllSet(bits, h0, k) && OnlyProbes(bits, bits0, h0, k)
  {
    bits := bits0;
    var h := h0;
    var delta := Rotated(h);
    var j: nat := 0;
    while j < k
      invariant j <= k && h == Probe(h0, j) && delta == Rotated(h0)
      invariant AreSet(bits, bits0, h0, j)
    {
      var bitpos := h % (8 * |bits|);
      OneMoreProbe(bits, bits0, h0, j, bitpos);
      bits := bits[bitpos / 8 := SetBit(bits[bitpos / 8], bitpos % 8)];
      h := (h + delta) % TWO_TO_32;
      j := j + 1;
    }
  }

  /** The first j probes have been set in bits0, and nothing else changed. */
  ghost predicate AreSet(bits: Bytes, bits0: Bytes, h: uint32, j: nat) {
    bits != [] && Covers(bits, bits0) && AllSet(bits, h, j) && OnlyProbes(bits, bits0, h, j)
  }

  lemma OneMoreProbe(before: Bytes, bits0: Bytes, h: uint32, j: nat, bitpos: nat)
    requires AreSet(before, bits0, h, j) && bitpos == Probe(h, j) % (8 * |before|)
    ensures AreSet(before[bitpos / 8 := SetBit(before[bitpos / 8], bitpos % 8)], bits0, h, j + 1)
  {
    var bits := before[bitpos / 8 := SetBit(before[bitpos / 8], bitpos % 8)];
    OneBitSet(before, bits, bitpos);
    CoversKeepsSet(bits, before, h, j);
    MoreProbes(bits, before, bits0, h, j, bitpos);
  }

  lemma OneBitSet(before: Bytes, bits: Bytes, bitpos: nat)
    requires bitpos < 8 * |before| && bits == before[bitpos / 8 := SetBit(before[bitpos / 8], bitpos % 8)]
    ensures Covers(bits, before) && BitAt(bits, bitpos)
    ensures forall p | 0 <= p < 8 * |bits| :: BitAt(bits, p) ==> BitAt(before, p) || p == bitpos
  {
    forall p | 0 <= p < 8 * |bits|
      ensures BitAt(bits, p) <==> BitAt(before, p) || p == bitpos
    {
      if p / 8 == bitpos / 8 && p % 8 == bitpos % 8 {
        assert p == bitpos;
      }
    }
  }

  lemma MoreProbes(bits: Bytes, before: Bytes, bits0: Bytes, h: uint32, j: nat, bitpos: nat)
    requires bits != [] && |bits| == |before| == |bits0| && bitpos == Probe(h, j) % (8 * |bits|)
    requires OnlyProbes(before, bits0, h, j)
    requires forall p | 0 <= p < 8 * |bits| :: BitAt(bits, p) ==> BitAt(before, p) || p == bitpos
    ensures OnlyProbes(bits, bits0, h, j + 1)
  {
    forall p | 0 <= p < 8 * |bits| && BitAt(bits, p) && !BitAt(bits0, p)
      ensures IsProbe(|bits|, h, j + 1, p)
    {
      if p != bitpos {
        assert IsProbe(|bits|, h, j, p);
        var i :| 0 <= i < j && Probe(h, i) % (8 * |bits|) == p;
      }
    }
  }

  // ----- The policy -----

  const MAX_PROBES: nat := 30

  /** Bytes that hold bitsPerKey bits for each of n keys, and at least 64. */
  function FilterBytes(n: nat, bitsPerKey: nat): (bytes: nat)
    ensures 8 <= bytes && n * bitsPerKey <= 8 * bytes
  {
    var bits := n * bitsPerKey;
    ((if bits < 64 then 64 else bits) + 7) / 8
  }

  /** Whether a filter lets a key pass: all the probes it says it has are set. */
  predicate Matches(hash: Bytes -> uint32, key: Bytes, filter: Bytes) {
    && |filter| >= 2
    && var bits, k := filter[..|filter| - 1], filter[|filter| - 1] as nat;
       k > MAX_PROBES || AllSet(bits, hash(key), k)
  }

  /** The bits are the probes of the keys and no others; the last byte is the number of probes. */
  ghost predicate IsFilter(hash: Bytes -> uint32, k: nat, keys: seq<Bytes>, filter: Bytes) {
    && |filter| >= 2 && filter[|filter| - 1] as nat == k
    && IsBitArray(hash, k, keys, filter[..|filter| - 1])
  }

  ghost predicate IsBitArray(hash: Bytes -> uint32, k: nat, keys: seq<Bytes>, bits: Bytes)
    requires bits != []
  {
    forall p | 0 <= p < 8 * |bits| :: BitAt(bits, p) <==>
        exists i :: 0 <= i < |keys| && IsProbe(|bits|, hash(keys[i]), k, p)
  }

  /** No filter turns away one of its keys. */
  lemma FilterHasKeys(hash: Bytes -> uint32, k: nat, keys: seq<Bytes>, filter: Bytes, key: Bytes)
    requires IsFilter(hash, k, keys, filter) && key in keys
    ensures Matches(hash, key, filter)
  {
    var bits := filter[..|filter| - 1];
    var i :| 0 <= i < |keys| && keys[i] == key;
    forall j | 0 <= j < k
      ensures BitAt(bits, Probe(hash(key), j) % (8 * |bits|))
    {
      assert IsProbe(|bits|, hash(keys[i]), k, Probe(hash(key), j) % (8 * |bits|));
    }
  }

  /** The filter for a list of keys, after what dst already holds. */
  method CreateFilter(hash: Bytes -> uint32, bitsPerKey: nat, k: nat, keys: seq<Bytes>, dst: Bytes) returns (r: Bytes)
    requires k <= MAX_PROBES
    ensures |r| == |dst| + FilterBytes(|keys|, bitsPerKey) + 1 && r[..|dst|] == dst
    ensures IsFilter(hash, k, keys, r[|dst|..])
  {
    var bytes := FilterBytes(|keys|, bitsPerKey);
    var bits: Bytes := seq(bytes, _ => 0);
    NoBitsSet(hash, k, bits);
    var i := 0;
    while i < |keys|
      invariant i <= |keys| && |bits| == bytes
      invariant IsBitArray(hash, k, keys[..i], bits)
    {
      var bits' := SetProbes(bits, hash(keys[i]), k);
      MoreKeys(hash, k, keys[..i], keys[i], bits, bits');
      assert keys[..i+1] == keys[..i] + [keys[i]];
      bits := bits';
      i := i + 1;
    }
    assert keys[..i] == keys;
    r := dst + (bits + [k as byte]);
    var filter := bits + [k as byte];
    assert r[|dst|..] == filter && filter[..|filter| - 1] == bits;
  }

  lemma NoBitsSet(hash: Bytes -> uint32, k: nat, bits: Bytes)
    requires bits != [] && forall i | 0 <= i < |bits| :: bits[i] == 0
    ensures IsBitArray(hash, k, [], bits)
  {
    forall p | 0 <= p < 8 * |bits|
      ensures !BitAt(bits, p)
    {
      NoBits(p % 8);
    }
  }

  lemma MoreKeys(hash: Bytes -> uint32, k: nat, keys: seq<Bytes>, key: Bytes, bits: Bytes, bits': Bytes)
    requires bits != [] && IsBitArray(hash, k, keys, bits) && Covers(bits', bits)
    requires AllSet(bits', hash(key), k) && OnlyProbes(bits', bits, hash(key), k)
    ensures IsBitArray(hash, k, keys + [key], bits')
  {
    var keys' := keys + [key];
    forall p | 0 <= p < 8 * |bits|
      ensures BitAt(bits', p) <==> exists i :: 0 <= i < |keys'| && IsProbe(|bits|, hash(keys'[i]), k, p)
    {
      if BitAt(bits, p) {
        var i :| 0 <= i < |keys| && IsProbe(|bits|, hash(keys[i]), k, p);
        assert keys'[i] == keys[i];
      } else if BitAt(bits', p) {
        assert keys'[|keys|] == key;
      }
      if i :| 0 <= i < |keys'| && IsProbe(|bits|, hash(keys'[i]), k, p) {
        assert i < |keys| ==> keys'[i] == keys[i] && BitAt(bits, p);
      }
    }
  }

  /** Stops at the first probe whose bit is clear. */
  method KeyMayMatch(hash: Bytes -> uint32, key: Bytes, filter: Bytes) returns (found: bool)
    ensures found <==> Matches(hash, key, filter)
  {
    if |filter| < 2 {
      return false;
    }
    var bits := filter[..|filter| - 1];
    var k := filter[|filter| - 1] as nat;
    if k > MAX_PROBES {
      return true;
    }
    var h := hash(key);
    var delta := Rotated(h);
    var j: nat := 0;
    while j < k
      invariant j <= k && h == Probe(hash(key), j) && delta == Rotated(hash(key))
      invariant AllSet(bits, hash(key), j)
    {
      var bitpos := h % (8 * |bits|);
      if !ByteBit(bits[bitpos / 8], bitpos % 8) {
        assert !BitAt(bits, Probe(hash(key), j) % (8 * |bits|));
        return false;
      }
      h := (h + delta) % TWO_TO_32;
      j := j + 1;
    }
    return true;
  }
}
