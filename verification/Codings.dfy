/**
 Integers and byte strings as they are laid out in files: fixed-width little endian,
 base-128 varints, and length-prefixed slices.
 */
module Codings {
  import opened Wrappers
  import opened Comparator

  const TWO_TO_32: nat := 0x1_0000_0000
  const TWO_TO_64: nat := 0x1_0000_0000_0000_0000

  type uint32 = n: nat | n < TWO_TO_32
  type uint64 = n: nat | n < TWO_TO_64

  // ----- Fixed width -----

  /** The low `width` bytes of n, least significant first. */
  function LittleEndian(n: nat, width: nat): (b: Bytes)
    ensures |b| == width
  {
    if width == 0 then [] else [(n % 256) as byte] + LittleEndian(n / 256, width - 1)
  }

  function FromLittleEndian(b: Bytes): nat {
    if b == [] then 0 else b[0] as nat + 256 * FromLittleEndian(b[1..])
  }

  function Power(base: nat, e: nat): (p: nat)
    requires base > 0
    ensures p > 0
  {
    if e == 0 then 1 else base * Power(base, e - 1)
  }

  lemma {:induction false} LittleEndianRoundTrip(n: nat, width: nat)
    requires n < Power(256, width)
    ensures FromLittleEndian(LittleEndian(n, width)) == n
  {
    if width > 0 {
      LittleEndianRoundTrip(n / 256, width - 1);
      assert LittleEndian(n, width)[1..] == LittleEndian(n / 256, width - 1);
    }
  }

  lemma {:induction false} FromLittleEndianBound(b: Bytes)
    ensures FromLittleEndian(b) < Power(256, |b|)
  {
    if b != [] {
      FromLittleEndianBound(b[1..]);
    }
  }

  lemma WordPowers()
    ensures Power(256, 2) == 0x1_0000 && Power(256, 4) == TWO_TO_32 && Power(256, 8) == TWO_TO_64
  {
    assert Power(256, 2) == 256 * Power(256, 1);
    assert Power(256, 4) == 256 * (256 * Power(256, 2));
    assert Power(256, 6) == 256 * (256 * Power(256, 4));
    assert Power(256, 8) == 256 * (256 * Power(256, 6));
  }

  function Fixed32(n: uint32): (b: Bytes)
    ensures |b| == 4 && DecodeFixed32(b) == n
  {
    WordPowers();
    LittleEndianRoundTrip(n, 4);
    LittleEndian(n, 4)
  }

  function DecodeFixed32(b: Bytes): uint32
    requires |b| == 4
  {
    WordPowers();
    FromLittleEndianBound(b);
    FromLittleEndian(b)
  }

  function Fixed64(n: uint64): (b: Bytes)
    ensures |b| == 8 && DecodeFixed64(b) == n
  {
    WordPowers();
    LittleEndianRoundTrip(n, 8);
    LittleEndian(n, 8)
  }

  function DecodeFixed64(b: Bytes): uint64
    requires |b| == 8
  {
    WordPowers();
    FromLittleEndianBound(b);
    FromLittleEndian(b)
  }

  // ----- Varints -----

  /** Seven bits a byte, least significant first, the high bit set on all but the last. */
  function Varint(n: nat): (b: Bytes)
    ensures b != []
  {
    if n < 128 then [n as byte] else [(n % 128 + 128) as byte] + Varint(n / 128)
  }

  /** The unrolled encoder for 32-bit values. */
  method EncodeVarint32(v: uint32) returns (b: Bytes)
    ensures b == Varint(v) && |b| <= 5
  {
    if v < 0x80 {
      b := [v as byte];
    } else if v < 0x4000 {
      b := [(v % 128 + 128) as byte, (v / 0x80) as byte];
    } else if v < 0x20_0000 {
      b := [(v % 128 + 128) as byte, (v / 0x80 % 128 + 128) as byte, (v / 0x4000) as byte];
      assert Varint(v / 0x80) == [(v / 0x80 % 128 + 128) as byte] + Varint(v / 0x80 / 128);
      assert v / 0x80 / 128 == v / 0x4000;
    } else if v < 0x1000_0000 {
      b := [(v % 128 + 128) as byte, (v / 0x80 % 128 + 128) as byte, (v / 0x4000 % 128 + 128) as byte,
          (v / 0x20_0000) as byte];
      assert v / 0x80 / 128 == v / 0x4000 && v / 0x4000 / 128 == v / 0x20_0000;
      assert Varint(v / 0x4000) == [(v / 0x4000 % 128 + 128) as byte] + Varint(v / 0x20_0000);
      assert Varint(v / 0x80) == [(v / 0x80 % 128 + 128) as byte] + Varint(v / 0x4000);
    } else {
      b := [(v % 128 + 128) as byte, (v / 0x80 % 128 + 128) as byte, (v / 0x4000 % 128 + 128) as byte,
            (v / 0x20_0000 % 128 + 128) as byte, (v / 0x1000_0000) as byte];
      assert v / 0x80 / 128 == v / 0x4000 && v / 0x4000 / 128 == v / 0x20_0000
             && v / 0x20_0000 / 128 == v / 0x1000_0000;
      assert Varint(v / 0x20_0000) == [(v / 0x20_0000 % 128 + 128) as byte] + Varint(v / 0x1000_0000);
      assert Varint(v / 0x4000) == [(v / 0x4000 % 128 + 128) as byte] + Varint(v / 0x20_0000);
      assert Varint(v / 0x80) == [(v / 0x80 % 128 + 128) as byte] + Varint(v / 0x4000);
    }
  }

  method EncodeVarint64(n: uint64) returns (b: Bytes)
    ensures b == Varint(n)
  {
    b := [];
    var v: nat := n;
    while v >= 128
      invariant Varint(n) == b + Varint(v)
    {
      b := b + [(v % 128 + 128) as byte];
      v := v / 128;
    }
    b := b + [v as byte];
  }

  method VarintLength(n: uint64) returns (len: nat)
    ensures len == |Varint(n)|
  {
    var v: nat := n;
    len := 1;
    while v >= 128
      invariant len + |Varint(v)| == |Varint(n)| + 1
    {
      v := v / 128;
      len := len + 1;
    }
  }

  /** The value of the seven-bit groups in b, least significant first. */
  function Groups(b: Bytes): nat {
    if b == [] then 0 else b[0] as nat % 128 + 128 * Groups(b[1..])
  }

  /** The first n bytes of input are one varint: only the last has its high bit clear. */
  predicate IsVarint(input: Bytes, n: nat) {
    && 0 < n <= |input| && input[n-1] < 128
    && forall i | 0 <= i < n - 1 :: input[i] >= 128
  }

  lemma {:induction false} VarintIsOne(v: nat)
    ensures IsVarint(Varint(v), |Varint(v)|) && Groups(Varint(v)) == v
  {
    if v >= 128 {
      VarintIsOne(v / 128);
      assert Varint(v)[1..] == Varint(v / 128);
    }
  }

  lemma {:induction false} VarintSize(v: nat, n: nat)
    requires v < Power(128, n) && n > 0
    ensures |Varint(v)| <= n
  {
    if v >= 128 {
      assert n > 1 by {
        assert Power(128, 1) == 128;
      }
      VarintSize(v / 128, n - 1);
    }
  }

  lemma {:induction false} GroupsAppend(b: Bytes, x: byte)
    ensures Groups(b + [x]) == Groups(b) + (x as nat % 128) * Power(128, |b|)
  {
    if b != [] {
      assert (b + [x])[1..] == b[1..] + [x];
      GroupsAppend(b[1..], x);
      var y, p := x as nat % 128, Power(128, |b| - 1);
      assert Groups(b + [x]) == b[0] as nat % 128 + 128 * (Groups(b[1..]) + y * p);
      assert 128 * (y * p) == y * (128 * p);
    }
  }

  /** The length of the varint that starts the input, 0 if there is none of at most `size` bytes. */
  function VarintEnd(input: Bytes, size: nat): (n: nat)
    ensures n > 0 ==> n <= size && IsVarint(input, n)
    ensures n == 0 ==> forall k | 0 < k <= size :: !IsVarint(input, k)
  {
    if size == 0 || input == [] then 0
    else if input[0] < 128 then 1
    else
      var n := VarintEnd(input[1..], size - 1);
      assert forall k | 1 < k <= size && IsVarint(input, k) :: IsVarint(input[1..], k - 1);
      if n == 0 then 0 else n + 1
  }

  lemma OneVarint(input: Bytes, n: nat, k: nat)
    requires IsVarint(input, n) && IsVarint(input, k)
    ensures n == k
  {
    var x, y := input[n-1], input[k-1];
  }

  /** The value decoded, in a word of the given modulus, and the input after it. */
  function DecodeVarint(input: Bytes, size: nat, modulus: nat): Option<(nat, Bytes)>
    requires modulus > 0
  {
    var n := VarintEnd(input, size);
    if n == 0 then None else Some((Groups(input[..n]) % modulus, input[n..]))
  }

  lemma ModUnique(a: int, m: nat, d: int, r: nat)
    requires r < m && a == m * d + r
    ensures a % m == r
  {
    var e := d - a / m;
    assert m * e == a % m - r by {
      assert m * e == m * d - m * (a / m);
    }
    MultipleAtLeast(m, e);
  }

  lemma MultipleAtLeast(m: nat, e: int)
    ensures e >= 1 ==> m * e >= m
    ensures e <= -1 ==> m * e <= 0 - m
  {
    if e >= 1 {
      assert m * e == m + m * (e - 1);
    } else if e <= -1 {
      assert m * e == m * (e + 1) - m;
    }
  }

  lemma ModAdd(a: nat, b: nat, m: nat)
    requires m > 0
    ensures (a % m + b) % m == (a + b) % m
  {
    var c := a % m + b;
    assert a + b == m * (a / m + c / m) + c % m by {
      assert m * (a / m + c / m) == m * (a / m) + m * (c / m);
    }
    ModUnique(a + b, m, a / m + c / m, c % m);
  }

  /** GetVarint32PtrFallback and GetVarint64Ptr: five bytes into 32 bits, or ten into 64. */
  method GetVarint(input: Bytes, size: nat, modulus: nat) returns (r: Option<(nat, Bytes)>)
    requires modulus > 0
    ensures r == DecodeVarint(input, size, modulus)
  {
    var result, scale := 0, 1;
    var p := 0;
    assert Groups([]) % modulus == 0;
    while p < size && p < |input|
      invariant p <= |input| && p <= size && scale == Power(128, p)
      invariant result == Groups(input[..p]) % modulus
      invariant forall i | 0 <= i < p :: input[i] >= 128
    {
      var x := input[p];
      assert input[..p+1] == input[..p] + [x];
      GroupsAppend(input[..p], x);
      ModAdd(Groups(input[..p]), (x as nat % 128) * scale, modulus);
      result := (result + (x as nat % 128) * scale) % modulus;
      scale := 128 * scale;
      p := p + 1;
      if x < 128 {
        OneVarintEnds(input, p, size);
        return Some((result, input[p..]));
      }
    }
    NoVarintEnds(input, p, size);
    return None;
  }

  lemma OneVarintEnds(input: Bytes, p: nat, size: nat)
    requires p <= size && IsVarint(input, p)
    ensures VarintEnd(input, size) == p
  {
    OneVarint(input, p, if VarintEnd(input, size) == 0 then p else VarintEnd(input, size));
  }

  lemma {:induction false} NoVarintEnds(input: Bytes, p: nat, size: nat)
    requires p <= |input| && p <= size && (p == size || p == |input|)
    requires forall i | 0 <= i < p :: input[i] >= 128
    ensures VarintEnd(input, size) == 0
  {
    if p > 0 {
      NoVarintEnds(input[1..], p - 1, size - 1);
    }
  }

  /** Decoding consumes exactly what was encoded. */
  lemma DecodeEncoded(v: nat, rest: Bytes, size: nat, modulus: nat)
    requires v < modulus && v < Power(128, size) && size > 0
    ensures DecodeVarint(Varint(v) + rest, size, modulus) == Some((v, rest))
  {
    VarintIsOne(v);
    VarintSize(v, size);
    var n := |Varint(v)|;
    assert IsVarint(Varint(v) + rest, n);
    OneVarintEnds(Varint(v) + rest, n, size);
    assert (Varint(v) + rest)[..n] == Varint(v) && (Varint(v) + rest)[n..] == rest;
    ModUnique(v, modulus, 0, v);
  }

  lemma VarintPowers()
    ensures TWO_TO_32 < Power(128, 5) && TWO_TO_64 < Power(128, 10)
  {
    assert Power(128, 2) == 128 * Power(128, 1);
    assert Power(128, 4) == 128 * (128 * Power(128, 2));
    assert Power(128, 6) == 128 * (128 * Power(128, 4));
    assert Power(128, 8) == 128 * (128 * Power(128, 6));
    assert Power(128, 10) == 128 * (128 * Power(128, 8));
  }

  function GetVarint32(input: Bytes): Option<(nat, Bytes)> {
    DecodeVarint(input, 5, TWO_TO_32)
  }

  function GetVarint64(input: Bytes): Option<(nat, Bytes)> {
    DecodeVarint(input, 10, TWO_TO_64)
  }

  lemma Varint32RoundTrip(v: uint32, rest: Bytes)
    ensures GetVarint32(Varint(v) + rest) == Some((v, rest))
  {
    VarintPowers();
    DecodeEncoded(v, rest, 5, TWO_TO_32);
  }

  lemma Varint64RoundTrip(v: uint64, rest: Bytes)
    ensures GetVarint64(Varint(v) + rest) == Some((v, rest))
  {
    VarintPowers();
    DecodeEncoded(v, rest, 10, TWO_TO_64);
  }

  // ----- Length-prefixed slices -----

  function LengthPrefixed(s: Bytes): Bytes {
    Varint(|s|) + s
  }

  function GetLengthPrefixedSlice(input: Bytes): Option<(Bytes, Bytes)> {
    match GetVarint32(input)
    case None => None
    case Some((len, rest)) => if len <= |rest| then Some((rest[..len], rest[len..])) else None
  }

  lemma SliceRoundTrip(s: Bytes, rest: Bytes)
    requires |s| < TWO_TO_32
    ensures GetLengthPrefixedSlice(LengthPrefixed(s) + rest) == Some((s, rest))
  {
    assert LengthPrefixed(s) + rest == Varint(|s|) + (s + rest);
    Varint32RoundTrip(|s|, s + rest);
    assert (s + rest)[..|s|] == s && (s + rest)[|s|..] == rest;
  }

  // ----- Byte strings put together -----

  function Zeros(n: nat): (b: Bytes)
    ensures |b| == n && forall i | 0 <= i < n :: b[i] == 0
  {
    if n == 0 then [] else [0] + Zeros(n - 1)
  }

  function Joined(parts: seq<Bytes>): Bytes {
    if parts == [] then [] else parts[0] + Joined(parts[1..])
  }

  lemma Regroup<T>(a: seq<T>, b: seq<T>, c: seq<T>)
    ensures (a + b) + c == a + (b + c)
  {
  }

  lemma {:induction false} JoinedAppend(a: seq<Bytes>, b: seq<Bytes>)
    ensures Joined(a + b) == Joined(a) + Joined(b)
  {
    if a == [] {
      assert a + b == b && Joined(a) + Joined(b) == Joined(b);
    } else {
      JoinedAppend(a[1..], b);
      assert (a + b)[1..] == a[1..] + b && (a + b)[0] == a[0];
      Regroup(a[0], Joined(a[1..]), Joined(b));
    }
  }

  // ----- Arrays of 32-bit words -----

  predicate FitWords(words: seq<nat>) {
    forall r | 0 <= r < |words| :: words[r] < TWO_TO_32
  }

  function FixedParts(words: seq<nat>): (list: seq<Bytes>)
    requires FitWords(words)
    ensures |list| == |words| && forall r | 0 <= r < |words| :: list[r] == Fixed32(words[r])
  {
    seq(|words|, r requires 0 <= r < |words| => Fixed32(words[r]))
  }

  function FixedArray(words: seq<nat>): Bytes
    requires FitWords(words)
  {
    Joined(FixedParts(words))
  }

  lemma FixedArrayAppend(words: seq<nat>, w: nat)
    requires FitWords(words) && w < TWO_TO_32
    ensures FitWords(words + [w]) && FixedArray(words + [w]) == FixedArray(words) + Fixed32(w)
  {
    assert FixedParts(words + [w]) == FixedParts(words) + [Fixed32(w)];
    JoinedAppend(FixedParts(words), [Fixed32(w)]);
    assert Joined([Fixed32(w)]) == Fixed32(w) + Joined([Fixed32(w)][1..]);
    assert [Fixed32(w)][1..] == [];
  }

  lemma {:induction false} FixedArrayAt(words: seq<nat>, r: nat)
    requires FitWords(words) && r < |words|
    ensures |FixedArray(words)| == 4 * |words|
    ensures FixedArray(words)[4 * r..4 * r + 4] == Fixed32(words[r])
    decreases words
  {
    var n := |words| - 1;
    var front, w := words[..n], words[n];
    assert words == front + [w];
    FixedArrayAppend(front, w);
    if n == 0 {
      assert FixedArray(front) == [];
    } else {
      FixedArrayAt(front, if r < n then r else 0);
      if r < n {
        assert FixedArray(words)[4 * r..4 * r + 4] == FixedArray(front)[4 * r..4 * r + 4];
      }
    }
  }
}
