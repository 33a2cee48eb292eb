/**
 Table blocks: entries with prefix-compressed keys, the restart points at which keys
 are whole again, the builder that writes them and the iterator that searches them.
 */
module Blocks {
  import opened Wrappers
  import opened Comparator
  import opened Codings

  datatype KeyValue = KeyValue(key: Bytes, value: Bytes)

  // ----- One entry -----

  /** An entry that takes the first `shared` bytes of its key from the entry before. */
  function EntryBytes(shared: nat, e: KeyValue): Bytes
    requires shared <= |e.key|
  {
    Varint(shared) + (Varint(|e.key| - shared) + (Varint(|e.value|) + (e.key[shared..] + e.value)))
  }

  /** The three lengths that start an entry and the bytes that follow them. */
  function Lengths(input: Bytes): Option<(nat, nat, nat, Bytes)> {
    match GetVarint32(input)
    case None => None
    case Some((shared, rest1)) =>
      match GetVarint32(rest1)
      case None => None
      case Some((nonShared, rest2)) =>
        match GetVarint32(rest2)
        case None => None
        case Some((valueLength, rest3)) => Some((shared, nonShared, valueLength, rest3))
  }

  /** No entry takes more, its restart point included. */
  function MaxSize(e: KeyValue): nat {
    |e.key| + |e.value| + 19
  }

  lemma EntrySize(shared: nat, e: KeyValue)
    requires shared <= |e.key| < TWO_TO_32 && |e.value| < TWO_TO_32
    ensures |EntryBytes(shared, e)| + 4 <= MaxSize(e)
  {
    VarintPowers();
    VarintSize(shared, 5);
    VarintSize(|e.key| - shared, 5);
    VarintSize(|e.value|, 5);
  }

  /** The lengths of an entry, if all of it is there; their sum is a 32-bit word. */
  function EntryHeader(input: Bytes): Option<(nat, nat, nat, Bytes)> {
    if |input| < 3 then None
    else
      match Lengths(input)
      case None => None
      case Some((shared, nonShared, valueLength, rest)) =>
        if |rest| < (nonShared + valueLength) % TWO_TO_32 then None
        else Some((shared, nonShared, valueLength, rest))
  }

  lemma OneByteVarint(input: Bytes, i: nat)
    requires i < |input| && input[i] < 128
    ensures GetVarint32(input[i..]) == Some((input[i] as nat, input[i+1..]))
  {
    assert input[i..] == [input[i]] + input[i+1..];
    assert Varint(input[i] as nat) == [input[i]];
    Varint32RoundTrip(input[i] as nat, input[i+1..]);
  }

  lemma LengthsFrom(input: Bytes, shared: nat, rest1: Bytes, nonShared: nat, rest2: Bytes, valueLength: nat,
                    rest3: Bytes)
    requires GetVarint32(input) == Some((shared, rest1))
    requires GetVarint32(rest1) == Some((nonShared, rest2))
    requires GetVarint32(rest2) == Some((valueLength, rest3))
    ensures Lengths(input) == Some((shared, nonShared, valueLength, rest3))
  {
  }

  /** Three varints in a row. */
  method DecodeLengths(input: Bytes) returns (r: Option<(nat, nat, nat, Bytes)>)
    ensures r == Lengths(input)
  {
    var v1 := GetVarint(input, 5, TWO_TO_32);
    if v1.None? {
      return None;
    }
    var v2 := GetVarint(v1.value.1, 5, TWO_TO_32);
    if v2.None? {
      return None;
    }
    var v3 := GetVarint(v2.value.1, 5, TWO_TO_32);
    if v3.None? {
      return None;
    }
    return Some((v1.value.0, v2.value.0, v3.value.0, v3.value.1));
  }

  /** The fast path takes three one-byte lengths at once. */
  method DecodeEntry(input: Bytes) returns (r: Option<(nat, nat, nat, Bytes)>)
    ensures r == EntryHeader(input)
  {
    if |input| < 3 {
      return None;
    }
    if input[0] < 128 && input[1] < 128 && input[2] < 128 {
      r := Some((input[0] as nat, input[1] as nat, input[2] as nat, input[3..]));
      FastLengths(input);
    } else {
      r := DecodeLengths(input);
      if r.None? {
        return;
      }
    }
    if |r.value.3| < (r.value.1 + r.value.2) % TWO_TO_32 {
      return None;
    }
  }

  lemma FastLengths(input: Bytes)
    requires |input| >= 3 && input[0] < 128 && input[1] < 128 && input[2] < 128
    ensures Lengths(input) == Some((input[0] as nat, input[1] as nat, input[2] as nat, input[3..]))
  {
    assert input[0..] == input;
    OneByteVarint(input, 0);
    OneByteVarint(input, 1);
    OneByteVarint(input, 2);
    LengthsFrom(input, input[0] as nat, input[1..], input[1] as nat, input[2..], input[2] as nat, input[3..]);
  }

  lemma LengthsOf(a: uint32, b: uint32, c: uint32, tail: Bytes)
    ensures Lengths(Varint(a) + (Varint(b) + (Varint(c) + tail))) == Some((a, b, c, tail))
  {
    var in3 := Varint(c) + tail;
    var in2 := Varint(b) + in3;
    var in1 := Varint(a) + in2;
    Varint32RoundTrip(a, in2);
    Varint32RoundTrip(b, in3);
    Varint32RoundTrip(c, tail);
    LengthsFrom(in1, a, in2, b, in3, c, tail);
  }

  lemma HeaderOfEntry(shared: nat, e: KeyValue, rest: Bytes)
    requires shared <= |e.key| && shared < TWO_TO_32 && |e.key| - shared + |e.value| < TWO_TO_32
    ensures EntryHeader(EntryBytes(shared, e) + rest) ==
            Some((shared, |e.key| - shared, |e.value|, e.key[shared..] + (e.value + rest)))
  {
    var k := e.key[shared..];
    var a, b, c, tail := Varint(shared), Varint(|k|), Varint(|e.value|), k + (e.value + rest);
    EntryThen(a, b, c, k, e.value, rest);
    LengthsOf(shared, |k|, |e.value|, tail);
    assert |a + (b + (c + tail))| == |a| + |b| + |c| + |tail|;
    HeaderFrom(a + (b + (c + tail)), shared, |k|, |e.value|, tail);
  }

  lemma HeaderFrom(input: Bytes, shared: nat, nonShared: nat, valueLength: nat, rest: Bytes)
    requires |input| >= 3 && Lengths(input) == Some((shared, nonShared, valueLength, rest))
    requires nonShared + valueLength < TWO_TO_32 && nonShared + valueLength <= |rest|
    ensures EntryHeader(input) == Some((shared, nonShared, valueLength, rest))
  {
    ModUnique(nonShared + valueLength, TWO_TO_32, 0, nonShared + valueLength);
  }

  lemma EntryThen(a: Bytes, b: Bytes, c: Bytes, k: Bytes, v: Bytes, rest: Bytes)
    ensures (a + (b + (c + (k + v)))) + rest == a + (b + (c + (k + (v + rest))))
  {
    Regroup(a, b + (c + (k + v)), rest);
    Regroup(b, c + (k + v), rest);
    Regroup(c, k + v, rest);
    Regroup(k, v, rest);
  }

  // ----- A block -----

  /**
   The entries of a block, where each starts (and, last, where they end), how much of
   its key each shares with the one before, and which are restart points.
   */
  datatype Layout = Layout(entries: seq<KeyValue>, starts: seq<nat>, shared: seq<nat>, points: seq<nat>)

  const EMPTY_LAYOUT: Layout := Layout([], [0], [], [0])

  /** The first n bytes of a and b are the same. */
  predicate Agree(a: Bytes, b: Bytes, n: nat) {
    n <= |a| && n <= |b| && a[..n] == b[..n]
  }

  ghost predicate EntryAt(b: Bytes, l: Layout, i: nat)
    requires i < |l.entries| && |l.starts| == |l.entries| + 1 && |l.shared| == |l.entries|
  {
    && l.shared[i] <= |l.entries[i].key| < TWO_TO_32
    && (l.shared[i] > 0 ==> i > 0 && Agree(l.entries[i-1].key, l.entries[i].key, l.shared[i]))
    && l.starts[i] <= l.starts[i+1] <= |b|
    && b[l.starts[i]..l.starts[i+1]] == EntryBytes(l.shared[i], l.entries[i])
  }

  ghost predicate Rising(l: Layout) {
    && |l.starts| == |l.entries| + 1
    && forall i, j {:trigger StartsBefore(l, i, j)} | 0 <= i < j <= |l.entries| :: StartsBefore(l, i, j)
  }

  ghost predicate StartsBefore(l: Layout, i: nat, j: nat)
    requires i < j < |l.starts|
  {
    l.starts[i] < l.starts[j]
  }

  ghost predicate IsLayout(b: Bytes, l: Layout) {
    && Rising(l) && |l.shared| == |l.entries|
    && l.starts[0] == 0 && l.starts[|l.entries|] == |b| && (forall i | 0 <= i <= |l.entries| :: l.starts[i] <= |b|)
    && (forall i {:trigger EntryAt(b, l, i)} | 0 <= i < |l.entries| :: EntryAt(b, l, i))
    && PointsOk(l)
  }

  /** Entry 0 is a restart point, and restart points have whole keys. */
  ghost predicate PointsOk(l: Layout)
    requires |l.shared| == |l.entries|
  {
    && |l.points| > 0 && l.points[0] == 0
    && (forall r, s {:trigger PointsBefore(l, r, s)} | 0 <= r < s < |l.points| :: PointsBefore(l, r, s))
    && (forall r | 0 < r < |l.points| :: 0 < l.points[r] < |l.entries|)
    && (forall r | 0 <= r < |l.points| && l.points[r] < |l.entries| :: l.shared[l.points[r]] == 0)
  }

  ghost predicate PointsBefore(l: Layout, r: nat, s: nat)
    requires r < s < |l.points|
  {
    l.points[r] < l.points[s]
  }

  /** s is all that a and b have in common at the front. */
  predicate IsCommonPrefix(a: Bytes, b: Bytes, s: nat) {
    && Agree(a, b, s)
    && (s < |a| && s < |b| ==> a[s] != b[s])
  }

  /** Every `interval` entries there is a restart point, and the others share all they can. */
  ghost predicate Compressed(l: Layout, interval: nat)
    requires |l.shared| == |l.entries|
  {
    && (forall r {:trigger IntervalAfter(l, interval, r)} | 0 < r < |l.points| :: IntervalAfter(l, interval, r))
    && (forall i {:trigger SharesAll(l, i)} | 0 < i < |l.entries| :: i in l.points || SharesAll(l, i))
  }

  ghost predicate IntervalAfter(l: Layout, interval: nat, r: nat)
    requires 0 < r < |l.points|
  {
    l.points[r] == l.points[r-1] + interval
  }

  ghost predicate SharesAll(l: Layout, i: nat)
    requires 0 < i < |l.entries| && |l.shared| == |l.entries|
  {
    IsCommonPrefix(l.entries[i-1].key, l.entries[i].key, l.shared[i])
  }

  // ----- The builder -----

  class BlockBuilder {
    const interval: nat
    var buffer: Bytes
    var restarts: seq<nat>
    var counter: nat
    var lastKey: Bytes
    var finished: bool
    ghost var layout: Layout

    ghost predicate Valid()
      reads this
    {
      interval >= 1 && (!finished ==> Building(buffer, restarts, counter, lastKey, layout, interval))
    }

    constructor (interval: nat)
      requires interval >= 1
      ensures Valid() && !finished && layout == EMPTY_LAYOUT && this.interval == interval
      ensures CurrentSizeEstimate() == 8
    {
      this.interval := interval;
      buffer, restarts, counter, lastKey, finished := [], [0], 0, [], false;
      layout := EMPTY_LAYOUT;
      NothingAdded(interval);
    }

    function CurrentSizeEstimate(): nat
      reads this
    {
      |buffer| + 4 * |restarts| + 4
    }

    predicate Empty()
      requires Valid() && !finished
      reads this
      ensures Empty() <==> layout.entries == []
    {
      assert AspectOk(LaidOut, buffer, restarts, counter, lastKey, layout, interval);
      StartsFollow(layout, 0, |layout.entries|);
      buffer == []
    }

    method Reset()
      requires Valid()
      modifies this
      ensures Valid() && !finished && layout == EMPTY_LAYOUT && CurrentSizeEstimate() == 8
    {
      buffer, restarts, counter, lastKey, finished := [], [0], 0, [], false;
      layout := EMPTY_LAYOUT;
      NothingAdded(interval);
    }

    method Add(key: Bytes, value: Bytes)
      requires Valid() && !finished && |key| < TWO_TO_32 && |value| < TWO_TO_32
      modifies this
      ensures Valid() && !finished
      ensures layout.entries == old(layout.entries) + [KeyValue(key, value)]
      ensures CurrentSizeEstimate() <= old(CurrentSizeEstimate()) + MaxSize(KeyValue(key, value))
    {
      var shared := 0;
      var points := restarts;
      var used := counter;
      assert AspectOk(Recorded, buffer, restarts, counter, lastKey, layout, interval);
      if counter < interval {
        shared := CommonLength(lastKey, key);
      } else {
        points := restarts + [|buffer|];
        used := 0;
      }
      ghost var l := Added(buffer, restarts, counter, lastKey, layout, interval, KeyValue(key, value), shared);
      var nonShared := |key| - shared;
      var b := buffer + (Varint(shared) + (Varint(nonShared) + (Varint(|value|) + (key[shared..] + value))));
      assert b == buffer + EntryBytes(shared, KeyValue(key, value));
      var last := lastKey[..shared] + key[shared..];
      assert last == key by {
        assert key == key[..shared] + key[shared..];
      }
      assert Building(b, points, used + 1, last, l, interval);
      EntrySize(shared, KeyValue(key, value));
      buffer, restarts, counter, lastKey, layout := b, points, used + 1, last, l;
    }

    /** Appends the restart array and its length. */
    method Finish() returns (contents: Bytes)
      requires Valid() && !finished && CurrentSizeEstimate() < TWO_TO_32
      modifies this
      ensures Valid() && finished && layout == old(layout)
      ensures IsBlock(contents, layout) && Compressed(layout, interval)
      ensures |contents| == old(CurrentSizeEstimate())
    {
      assert AspectOk(LaidOut, buffer, restarts, counter, lastKey, layout, interval);
      assert AspectOk(Recorded, buffer, restarts, counter, lastKey, layout, interval);
      AppendRestarts();
      buffer := buffer + Fixed32(|restarts|);
      finished := true;
      contents := buffer;
      FinishedBlock(old(buffer), restarts, layout, contents);
    }

    method AppendRestarts()
      requires FitWords(restarts)
      modifies this`buffer
      ensures buffer == old(buffer) + FixedArray(restarts)
    {
      var i := 0;
      assert FixedArray(restarts[..0]) == [];
      while i < |restarts|
        invariant i <= |restarts| && FitWords(restarts[..i])
        invariant buffer == old(buffer) + FixedArray(restarts[..i])
      {
        assert restarts[..i+1] == restarts[..i] + [restarts[i]];
        FixedArrayAppend(restarts[..i], restarts[i]);
        Regroup(old(buffer), FixedArray(restarts[..i]), Fixed32(restarts[i]));
        buffer := buffer + Fixed32(restarts[i]);
        i := i + 1;
      }
      assert restarts[..i] == restarts;
    }
  }

  /** The fields of a builder in use, against the layout of its buffer. */
  ghost predicate Building(b: Bytes, restarts: seq<nat>, counter: nat, lastKey: Bytes, l: Layout, interval: nat) {
    forall a {:trigger AspectOk(a, b, restarts, counter, lastKey, l, interval)} ::
      AspectOk(a, b, restarts, counter, lastKey, l, interval)
  }

  /** What the buffer holds, and what the other fields record of it. */
  datatype Aspect = LaidOut | Recorded

  ghost predicate AspectOk(a: Aspect, b: Bytes, restarts: seq<nat>, counter: nat, lastKey: Bytes, l: Layout,
                           interval: nat) {
    match a
    case LaidOut => IsLayout(b, l) && Compressed(l, interval)
    case Recorded =>
      && |l.starts| == |l.entries| + 1 && |l.points| > 0
      && IsRestartArray(restarts, l)
      && counter <= interval && counter == |l.entries| - l.points[|l.points|-1]
      && lastKey == LastKey(l)
  }

  lemma {:induction false} NothingAdded(interval: nat)
    requires interval >= 1
    ensures Building([], [0], 0, [], EMPTY_LAYOUT, interval)
  {
  }

  ghost predicate IsRestartArray(restarts: seq<nat>, l: Layout)
    requires |l.starts| == |l.entries| + 1
  {
    && |restarts| == |l.points|
    && forall r | 0 <= r < |restarts| :: 0 <= l.points[r] <= |l.entries| && restarts[r] == l.starts[l.points[r]]
  }

  /** What Add makes of the fields: one more entry, sharing with the last key unless it is a restart point. */
  lemma Added(b: Bytes, restarts: seq<nat>, counter: nat, lastKey: Bytes, l: Layout, interval: nat, e: KeyValue,
              shared: nat)
    returns (l': Layout)
    requires Building(b, restarts, counter, lastKey, l, interval) && interval >= 1 && |e.key| < TWO_TO_32
    requires if counter < interval then IsCommonPrefix(lastKey, e.key, shared) else shared == 0
    ensures shared <= |e.key| && l'.entries == l.entries + [e]
    ensures Building(b + EntryBytes(shared, e), if counter < interval then restarts else restarts + [|b|],
                     if counter < interval then counter + 1 else 1, e.key, l', interval)
  {
    assert AspectOk(LaidOut, b, restarts, counter, lastKey, l, interval);
    assert AspectOk(Recorded, b, restarts, counter, lastKey, l, interval);
    var points := if counter < interval then l.points else l.points + [|l.entries|];
    AddToLayout(b, l, e, shared, points, interval);
    l' := Extended(l, e, shared, points, |b|);
    RestartsExtended(restarts, l, e, shared, points, |b|);
    assert LastKey(l') == e.key;
  }

  lemma RestartsExtended(restarts: seq<nat>, l: Layout, e: KeyValue, shared: nat, points: seq<nat>, size: nat)
    requires |l.starts| == |l.entries| + 1 && IsRestartArray(restarts, l) && shared <= |e.key|
    requires l.starts[|l.entries|] == size
    requires points == l.points || points == l.points + [|l.entries|]
    ensures IsRestartArray(if points == l.points then restarts else restarts + [size],
            Extended(l, e, shared, points, size))
  {
    var l' := Extended(l, e, shared, points, size);
    assert forall r | 0 <= r < |l.points| ::
           points[r] == l.points[r] && l'.starts[l.points[r]] == l.starts[l.points[r]];
  }

  function LastKey(l: Layout): Bytes {
    if l.entries == [] then [] else l.entries[|l.entries|-1].key
  }

  method CommonLength(a: Bytes, b: Bytes) returns (shared: nat)
    ensures IsCommonPrefix(a, b, shared)
  {
    var minLength := if |a| < |b| then |a| else |b|;
    shared := 0;
    while shared < minLength && a[shared] == b[shared]
      invariant shared <= minLength && a[..shared] == b[..shared]
    {
      assert a[..shared+1] == a[..shared] + [a[shared]] && b[..shared+1] == b[..shared] + [b[shared]];
      shared := shared + 1;
    }
  }

  function Extended(l: Layout, e: KeyValue, shared: nat, points: seq<nat>, size: nat): Layout
    requires shared <= |e.key|
  {
    Layout(l.entries + [e], l.starts + [size + |EntryBytes(shared, e)|], l.shared + [shared], points)
  }

  /** One more entry behind a block's entries, at a restart point or sharing with the last key. */
  lemma AddToLayout(b: Bytes, l: Layout, e: KeyValue, shared: nat, points: seq<nat>, interval: nat)
    requires IsLayout(b, l) && Compressed(l, interval) && interval >= 1
    requires |l.entries| - l.points[|l.points|-1] <= interval
    requires if |l.entries| - l.points[|l.points|-1] < interval
             then points == l.points && IsCommonPrefix(LastKey(l), e.key, shared)
             else points == l.points + [|l.entries|] && shared == 0
    requires |e.key| < TWO_TO_32
    ensures shared <= |e.key|
    ensures IsLayout(b + EntryBytes(shared, e), Extended(l, e, shared, points, |b|))
    ensures Compressed(Extended(l, e, shared, points, |b|), interval)
  {
    var n := |l.entries|;
    var b' := b + EntryBytes(shared, e);
    var l' := Extended(l, e, shared, points, |b|);
    forall i | 0 <= i <= n
      ensures EntryAt(b', l', i)
    {
      if i < n {
        EntryStays(b, l, e, shared, points, i);
      } else {
        assert b'[|b|..|b'|] == EntryBytes(shared, e);
        assert LastKey(l) != [] ==> n > 0;
      }
    }
    assert |EntryBytes(shared, e)| > 0;
    forall i, j | 0 <= i < j <= n + 1
      ensures StartsBefore(l', i, j)
    {
      StartsFollow(l, i, if j <= n then j else n);
    }
    PointsExtended(b, l, e, shared, points, interval);
    StaysCompressed(b, l, e, shared, points, interval);
  }

  lemma EntryStays(b: Bytes, l: Layout, e: KeyValue, shared: nat, points: seq<nat>, i: nat)
    requires IsLayout(b, l) && shared <= |e.key| && i < |l.entries|
    ensures EntryAt(b + EntryBytes(shared, e), Extended(l, e, shared, points, |b|), i)
  {
    assert EntryAt(b, l, i);
    assert (b + EntryBytes(shared, e))[l.starts[i]..l.starts[i+1]] == b[l.starts[i]..l.starts[i+1]];
  }

  lemma PointsExtended(b: Bytes, l: Layout, e: KeyValue, shared: nat, points: seq<nat>, interval: nat)
    requires IsLayout(b, l) && shared <= |e.key| && interval >= 1
    requires points == l.points
             || (points == l.points + [|l.entries|] && shared == 0 && |l.entries| - l.points[|l.points|-1] >= interval)
    requires l.entries == [] ==> shared == 0
    ensures PointsOk(Extended(l, e, shared, points, |b|))
  {
    var l' := Extended(l, e, shared, points, |b|);
    assert forall r | 0 <= r < |l.points| :: points[r] == l.points[r];
    forall r, s | 0 <= r < s < |points|
      ensures PointsBefore(l', r, s)
    {
      if s < |l.points| {
        assert PointsBefore(l, r, s);
      } else if r < s - 1 {
        assert PointsBefore(l, r, s - 1);
      }
    }
  }

  lemma StaysCompressed(b: Bytes, l: Layout, e: KeyValue, shared: nat, points: seq<nat>, interval: nat)
    requires IsLayout(b, l) && Compressed(l, interval) && shared <= |e.key|
    requires (points == l.points && IsCommonPrefix(LastKey(l), e.key, shared)) ||
             (points == l.points + [|l.entries|] && |l.entries| - l.points[|l.points|-1] == interval)
    ensures Compressed(Extended(l, e, shared, points, |b|), interval)
  {
    var l' := Extended(l, e, shared, points, |b|);
    forall r | 0 < r < |points|
      ensures IntervalAfter(l', interval, r)
    {
      assert r < |l.points| ==> IntervalAfter(l, interval, r);
    }
    assert forall r | 0 <= r < |l.points| :: points[r] == l.points[r];
    forall i | 0 < i < |l'.entries|
      ensures i in points || SharesAll(l', i)
    {
      if i < |l.entries| {
        assert i in l.points || SharesAll(l, i);
      } else if |points| > |l.points| {
        assert points[|l.points|] == i;
      }
    }
  }

  // ----- A finished block -----

  lemma StartsBounded(b: Bytes, l: Layout)
    requires IsLayout(b, l)
    ensures forall i | 0 <= i <= |l.entries| :: l.starts[i] <= |b|
  {
  }

  /** A finished block: its entries, the restart array, and the number of restart points. */
  ghost predicate IsBlock(contents: Bytes, l: Layout) {
    && |contents| < TWO_TO_32
    && |contents| >= 4 * (|l.points| + 1)
    && var size := |contents| - 4 * (|l.points| + 1);
    && IsLayout(contents[..size], l)
    && (forall r | 0 <= r < |l.points| ::
         DecodeFixed32(contents[size + 4 * r..size + 4 * r + 4]) == l.starts[l.points[r]])
    && DecodeFixed32(contents[|contents| - 4..]) == |l.points|
  }

  lemma {:induction false} FinishedBlock(data: Bytes, restarts: seq<nat>, l: Layout, contents: Bytes)
    requires IsLayout(data, l) && FitWords(restarts) && |data| + 4 * (|restarts| + 1) < TWO_TO_32
    requires IsRestartArray(restarts, l)
    requires contents == data + FixedArray(restarts) + Fixed32(|restarts|)
    ensures IsBlock(contents, l)
  {
    ContentsParts(data, restarts, contents);
    forall r | 0 <= r < |restarts|
      ensures DecodeFixed32(contents[|data| + 4 * r..|data| + 4 * r + 4]) == restarts[r]
    {
      RestartWord(data, restarts, contents, r);
    }
    BlockOfParts(data, restarts, l, contents);
  }

  lemma {:induction false} ContentsParts(data: Bytes, restarts: seq<nat>, contents: Bytes)
    requires FitWords(restarts) && |restarts| < TWO_TO_32
    requires contents == data + FixedArray(restarts) + Fixed32(|restarts|)
    ensures |contents| == |data| + 4 * (|restarts| + 1) && contents[..|data|] == data
    ensures DecodeFixed32(contents[|contents| - 4..]) == |restarts|
  {
    if restarts != [] {
      FixedArrayAt(restarts, 0);
    } else {
      assert FixedArray(restarts) == [];
    }
    assert contents[|contents| - 4..] == Fixed32(|restarts|);
  }

  lemma {:induction false} BlockOfParts(data: Bytes, restarts: seq<nat>, l: Layout, contents: Bytes)
    requires IsLayout(data, l) && IsRestartArray(restarts, l)
    requires |contents| == |data| + 4 * (|restarts| + 1) < TWO_TO_32 && contents[..|data|] == data
    requires forall r | 0 <= r < |restarts| ::
             DecodeFixed32(contents[|data| + 4 * r..|data| + 4 * r + 4]) == restarts[r]
    requires DecodeFixed32(contents[|contents| - 4..]) == |restarts|
    ensures IsBlock(contents, l)
  {
  }

  lemma {:induction false} RestartWord(data: Bytes, restarts: seq<nat>, contents: Bytes, r: nat)
    requires FitWords(restarts) && r < |restarts| < TWO_TO_32
    requires contents == data + FixedArray(restarts) + Fixed32(|restarts|)
    ensures |data| + 4 * r + 4 <= |contents|
    ensures DecodeFixed32(contents[|data| + 4 * r..|data| + 4 * r + 4]) == restarts[r]
  {
    FixedArrayAt(restarts, r);
    assert contents[|data| + 4 * r..|data| + 4 * r + 4] == FixedArray(restarts)[4 * r..4 * r + 4];
  }

  // ----- Opening a block -----

  datatype Opened = Corrupt | NoEntries | Block(restartOffset: nat, numRestarts: nat)

  /** What the constructor and NewIterator make of a block's bytes. */
  function Open(contents: Bytes): Opened {
    if |contents| < 4 then Corrupt
    else
      var numRestarts := DecodeFixed32(contents[|contents| - 4..]);
      if numRestarts > (|contents| - 4) / 4 then Corrupt
      else if numRestarts == 0 then NoEntries
      else Block(|contents| - (1 + numRestarts) * 4, numRestarts)
  }

  lemma FinishedOpens(contents: Bytes, l: Layout)
    requires IsBlock(contents, l)
    ensures Open(contents) == Block(|contents| - 4 * (|l.points| + 1), |l.points|)
  {
  }

  // ----- The iterator -----

  ghost predicate Transitive(less: (Bytes, Bytes) -> bool) {
    forall a, b, c :: less(a, b) && less(b, c) ==> less(a, c)
  }

  predicate Increasing(less: (Bytes, Bytes) -> bool, entries: seq<KeyValue>) {
    forall i, j | 0 <= i < j < |entries| :: less(entries[i].key, entries[j].key)
  }

  /** i is the position of the first entry whose key is not before target. */
  predicate IsSeek(less: (Bytes, Bytes) -> bool, entries: seq<KeyValue>, target: Bytes, i: int) {
    && 0 <= i <= |entries|
    && (forall j | 0 <= j < i :: less(entries[j].key, target))
    && (forall j | i <= j < |entries| :: !less(entries[j].key, target))
  }

  lemma SeekBegins(less: (Bytes, Bytes) -> bool, entries: seq<KeyValue>, target: Bytes, i: nat)
    requires Transitive(less) && Increasing(less, entries)
    requires i == 0 || (i < |entries| && less(entries[i].key, target))
    ensures forall j | 0 <= j < i && i <= |entries| :: less(entries[j].key, target)
  {
  }

  lemma SeekEnds(less: (Bytes, Bytes) -> bool, entries: seq<KeyValue>, target: Bytes, begin: nat, i: nat)
    requires Transitive(less) && Increasing(less, entries) && begin <= i <= |entries|
    requires forall j | 0 <= j < begin :: less(entries[j].key, target)
    requires forall j | begin <= j < i :: less(entries[j].key, target)
    requires i < |entries| ==> !less(entries[i].key, target)
    ensures IsSeek(less, entries, target, i)
  {
    forall j | i <= j < |entries|
      ensures !less(entries[j].key, target)
    {
      assert j > i ==> less(entries[i].key, entries[j].key);
    }
  }

  class Iter {
    const less: (Bytes, Bytes) -> bool
    const data: Bytes
    const restarts: nat
    const numRestarts: nat
    ghost const layout: Layout
    var current: nat
    var restartIndex: nat
    var key: Bytes
    var valueStart: nat
    var valueSize: nat
    ghost var at: nat

    ghost predicate Fits() {
      && IsBlock(data, layout)
      && restarts == |data| - 4 * (|layout.points| + 1)
      && numRestarts == |layout.points|
    }

    /** The cursor is on entry `at`, or past the last one. */
    ghost predicate Valid()
      reads this
    {
      && Fits() && at <= |layout.entries|
      && (at < |layout.entries| ==> AtEntry(at))
      && (at == |layout.entries| ==> current == restarts && restartIndex == numRestarts)
    }

    ghost predicate AtEntry(i: nat)
      requires Fits() && i < |layout.entries|
      reads this
    {
      Loaded(i) && InRestart(i)
    }

    ghost predicate Loaded(i: nat)
      requires Fits() && i < |layout.entries|
      reads this`current, this`key, this`valueStart, this`valueSize
    {
      && current == layout.starts[i] && key == layout.entries[i].key
      && valueStart + valueSize == layout.starts[i+1] && valueSize == |layout.entries[i].value|
      && valueStart + valueSize <= |data|
      && data[valueStart..valueStart + valueSize] == layout.entries[i].value
    }

    /** Entry i lies after the restart point, and no further than the next. */
    ghost predicate InRestart(i: nat)
      requires Fits()
      reads this`restartIndex
    {
      && restartIndex < numRestarts && layout.points[restartIndex] <= i
      && (restartIndex + 1 < numRestarts ==> i <= layout.points[restartIndex + 1])
    }

    /** The next entry to parse is number i. */
    ghost predicate Ready(i: nat)
      reads this
    {
      && Fits() && i <= |layout.entries|
      && valueStart + valueSize == layout.starts[i]
      && restartIndex < numRestarts && layout.points[restartIndex] <= i
      && (i < |layout.entries| ==> Agree(key, layout.entries[i].key, layout.shared[i]))
    }

    constructor (less: (Bytes, Bytes) -> bool, data: Bytes, restarts: nat, numRestarts: nat, ghost l: Layout)
      requires IsBlock(data, l) && Open(data) == Block(restarts, numRestarts)
      ensures Valid() && layout == l && at == |l.entries| && this.less == less && this.data == data
    {
      this.less, this.data, this.restarts, this.numRestarts := less, data, restarts, numRestarts;
      layout := l;
      current, restartIndex, key, valueStart, valueSize := restarts, numRestarts, [], 0, 0;
      at := |l.entries|;
      FinishedOpens(data, l);
    }

    predicate IsValid()
      requires Valid()
      reads this
      ensures IsValid() <==> at < |layout.entries|
    {
      StartsFollow(layout, at, |layout.entries|);
      current < restarts
    }

    function Entry(): (e: KeyValue)
      requires Valid() && IsValid()
      reads this
      ensures e == layout.entries[at]
    {
      KeyValue(key, data[valueStart..valueStart + valueSize])
    }

    function NextEntryOffset(): nat
      reads this
    {
      valueStart + valueSize
    }

    function GetRestartPoint(index: nat): (offset: nat)
      requires Fits() && index < numRestarts
      ensures offset == layout.starts[layout.points[index]]
    {
      DecodeFixed32(data[restarts + 4 * index..restarts + 4 * index + 4])
    }

    method SeekToRestartPoint(index: nat)
      requires Fits() && index < numRestarts
      modifies this`key, this`restartIndex, this`valueStart, this`valueSize
      ensures restartIndex == index && Ready(layout.points[index])
    {
      key := [];
      restartIndex := index;
      valueStart, valueSize := GetRestartPoint(index), 0;
    }

    method ParseNextKey(ghost i: nat) returns (ok: bool)
      requires Ready(i)
      modifies this
      ensures Valid() && at == i && ok == (i < |layout.entries|)
    {
      current := NextEntryOffset();
      at := i;
      OffsetOrder(i);
      if current >= restarts {
        current := restarts;
        restartIndex := numRestarts;
        return false;
      }
      LoadEntry(i);
      AdvanceRestart(i);
      return true;
    }

    lemma OffsetOrder(i: nat)
      requires Fits() && i <= |layout.entries|
      ensures layout.starts[i] <= restarts && (layout.starts[i] < restarts <==> i < |layout.entries|)
    {
      StartsFollow(layout, i, |layout.entries|);
    }

    method LoadEntry(ghost i: nat)
      requires Ready(i) && i < |layout.entries| && current == layout.starts[i]
      modifies this`key, this`valueStart, this`valueSize
      ensures Loaded(i)
    {
      var shared, nonShared, valueLength, p := ReadEntry(current, i);
      if |key| < shared {
        assert false;
      }
      ghost var e := layout.entries[i];
      Pieces(e.key[shared..], e.value, data[layout.starts[i+1]..restarts]);
      assert e.key == e.key[..shared] + e.key[shared..];
      ValueAt(data, layout, i, restarts);
      key := key[..shared] + p[..nonShared];
      valueStart, valueSize := restarts - |p| + nonShared, valueLength;
    }

    /** The lengths of entry i and the bytes after them; it is well formed, and the error branch is never taken. */
    method ReadEntry(offset: nat, ghost i: nat) returns (shared: nat, nonShared: nat, valueLength: nat, p: Bytes)
      requires Fits() && i < |layout.entries| && offset == layout.starts[i]
      ensures layout.starts[i] < layout.starts[i+1] <= restarts
      ensures shared == layout.shared[i] <= |layout.entries[i].key| && nonShared == |layout.entries[i].key| - shared
      ensures valueLength == |layout.entries[i].value|
      ensures p == layout.entries[i].key[shared..] + (layout.entries[i].value + data[layout.starts[i+1]..restarts])
    {
      ParsesAt(data, layout, i, restarts);
      var e := DecodeEntry(data[offset..restarts]);
      if e.None? {
        assert false;
      }
      return e.value.0, e.value.1, e.value.2, e.value.3;
    }

    /** The restart index follows the entry just parsed. */
    method AdvanceRestart(ghost i: nat)
      requires Fits() && i < |layout.entries| && current == layout.starts[i]
      requires restartIndex < numRestarts && layout.points[restartIndex] <= i
      modifies this`restartIndex
      ensures InRestart(i)
    {
      while restartIndex + 1 < numRestarts && GetRestartPoint(restartIndex + 1) < current
        invariant restartIndex < numRestarts && layout.points[restartIndex] <= i
      {
        StartsFollow(layout, layout.points[restartIndex + 1], i);
        restartIndex := restartIndex + 1;
      }
      if restartIndex + 1 < numRestarts {
        StartsFollow(layout, layout.points[restartIndex + 1], i);
      }
    }

    /** After an entry comes the next. */
    lemma NextReady()
      requires Valid() && at < |layout.entries|
      ensures Ready(at + 1)
    {
      if at + 1 < |layout.entries| {
        assert EntryAt(data[..restarts], layout, at + 1);
      }
    }

    method Next()
      requires Valid() && IsValid()
      modifies this
      ensures Valid() && at == old(at) + 1
    {
      var ok := ParseFollowing();
    }

    method ParseFollowing() returns (ok: bool)
      requires Valid() && at < |layout.entries|
      modifies this
      ensures Valid() && at == old(at) + 1 && ok == (at < |layout.entries|)
    {
      NextReady();
      ok := ParseNextKey(at + 1);
    }

    method Prev()
      requires Valid() && IsValid()
      modifies this
      ensures Valid() && at == if old(at) == 0 then |layout.entries| else old(at) - 1
    {
      var original := current;
      ghost var i := at;
      while GetRestartPoint(restartIndex) >= original
        invariant restartIndex < numRestarts && unchanged(`current) && unchanged(`at)
        decreases restartIndex
      {
        if restartIndex == 0 {
          StartsFollow(layout, 0, i);
          current := restarts;
          restartIndex := numRestarts;
          at := |layout.entries|;
          return;
        }
        restartIndex := restartIndex - 1;
      }
      StartsFollow(layout, layout.points[restartIndex], i);
      SeekToRestartPoint(restartIndex);
      ParseUntil(original, layout.points[restartIndex], i);
    }

    /** Parses entries until one ends at or after the limit, which is where entry `end` starts. */
    method ParseUntil(limit: nat, ghost begin: nat, ghost end: nat)
      requires Ready(begin) && end <= |layout.entries| && limit == layout.starts[end]
      requires begin < end || begin == end == |layout.entries|
      modifies this
      ensures Valid() && at == if begin < end then end - 1 else end
    {
      var ok := ParseNextKey(begin);
      EndsBefore(limit, end);
      while ok && NextEntryOffset() < limit
        invariant Valid() && begin <= at && ok == (at < |layout.entries|)
        invariant ok ==> (NextEntryOffset() < limit <==> at + 1 < end)
        invariant at < end || at == begin == end
        decreases end - at
      {
        ok := ParseFollowing();
        EndsBefore(limit, end);
      }
    }

    /** The current entry ends before a later one starts, unless that is the next. */
    lemma {:induction false} EndsBefore(limit: nat, end: nat)
      requires Valid() && end <= |layout.entries| && limit == layout.starts[end]
      ensures at < |layout.entries| ==> (NextEntryOffset() < limit <==> at + 1 < end)
    {
      if at < |layout.entries| {
        StartsFollow(layout, at + 1, end);
      }
    }

    /**
     The key at a restart point, read without the keys before it.  In a finished block it
     is whole, and the error branch is never taken.
     */
    method KeyAtRestart(index: nat) returns (k: Bytes)
      requires Fits() && index < numRestarts && layout.entries != []
      ensures k == layout.entries[layout.points[index]].key
    {
      var shared, nonShared, _, p := ReadEntry(GetRestartPoint(index), layout.points[index]);
      if shared != 0 {
        assert false;
      }
      ghost var e := layout.entries[layout.points[index]];
      Pieces(e.key[shared..], e.value, data[layout.starts[layout.points[index] + 1]..restarts]);
      return p[..nonShared];
    }

    /** The last restart point whose key is before the target, the first if there is none. */
    method FindRestart(target: Bytes) returns (left: nat)
      requires Valid()
      ensures left < numRestarts
      ensures left == 0
              || (layout.points[left] < |layout.entries| && less(layout.entries[layout.points[left]].key, target))
      ensures left + 1 < numRestarts ==> !less(layout.entries[layout.points[left + 1]].key, target)
    {
      left := 0;
      var right := numRestarts - 1;
      while left < right
        invariant left <= right < numRestarts
        invariant left == 0 || less(layout.entries[layout.points[left]].key, target)
        invariant right + 1 < numRestarts ==> !less(layout.entries[layout.points[right + 1]].key, target)
      {
        var mid := (left + right + 1) / 2;
        var midKey := KeyAtRestart(mid);
        if less(midKey, target) {
          left := mid;
        } else {
          right := mid - 1;
        }
      }
    }

    method Seek(target: Bytes)
      requires Valid() && Transitive(less) && Increasing(less, layout.entries)
      modifies this
      ensures Valid() && IsSeek(less, layout.entries, target, at)
    {
      var left := FindRestart(target);
      SeekToRestartPoint(left);
      ghost var i := layout.points[left];
      SeekBegins(less, layout.entries, target, i);
      Scan(target, i);
      SeekEnds(less, layout.entries, target, i, at);
    }

    /** Parses entries from number `begin` until one is not before the target. */
    method Scan(target: Bytes, ghost begin: nat)
      requires Ready(begin)
      modifies this
      ensures Valid() && begin <= at
      ensures at < |layout.entries| ==> !less(layout.entries[at].key, target)
      ensures forall j | begin <= j < at :: less(layout.entries[j].key, target)
    {
      var ok := ParseNextKey(begin);
      ghost var i := begin;
      while ok && less(key, target)
        invariant begin <= i && Valid() && at == i && ok == (i < |layout.entries|)
        invariant forall j | begin <= j < i :: less(layout.entries[j].key, target)
        decreases |layout.entries| - i
      {
        i := i + 1;
        ok := ParseFollowing();
      }
    }

    method SeekToFirst()
      requires Valid()
      modifies this
      ensures Valid() && at == 0
    {
      SeekToRestartPoint(0);
      var ok := ParseNextKey(0);
    }

    method SeekToLast()
      requires Valid()
      modifies this
      ensures Valid() && at == if layout.entries == [] then 0 else |layout.entries| - 1
    {
      SeekToRestartPoint(numRestarts - 1);
      ParseUntil(restarts, layout.points[numRestarts - 1], |layout.entries|);
    }
  }

  lemma StartsFollow(l: Layout, i: nat, j: nat)
    requires Rising(l) && i <= |l.entries| && j <= |l.entries|
    ensures l.starts[i] < l.starts[j] <==> i < j
  {
    assert i < j ==> StartsBefore(l, i, j);
    assert j < i ==> StartsBefore(l, j, i);
  }

  lemma Pieces(a: Bytes, b: Bytes, c: Bytes)
    ensures (a + (b + c))[..|a|] == a && (a + (b + c))[|a|..|a| + |b|] == b
  {
  }

  /** The value of entry i is the last part of it. */
  lemma ValueAt(data: Bytes, l: Layout, i: nat, size: nat)
    requires IsBlock(data, l) && size == |data| - 4 * (|l.points| + 1) && i < |l.entries|
    ensures l.starts[i+1] <= |data| && |l.entries[i].value| <= l.starts[i+1]
    ensures data[l.starts[i+1] - |l.entries[i].value|..l.starts[i+1]] == l.entries[i].value
  {
    assert EntryAt(data[..size], l, i);
    var e := l.entries[i];
    var b := EntryBytes(l.shared[i], e);
    assert b[|b| - |e.value|..] == e.value;
    assert data[l.starts[i]..l.starts[i+1]] == data[..size][l.starts[i]..l.starts[i+1]] == b;
    assert data[l.starts[i+1] - |e.value|..l.starts[i+1]] == b[|b| - |e.value|..];
  }

  /** Decoding at the start of entry i finds its lengths, the rest of its key and its value. */
  lemma ParsesAt(data: Bytes, l: Layout, i: nat, size: nat)
    requires IsBlock(data, l) && size == |data| - 4 * (|l.points| + 1) && i < |l.entries|
    ensures l.starts[i] < l.starts[i+1] <= size
    ensures var e := l.entries[i];
            l.shared[i] <= |e.key| &&
            EntryHeader(data[l.starts[i]..size]) ==
                Some((l.shared[i], |e.key| - l.shared[i], |e.value|,
                    e.key[l.shared[i]..] + (e.value + data[l.starts[i+1]..size])))
  {
    EntrySplits(data, l, i, size);
    HeaderOfEntry(l.shared[i], l.entries[i], data[l.starts[i+1]..size]);
  }

  lemma EntrySplits(data: Bytes, l: Layout, i: nat, size: nat)
    requires IsBlock(data, l) && size == |data| - 4 * (|l.points| + 1) && i < |l.entries|
    ensures l.starts[i] < l.starts[i+1] <= size && l.shared[i] <= |l.entries[i].key| < TWO_TO_32
    ensures |l.entries[i].key| - l.shared[i] + |l.entries[i].value| < TWO_TO_32
    ensures data[l.starts[i]..size] == EntryBytes(l.shared[i], l.entries[i]) + data[l.starts[i+1]..size]
  {
    assert EntryAt(data[..size], l, i);
    var b := EntryBytes(l.shared[i], l.entries[i]);
    StartsBounded(data[..size], l);
    assert data[..size][l.starts[i]..l.starts[i+1]] == data[l.starts[i]..l.starts[i+1]];
    assert data[l.starts[i]..size] == data[l.starts[i]..l.starts[i+1]] + data[l.starts[i+1]..size];
    assert |l.entries[i].key| - l.shared[i] + |l.entries[i].value| <= |b|;
  }

  // ----- Written and read back -----

  function TotalSize(entries: seq<KeyValue>): nat {
    if entries == [] then 0 else TotalSize(entries[..|entries|-1]) + MaxSize(entries[|entries|-1])
  }

  lemma {:induction false} TotalSizeCovers(entries: seq<KeyValue>, n: nat)
    requires n <= |entries|
    ensures TotalSize(entries[..n]) <= TotalSize(entries)
    ensures n < |entries| ==> TotalSize(entries[..n]) + MaxSize(entries[n]) <= TotalSize(entries)
    decreases entries
  {
    if n == |entries| {
      assert entries[..n] == entries;
    } else {
      var front := entries[..|entries|-1];
      assert front[..n] == entries[..n];
      TotalSizeCovers(front, n);
    }
  }

  /** Adds the entries in order and finishes the block. */
  method WriteBlock(entries: seq<KeyValue>, interval: nat) returns (contents: Bytes, ghost l: Layout)
    requires interval >= 1 && TotalSize(entries) + 8 < TWO_TO_32
    ensures IsBlock(contents, l) && l.entries == entries && Compressed(l, interval)
  {
    var builder := new BlockBuilder(interval);
    var i := 0;
    while i < |entries|
      invariant i <= |entries| && fresh(builder) && builder.interval == interval
      invariant builder.Valid() && !builder.finished && builder.layout.entries == entries[..i]
      invariant builder.CurrentSizeEstimate() <= 8 + TotalSize(entries[..i])
    {
      TotalSizeCovers(entries, i);
      assert entries[..i+1] == entries[..i] + [entries[i]];
      assert entries[..i+1][..i] == entries[..i];
      builder.Add(entries[i].key, entries[i].value);
      i := i + 1;
    }
    assert entries[..i] == entries;
    l := builder.layout;
    contents := builder.Finish();
  }

  /** Whatever the restart interval, iterating a finished block gives the entries that were added. */
  method ReadBack(less: (Bytes, Bytes) -> bool, entries: seq<KeyValue>, interval: nat) returns (found: seq<KeyValue>)
    requires interval >= 1 && TotalSize(entries) + 8 < TWO_TO_32
    ensures found == entries
  {
    var contents, l := WriteBlock(entries, interval);
    FinishedOpens(contents, l);
    var block := Open(contents);
    var it := new Iter(less, contents, block.restartOffset, block.numRestarts, l);
    found := Collect(it);
  }

  /** The entries that an iterator shows from the first on. */
  method Collect(it: Iter) returns (found: seq<KeyValue>)
    requires it.Valid()
    modifies it
    ensures found == it.layout.entries
  {
    ghost var l := it.layout;
    found := [];
    it.SeekToFirst();
    while it.IsValid()
      invariant it.Valid() && it.layout == l && found == l.entries[..it.at]
      decreases |l.entries| - it.at
    {
      assert l.entries[..it.at+1] == l.entries[..it.at] + [l.entries[it.at]];
      found := found + [it.Entry()];
      it.Next();
    }
  }
}
