/**
 The default user comparator: byte strings in lexicographic order, and the two
 operations that shorten index keys.  The last part embeds that order into the
 rationals, which is why the rest of the store may take a user key to be a number.
 */
module Comparator {

  newtype byte = i: int | 0 <= i < 256

  type Bytes = seq<byte>

  /** True if a sorts strictly before b: memcmp order, a proper prefix first. */
  predicate BytewiseLess(a: Bytes, b: Bytes) {
    if b == [] then false
    else if a == [] then true
    else a[0] < b[0] || (a[0] == b[0] && BytewiseLess(a[1..], b[1..]))
  }

  lemma {:induction false} LessIrreflexive(a: Bytes)
    ensures !BytewiseLess(a, a)
  {
    if a != [] {
      LessIrreflexive(a[1..]);
    }
  }

  lemma {:induction false} LessTransitive(a: Bytes, b: Bytes, c: Bytes)
    requires BytewiseLess(a, b) && BytewiseLess(b, c)
    ensures BytewiseLess(a, c)
  {
    if a != [] && a[0] == b[0] == c[0] {
      LessTransitive(a[1..], b[1..], c[1..]);
    }
  }

  lemma {:induction false} LessTotal(a: Bytes, b: Bytes)
    ensures BytewiseLess(a, b) || a == b || BytewiseLess(b, a)
  {
    if a != [] && b != [] && a[0] == b[0] {
      LessTotal(a[1..], b[1..]);
      assert a == [a[0]] + a[1..] && b == [b[0]] + b[1..];
    }
  }

  /** Strings that first differ at position i compare as their bytes at i. */
  lemma {:induction false} LessAt(a: Bytes, b: Bytes, i: nat)
    requires i <= |a| && i < |b| && a[..i] == b[..i]
    requires i == |a| || a[i] < b[i]
    ensures BytewiseLess(a, b)
  {
    if i > 0 {
      assert a[0] == a[..i][0] == b[..i][0] == b[0];
      assert a[1..][..i-1] == a[..i][1..] == b[..i][1..] == b[1..][..i-1];
      LessAt(a[1..], b[1..], i - 1);
    }
  }

  /** Position i is where start and limit first differ, with room for a byte between. */
  predicate RoomAt(start: Bytes, limit: Bytes, i: nat) {
    i < |start| && i < |limit| && start[..i] == limit[..i] && start[i] as int + 1 < limit[i] as int
  }

  /** If there is room between the two, cuts start there to a string strictly between them. */
  method FindShortestSeparator(start: Bytes, limit: Bytes) returns (r: Bytes)
    ensures forall i: nat | RoomAt(start, limit, i) :: |r| == i + 1 && r[..i] == start[..i] && r[i] == start[i] + 1
    ensures r != start ==> exists i: nat :: RoomAt(start, limit, i)
    ensures r != start ==> BytewiseLess(start, r) && BytewiseLess(r, limit) && |r| <= |start|
  {
    var minLength := if |start| < |limit| then |start| else |limit|;
    var diffIndex: nat := 0;
    while diffIndex < minLength && start[diffIndex] == limit[diffIndex]
      invariant diffIndex <= minLength
      invariant start[..diffIndex] == limit[..diffIndex]
    {
      assert start[..diffIndex+1] == start[..diffIndex] + [start[diffIndex]];
      assert limit[..diffIndex+1] == limit[..diffIndex] + [limit[diffIndex]];
      diffIndex := diffIndex + 1;
    }
    r := start;
    OnlyRoom(start, limit, diffIndex);
    if diffIndex >= minLength {
    } else {
      var diffByte := start[diffIndex];
      if diffByte < 0xff && diffByte + 1 < limit[diffIndex] {
        r := start[..diffIndex] + [diffByte + 1];
        assert RoomAt(start, limit, diffIndex);
        LessAt(start, r, diffIndex);
        LessAt(r, limit, diffIndex);
      }
    }
  }

  lemma OnlyRoom(start: Bytes, limit: Bytes, d: nat)
    requires d <= |start| && d <= |limit| && start[..d] == limit[..d]
    requires d < |start| && d < |limit| ==> start[d] != limit[d]
    ensures forall i: nat | RoomAt(start, limit, i) :: i == d
  {
    SamePrefix(start, limit, d);
    forall i: nat | RoomAt(start, limit, i)
      ensures i == d
    {
      SamePrefix(start, limit, i);
    }
  }

  lemma SamePrefix(a: Bytes, b: Bytes, n: nat)
    requires n <= |a| && n <= |b| && a[..n] == b[..n]
    ensures forall i | 0 <= i < n :: a[i] == b[i]
  {
    forall i | 0 <= i < n
      ensures a[i] == b[i]
    {
      assert a[..n][i] == b[..n][i];
    }
  }

  /** Cuts key after its first byte that can be increased, and increases it. */
  method FindShortSuccessor(key: Bytes) returns (r: Bytes)
    ensures r == key || BytewiseLess(key, r)
    ensures |r| <= |key|
    ensures r == key <==> forall i | 0 <= i < |key| :: key[i] == 0xff
    ensures r != key ==> |r| > 0 && r[..|r|-1] == key[..|r|-1] && r[|r|-1] as int == key[|r|-1] as int + 1
    ensures r != key ==> forall i | 0 <= i < |r| - 1 :: key[i] == 0xff
  {
    var i := 0;
    while i < |key|
      invariant 0 <= i <= |key|
      invariant forall j | 0 <= j < i :: key[j] == 0xff
    {
      if key[i] != 0xff {
        r := key[..i] + [key[i] + 1];
        LessAt(key, r, i);
        LessIrreflexive(key);
        return;
      }
      i := i + 1;
    }
    r := key;
  }

  // ----- The order on byte strings is an order of rational numbers -----

  /** A number in [0, 1) for every byte string. */
  function Rank(s: Bytes): (r: real)
    ensures 0.0 <= r < 1.0
    ensures s == [] <==> r == 0.0
  {
    if s == [] then 0.0 else ((s[0] as int + 1) as real + Rank(s[1..])) / 257.0
  }

  lemma {:induction false} RankLess(a: Bytes, b: Bytes)
    requires BytewiseLess(a, b)
    ensures Rank(a) < Rank(b)
  {
    if a != [] && a[0] == b[0] {
      RankLess(a[1..], b[1..]);
    }
  }

  /** Comparing two keys is comparing their ranks, and a rank determines its key. */
  lemma RankEmbedsOrder(a: Bytes, b: Bytes)
    ensures BytewiseLess(a, b) <==> Rank(a) < Rank(b)
    ensures a == b <==> Rank(a) == Rank(b)
  {
    LessTotal(a, b);
    if BytewiseLess(a, b) {
      RankLess(a, b);
    } else if BytewiseLess(b, a) {
      RankLess(b, a);
    }
  }
}
