/**
 Internal keys as byte strings: a user key followed by its tag, their order, and the
 shortened keys that table indexes use in their place.
 */
module InternalKeys {
  import opened Comparator
  import opened Codings
  import opened Entries

  /** The tag that sorts first among those of a user key: the largest sequence number, of a value. */
  const FIRST_TAG: uint64 := MAX_SEQUENCE * 256 + 1

  function InternalKey(user: Bytes, tag: uint64): (k: Bytes)
    ensures |k| >= 8 && ExtractUserKey(k) == user && ExtractTag(k) == tag
  {
    var k := user + Fixed64(tag);
    assert k[..|k| - 8] == user && k[|k| - 8..] == Fixed64(tag);
    k
  }

  function ExtractUserKey(k: Bytes): Bytes
    requires |k| >= 8
  {
    k[..|k| - 8]
  }

  function ExtractTag(k: Bytes): uint64
    requires |k| >= 8
  {
    DecodeFixed64(k[|k| - 8..])
  }

  /** User key ascending, then tag descending. */
  predicate InternalLess(a: Bytes, b: Bytes) {
    && |a| >= 8 && |b| >= 8
    && (BytewiseLess(ExtractUserKey(a), ExtractUserKey(b)) ||
        (ExtractUserKey(a) == ExtractUserKey(b) && ExtractTag(a) > ExtractTag(b)))
  }

  lemma InternalLessTransitive(a: Bytes, b: Bytes, c: Bytes)
    requires InternalLess(a, b) && InternalLess(b, c)
    ensures InternalLess(a, c)
  {
    var x, y, z := ExtractUserKey(a), ExtractUserKey(b), ExtractUserKey(c);
    if BytewiseLess(x, y) && BytewiseLess(y, z) {
      LessTransitive(x, y, z);
    }
  }

  lemma InternalLessIrreflexive(a: Bytes)
    ensures !InternalLess(a, a)
  {
    if |a| >= 8 {
      LessIrreflexive(ExtractUserKey(a));
    }
  }

  /** PackSequenceAndType: the tag fits a 64-bit word. */
  function TagWord(a: IKey): (tag: uint64)
    ensures tag / 256 == a.seqno && tag % 256 == if a.kind.Value? then 1 else 0
  {
    assert a.seqno * 256 <= MAX_SEQUENCE * 256;
    a.Tag()
  }

  /** The byte order and the order of the store's entries are the same. */
  lemma InternalLessIsLess(u: Bytes, a: IKey, v: Bytes, b: IKey)
    requires a.user == Rank(u) && b.user == Rank(v)
    ensures InternalLess(InternalKey(u, TagWord(a)), InternalKey(v, TagWord(b))) <==> Less(a, b)
  {
    RankEmbedsOrder(u, v);
  }

  // ----- Keys for index entries -----

  /** r stands for the last key of a block before limit: the key itself or a shorter one past it. */
  predicate IsSeparator(start: Bytes, limit: Bytes, r: Bytes) {
    && |start| >= 8 && |limit| >= 8
    && (r == start || (IsSuccessor(start, r) && BytewiseLess(ExtractUserKey(r), ExtractUserKey(limit))))
  }

  /** r is the key itself, or a shorter one with a larger user key and the first tag. */
  predicate IsSuccessor(key: Bytes, r: Bytes) {
    && |key| >= 8
    && (r == key
         || (8 <= |r| < |key| && ExtractTag(r) == FIRST_TAG && BytewiseLess(ExtractUserKey(key), ExtractUserKey(r))))
  }

  method FindShortestInternalSeparator(start: Bytes, limit: Bytes) returns (r: Bytes)
    requires |start| >= 8 && |limit| >= 8
    ensures IsSeparator(start, limit, r)
    ensures forall i: nat | RoomAt(ExtractUserKey(start), ExtractUserKey(limit), i) && i + 9 < |start| ::
              r == InternalKey(start[..i] + [start[i] + 1], FIRST_TAG)
    ensures (forall i: nat | RoomAt(ExtractUserKey(start), ExtractUserKey(limit), i) :: i + 9 >= |start|) ==> r == start
  {
    var userStart, userLimit := ExtractUserKey(start), ExtractUserKey(limit);
    var tmp := FindShortestSeparator(userStart, userLimit);
    forall i: nat | RoomAt(userStart, userLimit, i)
      ensures tmp == start[..i] + [start[i] + 1]
    {
      assert userStart[..i] == start[..i] && userStart[i] == start[i];
    }
    if |tmp| < |userStart| && BytewiseLess(userStart, tmp) {
      return InternalKey(tmp, FIRST_TAG);
    }
    return start;
  }

  /** Byte i of the key is the first that can be increased. */
  predicate CanIncreaseAt(key: Bytes, i: nat) {
    i < |key| && key[i] != 0xff && forall j | 0 <= j < i :: key[j] == 0xff
  }

  /** The user key is cut after its first byte that can be increased, unless that is its last one or there is none. */
  method FindShortInternalSuccessor(key: Bytes) returns (r: Bytes)
    requires |key| >= 8
    ensures IsSuccessor(key, r)
    ensures forall i: nat | CanIncreaseAt(ExtractUserKey(key), i) ::
              r == if i + 9 < |key| then InternalKey(key[..i] + [key[i] + 1], FIRST_TAG) else key
    ensures (forall i: nat :: !CanIncreaseAt(ExtractUserKey(key), i)) ==> r == key
  {
    var userKey := ExtractUserKey(key);
    var tmp := FindShortSuccessor(userKey);
    forall i: nat | CanIncreaseAt(userKey, i)
      ensures tmp == key[..i] + [key[i] + 1]
    {
      OneIncrease(userKey, tmp, i);
      assert userKey[..i] == key[..i];
    }
    assert tmp != userKey ==> CanIncreaseAt(userKey, |tmp| - 1);
    if |tmp| < |userKey| && BytewiseLess(userKey, tmp) {
      return InternalKey(tmp, FIRST_TAG);
    }
    return key;
  }

  lemma OneIncrease(key: Bytes, r: Bytes, i: nat)
    requires CanIncreaseAt(key, i) && r != key && 0 < |r| <= |key| && r[..|r|-1] == key[..|r|-1]
    requires r[|r|-1] as int == key[|r|-1] as int + 1 && forall j | 0 <= j < |r| - 1 :: key[j] == 0xff
    ensures r == key[..i] + [key[i] + 1]
  {
    assert i == |r| - 1;
    assert r == r[..i] + [r[i]];
  }

  /** A successor is not before the key. */
  lemma SuccessorAfter(key: Bytes, r: Bytes)
    requires IsSuccessor(key, r)
    ensures r == key || InternalLess(key, r)
  {
  }

  /** A separator splits the keys: it is not before start, and it is before limit. */
  lemma SeparatorSplits(start: Bytes, limit: Bytes, r: Bytes)
    requires InternalLess(start, limit) && IsSeparator(start, limit, r)
    ensures r == start || InternalLess(start, r)
    ensures InternalLess(r, limit)
  {
  }

  /**
   A key past start but not past the separator has not the user key of anything from
   limit on: a lookup that the index sends to the block of start may end there.
   */
  lemma NothingBetween(start: Bytes, limit: Bytes, r: Bytes, k: Bytes)
    requires IsSeparator(start, limit, r) && InternalLess(start, limit)
    requires |k| >= 8 && InternalLess(start, k) && !InternalLess(r, k)
    ensures BytewiseLess(ExtractUserKey(k), ExtractUserKey(limit))
  {
    var x, y, z := ExtractUserKey(k), ExtractUserKey(r), ExtractUserKey(limit);
    LessTotal(x, y);
    if BytewiseLess(x, y) {
      LessTransitive(x, y, z);
    }
  }
}
