/**
 The filter block of a table: one filter for every 2 KB of file offsets, made from the
 user keys of the blocks that start there.
 */
module FilterBlocks {
  import opened Comparator
  import opened Codings
  import opened InternalKeys
  import opened Blooms

  const FILTER_BASE_LG: byte := 11
  const FILTER_BASE: nat := 2048

  /** A Bloom filter over user keys: a hash, bits for each key, and a number of probes. */
  datatype Policy = Policy(hash: Bytes -> uint32, bitsPerKey: nat, k: nat)

  predicate PolicyOk(p: Policy) {
    1 <= p.k <= MAX_PROBES
  }

  function UserKeys(keys: seq<Bytes>): (users: seq<Bytes>)
    requires forall key <- keys :: |key| >= 8
    ensures |users| == |keys| && forall i | 0 <= i < |keys| :: users[i] == ExtractUserKey(keys[i])
  {
    seq(|keys|, i requires 0 <= i < |keys| => ExtractUserKey(keys[i]))
  }

  // ----- What the block holds -----

  function Limit(result: Bytes, offsets: seq<nat>, f: nat): nat
    requires f < |offsets|
  {
    if f + 1 < |offsets| then offsets[f+1] else |result|
  }

  /** Filter number f is made from exactly these keys; there are no bytes of it if there are no keys. */
  ghost predicate FilterAt(p: Policy, result: Bytes, offsets: seq<nat>, f: nat, keys: seq<Bytes>)
    requires f < |offsets|
  {
    && offsets[f] <= Limit(result, offsets, f) <= |result|
    && (forall key <- keys :: |key| >= 8)
    && (if keys == [] then offsets[f] == Limit(result, offsets, f)
        else IsFilter(p.hash, p.k, UserKeys(keys), result[offsets[f]..Limit(result, offsets, f)]))
  }

  ghost predicate FiltersOk(p: Policy, result: Bytes, offsets: seq<nat>, lists: seq<seq<Bytes>>) {
    && |lists| == |offsets|
    && forall f {:trigger FilterAt(p, result, offsets, f, lists[f])} | 0 <= f < |offsets| ::
         FilterAt(p, result, offsets, f, lists[f])
  }

  /** A finished filter block for these lists of keys. */
  ghost predicate IsFilterBlock(p: Policy, contents: Bytes, lists: seq<seq<Bytes>>) {
    exists result, offsets :: Finished(p, contents, lists, result, offsets)
  }

  ghost predicate Finished(p: Policy, contents: Bytes, lists: seq<seq<Bytes>>, result: Bytes, offsets: seq<nat>) {
    && FiltersOk(p, result, offsets, lists)
    && FitWords(offsets) && |result| < TWO_TO_32
    && contents == result + FixedArray(offsets) + (Fixed32(|result|) + [FILTER_BASE_LG])
  }

  // ----- The builder -----

  class FilterBlockBuilder {
    const policy: Policy
    var keys: Bytes
    var start: seq<nat>
    var result: Bytes
    var filterOffsets: seq<nat>
    ghost var lists: seq<seq<Bytes>>
    ghost var pending: seq<Bytes>

    ghost predicate Valid()
      reads this
    {
      && PolicyOk(policy)
      && FiltersOk(policy, result, filterOffsets, lists)
      && Flattened(keys, start, pending)
    }

    /** The keys by filter number, the last of them not yet made into a filter. */
    ghost function Lists(): seq<seq<Bytes>>
      reads this
    {
      lists + [pending]
    }

    constructor (policy: Policy)
      requires PolicyOk(policy)
      ensures Valid() && Lists() == [[]] && this.policy == policy && FinalSize() == 0
    {
      this.policy := policy;
      keys, start, result, filterOffsets := [], [], [], [];
      lists, pending := [], [];
    }

    /** Makes filters until the next is the one of the offset. */
    method StartBlock(blockOffset: nat)
      requires Valid() && blockOffset / FILTER_BASE + 1 >= |Lists()|
      modifies this
      ensures Valid() && |Lists()| == blockOffset / FILTER_BASE + 1
      ensures old(Lists()) <= Lists() && forall f | old(|Lists()|) <= f < |Lists()| :: Lists()[f] == []
      ensures FinalSize() == old(FinalSize())
    {
      var filterIndex := blockOffset / FILTER_BASE;
      while filterIndex > |filterOffsets|
        invariant Valid() && filterIndex >= |filterOffsets|
        invariant old(Lists()) <= Lists() && forall f | old(|Lists()|) <= f < |Lists()| :: Lists()[f] == []
        invariant FinalSize() == old(FinalSize())
      {
        GenerateFilter();
      }
    }

    method AddKey(key: Bytes)
      requires Valid() && |key| >= 8
      modifies this`keys, this`start, this`pending
      ensures Valid() && pending == old(pending) + [key]
      ensures FinalSize() <= old(FinalSize()) + policy.bitsPerKey + 10
    {
      MoreFilterBytes(|start|, policy.bitsPerKey);
      start := start + [|keys|];
      keys := keys + key;
      pending := pending + [key];
      OneMoreKey(old(keys), old(start), old(pending), key);
    }

    /** Bytes of filters once the pending keys have theirs. */
    function FinalSize(): nat
      reads this
    {
      |result| + if start == [] then 0 else FilterBytes(|start|, policy.bitsPerKey) + 1
    }

    method Finish() returns (contents: Bytes)
      requires Valid() && FinalSize() < TWO_TO_32
      modifies this
      ensures lists == if old(pending) == [] then old(lists) else old(Lists())
      ensures IsFilterBlock(policy, contents, lists)
      ensures |contents| == old(FinalSize()) + 4 * |lists| + 5
    {
      if start != [] {
        GenerateFilter();
      }
      var arrayOffset := |result|;
      OffsetsFit(policy, result, filterOffsets, lists);
      AppendOffsets();
      if filterOffsets != [] {
        FixedArrayAt(filterOffsets, 0);
      }
      ghost var filters := result[..arrayOffset];
      result := result + (Fixed32(arrayOffset) + [FILTER_BASE_LG]);
      contents := result;
      assert Finished(policy, contents, lists, filters, filterOffsets);
    }

    method AppendOffsets()
      requires FitWords(filterOffsets)
      modifies this`result
      ensures result == old(result) + FixedArray(filterOffsets) && result[..old(|result|)] == old(result)
    {
      var i := 0;
      assert FixedArray(filterOffsets[..0]) == [];
      while i < |filterOffsets|
        invariant i <= |filterOffsets| && FitWords(filterOffsets[..i])
        invariant result == old(result) + FixedArray(filterOffsets[..i])
      {
        assert filterOffsets[..i+1] == filterOffsets[..i] + [filterOffsets[i]];
        FixedArrayAppend(filterOffsets[..i], filterOffsets[i]);
        Regroup(old(result), FixedArray(filterOffsets[..i]), Fixed32(filterOffsets[i]));
        result := result + Fixed32(filterOffsets[i]);
        i := i + 1;
      }
      assert filterOffsets[..i] == filterOffsets;
    }

    /** One more filter, of the keys added since the last. */
    method GenerateFilter()
      requires Valid()
      modifies this
      ensures Valid() && lists == old(lists) + [old(pending)] && pending == [] && start == []
      ensures |result| == old(FinalSize())
    {
      if start == [] {
        NextFilter(policy, result, filterOffsets, lists, [], result);
        filterOffsets := filterOffsets + [|result|];
        lists := lists + [pending];
        return;
      }
      PendingKeys(keys, start, pending);
      var tmpKeys := PendingUserKeys();
      var r := CreateFilter(policy.hash, policy.bitsPerKey, policy.k, tmpKeys, result);
      NextFilter(policy, result, filterOffsets, lists, pending, r);
      filterOffsets := filterOffsets + [|result|];
      result := r;
      keys, start := [], [];
      lists, pending := lists + [pending], [];
    }

    /** The user keys of the flattened internal keys. */
    method PendingUserKeys() returns (tmpKeys: seq<Bytes>)
      requires Flattened(keys, start, pending) && forall key <- pending :: |key| >= 8
      ensures tmpKeys == UserKeys(pending)
    {
      var ends := start + [|keys|];
      tmpKeys := [];
      var i := 0;
      while i < |start|
        invariant i <= |start| && |tmpKeys| == i
        invariant forall j | 0 <= j < i :: tmpKeys[j] == ExtractUserKey(pending[j])
      {
        assert PieceAt(keys, start, pending, i);
        var key := keys[ends[i]..ends[i+1]];
        assert key == pending[i];
        tmpKeys := tmpKeys + [ExtractUserKey(key)];
        i := i + 1;
      }
    }
  }

  /** One more key lengthens a filter by its bits, rounded up. */
  lemma {:induction false} MoreFilterBytes(n: nat, bitsPerKey: nat)
    ensures FilterBytes(n + 1, bitsPerKey) + 1 <= (if n == 0 then 0 else FilterBytes(n, bitsPerKey) + 1) + bitsPerKey +
            10
  {
    assert (n + 1) * bitsPerKey == n * bitsPerKey + bitsPerKey;
  }

  /** Where key i of a flattened list ends. */
  function End(keys: Bytes, start: seq<nat>, i: nat): nat {
    if i + 1 < |start| then start[i+1] else |keys|
  }

  ghost predicate Flattened(keys: Bytes, start: seq<nat>, pending: seq<Bytes>) {
    && |start| == |pending|
    && forall i {:trigger PieceAt(keys, start, pending, i)} | 0 <= i < |start| :: PieceAt(keys, start, pending, i)
  }

  ghost predicate PieceAt(keys: Bytes, start: seq<nat>, pending: seq<Bytes>, i: nat)
    requires i < |start| == |pending|
  {
    start[i] <= End(keys, start, i) <= |keys| && keys[start[i]..End(keys, start, i)] == pending[i] && |pending[i]| >= 8
  }

  lemma {:induction false} PendingKeys(keys: Bytes, start: seq<nat>, pending: seq<Bytes>)
    requires Flattened(keys, start, pending)
    ensures forall key <- pending :: |key| >= 8
  {
    forall i | 0 <= i < |pending|
      ensures |pending[i]| >= 8
    {
      assert PieceAt(keys, start, pending, i);
    }
  }

  lemma OneMoreKey(keys: Bytes, start: seq<nat>, pending: seq<Bytes>, key: Bytes)
    requires Flattened(keys, start, pending) && |key| >= 8
    ensures Flattened(keys + key, start + [|keys|], pending + [key])
  {
    forall i | 0 <= i <= |start|
      ensures PieceAt(keys + key, start + [|keys|], pending + [key], i)
    {
      if i < |start| {
        assert PieceAt(keys, start, pending, i);
        assert (keys + key)[start[i]..End(keys, start, i)] == keys[start[i]..End(keys, start, i)];
      }
    }
  }

  /** Appending the filter of some keys, or nothing if there are none, leaves the others as they are. */
  lemma NextFilter(p: Policy, result: Bytes, offsets: seq<nat>, lists: seq<seq<Bytes>>, keys: seq<Bytes>, r: Bytes)
    requires FiltersOk(p, result, offsets, lists)
    requires forall key <- keys :: |key| >= 8
    requires |r| >= |result| && r[..|result|] == result
    requires if keys == [] then r == result else IsFilter(p.hash, p.k, UserKeys(keys), r[|result|..])
    ensures FiltersOk(p, r, offsets + [|result|], lists + [keys])
  {
    var n := |offsets|;
    var offsets', lists' := offsets + [|result|], lists + [keys];
    forall f | 0 <= f <= n
      ensures FilterAt(p, r, offsets', f, lists'[f])
    {
      if f < n {
        assert FilterAt(p, result, offsets, f, lists[f]);
        assert Limit(r, offsets', f) == Limit(result, offsets, f);
        SameBytes(r, result, offsets[f], Limit(result, offsets, f));
      } else {
        assert r[|result|..|r|] == r[|result|..];
      }
    }
  }

  lemma SameBytes(r: Bytes, b: Bytes, i: nat, j: nat)
    requires i <= j <= |b| <= |r| && r[..|b|] == b
    ensures r[i..j] == b[i..j]
  {
    assert r[..|b|][i..j] == r[i..j];
  }

  lemma OffsetsFit(p: Policy, result: Bytes, offsets: seq<nat>, lists: seq<seq<Bytes>>)
    requires FiltersOk(p, result, offsets, lists) && |result| < TWO_TO_32
    ensures FitWords(offsets)
  {
    forall f | 0 <= f < |offsets|
      ensures offsets[f] < TWO_TO_32
    {
      assert FilterAt(p, result, offsets, f, lists[f]);
    }
  }

  // ----- The reader -----

  /** offset >> lg */
  function ShiftRight(offset: nat, lg: nat): nat {
    if lg == 0 then offset else ShiftRight(offset / 2, lg - 1)
  }

  lemma ShiftByBase(offset: nat)
    ensures ShiftRight(offset, FILTER_BASE_LG as nat) == offset / FILTER_BASE
  {
    var a := offset / 2 / 2 / 2 / 2;
    var b := a / 2 / 2 / 2 / 2;
    assert ShiftRight(offset, 11) == ShiftRight(offset / 2 / 2, 9);
    assert ShiftRight(offset / 2 / 2, 9) == ShiftRight(a, 7);
    assert ShiftRight(a, 7) == ShiftRight(a / 2 / 2, 5);
    assert ShiftRight(a / 2 / 2, 5) == ShiftRight(b, 3);
    assert ShiftRight(b, 3) == b / 2 / 2 / 2;
    assert b == offset / 256;
  }

  function WordAt(b: Bytes, i: nat): uint32
    requires i + 4 <= |b|
  {
    DecodeFixed32(b[i..i+4])
  }

  /** What the reader answers about a key of the block at this offset; errors count as matches. */
  function MayMatch(p: Policy, contents: Bytes, blockOffset: nat, key: Bytes): bool
    requires |key| >= 8
  {
    var n := |contents|;
    n < 5 || WordAt(contents, n - 5) > n - 5 ||
    FilterAdmits(p, contents, WordAt(contents, n - 5), ShiftRight(blockOffset, contents[n-1] as nat), key)
  }

  function FilterAdmits(p: Policy, contents: Bytes, arrayOffset: nat, index: nat, key: Bytes): bool
    requires arrayOffset + 5 <= |contents| && |key| >= 8
  {
    if index >= (|contents| - 5 - arrayOffset) / 4 then true
    else
      var first, limit := WordAt(contents, arrayOffset + 4 * index), WordAt(contents, arrayOffset + 4 * index + 4);
      if first <= limit <= arrayOffset then Matches(p.hash, ExtractUserKey(key), contents[first..limit])
      else first != limit
  }

  class FilterBlockReader {
    const policy: Policy
    ghost const contents: Bytes
    const data: Bytes
    const offset: nat
    const num: nat
    const baseLg: nat

    constructor (policy: Policy, contents: Bytes)
      ensures this.policy == policy && this.contents == contents
      ensures Reads()
    {
      this.policy, this.contents := policy, contents;
      var n := |contents|;
      data, offset, num, baseLg := [], 0, 0, 0;
      if n >= 5 {
        baseLg := contents[n-1] as nat;
        var lastWord := WordAt(contents, n - 5);
        if lastWord <= n - 5 {
          data, offset, num := contents, lastWord, (n - 5 - lastWord) / 4;
        }
      }
    }

    ghost predicate Reads() {
      var n := |contents|;
      if n < 5 || WordAt(contents, n - 5) > n - 5 then num == 0
      else
        && data == contents && offset == WordAt(contents, n - 5)
        && num == (n - 5 - offset) / 4 && baseLg == contents[n-1] as nat
    }

    method KeyMayMatch(blockOffset: nat, key: Bytes) returns (r: bool)
      requires Reads() && |key| >= 8
      ensures r <==> MayMatch(policy, contents, blockOffset, key)
    {
      var index := ShiftRight(blockOffset, baseLg);
      if index < num {
        var first, limit := WordAt(data, offset + 4 * index), WordAt(data, offset + 4 * index + 4);
        if first <= limit <= offset {
          r := Blooms.KeyMayMatch(policy.hash, ExtractUserKey(key), data[first..limit]);
          return;
        } else if first == limit {
          return false;
        }
      }
      return true;
    }
  }

  /** In a finished block, the answer is that of the filter for the offset, and no answer is no if there is none. */
  lemma ReadsFilter(p: Policy, contents: Bytes, lists: seq<seq<Bytes>>, result: Bytes, offsets: seq<nat>,
                    blockOffset: nat, key: Bytes)
    requires Finished(p, contents, lists, result, offsets) && |key| >= 8
    ensures var f := blockOffset / FILTER_BASE;
            MayMatch(p, contents, blockOffset, key) <==>
            f >= |offsets|
                || (offsets[f] <= Limit(result, offsets, f) <= |result|
                    && Matches(p.hash, ExtractUserKey(key), result[offsets[f]..Limit(result, offsets, f)]))
  {
    FinishedParts(p, contents, lists, result, offsets);
    ShiftByBase(blockOffset);
    ReadsIndex(p, contents, |result|, blockOffset, key);
    var f := blockOffset / FILTER_BASE;
    if f < |offsets| {
      FilterBounds(p, result, offsets, lists, f);
      ReadsFilterAt(p, contents, result, offsets, f, key);
    }
  }

  lemma FilterBounds(p: Policy, result: Bytes, offsets: seq<nat>, lists: seq<seq<Bytes>>, f: nat)
    requires FiltersOk(p, result, offsets, lists) && f < |offsets|
    ensures offsets[f] <= Limit(result, offsets, f) <= |result|
  {
    assert FilterAt(p, result, offsets, f, lists[f]);
  }

  lemma ReadsFilterAt(p: Policy, contents: Bytes, result: Bytes, offsets: seq<nat>, f: nat, key: Bytes)
    requires FitWords(offsets) && |result| < TWO_TO_32 && f < |offsets| && |key| >= 8
    requires contents == result + FixedArray(offsets) + (Fixed32(|result|) + [FILTER_BASE_LG])
    requires |contents| == |result| + 4 * |offsets| + 5 && contents[..|result|] == result
    requires offsets[f] <= Limit(result, offsets, f) <= |result|
    ensures FilterAdmits(p, contents, |result|, f, key) ==
            Matches(p.hash, ExtractUserKey(key), result[offsets[f]..Limit(result, offsets, f)])
  {
    WordOf(result, offsets, contents, f);
    SameBytes(contents, result, offsets[f], Limit(result, offsets, f));
    AdmitsByFilter(p, contents, |result|, f, key, offsets[f], Limit(result, offsets, f));
  }

  lemma ReadsIndex(p: Policy, contents: Bytes, arrayOffset: nat, blockOffset: nat, key: Bytes)
    requires |contents| >= arrayOffset + 5 && |key| >= 8
    requires WordAt(contents, |contents| - 5) == arrayOffset && contents[|contents| - 1] == FILTER_BASE_LG
    ensures var f := ShiftRight(blockOffset, FILTER_BASE_LG as nat);
            MayMatch(p, contents, blockOffset, key) == FilterAdmits(p, contents, arrayOffset, f, key) &&
            (f >= (|contents| - 5 - arrayOffset) / 4 ==> FilterAdmits(p, contents, arrayOffset, f, key))
  {
  }

  lemma AdmitsByFilter(p: Policy, contents: Bytes, arrayOffset: nat, index: nat, key: Bytes, first: nat, limit: nat)
    requires |contents| >= arrayOffset + 5 && |key| >= 8 && index < (|contents| - 5 - arrayOffset) / 4
    requires WordAt(contents, arrayOffset + 4 * index) == first
    requires WordAt(contents, arrayOffset + 4 * index + 4) == limit
    requires first <= limit <= arrayOffset
    ensures FilterAdmits(p, contents, arrayOffset, index, key) ==
            Matches(p.hash, ExtractUserKey(key), contents[first..limit])
  {
  }

  lemma FinishedParts(p: Policy, contents: Bytes, lists: seq<seq<Bytes>>, result: Bytes, offsets: seq<nat>)
    requires Finished(p, contents, lists, result, offsets)
    ensures var n := |contents|;
            n == |result| + 4 * |offsets| + 5 && contents[..|result|] == result &&
            WordAt(contents, n - 5) == |result| && contents[n-1] == FILTER_BASE_LG
  {
    if |offsets| > 0 {
      FixedArrayAt(offsets, 0);
    }
    assert |FixedArray(offsets)| == 4 * |offsets|;
    var n := |contents|;
    assert contents[n-5..n-5+4] == Fixed32(|result|);
  }

  /** The array has the offset of filter f and, after it, where the filter ends. */
  lemma WordOf(result: Bytes, offsets: seq<nat>, contents: Bytes, f: nat)
    requires FitWords(offsets) && |result| < TWO_TO_32 && f < |offsets|
    requires contents == result + FixedArray(offsets) + (Fixed32(|result|) + [FILTER_BASE_LG])
    ensures |result| + 4 * f + 8 <= |contents|
    ensures WordAt(contents, |result| + 4 * f) == offsets[f]
    ensures WordAt(contents, |result| + 4 * f + 4) == Limit(result, offsets, f)
  {
    var a := |result| + 4 * f;
    FixedArrayAt(offsets, f);
    assert contents[a..a+4] == FixedArray(offsets)[4 * f..4 * f + 4];
    if f + 1 < |offsets| {
      FixedArrayAt(offsets, f + 1);
      assert contents[a+4..a+8] == FixedArray(offsets)[4 * (f + 1)..4 * (f + 1) + 4];
    } else {
      assert contents[a+4..a+8] == Fixed32(|result|);
    }
  }

  /** No key is turned away by the filter of the block it is in, and every key by a filter of no keys. */
  lemma KeysPass(p: Policy, contents: Bytes, lists: seq<seq<Bytes>>, blockOffset: nat, key: Bytes)
    requires IsFilterBlock(p, contents, lists) && blockOffset / FILTER_BASE < |lists| && |key| >= 8
    ensures key in lists[blockOffset / FILTER_BASE] ==> MayMatch(p, contents, blockOffset, key)
    ensures lists[blockOffset / FILTER_BASE] == [] ==> !MayMatch(p, contents, blockOffset, key)
  {
    var result, offsets :| Finished(p, contents, lists, result, offsets);
    var f := blockOffset / FILTER_BASE;
    ReadsFilter(p, contents, lists, result, offsets, blockOffset, key);
    assert FilterAt(p, result, offsets, f, lists[f]);
    if key in lists[f] {
      var i :| 0 <= i < |lists[f]| && lists[f][i] == key;
      assert UserKeys(lists[f])[i] == ExtractUserKey(key);
      FilterHasKeys(p.hash, p.k, UserKeys(lists[f]), result[offsets[f]..Limit(result, offsets, f)],
          ExtractUserKey(key));
    }
  }

  /** Only the user key matters to a filter. */
  lemma {:induction false} SameAnswer(p: Policy, contents: Bytes, blockOffset: nat, a: Bytes, b: Bytes)
    requires |a| >= 8 && |b| >= 8 && ExtractUserKey(a) == ExtractUserKey(b)
    ensures MayMatch(p, contents, blockOffset, a) == MayMatch(p, contents, blockOffset, b)
  {
  }
}
