/**
 What a table lookup rests on: blocks of increasing keys, an index whose keys separate
 them, filters, and what the first entry from a key on has to do with each.
 */
module Tables {
  import opened Wrappers
  import opened Comparator
  import opened Codings
  import opened InternalKeys
  import opened Blocks
  import opened FilterBlocks
  import opened TableFormats

  /** A data block of a table. */
  datatype Chunk = Chunk(handle: BlockHandle, contents: Bytes, layout: Layout)

  // ----- The entries of a table -----

  ghost predicate ChunkOk(c: Codec, file: Bytes, b: Chunk) {
    Holds(c, file, b.handle, b.contents) && IsBlock(b.contents, b.layout) && b.layout.entries != []
  }

  ghost predicate ChunksOk(c: Codec, file: Bytes, blocks: seq<Chunk>) {
    forall j {:trigger ChunkOk(c, file, blocks[j])} | 0 <= j < |blocks| :: ChunkOk(c, file, blocks[j])
  }

  function Flat(blocks: seq<Chunk>): seq<KeyValue> {
    if blocks == [] then [] else Flat(blocks[..|blocks|-1]) + blocks[|blocks|-1].layout.entries
  }

  lemma {:induction false} FlatAppend(blocks: seq<Chunk>, b: Chunk)
    ensures Flat(blocks + [b]) == Flat(blocks) + b.layout.entries
  {
    assert (blocks + [b])[..|blocks|] == blocks;
  }

  lemma {:induction false} FlatMember(blocks: seq<Chunk>, e: KeyValue)
    ensures e in Flat(blocks) <==> exists j :: 0 <= j < |blocks| && e in blocks[j].layout.entries
  {
    if blocks != [] {
      var front := blocks[..|blocks|-1];
      FlatMember(front, e);
      assert forall j | 0 <= j < |front| :: front[j] == blocks[j];
    }
  }

  /** Keys are internal keys in increasing order. */
  predicate KeysOk(entries: seq<KeyValue>) {
    forall i, j {:trigger InOrder(entries, i, j)} | 0 <= i <= j < |entries| :: InOrder(entries, i, j)
  }

  predicate InOrder(entries: seq<KeyValue>, i: nat, j: nat)
    requires i <= j < |entries|
  {
    8 <= |entries[i].key| < TWO_TO_32 && (i < j ==> InternalLess(entries[i].key, entries[j].key))
  }

  lemma {:induction false} KeysIncrease(entries: seq<KeyValue>)
    requires KeysOk(entries)
    ensures Increasing(InternalLess, entries)
    ensures forall e <- entries :: 8 <= |e.key| < TWO_TO_32
  {
    forall i, j | 0 <= i <= j < |entries|
      ensures 8 <= |entries[i].key| < TWO_TO_32 && (i < j ==> InternalLess(entries[i].key, entries[j].key))
    {
      assert InOrder(entries, i, j);
    }
    forall e | e in entries
      ensures 8 <= |e.key| < TWO_TO_32
    {
      var i :| 0 <= i < |entries| && entries[i] == e;
      assert InOrder(entries, i, i);
    }
  }

  lemma {:induction false} KeysOkParts(a: seq<KeyValue>, b: seq<KeyValue>)
    requires KeysOk(a + b)
    ensures KeysOk(a) && KeysOk(b)
    ensures forall i, j | 0 <= i < |a| && 0 <= j < |b| :: InternalLess(a[i].key, b[j].key)
  {
    forall i, j | 0 <= i <= j < |a|
      ensures InOrder(a, i, j)
    {
      assert InOrder(a + b, i, j);
    }
    forall i, j | 0 <= i <= j < |b|
      ensures InOrder(b, i, j)
    {
      assert InOrder(a + b, |a| + i, |a| + j);
    }
    forall i, j | 0 <= i < |a| && 0 <= j < |b|
      ensures InternalLess(a[i].key, b[j].key)
    {
      assert InOrder(a + b, i, |a| + j);
    }
  }

  /** The entries of each block are in order, and before those of every later block. */
  lemma {:induction false} BlocksInOrder(blocks: seq<Chunk>, i: nat, j: nat)
    requires KeysOk(Flat(blocks)) && i <= j < |blocks|
    ensures KeysOk(blocks[i].layout.entries)
    ensures i < j ==>
            forall x, y | x in blocks[i].layout.entries && y in blocks[j].layout.entries :: InternalLess(x.key, y.key)
    decreases blocks
  {
    var n := |blocks| - 1;
    var front := blocks[..n];
    KeysOkParts(Flat(front), blocks[n].layout.entries);
    if j < n {
      BlocksInOrder(front, i, j);
    } else if i < n {
      BlocksInOrder(front, i, i);
      forall x, y | x in blocks[i].layout.entries && y in blocks[n].layout.entries
        ensures InternalLess(x.key, y.key)
      {
        assert x in front[i].layout.entries;
        FlatMember(front, x);
      }
    }
  }

  function FirstKey(b: Chunk): Bytes {
    if b.layout.entries == [] then [] else b.layout.entries[0].key
  }

  ghost predicate NoneEmpty(blocks: seq<Chunk>) {
    forall j | 0 <= j < |blocks| :: blocks[j].layout.entries != []
  }

  // ----- The index -----

  /**
   Index entry j has the handle of block j and a key that splits it from the block that
   follows, or from the key `next` if that is where the next block starts.
   */
  ghost predicate IndexOk(blocks: seq<Chunk>, index: seq<KeyValue>, next: Option<Bytes>) {
    && |index| <= |blocks|
    && forall j {:trigger IndexEntryOk(blocks, j, index[j], next)} | 0 <= j < |index| ::
         IndexEntryOk(blocks, j, index[j], next)
  }

  ghost predicate IndexEntryOk(blocks: seq<Chunk>, j: nat, e: KeyValue, next: Option<Bytes>)
    requires j < |blocks|
  {
    && e.value == EncodeHandle(blocks[j].handle)
    && (if j + 1 < |blocks| then IsSeparator(LastKey(blocks[j].layout), FirstKey(blocks[j+1]), e.key)
        else if next.Some? then IsSeparator(LastKey(blocks[j].layout), next.value, e.key)
        else IsSuccessor(LastKey(blocks[j].layout), e.key))
  }

  /** The entry for the last block, once the key after it is known, or that there is none. */
  lemma {:induction false} IndexGrows(blocks: seq<Chunk>, index: seq<KeyValue>, next: Option<Bytes>, key: Bytes)
    requires IndexOk(blocks, index, None) && |index| + 1 == |blocks|
    requires var last := LastKey(blocks[|blocks|-1].layout);
             if next.Some? then IsSeparator(last, next.value, key) else IsSuccessor(last, key)
    ensures IndexOk(blocks, index + [KeyValue(key, EncodeHandle(blocks[|blocks|-1].handle))], next)
  {
    var index' := index + [KeyValue(key, EncodeHandle(blocks[|blocks|-1].handle))];
    forall j | 0 <= j < |index'|
      ensures IndexEntryOk(blocks, j, index'[j], next)
    {
      if j < |index| {
        assert IndexEntryOk(blocks, j, index[j], None);
      }
    }
  }

  /** A block starting with the awaited key takes its place. */
  lemma {:induction false} IndexAwaits(blocks: seq<Chunk>, index: seq<KeyValue>, b: Chunk)
    requires b.layout.entries != [] && IndexOk(blocks, index, Some(FirstKey(b))) && |index| == |blocks|
    ensures IndexOk(blocks + [b], index, None)
  {
    var blocks' := blocks + [b];
    forall j | 0 <= j < |index|
      ensures IndexEntryOk(blocks', j, index[j], None)
    {
      assert IndexEntryOk(blocks, j, index[j], Some(FirstKey(b)));
    }
  }

  lemma {:induction false} NotLess(a: Bytes, b: Bytes)
    requires a == b || InternalLess(a, b)
    ensures !InternalLess(b, a)
  {
    InternalLessIrreflexive(a);
    if InternalLess(a, b) && InternalLess(b, a) {
      InternalLessTransitive(a, b, a);
    }
  }

  /** Keys of a block are not past its index key, which is before those of every later block. */
  lemma {:induction false} IndexKeyBounds(blocks: seq<Chunk>, index: seq<KeyValue>, i: nat, x: KeyValue)
    requires NoneEmpty(blocks) && KeysOk(Flat(blocks)) && IndexOk(blocks, index, None) && i < |index|
    ensures x in blocks[i].layout.entries ==> x.key == index[i].key || InternalLess(x.key, index[i].key)
    ensures forall j | i < j < |blocks| && x in blocks[j].layout.entries :: InternalLess(index[i].key, x.key)
  {
    assert IndexEntryOk(blocks, i, index[i], None);
    var last := LastKey(blocks[i].layout);
    BlocksInOrder(blocks, i, i);
    if i + 1 < |blocks| {
      BlocksInOrder(blocks, i, i + 1);
      assert blocks[i+1].layout.entries[0] in blocks[i+1].layout.entries;
      SeparatorSplits(last, FirstKey(blocks[i+1]), index[i].key);
    } else {
      SuccessorAfter(last, index[i].key);
    }
    if x in blocks[i].layout.entries {
      UpToLast(blocks[i].layout, x);
      if x.key != last && last != index[i].key {
        InternalLessTransitive(x.key, last, index[i].key);
      }
    }
    forall j | i < j < |blocks| && x in blocks[j].layout.entries
      ensures InternalLess(index[i].key, x.key)
    {
      FromFirst(blocks, i + 1, j, x);
      if x.key != FirstKey(blocks[i+1]) {
        InternalLessTransitive(index[i].key, FirstKey(blocks[i+1]), x.key);
      }
    }
  }

  lemma {:induction false} UpToLast(l: Layout, x: KeyValue)
    requires KeysOk(l.entries) && x in l.entries
    ensures x.key == LastKey(l) || InternalLess(x.key, LastKey(l))
  {
    var q :| 0 <= q < |l.entries| && l.entries[q] == x;
    assert InOrder(l.entries, q, |l.entries| - 1);
  }

  lemma {:induction false} FromFirst(blocks: seq<Chunk>, i: nat, j: nat, x: KeyValue)
    requires KeysOk(Flat(blocks)) && i <= j < |blocks| && blocks[i].layout.entries != []
    requires x in blocks[j].layout.entries
    ensures x.key == FirstKey(blocks[i]) || InternalLess(FirstKey(blocks[i]), x.key)
  {
    BlocksInOrder(blocks, i, j);
    assert blocks[i].layout.entries[0] in blocks[i].layout.entries;
    if i == j {
      var q :| 0 <= q < |blocks[i].layout.entries| && blocks[i].layout.entries[q] == x;
      assert InOrder(blocks[i].layout.entries, 0, q);
    }
  }

  /** Index keys increase, so the index can be searched. */
  lemma {:induction false} IndexIncreases(blocks: seq<Chunk>, index: seq<KeyValue>)
    requires NoneEmpty(blocks) && KeysOk(Flat(blocks)) && IndexOk(blocks, index, None)
    ensures Increasing(InternalLess, index)
  {
    forall i, j | 0 <= i < j < |index|
      ensures InternalLess(index[i].key, index[j].key)
    {
      var x := blocks[j].layout.entries[0];
      assert x in blocks[j].layout.entries;
      IndexKeyBounds(blocks, index, i, x);
      IndexKeyBounds(blocks, index, j, x);
      if x.key != index[j].key {
        InternalLessTransitive(index[i].key, x.key, index[j].key);
      }
    }
  }

  lemma {:induction false} InternalOrder()
    ensures Transitive(InternalLess)
  {
    forall a, b, c | InternalLess(a, b) && InternalLess(b, c)
      ensures InternalLess(a, c)
    {
      InternalLessTransitive(a, b, c);
    }
  }

  // ----- Point lookup against a linear scan -----

  /** e is the first entry that is not before k. */
  ghost predicate IsFirst(entries: seq<KeyValue>, k: Bytes, e: KeyValue) {
    && e in entries && !InternalLess(e.key, k)
    && forall o | o in entries && !InternalLess(o.key, k) :: o == e || InternalLess(e.key, o.key)
  }

  /** An answer is the first entry from k on, and there is one if that entry has the user key of k. */
  ghost predicate AgreesWithScan(entries: seq<KeyValue>, k: Bytes, r: Option<KeyValue>)
    requires |k| >= 8
  {
    && (r.Some? ==> IsFirst(entries, k, r.value))
    && forall e | IsFirst(entries, k, e) && |e.key| >= 8 && ExtractUserKey(e.key) == ExtractUserKey(k) :: r == Some(e)
  }

  lemma {:induction false} ScanFindsFirst(entries: seq<KeyValue>, k: Bytes, i: nat)
    requires KeysOk(entries) && IsSeek(InternalLess, entries, k, i)
    ensures i < |entries| ==> IsFirst(entries, k, entries[i])
    ensures forall e | IsFirst(entries, k, e) :: i < |entries| && e == entries[i]
  {
    if i < |entries| {
      assert entries[i] in entries && !InternalLess(entries[i].key, k);
      forall o | o in entries && !InternalLess(o.key, k)
        ensures o == entries[i] || InternalLess(entries[i].key, o.key)
      {
        FromSeek(entries, k, i, o);
      }
    }
    forall e | IsFirst(entries, k, e)
      ensures i < |entries| && e == entries[i]
    {
      var q :| 0 <= q < |entries| && entries[q] == e;
      assert q >= i && InOrder(entries, i, q);
      if q > i {
        NotLess(entries[i].key, entries[q].key);
      }
    }
  }

  lemma {:induction false} FirstUnique(entries: seq<KeyValue>, k: Bytes, e: KeyValue, e': KeyValue)
    requires IsFirst(entries, k, e) && IsFirst(entries, k, e')
    ensures e == e'
  {
    if e != e' {
      NotLess(e.key, e'.key);
    }
  }

  /** Entries of blocks before the one the index finds are before k. */
  lemma {:induction false} EarlierBlocks(blocks: seq<Chunk>, index: seq<KeyValue>, k: Bytes, j: nat, i: nat,
                                         o: KeyValue)
    requires NoneEmpty(blocks) && KeysOk(Flat(blocks)) && IndexOk(blocks, index, None) && |index| == |blocks|
    requires IsSeek(InternalLess, index, k, j) && i < j && o in blocks[i].layout.entries
    ensures InternalLess(o.key, k)
  {
    IndexKeyBounds(blocks, index, i, o);
    if o.key != index[i].key {
      InternalLessTransitive(o.key, index[i].key, k);
    }
  }

  /** What is not before k lies in the block the index finds, from position q on, or in a later one. */
  lemma {:induction false} NotBefore(blocks: seq<Chunk>, index: seq<KeyValue>, k: Bytes, j: nat, q: nat, o: KeyValue)
    returns (i: nat)
    requires NoneEmpty(blocks) && KeysOk(Flat(blocks)) && IndexOk(blocks, index, None) && |index| == |blocks|
    requires IsSeek(InternalLess, index, k, j) && j < |blocks| && IsSeek(InternalLess, blocks[j].layout.entries, k, q)
    requires o in Flat(blocks) && !InternalLess(o.key, k)
    ensures j <= i < |blocks| && o in blocks[i].layout.entries
    ensures i == j ==>
            q < |blocks[j].layout.entries|
                && (o == blocks[j].layout.entries[q] || InternalLess(blocks[j].layout.entries[q].key, o.key))
  {
    FlatMember(blocks, o);
    i :| 0 <= i < |blocks| && o in blocks[i].layout.entries;
    if i < j {
      EarlierBlocks(blocks, index, k, j, i, o);
      assert false;
    }
    if i == j {
      BlocksInOrder(blocks, j, j);
      FromSeek(blocks[j].layout.entries, k, q, o);
    }
  }

  lemma {:induction false} FromSeek(entries: seq<KeyValue>, k: Bytes, q: nat, o: KeyValue)
    requires KeysOk(entries) && IsSeek(InternalLess, entries, k, q) && o in entries && !InternalLess(o.key, k)
    ensures q < |entries| && (o == entries[q] || InternalLess(entries[q].key, o.key))
  {
    var p :| 0 <= p < |entries| && entries[p] == o;
    assert p >= q && InOrder(entries, q, p);
  }

  /** The block has an entry from k on: it is the first of the table. */
  lemma {:induction false} FoundInBlock(blocks: seq<Chunk>, index: seq<KeyValue>, k: Bytes, j: nat, q: nat)
    requires NoneEmpty(blocks) && KeysOk(Flat(blocks)) && IndexOk(blocks, index, None) && |index| == |blocks|
    requires |k| >= 8
    requires IsSeek(InternalLess, index, k, j) && j < |blocks| && IsSeek(InternalLess, blocks[j].layout.entries, k, q)
    requires q < |blocks[j].layout.entries|
    ensures AgreesWithScan(Flat(blocks), k, Some(blocks[j].layout.entries[q]))
  {
    var e := blocks[j].layout.entries[q];
    assert e in blocks[j].layout.entries;
    FlatMember(blocks, e);
    forall o | o in Flat(blocks) && !InternalLess(o.key, k)
      ensures o == e || InternalLess(e.key, o.key)
    {
      var i := NotBefore(blocks, index, k, j, q, o);
      if i > j {
        BlocksInOrder(blocks, j, i);
      }
    }
    forall e' | IsFirst(Flat(blocks), k, e')
      ensures e' == e
    {
      FirstUnique(Flat(blocks), k, e, e');
    }
  }

  /** The block ends before k: the first entry from k on has another user key. */
  lemma {:induction false} NotFoundInBlock(blocks: seq<Chunk>, index: seq<KeyValue>, k: Bytes, j: nat)
    requires NoneEmpty(blocks) && KeysOk(Flat(blocks)) && IndexOk(blocks, index, None) && |index| == |blocks|
    requires |k| >= 8
    requires IsSeek(InternalLess, index, k, j) && j < |blocks|
    requires IsSeek(InternalLess, blocks[j].layout.entries, k, |blocks[j].layout.entries|)
    ensures AgreesWithScan(Flat(blocks), k, None)
  {
    forall e | IsFirst(Flat(blocks), k, e) && |e.key| >= 8
      ensures ExtractUserKey(e.key) != ExtractUserKey(k)
    {
      var i := NotBefore(blocks, index, k, j, |blocks[j].layout.entries|, e);
      FirstOfNext(blocks, index, k, j, i, e);
      BlocksInOrder(blocks, j, j);
      BlocksInOrder(blocks, j, j + 1);
      assert IndexEntryOk(blocks, j, index[j], None);
      var last, first := LastKey(blocks[j].layout), FirstKey(blocks[j+1]);
      assert blocks[j+1].layout.entries[0] in blocks[j+1].layout.entries;
      NothingBetween(last, first, index[j].key, k);
      LessIrreflexive(ExtractUserKey(k));
    }
  }

  /** If the block ends before k, the first entry from k on starts the next block. */
  lemma {:induction false} FirstOfNext(blocks: seq<Chunk>, index: seq<KeyValue>, k: Bytes, j: nat, i: nat, e: KeyValue)
    requires NoneEmpty(blocks) && KeysOk(Flat(blocks)) && IndexOk(blocks, index, None) && |index| == |blocks|
    requires IsSeek(InternalLess, index, k, j) && j < i < |blocks| && e in blocks[i].layout.entries
    requires IsFirst(Flat(blocks), k, e)
    ensures e.key == FirstKey(blocks[j+1])
  {
    var f := blocks[j+1].layout.entries[0];
    assert f in blocks[j+1].layout.entries;
    FlatMember(blocks, f);
    IndexKeyBounds(blocks, index, j, f);
    if InternalLess(f.key, k) {
      InternalLessTransitive(index[j].key, f.key, k);
      assert false;
    }
    FromFirst(blocks, j + 1, i, e);
    if e.key != f.key {
      NotLess(f.key, e.key);
    }
  }

  /** Every index key is before k: so is every entry. */
  lemma {:induction false} NotFoundInIndex(blocks: seq<Chunk>, index: seq<KeyValue>, k: Bytes)
    requires NoneEmpty(blocks) && KeysOk(Flat(blocks)) && IndexOk(blocks, index, None) && |index| == |blocks|
    requires |k| >= 8
    requires IsSeek(InternalLess, index, k, |index|)
    ensures AgreesWithScan(Flat(blocks), k, None)
  {
    forall e | e in Flat(blocks)
      ensures InternalLess(e.key, k)
    {
      FlatMember(blocks, e);
      var i :| 0 <= i < |blocks| && e in blocks[i].layout.entries;
      EarlierBlocks(blocks, index, k, |index|, i, e);
    }
  }

  // ----- The filter -----

  /** The keys of a block are among those of the filter for its offset. */
  ghost predicate Covered(lists: seq<seq<Bytes>>, blocks: seq<Chunk>) {
    forall j, e {:trigger InList(lists, blocks[j].handle.offset, e.key)} | 0 <= j < |blocks|
        && e in blocks[j].layout.entries :: InList(lists, blocks[j].handle.offset, e.key)
  }

  predicate InList(lists: seq<seq<Bytes>>, offset: nat, key: Bytes) {
    offset / FILTER_BASE < |lists| && key in lists[offset / FILTER_BASE]
  }

  /** If the filter turns k away, its user key is not in the block. */
  lemma {:induction false} RejectedByFilter(p: Policy, contents: Bytes, lists: seq<seq<Bytes>>, blocks: seq<Chunk>,
                                            j: nat, k: Bytes, e: KeyValue)
    requires IsFilterBlock(p, contents, lists) && Covered(lists, blocks) && j < |blocks| && |k| >= 8
    requires !MayMatch(p, contents, blocks[j].handle.offset, k)
    requires e in blocks[j].layout.entries && |e.key| >= 8
    ensures ExtractUserKey(e.key) != ExtractUserKey(k)
  {
    assert InList(lists, blocks[j].handle.offset, e.key);
    KeysPass(p, contents, lists, blocks[j].handle.offset, e.key);
    if ExtractUserKey(e.key) == ExtractUserKey(k) {
      SameAnswer(p, contents, blocks[j].handle.offset, e.key, k);
    }
  }

  lemma {:induction false} OtherUserKey(entries: seq<KeyValue>, k: Bytes, r: Option<KeyValue>)
    requires |k| >= 8 && AgreesWithScan(entries, k, r)
    requires r.Some? ==> |r.value.key| >= 8 && ExtractUserKey(r.value.key) != ExtractUserKey(k)
    ensures AgreesWithScan(entries, k, None)
  {
  }
}
