/**
 Opening a table file and looking keys up in it.  A lookup goes through the index, the
 filter and one block, and agrees with a scan of the entries the table was built from.
 */
module TableReaders {
  import opened Wrappers
  import opened Comparator
  import opened Codings
  import opened InternalKeys
  import opened Blocks
  import opened FilterBlocks
  import opened TableFormats
  import opened Tables
  import opened TableBuilders

  lemma {:induction false} BytewiseOrder()
    ensures Transitive(BytewiseLess)
  {
    forall a, b, c | BytewiseLess(a, b) && BytewiseLess(b, c)
      ensures BytewiseLess(a, c)
    {
      LessTransitive(a, b, c);
    }
  }

  /** A block read from the file, with an iterator on it. */
  method OpenBlock(less: (Bytes, Bytes) -> bool, contents: Bytes, ghost l: Layout) returns (it: Iter)
    requires IsBlock(contents, l)
    ensures fresh(it) && it.Valid() && it.layout == l && it.less == less
  {
    FinishedOpens(contents, l);
    var block := Open(contents);
    it := new Iter(less, contents, block.restartOffset, block.numRestarts, l);
  }

  class Table {
    const options: Options
    const verifyChecksums: bool
    const file: Bytes
    const indexBlock: Bytes
    const filter: FilterBlockReader?
    ghost const entries: seq<KeyValue>
    ghost const parts: Parts

    /** The file is a table of these entries, and its index block and filter have been read. */
    ghost predicate Valid() {
      && IsTable(options, file, entries, parts) && CodecOk(options.codec)
      && indexBlock == parts.indexContents
      && (filter != null ==> parts.filter.Some? && options.policy.Some? && filter.policy == options.policy.value
                             && filter.contents == parts.filter.value.contents && filter.Reads())
    }

    constructor (options: Options, verifyChecksums: bool, file: Bytes, indexBlock: Bytes, filter: FilterBlockReader?,
                 ghost entries: seq<KeyValue>, ghost parts: Parts)
      ensures this.options == options && this.verifyChecksums == verifyChecksums && this.file == file
      ensures this.indexBlock == indexBlock && this.filter == filter && this.entries == entries && this.parts == parts
    {
      this.options, this.verifyChecksums, this.file, this.indexBlock := options, verifyChecksums, file, indexBlock;
      this.filter, this.entries, this.parts := filter, entries, parts;
    }

    /** A finished table has its footer and index block; no error branch is taken. */
    static method Open(options: Options, verifyChecksums: bool, file: Bytes, ghost entries: seq<KeyValue>,
                       ghost parts: Parts)
      returns (table: Table)
      requires IsTable(options, file, entries, parts) && CodecOk(options.codec)
      ensures table.Valid() && table.entries == entries && table.options == options
      ensures table.filter != null <==> options.policy.Some?
    {
      FooterRoundTrip(parts.metaHandle, parts.indexHandle);
      var footer := DecodeFooter(file[|file| - FOOTER_LENGTH..]);
      var (metaHandle, indexHandle) := footer.value;
      ReadsStored(options.codec, verifyChecksums, file, indexHandle, parts.indexContents);
      var index := ReadBlock(options.codec, verifyChecksums, file, indexHandle);
      var filter := ReadMeta(options, verifyChecksums, file, metaHandle, entries, parts);
      table := new Table(options, verifyChecksums, file, index.value, filter, entries, parts);
    }

    /** The filter the metaindex names, if the options have a policy. */
    static method ReadMeta(options: Options, verifyChecksums: bool, file: Bytes, metaHandle: BlockHandle,
                           ghost entries: seq<KeyValue>, ghost parts: Parts)
      returns (filter: FilterBlockReader?)
      requires IsTable(options, file, entries, parts) && CodecOk(options.codec) && metaHandle == parts.metaHandle
      ensures filter != null <==> options.policy.Some?
      ensures filter != null ==>
              filter.policy == options.policy.value && filter.contents == parts.filter.value.contents && filter.Reads()
    {
      if options.policy.None? {
        return null;
      }
      ReadsStored(options.codec, verifyChecksums, file, metaHandle, parts.metaContents);
      var contents := ReadBlock(options.codec, verifyChecksums, file, metaHandle);
      ghost var f := parts.filter.value;
      var handleValue := FilterHandle(contents.value, options.filterKey, EncodeHandle(f.handle), parts.meta);
      filter := ReadFilter(options.codec, options.policy.value, verifyChecksums, file, handleValue, f);
    }

    /** The value of the one entry of the metaindex block. */
    static method FilterHandle(metaIndex: Bytes, key: Bytes, ghost handleValue: Bytes, ghost meta: Layout)
      returns (value: Bytes)
      requires IsBlock(metaIndex, meta) && meta.entries == [KeyValue(key, handleValue)]
      ensures value == handleValue
    {
      var it := OpenBlock(BytewiseLess, metaIndex, meta);
      BytewiseOrder();
      LessIrreflexive(key);
      assert meta.entries[0].key == key;
      it.Seek(key);
      if !it.IsValid() || it.Entry().key != key {
        assert false;
      }
      return it.Entry().value;
    }

    static method ReadFilter(c: Codec, policy: Policy, verifyChecksums: bool, file: Bytes, handleValue: Bytes,
                             ghost f: FilterPart)
      returns (filter: FilterBlockReader)
      requires CodecOk(c) && Holds(c, file, f.handle, f.contents) && handleValue == EncodeHandle(f.handle)
      ensures filter.policy == policy && filter.contents == f.contents && filter.Reads()
    {
      assert EncodeHandle(f.handle) + [] == EncodeHandle(f.handle);
      HandleRoundTrip(f.handle, []);
      var handle := DecodeHandle(handleValue);
      ReadsStored(c, verifyChecksums, file, f.handle, f.contents);
      var block := ReadBlock(c, verifyChecksums, file, handle.value.0);
      filter := new FilterBlockReader(policy, block.value);
    }

    /** An iterator on the data block that index entry j has the handle of. */
    method BlockReader(indexValue: Bytes, ghost j: nat) returns (it: Iter)
      requires Valid() && j < |parts.blocks| && indexValue == EncodeHandle(parts.blocks[j].handle)
      ensures fresh(it) && it.Valid() && it.layout == parts.blocks[j].layout && it.less == InternalLess
    {
      ghost var b := parts.blocks[j];
      assert ChunkOk(options.codec, file, b);
      assert EncodeHandle(b.handle) + [] == EncodeHandle(b.handle);
      HandleRoundTrip(b.handle, []);
      var handle := DecodeHandle(indexValue);
      ReadsStored(options.codec, verifyChecksums, file, b.handle, b.contents);
      var contents := ReadBlock(options.codec, verifyChecksums, file, handle.value.0);
      it := OpenBlock(InternalLess, contents.value, b.layout);
    }

    /** The entry reported for k: what a scan for the first entry from k on finds, if it has the user key of k. */
    method InternalGet(k: Bytes) returns (r: Option<KeyValue>)
      requires Valid() && |k| >= 8
      ensures AgreesWithScan(entries, k, r)
    {
      ghost var blocks, index := parts.blocks, parts.index.entries;
      BlocksNotEmpty(options.codec, file, blocks);
      IndexIncreases(blocks, index);
      InternalOrder();
      var indexIter := OpenBlock(InternalLess, indexBlock, parts.index);
      indexIter.Seek(k);
      ghost var j := indexIter.at;
      if !indexIter.IsValid() {
        NotFoundInIndex(blocks, index, k);
        return None;
      }
      var handleValue := indexIter.Entry().value;
      assert IndexEntryOk(blocks, j, index[j], None);
      var rejected := Rejected(handleValue, k, j);
      if rejected {
        r := None;
        RejectedLookup(options, file, entries, parts, k, j);
      } else {
        var blockIter := BlockReader(handleValue, j);
        KeysInBlock(blocks, j);
        blockIter.Seek(k);
        LookupInBlock(blocks, index, k, j, blockIter.at);
        r := if blockIter.IsValid() then Some(blockIter.Entry()) else None;
      }
    }

    /** Whether the filter says that k is not in the block. */
    method Rejected(handleValue: Bytes, k: Bytes, ghost j: nat) returns (r: bool)
      requires Valid() && |k| >= 8 && j < |parts.blocks| && handleValue == EncodeHandle(parts.blocks[j].handle)
      ensures r ==> parts.filter.Some? && options.policy.Some?
      ensures r ==> !MayMatch(options.policy.value, parts.filter.value.contents, parts.blocks[j].handle.offset, k)
    {
      r := false;
      if filter != null {
        ghost var h := parts.blocks[j].handle;
        assert EncodeHandle(h) + [] == EncodeHandle(h);
        HandleRoundTrip(h, []);
        var handle := DecodeHandle(handleValue);
        var mayMatch := filter.KeyMayMatch(handle.value.0.offset, k);
        r := !mayMatch;
      }
    }
  }

  lemma {:induction false} BlocksNotEmpty(c: Codec, file: Bytes, blocks: seq<Chunk>)
    requires ChunksOk(c, file, blocks)
    ensures NoneEmpty(blocks)
  {
    forall j | 0 <= j < |blocks|
      ensures blocks[j].layout.entries != []
    {
      assert ChunkOk(c, file, blocks[j]);
    }
  }

  lemma {:induction false} KeysInBlock(blocks: seq<Chunk>, j: nat)
    requires KeysOk(Flat(blocks)) && j < |blocks|
    ensures Increasing(InternalLess, blocks[j].layout.entries)
    ensures forall e <- blocks[j].layout.entries :: |e.key| >= 8
  {
    BlocksInOrder(blocks, j, j);
    KeysIncrease(blocks[j].layout.entries);
  }

  lemma {:induction false} LookupInBlock(blocks: seq<Chunk>, index: seq<KeyValue>, k: Bytes, j: nat, q: nat)
    requires NoneEmpty(blocks) && KeysOk(Flat(blocks)) && IndexOk(blocks, index, None) && |index| == |blocks|
    requires |k| >= 8
    requires IsSeek(InternalLess, index, k, j) && j < |blocks| && IsSeek(InternalLess, blocks[j].layout.entries, k, q)
    ensures AgreesWithScan(Flat(blocks), k,
            if q < |blocks[j].layout.entries| then Some(blocks[j].layout.entries[q]) else None)
  {
    if q < |blocks[j].layout.entries| {
      FoundInBlock(blocks, index, k, j, q);
    } else {
      NotFoundInBlock(blocks, index, k, j);
    }
  }

  /** Reporting nothing is right when the filter turns the key away. */
  lemma {:induction false} RejectedLookup(o: Options, file: Bytes, entries: seq<KeyValue>, t: Parts, k: Bytes, j: nat)
    requires IsTable(o, file, entries, t) && NoneEmpty(t.blocks) && |k| >= 8
    requires IsSeek(InternalLess, t.index.entries, k, j) && j < |t.blocks|
    requires t.filter.Some? && !MayMatch(o.policy.value, t.filter.value.contents, t.blocks[j].handle.offset, k)
    ensures AgreesWithScan(entries, k, None)
  {
    var block := t.blocks[j].layout.entries;
    KeysInBlock(t.blocks, j);
    var q := SeekPosition(block, k);
    LookupInBlock(t.blocks, t.index.entries, k, j, q);
    if q < |block| {
      assert block[q] in block;
      RejectedByFilter(o.policy.value, t.filter.value.contents, t.filter.value.lists, t.blocks, j, k, block[q]);
      OtherUserKey(entries, k, Some(block[q]));
    }
  }

  /** Every key has a place among increasing ones. */
  lemma {:induction false} SeekPosition(entries: seq<KeyValue>, k: Bytes) returns (q: nat)
    requires Increasing(InternalLess, entries)
    ensures IsSeek(InternalLess, entries, k, q)
  {
    q := 0;
    while q < |entries| && InternalLess(entries[q].key, k)
      invariant q <= |entries| && forall i | 0 <= i < q :: InternalLess(entries[i].key, k)
    {
      q := q + 1;
    }
    InternalOrder();
    SeekEnds(InternalLess, entries, k, q, q);
  }

  // ----- Built and looked up -----

  /** Bounds what an entry adds to the file, its index and its filters. */
  function Weight(o: Options, e: KeyValue): nat {
    3 * |e.key| + |e.value| + 90 + if o.policy.Some? then o.policy.value.bitsPerKey else 0
  }

  function TotalWeight(o: Options, entries: seq<KeyValue>): nat {
    if entries == [] then 0 else TotalWeight(o, entries[..|entries|-1]) + Weight(o, entries[|entries|-1])
  }

  lemma {:induction false} WeightCovers(o: Options, entries: seq<KeyValue>, n: nat)
    requires n < |entries|
    ensures TotalWeight(o, entries[..n+1]) == TotalWeight(o, entries[..n]) + Weight(o, entries[n])
    ensures TotalWeight(o, entries[..n+1]) <= TotalWeight(o, entries)
    decreases |entries|
  {
    assert entries[..n+1][..n] == entries[..n];
    if n + 1 == |entries| {
      assert entries[..n+1] == entries;
    } else {
      var front := entries[..|entries|-1];
      assert front[..n+1] == entries[..n+1] && front[..n] == entries[..n];
      WeightCovers(o, front, n);
    }
  }

  /** Adds the entries in order and finishes the file. */
  method BuildTable(o: Options, entries: seq<KeyValue>) returns (file: Bytes, ghost t: Parts)
    requires OptionsOk(o) && KeysOk(entries) && TotalWeight(o, entries) + 100 < ENTRY_LIMIT
    ensures IsTable(o, file, entries, t)
  {
    var builder := new TableBuilder(o);
    AddAll(builder, o, entries);
    t := builder.Finish();
    file := builder.file;
  }

  method AddAll(builder: TableBuilder, o: Options, entries: seq<KeyValue>)
    requires builder.Valid() && !builder.closed && builder.options == o && builder.state.entries == []
    requires builder.Size() == 16 && builder.FilterSize() == 0 && builder.lastKey == []
    requires KeysOk(entries) && TotalWeight(o, entries) + 100 < ENTRY_LIMIT
    modifies builder.Pieces()
    ensures builder.Valid() && !builder.closed && builder.state.entries == entries
    ensures builder.Size() + |builder.lastKey| < ENTRY_LIMIT && builder.FilterSize() < ENTRY_LIMIT
  {
    var i := 0;
    while i < |entries|
      invariant i <= |entries| && builder.Valid() && !builder.closed && builder.state.entries == entries[..i]
      invariant builder.Size() + |builder.lastKey| <= 16 + TotalWeight(o, entries[..i])
      invariant builder.FilterSize() <= TotalWeight(o, entries[..i])
      invariant i > 0 ==> builder.lastKey == entries[i-1].key
    {
      WeightCovers(o, entries, i);
      KeysAround(entries, i);
      assert entries[..i+1] == entries[..i] + [entries[i]];
      builder.Add(entries[i].key, entries[i].value);
      i := i + 1;
    }
    assert entries[..i] == entries;
  }

  lemma {:induction false} KeysAround(entries: seq<KeyValue>, i: nat)
    requires KeysOk(entries) && i < |entries|
    ensures 8 <= |entries[i].key| && (i > 0 ==> InternalLess(entries[i-1].key, entries[i].key))
  {
    assert InOrder(entries, i, i) && (i > 0 ==> InOrder(entries, i - 1, i));
  }

  /** A table of any increasing keys, whatever the block size, restart interval and filter, answers as a scan does. */
  method BuildAndGet(o: Options, entries: seq<KeyValue>, verifyChecksums: bool, k: Bytes) returns (r: Option<KeyValue>)
    requires OptionsOk(o) && CodecOk(o.codec) && KeysOk(entries) && TotalWeight(o, entries) + 100 < ENTRY_LIMIT
    requires |k| >= 8
    ensures AgreesWithScan(entries, k, r)
    ensures forall i | IsSeek(InternalLess, entries, k, i) && i < |entries| && |entries[i].key| >= 8 ::
              ExtractUserKey(entries[i].key) == ExtractUserKey(k) ==> r == Some(entries[i])
  {
    var file, t := BuildTable(o, entries);
    var table := Table.Open(o, verifyChecksums, file, entries, t);
    r := table.InternalGet(k);
    KeysIncrease(entries);
    forall i | IsSeek(InternalLess, entries, k, i) && i < |entries| && |entries[i].key| >= 8
      ensures ExtractUserKey(entries[i].key) == ExtractUserKey(k) ==> r == Some(entries[i])
    {
      ScanFindsFirst(entries, k, i);
    }
  }
}
