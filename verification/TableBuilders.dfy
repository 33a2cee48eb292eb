/**
 The builder of table files: entries added in order end up in data blocks, each with an
 index entry that separates it from the next and a filter that admits its keys.
 */
module TableBuilders {
  import opened Wrappers
  import opened Comparator
  import opened Codings
  import opened InternalKeys
  import opened Blocks
  import opened FilterBlocks
  import opened TableFormats
  import opened Tables

  datatype Options = Options(blockSize: nat, interval: nat, policy: Option<Policy>, filterKey: Bytes, codec: Codec)

  const ENTRY_LIMIT: nat := 0x4000_0000
  const FILE_LIMIT: nat := TWO_TO_64 / 2

  ghost predicate OptionsOk(o: Options) {
    && o.interval >= 1 && o.blockSize < ENTRY_LIMIT && |o.filterKey| < ENTRY_LIMIT
    && (o.policy.Some? ==> PolicyOk(o.policy.value))
  }

  // ----- What a builder has written and is about to -----

  function Next(data: seq<KeyValue>): Option<Bytes> {
    if data == [] then None else Some(data[0].key)
  }

  /**
   What there is of a table: the file, its blocks, all entries added, those of the block
   being filled, the index, the key the last written block is followed by, the last key,
   the index entry still to be written, and the key lists of the filter.
   */
  datatype State = State(
    codec: Codec, file: Bytes, blocks: seq<Chunk>, entries: seq<KeyValue>, data: seq<KeyValue>,
    index: seq<KeyValue>, next: Option<Bytes>, lastKey: Bytes, pending: Option<BlockHandle>,
    lists: Option<seq<seq<Bytes>>>)

  type Built = s: State | forall p: Part {:trigger PartOk(p, s)} :: PartOk(p, s) ghost witness EMPTY_STATE

  const NO_CODEC: Codec := Codec(_ => 0, _ => None, _ => None)

  const EMPTY_STATE: State := State(NO_CODEC, [], [], [], [], [], None, [], None, None)

  /** What there is to know of a state, piece by piece. */
  datatype Part = FileBlocks | EntriesAdded | LastAdded | IndexWritten | IndexPending | FilterKeys

  /**
   The entries added are those of the written blocks and of the block being filled; the
   index has an entry for each written block but, while one is pending, the last.
   */
  ghost predicate PartOk(p: Part, s: State) {
    match p
    case FileBlocks => ChunksOk(s.codec, s.file, s.blocks)
    case EntriesAdded => s.entries == Flat(s.blocks) + s.data && KeysOk(s.entries)
    case LastAdded => s.entries != [] ==> s.lastKey == s.entries[|s.entries|-1].key
    case IndexWritten => IndexOk(s.blocks, s.index, s.next)
        && |s.index| == |s.blocks| - (if s.pending.Some? then 1 else 0)
    case IndexPending => s.pending.Some? ==> s.blocks != [] && s.pending.value == s.blocks[|s.blocks|-1].handle
    case FilterKeys => s.lists.Some? ==> Filtered(s.lists.value, s.blocks, s.data, |s.file|)
  }

  /** The filter being filled is that of the next block; keys of earlier blocks have theirs. */
  ghost predicate Filtered(lists: seq<seq<Bytes>>, blocks: seq<Chunk>, data: seq<KeyValue>, offset: nat) {
    && |lists| == offset / FILTER_BASE + 1
    && Covered(lists, blocks)
    && forall e {:trigger InList(lists, offset, e.key)} | e in data :: InList(lists, offset, e.key)
  }

  lemma {:induction false} NothingBuilt(codec: Codec, lists: Option<seq<seq<Bytes>>>) returns (s: Built)
    requires lists == None || lists == Some([[]])
    ensures s == EMPTY_STATE.(codec := codec, lists := lists)
  {
    s := EMPTY_STATE.(codec := codec, lists := lists);
  }

  lemma {:induction false} LastOfFlat(s: Built)
    requires s.blocks != [] && s.data == []
    ensures s.entries != [] && s.lastKey == LastKey(s.blocks[|s.blocks|-1].layout) && 8 <= |s.lastKey| < TWO_TO_32
  {
    assert PartOk(FileBlocks, s) && PartOk(EntriesAdded, s) && PartOk(LastAdded, s);
    assert s.entries == Flat(s.blocks);
    assert ChunkOk(s.codec, s.file, s.blocks[|s.blocks|-1]);
    assert InOrder(s.entries, |s.entries| - 1, |s.entries| - 1);
  }

  /** The pending index entry, with a key that separates the last block from the key to come. */
  lemma {:induction false} IndexEntryAdded(s: Built, next: Option<Bytes>, key: Bytes) returns (s': Built)
    requires s.pending.Some? && s.data == [] && s.next == None
    requires if next.Some? then IsSeparator(s.lastKey, next.value, key) else IsSuccessor(s.lastKey, key)
    ensures s' == s.(index := s.index + [KeyValue(key, EncodeHandle(s.pending.value))], next := next, pending := None)
  {
    var t := s.(index := s.index + [KeyValue(key, EncodeHandle(s.pending.value))], next := next, pending := None);
    forall p: Part
      ensures PartOk(p, t)
    {
      assert PartOk(p, s);
      if p == IndexWritten {
        assert PartOk(IndexPending, s);
        LastOfFlat(s);
        IndexGrows(s.blocks, s.index, next, key);
      }
    }
    s' := t;
  }

  /** One more entry in the block being filled, and one more key in the filter. */
  lemma {:induction false} EntryAdded(s: Built, e: KeyValue, lists: Option<seq<seq<Bytes>>>) returns (s': Built)
    requires s.pending == None && (s.data != [] || s.blocks == [] || s.next == Some(e.key))
    requires s.data != [] ==> s.next == Next(s.data)
    requires 8 <= |e.key| < TWO_TO_32 && (s.entries != [] ==> InternalLess(s.lastKey, e.key))
    requires s.lists.Some? <==> lists.Some?
    requires lists.Some? ==> KeyAppended(s.lists.value, lists.value, e.key)
    ensures s' == s.(entries := s.entries + [e], data := s.data + [e], next := Next(s.data + [e]), lastKey := e.key,
            lists := lists)
  {
    var t := s.(entries := s.entries + [e], data := s.data + [e], next := Next(s.data + [e]), lastKey := e.key,
        lists := lists);
    forall p: Part
      ensures PartOk(p, t)
    {
      assert PartOk(p, s);
      if p == EntriesAdded {
        assert PartOk(LastAdded, s);
        Regroup(Flat(s.blocks), s.data, [e]);
        KeysOkMore(s.entries, s.lastKey, e);
      } else if p == FilterKeys && lists.Some? {
        KeyFiltered(s.lists.value, lists.value, s.blocks, s.data, |s.file|, e);
      }
    }
    s' := t;
  }

  /** The filter for a later offset is not yet past. */
  lemma {:induction false} FilterAhead(s: Built, offset: nat)
    requires offset >= |s.file|
    ensures s.lists.Some? ==> |s.lists.value| <= offset / FILTER_BASE + 1
  {
    assert PartOk(FilterKeys, s);
  }

  lemma {:induction false} KeysOkMore(entries: seq<KeyValue>, lastKey: Bytes, e: KeyValue)
    requires KeysOk(entries) && (entries != [] ==> lastKey == entries[|entries|-1].key && InternalLess(lastKey, e.key))
    requires 8 <= |e.key| < TWO_TO_32
    ensures KeysOk(entries + [e])
  {
    var n := |entries|;
    forall i, j | 0 <= i <= j <= n
      ensures InOrder(entries + [e], i, j)
    {
      if j < n {
        assert InOrder(entries, i, j);
      } else if i < n {
        assert InOrder(entries, i, n - 1);
        if i < n - 1 {
          InternalLessTransitive(entries[i].key, lastKey, e.key);
        }
      }
    }
  }

  /** The last list has one more key. */
  ghost predicate KeyAppended(lists: seq<seq<Bytes>>, lists': seq<seq<Bytes>>, key: Bytes) {
    && |lists| == |lists'| > 0 && lists[..|lists|-1] == lists'[..|lists|-1]
    && lists'[|lists|-1] == lists[|lists|-1] + [key]
  }

  lemma {:induction false} KeyFiltered(lists: seq<seq<Bytes>>, lists': seq<seq<Bytes>>, blocks: seq<Chunk>,
                                       data: seq<KeyValue>, offset: nat, e: KeyValue)
    requires Filtered(lists, blocks, data, offset) && KeyAppended(lists, lists', e.key)
    ensures Filtered(lists', blocks, data + [e], offset)
  {
    assert forall f | 0 <= f < |lists| - 1 :: lists[f] == lists[..|lists|-1][f] && lists'[f] == lists'[..|lists|-1][f];
    StillCovered(lists, lists', blocks);
    forall x | x in data + [e]
      ensures InList(lists', offset, x.key)
    {
      if x in data {
        assert InList(lists, offset, x.key);
      }
    }
  }

  /** The block being filled is written; its index entry is pending and the next block has a filter to go to. */
  lemma {:induction false} BlockAdded(s: Built, file: Bytes, b: Chunk, lists: Option<seq<seq<Bytes>>>)
    returns (s': Built)
    requires s.pending == None && s.data != [] && s.next == Next(s.data)
    requires s.file <= file && ChunkOk(s.codec, file, b) && b.layout.entries == s.data
    requires b.handle.offset == |s.file| && (s.lists.Some? <==> lists.Some?)
    requires lists.Some? ==> s.lists.value <= lists.value && |lists.value| == |file| / FILTER_BASE + 1
    ensures s' == s.(file := file, blocks := s.blocks + [b], data := [], next := None, pending := Some(b.handle),
            lists := lists)
  {
    var t := s.(file := file, blocks := s.blocks + [b], data := [], next := None, pending := Some(b.handle),
        lists := lists);
    forall p: Part
      ensures PartOk(p, t)
    {
      assert PartOk(p, s);
      if p == FileBlocks {
        ChunksStay(s.codec, s.file, file, s.blocks);
      } else if p == EntriesAdded {
        FlatAppend(s.blocks, b);
        assert Flat(t.blocks) + [] == Flat(t.blocks);
      } else if p == IndexWritten {
        IndexAwaits(s.blocks, s.index, b);
      } else if p == FilterKeys && lists.Some? {
        BlockFiltered(s.lists.value, lists.value, s.blocks, |s.file|, |file|, b);
      }
    }
    s' := t;
  }

  lemma {:induction false} ChunksStay(c: Codec, file: Bytes, file': Bytes, blocks: seq<Chunk>)
    requires ChunksOk(c, file, blocks) && file <= file'
    ensures ChunksOk(c, file', blocks)
  {
    forall j | 0 <= j < |blocks|
      ensures ChunkOk(c, file', blocks[j])
    {
      assert ChunkOk(c, file, blocks[j]);
      HoldsLater(c, file, file', blocks[j].handle, blocks[j].contents);
    }
  }

  lemma {:induction false} HoldsLater(c: Codec, file: Bytes, file': Bytes, h: BlockHandle, contents: Bytes)
    requires Holds(c, file, h, contents) && file <= file'
    ensures Holds(c, file', h, contents)
  {
    assert file' == file + file'[|file|..];
    HoldsInLonger(c, file, file'[|file|..], h, contents);
  }

  lemma {:induction false} StillCovered(lists: seq<seq<Bytes>>, lists': seq<seq<Bytes>>, blocks: seq<Chunk>)
    requires Covered(lists, blocks) && |lists| <= |lists'|
    requires forall f | 0 <= f < |lists| :: forall key <- lists[f] :: key in lists'[f]
    ensures Covered(lists', blocks)
  {
    forall j, e | 0 <= j < |blocks| && e in blocks[j].layout.entries
      ensures InList(lists', blocks[j].handle.offset, e.key)
    {
      assert InList(lists, blocks[j].handle.offset, e.key);
    }
  }

  /** A written block is covered by the list its keys went to; the next block has an empty one. */
  lemma {:induction false} BlockFiltered(lists: seq<seq<Bytes>>, lists': seq<seq<Bytes>>, blocks: seq<Chunk>,
                                         offset: nat, offset': nat, b: Chunk)
    requires Filtered(lists, blocks, b.layout.entries, offset) && b.handle.offset == offset
    requires lists <= lists' && |lists'| == offset' / FILTER_BASE + 1
    ensures Filtered(lists', blocks + [b], [], offset')
  {
    assert forall f | 0 <= f < |lists| :: lists'[f] == lists[f];
    StillCovered(lists, lists', blocks);
    forall j, e | 0 <= j < |blocks + [b]| && e in (blocks + [b])[j].layout.entries
      ensures InList(lists', (blocks + [b])[j].handle.offset, e.key)
    {
      if j < |blocks| {
        assert e in blocks[j].layout.entries;
        assert InList(lists', blocks[j].handle.offset, e.key);
      } else {
        assert InList(lists, offset, e.key);
      }
    }
  }

  /** Finishing the filter drops a last list without keys; every block stays covered. */
  lemma {:induction false} BlocksFiltered(s: Built, lists: seq<seq<Bytes>>, pending: seq<Bytes>)
    requires s.lists == Some(lists + [pending])
    ensures |lists| == |s.file| / FILTER_BASE
    ensures Covered(if pending == [] then lists else lists + [pending], s.blocks)
  {
    assert PartOk(FilterKeys, s);
    if pending == [] {
      forall j, e | 0 <= j < |s.blocks| && e in s.blocks[j].layout.entries
        ensures InList(lists, s.blocks[j].handle.offset, e.key)
      {
        assert InList(lists + [[]], s.blocks[j].handle.offset, e.key);
      }
    }
  }

  // ----- Finished tables -----

  datatype FilterPart = FilterPart(handle: BlockHandle, contents: Bytes, lists: seq<seq<Bytes>>)

  datatype Parts = Parts(
    blocks: seq<Chunk>,
    index: Layout, indexContents: Bytes, indexHandle: BlockHandle,
    meta: Layout, metaContents: Bytes, metaHandle: BlockHandle,
    filter: Option<FilterPart>)

  function MetaEntries(o: Options, filter: Option<FilterPart>): seq<KeyValue> {
    if filter.Some? then [KeyValue(o.filterKey, EncodeHandle(filter.value.handle))] else []
  }

  ghost predicate FilterPartOk(o: Options, file: Bytes, blocks: seq<Chunk>, filter: Option<FilterPart>) {
    && (o.policy.Some? <==> filter.Some?)
    && (filter.Some? ==>
          && Holds(o.codec, file, filter.value.handle, filter.value.contents)
          && IsFilterBlock(o.policy.value, filter.value.contents, filter.value.lists)
          && Covered(filter.value.lists, blocks))
  }

  ghost predicate IndexPartOk(o: Options, file: Bytes, t: Parts) {
    && Holds(o.codec, file, t.indexHandle, t.indexContents) && IsBlock(t.indexContents, t.index)
    && IndexOk(t.blocks, t.index.entries, None) && |t.index.entries| == |t.blocks|
  }

  ghost predicate MetaPartOk(o: Options, file: Bytes, t: Parts) {
    && Holds(o.codec, file, t.metaHandle, t.metaContents) && IsBlock(t.metaContents, t.meta)
    && t.meta.entries == MetaEntries(o, t.filter)
  }

  /** A file that holds a table of these entries. */
  ghost predicate IsTable(o: Options, file: Bytes, entries: seq<KeyValue>, t: Parts) {
    && entries == Flat(t.blocks) && KeysOk(entries) && ChunksOk(o.codec, file, t.blocks)
    && FilterPartOk(o, file, t.blocks, t.filter) && MetaPartOk(o, file, t) && IndexPartOk(o, file, t)
    && |file| >= FOOTER_LENGTH && file[|file| - FOOTER_LENGTH..] == EncodeFooter(t.metaHandle, t.indexHandle)
  }

  /** Everything written stays in the file while the parts after it are added. */
  lemma {:induction false} TableFinished(o: Options, s: Built, file1: Bytes, file2: Bytes, file3: Bytes, file: Bytes,
                                         t: Parts)
    requires s.codec == o.codec && s.data == [] && t.blocks == s.blocks
    requires s.file <= file1 && file1 <= file2 && file2 <= file3
    requires file == file3 + EncodeFooter(t.metaHandle, t.indexHandle)
    requires FilterPartOk(o, file1, t.blocks, t.filter) && MetaPartOk(o, file2, t) && IndexPartOk(o, file3, t)
    ensures IsTable(o, file, s.entries, t)
  {
    assert PartOk(FileBlocks, s) && PartOk(EntriesAdded, s);
    assert s.entries == Flat(t.blocks);
    PrefixTransitive(file2, file3, file);
    PrefixTransitive(file1, file2, file);
    PrefixTransitive(s.file, file1, file);
    ChunksStay(o.codec, s.file, file, s.blocks);
    HoldsLater(o.codec, file2, file, t.metaHandle, t.metaContents);
    HoldsLater(o.codec, file3, file, t.indexHandle, t.indexContents);
    if t.filter.Some? {
      HoldsLater(o.codec, file1, file, t.filter.value.handle, t.filter.value.contents);
    }
  }

  lemma {:induction false} PrefixTransitive(a: Bytes, b: Bytes, c: Bytes)
    requires a <= b && b <= c
    ensures a <= c
  {
  }

  /** Once nothing is pending, the index is whole. */
  lemma {:induction false} IndexWhole(s: Built)
    requires s.pending == None && s.next == None
    ensures IndexOk(s.blocks, s.index, None) && |s.index| == |s.blocks|
  {
    assert PartOk(IndexWritten, s);
  }

  // ----- The builder -----

  class TableBuilder {
    const options: Options
    const dataBlock: BlockBuilder
    const indexBlock: BlockBuilder
    const filterBlock: FilterBlockBuilder?
    var file: Bytes
    var offset: nat
    var lastKey: Bytes
    var numEntries: nat
    var closed: bool
    var pendingIndexEntry: bool
    var pendingHandle: BlockHandle
    ghost var state: Built

    ghost function Pieces(): set<object> {
      {this, dataBlock, indexBlock} + FilterPiece()
    }

    ghost function FilterPiece(): set<object> {
      if filterBlock != null then {filterBlock} else {}
    }

    ghost predicate Valid()
      reads Pieces()
    {
      && Owned() && Represents()
      && offset < TWO_TO_64 && dataBlock.CurrentSizeEstimate() <= options.blockSize + 8
      && (pendingIndexEntry <==> state.blocks != [] && state.data == [])
      && state.next == Next(state.data)
    }

    ghost predicate Owned()
      reads Pieces()
    {
      BlocksOwned() && FilterOwned()
    }

    ghost predicate BlocksOwned()
      reads this, dataBlock, indexBlock
    {
      && OptionsOk(options) && dataBlock != indexBlock
      && dataBlock.Valid() && !dataBlock.finished && dataBlock.interval == options.interval
      && indexBlock.Valid() && !indexBlock.finished && indexBlock.interval == 1
    }

    ghost predicate FilterOwned()
      reads FilterPiece()
    {
      && (filterBlock != null <==> options.policy.Some?)
      && (filterBlock != null ==> filterBlock.Valid() && filterBlock.policy == options.policy.value)
    }

    /** The fields are those of the state. */
    ghost predicate Represents()
      reads Pieces()
    {
      && IndexRepresents()
      && state.codec == options.codec && state.file == file && offset == |file|
      && state.data == dataBlock.layout.entries && numEntries == |state.entries|
      && state.lists == FilterLists()
    }

    ghost function FilterLists(): Option<seq<seq<Bytes>>>
      reads FilterPiece()
    {
      if filterBlock != null then Some(filterBlock.Lists()) else None
    }

    ghost predicate IndexRepresents()
      reads this, indexBlock
    {
      && state.index == indexBlock.layout.entries && state.lastKey == lastKey
      && state.pending == (if pendingIndexEntry then Some(pendingHandle) else None)
    }

    /** Bounds the file and the index as they are, and as they will be when the pending index entry is written. */
    ghost function Size(): nat
      reads Pieces()
    {
      offset + dataBlock.CurrentSizeEstimate() + indexBlock.CurrentSizeEstimate() + if pendingIndexEntry
          then |lastKey| + 39 else 0
    }

    ghost function FilterSize(): nat
      reads FilterPiece()
    {
      if filterBlock != null then filterBlock.FinalSize() else 0
    }

    constructor (options: Options)
      requires OptionsOk(options)
      ensures Valid() && fresh(Pieces()) && !closed && state.entries == [] && this.options == options && file == []
      ensures Size() == 16 && FilterSize() == 0 && lastKey == []
    {
      this.options := options;
      dataBlock := new BlockBuilder(options.interval);
      indexBlock := new BlockBuilder(1);
      file, offset, lastKey, numEntries, closed := [], 0, [], 0, false;
      pendingIndexEntry, pendingHandle := false, BlockHandle(0, 0);
      if options.policy.Some? {
        filterBlock := new FilterBlockBuilder(options.policy.value);
      } else {
        filterBlock := null;
      }
      new;
      if filterBlock != null {
        filterBlock.StartBlock(0);
        assert filterBlock.Lists() == [[]];
      }
      state := NothingBuilt(options.codec, if filterBlock != null then Some([[]]) else None);
    }

    /** The index entry is written when the key after the block is known: a shorter key may do. */
    method Add(key: Bytes, value: Bytes)
      requires Valid() && !closed && offset < FILE_LIMIT
      requires 8 <= |key| && |key| + |value| < ENTRY_LIMIT
      requires numEntries > 0 ==> InternalLess(lastKey, key)
      modifies Pieces()
      ensures Valid() && !closed && state.entries == old(state.entries) + [KeyValue(key, value)]
      ensures Size() <= old(Size()) + 2 * |key| + |value| + 80 && lastKey == key
      ensures FilterSize() <= old(FilterSize()) + KeyBits() + 10
    {
      AddToBlock(key, value);
      if dataBlock.CurrentSizeEstimate() >= options.blockSize {
        Flush();
      }
    }

    method AddToBlock(key: Bytes, value: Bytes)
      requires Valid() && 8 <= |key| && |key| + |value| < ENTRY_LIMIT
      requires numEntries > 0 ==> InternalLess(lastKey, key)
      modifies this`lastKey, this`numEntries, this`state, this`pendingIndexEntry, dataBlock, indexBlock, FilterPiece()
      ensures Owned() && Represents() && !pendingIndexEntry && state.data != [] && state.next == Next(state.data)
      ensures state.entries == old(state.entries) + [KeyValue(key, value)] && lastKey == key
      ensures dataBlock.CurrentSizeEstimate() <= old(dataBlock.CurrentSizeEstimate()) + |key| + |value| + 19
      ensures indexBlock.CurrentSizeEstimate() <= old(indexBlock.CurrentSizeEstimate() + if pendingIndexEntry
              then |lastKey| + 39 else 0)
      ensures FilterSize() <= old(FilterSize()) + KeyBits() + 10
    {
      if pendingIndexEntry {
        LastOfFlat(state);
        var separator := FindShortestInternalSeparator(lastKey, key);
        AddIndexEntry(separator, Some(key));
      }
      AddEntry(key, value);
    }

    method AddIndexEntry(key: Bytes, ghost next: Option<Bytes>)
      requires BlocksOwned() && IndexRepresents() && pendingIndexEntry && state.data == [] && state.next == None
      requires |key| < TWO_TO_32
      requires if next.Some? then IsSeparator(lastKey, next.value, key) else IsSuccessor(lastKey, key)
      modifies this`pendingIndexEntry, this`state, indexBlock
      ensures BlocksOwned() && IndexRepresents() && !pendingIndexEntry
      ensures state == old(state).(index := state.index, next := next, pending := None)
      ensures indexBlock.CurrentSizeEstimate() <= old(indexBlock.CurrentSizeEstimate()) + |key| + 39
    {
      state := IndexEntryAdded(state, next, key);
      indexBlock.Add(key, EncodeHandle(pendingHandle));
      pendingIndexEntry := false;
    }

    method AddEntry(key: Bytes, value: Bytes)
      requires Owned() && Represents() && !pendingIndexEntry && 8 <= |key| && |key| + |value| < ENTRY_LIMIT
      requires state.entries != [] ==> InternalLess(lastKey, key)
      requires state.data != [] || state.blocks == [] || state.next == Some(key)
      requires state.data != [] ==> state.next == Next(state.data)
      modifies this`lastKey, this`numEntries, this`state, dataBlock, FilterPiece()
      ensures Owned() && Represents()
      ensures state.entries == old(state.entries) + [KeyValue(key, value)] && state.next == Next(state.data)
      ensures state.data == old(state.data) + [KeyValue(key, value)] && state.blocks == old(state.blocks)
      ensures dataBlock.CurrentSizeEstimate() <= old(dataBlock.CurrentSizeEstimate()) + |key| + |value| + 19
      ensures lastKey == key && FilterSize() <= old(FilterSize()) + KeyBits() + 10
    {
      AddFilterKey(key);
      state := EntryAdded(state, KeyValue(key, value), FilterLists());
      lastKey := key;
      numEntries := numEntries + 1;
      dataBlock.Add(key, value);
    }

    function KeyBits(): nat {
      if options.policy.Some? then options.policy.value.bitsPerKey else 0
    }

    method AddFilterKey(key: Bytes)
      requires FilterOwned() && |key| >= 8
      modifies FilterPiece()
      ensures FilterOwned() && (FilterLists().Some? <==> old(FilterLists()).Some?)
      ensures FilterLists().Some? ==> KeyAppended(old(FilterLists()).value, FilterLists().value, key)
      ensures FilterSize() <= old(FilterSize()) + KeyBits() + 10
    {
      if filterBlock != null {
        filterBlock.AddKey(key);
      }
    }

    method StartFilter()
      requires FilterOwned() && (FilterLists().Some? ==> |FilterLists().value| <= offset / FILTER_BASE + 1)
      modifies FilterPiece()
      ensures FilterOwned() && (FilterLists().Some? <==> old(FilterLists()).Some?)
      ensures FilterLists().Some? ==> old(FilterLists()).value <= FilterLists().value
      ensures FilterLists().Some? ==> |FilterLists().value| == offset / FILTER_BASE + 1
      ensures FilterSize() == old(FilterSize())
    {
      if filterBlock != null {
        filterBlock.StartBlock(offset);
      }
    }

    /** Writes the block being filled, if it has entries; its index entry is pending then. */
    method Flush()
      requires Owned() && Represents() && offset < FILE_LIMIT && dataBlock.CurrentSizeEstimate() < TWO_TO_32
      requires (state.data != [] ==> !pendingIndexEntry) && state.next == Next(state.data)
      modifies this`file, this`offset, this`state, this`pendingIndexEntry, this`pendingHandle, dataBlock, FilterPiece()
      ensures Owned() && Represents() && state.data == [] && state.next == None
      ensures state.entries == old(state.entries) && FilterSize() == old(FilterSize())
      ensures offset <= old(offset + dataBlock.CurrentSizeEstimate()) + BLOCK_TRAILER_SIZE
      ensures old(state.data) != [] ==> pendingIndexEntry && state.blocks != [] && dataBlock.CurrentSizeEstimate() == 8
      ensures old(state.data) == [] ==> state == old(state) && pendingIndexEntry == old(pendingIndexEntry)
                                        && dataBlock.CurrentSizeEstimate() == old(dataBlock.CurrentSizeEstimate())
    {
      if !dataBlock.Empty() {
        FlushBlock();
      }
    }

    /** Writes the block being filled. */
    method FlushBlock()
      requires Owned() && Represents() && offset < FILE_LIMIT && dataBlock.CurrentSizeEstimate() < TWO_TO_32
      requires state.data != [] && !pendingIndexEntry && state.next == Next(state.data)
      modifies this`file, this`offset, this`state, this`pendingIndexEntry, this`pendingHandle, dataBlock, FilterPiece()
      ensures Owned() && Represents() && state.data == [] && state.next == None
      ensures state.entries == old(state.entries) && FilterSize() == old(FilterSize())
      ensures offset <= old(offset + dataBlock.CurrentSizeEstimate()) + BLOCK_TRAILER_SIZE
      ensures pendingIndexEntry && state.blocks != [] && dataBlock.CurrentSizeEstimate() == 8
    {
      ghost var l := dataBlock.layout;
      var handle, contents := WriteBlock(dataBlock);
      pendingHandle := handle;
      pendingIndexEntry := true;
      FilterAhead(state, offset);
      StartFilter();
      state := BlockAdded(state, file, Chunk(handle, contents, l), FilterLists());
    }

    /** Finishes a block, compresses it if that saves an eighth, writes it and starts it anew. */
    method WriteBlock(block: BlockBuilder) returns (handle: BlockHandle, contents: Bytes)
      requires block.Valid() && !block.finished && block.CurrentSizeEstimate() < TWO_TO_32
      requires offset == |file| && offset < TWO_TO_64
      modifies this`file, this`offset, block
      ensures block.Valid() && !block.finished && block.layout == EMPTY_LAYOUT && block.CurrentSizeEstimate() == 8
      ensures IsBlock(contents, old(block.layout)) && Holds(options.codec, file, handle, contents)
      ensures handle.offset == old(offset) && offset == |file|
      ensures offset <= old(offset + block.CurrentSizeEstimate()) + BLOCK_TRAILER_SIZE
      ensures old(file) <= file
    {
      contents := block.Finish();
      var (stored, kind) := Stored(options.codec, contents);
      handle := WriteRawBlock(stored, kind);
      block.Reset();
    }

    method WriteRawBlock(stored: Bytes, kind: byte) returns (handle: BlockHandle)
      requires offset == |file| && offset < TWO_TO_64 && |stored| < TWO_TO_64
      modifies this`file, this`offset
      ensures StoredAt(options.codec, file, handle, stored, kind)
      ensures handle.offset == old(offset) && offset == |file| && offset == old(offset) + |stored| + BLOCK_TRAILER_SIZE
      ensures old(file) <= file
    {
      handle := BlockHandle(offset, |stored|);
      AppendedBlock(options.codec, file, stored, kind, handle);
      file := file + stored;
      file := file + Trailer(options.codec, stored, kind);
      offset := offset + (|stored| + BLOCK_TRAILER_SIZE);
    }

    /** Writes what is left of the data, the filter, metaindex and index blocks, and the footer. */
    method Finish() returns (ghost t: Parts)
      requires Valid() && !closed && offset < FILE_LIMIT
      requires indexBlock.CurrentSizeEstimate() + |lastKey| + 40 < TWO_TO_32
      requires FilterSize() < TWO_TO_32
      modifies Pieces()
      ensures closed && IsTable(options, file, old(state.entries), t)
    {
      Flush();
      closed := true;
      var filterHandle, filter := WriteFilter();
      t := WriteIndexes(filterHandle, filter);
    }

    method WriteIndexes(filterHandle: BlockHandle, ghost filter: Option<FilterPart>) returns (ghost t: Parts)
      requires BlocksOwned() && IndexRepresents() && state.data == [] && state.next == None
      requires state.codec == options.codec && state.file <= file && offset == |file| < TWO_TO_64 - 4 * TWO_TO_32
      requires pendingIndexEntry <==> state.blocks != []
      requires indexBlock.CurrentSizeEstimate() + |lastKey| + 40 < TWO_TO_32
      requires filter.Some? <==> filterBlock != null
      requires filter.Some? ==> filter.value.handle == filterHandle
      requires FilterPartOk(options, file, state.blocks, filter)
      modifies this`file, this`offset, this`pendingIndexEntry, this`state, indexBlock
      ensures IsTable(options, file, old(state.entries), t)
    {
      ghost var s0: Built, file1 := state, file;
      var metaHandle, metaContents, meta := WriteMetaIndex(filterHandle, filter);
      ghost var file2 := file;
      var indexHandle, indexContents, index := WriteIndex();
      ghost var file3 := file;
      var footer := EncodeFooter(metaHandle, indexHandle);
      file := file + footer;
      offset := offset + |footer|;
      t := Parts(s0.blocks, index, indexContents, indexHandle, meta, metaContents, metaHandle, filter);
      TableFinished(options, s0, file1, file2, file3, file, t);
    }

    method WriteFilter() returns (handle: BlockHandle, ghost filter: Option<FilterPart>)
      requires Owned() && Represents() && state.data == [] && offset <= FILE_LIMIT + TWO_TO_32 + BLOCK_TRAILER_SIZE
      requires FilterSize() < TWO_TO_32
      modifies this`file, this`offset, FilterPiece()
      ensures BlocksOwned() && old(file) <= file && offset == |file| < TWO_TO_64 - 4 * TWO_TO_32
      ensures FilterPartOk(options, file, state.blocks, filter)
      ensures (filter.Some? <==> filterBlock != null) && (filter.Some? ==> filter.value.handle == handle)
    {
      if filterBlock != null {
        BlocksFiltered(state, filterBlock.lists, filterBlock.pending);
        var contents := filterBlock.Finish();
        handle := WriteRawBlock(contents, NO_COMPRESSION);
        filter := Some(FilterPart(handle, contents, filterBlock.lists));
      } else {
        handle, filter := BlockHandle(0, 0), None;
      }
    }

    /** The metaindex block says where the filter block is. */
    method WriteMetaIndex(filterHandle: BlockHandle, ghost filter: Option<FilterPart>)
      returns (handle: BlockHandle, ghost contents: Bytes, ghost meta: Layout)
      requires BlocksOwned() && offset == |file| < TWO_TO_64 - 4 * TWO_TO_32
      requires filter.Some? <==> filterBlock != null
      requires filter.Some? ==> filter.value.handle == filterHandle
      modifies this`file, this`offset
      ensures old(file) <= file && offset == |file| < TWO_TO_64 - 2 * TWO_TO_32
      ensures Holds(options.codec, file, handle, contents) && IsBlock(contents, meta)
      ensures meta.entries == MetaEntries(options, filter)
    {
      var metaIndexBlock := new BlockBuilder(options.interval);
      if filterBlock != null {
        metaIndexBlock.Add(options.filterKey, EncodeHandle(filterHandle));
      }
      meta := metaIndexBlock.layout;
      handle, contents := WriteBlock(metaIndexBlock);
    }

    /** The last block's index entry has a key that is a successor of its last key. */
    method WriteIndex() returns (handle: BlockHandle, ghost contents: Bytes, ghost index: Layout)
      requires BlocksOwned() && IndexRepresents() && state.data == [] && state.next == None
      requires offset == |file| < TWO_TO_64 - 2 * TWO_TO_32
      requires pendingIndexEntry <==> state.blocks != []
      requires indexBlock.CurrentSizeEstimate() + |lastKey| + 40 < TWO_TO_32
      modifies this`file, this`offset, this`pendingIndexEntry, this`state, indexBlock
      ensures old(file) <= file && offset == |file|
      ensures Holds(options.codec, file, handle, contents) && IsBlock(contents, index)
      ensures IndexOk(old(state.blocks), index.entries, None) && |index.entries| == |old(state.blocks)|
    {
      if pendingIndexEntry {
        LastOfFlat(state);
        var successor := FindShortInternalSuccessor(lastKey);
        AddIndexEntry(successor, None);
      }
      IndexWhole(state);
      index := indexBlock.layout;
      handle, contents := WriteBlock(indexBlock);
    }
  }
}
