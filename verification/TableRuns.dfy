/**
 The bytes of a table answer as the run of entries it stands for: entries are written
 under their internal keys, and what a lookup in the file reports is what a search of the
 sorted run gives.  This is what lets the store take a table file for its run.
 */
module TableRuns {
  import opened Wrappers
  import opened Comparator
  import opened Codings
  import opened Entries
  import opened Versions
  import opened InternalKeys
  import Blocks
  import opened TableFormats
  import opened Tables
  import opened TableBuilders
  import opened TableReaders

  function Encoded(u: Bytes, e: Entry): Blocks.KeyValue {
    Blocks.KeyValue(InternalKey(u, TagWord(e.ikey)), e.value)
  }

  /** users are the user keys of the run as byte strings, and entries its encoding. */
  ghost predicate Encodes(run: seq<Entry>, users: seq<Bytes>, entries: seq<Blocks.KeyValue>) {
    && |run| == |users| == |entries|
    && forall i | 0 <= i < |run| ::
         run[i].ikey.user == Rank(users[i]) && |users[i]| < TWO_TO_32 - 8 && entries[i] == Encoded(users[i], run[i])
  }

  /** The encoding of a sorted run is a list of entries that a table can be built of. */
  lemma EncodedKeysOk(run: seq<Entry>, users: seq<Bytes>, entries: seq<Blocks.KeyValue>)
    requires Sorted(run) && Encodes(run, users, entries)
    ensures KeysOk(entries)
  {
    forall i, j | 0 <= i <= j < |entries|
      ensures InOrder(entries, i, j)
    {
      InternalLessIsLess(users[i], run[i].ikey, users[j], run[j].ikey);
    }
  }

  /** A key has the same place in the run and in its encoding. */
  lemma EncodedSeek(run: seq<Entry>, users: seq<Bytes>, entries: seq<Blocks.KeyValue>, u: Bytes, target: IKey, i: nat)
    requires Encodes(run, users, entries) && target.user == Rank(u) && IsSeek(run, target, i)
    ensures Blocks.IsSeek(InternalLess, entries, InternalKey(u, TagWord(target)), i)
  {
    forall j | 0 <= j < |run|
      ensures InternalLess(entries[j].key, InternalKey(u, TagWord(target))) <==> Less(run[j].ikey, target)
    {
      InternalLessIsLess(users[j], run[j].ikey, u, target);
    }
  }

  /** What SaveValue makes of the entry reported; None if its key does not parse. */
  method SaveValue(r: Option<Blocks.KeyValue>, user: Bytes) returns (o: Option<Outcome>)
    ensures r.None? ==> o == Some(Miss)
    ensures r.Some? && (|r.value.key| < 8 || ExtractTag(r.value.key) % 256 > 1) ==> o == None
    ensures forall u: Bytes, e: Entry :: r == Some(Encoded(u, e)) ==>
            o == Some(if u == user then OutcomeOf(e) else Miss)
  {
    if r.None? {
      return Some(Miss);
    }
    var key := r.value.key;
    if |key| < 8 || ExtractTag(key) % 256 > 1 {
      return None;
    }
    if ExtractUserKey(key) != user {
      return Some(Miss);
    }
    o := Some(if ExtractTag(key) % 256 == 1 then Found(r.value.value) else Deleted);
  }

  /** What agrees with a scan of the entries is, decoded, what the search of the run gives. */
  lemma ScanIsSearch(run: seq<Entry>, users: seq<Bytes>, entries: seq<Blocks.KeyValue>, u: Bytes, snap: SeqNo,
                     r: Option<Blocks.KeyValue>)
    requires Sorted(run) && Encodes(run, users, entries)
    requires AgreesWithScan(entries, InternalKey(u, TagWord(SeekKey(Rank(u), snap))), r)
    ensures var i := SeekIndex(run, SeekKey(Rank(u), snap));
            if i < |run| && users[i] == u then r == Some(entries[i])
            else r.None? || (i < |run| && r == Some(entries[i]))
  {
    var target := SeekKey(Rank(u), snap);
    var i := SeekIndex(run, target);
    var k := InternalKey(u, TagWord(target));
    EncodedKeysOk(run, users, entries);
    EncodedSeek(run, users, entries, u, target, i);
    ScanFindsFirst(entries, k, i);
  }

  lemma SeekTag(k: UserKey, snap: SeqNo)
    ensures TagWord(SeekKey(k, snap)) == snap * 256 + 1
  {
  }

  /** The lookup of a user key at a sequence number in an open table. */
  method Get(table: Table, u: Bytes, snap: SeqNo, ghost run: seq<Entry>, ghost users: seq<Bytes>)
    returns (o: Option<Outcome>)
    requires table.Valid() && Sorted(run) && Encodes(run, users, table.entries)
    ensures o == Some(GetFromRun(run, Rank(u), snap))
  {
    SeekTag(Rank(u), snap);
    var r := table.InternalGet(InternalKey(u, snap * 256 + 1));
    o := Report(r, u, snap, run, users, table.entries);
  }

  method Report(r: Option<Blocks.KeyValue>, u: Bytes, ghost snap: SeqNo, ghost run: seq<Entry>, ghost users: seq<Bytes>,
                ghost entries: seq<Blocks.KeyValue>)
    returns (o: Option<Outcome>)
    requires Sorted(run) && Encodes(run, users, entries)
    requires AgreesWithScan(entries, InternalKey(u, TagWord(SeekKey(Rank(u), snap))), r)
    ensures o == Some(GetFromRun(run, Rank(u), snap))
  {
    ScanIsSearch(run, users, entries, u, snap, r);
    o := SaveValue(r, u);
    FoundInRun(run, users, entries, u, snap, r, o);
  }

  lemma FoundInRun(run: seq<Entry>, users: seq<Bytes>, entries: seq<Blocks.KeyValue>, u: Bytes, snap: SeqNo,
                   r: Option<Blocks.KeyValue>, o: Option<Outcome>)
    requires Sorted(run) && Encodes(run, users, entries)
    requires var i := SeekIndex(run, SeekKey(Rank(u), snap));
             if i < |run| && users[i] == u then r == Some(entries[i])
             else r.None? || (i < |run| && r == Some(entries[i]))
    requires r.None? ==> o == Some(Miss)
    requires forall v: Bytes, e: Entry :: r == Some(Encoded(v, e)) ==> o == Some(if v == u then OutcomeOf(e) else Miss)
    ensures o == Some(GetFromRun(run, Rank(u), snap))
  {
    var i := SeekIndex(run, SeekKey(Rank(u), snap));
    if i < |run| {
      RankEmbedsOrder(users[i], u);
      assert entries[i] == Encoded(users[i], run[i]);
    }
  }

  method EncodeRun(run: seq<Entry>, users: seq<Bytes>) returns (entries: seq<Blocks.KeyValue>)
    requires |run| == |users|
    requires forall i | 0 <= i < |run| :: run[i].ikey.user == Rank(users[i]) && |users[i]| < TWO_TO_32 - 8
    ensures Encodes(run, users, entries)
  {
    entries := [];
    for i := 0 to |run|
      invariant |entries| == i && forall j | 0 <= j < i :: entries[j] == Encoded(users[j], run[j])
    {
      entries := entries + [Encoded(users[i], run[i])];
    }
  }

  /** A run written as a table file, and a key looked up in the file. */
  method WriteAndGet(o: Options, run: seq<Entry>, users: seq<Bytes>, verifyChecksums: bool, u: Bytes, snap: SeqNo)
    returns (r: Option<Outcome>)
    requires OptionsOk(o) && CodecOk(o.codec) && Sorted(run) && |run| == |users|
    requires forall i | 0 <= i < |run| :: run[i].ikey.user == Rank(users[i]) && |users[i]| < TWO_TO_32 - 8
    requires forall entries | Encodes(run, users, entries) :: TotalWeight(o, entries) + 100 < ENTRY_LIMIT
    ensures r == Some(GetFromRun(run, Rank(u), snap))
  {
    var entries := EncodeRun(run, users);
    EncodedKeysOk(run, users, entries);
    var file, t := BuildTable(o, entries);
    var table := Table.Open(o, verifyChecksums, file, entries, t);
    r := Get(table, u, snap, run, users);
  }
}
