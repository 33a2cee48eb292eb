/** The memtable: point lookups and additions over the skip list. */
module MemTables {
  import opened Wrappers
  import opened Comparator
  import opened Entries
  import opened Versions
  import opened SkipLists

  class MemTable {
    const table: SkipList

    ghost predicate Valid()
      reads this, table
    {
      table.Valid() && DistinctRun(table.Contents())
    }

    constructor ()
      ensures Valid() && fresh(table) && table.Contents() == []
    {
      table := new SkipList();
    }

    /** Adds an entry whose sequence number the user key does not have yet. */
    method Add(s: SeqNo, kind: Kind, k: UserKey, value: Bytes, height: nat)
      requires Valid() && 1 <= height <= MAX_HEIGHT
      requires forall o | o in table.Contents() :: !(o.ikey.user == k && o.ikey.seqno == s)
      modifies table
      ensures Valid()
      ensures SetOf(table.Contents()) == SetOf(old(table.Contents())) + {Entry(IKey(k, s, kind), value)}
    {
      var e := Entry(IKey(k, s, kind), value);
      ghost var keys := table.Contents();
      ghost var at, _ := table.Insert(e, height);
      InsertedSet(keys, at, e);
    }

    /** The newest entry of the user key that the sequence number may see. */
    method Get(k: UserKey, snap: SeqNo) returns (o: Outcome)
      requires Valid()
      ensures o == Lookup(SetOf(table.Contents()), k, snap)
    {
      var iter := new Iterator(table);
      iter.Seek(SeekKey(k, snap));
      ghost var keys := table.Contents();
      KeysSorted(table.nodes, table.links, table.lists[0]);
      SeekFindsLatest(keys, k, snap, iter.At());
      o := Miss;
      if iter.node != NIL {
        var e := iter.Key();
        if e.ikey.user == k {
          o := OutcomeOf(e);
        }
      }
    }
  }

  lemma InsertedSet(keys: seq<Entry>, at: nat, e: Entry)
    requires at <= |keys|
    ensures SetOf(keys[..at] + [e] + keys[at..]) == SetOf(keys) + {e}
  {
    assert keys == keys[..at] + keys[at..];
  }
}
