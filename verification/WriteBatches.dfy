/**
 Write batches as they are built, logged and replayed: a header with a sequence number
 and a count, then the operations.
 */
module WriteBatches {
  import opened Wrappers
  import opened Comparator
  import opened Codings

  datatype Op = Put(key: Bytes, value: Bytes) | Delete(key: Bytes)

  const HEADER_SIZE: nat := 12

  const DELETION_TAG: byte := 0
  const VALUE_TAG: byte := 1

  predicate Encodable(op: Op) {
    |op.key| < TWO_TO_32 && (op.Put? ==> |op.value| < TWO_TO_32)
  }

  // ----- The layout of a batch -----

  function Record(op: Op): (b: Bytes)
    ensures |b| > 0
  {
    match op
    case Put(key, value) => [VALUE_TAG] + LengthPrefixed(key) + LengthPrefixed(value)
    case Delete(key) => [DELETION_TAG] + LengthPrefixed(key)
  }

  function RecordList(ops: seq<Op>): (list: seq<Bytes>)
    ensures |list| == |ops| && forall i | 0 <= i < |ops| :: list[i] == Record(ops[i])
  {
    seq(|ops|, i requires 0 <= i < |ops| => Record(ops[i]))
  }

  function Records(ops: seq<Op>): Bytes {
    Joined(RecordList(ops))
  }

  function Encode(sequence: uint64, ops: seq<Op>): Bytes
    requires |ops| < TWO_TO_32
  {
    Fixed64(sequence) + Fixed32(|ops|) + Records(ops)
  }

  lemma RecordsAppend(a: seq<Op>, b: seq<Op>)
    ensures Records(a + b) == Records(a) + Records(b)
  {
    assert RecordList(a + b) == RecordList(a) + RecordList(b);
    JoinedAppend(RecordList(a), RecordList(b));
  }

  lemma FirstRecord(ops: seq<Op>)
    requires ops != []
    ensures Records(ops) == Record(ops[0]) + Records(ops[1..])
  {
    assert RecordList(ops)[1..] == RecordList(ops[1..]);
  }

  /** rep is the encoding of these operations. */
  ghost predicate IsBatch(rep: Bytes, sequence: uint64, ops: seq<Op>) {
    |ops| < TWO_TO_32 && (forall i | 0 <= i < |ops| :: Encodable(ops[i])) && rep == Encode(sequence, ops)
  }

  lemma ThreeParts(a: Bytes, b: Bytes, c: Bytes)
    ensures (a + b + c)[..|a|] == a
    ensures (a + b + c)[|a|..|a| + |b|] == b
    ensures (a + b + c)[|a| + |b|..] == c
    ensures (a + b + c)[|a|..] == b + c
  {
  }

  lemma HeaderParts(rep: Bytes, sequence: uint64, ops: seq<Op>)
    requires IsBatch(rep, sequence, ops)
    ensures |rep| >= HEADER_SIZE && rep[..8] == Fixed64(sequence) && rep[8..12] == Fixed32(|ops|)
    ensures rep[12..] == Records(ops)
  {
    ThreeParts(Fixed64(sequence), Fixed32(|ops|), Records(ops));
  }

  lemma WithSequence(rep: Bytes, s0: uint64, s: uint64, ops: seq<Op>)
    requires IsBatch(rep, s0, ops)
    ensures |rep| >= HEADER_SIZE && IsBatch(Fixed64(s) + rep[8..], s, ops)
  {
    ThreeParts(Fixed64(s0), Fixed32(|ops|), Records(ops));
    Regroup(Fixed64(s), Fixed32(|ops|), Records(ops));
  }

  lemma Extended(rep: Bytes, s: uint64, ops: seq<Op>, more: seq<Op>)
    requires IsBatch(rep, s, ops) && |ops| + |more| < TWO_TO_32 && forall i | 0 <= i < |more| :: Encodable(more[i])
    ensures |rep| >= HEADER_SIZE
    ensures IsBatch(rep[..8] + Fixed32(|ops| + |more|) + rep[12..] + Records(more), s, ops + more)
  {
    HeaderParts(rep, s, ops);
    RecordsAppend(ops, more);
    EncodableAppend(ops, more);
    LongerEncoding(Fixed64(s), Fixed32(|ops| + |more|), Records(ops), Records(more), Records(ops + more));
  }

  lemma LongerEncoding(a: Bytes, b: Bytes, c: Bytes, d: Bytes, cd: Bytes)
    requires cd == c + d
    ensures a + b + c + d == a + b + cd
  {
  }

  lemma EncodableAppend(a: seq<Op>, b: seq<Op>)
    requires (forall i | 0 <= i < |a| :: Encodable(a[i])) && forall i | 0 <= i < |b| :: Encodable(b[i])
    ensures forall i | 0 <= i < |a + b| :: Encodable((a + b)[i])
  {
  }

  lemma OneRecord(op: Op)
    ensures Records([op]) == Record(op)
  {
    FirstRecord([op]);
    assert [op][1..] == [] && Records([]) == [];
  }

  // ----- Reading it back -----

  datatype Status = Ok | TooSmall | BadPut | BadDelete | UnknownTag | WrongCount

  /** The first operation of the input and what follows it. */
  function ParseOp(input: Bytes): (Status, Option<(Op, Bytes)>)
    requires input != []
  {
    var rest := input[1..];
    if input[0] == VALUE_TAG then
      match GetLengthPrefixedSlice(rest)
      case None => (BadPut, None)
      case Some((key, rest1)) =>
        match GetLengthPrefixedSlice(rest1)
        case None => (BadPut, None)
        case Some((value, rest2)) => (Ok, Some((Op.Put(key, value), rest2)))
    else if input[0] == DELETION_TAG then
      match GetLengthPrefixedSlice(rest)
      case None => (BadDelete, None)
      case Some((key, rest1)) => (Ok, Some((Op.Delete(key), rest1)))
    else (UnknownTag, None)
  }

  lemma TaggedPair(tag: byte, a: Bytes, b: Bytes, rest: Bytes)
    ensures ([tag] + a + b + rest)[0] == tag && ([tag] + a + b + rest)[1..] == a + (b + rest)
    ensures [tag] + a + [] == [tag] + a
  {
  }

  lemma ParseRecord(op: Op, rest: Bytes)
    requires Encodable(op)
    ensures ParseOp(Record(op) + rest) == (Ok, Some((op, rest)))
  {
    var input := Record(op) + rest;
    match op
    case Put(key, value) =>
      TaggedPair(VALUE_TAG, LengthPrefixed(key), LengthPrefixed(value), rest);
      SliceRoundTrip(key, LengthPrefixed(value) + rest);
      SliceRoundTrip(value, rest);
    case Delete(key) =>
      TaggedPair(DELETION_TAG, LengthPrefixed(key), [], rest);
      assert LengthPrefixed(key) + [] == LengthPrefixed(key) && [] + rest == rest;
      SliceRoundTrip(key, rest);
  }

  class WriteBatch {
    var rep: Bytes

    /** The batch is the encoding of these operations. */
    ghost predicate Holds(sequence: uint64, ops: seq<Op>)
      reads this
    {
      IsBatch(rep, sequence, ops)
    }

    constructor ()
      ensures Holds(0, [])
    {
      rep := seq(HEADER_SIZE, _ => 0);
      new;
      EmptyEncoding();
    }

    method Clear()
      modifies this
      ensures Holds(0, [])
    {
      rep := seq(HEADER_SIZE, _ => 0);
      EmptyEncoding();
    }

    function Count(): uint32
      requires |rep| >= HEADER_SIZE
      reads this
    {
      DecodeFixed32(rep[8..12])
    }

    function Sequence(): uint64
      requires |rep| >= HEADER_SIZE
      reads this
    {
      DecodeFixed64(rep[..8])
    }

    method SetSequence(s: uint64)
      requires |rep| >= HEADER_SIZE
      modifies this
      ensures rep == Fixed64(s) + old(rep)[8..]
      ensures forall s0: uint64, ops :: old(Holds(s0, ops)) ==> Holds(s, ops)
    {
      rep := Fixed64(s) + rep[8..];
      forall s0: uint64, ops | old(Holds(s0, ops))
        ensures Holds(s, ops)
      {
        WithSequence(old(rep), s0, s, ops);
      }
    }

    /** Adds an encoded operation and counts it. */
    method AddRecord(op: Op, ghost sequence: uint64, ghost ops: seq<Op>)
      requires Holds(sequence, ops) && Encodable(op) && |ops| + 1 < TWO_TO_32
      modifies this
      ensures Holds(sequence, ops + [op])
    {
      HeaderParts(rep, sequence, ops);
      Extended(rep, sequence, ops, [op]);
      OneRecord(op);
      var n := Count() + 1;
      rep := rep[..8] + Fixed32(n) + rep[12..];
      rep := rep + Record(op);
    }

    method Put(key: Bytes, value: Bytes, ghost sequence: uint64, ghost ops: seq<Op>)
      requires Holds(sequence, ops) && |key| < TWO_TO_32 && |value| < TWO_TO_32 && |ops| + 1 < TWO_TO_32
      modifies this
      ensures Holds(sequence, ops + [Op.Put(key, value)])
    {
      AddRecord(Op.Put(key, value), sequence, ops);
    }

    method Delete(key: Bytes, ghost sequence: uint64, ghost ops: seq<Op>)
      requires Holds(sequence, ops) && |key| < TWO_TO_32 && |ops| + 1 < TWO_TO_32
      modifies this
      ensures Holds(sequence, ops + [Op.Delete(key)])
    {
      AddRecord(Op.Delete(key), sequence, ops);
    }

    /** Appends the operations of another batch; the sequence number stays. */
    method Append(src: WriteBatch, ghost sequence: uint64, ghost ops: seq<Op>, ghost sequence1: uint64,
                  ghost ops1: seq<Op>)
      requires src != this && Holds(sequence, ops) && src.Holds(sequence1, ops1) && |ops| + |ops1| < TWO_TO_32
      modifies this
      ensures Holds(sequence, ops + ops1)
    {
      HeaderParts(rep, sequence, ops);
      HeaderParts(src.rep, sequence1, ops1);
      Extended(rep, sequence, ops, ops1);
      var n := Count() + src.Count();
      rep := rep[..8] + Fixed32(n) + rep[12..];
      rep := rep + src.rep[12..];
    }

    /** Hands the operations to a handler in order; they are collected here. */
    method Iterate() returns (status: Status, found: seq<Op>)
      ensures forall s: uint64, ops {:trigger Holds(s, ops)} :: Holds(s, ops) ==> status == Ok && found == ops
      ensures status == Ok ==> |rep| >= HEADER_SIZE && |found| == Count()
    {
      found := [];
      if |rep| < HEADER_SIZE {
        forall s: uint64, ops
          ensures !Holds(s, ops)
        {
          if Holds(s, ops) {
            HeaderParts(rep, s, ops);
          }
        }
        return TooSmall, [];
      }
      var input := rep[HEADER_SIZE..];
      StartOfRecords();
      while input != []
        invariant forall s: uint64, ops {:trigger Holds(s, ops)} :: Holds(s, ops) ==> Ahead(ops, found, input)
        decreases |input|
      {
        var (st, r) := ParseOp(input);
        forall s: uint64, ops | Holds(s, ops)
          ensures st == Ok && r.Some? && Ahead(ops, found + [r.value.0], r.value.1)
        {
          NextOp(ops, found, input);
        }
        if r.None? {
          return st, found;
        }
        ParseShortens(input);
        found := found + [r.value.0];
        input := r.value.1;
      }
      forall s: uint64, ops | Holds(s, ops)
        ensures found == ops && |found| == Count()
      {
        HeaderParts(rep, s, ops);
        NothingAhead(ops, found);
      }
      status := if |found| != Count() then WrongCount else Ok;
    }

    lemma StartOfRecords()
      requires |rep| >= HEADER_SIZE
      ensures forall s: uint64, ops {:trigger Holds(s, ops)} :: Holds(s, ops) ==> Ahead(ops, [], rep[HEADER_SIZE..])
    {
      forall s: uint64, ops | Holds(s, ops)
        ensures Ahead(ops, [], rep[HEADER_SIZE..])
      {
        HeaderParts(rep, s, ops);
        assert ops[0..] == ops;
      }
    }
  }

  /** Of these operations, the first have been found and the input holds the rest. */
  ghost predicate Ahead(ops: seq<Op>, found: seq<Op>, input: Bytes) {
    && |found| <= |ops| && found == ops[..|found|] && input == Records(ops[|found|..])
    && forall i | 0 <= i < |ops| :: Encodable(ops[i])
  }

  lemma NextOp(ops: seq<Op>, found: seq<Op>, input: Bytes)
    requires Ahead(ops, found, input) && input != []
    ensures var (st, r) := ParseOp(input); st == Ok && r.Some? && Ahead(ops, found + [r.value.0], r.value.1)
  {
    var n := |found|;
    assert ops[|ops|..] == [] && Records([]) == [];
    OneFurther(ops, n);
    FirstRecord(ops[n..]);
    ParseRecord(ops[n], Records(ops[n+1..]));
  }

  lemma {:induction false} OneFurther(ops: seq<Op>, n: nat)
    requires n < |ops|
    ensures ops[n..] != [] && ops[n..][0] == ops[n] && ops[n..][1..] == ops[n+1..]
    ensures ops[..n] + [ops[n]] == ops[..n+1]
  {
  }

  lemma NoRecords(ops: seq<Op>)
    requires Records(ops) == []
    ensures ops == []
  {
    if ops != [] {
      FirstRecord(ops);
    }
  }

  lemma NothingAhead(ops: seq<Op>, found: seq<Op>)
    requires Ahead(ops, found, [])
    ensures found == ops
  {
    assert found == ops[..|found|];
    NoRecords(ops[|found|..]);
  }

  lemma ParseShortens(input: Bytes)
    requires input != []
    ensures var (st, r) := ParseOp(input); r.Some? ==> |r.value.1| < |input|
  {
  }

  lemma EmptyEncoding()
    ensures Encode(0, []) == seq(HEADER_SIZE, _ => 0)
  {
    ZeroBytes(8);
    ZeroBytes(4);
  }

  lemma {:induction false} ZeroBytes(width: nat)
    ensures LittleEndian(0, width) == seq(width, _ => 0)
  {
    if width > 0 {
      ZeroBytes(width - 1);
    }
  }
}
