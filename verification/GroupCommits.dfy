/**
 Group commit: the writer at the front of the queue writes for a whole group.  Every
 batch is applied once, in the order of the queue, with consecutive sequence numbers,
 and a reader sees all of a group or nothing of it.
 */
module GroupCommits {
  import opened Wrappers
  import opened Comparator
  import opened Codings
  import opened WriteBatches

  /** A writer in the queue, the operations of its batch, if it has one, and the bytes they take. */
  datatype Writer = Writer(id: nat, ops: Option<seq<Op>>, size: nat, sync: bool)

  function OpsOf(writers: seq<Writer>): seq<Op> {
    if writers == [] then []
    else OpsOf(writers[..|writers|-1]) + if writers[|writers|-1].ops.Some? then writers[|writers|-1].ops.value else []
  }

  const LARGE_GROUP: nat := 0x10_0000
  const SMALL_BATCH: nat := 0x2_0000

  function MaxSize(first: nat): nat {
    if first <= SMALL_BATCH then first + SMALL_BATCH else LARGE_GROUP
  }

  /** The writer at position i may join a group of this size led by the first. */
  predicate MayJoin(queue: seq<Writer>, i: nat, size: nat, max: nat)
    requires 0 < i < |queue|
  {
    && !(queue[i].sync && !queue[0].sync)
    && (queue[i].ops.Some? ==> size + queue[i].size <= max)
  }

  /** How many writers from the front form the group, given that the first i do. */
  function GroupEnd(queue: seq<Writer>, i: nat, size: nat, max: nat): (n: nat)
    requires 0 < i <= |queue|
    ensures i <= n <= |queue|
    decreases |queue| - i
  {
    if i == |queue| || !MayJoin(queue, i, size, max) then i
    else GroupEnd(queue, i + 1, if queue[i].ops.Some? then size + queue[i].size else size, max)
  }

  function GroupLength(queue: seq<Writer>): (n: nat)
    requires queue != [] && queue[0].ops.Some?
    ensures 0 < n <= |queue|
  {
    GroupEnd(queue, 1, queue[0].size, MaxSize(queue[0].size))
  }

  /** No writer that asked for a sync is put in a group whose leader did not. */
  lemma {:induction false} GroupKeepsSync(queue: seq<Writer>, i: nat, size: nat, max: nat, j: nat)
    requires 0 < i <= |queue| && i <= j < GroupEnd(queue, i, size, max)
    ensures queue[j].sync ==> queue[0].sync
    decreases |queue| - i
  {
    if i < j {
      GroupKeepsSync(queue, i + 1, if queue[i].ops.Some? then size + queue[i].size else size, max, j);
    }
  }

  /** The bytes of the batches of these writers. */
  function BytesOf(writers: seq<Writer>): nat {
    if writers == [] then 0
    else BytesOf(writers[..|writers|-1]) + if writers[|writers|-1].ops.Some? then writers[|writers|-1].size else 0
  }

  lemma OneMoreSize(queue: seq<Writer>, i: nat)
    requires i < |queue|
    ensures BytesOf(queue[..i+1]) == BytesOf(queue[..i]) + if queue[i].ops.Some? then queue[i].size else 0
  {
    assert queue[..i+1][..i] == queue[..i];
  }

  /** The group goes on as long as the rules on syncs and sizes allow. */
  lemma {:induction false} GroupEndMeans(queue: seq<Writer>, i: nat, size: nat, max: nat)
    requires 0 < i <= |queue| && size == BytesOf(queue[..i])
    ensures var n := GroupEnd(queue, i, size, max);
            && (BytesOf(queue[..n]) <= max
                || (BytesOf(queue[..n]) == size && forall j | i <= j < n :: queue[j].ops.None?))
            && (n < |queue| ==> (queue[n].sync && !queue[0].sync)
                                || (queue[n].ops.Some? && BytesOf(queue[..n]) + queue[n].size > max))
    decreases |queue| - i
  {
    if i < |queue| && MayJoin(queue, i, size, max) {
      OneMoreSize(queue, i);
      GroupEndMeans(queue, i + 1, if queue[i].ops.Some? then size + queue[i].size else size, max);
    }
  }

  /**
   A group is the longest in which no writer asks for a sync that the leader does not, and whose
   bytes, if another batch has joined, are at most 1 MB, or 128 KB more than those of a leader of at
   most 128 KB.
   */
  lemma GroupIsLongest(queue: seq<Writer>)
    requires queue != [] && queue[0].ops.Some?
    ensures var n := GroupLength(queue);
            var limit := if queue[0].size <= 131072 then queue[0].size + 131072 else 1048576;
            && (forall i | 0 <= i < n :: queue[i].sync ==> queue[0].sync)
            && ((exists i :: 0 < i < n && queue[i].ops.Some?) ==> BytesOf(queue[..n]) <= limit)
            && (n < |queue| ==> (queue[n].sync && !queue[0].sync)
                                || (queue[n].ops.Some? && BytesOf(queue[..n]) + queue[n].size > limit))
  {
    OneMoreSize(queue, 0);
    GroupEndMeans(queue, 1, queue[0].size, MaxSize(queue[0].size));
    forall i | 0 <= i < GroupLength(queue)
      ensures queue[i].sync ==> queue[0].sync
    {
      if i > 0 {
        GroupKeepsSync(queue, 1, queue[0].size, MaxSize(queue[0].size), i);
      }
    }
  }

  lemma OpsOfAppend(writers: seq<Writer>, w: Writer)
    ensures OpsOf(writers + [w]) == OpsOf(writers) + if w.ops.Some? then w.ops.value else []
  {
    assert (writers + [w])[..|writers|] == writers;
  }

  lemma {:induction false} OpsOfConcat(a: seq<Writer>, b: seq<Writer>)
    ensures OpsOf(a + b) == OpsOf(a) + OpsOf(b)
  {
    if b == [] {
      assert a + b == a;
    } else {
      var front, w := b[..|b|-1], b[|b|-1];
      OpsOfConcat(a, front);
      OpsOfAppend(a + front, w);
      assert a + b == (a + front) + [w];
    }
  }

  // ----- Building the group's batch -----

  /** A queued writer's batch holds the operations that the queue says. */
  ghost predicate Queued(batches: seq<WriteBatch?>, queue: seq<Writer>, sequences: seq<uint64>)
    reads batches
  {
    && |batches| == |queue| == |sequences|
    && forall i | 0 <= i < |queue| ::
         if queue[i].ops.Some? then
           batches[i] != null && batches[i].Holds(sequences[i], queue[i].ops.value) && |batches[i].rep| == queue[i].size
         else batches[i] == null
  }

  /** The group's batch so far: the leader's own as long as no other batch has joined. */
  ghost predicate Grouping(result: WriteBatch, first: WriteBatch, tmp: WriteBatch, s: uint64, ops: seq<Op>)
    reads result, tmp
  {
    && (result == first || result == tmp) && tmp != first
    && result.Holds(s, ops) && (result == first ==> tmp.Holds(0, []))
  }

  /** Appends the batch of writer n to the group's; the leader's own batch is not touched. */
  method Join(batches: seq<WriteBatch?>, queue: seq<Writer>, ghost sequences: seq<uint64>, n: nat,
              result: WriteBatch, first: WriteBatch, tmp: WriteBatch, ghost s: uint64, ghost ops: seq<Op>)
    returns (result': WriteBatch, ghost s': uint64)
    requires Queued(batches, queue, sequences) && tmp !in batches && first in batches
    requires n < |queue| && queue[n].ops.Some? && |ops| + |queue[n].ops.value| < TWO_TO_32
    requires Grouping(result, first, tmp, s, ops)
    modifies tmp
    ensures Queued(batches, queue, sequences)
    ensures Grouping(result', first, tmp, s', ops + queue[n].ops.value)
  {
    result', s' := result, s;
    var next := batches[n];
    assert next in batches;
    if result == first {
      result', s' := tmp, 0;
      assert [] + ops == ops;
      tmp.Append(first, 0, [], s, ops);
    }
    tmp.Append(next, s', ops, sequences[n], queue[n].ops.value);
  }

  /** The leader's own batch if the group has no other, else the scratch batch with all of them appended. */
  method BuildBatchGroup(batches: seq<WriteBatch?>, queue: seq<Writer>, ghost sequences: seq<uint64>, tmp: WriteBatch)
    returns (result: WriteBatch, n: nat)
    requires Queued(batches, queue, sequences) && tmp !in batches && tmp.Holds(0, [])
    requires queue != [] && queue[0].ops.Some? && |OpsOf(queue)| < TWO_TO_32
    modifies tmp
    ensures n == GroupLength(queue) && 0 < n <= |queue|
    ensures forall i | 0 <= i < n :: queue[i].sync ==> queue[0].sync
    ensures var limit := if queue[0].size <= 131072 then queue[0].size + 131072 else 1048576;
            && ((exists i :: 0 < i < n && queue[i].ops.Some?) ==> BytesOf(queue[..n]) <= limit)
            && (n < |queue| ==> (queue[n].sync && !queue[0].sync)
                                || (queue[n].ops.Some? && BytesOf(queue[..n]) + queue[n].size > limit))
    ensures exists s: uint64 :: result.Holds(s, OpsOf(queue[..n]))
    ensures result == batches[0] || result == tmp
    ensures Queued(batches, queue, sequences)
  {
    var first := batches[0];
    assert first in batches;
    result := first;
    var size: nat := |first.rep|;
    var max := MaxSize(size);
    ghost var end := GroupLength(queue);
    OneWriter(queue);
    GroupIsLongest(queue);
    ghost var s := sequences[0];
    n := 1;
    var going := true;
    while going && n < |queue|
      invariant 0 < n <= |queue| && Queued(batches, queue, sequences)
      invariant Grouping(result, first, tmp, s, OpsOf(queue[..n]))
      invariant GroupEnd(queue, n, size, max) == end
      invariant !going ==> n == end
      decreases going, |queue| - n
    {
      going, n, size, result, s := ConsiderWriter(batches, queue, sequences, n, size, max, result, first, tmp, s);
    }
  }

  /** The writer at position n joins the group, or ends it. */
  method ConsiderWriter(batches: seq<WriteBatch?>, queue: seq<Writer>, ghost sequences: seq<uint64>, n: nat, size: nat,
                        max: nat,
                        result: WriteBatch, first: WriteBatch, tmp: WriteBatch, ghost s: uint64)
    returns (joins: bool, n': nat, size': nat, result': WriteBatch, ghost s': uint64)
    requires 0 < n < |queue| && Queued(batches, queue, sequences) && tmp !in batches && first in batches
    requires Grouping(result, first, tmp, s, OpsOf(queue[..n])) && |OpsOf(queue)| < TWO_TO_32
    modifies tmp
    ensures n' == (if joins then n + 1 else n) && Queued(batches, queue, sequences)
    ensures Grouping(result', first, tmp, s', OpsOf(queue[..n']))
    ensures GroupEnd(queue, n', size', max) == GroupEnd(queue, n, size, max)
    ensures !joins ==> n' == GroupEnd(queue, n', size', max)
  {
    result', s' := result, s;
    OneMoreWriter(queue, n);
    joins, n', size' := Admit(queue, n, if queue[n].ops.Some? then |batches[n].rep| else 0, size, max);
    if joins && queue[n].ops.Some? {
      result', s' := Join(batches, queue, sequences, n, result, first, tmp, s, OpsOf(queue[..n]));
    }
  }

  /** Whether the writer at position n may join, and the size of the group then. */
  method Admit(queue: seq<Writer>, n: nat, bytes: nat, size: nat, max: nat) returns (joins: bool, n': nat, size': nat)
    requires 0 < n < |queue| && (queue[n].ops.Some? ==> bytes == queue[n].size)
    ensures n' == if joins then n + 1 else n
    ensures GroupEnd(queue, n', size', max) == GroupEnd(queue, n, size, max)
    ensures !joins ==> n' == GroupEnd(queue, n', size', max)
  {
    GroupEndStep(queue, n, size, max);
    if queue[n].sync && !queue[0].sync {
      return false, n, size;
    }
    size' := size;
    if queue[n].ops.Some? {
      if size + bytes > max {
        return false, n, size;
      }
      size' := size + bytes;
    }
    return true, n + 1, size';
  }

  lemma GroupEndStep(queue: seq<Writer>, i: nat, size: nat, max: nat)
    requires 0 < i < |queue|
    ensures queue[i].sync && !queue[0].sync ==> GroupEnd(queue, i, size, max) == i
    ensures queue[i].ops.Some? && size + queue[i].size > max ==> GroupEnd(queue, i, size, max) == i
    ensures !(queue[i].sync && !queue[0].sync) && queue[i].ops.None? ==>
              GroupEnd(queue, i, size, max) == GroupEnd(queue, i + 1, size, max)
    ensures !(queue[i].sync && !queue[0].sync) && queue[i].ops.Some? && size + queue[i].size <= max ==>
              GroupEnd(queue, i, size, max) == GroupEnd(queue, i + 1, size + queue[i].size, max)
  {
  }

  lemma OneWriter(queue: seq<Writer>)
    requires queue != [] && queue[0].ops.Some?
    ensures OpsOf(queue[..1]) == queue[0].ops.value
  {
    OpsOfAppend([], queue[0]);
    assert queue[..1] == [] + [queue[0]];
  }

  lemma OneMoreWriter(queue: seq<Writer>, n: nat)
    requires n < |queue|
    ensures OpsOf(queue[..n+1]) == OpsOf(queue[..n]) + (if queue[n].ops.Some? then queue[n].ops.value else [])
    ensures queue[n].ops.None? ==> OpsOf(queue[..n+1]) == OpsOf(queue[..n])
    ensures |OpsOf(queue[..n+1])| <= |OpsOf(queue)|
  {
    assert queue[..n+1] == queue[..n] + [queue[n]];
    OpsOfAppend(queue[..n], queue[n]);
    PrefixOps(queue, n + 1);
  }

  lemma PrefixOps(queue: seq<Writer>, n: nat)
    requires n <= |queue|
    ensures |OpsOf(queue[..n])| <= |OpsOf(queue)|
  {
    OpsOfConcat(queue[..n], queue[n..]);
    assert queue == queue[..n] + queue[n..];
  }

  // ----- The queue, the log and the memtable as a state machine -----

  /** An operation as it is in the memtable. */
  datatype Numbered = Numbered(sequence: nat, op: Op)

  /** A log record: the operations of a group, numbered from a first sequence number. */
  datatype LogRecord = LogRecord(first: nat, ops: seq<Op>)

  /**
   What the leader is at: nothing, writing for the first n writers with nothing in the log
   yet, or with the group in the log and its first i operations in the memtable.  The
   mutex is free in the last two, and more writers may queue up.
   */
  datatype Phase = Idle | Chosen(n: nat, ops: seq<Op>) | Logged(n: nat, ops: seq<Op>, i: nat)

  /** Every writer that ever queued up is in submitted, and those that have returned are in completed. */
  datatype State = State(queue: seq<Writer>, phase: Phase, log: seq<LogRecord>, mem: seq<Numbered>, lastSequence: nat,
                         completed: seq<Writer>, submitted: seq<Writer>)

  function NumberedFrom(first: nat, ops: seq<Op>): (r: seq<Numbered>)
    ensures |r| == |ops| && forall i | 0 <= i < |ops| :: r[i] == Numbered(first + i, ops[i])
  {
    seq(|ops|, i requires 0 <= i < |ops| => Numbered(first + i, ops[i]))
  }

  /** The operations of the log's records, with their sequence numbers. */
  function LogEntries(log: seq<LogRecord>): seq<Numbered> {
    if log == [] then []
    else LogEntries(log[..|log|-1]) + NumberedFrom(log[|log|-1].first, log[|log|-1].ops)
  }

  datatype Action = Enqueue(w: Writer) | StartGroup | SkipEmpty | AppendLog | InsertOne | Finish

  predicate Init(s: State) {
    s == State([], Idle, [], [], s.lastSequence, [], [])
  }

  ghost predicate Step(s: State, a: Action, s': State) {
    match a
    case Enqueue(w) => s' == s.(queue := s.queue + [w], submitted := s.submitted + [w])
    case StartGroup =>
      && s.phase.Idle? && s.queue != [] && s.queue[0].ops.Some?
      && s' == s.(phase := Chosen(GroupLength(s.queue), OpsOf(s.queue[..GroupLength(s.queue)])))
    case SkipEmpty =>
      && s.phase.Idle? && s.queue != [] && s.queue[0].ops.None?
      && s' == s.(queue := s.queue[1..], completed := s.completed + [s.queue[0]])
    case AppendLog =>
      && s.phase.Chosen?
      && s' == s.(phase := Logged(s.phase.n, s.phase.ops, 0),
           log := s.log + [LogRecord(s.lastSequence + 1, s.phase.ops)])
    case InsertOne =>
      && s.phase.Logged? && s.phase.i < |s.phase.ops|
      && s' == s.(phase := s.phase.(i := s.phase.i + 1),
                  mem := s.mem + [Numbered(s.lastSequence + 1 + s.phase.i, s.phase.ops[s.phase.i])])
    case Finish =>
      && s.phase.Logged? && s.phase.i == |s.phase.ops| && s.phase.n <= |s.queue|
      && s' == s.(phase := Idle, lastSequence := s.lastSequence + |s.phase.ops|,
                  queue := s.queue[s.phase.n..], completed := s.completed + s.queue[..s.phase.n])
  }

  function InFlight(p: Phase): seq<Op> {
    match p
    case Idle => []
    case Chosen(_, _) => []
    case Logged(_, ops, _) => ops
  }

  function Inserted(p: Phase): seq<Op> {
    if p.Logged? && p.i <= |p.ops| then p.ops[..p.i] else []
  }

  /** base is the last sequence number before the first write. */
  ghost predicate Inv(s: State, base: nat) {
    && s.submitted == s.completed + s.queue
    && s.lastSequence == base + |OpsOf(s.completed)|
    && LogEntries(s.log) == NumberedFrom(base + 1, OpsOf(s.completed) + InFlight(s.phase))
    && s.mem == NumberedFrom(base + 1, OpsOf(s.completed) + Inserted(s.phase))
    && (!s.phase.Idle? ==> 0 < s.phase.n <= |s.queue| && s.phase.ops == OpsOf(s.queue[..s.phase.n]))
    && (s.phase.Logged? ==> s.phase.i <= |s.phase.ops|)
  }

  lemma NumberedAppend(first: nat, a: seq<Op>, b: seq<Op>)
    ensures NumberedFrom(first, a + b) == NumberedFrom(first, a) + NumberedFrom(first + |a|, b)
  {
  }

  lemma AppendLogKeepsInv(s: State, s': State, base: nat)
    requires Inv(s, base) && Step(s, AppendLog, s')
    ensures Inv(s', base)
  {
    var done, ops := OpsOf(s.completed), s.phase.ops;
    assert done + [] == done;
    NumberedAppend(base + 1, done, ops);
    assert s'.log[..|s.log|] == s.log;
    assert ops[..0] == [];
  }

  lemma InsertOneKeepsInv(s: State, s': State, base: nat)
    requires Inv(s, base) && Step(s, InsertOne, s')
    ensures Inv(s', base)
  {
    var done, ops, i := OpsOf(s.completed), s.phase.ops, s.phase.i;
    assert ops[..i+1] == ops[..i] + [ops[i]];
    assert done + ops[..i+1] == (done + ops[..i]) + [ops[i]];
    NumberedAppend(base + 1, done + ops[..i], [ops[i]]);
  }

  lemma FinishKeepsInv(s: State, s': State, base: nat)
    requires Inv(s, base) && Step(s, Finish, s')
    ensures Inv(s', base)
  {
    var n := s.phase.n;
    OpsOfConcat(s.completed, s.queue[..n]);
    assert s.queue == s.queue[..n] + s.queue[n..];
    assert s'.completed + s'.queue == s.completed + s.queue;
    assert s.phase.ops[..s.phase.i] == s.phase.ops;
    assert OpsOf(s'.completed) + [] == OpsOf(s'.completed);
  }

  lemma SkipEmptyKeepsInv(s: State, s': State, base: nat)
    requires Inv(s, base) && Step(s, SkipEmpty, s')
    ensures Inv(s', base)
  {
    OpsOfAppend(s.completed, s.queue[0]);
    assert s.queue == [s.queue[0]] + s.queue[1..];
    assert s'.completed + s'.queue == s.completed + s.queue;
    assert OpsOf(s.completed) + [] == OpsOf(s.completed);
  }

  lemma StepKeepsInv(s: State, a: Action, s': State, base: nat)
    requires Inv(s, base) && Step(s, a, s')
    ensures Inv(s', base)
  {
    match a
    case Enqueue(w) =>
      assert s.completed + (s.queue + [w]) == (s.completed + s.queue) + [w];
      if !s.phase.Idle? {
        assert s'.queue[..s.phase.n] == s.queue[..s.phase.n];
      }
    case StartGroup =>
    case SkipEmpty => SkipEmptyKeepsInv(s, s', base);
    case AppendLog => AppendLogKeepsInv(s, s', base);
    case InsertOne => InsertOneKeepsInv(s, s', base);
    case Finish => FinishKeepsInv(s, s', base);
  }

  ghost predicate IsRun(states: seq<State>, actions: seq<Action>) {
    && |states| == |actions| + 1 && Init(states[0])
    && forall i {:trigger actions[i]} | 0 <= i < |actions| :: Step(states[i], actions[i], states[i+1])
  }

  lemma {:induction false} RunKeepsInv(states: seq<State>, actions: seq<Action>, i: nat)
    requires IsRun(states, actions) && i < |states|
    ensures Inv(states[i], states[0].lastSequence)
  {
    if i == 0 {
      assert OpsOf([]) + [] == [];
    } else {
      RunKeepsInv(states, actions, i - 1);
      var a := actions[i-1];
      StepKeepsInv(states[i-1], a, states[i], states[0].lastSequence);
    }
  }

  /** What a reader at a sequence number sees of the memtable. */
  function Visible(mem: seq<Numbered>, snap: nat): seq<Numbered> {
    if mem == [] then []
    else Visible(mem[..|mem|-1], snap) + if mem[|mem|-1].sequence <= snap then [mem[|mem|-1]] else []
  }

  lemma {:induction false} VisiblePrefix(first: nat, ops: seq<Op>, snap: nat)
    requires first <= snap + 1 <= first + |ops|
    ensures Visible(NumberedFrom(first, ops), snap) == NumberedFrom(first, ops[..snap + 1 - first])
    decreases |ops|
  {
    if snap + 1 == first + |ops| {
      assert ops[..snap + 1 - first] == ops;
      AllVisible(first, ops, snap);
    } else {
      var front := ops[..|ops|-1];
      assert NumberedFrom(first, ops)[..|ops|-1] == NumberedFrom(first, front);
      VisiblePrefix(first, front, snap);
      assert front[..snap + 1 - first] == ops[..snap + 1 - first];
    }
  }

  lemma {:induction false} AllVisible(first: nat, ops: seq<Op>, snap: nat)
    requires first + |ops| <= snap + 1
    ensures Visible(NumberedFrom(first, ops), snap) == NumberedFrom(first, ops)
    decreases |ops|
  {
    if ops != [] {
      var front := ops[..|ops|-1];
      assert NumberedFrom(first, ops)[..|ops|-1] == NumberedFrom(first, front);
      AllVisible(first, front, snap);
      assert NumberedFrom(first, ops) == NumberedFrom(first, front) + [Numbered(first + |front|, ops[|front|])];
    }
  }

  /**
   In every state of every run, also while a group is being written with the mutex free, a
   reader at the last sequence number sees exactly the operations of the writers that have
   completed: each once, in the order in which they queued up, numbered consecutively.
   */
  lemma ReadersSeeWholeGroups(states: seq<State>, actions: seq<Action>, i: nat)
    requires IsRun(states, actions) && i < |states|
    ensures var s, base := states[i], states[0].lastSequence;
            && Visible(s.mem, s.lastSequence) == NumberedFrom(base + 1, OpsOf(s.completed))
            && s.completed <= s.submitted
  {
    RunKeepsInv(states, actions, i);
    var s, base := states[i], states[0].lastSequence;
    var ops := OpsOf(s.completed) + Inserted(s.phase);
    VisiblePrefix(base + 1, ops, s.lastSequence);
    assert ops[..|OpsOf(s.completed)|] == OpsOf(s.completed);
  }

  /** The log is never behind the memtable, and between groups both list the same operations. */
  lemma LogMatchesMemtable(states: seq<State>, actions: seq<Action>, i: nat)
    requires IsRun(states, actions) && i < |states|
    ensures states[i].mem <= LogEntries(states[i].log)
    ensures !states[i].phase.Logged? ==> states[i].mem == LogEntries(states[i].log)
  {
    RunKeepsInv(states, actions, i);
    var s, base := states[i], states[0].lastSequence;
    var done, group, part := OpsOf(s.completed), InFlight(s.phase), Inserted(s.phase);
    assert part <= group;
    assert done + group == (done + part) + group[|part|..];
    NumberedAppend(base + 1, done + part, group[|part|..]);
  }
}
