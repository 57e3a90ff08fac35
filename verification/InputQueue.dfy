/**
  The bounded input queue (streambuf/input_queue.go): a FIFO of byte chunks
  with a byte capacity and two policies for what to do when it is full.

  `Enqueued` says what one call does to the chunk list.
  `RunConserves` accounts for every byte over a whole run: what was accepted is
  cut, in order, into blocks that were drained, blocks that were dropped and
  what is still queued.
 */
module InputQueue {
  import opened Common

  const DEFAULT_CAPACITY: nat := 64 * 1024

  datatype Policy = DropOldest | DropNew

  /** Number of bytes in a list of chunks. */
  function Size(chunks: seq<seq<Byte>>): nat {
    |Concat(chunks)|
  }

  lemma SizeOne(x: seq<Byte>)
    ensures Concat([x]) == x
  {
    assert Concat([x]) == x + Concat([x][1..]);
  }

  lemma SizeAppend(xs: seq<seq<Byte>>, x: seq<Byte>)
    ensures Concat(xs + [x]) == Concat(xs) + x
  {
    ConcatAppend(xs, [x]);
    SizeOne(x);
  }

  /** The least number of whole chunks whose removal from the front leaves at most `room` bytes. */
  ghost predicate FewestEvictions(chunks: seq<seq<Byte>>, room: nat, k: nat) {
    && k <= |chunks|
    && Size(chunks[k..]) <= room
    && forall j :: 0 <= j < k ==> Size(chunks[j..]) > room
  }

  /** What `Enqueue` reports. */
  datatype Outcome = Dropped(bytes: nat) | QueueFull

  /** chunks' and outcome are what one `Enqueue` of chunk makes of chunks. */
  ghost predicate Enqueued(chunks: seq<seq<Byte>>, capacity: nat, policy: Policy, chunk: seq<Byte>,
                           chunks': seq<seq<Byte>>, outcome: Outcome) {
    if |chunk| == 0 then
      chunks' == chunks && outcome == Dropped(0)
    else if Size(chunks) + |chunk| <= capacity then
      chunks' == chunks + [chunk] && outcome == Dropped(0)
    else if policy == DropNew then
      chunks' == chunks && outcome == QueueFull
    else if |chunk| > capacity then
      && chunks' == [chunk[|chunk| - capacity..]]
      && outcome == Dropped(Size(chunks) + |chunk| - capacity)
    else
      exists k: nat :: && FewestEvictions(chunks, capacity - |chunk|, k)
                  && chunks' == chunks[k..] + [chunk]
                  && outcome == Dropped(Size(chunks[..k]))
  }

  class Queue {
    const capacity: nat
    const policy: Policy
    var chunks: seq<seq<Byte>>
    var bytes: nat

    ghost predicate Valid()
      reads this
    {
      capacity > 0 && bytes == Size(chunks) <= capacity
    }

    constructor (requested: int, policy: Policy)
      ensures Valid() && chunks == [] && this.policy == policy
      ensures capacity == if requested <= 0 then DEFAULT_CAPACITY else requested
    {
      this.capacity := if requested <= 0 then DEFAULT_CAPACITY else requested;
      this.policy := policy;
      chunks, bytes := [], 0;
    }

    method Enqueue(chunk: seq<Byte>) returns (outcome: Outcome)
      requires Valid()
      modifies this
      ensures Valid()
      ensures Enqueued(old(chunks), capacity, policy, chunk, chunks, outcome)
    {
      if |chunk| == 0 {
        return Dropped(0);
      }
      if |chunk| > capacity {
        if policy == DropNew {
          return QueueFull;
        }
        var tail := chunk[|chunk| - capacity..];
        var droppedBefore := bytes;
        SizeOne(tail);
        chunks := [tail];
        bytes := |tail|;
        return Dropped(droppedBefore + (|chunk| - capacity));
      }
      if bytes + |chunk| <= capacity {
        SizeAppend(chunks, chunk);
        chunks := chunks + [chunk];
        bytes := bytes + |chunk|;
        return Dropped(0);
      }
      if policy == DropNew {
        return QueueFull;
      }
      var dropped := 0;
      ghost var k := 0;
      while bytes + |chunk| > capacity && |chunks| > 0
        invariant 0 <= k <= |old(chunks)| && chunks == old(chunks)[k..]
        invariant bytes == Size(chunks)
        invariant dropped == Size(old(chunks)[..k])
        invariant forall j :: 0 <= j < k ==> Size(old(chunks)[j..]) > capacity - |chunk|
        decreases |chunks|
      {
        var head := chunks[0];
        SizeAppend(old(chunks)[..k], head);
        assert old(chunks)[..k] + [head] == old(chunks)[..k + 1];
        dropped := dropped + |head|;
        bytes := bytes - |head|;
        chunks := chunks[1..];
        k := k + 1;
      }
      assert FewestEvictions(old(chunks), capacity - |chunk|, k);
      SizeAppend(chunks, chunk);
      chunks := chunks + [chunk];
      bytes := bytes + |chunk|;
      return Dropped(dropped);
    }

    method Drain() returns (out: seq<seq<Byte>>)
      requires Valid()
      modifies this
      ensures Valid() && chunks == [] && out == old(chunks)
    {
      out := chunks;
      chunks, bytes := [], 0;
    }
  }

  lemma ConcatSplit(chunks: seq<seq<Byte>>, k: nat)
    requires k <= |chunks|
    ensures Concat(chunks) == Concat(chunks[..k]) + Concat(chunks[k..])
  {
    assert chunks == chunks[..k] + chunks[k..];
    ConcatAppend(chunks[..k], chunks[k..]);
  }

  /**
    One call, whatever the policy and however full the queue: unless the chunk
    is refused, the queued bytes become the old bytes followed by the chunk,
    less exactly the reported number of bytes from the front. The capacity is
    never exceeded.
   */
  lemma EnqueueDropsFromFront(chunks: seq<seq<Byte>>, capacity: nat, policy: Policy, chunk: seq<Byte>,
                              chunks': seq<seq<Byte>>, outcome: Outcome)
    requires Size(chunks) <= capacity
    requires Enqueued(chunks, capacity, policy, chunk, chunks', outcome)
    ensures Size(chunks') <= capacity
    ensures outcome.QueueFull? ==> chunks' == chunks && policy == DropNew
    ensures outcome.Dropped? ==>
              && outcome.bytes <= Size(chunks) + |chunk|
              && Concat(chunks') == (Concat(chunks) + chunk)[outcome.bytes..]
  {
    var all := Concat(chunks) + chunk;
    assert all[0..] == all;
    if |chunk| == 0 {
      assert all == Concat(chunks);
    } else if Size(chunks) + |chunk| <= capacity {
      SizeAppend(chunks, chunk);
    } else if policy == DropNew {
    } else if |chunk| > capacity {
      SizeOne(chunk[|chunk| - capacity..]);
      KeptTail(Concat(chunks), chunk, capacity);
    } else {
      FewestFromFront(chunks, capacity, chunk, chunks', outcome);
    }
  }

  /** Making room for a chunk that fits. */
  lemma FewestFromFront(chunks: seq<seq<Byte>>, capacity: nat, chunk: seq<Byte>,
                        chunks': seq<seq<Byte>>, outcome: Outcome)
    requires 0 < |chunk| <= capacity < Size(chunks) + |chunk|
    requires Enqueued(chunks, capacity, DropOldest, chunk, chunks', outcome)
    ensures Size(chunks') <= capacity && outcome.Dropped?
    ensures outcome.bytes <= Size(chunks) + |chunk|
    ensures Concat(chunks') == (Concat(chunks) + chunk)[outcome.bytes..]
  {
    var k: nat :| && FewestEvictions(chunks, capacity - |chunk|, k)
                  && chunks' == chunks[k..] + [chunk]
                  && outcome == Dropped(Size(chunks[..k]));
    EvictedFromFront(chunks, k, chunk);
  }

  /** Of old bytes and a chunk beyond the capacity, the chunk's tail is what is left. */
  lemma KeptTail(before: seq<Byte>, chunk: seq<Byte>, capacity: nat)
    requires |chunk| > capacity
    ensures (before + chunk)[|before| + (|chunk| - capacity)..] == chunk[|chunk| - capacity..]
  {
  }

  /** Evicting k chunks drops exactly their bytes from the front. */
  lemma EvictedFromFront(chunks: seq<seq<Byte>>, k: nat, chunk: seq<Byte>)
    requires k <= |chunks|
    ensures Size(chunks[..k]) <= Size(chunks) + |chunk|
    ensures Size(chunks[k..] + [chunk]) == Size(chunks[k..]) + |chunk|
    ensures Concat(chunks[k..] + [chunk]) == (Concat(chunks) + chunk)[Size(chunks[..k])..]
  {
    ConcatSplit(chunks, k);
    SizeAppend(chunks[k..], chunk);
    Assoc(Concat(chunks[..k]), Concat(chunks[k..]), chunk);
    DropPrefix(Concat(chunks[..k]), Concat(chunks[k..] + [chunk]));
  }

  /**
    When a call costs something. Nothing is refused or dropped that fits; what
    does not fit is refused exactly under DropNew; otherwise an oversized chunk
    displaces everything, and any other chunk only the fewest whole chunks that
    make room for it.
   */
  lemma EnqueueCosts(chunks: seq<seq<Byte>>, capacity: nat, policy: Policy, chunk: seq<Byte>,
                     chunks': seq<seq<Byte>>, outcome: Outcome)
    requires Size(chunks) <= capacity
    requires Enqueued(chunks, capacity, policy, chunk, chunks', outcome)
    ensures outcome == QueueFull <==> policy == DropNew && Size(chunks) + |chunk| > capacity && chunk != []
    ensures Size(chunks) + |chunk| <= capacity ==>
              outcome == Dropped(0) && Concat(chunks') == Concat(chunks) + chunk
    ensures policy != DropNew && |chunk| > capacity ==>
              && outcome == Dropped(Size(chunks) + |chunk| - capacity)
              && Concat(chunks') == chunk[|chunk| - capacity..]
    ensures policy != DropNew && Size(chunks) + |chunk| > capacity && 0 < |chunk| <= capacity ==>
              exists k :: && 0 < k <= |chunks| && chunks' == chunks[k..] + [chunk]
                          && outcome == Dropped(Size(chunks[..k]))
                          && Size(chunks[k..]) + |chunk| <= capacity < Size(chunks[k - 1..]) + |chunk|
  {
    if |chunk| == 0 {
      assert Concat(chunks) + chunk == Concat(chunks);
    } else if Size(chunks) + |chunk| <= capacity {
      SizeAppend(chunks, chunk);
    } else if policy != DropNew && |chunk| > capacity {
      SizeOne(chunk[|chunk| - capacity..]);
    } else if policy != DropNew {
      var k: nat :| && FewestEvictions(chunks, capacity - |chunk|, k)
                    && chunks' == chunks[k..] + [chunk]
                    && outcome == Dropped(Size(chunks[..k]));
      assert chunks[0..] == chunks;
      assert k > 0 && Size(chunks[k - 1..]) > capacity - |chunk|;
    }
  }

  // ---------------------------------------------------------------------
  // Whole runs
  // ---------------------------------------------------------------------

  datatype Op = Enqueue(chunk: seq<Byte>) | Drain

  /** A run of accepted bytes, labelled with what became of it. */
  datatype Block = Drained(bytes: seq<Byte>) | Lost(bytes: seq<Byte>)

  /** What the outside saw: every accepted byte, every drained byte, and the dropped total. */
  datatype Ledger = Ledger(accepted: seq<Byte>, drained: seq<Byte>, dropped: nat)

  /** The queue after a run, with its ledger. */
  datatype Account = Account(chunks: seq<seq<Byte>>, ledger: Ledger)

  ghost predicate OpStep(a: Account, capacity: nat, policy: Policy, op: Op, a': Account) {
    match op
    case Drain =>
      a' == Account([], a.ledger.(drained := a.ledger.drained + Concat(a.chunks)))
    case Enqueue(chunk) =>
      exists outcome ::
        && Enqueued(a.chunks, capacity, policy, chunk, a'.chunks, outcome)
        && a'.ledger == match outcome
                        case QueueFull => a.ledger
                        case Dropped(n) =>
                          a.ledger.(accepted := a.ledger.accepted + chunk,
                                    dropped := a.ledger.dropped + n)
  }

  /** states records the queue before and after each of ops, starting empty. */
  ghost predicate IsRun(capacity: nat, policy: Policy, ops: seq<Op>, states: seq<Account>) {
    && |states| == |ops| + 1
    && states[0] == Account([], Ledger([], [], 0))
    && forall i :: 0 <= i < |ops| ==> OpStep(states[i], capacity, policy, ops[i], states[i + 1])
  }

  function Bytes(blocks: seq<Block>): seq<Byte> {
    if blocks == [] then [] else Bytes(blocks[..|blocks| - 1]) + blocks[|blocks| - 1].bytes
  }

  function DrainedBytes(blocks: seq<Block>): seq<Byte> {
    if blocks == [] then []
    else
      var last := blocks[|blocks| - 1];
      DrainedBytes(blocks[..|blocks| - 1]) + if last.Drained? then last.bytes else []
  }

  function LostCount(blocks: seq<Block>): nat {
    if blocks == [] then 0
    else
      var last := blocks[|blocks| - 1];
      LostCount(blocks[..|blocks| - 1]) + if last.Lost? then |last.bytes| else 0
  }

  /** blocks accounts, in order, for everything accepted that is no longer queued. */
  ghost predicate Accounts(blocks: seq<Block>, a: Account) {
    && a.ledger.accepted == Bytes(blocks) + Concat(a.chunks)
    && a.ledger.drained == DrainedBytes(blocks)
    && a.ledger.dropped == LostCount(blocks)
  }

  lemma {:induction false} LengthsAddUp(blocks: seq<Block>)
    ensures |Bytes(blocks)| == |DrainedBytes(blocks)| + LostCount(blocks)
  {
    if blocks != [] {
      LengthsAddUp(blocks[..|blocks| - 1]);
    }
  }

  /**
    Over every run from an empty queue, whatever the policy: the accepted bytes
    are, in order, blocks that were drained or dropped followed by what is still
    queued. So drained output preserves order, and accepted equals drained plus
    dropped plus queued. The capacity holds throughout.
   */
  lemma {:induction false} RunConserves(capacity: nat, policy: Policy, ops: seq<Op>, states: seq<Account>)
    returns (blocks: seq<Block>)
    requires IsRun(capacity, policy, ops, states)
    ensures var end := states[|ops|];
            && Accounts(blocks, end)
            && Size(end.chunks) <= capacity
            && |end.ledger.accepted| == |end.ledger.drained| + end.ledger.dropped + Size(end.chunks)
    decreases |ops|
  {
    if ops == [] {
      blocks := [];
    } else {
      var n := |ops| - 1;
      assert IsRun(capacity, policy, ops[..n], states[..n + 1]);
      var earlier := RunConserves(capacity, policy, ops[..n], states[..n + 1]);
      blocks := StepAccounts(earlier, states[n], capacity, policy, ops[n], states[n + 1]);
    }
    LengthsAddUp(blocks);
  }

  lemma StepAccounts(blocks: seq<Block>, a: Account, capacity: nat, policy: Policy, op: Op, a': Account)
    returns (blocks': seq<Block>)
    requires Accounts(blocks, a) && OpStep(a, capacity, policy, op, a')
    requires Size(a.chunks) <= capacity
    ensures Accounts(blocks', a') && Size(a'.chunks) <= capacity
  {
    var queued := Concat(a.chunks);
    match op {
      case Drain =>
        blocks' := blocks + [Drained(queued)];
        assert blocks'[..|blocks'| - 1] == blocks;
        assert a'.ledger.accepted + [] == a'.ledger.accepted;
      case Enqueue(chunk) =>
        var outcome :| && Enqueued(a.chunks, capacity, policy, chunk, a'.chunks, outcome)
                       && a'.ledger == match outcome
                                       case QueueFull => a.ledger
                                       case Dropped(n) =>
                                         a.ledger.(accepted := a.ledger.accepted + chunk,
                                                   dropped := a.ledger.dropped + n);
        EnqueueDropsFromFront(a.chunks, capacity, policy, chunk, a'.chunks, outcome);
        if outcome.QueueFull? {
          blocks' := blocks;
        } else {
          var all := queued + chunk;
          var n := outcome.bytes;
          blocks' := blocks + [Lost(all[..n])];
          assert blocks'[..|blocks'| - 1] == blocks;
          Assoc(Bytes(blocks), queued, chunk);
          Assoc(Bytes(blocks), all[..n], all[n..]);
          SplitAt(all, n);
          assert DrainedBytes(blocks) + [] == DrainedBytes(blocks);
        }
    }
  }
}
