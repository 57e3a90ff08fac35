/**
  Length-delimited framing over a message socket: `withProtodelim` and
  `readProtodelim` (clients/typescript/src/proto.ts) and the `Stream` class
  (clients/typescript/src/transport.ts), whose reads may be outstanding while
  bytes arrive in arbitrary pieces.

  `SuccessesInOrder` covers every interleaving of reads, arriving chunks, local
  closes and failures. `EachCallGetsItsMessage` sharpens it for open streams.
 */
module Framing {
  import opened Common
  import opened Varints

  type Message = seq<Byte>

  function Frame(msg: Message): seq<Byte> {
    Varint(|msg|) + msg
  }

  datatype Ready = Ready(msg: Message, n: nat)

  /** The first message in buf, if all of it is there. A header that overflows also reads as "wait". */
  function ReadProtodelim(buf: seq<Byte>): (r: Option<Ready>)
    ensures r.Some? ==> 0 < r.value.n <= |buf|
  {
    if |buf| == 0 then None
    else
      match DecodeVarint(buf)
      case Err(_) => None
      case Ok(d) =>
        var total := d.n + d.value;
        HeaderFits(buf, 0);
        if |buf| < total then None else Some(Ready(buf[d.n..total], total))
  }

  lemma {:induction false} HeaderFits(buf: seq<Byte>, k: nat)
    requires k <= |buf|
    ensures DecodeFrom(buf, k).Ok? ==> 1 <= DecodeFrom(buf, k).value.n <= |buf| - k
    decreases |buf| - k
  {
    if k < |buf| {
      HeaderFits(buf, k + 1);
    }
  }

  /** A message short enough for its length to have a readable header. */
  predicate Framable(msg: Message) {
    |msg| < Pow128(MAX_BYTES)
  }

  lemma FrameReads(msg: Message, rest: seq<Byte>)
    requires Framable(msg)
    ensures ReadProtodelim(Frame(msg) + rest) == Some(Ready(msg, |Frame(msg)|))
  {
    var header := Varint(|msg|);
    VarintRoundTrip(|msg|, msg + rest);
    Assoc(header, msg, rest);
    var buf := Frame(msg) + rest;
    assert buf[|header|..|header| + |msg|] == msg;
  }

  lemma PartialFrameWaits(msg: Message, part: seq<Byte>)
    requires Framable(msg) && part <= Frame(msg) && |part| < |Frame(msg)|
    ensures ReadProtodelim(part).None?
  {
    var header := Varint(|msg|);
    VarintLength(|msg|, MAX_BYTES);
    if |part| < |header| {
      assert part[0..] == part == header[..|part|];
      VarintPrefix(part, 0, |msg|);
    } else {
      assert part == header + part[|header|..];
      VarintRoundTrip(|msg|, part[|header|..]);
    }
  }

  // ---------------------------------------------------------------------
  // The stream: what each call and each event does
  // ---------------------------------------------------------------------

  /** What a promise returned by `readFramed` has come to. */
  datatype Outcome = Pending | Resolved(msg: Message) | Rejected

  /** outcomes[i] is the promise of the i-th `readFramed` call. */
  datatype StreamState = StreamState(buffer: seq<Byte>, waiting: seq<nat>, outcomes: seq<Outcome>,
                                     closed: bool)

  predicate WaitingInRange(s: StreamState) {
    forall i :: 0 <= i < |s.waiting| ==> s.waiting[i] < |s.outcomes|
  }

  function Call(s: StreamState): StreamState {
    match ReadProtodelim(s.buffer)
    case Some(r) => s.(buffer := s.buffer[r.n..], outcomes := s.outcomes + [Resolved(r.msg)])
    case None =>
      if s.closed then s.(outcomes := s.outcomes + [Rejected])
      else s.(waiting := s.waiting + [|s.outcomes|], outcomes := s.outcomes + [Pending])
  }

  /** Hands complete frames to waiting readers, oldest first. */
  function Deliver(s: StreamState): StreamState
    requires WaitingInRange(s)
    decreases |s.waiting|
  {
    if s.waiting == [] then s
    else
      match ReadProtodelim(s.buffer)
      case None => s
      case Some(r) =>
        Deliver(s.(buffer := s.buffer[r.n..],
                   waiting := s.waiting[1..],
                   outcomes := s.outcomes[s.waiting[0] := Resolved(r.msg)]))
  }

  function Receive(s: StreamState, chunk: seq<Byte>): StreamState
    requires WaitingInRange(s)
  {
    Deliver(s.(buffer := s.buffer + chunk))
  }

  function RejectAll(outcomes: seq<Outcome>): seq<Outcome> {
    seq(|outcomes|, i requires 0 <= i < |outcomes| => if outcomes[i].Pending? then Rejected else outcomes[i])
  }

  function Failed(s: StreamState): StreamState {
    s.(closed := true, waiting := [], outcomes := RejectAll(s.outcomes))
  }

  // ---------------------------------------------------------------------
  // The stream object
  // ---------------------------------------------------------------------

  class Stream {
    var buffer: seq<Byte>
    var pendingResolvers: seq<nat>
    var outcomes: seq<Outcome>
    var closed: bool

    ghost function View(): StreamState
      reads this
    {
      StreamState(buffer, pendingResolvers, outcomes, closed)
    }

    /** The queue holds exactly the promises that are neither resolved nor rejected. */
    ghost predicate Valid()
      reads this
    {
      QueueIsPending(pendingResolvers, outcomes)
    }

    constructor ()
      ensures Valid() && View() == StreamState([], [], [], false)
    {
      buffer, pendingResolvers, outcomes, closed := [], [], [], false;
    }

    method ReadFramed() returns (call: nat)
      requires Valid()
      modifies this
      ensures Valid() && View() == Call(old(View())) && call == |old(outcomes)|
    {
      call := |outcomes|;
      var ready := ReadProtodelim(buffer);
      if ready.Some? {
        buffer := buffer[ready.value.n..];
        outcomes := outcomes + [Resolved(ready.value.msg)];
        return;
      }
      if closed {
        outcomes := outcomes + [Rejected];
        return;
      }
      outcomes := outcomes + [Pending];
      pendingResolvers := pendingResolvers + [call];
    }

    method OnMessage(chunk: seq<Byte>)
      requires Valid()
      modifies this
      ensures Valid() && View() == Receive(old(View()), chunk)
    {
      if |buffer| == 0 {
        assert buffer + chunk == chunk;
        buffer := chunk;
      } else {
        buffer := buffer + chunk;
      }
      while |pendingResolvers| > 0
        invariant Valid()
        invariant Deliver(View()) == Receive(old(View()), chunk)
        decreases |pendingResolvers|
      {
        var ready := ReadProtodelim(buffer);
        if ready.None? {
          break;
        }
        ResolveFirst(ready.value);
      }
    }

    /** Takes a complete frame off the buffer and hands it to the reader that waited longest. */
    method ResolveFirst(ready: Ready)
      requires Valid() && |pendingResolvers| > 0 && ReadProtodelim(buffer) == Some(ready)
      modifies this
      ensures Valid() && pendingResolvers == old(pendingResolvers)[1..]
      ensures Deliver(View()) == Deliver(old(View()))
    {
      buffer := buffer[ready.n..];
      var waiter := pendingResolvers[0];
      pendingResolvers := pendingResolvers[1..];
      outcomes := outcomes[waiter := Resolved(ready.msg)];
      StillPending(old(pendingResolvers), old(outcomes), ready.msg);
    }

    method Close()
      modifies this`closed
      ensures View() == old(View()).(closed := true)
    {
      closed := true;
    }

    method Fail()
      requires Valid()
      modifies this
      ensures Valid() && View() == Failed(old(View()))
    {
      closed := true;
      var i := 0;
      while i < |pendingResolvers|
        invariant 0 <= i <= |pendingResolvers| && pendingResolvers == old(pendingResolvers)
        invariant |outcomes| == |old(outcomes)| && closed && buffer == old(buffer)
        invariant forall k :: 0 <= k < |outcomes| ==>
                    outcomes[k] == if k in pendingResolvers[..i] then Rejected else old(outcomes)[k]
      {
        outcomes := outcomes[pendingResolvers[i] := Rejected];
        i := i + 1;
      }
      pendingResolvers := [];
      assert outcomes == RejectAll(old(outcomes));
    }
  }

  ghost predicate QueueIsPending(waiting: seq<nat>, outcomes: seq<Outcome>) {
    && (forall i :: 0 <= i < |waiting| ==> waiting[i] < |outcomes| && outcomes[waiting[i]].Pending?)
    && (forall i, j :: 0 <= i < j < |waiting| ==> waiting[i] < waiting[j])
    && (forall k :: 0 <= k < |outcomes| && outcomes[k].Pending? ==> k in waiting)
  }

  // ---------------------------------------------------------------------
  // Runs
  // ---------------------------------------------------------------------

  datatype Event = ReadCall | Chunk(bytes: seq<Byte>) | LocalClose | Failure

  function Next(s: StreamState, e: Event): StreamState
    requires WaitingInRange(s)
  {
    match e
    case ReadCall => Call(s)
    case Chunk(bytes) => Receive(s, bytes)
    case LocalClose => s.(closed := true)
    case Failure => Failed(s)
  }

  /** All bytes that arrived during a run. */
  function Received(events: seq<Event>): seq<Byte> {
    if events == [] then []
    else
      var last := events[|events| - 1];
      Received(events[..|events| - 1]) + if last.Chunk? then last.bytes else []
  }

  /** states lists the stream before and after each event, from a newly opened stream. */
  ghost predicate IsRun(events: seq<Event>, states: seq<StreamState>) {
    && |states| == |events| + 1
    && states[0] == StreamState([], [], [], false)
    && forall i :: 0 <= i < |events| ==>
         WaitingInRange(states[i]) && states[i + 1] == Next(states[i], events[i])
  }

  function Frames(msgs: seq<Message>): seq<Byte> {
    if msgs == [] then [] else Frame(msgs[0]) + Frames(msgs[1..])
  }

  lemma {:induction false} FramesSplit(msgs: seq<Message>, k: nat)
    requires k <= |msgs|
    ensures Frames(msgs) == Frames(msgs[..k]) + Frames(msgs[k..])
    decreases k
  {
    if k == 0 {
      assert msgs[0..] == msgs && msgs[..0] == [];
    } else {
      FramesSplit(msgs[1..], k - 1);
      assert msgs[..k][1..] == msgs[1..][..k - 1];
      assert msgs[1..][k - 1..] == msgs[k..];
      Assoc(Frame(msgs[0]), Frames(msgs[1..][..k - 1]), Frames(msgs[k..]));
    }
  }

  /** The messages that calls resolved to, in the order of the calls. */
  function Successes(outcomes: seq<Outcome>): seq<Message> {
    if outcomes == [] then []
    else
      var last := outcomes[|outcomes| - 1];
      Successes(outcomes[..|outcomes| - 1]) + if last.Resolved? then [last.msg] else []
  }

  /** No call after the first waiting one has been resolved. */
  ghost predicate ResolvedFirst(waiting: seq<nat>, outcomes: seq<Outcome>) {
    waiting != [] ==> forall i :: waiting[0] < i < |outcomes| ==> !outcomes[i].Resolved?
  }

  /** s has consumed exactly the frames it handed out, and waits only when it must. */
  ghost predicate Inv(s: StreamState, msgs: seq<Message>, rest: seq<Byte>) {
    && QueueIsPending(s.waiting, s.outcomes)
    && ResolvedFirst(s.waiting, s.outcomes)
    && (s.waiting != [] ==> ReadProtodelim(s.buffer).None?)
    && Handed(s, msgs, rest)
  }

  ghost predicate Handed(s: StreamState, msgs: seq<Message>, rest: seq<Byte>) {
    var k := |Successes(s.outcomes)|;
    && k <= |msgs|
    && Successes(s.outcomes) == msgs[..k]
    && s.buffer + rest == Frames(msgs[k..])
  }

  lemma {:induction false} SuccessesResolve(outcomes: seq<Outcome>, w: nat, msg: Message)
    requires w < |outcomes| && outcomes[w].Pending?
    requires forall i :: w < i < |outcomes| ==> !outcomes[i].Resolved?
    ensures Successes(outcomes[w := Resolved(msg)]) == Successes(outcomes) + [msg]
    decreases |outcomes|
  {
    var n := |outcomes| - 1;
    var outcomes' := outcomes[w := Resolved(msg)];
    if w == n {
      assert outcomes'[..n] == outcomes[..n];
      assert Successes(outcomes) == Successes(outcomes[..n]);
    } else {
      assert outcomes'[..n] == outcomes[..n][w := Resolved(msg)];
      SuccessesResolve(outcomes[..n], w, msg);
      assert Successes(outcomes') == Successes(outcomes'[..n]);
      assert Successes(outcomes) == Successes(outcomes[..n]);
    }
  }

  lemma {:induction false} SuccessesReject(outcomes: seq<Outcome>)
    ensures Successes(RejectAll(outcomes)) == Successes(outcomes)
  {
    if outcomes != [] {
      var n := |outcomes| - 1;
      SuccessesReject(outcomes[..n]);
      assert RejectAll(outcomes)[..n] == RejectAll(outcomes[..n]);
    }
  }

  lemma SuccessesSnoc(outcomes: seq<Outcome>, o: Outcome)
    ensures Successes(outcomes + [o]) == Successes(outcomes) + if o.Resolved? then [o.msg] else []
  {
    assert (outcomes + [o])[..|outcomes|] == outcomes;
  }

  /** What a buffer that begins the remaining frames yields: the next message, or nothing yet. */
  lemma NextFrame(buffer: seq<Byte>, rest: seq<Byte>, msgs: seq<Message>)
    requires forall m :: m in msgs ==> Framable(m)
    requires buffer + rest == Frames(msgs)
    ensures ReadProtodelim(buffer).Some? <==> msgs != [] && |buffer| >= |Frame(msgs[0])|
    ensures ReadProtodelim(buffer).Some? ==>
              && ReadProtodelim(buffer).value == Ready(msgs[0], |Frame(msgs[0])|)
              && buffer[|Frame(msgs[0])|..] + rest == Frames(msgs[1..])
  {
    if msgs != [] {
      var f := Frame(msgs[0]);
      if |buffer| >= |f| {
        FrameAtFront(buffer, rest, f, Frames(msgs[1..]));
        FrameReads(msgs[0], buffer[|f|..]);
      } else {
        FrameCutShort(buffer, rest, f, Frames(msgs[1..]));
        PartialFrameWaits(msgs[0], buffer);
      }
    } else {
      assert |buffer| == 0;
    }
  }

  lemma FrameAtFront(buffer: seq<Byte>, rest: seq<Byte>, f: seq<Byte>, tail: seq<Byte>)
    requires buffer + rest == f + tail && |buffer| >= |f|
    ensures buffer == f + buffer[|f|..] && buffer[|f|..] + rest == tail
  {
    DropPrefix(f, tail);
    assert buffer[..|f|] == (buffer + rest)[..|f|];
    assert (buffer + rest)[|f|..] == buffer[|f|..] + rest;
    SplitAt(buffer, |f|);
  }

  lemma FrameCutShort(buffer: seq<Byte>, rest: seq<Byte>, f: seq<Byte>, tail: seq<Byte>)
    requires buffer + rest == f + tail && |buffer| < |f|
    ensures buffer <= f
  {
    assert buffer == (buffer + rest)[..|buffer|] == f[..|buffer|];
  }

  /** A frame taken off the buffer for the next call keeps the books straight. */
  lemma HandedOne(s: StreamState, s': StreamState, msgs: seq<Message>, rest: seq<Byte>)
    requires forall m :: m in msgs ==> Framable(m)
    requires Handed(s, msgs, rest) && ReadProtodelim(s.buffer).Some?
    requires var r := ReadProtodelim(s.buffer).value;
             && s'.buffer == s.buffer[r.n..]
             && Successes(s'.outcomes) == Successes(s.outcomes) + [r.msg]
    ensures Handed(s', msgs, rest)
  {
    var k := |Successes(s.outcomes)|;
    NextFrame(s.buffer, rest, msgs[k..]);
    assert msgs[..k] + [msgs[k]] == msgs[..k + 1];
    assert msgs[k..][1..] == msgs[k + 1..];
  }

  lemma CallKeeps(s: StreamState, msgs: seq<Message>, rest: seq<Byte>)
    requires forall m :: m in msgs ==> Framable(m)
    requires Inv(s, msgs, rest)
    ensures Inv(Call(s), msgs, rest)
  {
    var s' := Call(s);
    match ReadProtodelim(s.buffer) {
      case Some(r) =>
        SuccessesSnoc(s.outcomes, Resolved(r.msg));
        HandedOne(s, s', msgs, rest);
      case None =>
        var o := if s.closed then Rejected else Pending;
        SuccessesSnoc(s.outcomes, o);
        assert Successes(s'.outcomes) == Successes(s.outcomes);
        CallQueues(s.waiting, s.outcomes);
    }
  }

  lemma CallQueues(waiting: seq<nat>, outcomes: seq<Outcome>)
    requires QueueIsPending(waiting, outcomes) && ResolvedFirst(waiting, outcomes)
    ensures QueueIsPending(waiting, outcomes + [Rejected]) && ResolvedFirst(waiting, outcomes + [Rejected])
    ensures QueueIsPending(waiting + [|outcomes|], outcomes + [Pending])
    ensures ResolvedFirst(waiting + [|outcomes|], outcomes + [Pending])
  {
    var waiting', outcomes' := waiting + [|outcomes|], outcomes + [Pending];
    forall k | 0 <= k < |outcomes'| && outcomes'[k].Pending? ensures k in waiting' {
      if k < |outcomes| {
        assert outcomes[k].Pending? && k in waiting;
      } else {
        assert waiting'[|waiting|] == k;
      }
    }
  }

  lemma {:induction false} DeliverKeeps(s: StreamState, msgs: seq<Message>, rest: seq<Byte>)
    requires forall m :: m in msgs ==> Framable(m)
    requires QueueIsPending(s.waiting, s.outcomes) && ResolvedFirst(s.waiting, s.outcomes)
    requires Handed(s, msgs, rest)
    ensures Inv(Deliver(s), msgs, rest)
    decreases |s.waiting|
  {
    if s.waiting != [] && ReadProtodelim(s.buffer).Some? {
      var r := ReadProtodelim(s.buffer).value;
      var w := s.waiting[0];
      var s' := s.(buffer := s.buffer[r.n..],
                   waiting := s.waiting[1..],
                   outcomes := s.outcomes[w := Resolved(r.msg)]);
      SuccessesResolve(s.outcomes, w, r.msg);
      HandedOne(s, s', msgs, rest);
      ResolveKeepsQueue(s.waiting, s.outcomes, r.msg);
      DeliverKeeps(s', msgs, rest);
    }
  }

  lemma ResolveKeepsQueue(waiting: seq<nat>, outcomes: seq<Outcome>, msg: Message)
    requires waiting != [] && QueueIsPending(waiting, outcomes) && ResolvedFirst(waiting, outcomes)
    ensures var outcomes' := outcomes[waiting[0] := Resolved(msg)];
            QueueIsPending(waiting[1..], outcomes') && ResolvedFirst(waiting[1..], outcomes')
  {
    StillPending(waiting, outcomes, msg);
  }

  lemma StillPending(waiting: seq<nat>, outcomes: seq<Outcome>, msg: Message)
    requires waiting != [] && QueueIsPending(waiting, outcomes)
    ensures QueueIsPending(waiting[1..], outcomes[waiting[0] := Resolved(msg)])
  {
    var outcomes' := outcomes[waiting[0] := Resolved(msg)];
    forall k | 0 <= k < |outcomes'| && outcomes'[k].Pending? ensures k in waiting[1..] {
      assert k in waiting && k != waiting[0];
    }
  }

  lemma NextKeeps(s: StreamState, e: Event, msgs: seq<Message>, rest: seq<Byte>, rest': seq<Byte>)
    requires forall m :: m in msgs ==> Framable(m)
    requires Inv(s, msgs, rest)
    requires rest == (if e.Chunk? then e.bytes else []) + rest'
    ensures Inv(Next(s, e), msgs, rest')
  {
    match e {
      case ReadCall =>
        assert rest == rest';
        CallKeeps(s, msgs, rest);
      case Chunk(bytes) =>
        Assoc(s.buffer, bytes, rest');
        DeliverKeeps(s.(buffer := s.buffer + bytes), msgs, rest');
      case LocalClose =>
        assert rest == rest';
      case Failure =>
        assert rest == rest';
        SuccessesReject(s.outcomes);
    }
  }

  lemma {:induction false} RunKeeps(events: seq<Event>, states: seq<StreamState>,
                                    msgs: seq<Message>, rest: seq<Byte>)
    requires IsRun(events, states)
    requires forall m :: m in msgs ==> Framable(m)
    requires Received(events) + rest == Frames(msgs)
    ensures Inv(states[|events|], msgs, rest)
    decreases |events|
  {
    if events == [] {
      assert [] + rest == rest;
      assert msgs[..0] == [] && msgs[0..] == msgs;
    } else {
      var n := |events| - 1;
      var e := events[n];
      var now := if e.Chunk? then e.bytes else [];
      assert IsRun(events[..n], states[..n + 1]) by {
        assert forall i :: 0 <= i < n ==> events[..n][i] == events[i];
      }
      Assoc(Received(events[..n]), now, rest);
      RunKeeps(events[..n], states[..n + 1], msgs, now + rest);
      NextKeeps(states[n], e, msgs, now + rest, rest);
    }
  }

  /**
    However the framed bytes are cut up, and however reads, local closes and
    failures interleave with them: the calls that succeed, taken in call order,
    are given the messages in order, with none skipped, repeated or split.
   */
  lemma SuccessesInOrder(events: seq<Event>, states: seq<StreamState>,
                         msgs: seq<Message>, rest: seq<Byte>)
    requires IsRun(events, states)
    requires forall m :: m in msgs ==> Framable(m)
    requires Received(events) + rest == Frames(msgs)
    ensures Successes(states[|events|].outcomes) <= msgs
    ensures states[|events|].waiting != [] ==> ReadProtodelim(states[|events|].buffer).None?
  {
    RunKeeps(events, states, msgs, rest);
  }

  // ---------------------------------------------------------------------
  // Open streams: the i-th call resolves to the i-th message
  // ---------------------------------------------------------------------

  ghost predicate StaysOpen(events: seq<Event>) {
    forall i :: 0 <= i < |events| ==> !events[i].LocalClose? && !events[i].Failure?
  }

  lemma {:induction false} NeverRejected(events: seq<Event>, states: seq<StreamState>)
    requires IsRun(events, states) && StaysOpen(events)
    ensures var s := states[|events|]; !s.closed && Rejected !in s.outcomes
    decreases |events|
  {
    if events != [] {
      var n := |events| - 1;
      assert IsRun(events[..n], states[..n + 1]) by {
        assert forall i :: 0 <= i < n ==> events[..n][i] == events[i];
      }
      NeverRejected(events[..n], states[..n + 1]);
      if events[n].Chunk? {
        DeliverRejectsNone(states[n].(buffer := states[n].buffer + events[n].bytes));
      }
    }
  }

  lemma {:induction false} DeliverRejectsNone(s: StreamState)
    requires WaitingInRange(s) && Rejected !in s.outcomes
    ensures Rejected !in Deliver(s).outcomes && Deliver(s).closed == s.closed
    decreases |s.waiting|
  {
    if s.waiting != [] && ReadProtodelim(s.buffer).Some? {
      var r := ReadProtodelim(s.buffer).value;
      DeliverRejectsNone(s.(buffer := s.buffer[r.n..],
                            waiting := s.waiting[1..],
                            outcomes := s.outcomes[s.waiting[0] := Resolved(r.msg)]));
    }
  }

  /** Without rejections, the resolved calls are the first ones. */
  lemma {:induction false} ResolvedPrefix(waiting: seq<nat>, outcomes: seq<Outcome>)
    requires QueueIsPending(waiting, outcomes) && ResolvedFirst(waiting, outcomes)
    requires Rejected !in outcomes
    ensures var k := |Successes(outcomes)|;
            && k <= |outcomes|
            && (forall i :: 0 <= i < k ==> outcomes[i] == Resolved(Successes(outcomes)[i]))
            && (forall i :: k <= i < |outcomes| ==> outcomes[i].Pending?)
  {
    var p := if waiting == [] then |outcomes| else waiting[0];
    forall i | 0 <= i < p ensures outcomes[i].Resolved? {
      assert outcomes[i] in outcomes;
      assert i !in waiting;
    }
    forall i | p <= i < |outcomes| ensures outcomes[i].Pending? {
      assert outcomes[i] in outcomes;
    }
    CountPrefix(outcomes, p);
  }

  lemma {:induction false} CountPrefix(outcomes: seq<Outcome>, p: nat)
    requires p <= |outcomes|
    requires forall i :: 0 <= i < p ==> outcomes[i].Resolved?
    requires forall i :: p <= i < |outcomes| ==> outcomes[i].Pending?
    ensures |Successes(outcomes)| == p
    ensures forall i :: 0 <= i < p ==> outcomes[i] == Resolved(Successes(outcomes)[i])
    decreases |outcomes|
  {
    if outcomes != [] {
      var n := |outcomes| - 1;
      CountPrefix(outcomes[..n], if p > n then n else p);
    }
  }

  /**
    On a stream nobody closes, for every chunking and every interleaving: the
    i-th `readFramed` call has resolved, and to the i-th message, exactly when
    all of that message's frame has arrived; until then it is pending.
   */
  lemma EachCallGetsItsMessage(events: seq<Event>, states: seq<StreamState>,
                               msgs: seq<Message>, rest: seq<Byte>, i: nat)
    requires IsRun(events, states) && StaysOpen(events)
    requires forall m :: m in msgs ==> Framable(m)
    requires Received(events) + rest == Frames(msgs)
    requires i < |states[|events|].outcomes|
    ensures states[|events|].outcomes[i] ==
            if i < |msgs| && |Frames(msgs[..i + 1])| <= |Received(events)| then Resolved(msgs[i])
            else Pending
  {
    var s := states[|events|];
    RunKeeps(events, states, msgs, rest);
    NeverRejected(events, states);
    ResolvedPrefix(s.waiting, s.outcomes);
    var k := |Successes(s.outcomes)|;
    assert s.outcomes[i].Pending? ==> s.waiting != [];
    ArrivedSoFar(s, Received(events), msgs, rest);
    ByCount(msgs, k, |Received(events)|, i);
  }

  /** With n bytes arrived, the first k frames complete and the next one not, message i is complete iff i < k. */
  lemma ByCount(msgs: seq<Message>, k: nat, n: nat, i: nat)
    requires k <= |msgs| && |Frames(msgs[..k])| <= n
    ensures i < k ==> |Frames(msgs[..i + 1])| <= n
    ensures k <= i < |msgs| && n < |Frames(msgs[..k + 1])| ==> n < |Frames(msgs[..i + 1])|
  {
    if i < k {
      FramesGrow(msgs, i + 1, k);
    } else if i < |msgs| {
      FramesGrow(msgs, k + 1, i + 1);
    }
  }

  /** Between the frames handed out and the end of the next one, when that one is incomplete. */
  lemma ArrivedSoFar(s: StreamState, received: seq<Byte>, msgs: seq<Message>, rest: seq<Byte>)
    requires forall m :: m in msgs ==> Framable(m)
    requires Handed(s, msgs, rest) && received + rest == Frames(msgs)
    ensures var k := |Successes(s.outcomes)|;
            && |Frames(msgs[..k])| <= |received|
            && (k < |msgs| && ReadProtodelim(s.buffer).None? ==> |received| < |Frames(msgs[..k + 1])|)
  {
    var k := |Successes(s.outcomes)|;
    FramesSplit(msgs, k);
    NextFrame(s.buffer, rest, msgs[k..]);
    assert |received| == |Frames(msgs[..k])| + |s.buffer|;
    if k < |msgs| {
      OneFrameMore(msgs, k);
    }
  }

  lemma OneFrameMore(msgs: seq<Message>, k: nat)
    requires k < |msgs|
    ensures |Frames(msgs[..k + 1])| == |Frames(msgs[..k])| + |Frame(msgs[k])|
  {
    var upTo := msgs[..k + 1];
    FramesSplit(upTo, k);
    assert upTo[..k] == msgs[..k] && upTo[k..] == [msgs[k]];
    assert Frames([msgs[k]]) == Frame(msgs[k]) + Frames([msgs[k]][1..]);
  }

  lemma FramesGrow(msgs: seq<Message>, i: nat, j: nat)
    requires i <= j <= |msgs|
    ensures |Frames(msgs[..i])| <= |Frames(msgs[..j])|
  {
    FramesSplit(msgs[..j], i);
    assert msgs[..j][..i] == msgs[..i];
  }

  // ---------------------------------------------------------------------
  // Closing: every call gets an answer, and keeps it
  // ---------------------------------------------------------------------

  lemma {:induction false} DeliverAnswers(s: StreamState, k: nat)
    requires QueueIsPending(s.waiting, s.outcomes) && k < |s.outcomes|
    ensures QueueIsPending(Deliver(s).waiting, Deliver(s).outcomes)
    ensures |Deliver(s).outcomes| == |s.outcomes| && Deliver(s).closed == s.closed
    ensures !s.outcomes[k].Pending? ==> Deliver(s).outcomes[k] == s.outcomes[k]
    ensures Deliver(s).outcomes[k] != Rejected || s.outcomes[k] == Rejected
    decreases |s.waiting|
  {
    if s.waiting != [] && ReadProtodelim(s.buffer).Some? {
      var r := ReadProtodelim(s.buffer).value;
      StillPending(s.waiting, s.outcomes, r.msg);
      DeliverAnswers(s.(buffer := s.buffer[r.n..],
                        waiting := s.waiting[1..],
                        outcomes := s.outcomes[s.waiting[0] := Resolved(r.msg)]), k);
    }
  }

  /** The queue holds exactly the unanswered calls, after every event. */
  lemma QueueKept(s: StreamState, e: Event)
    requires QueueIsPending(s.waiting, s.outcomes)
    ensures QueueIsPending(Next(s, e).waiting, Next(s, e).outcomes)
  {
    if e.Chunk? && s.outcomes != [] {
      DeliverAnswers(s.(buffer := s.buffer + e.bytes), 0);
    } else if e.ReadCall? {
      NewCallQueues(s.waiting, s.outcomes);
    }
  }

  lemma NewCallQueues(waiting: seq<nat>, outcomes: seq<Outcome>)
    requires QueueIsPending(waiting, outcomes)
    ensures forall o: Outcome :: !o.Pending? ==> QueueIsPending(waiting, outcomes + [o])
    ensures QueueIsPending(waiting + [|outcomes|], outcomes + [Pending])
  {
    var waiting', outcomes' := waiting + [|outcomes|], outcomes + [Pending];
    forall k | 0 <= k < |outcomes'| && outcomes'[k].Pending? ensures k in waiting' {
      assert k == |outcomes| ==> waiting'[|waiting|] == k;
    }
  }

  /** What one event does to a call made before it: an answer stands, and only a failure rejects. */
  lemma AnswerStep(s: StreamState, e: Event, k: nat)
    requires QueueIsPending(s.waiting, s.outcomes) && k < |s.outcomes|
    ensures k < |Next(s, e).outcomes|
    ensures var o, o' := s.outcomes[k], Next(s, e).outcomes[k];
            && (!o.Pending? ==> o' == o)
            && (o.Pending? ==> if e.Failure? then o' == Rejected else o' != Rejected)
  {
    if e.Chunk? {
      DeliverAnswers(s.(buffer := s.buffer + e.bytes), k);
    }
  }

  lemma {:induction false} QueueAlways(events: seq<Event>, states: seq<StreamState>, i: nat)
    requires IsRun(events, states) && i <= |events|
    ensures QueueIsPending(states[i].waiting, states[i].outcomes)
    decreases i
  {
    if i > 0 {
      QueueAlways(events, states, i - 1);
      QueueKept(states[i - 1], events[i - 1]);
    }
  }

  /** Over every run: once a call is resolved or rejected, it stays that way. */
  lemma {:induction false} AnswersStand(events: seq<Event>, states: seq<StreamState>, i: nat, j: nat, k: nat)
    requires IsRun(events, states) && i <= j <= |events|
    requires k < |states[i].outcomes|
    ensures k < |states[j].outcomes|
    ensures !states[i].outcomes[k].Pending? ==> states[j].outcomes[k] == states[i].outcomes[k]
    decreases j
  {
    if i < j {
      AnswersStand(events, states, i, j - 1, k);
      QueueAlways(events, states, j - 1);
      AnswerStep(states[j - 1], events[j - 1], k);
    }
  }

  predicate Closes(e: Event) {
    e.LocalClose? || e.Failure?
  }

  lemma DeliverOpen(s: StreamState, e: Event)
    requires QueueIsPending(s.waiting, s.outcomes)
    ensures Next(s, e).closed <==> s.closed || Closes(e)
  {
    if e.Chunk? && s.outcomes != [] {
      DeliverAnswers(s.(buffer := s.buffer + e.bytes), 0);
    }
  }

  lemma {:induction false} ClosedExactly(events: seq<Event>, states: seq<StreamState>, j: nat)
    requires IsRun(events, states) && j <= |events|
    ensures states[j].closed <==> exists i :: 0 <= i < j && Closes(events[i])
    decreases j
  {
    if j > 0 {
      ClosedExactly(events, states, j - 1);
      QueueAlways(events, states, j - 1);
      DeliverOpen(states[j - 1], events[j - 1]);
    }
  }

  /** After a failure, in every later state: no call is left waiting, and those that were are rejected. */
  lemma {:induction false} FailureAnswersAll(events: seq<Event>, states: seq<StreamState>, f: nat, j: nat)
    requires IsRun(events, states) && f < j <= |events| && events[f] == Failure
    ensures states[j].waiting == []
    ensures forall k :: 0 <= k < |states[j].outcomes| ==> !states[j].outcomes[k].Pending?
    ensures |states[f].outcomes| <= |states[j].outcomes|
    ensures forall k :: 0 <= k < |states[f].outcomes| ==>
              states[j].outcomes[k] == if states[f].outcomes[k].Pending? then Rejected else states[f].outcomes[k]
    decreases j
  {
    if f + 1 < j {
      FailureAnswersAll(events, states, f, j - 1);
      ClosedExactly(events, states, j - 1);
      assert Closes(events[f]);
    }
  }

  /**
    How a call is answered when it is made, on any run so far: with the next
    message if its frame has arrived, open or closed; failing that, a closed
    stream rejects it and an open one makes it wait.
   */
  lemma CallAnswered(events: seq<Event>, states: seq<StreamState>, msgs: seq<Message>, rest: seq<Byte>)
    requires IsRun(events, states)
    requires forall m :: m in msgs ==> Framable(m)
    requires Received(events) + rest == Frames(msgs)
    ensures var s := states[|events|];
            var k := |Successes(s.outcomes)|;
            && k <= |msgs|
            && Call(s).outcomes == s.outcomes +
                 [if k < |msgs| && |Frames(msgs[..k + 1])| <= |Received(events)| then Resolved(msgs[k])
                  else if exists i :: 0 <= i < |events| && Closes(events[i]) then Rejected
                  else Pending]
  {
    var s := states[|events|];
    var k := |Successes(s.outcomes)|;
    RunKeeps(events, states, msgs, rest);
    ClosedExactly(events, states, |events|);
    ArrivedSoFar(s, Received(events), msgs, rest);
    NextFrame(s.buffer, rest, msgs[k..]);
    FramesSplit(msgs, k);
    if k < |msgs| {
      OneFrameMore(msgs, k);
    }
  }
}
