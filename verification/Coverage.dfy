/**
  The replay protocol (vterm/vterm.go `bridgeClient`, vterm/session.go
  `pumpOutput` and `broadcast`): a client registers, reads the ring, and puts
  what it read on its channel, while the pump writes the ring and then
  broadcasts. Every one of these is a step of its own.

  `GapFreeAttach` proves that no interleaving opens a gap between what a client
  was replayed and what it was sent live. `ClientsSeeFilteredOutput` adds the
  filter in front: the sequence numbers count the program's output with its
  Device Attributes queries deleted.
 */
module Coverage {
  import opened Common
  import opened OutputRing
  import opened SessionModel
  import DA = DeviceAttributes
  import Invariants = SessionInvariants

  /** Everything ever put on a client's channel. */
  function Sent(c: Client): seq<Entry> {
    c.taken + c.outCh
  }

  /** e carries the history bytes its sequence number says it does. */
  predicate Genuine(history: seq<Byte>, e: Entry) {
    && 1 <= e.first && e.first - 1 + |e.bytes| <= |history|
    && e.bytes == history[e.first - 1..e.first - 1 + |e.bytes|]
  }

  /** Some entry carries the byte with sequence number p. */
  ghost predicate Carried(entries: seq<Entry>, p: int) {
    exists i :: 0 <= i < |entries| && Carries(entries[i], p)
  }

  predicate Carries(e: Entry, p: int) {
    e.first <= p < e.first + |e.bytes|
  }

  /** Every sequence number from lo to hi is carried. */
  ghost predicate Covers(entries: seq<Entry>, lo: int, hi: int) {
    forall p :: lo <= p <= hi ==> Carried(entries, p)
  }

  // ---------------------------------------------------------------------
  // The invariant
  // ---------------------------------------------------------------------

  /** What is in flight is the end of the history. */
  predicate PumpOk(p: Pump) {
    p.inFlight.Some? ==>
      && Genuine(p.history, p.inFlight.value)
      && p.inFlight.value.first + |p.inFlight.value.bytes| == |p.history| + 1
  }

  /** Where the replay promised to begin. */
  function ReplayStart(c: Client): nat
    requires c.replay.Some?
  {
    Max(c.since, c.replay.value.first)
  }

  /** Output read for the replay and still to be sent runs from its promised start past the moment of joining. */
  predicate UnsentOk(c: Client, history: seq<Byte>) {
    AwaitsReplay(c) ==>
      var e := c.replay.value.unsent.value;
      Genuine(history, e) && e.first == ReplayStart(c) && e.first + |e.bytes| > c.joined
  }

  /** The replay found its position and has been sent. */
  predicate HasReplayed(c: Client) {
    c.replay.Some? && !c.replay.value.behind && c.replay.value.unsent.None?
  }

  /** If nothing was dropped, live output since joining and replayed output before it are all there. */
  ghost predicate ClientOk(c: Client, history: seq<Byte>, broadcast: int) {
    && (forall i :: 0 <= i < |Sent(c)| ==> Genuine(history, Sent(c)[i]))
    && 0 <= c.joined <= broadcast
    && UnsentOk(c, history)
    && (c.dropped == 0 ==> Covers(Sent(c), c.joined + 1, broadcast))
    && (c.dropped == 0 && HasReplayed(c) ==> Covers(Sent(c), ReplayStart(c), c.joined))
  }

  ghost predicate Inv(s: Session) {
    && s.capacity > 0
    && PumpOk(s.pump)
    && forall id :: id in s.clients ==> ClientOk(s.clients[id], s.pump.history, Broadcast(s.pump))
  }

  // ---------------------------------------------------------------------
  // Sending
  // ---------------------------------------------------------------------

  lemma CarriedMore(entries: seq<Entry>, e: Entry, p: int)
    ensures Carried(entries, p) || Carries(e, p) ==> Carried(entries + [e], p)
  {
    var all := entries + [e];
    if Carried(entries, p) {
      var i :| 0 <= i < |entries| && Carries(entries[i], p);
      assert Carries(all[i], p);
    }
    if Carries(e, p) {
      assert Carries(all[|entries|], p);
    }
  }

  lemma CoversMore(entries: seq<Entry>, e: Entry, lo: int, hi: int)
    requires Covers(entries, lo, hi)
    ensures Covers(entries + [e], lo, hi)
  {
    forall p | lo <= p <= hi ensures Carried(entries + [e], p) {
      CarriedMore(entries, e, p);
    }
  }

  /** A chunk sent live carries everything from the old broadcast mark to the new one. */
  lemma OfferLive(c: Client, history: seq<Byte>, broadcast: int, e: Entry)
    requires ClientOk(c, history, broadcast) && Genuine(history, e)
    requires e.first == broadcast + 1
    ensures ClientOk(Offer(c, e), history, broadcast + |e.bytes|)
  {
    var c' := Offer(c, e);
    if |c.outCh| < CHANNEL_DEPTH {
      assert Sent(c') == Sent(c) + [e];
      if c.dropped == 0 {
        forall p | c.joined + 1 <= p <= broadcast + |e.bytes| ensures Carried(Sent(c'), p) {
          CarriedMore(Sent(c), e, p);
        }
        if HasReplayed(c) {
          CoversMore(Sent(c), e, ReplayStart(c), c.joined);
        }
      }
    } else {
      assert Sent(c') == Sent(c);
    }
  }

  lemma BroadcastKeeps(s: Session)
    requires Inv(s)
    ensures Inv(BroadcastOne(s))
  {
    var s' := BroadcastOne(s);
    if s.pump.inFlight.Some? {
      forall id | id in s'.clients
        ensures ClientOk(s'.clients[id], s'.pump.history, Broadcast(s'.pump))
      {
        OfferLive(s.clients[id], s.pump.history, Broadcast(s.pump), s.pump.inFlight.value);
      }
    }
  }

  /** The ring has everything broadcast so far, so the replay reaches past the moment of joining. */
  lemma ReplayKeeps(s: Session, id: nat)
    requires Inv(s)
    ensures Inv(ReplayTo(s, id))
  {
    if id in s.clients && s.clients[id].replay.None? {
      var c, c' := s.clients[id], ReplayTo(s, id).clients[id];
      FoundOk(s.pump.history, s.capacity, c, c');
      assert Sent(c') == Sent(c);
    }
  }

  lemma FoundOk(history: seq<Byte>, capacity: nat, c: Client, c': Client)
    requires capacity > 0 && 0 <= c.joined <= |history|
    requires c' == c.(replay := Some(Found(history, capacity, c.since)))
    ensures UnsentOk(c', history)
    ensures HasReplayed(c') ==> ReplayStart(c') > c'.joined
  {
    var r := ReplayFrom(history, capacity, c.since);
    var first := FirstSeq(history, capacity);
    if !r.behind && |r.data| > 0 {
      var start := Max(c.since, first);
      assert r.nextSeq - |r.data| == start && r.nextSeq == |history| + 1;
      assert Genuine(history, Entry(start, r.data));
    }
  }

  lemma SendReplayKeeps(s: Session, id: nat)
    requires Inv(s)
    ensures Inv(SendReplayTo(s, id))
  {
    if id in s.clients && AwaitsReplay(s.clients[id]) {
      OfferReplay(s.clients[id], s.pump.history, Broadcast(s.pump));
    }
  }

  /** Whatever was sent live in the meantime, the replay fills everything before it. */
  lemma OfferReplay(c: Client, history: seq<Byte>, broadcast: int)
    requires ClientOk(c, history, broadcast) && AwaitsReplay(c)
    ensures ClientOk(ReplaySent(c), history, broadcast)
  {
    var c' := ReplaySent(c);
    var e := c.replay.value.unsent.value;
    if |c.outCh| < CHANNEL_DEPTH {
      assert Sent(c') == Sent(c) + [e];
      if c.dropped == 0 {
        CoversMore(Sent(c), e, c.joined + 1, broadcast);
        forall p | ReplayStart(c) <= p <= c.joined ensures Carried(Sent(c'), p) {
          CarriedMore(Sent(c), e, p);
        }
      }
    } else {
      assert Sent(c') == Sent(c);
    }
  }

  lemma DeliverKeeps(s: Session, id: nat)
    requires Inv(s)
    ensures Inv(DeliverOne(s, id))
  {
    if id in s.clients && s.clients[id].outCh != [] {
      var c, c' := s.clients[id], DeliverOne(s, id).clients[id];
      assert Sent(c') == Sent(c);
    }
  }

  // ---------------------------------------------------------------------
  // The pump
  // ---------------------------------------------------------------------

  lemma GenuineGrows(history: seq<Byte>, more: seq<Byte>, e: Entry)
    requires Genuine(history, e)
    ensures Genuine(history + more, e)
  {
  }

  lemma PumpKeeps(s: Session, input: seq<Byte>)
    requires Inv(s)
    ensures Inv(s.(pump := PumpIn(s.pump, input)))
  {
    var p := s.pump;
    if p.inFlight.None? {
      var r := DA.Feed(DA.Run(p.da, p.held, [], []), input);
      var p' := PumpIn(p, input);
      assert Broadcast(p') == Broadcast(p);
      forall id | id in s.clients ensures ClientOk(s.clients[id], p'.history, Broadcast(p')) {
        var c := s.clients[id];
        forall i | 0 <= i < |Sent(c)| ensures Genuine(p'.history, Sent(c)[i]) {
          GenuineGrows(p.history, r.out, Sent(c)[i]);
        }
        if AwaitsReplay(c) {
          GenuineGrows(p.history, r.out, c.replay.value.unsent.value);
        }
      }
    }
  }

  // ---------------------------------------------------------------------
  // The registry
  // ---------------------------------------------------------------------

  /** Registry steps leave channels and histories alone, and new clients start empty. */
  ghost predicate SameOutput(s: Session, s': Session) {
    && s'.capacity == s.capacity && s'.pump == s.pump
    && forall id :: id in s'.clients ==>
         || (&& id in s.clients
             && var c, c' := s.clients[id], s'.clients[id];
                && c'.outCh == c.outCh && c'.taken == c.taken && c'.dropped == c.dropped
                && c'.since == c.since && c'.joined == c.joined && c'.replay == c.replay)
         || (s'.clients[id].outCh == [] && s'.clients[id].taken == [] && s'.clients[id].replay == None
             && s'.clients[id].joined == Broadcast(s.pump))
  }

  lemma SameOutputKeeps(s: Session, s': Session)
    requires Inv(s) && SameOutput(s, s')
    ensures Inv(s')
  {
    forall id | id in s'.clients
      ensures ClientOk(s'.clients[id], s'.pump.history, Broadcast(s'.pump))
    {
      var c' := s'.clients[id];
      if id in s.clients && Sent(c') != [] {
        assert Sent(c') == Sent(s.clients[id]);
      }
    }
  }

  lemma AttachOutput(s: Session, remote: string, caps: Capabilities, since: nat)
    ensures SameOutput(s, Admit(s, remote, caps, since))
  {
    if !Refuses(s) {
      EnterOutput(s, MakeRoom(s), remote, caps, MayWrite(s, caps), since);
    }
  }

  lemma EnterOutput(s: Session, room: Session, remote: string, caps: Capabilities, canWrite: bool, since: nat)
    requires room == MakeRoom(s)
    ensures SameOutput(s, Enter(room, remote, caps, canWrite, since))
  {
  }

  lemma MessageOutput(s: Session, remote: string, caps: Capabilities, m: Control)
    ensures SameOutput(s, Dispatch(s, remote, caps, m))
  {
    Invariants.MessageAdministers(s, remote, caps, m);
  }

  lemma NextKeeps(s: Session, step: Step)
    requires Inv(s)
    ensures Inv(Next(s, step))
  {
    match step {
      case Attach(remote, caps, since) =>
        AttachOutput(s, remote, caps, since);
        SameOutputKeeps(s, Next(s, step));
      case Message(remote, caps, m) =>
        MessageOutput(s, remote, caps, m);
        SameOutputKeeps(s, Next(s, step));
      case Replay(id) => ReplayKeeps(s, id);
      case SendReplay(id) => SendReplayKeeps(s, id);
      case Deliver(id) => DeliverKeeps(s, id);
      case Remove(id) =>
      case PumpRead(input) => PumpKeeps(s, input);
      case PumpBroadcast => BroadcastKeeps(s);
      case Shutdown =>
    }
  }

  lemma {:induction false} Always(mode: Mode, capacity: nat, steps: seq<Step>, states: seq<Session>, i: nat)
    requires capacity > 0 && IsRun(Initial(mode, capacity), steps, states) && i <= |steps|
    ensures Inv(states[i])
    decreases i
  {
    if i > 0 {
      Always(mode, capacity, steps, states, i - 1);
      NextKeeps(states[i - 1], steps[i - 1]);
    }
  }

  // ---------------------------------------------------------------------
  // The theorems
  // ---------------------------------------------------------------------

  /**
    In every reachable state, for every client whose replay found its position
    and has been sent, and whose channel never overflowed: each byte from where
    the replay began to the last byte broadcast was put on its channel, carrying
    the right value.
   */
  lemma GapFreeAttach(mode: Mode, capacity: nat, steps: seq<Step>, states: seq<Session>, i: nat, id: nat, p: nat)
    requires capacity > 0 && IsRun(Initial(mode, capacity), steps, states) && i <= |steps|
    requires id in states[i].clients
    requires var c := states[i].clients[id];
             && c.dropped == 0 && HasReplayed(c)
             && Max(c.since, c.replay.value.first) <= p <= Broadcast(states[i].pump)
    ensures var c := states[i].clients[id];
            var history := states[i].pump.history;
            && 1 <= p <= |history|
            && exists k :: && 0 <= k < |Sent(c)|
                           && Carries(Sent(c)[k], p)
                           && Sent(c)[k].bytes[p - Sent(c)[k].first] == history[p - 1]
  {
    Always(mode, capacity, steps, states, i);
    var s := states[i];
    var c := s.clients[id];
    assert ClientOk(c, s.pump.history, Broadcast(s.pump));
    assert Carried(Sent(c), p);
    var k :| 0 <= k < |Sent(c)| && Carries(Sent(c)[k], p);
    assert Genuine(s.pump.history, Sent(c)[k]);
  }

  // ---------------------------------------------------------------------
  // What the replay found, in numbers
  // ---------------------------------------------------------------------

  /**
    The replay read a ring into which n bytes had been written: it began at the
    oldest of the last `capacity`, and found the client behind exactly when the
    client claimed a position whose byte had been pushed out by then.
   */
  predicate ReadAt(c: Client, capacity: nat, n: nat)
    requires c.replay.Some?
  {
    && c.replay.value.first == (if n < capacity then 1 else n - capacity + 1)
    && (c.replay.value.behind <==> 0 < c.since && c.since + capacity <= n)
  }

  /** The replay, if it has happened, read what had been written at some moment after the client joined. */
  ghost predicate ReadOnce(c: Client, capacity: nat, written: nat) {
    c.replay.Some? ==> exists n: nat :: c.joined <= n <= written && ReadAt(c, capacity, n)
  }

  ghost predicate ReadsNumbered(s: Session) {
    forall id :: id in s.clients ==> ReadOnce(s.clients[id], s.capacity, |s.pump.history|)
  }

  /** What a read of the ring finds for a client at `since`, in numbers. */
  lemma FoundExactly(history: seq<Byte>, capacity: nat, since: nat)
    requires capacity > 0
    ensures var f := Found(history, capacity, since);
            && f.first == (if |history| < capacity then 1 else |history| - capacity + 1)
            && (f.behind <==> 0 < since && since + capacity <= |history|)
            && (f.unsent.Some? <==> !f.behind && since <= |history| && |history| > 0)
  {
    if since == 0 {
      FreshReplay(history, capacity);
    } else {
      ReplayExactly(history, capacity, since);
    }
  }

  /** When a client's replay reads the ring: exactly when it is found behind, and what awaits sending. */
  lemma BehindExactly(s: Session, id: nat)
    requires s.capacity > 0 && id in s.clients && s.clients[id].replay.None?
    ensures var c := ReplayTo(s, id).clients[id];
            && c.replay.Some? && c == s.clients[id].(replay := c.replay)
            && (c.replay.value.behind <==> 0 < c.since && c.since + s.capacity <= |s.pump.history|)
            && (AwaitsReplay(c) <==>
                  !c.replay.value.behind && c.since <= |s.pump.history| && |s.pump.history| > 0)
  {
    FoundExactly(s.pump.history, s.capacity, s.clients[id].since);
  }

  lemma ReplayReads(s: Session, id: nat)
    requires Inv(s) && ReadsNumbered(s)
    ensures ReadsNumbered(ReplayTo(s, id))
  {
    if id in s.clients && s.clients[id].replay.None? {
      var c := ReplayTo(s, id).clients[id];
      FoundExactly(s.pump.history, s.capacity, c.since);
      assert ReadAt(c, s.capacity, |s.pump.history|);
    }
  }

  /** c' is c, or c after more was written, as far as its replay is concerned. */
  lemma ReadLater(c: Client, c': Client, capacity: nat, written: nat, written': nat)
    requires ReadOnce(c, capacity, written) && written <= written'
    requires c'.since == c.since && c'.joined == c.joined
    requires c.replay.Some? <==> c'.replay.Some?
    requires c.replay.Some? ==>
               c'.replay.value.first == c.replay.value.first && c'.replay.value.behind == c.replay.value.behind
    ensures ReadOnce(c', capacity, written')
  {
    if c.replay.Some? {
      var n: nat :| c.joined <= n <= written && ReadAt(c, capacity, n);
      assert ReadAt(c', capacity, n);
    }
  }

  /** s' has every client of s with the same replay, and perhaps clients without one. */
  ghost predicate SameReads(s: Session, s': Session) {
    && s'.capacity == s.capacity && |s.pump.history| <= |s'.pump.history|
    && forall id :: id in s'.clients ==>
         || s'.clients[id].replay.None?
         || (&& id in s.clients && s.clients[id].replay.Some?
             && s'.clients[id].since == s.clients[id].since && s'.clients[id].joined == s.clients[id].joined
             && s'.clients[id].replay.value.first == s.clients[id].replay.value.first
             && s'.clients[id].replay.value.behind == s.clients[id].replay.value.behind)
  }

  lemma SameReadsKeep(s: Session, s': Session)
    requires ReadsNumbered(s) && SameReads(s, s')
    ensures ReadsNumbered(s')
  {
    forall id | id in s'.clients ensures ReadOnce(s'.clients[id], s'.capacity, |s'.pump.history|) {
      if s'.clients[id].replay.Some? {
        ReadLater(s.clients[id], s'.clients[id], s.capacity, |s.pump.history|, |s'.pump.history|);
      }
    }
  }

  lemma OutputReads(s: Session, step: Step)
    requires step.SendReplay? || step.Deliver? || step.PumpRead? || step.PumpBroadcast?
    ensures SameReads(s, Next(s, step))
  {
  }

  lemma RegistryReads(s: Session, step: Step)
    requires step.Attach? || step.Message? || step.Remove? || step.Shutdown?
    ensures SameReads(s, Next(s, step))
  {
    if step.Message? {
      MessageOutput(s, step.remote, step.caps, step.control);
      SameOutputReads(s, Next(s, step));
    } else if step.Attach? {
      AttachOutput(s, step.remote, step.caps, step.since);
      SameOutputReads(s, Next(s, step));
    }
  }

  lemma SameOutputReads(s: Session, s': Session)
    requires SameOutput(s, s')
    ensures SameReads(s, s')
  {
  }

  lemma {:induction false} ReadsAlways(mode: Mode, capacity: nat, steps: seq<Step>, states: seq<Session>, i: nat)
    requires capacity > 0 && IsRun(Initial(mode, capacity), steps, states) && i <= |steps|
    ensures ReadsNumbered(states[i]) && states[i].capacity == capacity
    decreases i
  {
    if i > 0 {
      var s, step := states[i - 1], steps[i - 1];
      ReadsAlways(mode, capacity, steps, states, i - 1);
      if step.Replay? {
        Always(mode, capacity, steps, states, i - 1);
        ReplayReads(s, step.id);
      } else {
        if step.SendReplay? || step.Deliver? || step.PumpRead? || step.PumpBroadcast? {
          OutputReads(s, step);
        } else {
          RegistryReads(s, step);
        }
        SameReadsKeep(s, states[i]);
      }
    }
  }

  /**
    In every reachable state, a client whose replay happened is behind only if
    it claimed a position that the ring had lost by then; a fresh attach never
    is. Whoever is not behind, once its replay is sent and if its channel never
    overflowed, has been sent every byte from its position on that the ring
    still holds, and every one broadcast since.
   */
  lemma AttachSeesTheRing(mode: Mode, capacity: nat, steps: seq<Step>, states: seq<Session>, i: nat, id: nat)
    requires capacity > 0 && IsRun(Initial(mode, capacity), steps, states) && i <= |steps|
    requires id in states[i].clients && states[i].clients[id].replay.Some?
    ensures var c := states[i].clients[id];
            var written := |states[i].pump.history|;
            && (c.replay.value.behind ==> 0 < c.since && c.since + capacity <= written)
            && (c.since == 0 || written < c.since + capacity ==> !c.replay.value.behind)
            && (c.dropped == 0 && !c.replay.value.behind && c.replay.value.unsent.None? ==>
                  forall p :: c.since <= p && 0 < p && written < p + capacity && p <= Broadcast(states[i].pump) ==>
                    Carried(Sent(c), p))
  {
    var c := states[i].clients[id];
    ReadsAlways(mode, capacity, steps, states, i);
    assert ReadOnce(c, states[i].capacity, |states[i].pump.history|);
    var n: nat :| c.joined <= n <= |states[i].pump.history| && ReadAt(c, capacity, n);
    if c.dropped == 0 && HasReplayed(c) {
      forall p | && c.since <= p && 0 < p && |states[i].pump.history| < p + capacity
                 && p <= Broadcast(states[i].pump)
        ensures Carried(Sent(c), p)
      {
        GapFreeAttach(mode, capacity, steps, states, i, id, p);
      }
    }
  }

  /** The history and the replies are the filter's, applied to everything the program wrote. */
  ghost predicate Filtered(p: Pump) {
    && DA.WellFormed(p.da, p.held)
    && p.history + p.held == DA.Strip(p.read)
    && p.replies == DA.Replies(p.read)
    && p.history == DA.Feed(DA.START, p.read).out
    && DA.Run(p.da, p.held, p.history, p.replies) == DA.Feed(DA.START, p.read)
  }

  lemma PumpFilters(p: Pump, input: seq<Byte>)
    requires Filtered(p)
    ensures Filtered(PumpIn(p, input))
  {
    if p.inFlight.None? {
      DA.FeedAppend(DA.START, p.read, input);
      DA.FeedFrame(DA.Run(p.da, p.held, p.history, p.replies), input);
      DA.FeedStrip(DA.START, p.read + input);
      assert DA.START.held + (p.read + input) == p.read + input;
    }
  }

  /**
    In every reachable state, what clients have been and will be shown of the
    output read so far is that output with every Device Attributes query
    deleted, and the program has been sent exactly the replies it was owed.
   */
  lemma {:induction false} ClientsSeeFilteredOutput(mode: Mode, capacity: nat, steps: seq<Step>,
                                                    states: seq<Session>, i: nat)
    requires IsRun(Initial(mode, capacity), steps, states) && i <= |steps|
    ensures Filtered(states[i].pump)
    decreases i
  {
    if i > 0 {
      ClientsSeeFilteredOutput(mode, capacity, steps, states, i - 1);
      StepFilters(states[i - 1], steps[i - 1]);
    }
  }

  lemma StepFilters(s: Session, step: Step)
    requires Filtered(s.pump)
    ensures Filtered(Next(s, step).pump)
  {
    if step.PumpRead? {
      PumpFilters(s.pump, step.input);
    } else if step.Message? {
      MessageOutput(s, step.remote, step.caps, step.control);
    }
  }
}
