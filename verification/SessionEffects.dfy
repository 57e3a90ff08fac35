/**
  What each step of the session engine brings about, field by field: who is let
  in and with what permission, what a control message does and who may send it,
  who is left after a departure, and what reaches a client's channel. The
  invariants bound these steps from above; this file says that they happen.
 */
module SessionEffects {
  import opened Common
  import opened SessionModel
  import opened SessionInvariants

  /** A session starts empty in the mode asked for; one that asks for none supersedes. */
  lemma StartsAsAsked(mode: Mode, capacity: nat)
    ensures Initial(Unspecified, capacity) == Initial(Supersede, capacity)
    ensures mode != Unspecified ==> Initial(mode, capacity).mode == mode
    ensures var s := Initial(mode, capacity);
            s.clients == map[] && s.nextID == 0 && SeatVacant(s) && s.pump.history == [] && s.pending == map[]
  {
  }

  // ---------------------------------------------------------------------
  // Admission
  // ---------------------------------------------------------------------

  /** An exclusive session with a client in it admits nobody else. */
  predicate Occupied(s: Session) {
    s.mode == Exclusive && s.clients != map[]
  }

  /** Nobody registered holds the seat. */
  predicate SeatVacant(s: Session) {
    forall k :: k in s.clients ==> k != s.writerID
  }

  /** What a client starts with: the size that waited for it, and nothing sent or read. */
  predicate Newcomer(s: Session, c: Client, remote: string, caps: Capabilities, since: nat) {
    && c.remote == remote && c.caps == caps && c.since == since
    && c.size == (if remote in s.pending then s.pending[remote] else Size(0, 0))
    && !c.kicked && c.outCh == [] && c.taken == [] && c.dropped == 0
    && c.replay == None && c.joined == Broadcast(s.pump)
  }

  /** Those already here stay, and superseding tells every one of them to leave. */
  ghost predicate OldStay(s: Session, s': Session) {
    forall k :: k in s.clients ==>
      && k in s'.clients
      && s'.clients[k] == s.clients[k].(kicked := s.clients[k].kicked || s.mode == Supersede)
  }

  /** The registry's own fields after id was let in. */
  ghost predicate Enrolled(s: Session, s': Session, id: nat, remote: string)
    requires id in s'.clients
  {
    && s'.nextID == id && s'.clients.Keys == s.clients.Keys + {id}
    && s'.writerID == (if s.mode == PrimaryObserver && s'.clients[id].canWrite then id else s.writerID)
    && s'.pending == s.pending - {remote}
    && s'.requested == (if Reports(s'.clients[id]) then Some(MinGeometry(s'.clients)) else s.requested)
    && s'.mode == s.mode && s'.pump == s.pump && s'.capacity == s.capacity
  }

  /** The registration itself, before any size is agreed on. */
  lemma EnterExactly(s: Session, remote: string, caps: Capabilities, since: nat)
    requires Inv(s) && !Occupied(s)
    ensures var id := s.nextID + 1;
            var s' := Enter(MakeRoom(s), remote, caps, MayWrite(s, caps), since);
            && !Refuses(s) && id !in s.clients && id in s'.clients
            && Newcomer(s, s'.clients[id], remote, caps, since)
            && OldStay(s, s')
            && Enrolled(s, s'.(requested := if Reports(s'.clients[id]) then Some(MinGeometry(s'.clients))
                                            else s.requested), id, remote)
            && s'.requested == s.requested
  {
  }

  /** Who may write on arrival: whoever holds Owner or Write, and with a primary only into a vacant seat. */
  lemma ArrivesWriting(s: Session, remote: string, caps: Capabilities, since: nat)
    requires Inv(s) && !Occupied(s)
    ensures var s' := Enter(MakeRoom(s), remote, caps, MayWrite(s, caps), since);
            s'.clients[s.nextID + 1].canWrite <==>
            (caps.owner || caps.write) && (s.mode == PrimaryObserver ==> SeatVacant(s))
  {
  }

  /**
    An attach in any reachable state. An occupied exclusive session is left as
    it was. Otherwise the next identifier names the newcomer, who may write
    exactly when its identity holds Owner or Write and, with a primary, nobody
    registered holds the seat; everyone else stays, kicked exactly if the
    session supersedes.
   */
  lemma AdmitExactly(s: Session, remote: string, caps: Capabilities, since: nat)
    requires Inv(s)
    ensures Occupied(s) ==> Admit(s, remote, caps, since) == s
    ensures !Occupied(s) ==>
              var id, s' := s.nextID + 1, Admit(s, remote, caps, since);
              && id !in s.clients && id in s'.clients
              && Newcomer(s, s'.clients[id], remote, caps, since)
              && (s'.clients[id].canWrite <==>
                    (caps.owner || caps.write) && (s.mode == PrimaryObserver ==> SeatVacant(s)))
              && OldStay(s, s') && Enrolled(s, s', id, remote)
  {
    if !Occupied(s) {
      EnterExactly(s, remote, caps, since);
      ArrivesWriting(s, remote, caps, since);
      var entered := Enter(MakeRoom(s), remote, caps, MayWrite(s, caps), since);
      if Reports(entered.clients[entered.nextID]) {
        MinPositive(entered.clients, entered.nextID);
      }
    }
  }

  lemma MinPositive(clients: Clients, id: nat)
    requires id in clients && Reports(clients[id])
    ensures MinGeometry(clients).cols > 0 && MinGeometry(clients).rows > 0
  {
  }

  /**
    In a session that has only ever had a primary and observers, a newcomer
    with Owner or Write becomes the primary exactly when nobody may write.
   */
  lemma PrimaryFillsVacancy(capacity: nat, steps: seq<Step>, states: seq<Session>, i: nat,
                            remote: string, caps: Capabilities, since: nat)
    requires IsRun(Initial(PrimaryObserver, capacity), steps, states) && i <= |steps|
    requires StaysIn(states, PrimaryObserver)
    ensures var s := states[i];
            var s' := Admit(s, remote, caps, since);
            && s.nextID + 1 in s'.clients
            && (s'.clients[s.nextID + 1].canWrite <==>
                  (caps.owner || caps.write) && forall k :: k in s.clients ==> !s.clients[k].canWrite)
            && (s'.clients[s.nextID + 1].canWrite <==> s'.writerID == s.nextID + 1)
  {
    var s := states[i];
    Always(PrimaryObserver, capacity, steps, states, i);
    PrimaryIsOnlyWriter(capacity, steps, states, i);
    AdmitExactly(s, remote, caps, since);
  }

  // ---------------------------------------------------------------------
  // Control messages
  // ---------------------------------------------------------------------

  /** s' is s but for the client under id, which is now c. */
  ghost predicate OnlyClient(s: Session, s': Session, id: nat, c: Client) {
    s' == s.(clients := s'.clients) && s'.clients == s.clients[id := c]
  }

  lemma KickExactly(s: Session, remote: string, caps: Capabilities, id: nat)
    ensures var s' := Dispatch(s, remote, caps, Kick(id));
            if caps.owner && id in s.clients then OnlyClient(s, s', id, s.clients[id].(kicked := true)) else s' == s
  {
  }

  lemma SetModeExactly(s: Session, remote: string, caps: Capabilities, kind: Mode)
    ensures var s' := Dispatch(s, remote, caps, SetMode(kind));
            s' == if caps.owner && kind != Unspecified then s.(mode := kind) else s
  {
  }

  /** Permissions alone differ: may(k) says who may write now. */
  ghost predicate Permissions(s: Session, s': Session, may: nat -> bool) {
    && s' == s.(clients := s'.clients, writerID := s'.writerID)
    && s'.clients.Keys == s.clients.Keys
    && forall k :: k in s.clients ==> s'.clients[k] == s.clients[k].(canWrite := may(k))
  }

  /** k may write, unless a promotion with a primary takes the seat from it. */
  predicate KeepsWriting(s: Session, k: nat) {
    k in s.clients && s.clients[k].canWrite && !(s.mode == PrimaryObserver && k == s.writerID)
  }

  lemma PromotePermits(s: Session, id: nat)
    requires id in s.clients
    ensures var s' := PromoteClient(s, id);
            && s' == s.(clients := s'.clients, writerID := if s.mode == PrimaryObserver then id else s.writerID)
            && s'.clients.Keys == s.clients.Keys
  {
  }

  lemma PromoteOne(s: Session, id: nat, k: nat)
    requires id in s.clients && k in s.clients
    ensures k in PromoteClient(s, id).clients
    ensures PromoteClient(s, id).clients[k] == s.clients[k].(canWrite := k == id || KeepsWriting(s, k))
  {
  }

  /**
    An owner's promotion lets its target write. With a primary the target takes
    the seat, and only whoever sat there before stops writing; otherwise the
    seat and everyone else stay as they were.
   */
  lemma PromoteExactly(s: Session, remote: string, caps: Capabilities, id: nat)
    ensures var s' := Dispatch(s, remote, caps, Promote(id));
            if !caps.owner || id !in s.clients then s' == s
            else
              && Permissions(s, s', (k: nat) => k == id || KeepsWriting(s, k))
              && s'.writerID == if s.mode == PrimaryObserver then id else s.writerID
  {
    if caps.owner && id in s.clients {
      PromotePermits(s, id);
      forall k | k in s.clients
        ensures PromoteClient(s, id).clients[k] == s.clients[k].(canWrite := k == id || KeepsWriting(s, k))
      {
        PromoteOne(s, id, k);
      }
    }
  }

  /** Anyone may give up writing: the newest client of the sender stops, and leaves the seat if it had it. */
  lemma DemoteExactly(s: Session, remote: string, caps: Capabilities, id: nat)
    requires IsLatest(s.clients, remote, id)
    ensures var s' := Dispatch(s, remote, caps, Demote);
            && Permissions(s, s', (k: nat) => k != id && k in s.clients && s.clients[k].canWrite)
            && s'.writerID == if s.writerID == id then 0 else s.writerID
  {
    assert Connected(s.clients, remote);
  }

  lemma DemoteAbsent(s: Session, remote: string, caps: Capabilities)
    requires !Connected(s.clients, remote)
    ensures Dispatch(s, remote, caps, Demote) == s
  {
  }

  /** A resize that counts: allowed to the sender, and no dimension zero. */
  predicate Counts(caps: Capabilities, size: Size) {
    (caps.owner || caps.resize) && size.cols > 0 && size.rows > 0
  }

  /** Sizes alone differ: id has this one. */
  ghost predicate SizedAs(s: Session, s': Session, id: nat, size: Size) {
    && id in s.clients
    && s' == s.(clients := s.clients[id := s.clients[id].(size := size)], requested := s'.requested)
  }

  /**
    A resize that counts sets the size of the sender's newest client and asks
    the terminal for the least that all who reported can show; one from a
    sender with no client waits for it. Any other is ignored.
   */
  lemma ResizeExactly(s: Session, remote: string, caps: Capabilities, size: Size)
    ensures var s' := Dispatch(s, remote, caps, Resize(size));
            && (!Counts(caps, size) ==> s' == s)
            && (Counts(caps, size) && !Connected(s.clients, remote) ==>
                  s' == s.(pending := s.pending[remote := size]))
            && (Counts(caps, size) && Connected(s.clients, remote) ==>
                  && s'.requested == Some(MinGeometry(s'.clients))
                  && exists id :: IsLatest(s.clients, remote, id) && SizedAs(s, s', id, size))
  {
    if Counts(caps, size) && Connected(s.clients, remote) {
      var id := Latest(s.clients, remote).value;
      MinPositive(Sized(s, id, size).clients, id);
      assert IsLatest(s.clients, remote, id) && SizedAs(s, Dispatch(s, remote, caps, Resize(size)), id, size);
    }
  }

  // ---------------------------------------------------------------------
  // Departure
  // ---------------------------------------------------------------------

  /** A client that leaves takes its seat and its size with it; everyone else is as before. */
  lemma RemoveExactly(s: Session, id: nat)
    ensures var s' := RemoveClient(s, id);
            && s' == s.(clients := s'.clients, writerID := s'.writerID, requested := s'.requested)
            && s'.clients.Keys == s.clients.Keys - {id}
            && (forall k :: k in s'.clients ==> s'.clients[k] == s.clients[k])
            && s'.writerID == (if s.writerID == id then 0 else s.writerID)
            && ((exists k :: k in s'.clients && Reports(s'.clients[k])) ==>
                  s'.requested == Some(MinGeometry(s'.clients)))
            && ((forall k :: k in s'.clients ==> !Reports(s'.clients[k])) ==> s'.requested == s.requested)
  {
  }

  lemma ShutdownExactly(s: Session)
    ensures var s' := Next(s, Shutdown);
            s'.clients == map[] && s'.writerID == 0 && s' == s.(clients := map[], writerID := 0)
  {
  }

  // ---------------------------------------------------------------------
  // Output
  // ---------------------------------------------------------------------

  /** c' is c after a chunk was offered: queued last if fewer than 256 are waiting, else counted as dropped. */
  predicate Offered(c: Client, c': Client, e: Entry) {
    && c' == c.(outCh := c'.outCh, dropped := c'.dropped)
    && (if |c.outCh| < 256 then c'.outCh == c.outCh + [e] && c'.dropped == c.dropped
        else c'.outCh == c.outCh && c'.dropped == c.dropped + 1)
  }

  /** A broadcast offers the chunk in flight to every registered client, once, and to nobody else. */
  lemma BroadcastExactly(s: Session)
    ensures var s' := Next(s, PumpBroadcast);
            && s'.clients.Keys == s.clients.Keys
            && (s.pump.inFlight.None? ==> s' == s)
            && (s.pump.inFlight.Some? ==>
                  && s' == s.(clients := s'.clients, pump := s.pump.(inFlight := None))
                  && forall k :: k in s.clients ==>
                       Offered(s.clients[k], s'.clients[k], s.pump.inFlight.value))
  {
  }

  /** A replay that was read and found something is offered once, like any chunk. */
  lemma SendReplayExactly(s: Session, id: nat)
    requires id in s.clients
    ensures var c, s' := s.clients[id], Next(s, SendReplay(id));
            if c.replay.Some? && c.replay.value.unsent.Some? then
              && id in s'.clients && OnlyClient(s, s', id, s'.clients[id])
              && Offered(c.(replay := Some(c.replay.value.(unsent := None))), s'.clients[id],
                         c.replay.value.unsent.value)
            else s' == s
  {
  }

  /** Chunks leave a channel in the order they went in. */
  lemma DeliverExactly(s: Session, id: nat)
    requires id in s.clients
    ensures var c, s' := s.clients[id], Next(s, Deliver(id));
            && id in s'.clients && OnlyClient(s, s', id, s'.clients[id])
            && var c' := s'.clients[id];
               && c' == c.(outCh := c'.outCh, taken := c'.taken)
               && c'.taken + c'.outCh == c.taken + c.outCh
               && |c'.outCh| == if c.outCh == [] then 0 else |c.outCh| - 1
  {
  }
}
