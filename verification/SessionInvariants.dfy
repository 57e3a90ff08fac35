/**
  What every interleaving of the session engine keeps: the writer seat, where
  write permission comes from, identifiers, the guarantees of each mode, and
  the terminal size.
 */
module SessionInvariants {
  import opened Common
  import opened SessionModel

  // ---------------------------------------------------------------------
  // The invariant
  // ---------------------------------------------------------------------

  /** The seat is vacant or held by a registered client that may write. */
  predicate SeatHeld(s: Session) {
    s.writerID == 0 || (s.writerID in s.clients && s.clients[s.writerID].canWrite)
  }

  /** Identifiers run from 1 and never past the counter. */
  predicate Numbered(s: Session) {
    forall id :: id in s.clients ==> 1 <= id <= s.nextID
  }

  /** A size is reported in full or not at all; one waiting for its client is in full. */
  predicate SizesWhole(s: Session) {
    && (forall id :: id in s.clients ==> Reports(s.clients[id]) || s.clients[id].size == Size(0, 0))
    && (forall r :: r in s.pending ==> s.pending[r].cols > 0 && s.pending[r].rows > 0)
  }

  /** No remote both has a client and a size waiting for one. */
  ghost predicate PendingApart(s: Session) {
    forall id :: id in s.clients ==> s.clients[id].remote !in s.pending
  }

  /** Once anyone has reported, the size last requested is the minimum over those who have. */
  ghost predicate SizeIsMin(s: Session) {
    (exists id :: id in s.clients && Reports(s.clients[id])) ==> s.requested == Some(MinGeometry(s.clients))
  }

  ghost predicate Settled(s: Session) {
    SeatHeld(s) && Numbered(s) && s.mode != Unspecified && SizesWhole(s) && PendingApart(s)
  }

  ghost predicate Inv(s: Session) {
    Settled(s) && SizeIsMin(s)
  }

  /** Two registries that agree on everything the invariant looks at. */
  ghost predicate SameSizes(a: Clients, b: Clients) {
    && a.Keys == b.Keys
    && forall id :: id in a ==> a[id].size == b[id].size && a[id].remote == b[id].remote
  }

  lemma SameMin(a: Clients, b: Clients)
    requires SameSizes(a, b)
    ensures MinGeometry(a) == MinGeometry(b)
  {
    var z := MinGeometry(a);
    assert IsMin(b, z) by {
      if z.cols > 0 {
        var id :| id in a && Reports(a[id]) && a[id].size.cols == z.cols;
        assert id in b && Reports(b[id]) && b[id].size.cols == z.cols;
      }
      if z.rows > 0 {
        var id :| id in a && Reports(a[id]) && a[id].size.rows == z.rows;
        assert id in b && Reports(b[id]) && b[id].size.rows == z.rows;
      }
    }
    MinUnique(b, z, MinGeometry(b));
  }

  /** Steps that leave sizes and remotes alone keep the geometry part of the invariant. */
  lemma SameSizesKeep(s: Session, s': Session)
    requires SameSizes(s.clients, s'.clients) && s'.pending == s.pending && s'.requested == s.requested
    requires SizesWhole(s) && PendingApart(s) && SizeIsMin(s)
    ensures SizesWhole(s') && PendingApart(s') && SizeIsMin(s')
  {
    SameMin(s.clients, s'.clients);
    if id :| id in s'.clients && Reports(s'.clients[id]) {
      assert id in s.clients && Reports(s.clients[id]);
    }
  }

  lemma AgreeKeeps(s: Session)
    requires Settled(s)
    ensures Inv(Agree(s))
  {
  }

  lemma EnterSettles(s: Session, remote: string, caps: Capabilities, since: nat)
    requires Settled(s) && !Refuses(s)
    ensures Settled(Enter(MakeRoom(s), remote, caps, MayWrite(s, caps), since))
  {
  }

  lemma AdmitKeeps(s: Session, remote: string, caps: Capabilities, since: nat)
    requires Inv(s)
    ensures Inv(Admit(s, remote, caps, since))
  {
    if !Refuses(s) {
      var s' := Enter(MakeRoom(s), remote, caps, MayWrite(s, caps), since);
      EnterSettles(s, remote, caps, since);
      if Reports(s'.clients[s'.nextID]) {
        AgreeKeeps(s');
      } else {
        SilentEntry(s, s', s'.nextID);
      }
    }
  }

  lemma SilentEntry(s: Session, s': Session, id: nat)
    requires SizeIsMin(s) && s'.requested == s.requested
    requires id !in s.clients && id in s'.clients && !Reports(s'.clients[id])
    requires SameSizes(s.clients, s'.clients - {id})
    ensures SizeIsMin(s')
  {
    SilentJoin(s.clients, s'.clients, id);
    if k :| k in s'.clients && Reports(s'.clients[k]) {
      assert k in s.clients && Reports(s.clients[k]);
    }
  }

  /** A client that has reported nothing does not move the minimum. */
  lemma SilentJoin(a: Clients, b: Clients, id: nat)
    requires id !in a && id in b && !Reports(b[id]) && SameSizes(a, b - {id})
    ensures MinGeometry(a) == MinGeometry(b)
  {
    SameMin(a, b - {id});
    var z := MinWith(b, id, MinGeometry(b - {id}));
    MinUnique(b, z, MinGeometry(b));
  }

  lemma ResizeKeeps(s: Session, remote: string, size: Size)
    requires Inv(s) && size.cols > 0 && size.rows > 0
    ensures Inv(ApplyResize(s, remote, size))
  {
    var s' := ApplyResize(s, remote, size);
    match Latest(s.clients, remote) {
      case None =>
        assert forall id :: id in s.clients ==> s.clients[id].remote != remote;
      case Some(id) =>
        assert Reports(s'.clients[id]);
    }
  }

  lemma RemoveKeeps(s: Session, id: nat)
    requires Inv(s)
    ensures Inv(RemoveClient(s, id))
  {
  }

  lemma DemoteKeeps(s: Session, remote: string)
    requires Inv(s)
    ensures Inv(DemoteRemote(s, remote))
  {
    match Latest(s.clients, remote) {
      case None =>
      case Some(id) => DemotedKeeps(s, id);
    }
  }

  lemma DemotedKeeps(s: Session, id: nat)
    requires Inv(s) && id in s.clients
    ensures Inv(Demoted(s, id))
  {
    SameSizesKeep(s, Demoted(s, id));
  }

  lemma PromoteSizes(s: Session, id: nat)
    ensures SameSizes(s.clients, PromoteClient(s, id).clients)
  {
  }

  lemma PromoteKeeps(s: Session, id: nat)
    requires Inv(s)
    ensures Inv(PromoteClient(s, id))
  {
    PromoteSizes(s, id);
    SameSizesKeep(s, PromoteClient(s, id));
  }

  lemma KickKeeps(s: Session, id: nat)
    requires Inv(s)
    ensures Inv(KickClient(s, id))
  {
    SameSizesKeep(s, KickClient(s, id));
  }

  // ---------------------------------------------------------------------
  // Two kinds of step
  // ---------------------------------------------------------------------

  /** c' differs from c in its output alone. */
  predicate OutputOnly(c: Client, c': Client) {
    c' == c.(outCh := c'.outCh, dropped := c'.dropped, replay := c'.replay, taken := c'.taken)
  }

  /** Only output moves: registry fields stay, and clients differ in their output alone. */
  ghost predicate Quiet(s: Session, s': Session) {
    && s' == s.(clients := s'.clients, pump := s'.pump)
    && s'.clients.Keys == s.clients.Keys
    && forall id :: id in s.clients ==> OutputOnly(s.clients[id], s'.clients[id])
  }

  predicate IsQuiet(step: Step) {
    step.Replay? || step.SendReplay? || step.Deliver? || step.PumpRead? || step.PumpBroadcast?
  }

  lemma OneQuiet(s: Session, id: nat, c: Client)
    requires id in s.clients && OutputOnly(s.clients[id], c)
    ensures Quiet(s, s.(clients := s.clients[id := c]))
  {
  }

  lemma BroadcastQuiet(s: Session)
    ensures Quiet(s, BroadcastOne(s))
  {
  }

  lemma QuietSteps(s: Session, step: Step)
    requires IsQuiet(step)
    ensures Quiet(s, Next(s, step))
  {
    match step {
      case Replay(id) =>
        if id in s.clients {
          OneQuiet(s, id, ReplayTo(s, id).clients[id]);
        }
      case SendReplay(id) =>
        if id in s.clients {
          OneQuiet(s, id, SendReplayTo(s, id).clients[id]);
        }
      case Deliver(id) =>
        if id in s.clients {
          OneQuiet(s, id, DeliverOne(s, id).clients[id]);
        }
      case PumpRead(_) =>
      case PumpBroadcast => BroadcastQuiet(s);
    }
  }

  lemma QuietKeeps(s: Session, s': Session)
    requires Inv(s) && Quiet(s, s')
    ensures Inv(s')
  {
    SameSizesKeep(s, s');
  }

  /** c' differs from c in size, permission and kick alone, and is not un-kicked. */
  predicate ControlOnly(c: Client, c': Client) {
    && c' == c.(size := c'.size, canWrite := c'.canWrite, kicked := c'.kicked)
    && (c.kicked ==> c'.kicked)
  }

  /** A control message admits nobody, removes nobody and leaves all output alone. */
  ghost predicate Administered(s: Session, s': Session) {
    && s'.nextID == s.nextID && s'.pump == s.pump && s'.capacity == s.capacity
    && s'.clients.Keys == s.clients.Keys
    && forall id :: id in s.clients ==> ControlOnly(s.clients[id], s'.clients[id])
  }

  lemma ResizeAdministers(s: Session, remote: string, size: Size)
    ensures Administered(s, ApplyResize(s, remote, size))
  {
  }

  lemma DemoteAdministers(s: Session, remote: string)
    ensures Administered(s, DemoteRemote(s, remote))
  {
  }

  lemma PromoteAdministers(s: Session, id: nat)
    ensures Administered(s, PromoteClient(s, id))
  {
  }

  lemma KickAdministers(s: Session, id: nat)
    ensures Administered(s, KickClient(s, id))
  {
  }

  lemma MessageAdministers(s: Session, remote: string, caps: Capabilities, m: Control)
    ensures Administered(s, Dispatch(s, remote, caps, m))
  {
    match m {
      case Resize(size) => ResizeAdministers(s, remote, size);
      case SetMode(_) =>
      case Demote => DemoteAdministers(s, remote);
      case Promote(id) => PromoteAdministers(s, id);
      case Kick(id) => KickAdministers(s, id);
      case NoEffect =>
    }
  }

  lemma MessageKeeps(s: Session, remote: string, caps: Capabilities, m: Control)
    requires Inv(s)
    ensures Inv(Dispatch(s, remote, caps, m))
  {
    match m {
      case Resize(size) =>
        if size.cols != 0 && size.rows != 0 {
          ResizeKeeps(s, remote, size);
        }
      case SetMode(_) =>
      case Demote => DemoteKeeps(s, remote);
      case Promote(id) => PromoteKeeps(s, id);
      case Kick(id) => KickKeeps(s, id);
      case NoEffect =>
    }
  }

  lemma NextKeeps(s: Session, step: Step)
    requires Inv(s)
    ensures Inv(Next(s, step))
  {
    if IsQuiet(step) {
      QuietSteps(s, step);
      QuietKeeps(s, Next(s, step));
    } else {
      match step {
        case Attach(remote, caps, since) => AdmitKeeps(s, remote, caps, since);
        case Remove(id) => RemoveKeeps(s, id);
        case Message(remote, caps, m) => MessageKeeps(s, remote, caps, m);
        case Shutdown =>
      }
    }
  }

  /** In every reachable state, whatever the modes in between. */
  lemma {:induction false} Always(mode: Mode, capacity: nat, steps: seq<Step>, states: seq<Session>, i: nat)
    requires IsRun(Initial(mode, capacity), steps, states) && i <= |steps|
    ensures Inv(states[i])
    decreases i
  {
    if i > 0 {
      Always(mode, capacity, steps, states, i - 1);
      NextKeeps(states[i - 1], steps[i - 1]);
    }
  }

  /** The check for a seat naming nobody never has anything to repair. */
  lemma SeatNeverStale(mode: Mode, capacity: nat, steps: seq<Step>, states: seq<Session>, i: nat)
    requires IsRun(Initial(mode, capacity), steps, states) && i <= |steps|
    ensures Seat(states[i]) == states[i].writerID
  {
    Always(mode, capacity, steps, states, i);
  }

  // ---------------------------------------------------------------------
  // Identifiers
  // ---------------------------------------------------------------------

  /** What of a client never changes. */
  predicate SamePeer(c: Client, c': Client) {
    c'.remote == c.remote && c'.caps == c.caps && c'.since == c.since && c'.joined == c.joined
  }

  /** A client that a step leaves registered, and that is not new, was there before, the same peer. */
  lemma StepIdentity(s: Session, step: Step, id: nat)
    requires id <= s.nextID && id in Next(s, step).clients
    ensures id in s.clients && SamePeer(s.clients[id], Next(s, step).clients[id])
  {
    if IsQuiet(step) {
      QuietSteps(s, step);
    } else if step.Message? {
      MessageAdministers(s, step.remote, step.caps, step.control);
    }
  }

  lemma CounterGrows(s: Session, step: Step)
    ensures s.nextID <= Next(s, step).nextID
  {
  }

  /** An identifier once given out always names the same peer, and once gone never comes back. */
  lemma {:induction false} NeverReused(mode: Mode, capacity: nat, steps: seq<Step>, states: seq<Session>,
                                       i: nat, j: nat, id: nat)
    requires IsRun(Initial(mode, capacity), steps, states) && i <= j <= |steps|
    requires id <= states[i].nextID && id in states[j].clients
    ensures id in states[i].clients && id <= states[j].nextID
    ensures states[j].clients[id].remote == states[i].clients[id].remote
    ensures states[j].clients[id].caps == states[i].clients[id].caps
    decreases j
  {
    Always(mode, capacity, steps, states, j);
    if i < j {
      CounterBetween(steps, states, Initial(mode, capacity), i, j - 1);
      StepIdentity(states[j - 1], steps[j - 1], id);
      NeverReused(mode, capacity, steps, states, i, j - 1, id);
    }
  }

  lemma {:induction false} CounterBetween(steps: seq<Step>, states: seq<Session>, start: Session, i: nat, j: nat)
    requires IsRun(start, steps, states) && i <= j <= |steps|
    ensures states[i].nextID <= states[j].nextID
    decreases j
  {
    if i < j {
      CounterBetween(steps, states, start, i, j - 1);
      CounterGrows(states[j - 1], steps[j - 1]);
    }
  }

  // ---------------------------------------------------------------------
  // Where write permission comes from
  // ---------------------------------------------------------------------

  /** An owner asks for id to be promoted. */
  predicate Promotes(step: Step, id: nat) {
    step.Message? && step.control == Promote(id) && step.caps.owner
  }

  /** A message lets nobody write but the target of an owner's promotion. */
  lemma MessageWrites(s: Session, remote: string, caps: Capabilities, m: Control, id: nat)
    requires id in s.clients && id in Dispatch(s, remote, caps, m).clients
    requires Dispatch(s, remote, caps, m).clients[id].canWrite
    ensures s.clients[id].canWrite || (m == Promote(id) && caps.owner)
  {
  }

  lemma WriteGained(s: Session, step: Step, id: nat)
    requires id in Next(s, step).clients && Next(s, step).clients[id].canWrite
    ensures || Next(s, step).clients[id].caps.CanWrite()
            || (id in s.clients && Promotes(step, id))
            || (id in s.clients && s.clients[id].canWrite
                && s.clients[id].caps == Next(s, step).clients[id].caps)
  {
    if IsQuiet(step) {
      QuietSteps(s, step);
    } else if step.Message? {
      MessageAdministers(s, step.remote, step.caps, step.control);
      MessageWrites(s, step.remote, step.caps, step.control, id);
    }
  }

  /**
    Whoever may write was admitted with the Write or Owner capability, or was
    promoted, while registered, by an identity holding Owner.
   */
  lemma {:induction false} WriteProvenance(mode: Mode, capacity: nat, steps: seq<Step>,
                                           states: seq<Session>, i: nat, id: nat)
    requires IsRun(Initial(mode, capacity), steps, states) && i <= |steps|
    requires id in states[i].clients && states[i].clients[id].canWrite
    ensures || states[i].clients[id].caps.CanWrite()
            || exists k :: 0 <= k < i && id in states[k].clients && Promotes(steps[k], id)
    decreases i
  {
    if i > 0 {
      WriteGained(states[i - 1], steps[i - 1], id);
      if id in states[i - 1].clients && states[i - 1].clients[id].canWrite {
        WriteProvenance(mode, capacity, steps, states, i - 1, id);
      }
    }
  }

  // ---------------------------------------------------------------------
  // Runs that stay in one mode
  // ---------------------------------------------------------------------

  ghost predicate StaysIn(states: seq<Session>, m: Mode) {
    forall i :: 0 <= i < |states| ==> states[i].mode == m
  }

  /** Nobody but the holder of the seat may write. */
  predicate OnlySeatWrites(s: Session) {
    forall id :: id in s.clients && s.clients[id].canWrite ==> id == s.writerID
  }

  /** Everyone but the newest admission has been told to leave. */
  predicate OnlyNewestLive(s: Session) {
    forall id :: id in s.clients && !s.clients[id].kicked ==> id == s.nextID
  }

  predicate Alone(s: Session) {
    forall a, b :: a in s.clients && b in s.clients ==> a == b
  }

  lemma SeatStep(s: Session, step: Step)
    requires Inv(s) && s.mode == PrimaryObserver && OnlySeatWrites(s)
    ensures OnlySeatWrites(Next(s, step))
  {
    if IsQuiet(step) {
      QuietSteps(s, step);
    } else if step.Message? {
      SeatMessage(s, step.remote, step.caps, step.control);
    } else if step.Attach? {
      SeatAttach(s, step.remote, step.caps, step.since);
    }
  }

  lemma SeatAttach(s: Session, remote: string, caps: Capabilities, since: nat)
    requires Inv(s) && s.mode == PrimaryObserver && OnlySeatWrites(s)
    ensures OnlySeatWrites(Admit(s, remote, caps, since))
  {
  }

  lemma SeatMessage(s: Session, remote: string, caps: Capabilities, m: Control)
    requires s.mode == PrimaryObserver && OnlySeatWrites(s)
    ensures OnlySeatWrites(Dispatch(s, remote, caps, m))
  {
  }

  lemma SupersedeStep(s: Session, step: Step)
    requires s.mode == Supersede && OnlyNewestLive(s)
    ensures OnlyNewestLive(Next(s, step))
  {
    if IsQuiet(step) {
      QuietSteps(s, step);
    } else if step.Message? {
      MessageAdministers(s, step.remote, step.caps, step.control);
    }
  }

  lemma ExclusiveStep(s: Session, step: Step)
    requires s.mode == Exclusive && Alone(s)
    ensures Alone(Next(s, step))
  {
    if IsQuiet(step) {
      QuietSteps(s, step);
    } else if step.Message? {
      MessageAdministers(s, step.remote, step.caps, step.control);
    }
  }

  /** With a primary and observers, there is never a second writer. */
  lemma {:induction false} PrimaryIsOnlyWriter(capacity: nat, steps: seq<Step>, states: seq<Session>, i: nat)
    requires IsRun(Initial(PrimaryObserver, capacity), steps, states) && i <= |steps|
    requires StaysIn(states, PrimaryObserver)
    ensures OnlySeatWrites(states[i])
    decreases i
  {
    if i > 0 {
      PrimaryIsOnlyWriter(capacity, steps, states, i - 1);
      Always(PrimaryObserver, capacity, steps, states, i - 1);
      SeatStep(states[i - 1], steps[i - 1]);
    }
  }

  /** Superseding leaves at most one client that has not been kicked, and it is the newest of all. */
  lemma {:induction false} SupersedeKeepsNewest(capacity: nat, steps: seq<Step>, states: seq<Session>, i: nat)
    requires IsRun(Initial(Supersede, capacity), steps, states) && i <= |steps|
    requires StaysIn(states, Supersede)
    ensures OnlyNewestLive(states[i])
    ensures var clients := states[i].clients;
            forall a, b :: a in clients && !clients[a].kicked && b in clients ==> b <= a
    decreases i
  {
    Always(Supersede, capacity, steps, states, i);
    if i > 0 {
      SupersedeKeepsNewest(capacity, steps, states, i - 1);
      Always(Supersede, capacity, steps, states, i - 1);
      SupersedeStep(states[i - 1], steps[i - 1]);
    }
  }

  /** An exclusive session never registers a second client. */
  lemma {:induction false} ExclusiveAdmitsOne(capacity: nat, steps: seq<Step>, states: seq<Session>, i: nat)
    requires IsRun(Initial(Exclusive, capacity), steps, states) && i <= |steps|
    requires StaysIn(states, Exclusive)
    ensures Alone(states[i])
    decreases i
  {
    if i > 0 {
      ExclusiveAdmitsOne(capacity, steps, states, i - 1);
      Always(Exclusive, capacity, steps, states, i - 1);
      ExclusiveStep(states[i - 1], steps[i - 1]);
    }
  }
}
