/**
  The session engine as it runs (vterm/session.go, vterm.go, control.go):
  client objects updated in place, a registry that maps identifiers to them,
  and loops that walk the registry in whatever order the map yields.

  Every method is one critical section, proved to take exactly the step of
  `SessionModel` it stands for. `Engine` puts them together, and shows that the
  invariants of that model are invariants of these objects.
 */
module Vterm {
  import opened Common
  import opened OutputRing
  import opened SessionModel
  import DA = DeviceAttributes
  import Invariants = SessionInvariants

  /** A connected client. `row` is the record of the model it stands for. */
  class SessionClient {
    const id: nat
    const remote: string
    const caps: Capabilities
    var canWrite: bool
    var size: Size
    var kicked: bool
    var outCh: seq<seq<Byte>>
    var dropped: nat
    ghost var row: Client

    ghost predicate Valid()
      reads this
    {
      && remote == row.remote && caps == row.caps && canWrite == row.canWrite && size == row.size
      && kicked == row.kicked && dropped == row.dropped && outCh == Chunks(row.outCh)
    }

    constructor (id: nat, ghost now: Client, remote: string, caps: Capabilities, canWrite: bool, size: Size)
      requires now == Client(remote, caps, canWrite, size, false, [], 0, now.since, now.joined, None, [])
      ensures Valid() && this.id == id && row == now
    {
      this.id, this.remote, this.caps := id, remote, caps;
      this.canWrite, this.size, kicked, outCh, dropped := canWrite, size, false, [], 0;
      row := now;
    }

    method Kick()
      requires Valid()
      modifies this
      ensures Valid() && row == old(row).(kicked := true)
    {
      kicked, row := true, row.(kicked := true);
    }

    method SetSize(z: Size)
      requires Valid()
      modifies this
      ensures Valid() && row == old(row).(size := z)
    {
      size, row := z, row.(size := z);
    }

    method SetCanWrite(may: bool)
      requires Valid()
      modifies this
      ensures Valid() && row == old(row).(canWrite := may)
    {
      canWrite, row := may, row.(canWrite := may);
    }

    /** The non-blocking send on outCh. */
    method Send(chunk: seq<Byte>, ghost first: nat)
      requires Valid()
      modifies this
      ensures Valid() && row == Offer(old(row), Entry(first, chunk))
    {
      if |outCh| < CHANNEL_DEPTH {
        outCh := outCh + [chunk];
      } else {
        dropped := dropped + 1;
      }
      row := Offer(row, Entry(first, chunk));
    }

    /** A receive from outCh when something is waiting. */
    method Take() returns (chunk: seq<Byte>)
      requires Valid() && outCh != []
      modifies this
      ensures Valid() && old(row).outCh != [] && chunk == old(row).outCh[0].bytes
      ensures row == old(row).(outCh := old(row).outCh[1..], taken := old(row).taken + [old(row).outCh[0]])
    {
      chunk, outCh := outCh[0], outCh[1..];
      row := row.(outCh := row.outCh[1..], taken := row.taken + [row.outCh[0]]);
    }

    ghost method NoteReplay(found: Replayed)
      requires Valid()
      modifies this
      ensures Valid() && row == old(row).(replay := Some(found))
    {
      row := row.(replay := Some(found));
    }

    method SendReplay(data: seq<Byte>)
      requires Valid() && AwaitsReplay(row) && row.replay.value.unsent.value.bytes == data
      modifies this
      ensures Valid() && row == ReplaySent(old(row))
    {
      ghost var found := row.replay.value;
      row := row.(replay := Some(found.(unsent := None)));
      Send(data, found.unsent.value.first);
    }
  }

  /** What a channel holding these entries holds in bytes. */
  ghost function Chunks(entries: seq<Entry>): seq<seq<Byte>> {
    seq(|entries|, i requires 0 <= i < |entries| => entries[i].bytes)
  }

  lemma MinGrows(cs: Clients, todo: set<nat>, id: nat, z: Size)
    requires id in todo && id in cs && IsMin(cs - todo, z)
    ensures IsMin(cs - (todo - {id}), Meet(z, cs[id]))
  {
    var part := cs - (todo - {id});
    assert part - {id} == cs - todo;
    var z' := MinWith(part, id, z);
  }

  /**
    The part of a session guarded by its lock. `Models` says which state of the
    model these objects are in, and every method which step of it they take.
   */
  class Registry {
    var mode: Mode
    var nextID: nat
    var clients: map<nat, SessionClient>
    var writerID: nat
    var pendingResize: map<string, Size>
    var ptySize: Option<Size>

    /** The registered objects are, one for one, the client records cs. */
    ghost predicate Registered(cs: Clients)
      reads `clients, clients.Values
    {
      && clients.Keys == cs.Keys
      && forall id :: id in clients ==>
           clients[id].id == id && clients[id].row == cs[id] && clients[id].Valid()
    }

    /** The fields other than the clients are those of s. */
    ghost predicate Fields(s: Session)
      reads `mode, `nextID, `writerID, `pendingResize, `ptySize
    {
      (mode, nextID, writerID, pendingResize, ptySize) ==
      (s.mode, s.nextID, s.writerID, s.pending, s.requested)
    }

    /** These objects are in the state s of the model. */
    ghost predicate Models(s: Session)
      reads this, clients.Values
    {
      Registered(s.clients) && Fields(s)
    }

    constructor (requested: Mode, ghost capacity: nat)
      ensures Models(Initial(requested, capacity)) && clients == map[]
    {
      mode := if requested == Unspecified then Supersede else requested;
      nextID, clients, writerID, pendingResize, ptySize := 0, map[], 0, map[], None;
    }

    // -------------------------------------------------------------------
    // Walking the registry
    // -------------------------------------------------------------------

    method MinGeometryLocked(ghost cs: Clients) returns (z: Size)
      requires Registered(cs)
      ensures z == MinGeometry(cs)
    {
      z := Size(0, 0);
      var todo := clients.Keys;
      assert cs - todo == map[];
      while todo != {}
        invariant todo <= clients.Keys
        invariant IsMin(cs - todo, z)
        decreases |todo|
      {
        var id :| id in todo;
        var c := clients[id];
        assert c.row == cs[id];
        MinGrows(cs, todo, id, z);
        todo := todo - {id};
        if c.size.cols != 0 && c.size.rows != 0 {
          z := Size(if z.cols == 0 || c.size.cols < z.cols then c.size.cols else z.cols,
                    if z.rows == 0 || c.size.rows < z.rows then c.size.rows else z.rows);
        }
      }
      assert cs - {} == cs;
      MinUnique(cs, z, MinGeometry(cs));
    }

    method ClientByRemoteIDLocked(remote: string, ghost cs: Clients) returns (latest: SessionClient?)
      requires Registered(cs)
      ensures latest == null <==> Latest(cs, remote).None?
      ensures latest != null ==> latest.id in clients && clients[latest.id] == latest
      ensures latest != null ==> Latest(cs, remote) == Some(latest.id)
    {
      latest := null;
      var todo := clients.Keys;
      while todo != {}
        invariant todo <= clients.Keys
        invariant latest != null ==>
                    latest.id in clients && clients[latest.id] == latest && latest.remote == remote
        invariant forall id :: id in clients && id !in todo && clients[id].remote == remote ==>
                    latest != null && id <= latest.id
        decreases |todo|
      {
        var id :| id in todo;
        todo := todo - {id};
        var c := clients[id];
        if c.remote == remote && (latest == null || c.id > latest.id) {
          latest := c;
        }
      }
      if latest != null {
        assert IsLatest(cs, remote, latest.id);
      }
    }

    // -------------------------------------------------------------------
    // Admission
    // -------------------------------------------------------------------

    method KickOne(id: nat, ghost cs: Clients)
      requires Registered(cs) && id in clients
      modifies clients[id]
      ensures Registered(cs[id := cs[id].(kicked := true)])
    {
      clients[id].Kick();
    }

    method KickNext(todo: set<nat>, ghost cs: Clients) returns (rest: set<nat>)
      requires todo != {} && todo <= clients.Keys && Registered(KickedBut(cs, todo))
      modifies clients.Values
      ensures rest < todo && Registered(KickedBut(cs, rest))
    {
      var id :| id in todo;
      KickOne(id, KickedBut(cs, todo));
      KickedNext(cs, todo, id);
      rest := todo - {id};
    }

    method KickEveryone(ghost cs: Clients)
      requires Registered(cs)
      modifies clients.Values
      ensures Registered(KickAll(cs))
    {
      var todo := clients.Keys;
      KickedNone(cs);
      while todo != {}
        invariant todo <= clients.Keys
        invariant Registered(KickedBut(cs, todo))
        decreases todo
      {
        todo := KickNext(todo, cs);
      }
      KickedAll(cs);
    }

    method Insert(c: SessionClient, ghost cs: Clients)
      requires Registered(cs) && c.Valid() && c.id !in clients
      modifies `clients
      ensures clients == old(clients)[c.id := c]
      ensures Registered(cs[c.id := c.row])
    {
      clients := clients[c.id := c];
    }

    /** The writer seat falls vacant if it was id's. */
    method Vacate(id: nat)
      modifies `writerID
      ensures writerID == if old(writerID) == id then 0 else old(writerID)
    {
      if writerID == id {
        writerID := 0;
      }
    }

    /** Asks for the agreed size, if any client has reported one. */
    method Recompute(ghost s: Session)
      requires Models(s)
      modifies `ptySize
      ensures Models(Agree(s))
    {
      var z := MinGeometryLocked(s.clients);
      if z.cols != 0 && z.rows != 0 {
        ptySize := Some(z);
      }
    }

    /** The new client object, under the next identifier, with any size that was waiting for it. */
    method NewEntry(remote: string, caps: Capabilities, canWrite: bool, ghost since: nat, ghost s: Session)
      returns (c: SessionClient)
      requires Fields(s)
      modifies `nextID, `pendingResize
      ensures nextID == s.nextID + 1 && pendingResize == s.pending - {remote}
      ensures fresh(c) && c.Valid() && c.id == nextID
      ensures c.row == NewClient(s, remote, caps, canWrite, since)
    {
      nextID := nextID + 1;
      var size := Size(0, 0);
      if remote in pendingResize {
        size := pendingResize[remote];
      }
      c := new SessionClient(nextID, NewClient(s, remote, caps, canWrite, since), remote, caps, canWrite, size);
      pendingResize := pendingResize - {remote};
    }

    method AddEntry(remote: string, caps: Capabilities, canWrite: bool, ghost since: nat, ghost s: Session)
      returns (c: SessionClient)
      requires Models(s) && Invariants.Numbered(s)
      modifies `nextID, `pendingResize, `clients
      ensures nextID == s.nextID + 1 && pendingResize == s.pending - {remote}
      ensures Registered(SessionModel.Enter(s, remote, caps, canWrite, since).clients)
      ensures fresh(c) && c.id == nextID && clients == old(clients)[nextID := c]
    {
      c := NewEntry(remote, caps, canWrite, since, s);
      Insert(c, s.clients);
    }

    /** The newest client takes the seat if it may write and there is one. */
    method Sit(canWrite: bool)
      modifies `writerID
      ensures writerID == if mode == PrimaryObserver && canWrite then nextID else old(writerID)
    {
      if mode == PrimaryObserver && canWrite {
        writerID := nextID;
      }
    }

    method Enter(remote: string, caps: Capabilities, canWrite: bool, ghost since: nat, ghost s: Session)
      returns (c: SessionClient)
      requires Models(s) && Invariants.Numbered(s)
      modifies this
      ensures Models(SessionModel.Enter(s, remote, caps, canWrite, since))
      ensures fresh(c) && c.id == nextID && clients == old(clients)[nextID := c]
    {
      c := AddEntry(remote, caps, canWrite, since, s);
      Sit(canWrite);
    }

    method Register(remote: string, caps: Capabilities, canWrite: bool, ghost since: nat, ghost s: Session)
      returns (c: SessionClient)
      requires Models(s) && Invariants.Numbered(s)
      modifies this
      ensures Models(Enrol(s, remote, caps, canWrite, since))
      ensures fresh(c) && c.id == nextID && clients == old(clients)[nextID := c]
    {
      c := Enter(remote, caps, canWrite, since, s);
      if c.size.cols > 0 && c.size.rows > 0 {
        Recompute(SessionModel.Enter(s, remote, caps, canWrite, since));
      }
    }

    method MakeWay(ghost s: Session)
      requires Models(s)
      modifies `writerID, clients.Values
      ensures Models(MakeRoom(s))
    {
      if mode == Supersede {
        KickEveryone(s.clients);
      } else if mode == PrimaryObserver && writerID !in clients {
        writerID := 0;
      }
    }

    /** Admission once the mode has not refused it. */
    method LetIn(remote: string, caps: Capabilities, ghost since: nat, ghost s: Session)
      returns (c: SessionClient)
      requires Models(s) && Invariants.Numbered(s)
      modifies this, clients.Values
      ensures Models(Enrol(MakeRoom(s), remote, caps, MayWrite(s, caps), since))
      ensures fresh(c) && c.id == s.nextID + 1 && clients == old(clients)[c.id := c]
    {
      MakeWay(s);
      var canWrite := caps.CanWrite() && (mode == PrimaryObserver ==> writerID == 0);
      c := Register(remote, caps, canWrite, since, MakeRoom(s));
    }

    method AddClient(remote: string, caps: Capabilities, ghost since: nat, ghost s: Session)
      returns (c: SessionClient?)
      requires Models(s) && Invariants.Numbered(s)
      modifies this, clients.Values
      ensures Models(Admit(s, remote, caps, since))
      ensures c == null <==> Refuses(s)
      ensures c == null ==> clients == old(clients)
      ensures c != null ==> fresh(c) && c.id == s.nextID + 1 && clients == old(clients)[c.id := c]
    {
      assert clients.Keys == s.clients.Keys;
      if mode == Unspecified || (mode == Exclusive && clients.Keys != {}) {
        return null;
      }
      c := LetIn(remote, caps, since, s);
    }

    // -------------------------------------------------------------------
    // Control messages
    // -------------------------------------------------------------------

    method SetSize(id: nat, size: Size, ghost cs: Clients)
      requires Registered(cs) && id in clients
      modifies clients[id]
      ensures Registered(cs[id := cs[id].(size := size)])
    {
      clients[id].SetSize(size);
    }

    method SetCanWrite(id: nat, canWrite: bool, ghost cs: Clients)
      requires Registered(cs) && id in clients
      modifies clients[id]
      ensures Registered(cs[id := cs[id].(canWrite := canWrite)])
    {
      clients[id].SetCanWrite(canWrite);
    }

    method Resize(id: nat, size: Size, ghost s: Session)
      requires Models(s) && id in clients
      modifies clients.Values
      ensures Models(Sized(s, id, size))
    {
      SetSize(id, size, s.clients);
    }

    method ApplyResizeForRemote(remote: string, size: Size, ghost s: Session)
      requires Models(s)
      modifies `pendingResize, `ptySize, clients.Values
      ensures Models(ApplyResize(s, remote, size))
    {
      var c := ClientByRemoteIDLocked(remote, s.clients);
      if c == null {
        pendingResize := pendingResize[remote := size];
      } else {
        Resize(c.id, size, s);
        Recompute(Sized(s, c.id, size));
      }
    }

    method Demote(id: nat, ghost s: Session)
      requires Models(s) && id in clients
      modifies `writerID, clients.Values
      ensures Models(Demoted(s, id))
    {
      SetCanWrite(id, false, s.clients);
      Vacate(id);
    }

    method DemoteRemote(remote: string, ghost s: Session) returns (found: bool)
      requires Models(s)
      modifies `writerID, clients.Values
      ensures Models(SessionModel.DemoteRemote(s, remote))
      ensures found <==> Connected(s.clients, remote)
    {
      var c := ClientByRemoteIDLocked(remote, s.clients);
      found := c != null;
      if found {
        Demote(c.id, s);
      }
    }

    /** id takes the seat; whoever had it gives up writing. */
    method TakeSeat(id: nat, ghost s: Session)
      requires Models(s)
      modifies `writerID, clients.Values
      ensures Models(Seated(s, id))
    {
      if writerID in clients && writerID != id {
        SetCanWrite(writerID, false, s.clients);
      }
      writerID := id;
    }

    method GiveWrite(id: nat, ghost s: Session)
      requires Models(s) && id in clients
      modifies clients.Values
      ensures Models(Writing(s, id))
    {
      SetCanWrite(id, true, s.clients);
    }

    method PromoteClient(id: nat, ghost s: Session) returns (found: bool)
      requires Models(s)
      modifies `writerID, clients.Values
      ensures Models(SessionModel.PromoteClient(s, id))
      ensures found <==> id in s.clients
    {
      found := id in clients;
      if found {
        ghost var mid := s;
        if mode == PrimaryObserver {
          TakeSeat(id, s);
          mid := Seated(s, id);
        }
        GiveWrite(id, mid);
      }
    }

    method KickClient(id: nat, ghost s: Session) returns (found: bool)
      requires Models(s)
      modifies clients.Values
      ensures Models(SessionModel.KickClient(s, id))
      ensures found <==> id in s.clients
    {
      found := id in clients;
      if found {
        KickOne(id, s.clients);
      }
    }

    /** One message of the control stream: the capability it needs, then the change it asks for. */
    method HandleControl(remote: string, caps: Capabilities, m: Control, ghost s: Session)
      requires Models(s)
      modifies `mode, `writerID, `pendingResize, `ptySize, clients.Values
      ensures Models(Dispatch(s, remote, caps, m))
    {
      match m {
        case Resize(size) =>
          if caps.CanResize() && size.cols != 0 && size.rows != 0 {
            ApplyResizeForRemote(remote, size, s);
          }
        case SetMode(kind) =>
          if caps.owner && kind != Unspecified {
            mode := kind;
          }
        case Demote =>
          var _ := DemoteRemote(remote, s);
        case Promote(id) =>
          if caps.owner {
            var _ := PromoteClient(id, s);
          }
        case Kick(id) =>
          if caps.owner {
            var _ := KickClient(id, s);
          }
        case NoEffect =>
      }
    }

    // -------------------------------------------------------------------
    // Departure
    // -------------------------------------------------------------------

    method Drop(id: nat, ghost cs: Clients)
      requires Registered(cs)
      modifies `clients
      ensures Registered(cs - {id}) && clients == old(clients) - {id}
    {
      clients := clients - {id};
    }

    /** Kicks the client if it is registered, and forgets it. */
    method Delete(id: nat, ghost cs: Clients)
      requires Registered(cs)
      modifies `clients, clients.Values
      ensures Registered(cs - {id}) && clients == old(clients) - {id}
      ensures id in old(clients) ==> old(clients)[id].kicked
    {
      if id in clients {
        KickOne(id, cs);
        assert clients[id].kicked;
        Drop(id, cs[id := cs[id].(kicked := true)]);
        assert cs[id := cs[id].(kicked := true)] - {id} == cs - {id};
      } else {
        assert cs - {id} == cs;
        assert clients - {id} == clients;
      }
    }

    method Leave(id: nat, ghost s: Session)
      requires Models(s)
      modifies `clients, `writerID, clients.Values
      ensures Models(Depart(s, id)) && clients == old(clients) - {id}
      ensures id in old(clients) ==> old(clients)[id].kicked
    {
      Delete(id, s.clients);
      Vacate(id);
    }

    method RemoveClient(id: nat, ghost s: Session)
      requires Models(s)
      modifies `clients, `writerID, `ptySize, clients.Values
      ensures Models(SessionModel.RemoveClient(s, id))
      ensures clients == old(clients) - {id}
      ensures id in old(clients) ==> old(clients)[id].kicked
    {
      Leave(id, s);
      Recompute(Depart(s, id));
    }

    method Shutdown(ghost s: Session)
      requires Models(s)
      modifies `clients, `writerID, clients.Values
      ensures Models(ShutdownAll(s))
      ensures forall id :: id in old(clients) ==> old(clients)[id].kicked
    {
      KickEveryone(s.clients);
      assert forall id :: id in clients ==> clients[id].kicked;
      clients, writerID := map[], 0;
    }

    // -------------------------------------------------------------------
    // Output
    // -------------------------------------------------------------------

    method SendTo(id: nat, chunk: seq<Byte>, ghost first: nat, ghost cs: Clients)
      requires Registered(cs) && id in clients
      modifies clients[id]
      ensures Registered(cs[id := Offer(cs[id], Entry(first, chunk))])
    {
      clients[id].Send(chunk, first);
    }

    method SendNext(todo: set<nat>, chunk: seq<Byte>, ghost first: nat, ghost cs: Clients)
      returns (rest: set<nat>)
      requires todo != {} && todo <= clients.Keys
      requires Registered(OfferedBut(cs, todo, Entry(first, chunk)))
      modifies clients.Values
      ensures rest < todo && Registered(OfferedBut(cs, rest, Entry(first, chunk)))
    {
      ghost var e := Entry(first, chunk);
      var id :| id in todo;
      SendTo(id, chunk, first, OfferedBut(cs, todo, e));
      OfferedNext(cs, todo, id, e);
      rest := todo - {id};
    }

    method SendEveryone(chunk: seq<Byte>, ghost first: nat, ghost cs: Clients)
      requires Registered(cs)
      modifies clients.Values
      ensures Registered(OfferAll(cs, Entry(first, chunk)))
    {
      ghost var e := Entry(first, chunk);
      var todo := clients.Keys;
      OfferedNone(cs, e);
      while todo != {}
        invariant todo <= clients.Keys
        invariant Registered(OfferedBut(cs, todo, e))
        decreases todo
      {
        todo := SendNext(todo, chunk, first, cs);
      }
      OfferedAll(cs, e);
    }

    method Broadcast(chunk: seq<Byte>, ghost first: nat, ghost s: Session)
      requires Models(s) && s.pump.inFlight == Some(Entry(first, chunk))
      modifies clients.Values
      ensures Models(BroadcastOne(s))
    {
      SendEveryone(chunk, first, s.clients);
    }

    /** The writer goroutine takes the oldest chunk off a client's channel. */
    method Take(id: nat, ghost s: Session) returns (chunk: Option<seq<Byte>>)
      requires Models(s)
      modifies clients.Values
      ensures Models(DeliverOne(s, id))
      ensures chunk.Some? <==> id in s.clients && s.clients[id].outCh != []
      ensures chunk.Some? ==> chunk.value == s.clients[id].outCh[0].bytes
    {
      chunk := None;
      if id in clients && |clients[id].outCh| > 0 {
        var taken := clients[id].Take();
        chunk := Some(taken);
      }
    }

    ghost method NoteReplay(id: nat, found: Replayed, cs: Clients)
      requires Registered(cs) && id in clients
      modifies clients[id]
      ensures Registered(cs[id := cs[id].(replay := Some(found))])
    {
      clients[id].NoteReplay(found);
    }

    /** A new client's look into the ring; the session lock is not held. */
    method Replay(id: nat, fromSeq: nat, output: Ring, ghost s: Session) returns (r: OutputRing.Replay)
      requires Models(s) && id in s.clients && s.clients[id].since == fromSeq && s.clients[id].replay.None?
      requires output.Valid() && output.history == s.pump.history && output.capacity == s.capacity
      modifies clients.Values
      ensures Models(ReplayTo(s, id))
      ensures r == ReplayFrom(s.pump.history, s.capacity, fromSeq)
    {
      r := output.From(fromSeq);
      NoteReplay(id, Found(s.pump.history, s.capacity, fromSeq), s.clients);
    }

    method SendReplay(id: nat, r: OutputRing.Replay, ghost s: Session)
      requires Models(s) && id in s.clients && s.clients[id].replay.Some?
      requires |r.data| <= r.nextSeq && s.clients[id].replay.value.unsent == Unsent(r)
      modifies clients.Values
      ensures Models(SendReplayTo(s, id))
    {
      if !r.behind && |r.data| > 0 {
        clients[id].SendReplay(r.data);
      }
    }
  }

  /** What pumpOutput owns: the query filter and the ring. */
  class OutputPump {
    const output: Ring
    const daResp: DA.Responder

    ghost predicate Models(p: Pump)
      reads this, output, output.data, daResp
    {
      && output.Valid() && output.history == p.history
      && daResp.Valid() && daResp.state == p.da && daResp.held == p.held
    }

    constructor (capacity: int)
      ensures Models(IDLE) && fresh(output) && fresh(output.data) && fresh(daResp)
      ensures output.capacity == if capacity <= 0 then DEFAULT_CAPACITY else capacity
    {
      output := new Ring(capacity);
      daResp := new DA.Responder();
    }

    /** One read from the PTY: what to write back to it, and what to broadcast next. */
    method Read(input: seq<Byte>, ghost p: Pump) returns (out: seq<Byte>, resp: seq<Byte>)
      requires Models(p) && p.inFlight.None?
      modifies output, output.data, daResp
      ensures Models(PumpIn(p, input))
      ensures PumpIn(p, input).replies == p.replies + resp
      ensures PumpIn(p, input).inFlight == if out == [] then None else Some(Entry(|p.history| + 1, out))
    {
      out, resp := daResp.Process(input);
      if |out| > 0 {
        var _, _ := output.Write(out);
      }
    }
  }

  /** One round of pumpOutput: the two steps it takes when nothing comes between them. */
  method PumpRound(pump: OutputPump, registry: Registry, input: seq<Byte>, ghost s: Session)
    returns (resp: seq<Byte>)
    requires pump.Models(s.pump) && registry.Models(s) && s.pump.inFlight.None?
    modifies pump.output, pump.output.data, pump.daResp, registry.clients.Values
    ensures var read := s.(pump := PumpIn(s.pump, input));
            && registry.Models(BroadcastOne(read)) && pump.Models(read.pump)
            && read.pump.replies == s.pump.replies + resp
  {
    var out;
    out, resp := pump.Read(input, s.pump);
    if |out| > 0 {
      registry.Broadcast(out, |s.pump.history| + 1, s.(pump := PumpIn(s.pump, input)));
    }
  }

  /** Everyone offered e except those in todo. */
  function OfferedBut(cs: Clients, todo: set<nat>, e: Entry): Clients {
    map id | id in cs :: if id in todo then cs[id] else Offer(cs[id], e)
  }

  lemma OfferedNext(cs: Clients, todo: set<nat>, id: nat, e: Entry)
    requires id in cs && id in todo
    ensures var now := OfferedBut(cs, todo, e);
            OfferedBut(cs, todo - {id}, e) == now[id := Offer(now[id], e)]
  {
  }

  lemma OfferedNone(cs: Clients, e: Entry)
    ensures OfferedBut(cs, cs.Keys, e) == cs
  {
  }

  lemma OfferedAll(cs: Clients, e: Entry)
    ensures OfferedBut(cs, {}, e) == OfferAll(cs, e)
  {
  }

  /** Everyone kicked except those in todo. */
  function KickedBut(cs: Clients, todo: set<nat>): Clients {
    map id | id in cs :: if id in todo then cs[id] else cs[id].(kicked := true)
  }

  lemma KickedNext(cs: Clients, todo: set<nat>, id: nat)
    requires id in cs && id in todo
    ensures var now := KickedBut(cs, todo);
            KickedBut(cs, todo - {id}) == now[id := now[id].(kicked := true)]
  {
  }

  lemma KickedNone(cs: Clients)
    ensures KickedBut(cs, cs.Keys) == cs
  {
  }

  lemma KickedAll(cs: Clients)
    ensures KickedBut(cs, {}) == KickAll(cs)
  {
  }
}
