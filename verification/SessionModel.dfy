/**
  The session engine (vterm/session.go, vterm.go, control.go) as a state
  machine. Each critical section under the session lock, and each use of the
  ring's own lock, is one atomic step; a run is any interleaving of them.

  A client record also carries what no field of the program holds: its resume
  floor, what had been broadcast when it joined, what its replay found, and
  everything already taken off its channel. These only record; no step reads
  them to decide anything.
 */
module SessionModel {
  import opened Common
  import opened OutputRing
  import DA = DeviceAttributes

  datatype Mode = Unspecified | Supersede | Exclusive | PrimaryObserver | MultiWrite

  /** clientBufferChunks: the depth of a client's output channel. */
  const CHANNEL_DEPTH: nat := 256

  datatype Size = Size(cols: nat, rows: nat)

  /** A chunk of output, with the sequence number of its first byte. */
  datatype Entry = Entry(first: nat, bytes: seq<Byte>)

  /**
    What a client's replay found: the ring's first sequence number, whether
    the client was behind it, and output not yet put on its channel.
   */
  datatype Replayed = Replayed(first: nat, behind: bool, unsent: Option<Entry>)

  datatype Client = Client(remote: string, caps: Capabilities, canWrite: bool, size: Size, kicked: bool,
                           outCh: seq<Entry>, dropped: nat,
                           since: nat, joined: int, replay: Option<Replayed>, taken: seq<Entry>)

  type Clients = map<nat, Client>

  /** PTY output on its way to the clients: filtered, in the ring, perhaps not yet broadcast. */
  datatype Pump = Pump(da: DA.State, held: seq<Byte>, history: seq<Byte>, inFlight: Option<Entry>,
                       read: seq<Byte>, replies: seq<Byte>)

  datatype Session = Session(mode: Mode, nextID: nat, clients: Clients, writerID: nat,
                             pending: map<string, Size>, requested: Option<Size>,
                             pump: Pump, capacity: nat)

  datatype Control =
    | Resize(size: Size)
    | SetMode(kind: Mode)
    | Demote
    | Promote(target: nat)
    | Kick(target: nat)
    | NoEffect  // signals, listings and unknown messages leave the registry alone

  datatype Step =
    | Attach(remote: string, caps: Capabilities, since: nat)
    | Replay(id: nat)
    | SendReplay(id: nat)
    | Deliver(id: nat)
    | Remove(id: nat)
    | Message(remote: string, caps: Capabilities, control: Control)
    | PumpRead(input: seq<Byte>)
    | PumpBroadcast
    | Shutdown

  // ---------------------------------------------------------------------
  // Order-free summaries of the registry
  // ---------------------------------------------------------------------

  predicate Reports(c: Client) {
    c.size.cols > 0 && c.size.rows > 0
  }

  /** z is the component-wise minimum over the clients that have reported; 0x0 if none has. */
  ghost predicate IsMin(clients: Clients, z: Size) {
    && (forall id :: id in clients && Reports(clients[id]) ==>
          0 < z.cols <= clients[id].size.cols && 0 < z.rows <= clients[id].size.rows)
    && (z.cols > 0 ==> exists id :: id in clients && Reports(clients[id]) && clients[id].size.cols == z.cols)
    && (z.rows > 0 ==> exists id :: id in clients && Reports(clients[id]) && clients[id].size.rows == z.rows)
  }

  lemma MinUnique(clients: Clients, y: Size, z: Size)
    requires IsMin(clients, y) && IsMin(clients, z)
    ensures y == z
  {
  }

  lemma {:induction false} MinExists(clients: Clients) returns (z: Size)
    ensures IsMin(clients, z)
    decreases |clients|
  {
    if clients == map[] {
      z := Size(0, 0);
    } else {
      var id :| id in clients;
      var rest := clients - {id};
      assert |rest| < |clients| by {
        assert rest.Keys == clients.Keys - {id};
      }
      var y := MinExists(rest);
      z := MinWith(clients, id, y);
    }
  }

  /** One more client folded into a minimum, as the loop does it. */
  function Meet(z: Size, c: Client): Size {
    if !Reports(c) then z
    else
      Size(if z.cols == 0 || c.size.cols < z.cols then c.size.cols else z.cols,
           if z.rows == 0 || c.size.rows < z.rows then c.size.rows else z.rows)
  }

  lemma MinWith(clients: Clients, id: nat, y: Size) returns (z: Size)
    requires id in clients && IsMin(clients - {id}, y)
    ensures z == Meet(y, clients[id]) && IsMin(clients, z)
  {
    z := Meet(y, clients[id]);
    var rest := clients - {id};
    if z.cols == y.cols > 0 {
      var k :| k in rest && Reports(rest[k]) && rest[k].size.cols == y.cols;
      assert k in clients && clients[k] == rest[k];
    }
    if z.rows == y.rows > 0 {
      var k :| k in rest && Reports(rest[k]) && rest[k].size.rows == y.rows;
      assert k in clients && clients[k] == rest[k];
    }
    forall k | k in clients && Reports(clients[k])
      ensures 0 < z.cols <= clients[k].size.cols && 0 < z.rows <= clients[k].size.rows
    {
      assert k != id ==> k in rest && rest[k] == clients[k];
    }
  }

  ghost function MinGeometry(clients: Clients): (z: Size)
    ensures IsMin(clients, z)
  {
    assert exists z :: IsMin(clients, z) by {
      var z := MinExists(clients);
    }
    var z :| IsMin(clients, z);
    z
  }

  /** id is the newest client of remote. */
  ghost predicate IsLatest(clients: Clients, remote: string, id: nat) {
    && id in clients && clients[id].remote == remote
    && forall k :: k in clients && clients[k].remote == remote ==> k <= id
  }

  ghost predicate Connected(clients: Clients, remote: string) {
    exists k :: k in clients && clients[k].remote == remote
  }

  lemma {:induction false} LatestExists(clients: Clients, remote: string)
    requires Connected(clients, remote)
    ensures exists id :: IsLatest(clients, remote, id)
    decreases |clients|
  {
    var k :| k in clients && clients[k].remote == remote;
    if !IsLatest(clients, remote, k) {
      var rest := clients - {k};
      assert |rest| < |clients| by {
        assert rest.Keys == clients.Keys - {k};
      }
      var better :| better in clients && clients[better].remote == remote && better > k;
      assert better in rest && rest[better].remote == remote;
      LatestExists(rest, remote);
      var id :| IsLatest(rest, remote, id);
      forall j | j in clients && clients[j].remote == remote ensures j <= id {
        assert j != k ==> j in rest && rest[j] == clients[j];
        assert better <= id;
      }
      assert IsLatest(clients, remote, id);
    }
  }

  ghost function Latest(clients: Clients, remote: string): (r: Option<nat>)
    ensures r.None? <==> !Connected(clients, remote)
    ensures r.Some? ==> IsLatest(clients, remote, r.value)
  {
    if Connected(clients, remote) then
      LatestExists(clients, remote);
      var id :| IsLatest(clients, remote, id);
      Some(id)
    else None
  }

  // ---------------------------------------------------------------------
  // Admission
  // ---------------------------------------------------------------------

  function KickAll(clients: Clients): Clients {
    map id | id in clients :: clients[id].(kicked := true)
  }

  predicate Refuses(s: Session) {
    s.mode == Unspecified || (s.mode == Exclusive && s.clients != map[])
  }

  /** The seat as admission sees it: a seat naming nobody counts as vacant. */
  function Seat(s: Session): nat {
    if s.mode == PrimaryObserver && s.writerID !in s.clients then 0 else s.writerID
  }

  function MayWrite(s: Session, caps: Capabilities): bool {
    caps.CanWrite() && (s.mode == PrimaryObserver ==> Seat(s) == 0)
  }

  /** How much of the history every registered client has been offered live. */
  function Broadcast(p: Pump): int {
    |p.history| - if p.inFlight.Some? then |p.inFlight.value.bytes| else 0
  }

  /** What a mode does to those already here when someone new is let in. */
  function MakeRoom(s: Session): Session {
    s.(clients := if s.mode == Supersede then KickAll(s.clients) else s.clients, writerID := Seat(s))
  }

  function NewClient(s: Session, remote: string, caps: Capabilities, canWrite: bool, since: nat): Client {
    Client(remote, caps, canWrite,
           if remote in s.pending then s.pending[remote] else Size(0, 0), false, [], 0,
           since, Broadcast(s.pump), None, [])
  }

  /** Registers a client under the next identifier, with any size that was waiting for it. */
  function Enter(s: Session, remote: string, caps: Capabilities, canWrite: bool, since: nat): Session {
    var id := s.nextID + 1;
    s.(nextID := id,
       clients := s.clients[id := NewClient(s, remote, caps, canWrite, since)],
       writerID := if s.mode == PrimaryObserver && canWrite then id else s.writerID,
       pending := s.pending - {remote})
  }

  /** Asks the PTY for the size the clients agree on, if any of them has reported one. */
  ghost function Agree(s: Session): Session {
    var z := MinGeometry(s.clients);
    if z.cols > 0 && z.rows > 0 then s.(requested := Some(z)) else s
  }

  ghost function Enrol(s: Session, remote: string, caps: Capabilities, canWrite: bool, since: nat): Session {
    var entered := Enter(s, remote, caps, canWrite, since);
    if Reports(entered.clients[entered.nextID]) then Agree(entered) else entered
  }

  ghost function Admit(s: Session, remote: string, caps: Capabilities, since: nat): Session {
    if Refuses(s) then s else Enrol(MakeRoom(s), remote, caps, MayWrite(s, caps), since)
  }

  // ---------------------------------------------------------------------
  // Control messages
  // ---------------------------------------------------------------------

  function Sized(s: Session, id: nat, size: Size): Session
    requires id in s.clients
  {
    s.(clients := s.clients[id := s.clients[id].(size := size)])
  }

  ghost function ApplyResize(s: Session, remote: string, size: Size): Session {
    match Latest(s.clients, remote)
    case None => s.(pending := s.pending[remote := size])
    case Some(id) => Agree(Sized(s, id, size))
  }

  function Demoted(s: Session, id: nat): Session
    requires id in s.clients
  {
    s.(clients := s.clients[id := s.clients[id].(canWrite := false)],
       writerID := if s.writerID == id then 0 else s.writerID)
  }

  ghost function DemoteRemote(s: Session, remote: string): Session {
    match Latest(s.clients, remote)
    case None => s
    case Some(id) => Demoted(s, id)
  }

  /** id takes the seat, and whoever had it may no longer write. */
  function Seated(s: Session, id: nat): Session {
    s.(clients := if s.writerID in s.clients && s.writerID != id
                  then s.clients[s.writerID := s.clients[s.writerID].(canWrite := false)]
                  else s.clients,
       writerID := id)
  }

  function Writing(s: Session, id: nat): Session
    requires id in s.clients
  {
    s.(clients := s.clients[id := s.clients[id].(canWrite := true)])
  }

  function PromoteClient(s: Session, id: nat): Session {
    if id !in s.clients then s
    else Writing(if s.mode == PrimaryObserver then Seated(s, id) else s, id)
  }

  function KickClient(s: Session, id: nat): Session {
    if id !in s.clients then s else s.(clients := s.clients[id := s.clients[id].(kicked := true)])
  }

  /** The capability gates of the control handler. */
  ghost function Dispatch(s: Session, remote: string, caps: Capabilities, m: Control): Session {
    match m
    case Resize(size) =>
      if caps.CanResize() && size.cols != 0 && size.rows != 0 then ApplyResize(s, remote, size) else s
    case SetMode(kind) => if caps.owner && kind != Unspecified then s.(mode := kind) else s
    case Demote => DemoteRemote(s, remote)
    case Promote(id) => if caps.owner then PromoteClient(s, id) else s
    case Kick(id) => if caps.owner then KickClient(s, id) else s
    case NoEffect => s
  }

  // ---------------------------------------------------------------------
  // Departure
  // ---------------------------------------------------------------------

  function Depart(s: Session, id: nat): Session {
    s.(clients := s.clients - {id}, writerID := if s.writerID == id then 0 else s.writerID)
  }

  ghost function RemoveClient(s: Session, id: nat): Session {
    Agree(Depart(s, id))
  }

  function ShutdownAll(s: Session): Session {
    s.(clients := map[], writerID := 0)
  }

  // ---------------------------------------------------------------------
  // Output
  // ---------------------------------------------------------------------

  /** A non-blocking send: a full channel drops the chunk. */
  function Offer(c: Client, e: Entry): Client {
    if |c.outCh| < CHANNEL_DEPTH then c.(outCh := c.outCh + [e]) else c.(dropped := c.dropped + 1)
  }

  /** What of a replay is worth sending. */
  function Unsent(r: OutputRing.Replay): Option<Entry>
    requires |r.data| <= r.nextSeq
  {
    if !r.behind && |r.data| > 0 then Some(Entry(r.nextSeq - |r.data|, r.data)) else None
  }

  function Found(history: seq<Byte>, capacity: nat, since: nat): Replayed {
    var r := ReplayFrom(history, capacity, since);
    Replayed(FirstSeq(history, capacity), r.behind, Unsent(r))
  }

  /** The ring is read for the replay once per client, after registration. */
  function ReplayTo(s: Session, id: nat): Session {
    if id !in s.clients || s.clients[id].replay.Some? then s
    else
      var c := s.clients[id];
      s.(clients := s.clients[id := c.(replay := Some(Found(s.pump.history, s.capacity, c.since)))])
  }

  predicate AwaitsReplay(c: Client) {
    c.replay.Some? && c.replay.value.unsent.Some?
  }

  function ReplaySent(c: Client): Client
    requires AwaitsReplay(c)
  {
    Offer(c.(replay := Some(c.replay.value.(unsent := None))), c.replay.value.unsent.value)
  }

  /** What it read goes on the client's channel, whatever was broadcast in between. */
  function SendReplayTo(s: Session, id: nat): Session {
    if id !in s.clients || !AwaitsReplay(s.clients[id]) then s
    else s.(clients := s.clients[id := ReplaySent(s.clients[id])])
  }

  function DeliverOne(s: Session, id: nat): Session {
    if id !in s.clients || s.clients[id].outCh == [] then s
    else
      var c := s.clients[id];
      s.(clients := s.clients[id := c.(outCh := c.outCh[1..], taken := c.taken + [c.outCh[0]])])
  }

  /** One PTY read: filter it, and put what passes into the ring. */
  function PumpIn(p: Pump, input: seq<Byte>): Pump {
    if p.inFlight.Some? then p
    else
      var r := DA.Feed(DA.Run(p.da, p.held, [], []), input);
      Pump(r.state, r.held, p.history + r.out,
           if r.out == [] then None else Some(Entry(|p.history| + 1, r.out)),
           p.read + input, p.replies + r.resp)
  }

  function OfferAll(clients: Clients, e: Entry): Clients {
    map id | id in clients :: Offer(clients[id], e)
  }

  function BroadcastOne(s: Session): Session {
    match s.pump.inFlight
    case None => s
    case Some(e) =>
      s.(clients := OfferAll(s.clients, e), pump := s.pump.(inFlight := None))
  }

  // ---------------------------------------------------------------------
  // Runs
  // ---------------------------------------------------------------------

  ghost function Next(s: Session, step: Step): Session {
    match step
    case Attach(remote, caps, since) => Admit(s, remote, caps, since)
    case Replay(id) => ReplayTo(s, id)
    case SendReplay(id) => SendReplayTo(s, id)
    case Deliver(id) => DeliverOne(s, id)
    case Remove(id) => RemoveClient(s, id)
    case Message(remote, caps, m) => Dispatch(s, remote, caps, m)
    case PumpRead(input) => s.(pump := PumpIn(s.pump, input))
    case PumpBroadcast => BroadcastOne(s)
    case Shutdown => ShutdownAll(s)
  }

  const IDLE := Pump(DA.Ground, [], [], None, [], [])

  /** A session as Run sets it up: Unspecified means Supersede. */
  function Initial(mode: Mode, capacity: nat): Session {
    Session(if mode == Unspecified then Supersede else mode, 0, map[], 0, map[], None, IDLE, capacity)
  }

  /** states lists the session before and after each step. */
  ghost predicate IsRun(start: Session, steps: seq<Step>, states: seq<Session>) {
    && |states| == |steps| + 1
    && states[0] == start
    && forall i :: 0 <= i < |steps| ==> states[i + 1] == Next(states[i], steps[i])
  }
}
