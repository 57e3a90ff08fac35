/**
  The session engine as a whole (vterm/vterm.go `Run` and `bridgeClient`):
  registry, pump, and what the goroutines keep in their own variables between
  two critical sections. `RunSession` takes any steps in any order on these
  objects and proves that they end in the state where the model's run ends, so
  that what `SessionInvariants` and `Coverage` prove of runs holds of them.
 */
module Engine {
  import opened Common
  import opened OutputRing
  import opened SessionModel
  import opened Vterm
  import Coverage
  import Invariants = SessionInvariants

  type Replays = map<nat, OutputRing.Replay>

  /**
    Variables of the goroutines: each client's resume floor, whose ring has
    been read, output read and not yet sent, and the chunk to be broadcast next.
   */
  datatype Locals = Locals(fromSeq: map<nat, nat>, read: set<nat>, unsent: Replays, chunk: Option<seq<Byte>>)

  /** What the goroutine of client c, registered under id, knows of it. */
  predicate Knows(v: Locals, id: nat, c: Client) {
    && id in v.fromSeq && v.fromSeq[id] == c.since
    && (id in v.read <==> c.replay.Some?)
    && (id in v.unsent <==> AwaitsReplay(c))
    && (id in v.unsent ==>
          var r := v.unsent[id];
          |r.data| <= r.nextSeq && Unsent(r) == c.replay.value.unsent)
  }

  predicate Holding(chunk: Option<seq<Byte>>, inFlight: Option<Entry>) {
    match inFlight
    case None => chunk == None
    case Some(e) => chunk == Some(e.bytes)
  }

  /** The goroutines' variables agree with the state s; numbers not yet given out are unknown to them. */
  ghost predicate Agrees(v: Locals, s: Session) {
    && (forall id :: id in s.clients ==> Knows(v, id, s.clients[id]))
    && (forall id :: id in v.read || id in v.unsent ==> id <= s.nextID)
    && Holding(v.chunk, s.pump.inFlight)
  }

  // ---------------------------------------------------------------------
  // The goroutines' variables, step by step
  // ---------------------------------------------------------------------

  /** A step that leaves every remaining client's floor and replay alone, and the chunk in flight. */
  ghost predicate Untouched(s: Session, s': Session) {
    && s'.nextID == s.nextID && s'.pump.inFlight == s.pump.inFlight
    && forall id :: id in s'.clients ==>
         && id in s.clients
         && s'.clients[id].since == s.clients[id].since && s'.clients[id].replay == s.clients[id].replay
  }

  lemma StillAgrees(v: Locals, s: Session, s': Session)
    requires Agrees(v, s) && Untouched(s, s')
    ensures Agrees(v, s')
  {
    forall id | id in s'.clients ensures Knows(v, id, s'.clients[id]) {
      assert Knows(v, id, s.clients[id]);
    }
  }

  function WithFloor(v: Locals, id: nat, since: nat): Locals {
    v.(fromSeq := v.fromSeq[id := since])
  }

  lemma AttachAgrees(v: Locals, s: Session, remote: string, caps: Capabilities, since: nat, v': Locals)
    requires Agrees(v, s) && Invariants.Numbered(s)
    requires v' == if Refuses(s) then v else WithFloor(v, s.nextID + 1, since)
    ensures Agrees(v', Admit(s, remote, caps, since))
  {
    if !Refuses(s) {
      var s' := Admit(s, remote, caps, since);
      forall id | id in s'.clients ensures Knows(v', id, s'.clients[id]) {
        if id != s'.nextID {
          assert Knows(v, id, s.clients[id]);
        }
      }
    }
  }

  /** After the ring has been read for id. */
  function Noted(v: Locals, id: nat, r: OutputRing.Replay): Locals
    requires |r.data| <= r.nextSeq
  {
    v.(read := v.read + {id}, unsent := if Unsent(r).Some? then v.unsent[id := r] else v.unsent)
  }

  lemma ReplayAgrees(v: Locals, s: Session, id: nat)
    requires Agrees(v, s) && Invariants.Numbered(s) && id in s.clients && s.clients[id].replay.None?
    ensures var r := ReplayFrom(s.pump.history, s.capacity, s.clients[id].since);
            |r.data| <= r.nextSeq && Agrees(Noted(v, id, r), ReplayTo(s, id))
  {
    var c := s.clients[id];
    NotedAgrees(v, s, id, ReplayFrom(s.pump.history, s.capacity, c.since),
                Found(s.pump.history, s.capacity, c.since));
  }

  /** What was found goes on record with the model and with the goroutine alike. */
  lemma NotedAgrees(v: Locals, s: Session, id: nat, r: OutputRing.Replay, found: Replayed)
    requires Agrees(v, s) && Invariants.Numbered(s) && id in s.clients && s.clients[id].replay.None?
    requires |r.data| <= r.nextSeq && found.unsent == Unsent(r)
    ensures Agrees(Noted(v, id, r), s.(clients := s.clients[id := s.clients[id].(replay := Some(found))]))
  {
    var v', s' := Noted(v, id, r), s.(clients := s.clients[id := s.clients[id].(replay := Some(found))]);
    forall k | k in s'.clients ensures Knows(v', k, s'.clients[k]) {
      assert Knows(v, k, s.clients[k]);
    }
  }

  lemma SendAgrees(v: Locals, s: Session, id: nat)
    requires Agrees(v, s)
    ensures Agrees(v.(unsent := v.unsent - {id}), SendReplayTo(s, id))
  {
    var v', s' := v.(unsent := v.unsent - {id}), SendReplayTo(s, id);
    forall k | k in s'.clients ensures Knows(v', k, s'.clients[k]) {
      assert Knows(v, k, s.clients[k]);
    }
  }

  lemma MessageUntouched(s: Session, remote: string, caps: Capabilities, m: Control)
    ensures Untouched(s, Dispatch(s, remote, caps, m))
  {
    Invariants.MessageAdministers(s, remote, caps, m);
  }

  lemma BroadcastAgrees(v: Locals, s: Session)
    requires Agrees(v, s)
    ensures Agrees(v.(chunk := None), BroadcastOne(s))
  {
    var v', s' := v.(chunk := None), BroadcastOne(s);
    forall k | k in s'.clients ensures Knows(v', k, s'.clients[k]) {
      assert Knows(v, k, s.clients[k]);
    }
  }

  // ---------------------------------------------------------------------
  // Steps on the objects
  // ---------------------------------------------------------------------

  method Attach(registry: Registry, v: Locals, remote: string, caps: Capabilities, since: nat, ghost s: Session)
    returns (v': Locals)
    requires registry.Models(s) && Agrees(v, s) && Invariants.Numbered(s)
    modifies registry, registry.clients.Values
    ensures registry.Models(Admit(s, remote, caps, since)) && Agrees(v', Admit(s, remote, caps, since))
    ensures fresh(registry.clients.Values - old(registry.clients.Values))
  {
    var c := registry.AddClient(remote, caps, since, s);
    v' := if c == null then v else WithFloor(v, c.id, since);
    AttachAgrees(v, s, remote, caps, since, v');
  }

  method Replay(registry: Registry, output: Ring, v: Locals, id: nat, ghost s: Session) returns (v': Locals)
    requires registry.Models(s) && Agrees(v, s) && Invariants.Numbered(s)
    requires output.Valid() && output.history == s.pump.history && output.capacity == s.capacity
    modifies registry.clients.Values
    ensures registry.Models(ReplayTo(s, id)) && Agrees(v', ReplayTo(s, id))
  {
    v' := v;
    if id in registry.clients && id !in v.read {
      assert Knows(v, id, s.clients[id]);
      ReplayAgrees(v, s, id);
      var r := registry.Replay(id, v.fromSeq[id], output, s);
      v' := Noted(v, id, r);
    }
  }

  method SendReplay(registry: Registry, v: Locals, id: nat, ghost s: Session) returns (v': Locals)
    requires registry.Models(s) && Agrees(v, s)
    modifies registry.clients.Values
    ensures registry.Models(SendReplayTo(s, id)) && Agrees(v', SendReplayTo(s, id))
  {
    v' := v.(unsent := v.unsent - {id});
    SendAgrees(v, s, id);
    if id in registry.clients && id in v.unsent {
      assert Knows(v, id, s.clients[id]);
      registry.SendReplay(id, v.unsent[id], s);
    }
  }

  method Broadcast(registry: Registry, v: Locals, ghost s: Session) returns (v': Locals)
    requires registry.Models(s) && Agrees(v, s)
    modifies registry.clients.Values
    ensures registry.Models(BroadcastOne(s)) && Agrees(v', BroadcastOne(s))
  {
    v' := v.(chunk := None);
    BroadcastAgrees(v, s);
    if v.chunk.Some? {
      registry.Broadcast(v.chunk.value, s.pump.inFlight.value.first, s);
    }
  }

  method PumpRead(pump: OutputPump, v: Locals, input: seq<Byte>, ghost s: Session)
    returns (v': Locals, resp: seq<Byte>)
    requires pump.Models(s.pump) && Agrees(v, s)
    modifies pump.output, pump.output.data, pump.daResp
    ensures pump.Models(PumpIn(s.pump, input)) && Agrees(v', s.(pump := PumpIn(s.pump, input)))
    ensures PumpIn(s.pump, input).replies == s.pump.replies + resp
  {
    v', resp := v, [];
    if v.chunk.None? {
      var out;
      out, resp := pump.Read(input, s.pump);
      v' := v.(chunk := if out == [] then None else Some(out));
      forall id | id in s.clients ensures Knows(v', id, s.clients[id]) {
        assert Knows(v, id, s.clients[id]);
      }
    }
  }

  /** Steps that change who is registered, or what they may do. */
  method Manage(registry: Registry, v: Locals, step: Step, ghost s: Session)
    requires registry.Models(s) && Agrees(v, s)
    requires step.Message? || step.Deliver? || step.Remove? || step.Shutdown?
    modifies registry, registry.clients.Values
    ensures registry.Models(Next(s, step)) && Agrees(v, Next(s, step))
    ensures registry.clients.Values <= old(registry.clients.Values)
  {
    StillAgreesAfter(v, s, step);
    match step {
      case Message(remote, caps, m) => registry.HandleControl(remote, caps, m, s);
      case Deliver(id) => var _ := registry.Take(id, s);
      case Remove(id) => registry.RemoveClient(id, s);
      case Shutdown => registry.Shutdown(s);
    }
  }

  lemma StillAgreesAfter(v: Locals, s: Session, step: Step)
    requires Agrees(v, s) && (step.Message? || step.Deliver? || step.Remove? || step.Shutdown?)
    ensures Agrees(v, Next(s, step))
  {
    if step.Message? {
      MessageUntouched(s, step.remote, step.caps, step.control);
    }
    StillAgrees(v, s, Next(s, step));
  }

  /** Only a PTY read changes what the pump owns. */
  lemma PumpStays(s: Session, step: Step)
    ensures Next(s, step).capacity == s.capacity
    ensures !step.PumpRead? ==>
              var p, p' := s.pump, Next(s, step).pump;
              p'.history == p.history && p'.da == p.da && p'.held == p.held
  {
    if step.Message? {
      Invariants.MessageAdministers(s, step.remote, step.caps, step.control);
    }
  }

  /** Any step but a PTY read. */
  method RegistryStep(registry: Registry, output: Ring, v: Locals, step: Step, ghost s: Session)
    returns (v': Locals)
    requires registry.Models(s) && Agrees(v, s) && Invariants.Numbered(s) && !step.PumpRead?
    requires output.Valid() && output.history == s.pump.history && output.capacity == s.capacity
    modifies registry, registry.clients.Values
    ensures registry.Models(Next(s, step)) && Agrees(v', Next(s, step))
    ensures fresh(registry.clients.Values - old(registry.clients.Values))
  {
    if step.Attach? {
      v' := Attach(registry, v, step.remote, step.caps, step.since, s);
    } else if step.Replay? {
      v' := Replay(registry, output, v, step.id, s);
    } else if step.SendReplay? {
      v' := SendReplay(registry, v, step.id, s);
    } else if step.PumpBroadcast? {
      v' := Broadcast(registry, v, s);
    } else {
      Manage(registry, v, step, s);
      v' := v;
    }
  }

  /** Registry, pump and goroutines are in the state s. */
  ghost predicate InState(registry: Registry, pump: OutputPump, v: Locals, s: Session)
    reads registry, registry.clients.Values, pump, pump.output, pump.output.data, pump.daResp
  {
    && registry.Models(s) && Agrees(v, s)
    && pump.Models(s.pump) && pump.output.capacity == s.capacity
  }

  method TakeStep(registry: Registry, pump: OutputPump, v: Locals, step: Step, ghost s: Session)
    returns (v': Locals)
    requires InState(registry, pump, v, s) && Invariants.Numbered(s)
    modifies registry, registry.clients.Values, pump.output, pump.output.data, pump.daResp
    ensures InState(registry, pump, v', Next(s, step))
    ensures fresh(registry.clients.Values - old(registry.clients.Values))
  {
    PumpStays(s, step);
    if step.PumpRead? {
      var resp;
      v', resp := PumpRead(pump, v, step.input, s);
    } else {
      v' := RegistryStep(registry, pump.output, v, step, s);
    }
  }

  /** Takes the remaining steps, after those `done`, which led through the states given. */
  method TakeSteps(registry: Registry, pump: OutputPump, v: Locals, steps: seq<Step>,
                   ghost mode: Mode, ghost done: seq<Step>, ghost before: seq<Session>)
    returns (v': Locals, ghost states: seq<Session>)
    requires IsRun(Initial(mode, pump.output.capacity), done, before)
    requires InState(registry, pump, v, before[|done|])
    modifies registry, registry.clients.Values, pump.output, pump.output.data, pump.daResp
    ensures IsRun(Initial(mode, pump.output.capacity), done + steps, states)
    ensures InState(registry, pump, v', states[|done + steps|])
    decreases |steps|
  {
    if steps == [] {
      v', states := v, before;
      assert done + steps == done;
    } else {
      ghost var s := before[|done|];
      Invariants.Always(mode, pump.output.capacity, done, before, |done|);
      v' := TakeStep(registry, pump, v, steps[0], s);
      RunMore(Initial(mode, pump.output.capacity), done, before, steps[0]);
      Front(steps);
      Assoc(done, [steps[0]], steps[1..]);
      v', states := TakeSteps(registry, pump, v', steps[1..],
                              mode, done + [steps[0]], before + [Next(s, steps[0])]);
    }
  }

  lemma RunMore(start: Session, steps: seq<Step>, states: seq<Session>, step: Step)
    requires IsRun(start, steps, states)
    ensures IsRun(start, steps + [step], states + [Next(states[|steps|], step)])
  {
  }

  /**
    Any steps, in any order, from a new session: the objects end in the state
    that the model's run ends in, where every invariant of the model holds.
   */
  method RunSession(mode: Mode, capacity: int, steps: seq<Step>)
    returns (registry: Registry, pump: OutputPump, v: Locals, ghost states: seq<Session>)
    ensures IsRun(Initial(mode, pump.output.capacity), steps, states)
    ensures InState(registry, pump, v, states[|steps|])
    ensures Invariants.Inv(states[|steps|]) && Coverage.Inv(states[|steps|])
  {
    pump := new OutputPump(capacity);
    registry := new Registry(mode, pump.output.capacity);
    v := Locals(map[], {}, map[], None);
    v, states := TakeSteps(registry, pump, v, steps, mode, [], [Initial(mode, pump.output.capacity)]);
    assert [] + steps == steps;
    Invariants.Always(mode, pump.output.capacity, steps, states, |steps|);
    Coverage.Always(mode, pump.output.capacity, steps, states, |steps|);
  }
}
