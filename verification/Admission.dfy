/**
  Admission by wallet (auth/wallet.go, `resolveCaps` and `overlaySnapshot`):
  a chain is folded against the cached snapshot, and once more against a fresh
  lookup when only its root is unknown.

  The second half runs the whole arrangement: transactions, passing time,
  refreshes that succeed or fail, and admissions, in any order.
  `AdmissionsAreBacked` proves that whoever is admitted was entitled to it by
  the plain grant table at a moment no older than the staleness budget.
 */
module Admission {
  import opened Common
  import opened Caps
  import opened Delegation
  import opened Authority
  import opened GrantTable
  import opened Source
  import opened RateLimiter

  datatype Config = Config(env: Env, session: Key, maxStaleness: int)

  datatype ResolveError = Unauthorised(cause: FoldError) | NoSnapshot | Stale

  datatype Resolved = Resolved(admission: Verdict, root: Key)

  function Seconds(t: Time): real {
    t as real / SECOND as real
  }

  function ChainRoot(env: Env, chain: seq<Signed>): Result<Key, FoldError> {
    if |chain| == 0 then Err(EmptyChain)
    else
      match ParseContent(env.lib, chain[0].content)
      case Err(e) => Err(Malformed(e))
      case Ok(f) => Ok(f.delegator)
  }

  /** The cached snapshot plus one freshly verified grant; its owner stays the cached one. */
  function Overlay(snap: Snapshot, root: Key, caps: Caps): Snapshot {
    snap.(grants := snap.grants[root := caps])
  }

  // ---------------------------------------------------------------------
  // One admission
  // ---------------------------------------------------------------------

  /** What an admission reads and writes: cached snapshot, its age, the lookup budget. */
  datatype Cache = Cache(snap: Option<Snapshot>, lastOK: Time, limiter: Option<Bucket>)

  /** seen is the snapshot that a refresh comes to see, or None if it fails. */
  function Refreshed(c: Cache, seen: Option<Snapshot>, now: Time): Cache {
    if seen.Some? then c.(snap := seen, lastOK := now) else c
  }

  /** The result of an admission, the cache it leaves, and whether it went to the chain. */
  datatype Attempt = Attempt(result: Result<Resolved, ResolveError>, cache: Cache, lookedUp: bool)

  /** The fold of one chain, as a function of the snapshot it is judged by. */
  type Folding = Snapshot -> Result<Verdict, FoldError>

  /** The on-demand lookup: refresh, and fold again with what the chain says of the root alone. */
  function LookUp(c: Cache, snap: Snapshot, root: Key, fold: Folding,
                  seen: Option<Snapshot>, now: Time): Attempt
  {
    var c' := Refreshed(c, seen, now);
    if seen.None? || root !in seen.value.grants then
      Attempt(Err(Unauthorised(UnknownRoot)), c', true)
    else
      match fold(Overlay(snap, root, seen.value.grants[root]))
      case Ok(a) => Attempt(Ok(Resolved(a, root)), c', true)
      case Err(e) => Attempt(Err(Unauthorised(e)), c', true)
  }

  /** The root is unknown to the snapshot: a lookup, if the limiter has a token for it. */
  function Retry(c: Cache, snap: Snapshot, root: Key, fold: Folding,
                 seen: Option<Snapshot>, now: Time): Attempt
  {
    match c.limiter
    case None => LookUp(c, snap, root, fold, seen, now)
    case Some(b) =>
      var spent := c.(limiter := Some(Allow(b, Seconds(now))));
      if Allowed(b, Seconds(now)) then LookUp(spent, snap, root, fold, seen, now)
      else Attempt(Err(Unauthorised(UnknownRoot)), spent, false)
  }

  function ResolveRoot(cfg: Config, c: Cache, root: Key, fold: Folding,
                       seen: Option<Snapshot>, now: Time): Attempt
  {
    if c.snap.None? then Attempt(Err(NoSnapshot), c, false)
    else if now - c.lastOK > cfg.maxStaleness then Attempt(Err(Stale), c, false)
    else
      match fold(c.snap.value)
      case Ok(a) => Attempt(Ok(Resolved(a, root)), c, false)
      case Err(e) =>
        if e != UnknownRoot then Attempt(Err(Unauthorised(e)), c, false)
        else Retry(c, c.snap.value, root, fold, seen, now)
  }

  function Resolve(cfg: Config, c: Cache, chain: seq<Signed>, leaf: Key,
                   seen: Option<Snapshot>, now: Time): Attempt
  {
    match ChainRoot(cfg.env, chain)
    case Err(e) => Attempt(Err(Unauthorised(e)), c, false)
    case Ok(root) =>
      ResolveRoot(cfg, c, root, s => FoldChain(cfg.env, chain, leaf, cfg.session, s, now), seen, now)
  }

  class WalletAuth {
    const env: Env
    const sessionID: Key
    const source: ChainSource
    const verifyLimiter: Limiter?

    ghost predicate Valid()
      reads this, source
    {
      source.sessionKey == sessionID
    }

    constructor (env: Env, sessionID: Key, source: ChainSource, limiter: Limiter?)
      requires source.sessionKey == sessionID
      ensures Valid() && this.env == env && this.sessionID == sessionID
      ensures this.source == source && this.verifyLimiter == limiter
    {
      this.env, this.sessionID, this.source, verifyLimiter := env, sessionID, source, limiter;
    }

    ghost function Settings(): Config
      reads source
    {
      Config(env, sessionID, source.maxStaleness)
    }

    ghost function View(): Cache
      reads source, verifyLimiter
    {
      Cache(source.snap, source.lastOK,
            if verifyLimiter == null then None else Some(verifyLimiter.View()))
    }

    /**
      fetched is what the chain would answer to a lookup now, or None if it
      cannot be reached; seen is what a lookup, if there was one, made of it.
     */
    method ResolveCaps(chain: seq<Signed>, connPub: Key, fetched: Option<Ledger>, now: Time)
      returns (r: Result<Resolved, ResolveError>, ghost seen: Option<Snapshot>)
      requires Valid()
      modifies source, verifyLimiter
      ensures Valid() && Settings() == old(Settings())
      ensures var a := Resolve(Settings(), old(View()), chain, connPub, seen, now);
              && r == a.result && View() == a.cache
              && (a.lookedUp ==> Seen(fetched, sessionID, now, seen))
    {
      seen := None;
      var chainRoot := ChainRoot(env, chain);
      if chainRoot.Err? {
        return Err(Unauthorised(chainRoot.error)), seen;
      }
      var root := chainRoot.value;
      var cached, fresh' := source.Snapshot(now);
      if cached.None? {
        return Err(NoSnapshot), seen;
      }
      if !fresh' {
        return Err(Stale), seen;
      }
      var snap := cached.value;
      var first := Fold(env, chain, connPub, sessionID, snap, now);
      if first.Ok? {
        return Ok(Resolved(first.value, root)), seen;
      }
      if first.error == UnknownRoot {
        r, seen := VerifyRoot(chain, connPub, root, snap, fetched, now);
      } else {
        r := Err(Unauthorised(first.error));
      }
    }

    /** The second half of resolveCaps: ask the chain about a root the snapshot does not know. */
    method VerifyRoot(chain: seq<Signed>, connPub: Key, root: Key, snap: Snapshot,
                      fetched: Option<Ledger>, now: Time)
      returns (r: Result<Resolved, ResolveError>, ghost seen: Option<Snapshot>)
      requires Valid()
      modifies source, verifyLimiter
      ensures Valid() && Settings() == old(Settings())
      ensures var fold := s => FoldChain(env, chain, connPub, sessionID, s, now);
              var a := Retry(old(View()), snap, root, fold, seen, now);
              && r == a.result && View() == a.cache
              && (a.lookedUp ==> Seen(fetched, sessionID, now, seen))
    {
      seen := None;
      var allowed := true;
      if verifyLimiter != null {
        allowed := verifyLimiter.TryTake(Seconds(now));
      }
      if allowed {
        var found := source.VerifyNow(root, fetched, now);
        seen := if found.Ok? then source.snap else None;
        if found.Ok? && found.value.Some? {
          var again := Fold(env, chain, connPub, sessionID, Overlay(snap, root, found.value.value), now);
          if again.Ok? {
            return Ok(Resolved(again.value, root)), seen;
          }
          return Err(Unauthorised(again.error)), seen;
        }
      }
      return Err(Unauthorised(UnknownRoot)), seen;
    }
  }

  // ---------------------------------------------------------------------
  // What a successful fold says about the root
  // ---------------------------------------------------------------------

  lemma FoldedRoot(env: Env, chain: seq<Signed>, leaf: Key, session: Key, snap: Snapshot, now: Time)
    requires FoldChain(env, chain, leaf, session, snap, now).Ok?
    ensures ChainRoot(env, chain).Ok?
    ensures var a := FoldChain(env, chain, leaf, session, snap, now).value;
            var root := ChainRoot(env, chain).value;
            && a.rootIsOwner == (root == snap.owner)
            && RootCaps(snap, root).Some?
            && Subset(a.caps, RootCaps(snap, root).value)
  {
    var hops := CheckHops(d => CheckHop(env, d, session, now), chain).value;
    HopsValid(env, chain, session, now, hops);
    assert ValidHop(env, chain[0], session, now, hops[0]);
    var rootCaps := RootCaps(snap, hops[0].delegator).value;
    OnlyAttenuates(rootCaps, hops, 0, |hops|);
  }

  // ---------------------------------------------------------------------
  // Exactly who is admitted, and exactly when the chain is asked
  // ---------------------------------------------------------------------

  /** There is a snapshot, and it is within the staleness budget. */
  predicate Fresh(cfg: Config, c: Cache, now: Time) {
    c.snap.Some? && now - c.lastOK <= cfg.maxStaleness
  }

  /** There is no limiter, or it has a token. */
  predicate Affords(c: Cache, now: Time) {
    c.limiter.None? || Allowed(c.limiter.value, Seconds(now))
  }

  /** The hops lead from their root to leaf, and the snapshot knows nothing of that root. */
  predicate RootMissing(snap: Snapshot, hops: seq<Fields>, leaf: Key) {
    && hops != []
    && Linked(hops) && hops[|hops| - 1].delegate == leaf
    && hops[0].delegator != snap.owner && hops[0].delegator !in snap.grants
  }

  /** A lookup that saw `seen` finds the missing root a grant, and with it the hops derive a. */
  ghost predicate GrantedSince(snap: Snapshot, seen: Option<Snapshot>, hops: seq<Fields>, leaf: Key, a: Verdict)
    requires hops != []
  {
    var root := hops[0].delegator;
    && root != snap.owner && root !in snap.grants
    && seen.Some? && root in seen.value.grants
    && Derivation(Snapshot(snap.owner, snap.grants[root := seen.value.grants[root]]), hops, leaf, a)
  }

  lemma MissingExactly(hops: seq<Fields>, leaf: Key, snap: Snapshot)
    requires hops != []
    ensures FoldHops(hops, leaf, snap) == Err(UnknownRoot) <==> RootMissing(snap, hops, leaf)
  {
  }

  /** What folding over one more grant needs of the hops does not depend on that grant. */
  lemma GrantedWasMissing(hops: seq<Fields>, leaf: Key, snap: Snapshot, seen: Option<Snapshot>, a: Verdict)
    requires hops != [] && GrantedSince(snap, seen, hops, leaf, a)
    ensures RootMissing(snap, hops, leaf)
    ensures FoldHops(hops, leaf, Overlay(snap, hops[0].delegator, seen.value.grants[hops[0].delegator])) == Ok(a)
  {
    AdmittedIsDerived(hops, leaf, Overlay(snap, hops[0].delegator, seen.value.grants[hops[0].delegator]), a);
  }

  /** An admission in terms of the fold alone. */
  ghost predicate FoldsTo(c: Cache, root: Key, fold: Folding, seen: Option<Snapshot>, now: Time, a: Verdict)
    requires c.snap.Some?
  {
    var snap := c.snap.value;
    || fold(snap) == Ok(a)
    || (&& fold(snap) == Err(UnknownRoot) && Affords(c, now)
        && seen.Some? && root in seen.value.grants
        && fold(Overlay(snap, root, seen.value.grants[root])) == Ok(a))
  }

  lemma ResolvedByFold(cfg: Config, c: Cache, root: Key, fold: Folding, seen: Option<Snapshot>, now: Time,
                       r: Resolved)
    ensures ResolveRoot(cfg, c, root, fold, seen, now).result == Ok(r) <==>
            Fresh(cfg, c, now) && r.root == root && FoldsTo(c, root, fold, seen, now, r.admission)
  {
  }

  /** For the hops of one valid chain, the fold finds exactly the derivations. */
  lemma FoldsExactly(cfg: Config, c: Cache, chain: seq<Signed>, leaf: Key, seen: Option<Snapshot>, now: Time,
                     hops: seq<Fields>, a: Verdict)
    requires c.snap.Some? && 1 <= |chain| <= 8 && ValidHops(cfg.env, chain, cfg.session, now, hops)
    ensures FoldsTo(c, hops[0].delegator, s => FoldChain(cfg.env, chain, leaf, cfg.session, s, now), seen, now, a)
       <==> || Derivation(c.snap.value, hops, leaf, a)
            || (Affords(c, now) && GrantedSince(c.snap.value, seen, hops, leaf, a))
  {
    var snap, root := c.snap.value, hops[0].delegator;
    FoldOfValid(cfg.env, chain, leaf, cfg.session, snap, now, hops);
    AdmittedIsDerived(hops, leaf, snap, a);
    MissingExactly(hops, leaf, snap);
    if seen.Some? && root in seen.value.grants {
      var over := Overlay(snap, root, seen.value.grants[root]);
      FoldOfValid(cfg.env, chain, leaf, cfg.session, over, now, hops);
      AdmittedIsDerived(hops, leaf, over, a);
    }
    if GrantedSince(snap, seen, hops, leaf, a) {
      GrantedWasMissing(hops, leaf, snap, seen, a);
    }
  }

  /** The fold of a chain that is not one to eight valid hops succeeds on no snapshot. */
  lemma FoldNeedsHops(env: Env, chain: seq<Signed>, leaf: Key, session: Key, snap: Snapshot, now: Time)
    requires || FoldChain(env, chain, leaf, session, snap, now).Ok?
             || FoldChain(env, chain, leaf, session, snap, now) == Err(UnknownRoot)
    ensures 1 <= |chain| <= 8
    ensures exists hops :: ValidHops(env, chain, session, now, hops)
  {
    var checked := CheckHops(d => CheckHop(env, d, session, now), chain);
    NeverUnknownRoot(env, chain, session, now);
    HopsValid(env, chain, session, now, checked.value);
  }

  /** The admission that hops confer, by the snapshot or by a lookup. */
  ghost predicate Confers(cfg: Config, c: Cache, chain: seq<Signed>, leaf: Key, seen: Option<Snapshot>, now: Time,
                          hops: seq<Fields>, r: Resolved)
    requires c.snap.Some? && chain != []
  {
    && ValidHops(cfg.env, chain, cfg.session, now, hops)
    && r.root == hops[0].delegator
    && (|| Derivation(c.snap.value, hops, leaf, r.admission)
        || (Affords(c, now) && GrantedSince(c.snap.value, seen, hops, leaf, r.admission)))
  }

  /**
    Sound and complete: an admission succeeds exactly when the snapshot is
    within its budget and the chain is one to eight valid hops that derive it,
    in the snapshot, or, if the snapshot does not know the root and the limiter
    has a token, in the snapshot plus the grant that a lookup finds for it.
   */
  lemma AdmittedExactly(cfg: Config, c: Cache, chain: seq<Signed>, leaf: Key, seen: Option<Snapshot>, now: Time,
                        r: Resolved)
    ensures Resolve(cfg, c, chain, leaf, seen, now).result == Ok(r) <==>
            && Fresh(cfg, c, now) && 1 <= |chain| <= 8
            && exists hops :: Confers(cfg, c, chain, leaf, seen, now, hops, r)
  {
    if Resolve(cfg, c, chain, leaf, seen, now).result == Ok(r) {
      var hops := AdmittedConfers(cfg, c, chain, leaf, seen, now, r);
    }
    if Fresh(cfg, c, now) && 1 <= |chain| <= 8 {
      if hops :| Confers(cfg, c, chain, leaf, seen, now, hops, r) {
        ConferredAdmits(cfg, c, chain, leaf, seen, now, hops, r);
      }
    }
  }

  lemma AdmittedConfers(cfg: Config, c: Cache, chain: seq<Signed>, leaf: Key, seen: Option<Snapshot>, now: Time,
                        r: Resolved)
    returns (hops: seq<Fields>)
    requires Resolve(cfg, c, chain, leaf, seen, now).result == Ok(r)
    ensures Fresh(cfg, c, now) && 1 <= |chain| <= 8
    ensures Confers(cfg, c, chain, leaf, seen, now, hops, r)
  {
    var root := ChainRoot(cfg.env, chain).value;
    var fold := s => FoldChain(cfg.env, chain, leaf, cfg.session, s, now);
    ResolvedByFold(cfg, c, root, fold, seen, now, r);
    FoldNeedsHops(cfg.env, chain, leaf, cfg.session, c.snap.value, now);
    hops :| ValidHops(cfg.env, chain, cfg.session, now, hops);
    RootOfHops(cfg.env, chain, cfg.session, now, hops);
    FoldsExactly(cfg, c, chain, leaf, seen, now, hops, r.admission);
  }

  lemma ConferredAdmits(cfg: Config, c: Cache, chain: seq<Signed>, leaf: Key, seen: Option<Snapshot>, now: Time,
                        hops: seq<Fields>, r: Resolved)
    requires Fresh(cfg, c, now) && 1 <= |chain| <= 8
    requires Confers(cfg, c, chain, leaf, seen, now, hops, r)
    ensures Resolve(cfg, c, chain, leaf, seen, now).result == Ok(r)
  {
    RootOfHops(cfg.env, chain, cfg.session, now, hops);
    FoldsExactly(cfg, c, chain, leaf, seen, now, hops, r.admission);
    ResolvedByFold(cfg, c, hops[0].delegator, s => FoldChain(cfg.env, chain, leaf, cfg.session, s, now),
                   seen, now, r);
  }

  /** A chain worth asking about: valid hops that reach leaf from a root the fresh snapshot does not know. */
  ghost predicate WorthAsking(cfg: Config, c: Cache, chain: seq<Signed>, leaf: Key, now: Time) {
    && Fresh(cfg, c, now) && 1 <= |chain| <= 8
    && exists hops :: ValidHops(cfg.env, chain, cfg.session, now, hops) && RootMissing(c.snap.value, hops, leaf)
  }

  lemma MissingChain(cfg: Config, c: Cache, chain: seq<Signed>, leaf: Key, now: Time)
    requires Fresh(cfg, c, now)
    ensures FoldChain(cfg.env, chain, leaf, cfg.session, c.snap.value, now) == Err(UnknownRoot)
       <==> WorthAsking(cfg, c, chain, leaf, now)
    ensures WorthAsking(cfg, c, chain, leaf, now) ==> ChainRoot(cfg.env, chain).Ok?
  {
    var snap := c.snap.value;
    if FoldChain(cfg.env, chain, leaf, cfg.session, snap, now) == Err(UnknownRoot) {
      FoldNeedsHops(cfg.env, chain, leaf, cfg.session, snap, now);
      var hops :| ValidHops(cfg.env, chain, cfg.session, now, hops);
      FoldOfValid(cfg.env, chain, leaf, cfg.session, snap, now, hops);
      MissingExactly(hops, leaf, snap);
    }
    if WorthAsking(cfg, c, chain, leaf, now) {
      var hops :| ValidHops(cfg.env, chain, cfg.session, now, hops) && RootMissing(snap, hops, leaf);
      RootOfHops(cfg.env, chain, cfg.session, now, hops);
      FoldOfValid(cfg.env, chain, leaf, cfg.session, snap, now, hops);
      MissingExactly(hops, leaf, snap);
    }
  }

  lemma RootEffects(cfg: Config, c: Cache, root: Key, fold: Folding, seen: Option<Snapshot>, now: Time)
    ensures var r := ResolveRoot(cfg, c, root, fold, seen, now);
            var asks := Fresh(cfg, c, now) && fold(c.snap.value) == Err(UnknownRoot);
            && (r.lookedUp <==> asks && Affords(c, now))
            && r.cache.limiter == (if asks && c.limiter.Some? then Some(Allow(c.limiter.value, Seconds(now)))
                                   else c.limiter)
            && (if r.lookedUp && seen.Some? then r.cache.snap == seen && r.cache.lastOK == now
                else r.cache.snap == c.snap && r.cache.lastOK == c.lastOK)
  {
  }

  /**
    An admission asks the limiter exactly when its chain is worth asking about,
    goes to the chain exactly when the limiter agrees, and then keeps what it
    saw; nothing else changes. A chain with a bad signature costs no lookup.
   */
  lemma LookUpExactly(cfg: Config, c: Cache, chain: seq<Signed>, leaf: Key, seen: Option<Snapshot>, now: Time)
    ensures var r := Resolve(cfg, c, chain, leaf, seen, now);
            var asks := WorthAsking(cfg, c, chain, leaf, now);
            && (r.lookedUp <==> asks && Affords(c, now))
            && r.cache.limiter == (if asks && c.limiter.Some? then Some(Allow(c.limiter.value, Seconds(now)))
                                   else c.limiter)
            && (if r.lookedUp && seen.Some? then r.cache.snap == seen && r.cache.lastOK == now
                else r.cache.snap == c.snap && r.cache.lastOK == c.lastOK)
  {
    if Fresh(cfg, c, now) {
      MissingChain(cfg, c, chain, leaf, now);
    }
    if ChainRoot(cfg.env, chain).Ok? {
      RootEffects(cfg, c, ChainRoot(cfg.env, chain).value,
                  s => FoldChain(cfg.env, chain, leaf, cfg.session, s, now), seen, now);
    }
  }

  lemma RootNeedsSnapshot(cfg: Config, c: Cache, root: Key, fold: Folding, seen: Option<Snapshot>, now: Time)
    ensures var r := ResolveRoot(cfg, c, root, fold, seen, now).result;
            && (r == Err(NoSnapshot) <==> c.snap.None?)
            && (r == Err(Stale) <==> c.snap.Some? && now - c.lastOK > cfg.maxStaleness)
  {
  }

  /** A chain whose first hop can be read is turned away unfolded exactly when the snapshot will not do. */
  lemma SnapshotRequired(cfg: Config, c: Cache, chain: seq<Signed>, leaf: Key, seen: Option<Snapshot>, now: Time)
    requires ChainRoot(cfg.env, chain).Ok?
    ensures var r := Resolve(cfg, c, chain, leaf, seen, now).result;
            && (r == Err(NoSnapshot) <==> c.snap.None?)
            && (r == Err(Stale) <==> c.snap.Some? && now - c.lastOK > cfg.maxStaleness)
  {
    RootNeedsSnapshot(cfg, c, ChainRoot(cfg.env, chain).value,
                      s => FoldChain(cfg.env, chain, leaf, cfg.session, s, now), seen, now);
  }

  // ---------------------------------------------------------------------
  // Runs
  // ---------------------------------------------------------------------

  datatype World = World(ledger: Ledger, clock: Time, cache: Cache)

  datatype Event =
    | Tx(ix: Instruction)
    | Tick(elapsed: nat)
    | Refresh(rpcOk: bool)
    | Admit(chain: seq<Signed>, leaf: Key, rpcOk: bool)

  /** What a refresh sees: by `SeenIsSnapshot`, the snapshot that the accounts call for. */
  function Fetch(cfg: Config, w: World, rpcOk: bool): Option<Snapshot> {
    if rpcOk then SnapshotOf(w.ledger, cfg.session, w.clock) else None
  }

  function Try(cfg: Config, w: World, e: Event): Attempt
    requires e.Admit?
  {
    Resolve(cfg, w.cache, e.chain, e.leaf, Fetch(cfg, w, e.rpcOk), w.clock)
  }

  function Next(cfg: Config, w: World, e: Event): World {
    match e
    case Tx(ix) => w.(ledger := Step(w.ledger, ix))
    case Tick(d) => w.(clock := w.clock + d)
    case Refresh(rpcOk) => w.(cache := Refreshed(w.cache, Fetch(cfg, w, rpcOk), w.clock))
    case Admit(_, _, _) => w.(cache := Try(cfg, w, e).cache)
  }

  function Start(clock: Time, limiter: Option<Bucket>): World {
    World(map[], clock, Cache(None, clock, limiter))
  }

  function Run(cfg: Config, start: World, events: seq<Event>): World {
    if events == [] then start
    else Next(cfg, Run(cfg, start, events[..|events| - 1]), events[|events| - 1])
  }

  function Txs(events: seq<Event>): seq<Instruction> {
    if events == [] then []
    else
      var last := events[|events| - 1];
      Txs(events[..|events| - 1]) + if last.Tx? then [last.ix] else []
  }

  /** The plain grant tables after a run: the specification of what is on chain. */
  function TablesAfter(events: seq<Event>): Tables {
    EagerExec(map[], Txs(events))
  }

  lemma {:induction false} LedgerIsTables(cfg: Config, clock: Time, limiter: Option<Bucket>, events: seq<Event>)
    ensures Refines(Run(cfg, Start(clock, limiter), events).ledger, TablesAfter(events))
    decreases |events|
  {
    RunRefinesEager(Txs(events));
    LedgerOf(cfg, clock, limiter, events);
  }

  lemma {:induction false} LedgerOf(cfg: Config, clock: Time, limiter: Option<Bucket>, events: seq<Event>)
    ensures Run(cfg, Start(clock, limiter), events).ledger == Exec(map[], Txs(events))
    decreases |events|
  {
    if events != [] {
      var n := |events| - 1;
      LedgerOf(cfg, clock, limiter, events[..n]);
      var txs := Txs(events[..n]);
      if events[n].Tx? {
        assert (txs + [events[n].ix])[..|txs|] == txs;
      } else {
        assert txs + [] == txs;
      }
    }
  }

  lemma {:induction false} ClockRuns(cfg: Config, start: World, events: seq<Event>, m: nat)
    requires m <= |events|
    ensures start.clock <= Run(cfg, start, events[..m]).clock <= Run(cfg, start, events).clock
    decreases |events|
  {
    if m < |events| {
      var n := |events| - 1;
      ClockRuns(cfg, start, events[..n], m);
      assert events[..n][..m] == events[..m];
    } else {
      assert events[..m] == events;
      if events != [] {
        ClockRuns(cfg, start, events[..|events| - 1], |events| - 1);
        assert events[..|events| - 1][..|events| - 1] == events[..|events| - 1];
      }
    }
  }

  /** The cached snapshot is the one the chain called for after the first m events, taken at lastOK. */
  ghost predicate TakenAt(cfg: Config, start: World, events: seq<Event>, m: nat, c: Cache) {
    && m <= |events|
    && var w := Run(cfg, start, events[..m]);
       c.snap == SnapshotOf(w.ledger, cfg.session, w.clock) && c.lastOK == w.clock
  }

  /** Every snapshot in the cache was taken from the chain at some point of the run. */
  lemma {:induction false} CacheWasTaken(cfg: Config, clock: Time, limiter: Option<Bucket>, events: seq<Event>)
    returns (m: nat)
    ensures var start := Start(clock, limiter);
            var c := Run(cfg, start, events).cache;
            c.snap.Some? ==> TakenAt(cfg, start, events, m, c)
    decreases |events|
  {
    m := 0;
    if events != [] {
      var start := Start(clock, limiter);
      var n := |events| - 1;
      var before := CacheWasTaken(cfg, clock, limiter, events[..n]);
      var w := Run(cfg, start, events[..n]);
      var c' := Next(cfg, w, events[n]).cache;
      if c'.snap == w.cache.snap && c'.lastOK == w.cache.lastOK {
        m := before;
        if c'.snap.Some? {
          assert events[..n][..m] == events[..m];
        }
      } else {
        m := n;
        RefreshOnly(cfg, w, events[n]);
      }
    }
  }

  /** The cached snapshot changes only to the one that a refresh saw. */
  lemma ResolveRefreshes(cfg: Config, c: Cache, root: Key, fold: Folding, seen: Option<Snapshot>, now: Time)
    ensures var c' := ResolveRoot(cfg, c, root, fold, seen, now).cache;
            || (c'.snap == c.snap && c'.lastOK == c.lastOK)
            || (seen.Some? && c'.snap == seen && c'.lastOK == now)
  {
  }

  lemma RefreshOnly(cfg: Config, w: World, e: Event)
    ensures var c, c' := w.cache, Next(cfg, w, e).cache;
            || (c'.snap == c.snap && c'.lastOK == c.lastOK)
            || (c'.snap == SnapshotOf(w.ledger, cfg.session, w.clock) && c'.lastOK == w.clock)
  {
    if e.Admit? && ChainRoot(cfg.env, e.chain).Ok? {
      ResolveRefreshes(cfg, w.cache, ChainRoot(cfg.env, e.chain).value,
                       s => FoldChain(cfg.env, e.chain, e.leaf, cfg.session, s, w.clock),
                       Fetch(cfg, w, e.rpcOk), w.clock);
    }
  }

  /**
    root is entitled to admission a by the tables at `now`: as the owner, or by
    a grant that has not lapsed and covers the caps.
   */
  ghost predicate Backed(t: Tables, session: Key, now: Time, root: Key, a: Verdict) {
    && session in t
    && if a.rootIsOwner then root == t[session].owner
       else
         && root in t[session].grants
         && (t[session].grants[root].expiry == 0 || now < t[session].grants[root].expiry * SECOND)
         && Subset(a.caps, t[session].grants[root].caps)
  }

  /**
    The hops derive admission a for leaf in tables t, judged at `taken`: the
    root holds what it needs there, every hop was forged by a principal, and
    caps only shrink. An admission as owner is rooted at the tables' owner.
   */
  ghost predicate Derived(t: Tables, session: Key, taken: Time, hops: seq<Fields>, leaf: Key, a: Verdict) {
    && session in t
    && Wields(TableSnapshot(t[session], taken), hops, leaf, a.caps)
    && Backed(t, session, taken, hops[0].delegator, a)
  }

  /**
    Whenever an admission succeeds, on the cached path or by looking the root
    up, its hops are valid now, and there was a point of the run, at most
    maxStaleness before, at which the plain tables derive from them what the
    leaf was admitted with.
   */
  lemma AdmissionsAreBacked(cfg: Config, clock: Time, limiter: Option<Bucket>, events: seq<Event>, e: Event)
    returns (m: nat, hops: seq<Fields>)
    requires e.Admit?
    requires Try(cfg, Run(cfg, Start(clock, limiter), events), e).result.Ok?
    ensures m <= |events|
    ensures var start := Start(clock, limiter);
            var now := Run(cfg, start, events).clock;
            var then' := Run(cfg, start, events[..m]).clock;
            var r := Try(cfg, Run(cfg, start, events), e).result.value;
            && now - cfg.maxStaleness <= then' <= now
            && ValidHops(cfg.env, e.chain, cfg.session, now, hops)
            && Derived(TablesAfter(events[..m]), cfg.session, then', hops, e.leaf, r.admission)
            && r.root == hops[0].delegator
  {
    var start := Start(clock, limiter);
    var w := Run(cfg, start, events);
    var snap := w.cache.snap.value;
    var taken := CacheWasTaken(cfg, clock, limiter, events);
    ClockRuns(cfg, start, events, taken);
    assert cfg.maxStaleness >= 0;
    if FoldChain(cfg.env, e.chain, e.leaf, cfg.session, snap, w.clock).Ok? {
      m := taken;
      var v := Run(cfg, start, events[..m]);
      LedgerIsTables(cfg, clock, limiter, events[..m]);
      hops := CachedDerives(cfg, w, e, v.ledger, TablesAfter(events[..m]), v.clock);
    } else {
      m := |events|;
      assert events[..m] == events;
      LedgerIsTables(cfg, clock, limiter, events);
      OnlyKnownCaps(Txs(events));
      hops := LookUpDerives(cfg, w, e, TablesAfter(events));
    }
    ClockRuns(cfg, start, events, m);
  }

  /** On the cached path the hops derive the admission in the tables the snapshot was taken of. */
  lemma CachedDerives(cfg: Config, w: World, e: Event, l: Ledger, t: Tables, taken: Time)
    returns (hops: seq<Fields>)
    requires e.Admit? && Try(cfg, w, e).result.Ok?
    requires Refines(l, t) && w.cache.snap == SnapshotOf(l, cfg.session, taken)
    requires FoldChain(cfg.env, e.chain, e.leaf, cfg.session, w.cache.snap.value, w.clock).Ok?
    ensures ValidHops(cfg.env, e.chain, cfg.session, w.clock, hops)
    ensures Derived(t, cfg.session, taken, hops, e.leaf, Try(cfg, w, e).result.value.admission)
    ensures Try(cfg, w, e).result.value.root == hops[0].delegator
  {
    var snap := w.cache.snap.value;
    var a := FoldChain(cfg.env, e.chain, e.leaf, cfg.session, snap, w.clock).value;
    hops := AcceptedHops(cfg.env, e.chain, e.leaf, cfg.session, snap, w.clock);
    AdmittedIsDerived(hops, e.leaf, snap, a);
    RootOfHops(cfg.env, e.chain, cfg.session, w.clock, hops);
    FoldedRoot(cfg.env, e.chain, e.leaf, cfg.session, snap, w.clock);
    SnapshotIsTable(l, t, cfg.session, taken);
  }

  /** On the lookup path they derive it in the current tables, whoever owns the session by now. */
  lemma LookUpDerives(cfg: Config, w: World, e: Event, t: Tables) returns (hops: seq<Fields>)
    requires e.Admit? && Try(cfg, w, e).result.Ok?
    requires Refines(w.ledger, t) && KnownCaps(t)
    requires FoldChain(cfg.env, e.chain, e.leaf, cfg.session, w.cache.snap.value, w.clock).Err?
    ensures ValidHops(cfg.env, e.chain, cfg.session, w.clock, hops)
    ensures Derived(t, cfg.session, w.clock, hops, e.leaf, Try(cfg, w, e).result.value.admission)
    ensures Try(cfg, w, e).result.value.root == hops[0].delegator
  {
    var snap := w.cache.snap.value;
    var root := ChainRoot(cfg.env, e.chain).value;
    var fold := s => FoldChain(cfg.env, e.chain, e.leaf, cfg.session, s, w.clock);
    LookedUp(cfg, w.cache, root, fold, Fetch(cfg, w, e.rpcOk), w.clock);
    SnapshotIsTable(w.ledger, t, cfg.session, w.clock);
    var current := TableSnapshot(t[cfg.session], w.clock);
    var over := Overlay(snap, root, current.grants[root]);
    var a := Try(cfg, w, e).result.value.admission;
    UnknownRootNotOwner(cfg.env, e.chain, e.leaf, cfg.session, snap, w.clock);
    hops := AcceptedHops(cfg.env, e.chain, e.leaf, cfg.session, over, w.clock);
    AdmittedIsDerived(hops, e.leaf, over, a);
    RootOfHops(cfg.env, e.chain, cfg.session, w.clock, hops);
    FoldedRoot(cfg.env, e.chain, e.leaf, cfg.session, over, w.clock);
    SubsetIsOrder(current.grants[root], current.grants[root], ALL_CAPS);
    StrongerRoot(hops, e.leaf, over, current, a.caps);
  }

  lemma RootOfHops(env: Env, chain: seq<Signed>, session: Key, now: Time, hops: seq<Fields>)
    requires chain != [] && ValidHops(env, chain, session, now, hops)
    ensures ChainRoot(env, chain) == Ok(hops[0].delegator)
  {
    assert ValidHop(env, chain[0], session, now, hops[0]);
  }

  /** Success where the snapshot's own fold fails comes from folding over the root's current grant. */
  lemma LookedUp(cfg: Config, c: Cache, root: Key, fold: Folding, seen: Option<Snapshot>, now: Time)
    requires ResolveRoot(cfg, c, root, fold, seen, now).result.Ok? && fold(c.snap.value).Err?
    ensures fold(c.snap.value) == Err(UnknownRoot) && seen.Some?
    ensures var r := ResolveRoot(cfg, c, root, fold, seen, now).result.value;
            && r.root == root && root in seen.value.grants
            && fold(Overlay(c.snap.value, root, seen.value.grants[root])) == Ok(r.admission)
  {
  }

  lemma UnknownRootNotOwner(env: Env, chain: seq<Signed>, leaf: Key, session: Key, snap: Snapshot, now: Time)
    requires FoldChain(env, chain, leaf, session, snap, now) == Err(UnknownRoot)
    ensures ChainRoot(env, chain).Ok? && ChainRoot(env, chain).value != snap.owner
  {
    var checked := CheckHops(d => CheckHop(env, d, session, now), chain);
    if checked.Ok? {
      HopsValid(env, chain, session, now, checked.value);
      assert ValidHop(env, chain[0], session, now, checked.value[0]);
    } else {
      NeverUnknownRoot(env, chain, session, now);
    }
  }

  lemma {:induction false} NeverUnknownRoot(env: Env, chain: seq<Signed>, session: Key, now: Time)
    ensures CheckHops(d => CheckHop(env, d, session, now), chain) != Err(UnknownRoot)
    decreases |chain|
  {
    if chain != [] {
      NeverUnknownRoot(env, chain[..|chain| - 1], session, now);
    }
  }

  // ---------------------------------------------------------------------
  // Over runs, the entitled are admitted
  // ---------------------------------------------------------------------

  /** Time passes and transactions land; nobody refreshes and nobody is admitted. */
  predicate Undisturbed(events: seq<Event>) {
    forall i :: 0 <= i < |events| ==> events[i].Tx? || events[i].Tick?
  }

  lemma {:induction false} RunAppend(cfg: Config, start: World, xs: seq<Event>, ys: seq<Event>)
    ensures Run(cfg, start, xs + ys) == Run(cfg, Run(cfg, start, xs), ys)
    decreases |ys|
  {
    if ys == [] {
      assert xs + ys == xs;
    } else {
      var n := |ys| - 1;
      RunAppend(cfg, start, xs, ys[..n]);
      assert (xs + ys)[..|xs + ys| - 1] == xs + ys[..n];
    }
  }

  lemma {:induction false} CacheKept(cfg: Config, start: World, events: seq<Event>)
    requires Undisturbed(events)
    ensures Run(cfg, start, events).cache == start.cache
    decreases |events|
  {
    if events != [] {
      CacheKept(cfg, start, events[..|events| - 1]);
    }
  }

  /** A refresh that reaches the chain installs what the plain table says at that moment. */
  lemma RefreshInstalls(cfg: Config, clock: Time, limiter: Option<Bucket>, events: seq<Event>)
    requires cfg.session in TablesAfter(events)
    ensures var w := Run(cfg, Start(clock, limiter), events);
            var c := Next(cfg, w, Refresh(true)).cache;
            && c.snap == Some(TableSnapshot(TablesAfter(events)[cfg.session], w.clock))
            && c.lastOK == w.clock && c.limiter == w.cache.limiter
  {
    LedgerIsTables(cfg, clock, limiter, events);
    SnapshotIsTable(Run(cfg, Start(clock, limiter), events).ledger, TablesAfter(events), cfg.session,
                    Run(cfg, Start(clock, limiter), events).clock);
  }

  /**
    Whoever the plain table entitles at a successful refresh is admitted, with
    exactly that entitlement, by every valid chain presented within the budget,
    whatever lands on the chain in between.
   */
  lemma EntitledAreAdmitted(cfg: Config, clock: Time, limiter: Option<Bucket>, before: seq<Event>,
                            after: seq<Event>, e: Event, hops: seq<Fields>, a: Verdict)
    requires e.Admit? && 1 <= |e.chain| <= 8 && Undisturbed(after)
    requires cfg.session in TablesAfter(before)
    requires var start := Start(clock, limiter);
             var then' := Run(cfg, start, before).clock;
             var now := Run(cfg, start, before + [Refresh(true)] + after).clock;
             && now - then' <= cfg.maxStaleness
             && ValidHops(cfg.env, e.chain, cfg.session, now, hops)
             && Derivation(TableSnapshot(TablesAfter(before)[cfg.session], then'), hops, e.leaf, a)
    ensures Try(cfg, Run(cfg, Start(clock, limiter), before + [Refresh(true)] + after), e).result
         == Ok(Resolved(a, hops[0].delegator))
  {
    var start := Start(clock, limiter);
    var upTo := before + [Refresh(true)];
    RefreshInstalls(cfg, clock, limiter, before);
    assert upTo[..|upTo| - 1] == before;
    RunAppend(cfg, start, upTo, after);
    CacheKept(cfg, Run(cfg, start, upTo), after);
    var w := Run(cfg, start, upTo + after);
    ConferredAdmits(cfg, w.cache, e.chain, e.leaf, Fetch(cfg, w, e.rpcOk), w.clock, hops,
                    Resolved(a, hops[0].delegator));
  }

  /**
    A grant newer than the snapshot is not kept waiting: if the chain can be
    reached and the limiter has a token, whoever the current table entitles
    through a root the snapshot does not know is admitted at once.
   */
  lemma NewGrantIsAdmitted(cfg: Config, clock: Time, limiter: Option<Bucket>, events: seq<Event>, e: Event,
                           hops: seq<Fields>, a: Verdict)
    requires e.Admit? && e.rpcOk && 1 <= |e.chain| <= 8
    requires cfg.session in TablesAfter(events)
    requires var w := Run(cfg, Start(clock, limiter), events);
             && Fresh(cfg, w.cache, w.clock) && Affords(w.cache, w.clock)
             && ValidHops(cfg.env, e.chain, cfg.session, w.clock, hops)
             && RootMissing(w.cache.snap.value, hops, e.leaf)
             && Derivation(TableSnapshot(TablesAfter(events)[cfg.session], w.clock), hops, e.leaf, a)
             && !a.rootIsOwner
    ensures Try(cfg, Run(cfg, Start(clock, limiter), events), e).result == Ok(Resolved(a, hops[0].delegator))
  {
    var w := Run(cfg, Start(clock, limiter), events);
    var current := TableSnapshot(TablesAfter(events)[cfg.session], w.clock);
    var snap, root := w.cache.snap.value, hops[0].delegator;
    LedgerIsTables(cfg, clock, limiter, events);
    SnapshotIsTable(w.ledger, TablesAfter(events), cfg.session, w.clock);
    AdmittedIsDerived(hops, e.leaf, current, a);
    var over := Snapshot(snap.owner, snap.grants[root := current.grants[root]]);
    SubsetIsOrder(current.grants[root], current.grants[root], 0);
    StrongerRoot(hops, e.leaf, current, over, a.caps);
    ConferredAdmits(cfg, w.cache, e.chain, e.leaf, Fetch(cfg, w, e.rpcOk), w.clock, hops, Resolved(a, root));
  }

  // ---------------------------------------------------------------------
  // Chain lookups are bounded
  // ---------------------------------------------------------------------

  /** How many admissions of a run went to the chain. */
  function LookUps(cfg: Config, start: World, events: seq<Event>): nat {
    if events == [] then 0
    else
      var n := |events| - 1;
      var w := Run(cfg, start, events[..n]);
      LookUps(cfg, start, events[..n])
      + if events[n].Admit? && Try(cfg, w, events[n]).lookedUp then 1 else 0
  }

  /** From b to b', with the clock now at `now`, count lookups were paid for. */
  ghost predicate Paid(b: Bucket, b': Bucket, count: nat, now: real) {
    && b'.perSec == b.perSec && b'.max == b.max && 0.0 <= b'.tokens <= b'.max
    && b.last <= b'.last <= now
    && WithinRate(count, b, b')
    && WithinBurst(count, b, now)
  }

  lemma PaidStep(b: Bucket, mid: Bucket, count: nat, now: real, now': real)
    requires b.perSec >= 0.0 && b.tokens <= b.max && Paid(b, mid, count, now) && now <= now'
    ensures Paid(b, mid, count, now')
    ensures Paid(b, Allow(mid, now), count + if Allowed(mid, now) then 1 else 0, now')
  {
    OneCall(mid, now);
    OneMore(count, b, mid, now);
    SeenBy(mid, now);
    Later(b, now, now');
    Affordable(b, Allow(mid, now), count + if Allowed(mid, now) then 1 else 0, now');
  }

  lemma Affordable(b: Bucket, b': Bucket, count: nat, now: real)
    requires b.perSec >= 0.0 && b.tokens <= b.max && 0.0 <= b'.tokens && b'.last <= now
    requires WithinRate(count, b, b')
    ensures WithinBurst(count, b, now)
  {
    Later(b, b'.last, now);
  }

  lemma PaidStart(b: Bucket, now: real)
    requires b.perSec >= 0.0 && 0.0 <= b.tokens <= b.max && b.last <= now
    ensures Paid(b, b, 0, now)
  {
    assert b.perSec * (b.last - b.last) == 0.0;
    Later(b, b.last, now);
  }

  lemma Later(b: Bucket, x: real, y: real)
    requires b.perSec >= 0.0 && x <= y
    ensures b.perSec * (x - b.last) <= b.perSec * (y - b.last)
  {
  }

  lemma SeenBy(b: Bucket, now: real)
    requires b.last <= now
    ensures Allow(b, now).last <= now
  {
  }

  /**
    Over any run, the lookups never exceed the burst plus the rate times the
    time since the limiter was last read; every one was paid for by a token.
   */
  lemma {:induction false} LookUpsPaid(cfg: Config, start: World, events: seq<Event>)
    requires start.cache.limiter.Some?
    requires var b := start.cache.limiter.value;
             b.perSec >= 0.0 && 0.0 <= b.tokens <= b.max && b.last <= Seconds(start.clock)
    ensures var w := Run(cfg, start, events);
            && w.cache.limiter.Some?
            && Paid(start.cache.limiter.value, w.cache.limiter.value,
                    LookUps(cfg, start, events), Seconds(w.clock))
    decreases |events|
  {
    if events == [] {
      PaidStart(start.cache.limiter.value, Seconds(start.clock));
    } else {
      var n := |events| - 1;
      LookUpsPaid(cfg, start, events[..n]);
      var w := Run(cfg, start, events[..n]);
      var w' := Next(cfg, w, events[n]);
      LimiterSteps(cfg, w, events[n]);
      SecondsMonotone(w.clock, w'.clock);
      PaidStep(start.cache.limiter.value, w.cache.limiter.value,
               LookUps(cfg, start, events[..n]), Seconds(w.clock), Seconds(w'.clock));
    }
  }

  lemma SecondsMonotone(a: Time, b: Time)
    requires a <= b
    ensures Seconds(a) <= Seconds(b)
  {
  }

  lemma ResolveAsks(cfg: Config, c: Cache, root: Key, fold: Folding, seen: Option<Snapshot>, now: Time)
    requires c.limiter.Some?
    ensures var b := c.limiter.value;
            var r := ResolveRoot(cfg, c, root, fold, seen, now);
            || (r.cache.limiter == Some(b) && !r.lookedUp)
            || (r.cache.limiter == Some(Allow(b, Seconds(now))) && r.lookedUp == Allowed(b, Seconds(now)))
  {
  }

  /** One event leaves the limiter alone or asks it once; a lookup happens only if it agreed. */
  lemma LimiterSteps(cfg: Config, w: World, e: Event)
    requires w.cache.limiter.Some?
    ensures var b := w.cache.limiter.value;
            var w' := Next(cfg, w, e);
            var lookedUp := e.Admit? && Try(cfg, w, e).lookedUp;
            && w'.clock >= w.clock
            && (|| (w'.cache.limiter == Some(b) && !lookedUp)
                || (w'.cache.limiter == Some(Allow(b, Seconds(w.clock)))
                    && lookedUp == Allowed(b, Seconds(w.clock))))
  {
    if e.Admit? && ChainRoot(cfg.env, e.chain).Ok? {
      ResolveAsks(cfg, w.cache, ChainRoot(cfg.env, e.chain).value,
                  s => FoldChain(cfg.env, e.chain, e.leaf, cfg.session, s, w.clock),
                  Fetch(cfg, w, e.rpcOk), w.clock);
    }
  }
}
