/**
  The cached view of the chain (walletsolana/snapshot.go and source.go): a
  snapshot of one session, rebuilt from all program accounts on every refresh
  and served until it is older than the staleness budget.
 */
module Source {
  import opened Common
  import opened Caps
  import opened Delegation
  import opened Authority
  import opened GrantTable

  /** Go's time.Unix. */
  function Unix(t: Time): int {
    t / SECOND
  }

  predicate Lapsed(expiry: int, now: Time) {
    expiry != 0 && expiry <= Unix(now)
  }

  /** A grant lapses at the instant its expiry names, to the nanosecond; 0 names none. */
  lemma LapsesAtExpiry(expiry: int, now: Time)
    ensures Lapsed(expiry, now) <==> expiry != 0 && expiry * SECOND <= now
  {
    ReachesSecond(expiry, now);
  }

  lemma ReachesSecond(n: int, t: Time)
    ensures n <= t / SECOND <==> n * SECOND <= t
  {
  }

  /** An unswept, unexpired grant of session account s. */
  predicate LiveGrant(l: Ledger, s: Address, a: Address, now: Time) {
    && s in l && l[s].Session?
    && a in l && l[a].Grant?
    && a.GrantPda? && a.session == s
    && l[a].stamp == l[s].epoch
    && !Lapsed(l[a].expiry, now)
  }

  /** The snapshot that the accounts in l call for, if the session is registered. */
  function SnapshotOf(l: Ledger, sessionKey: Key, now: Time): Option<Snapshot> {
    var s := SessionPda(sessionKey);
    if s in l && l[s].Session? then
      Some(Snapshot(l[s].owner, map a | a in l && LiveGrant(l, s, a, now) :: a.grantee := l[a].caps))
    else None
  }

  /** The plain table's answer: its owner, and its grants that have not lapsed. */
  function TableSnapshot(t: Table, now: Time): Snapshot {
    Snapshot(t.owner, map g | g in t.grants && !Lapsed(t.grants[g].expiry, now) :: t.grants[g].caps)
  }

  /** It is the owner's, and lists exactly the grants without an expiry or before it. */
  lemma TableInForce(t: Table, now: Time, g: Key)
    ensures var snap := TableSnapshot(t, now);
            && snap.owner == t.owner
            && (g in snap.grants <==>
                  g in t.grants && (t.grants[g].expiry == 0 || now < t.grants[g].expiry * SECOND))
            && (g in snap.grants ==> snap.grants[g] == t.grants[g].caps)
  {
    if g in t.grants {
      LapsesAtExpiry(t.grants[g].expiry, now);
    }
  }

  /**
    The snapshot built from stamped accounts is the one the plain table gives:
    its owner, and its grants that have no expiry or have not reached it.
   */
  lemma SnapshotIsTable(l: Ledger, t: Tables, k: Key, now: Time)
    requires Refines(l, t)
    ensures SnapshotOf(l, k, now) == if k in t then Some(TableSnapshot(t[k], now)) else None
    ensures k in t ==>
              var snap := SnapshotOf(l, k, now).value;
              && snap.owner == t[k].owner
              && forall g :: && (g in snap.grants <==>
                                   && g in t[k].grants
                                   && (t[k].grants[g].expiry == 0 || now < t[k].grants[g].expiry * SECOND))
                             && (g in snap.grants ==> snap.grants[g] == t[k].grants[g].caps)
  {
    SnapshotMatches(l, t, k, now);
    if k in t {
      forall g {
        TableInForce(t[k], now, g);
      }
    }
  }

  lemma SnapshotMatches(l: Ledger, t: Tables, k: Key, now: Time)
    requires Refines(l, t)
    ensures SnapshotOf(l, k, now) == if k in t then Some(TableSnapshot(t[k], now)) else None
  {
    var s := SessionPda(k);
    assert k in t <==> s in l;
    if k in t {
      var snap := SnapshotOf(l, k, now).value;
      var plain := TableSnapshot(t[k], now);
      assert SameSession(l, k, t[k]);
      forall g ensures (g in snap.grants <==> g in plain.grants)
                    && (g in snap.grants ==> snap.grants[g] == plain.grants[g])
      {
        var a := GrantPda(s, g);
        assert g in t[k].grants <==> Unswept(l, k, g);
        assert g in snap.grants <==> a in l && LiveGrant(l, s, a, now);
      }
      assert snap.grants == plain.grants;
    }
  }

  // ---------------------------------------------------------------------
  // Building a snapshot
  // ---------------------------------------------------------------------

  predicate Live(g: Account, epoch: nat, now: Time) {
    g.Grant? && g.stamp == epoch && !Lapsed(g.expiry, now)
  }

  /** The live grants of a list, a later entry overriding an earlier one. */
  function LiveCaps(grants: seq<Account>, epoch: nat, now: Time): map<Key, Caps> {
    if grants == [] then map[]
    else
      var earlier := LiveCaps(grants[..|grants| - 1], epoch, now);
      var g := grants[|grants| - 1];
      if Live(g, epoch, now) then earlier[g.grantee := g.caps] else earlier
  }

  /** a grants to g in the current epoch, with no expiry or before it. */
  predicate InForce(a: Account, g: Key, epoch: nat, now: Time) {
    && a.Grant? && a.grantee == g
    && a.stamp == epoch
    && (a.expiry == 0 || now < a.expiry * SECOND)
  }

  /** caps is what the last grant that is `good` says, or nothing if none is. */
  ghost predicate LastGood(grants: seq<Account>, good: Account -> bool, caps: Option<Caps>) {
    match caps
    case None => forall i :: 0 <= i < |grants| ==> !good(grants[i])
    case Some(c) =>
      exists i :: && 0 <= i < |grants| && good(grants[i]) && grants[i].Grant? && grants[i].caps == c
                  && forall j :: i < j < |grants| ==> !good(grants[j])
  }

  ghost predicate LastInForce(grants: seq<Account>, g: Key, epoch: nat, now: Time, caps: Option<Caps>) {
    LastGood(grants, a => InForce(a, g, epoch, now), caps)
  }

  function Held(m: map<Key, Caps>, g: Key): Option<Caps> {
    if g in m then Some(m[g]) else None
  }

  lemma LiveIsInForce(a: Account, epoch: nat, now: Time)
    ensures Live(a, epoch, now) <==> a.Grant? && InForce(a, a.grantee, epoch, now)
  {
    if a.Grant? {
      LapsesAtExpiry(a.expiry, now);
    }
  }

  /** One more grant overrides those before it if it is good, and changes nothing if it is not. */
  lemma LastGoodSnoc(init: seq<Account>, a: Account, good: Account -> bool, caps: Option<Caps>)
    requires LastGood(init, good, caps)
    ensures good(a) && a.Grant? ==> LastGood(init + [a], good, Some(a.caps))
    ensures !good(a) ==> LastGood(init + [a], good, caps)
  {
    var all, n := init + [a], |init|;
    if good(a) && a.Grant? {
      assert good(all[n]) && all[n].caps == a.caps;
    }
    if !good(a) && caps.Some? {
      var i :| && 0 <= i < n && good(init[i]) && init[i].Grant? && init[i].caps == caps.value
               && forall j :: i < j < n ==> !good(init[j]);
      assert good(all[i]) && all[i].Grant? && all[i].caps == caps.value;
    }
  }

  lemma {:induction false} LiveCapsInForce(grants: seq<Account>, g: Key, epoch: nat, now: Time)
    ensures LastInForce(grants, g, epoch, now, Held(LiveCaps(grants, epoch, now), g))
    decreases |grants|
  {
    if grants != [] {
      var n := |grants| - 1;
      LiveCapsInForce(grants[..n], g, epoch, now);
      LiveIsInForce(grants[n], epoch, now);
      LastGoodSnoc(grants[..n], grants[n], a => InForce(a, g, epoch, now),
                   Held(LiveCaps(grants[..n], epoch, now), g));
      assert grants == grants[..n] + [grants[n]];
    }
  }

  method BuildSnapshot(session: Account, grants: seq<Account>, now: Time) returns (snap: Snapshot)
    requires session.Session? && forall i :: 0 <= i < |grants| ==> grants[i].Grant?
    ensures snap == Snapshot(session.owner, LiveCaps(grants, session.epoch, now))
    ensures forall g :: LastInForce(grants, g, session.epoch, now, Held(snap.grants, g))
  {
    var out: map<Key, Caps> := map[];
    var i := 0;
    while i < |grants|
      invariant 0 <= i <= |grants|
      invariant out == LiveCaps(grants[..i], session.epoch, now)
    {
      var g := grants[i];
      assert grants[..i + 1][..i] == grants[..i];
      if g.stamp == session.epoch && (g.expiry == 0 || g.expiry > Unix(now)) {
        out := out[g.grantee := g.caps];
      }
      i := i + 1;
    }
    assert grants[..i] == grants;
    snap := Snapshot(session.owner, out);
    forall g ensures LastInForce(grants, g, session.epoch, now, Held(snap.grants, g)) {
      LiveCapsInForce(grants, g, session.epoch, now);
    }
  }

  /** at and grants list, in some order, every grant account of l that references s. */
  ghost predicate Lists(l: Ledger, s: Address, at: seq<Address>, grants: seq<Account>) {
    && Listed(l, s, at, grants)
    && forall a :: a in l && l[a].Grant? && l[a].session == s ==> a in at
  }

  ghost predicate Listed(l: Ledger, s: Address, at: seq<Address>, grants: seq<Account>) {
    && |at| == |grants|
    && forall i :: 0 <= i < |at| ==>
         at[i] in l && l[at[i]] == grants[i] && grants[i].Grant? && grants[i].session == s
  }

  predicate IsSession(l: Ledger, k: Key, s: Address) {
    s in l && l[s].Session? && l[s].sessionKey == k
  }

  /** A walk over l found session k at s and its grants at `at`, and built snap from them. */
  ghost predicate Scanned(l: Ledger, k: Key, now: Time, s: Address, at: seq<Address>, snap: Snapshot) {
    && IsSession(l, k, s)
    && exists grants :: && Lists(l, s, at, grants)
                        && snap == Snapshot(l[s].owner, LiveCaps(grants, l[s].epoch, now))
  }

  /** What a refresh may come to see in the accounts fetched, walking the map in any order. */
  ghost predicate Seen(fetched: Option<Ledger>, k: Key, now: Time, seen: Option<Snapshot>) {
    match seen
    case None => fetched.None? || forall s :: !IsSession(fetched.value, k, s)
    case Some(snap) => fetched.Some? && exists s, at :: Scanned(fetched.value, k, now, s, at, snap)
  }

  /** The order in which accounts are listed does not matter. */
  lemma {:induction false} LiveCapsOf(l: Ledger, s: Address, at: seq<Address>, grants: seq<Account>,
                                      epoch: nat, now: Time, g: Key)
    requires GrantTable.WellFormed(l) && Listed(l, s, at, grants)
    ensures var live := LiveCaps(grants, epoch, now);
            var a := GrantPda(s, g);
            && (g in live <==> a in at && a in l && Live(l[a], epoch, now))
            && (g in live ==> live[g] == l[a].caps)
    decreases |at|
  {
    if at != [] {
      var n := |at| - 1;
      assert Listed(l, s, at[..n], grants[..n]);
      LiveCapsOf(l, s, at[..n], grants[..n], epoch, now, g);
      assert at == at[..n] + [at[n]];
    }
  }

  // ---------------------------------------------------------------------
  // The source object
  // ---------------------------------------------------------------------

  datatype RefreshError = RpcFailed | NotRegistered

  class ChainSource {
    const sessionKey: Key
    const maxStaleness: int
    var snap: Option<Snapshot>
    var lastOK: Time
    var subAddrs: seq<Address>

    constructor (sessionKey: Key, maxStaleness: int)
      ensures this.sessionKey == sessionKey && this.maxStaleness == maxStaleness && snap == None
    {
      this.sessionKey, this.maxStaleness := sessionKey, maxStaleness;
      snap, lastOK, subAddrs := None, 0, [];
    }

    /** Finds an account of the session, in whatever order the map is walked. */
    method FindSession(accounts: Ledger) returns (found: Option<Address>)
      ensures found.Some? ==> IsSession(accounts, sessionKey, found.value)
      ensures found.None? ==> forall s :: !IsSession(accounts, sessionKey, s)
    {
      var todo := accounts.Keys;
      while todo != {}
        invariant todo <= accounts.Keys
        invariant forall s :: IsSession(accounts, sessionKey, s) ==> s in todo
        decreases |todo|
      {
        var a :| a in todo;
        todo := todo - {a};
        if accounts[a].Session? && accounts[a].sessionKey == sessionKey {
          return Some(a);
        }
      }
      return None;
    }

    /** Collects the grants that reference account s, in whatever order the map is walked. */
    method CollectGrants(accounts: Ledger, s: Address) returns (at: seq<Address>, grants: seq<Account>)
      ensures Lists(accounts, s, at, grants)
    {
      at, grants := [], [];
      var todo := accounts.Keys;
      while todo != {}
        invariant todo <= accounts.Keys
        invariant Listed(accounts, s, at, grants)
        invariant forall a :: a in accounts && accounts[a].Grant? && accounts[a].session == s ==>
                    a in at || a in todo
        decreases |todo|
      {
        var a :| a in todo;
        todo := todo - {a};
        if accounts[a].Grant? && accounts[a].session == s {
          at, grants := at + [a], grants + [accounts[a]];
        }
      }
    }

    /**
      Replaces the snapshot by one of the accounts fetched, whatever they are,
      and watches the accounts it was built from; a failure leaves everything
      as it was.
     */
    method Refresh(fetched: Option<Ledger>, now: Time) returns (e: Option<RefreshError>)
      modifies this
      ensures e == Some(RpcFailed) <==> fetched.None?
      ensures e == Some(NotRegistered) <==> fetched.Some? && Seen(fetched, sessionKey, now, None)
      ensures e.None? ==>
                && snap.Some? && lastOK == now && subAddrs != []
                && Scanned(fetched.value, sessionKey, now, subAddrs[0], subAddrs[1..], snap.value)
      ensures e.Some? ==> snap == old(snap) && lastOK == old(lastOK) && subAddrs == old(subAddrs)
    {
      if fetched.None? {
        return Some(RpcFailed);
      }
      var accounts := fetched.value;
      var found := FindSession(accounts);
      if found.None? {
        return Some(NotRegistered);
      }
      var s := found.value;
      var at, grants := CollectGrants(accounts, s);
      var built := BuildSnapshot(accounts[s], grants, now);
      snap, lastOK, subAddrs := Some(built), now, [s] + at;
      assert subAddrs[1..] == at;
      return None;
    }

    method Snapshot(now: Time) returns (s: Option<Authority.Snapshot>, fresh': bool)
      ensures s == snap
      ensures fresh' == (snap.Some? && now - lastOK <= maxStaleness)
    {
      if snap.None? {
        return None, false;
      }
      return snap, now - lastOK <= maxStaleness;
    }

    /** A refresh, then a lookup in what it fetched. */
    method VerifyNow(w: Key, fetched: Option<Ledger>, now: Time)
      returns (caps: Result<Option<Caps>, RefreshError>)
      modifies this
      ensures caps.Err? <==> Seen(fetched, sessionKey, now, None)
      ensures caps.Ok? ==>
                && snap.Some? && lastOK == now && Seen(fetched, sessionKey, now, snap)
                && caps.value == if w in snap.value.grants then Some(snap.value.grants[w]) else None
      ensures caps.Err? ==> snap == old(snap) && lastOK == old(lastOK)
    {
      var e := Refresh(fetched, now);
      if e.Some? {
        assert e.value == RpcFailed || e.value == NotRegistered;
        return Err(e.value);
      }
      assert Scanned(fetched.value, sessionKey, now, subAddrs[0], subAddrs[1..], snap.value);
      return Ok(if w in snap.value.grants then Some(snap.value.grants[w]) else None);
    }
  }

  lemma BuiltIsSnapshot(l: Ledger, k: Key, at: seq<Address>, grants: seq<Account>, now: Time)
    requires GrantTable.WellFormed(l) && SessionPda(k) in l
    requires Lists(l, SessionPda(k), at, grants)
    ensures SnapshotOf(l, k, now)
         == Some(Snapshot(l[SessionPda(k)].owner, LiveCaps(grants, l[SessionPda(k)].epoch, now)))
  {
    var s := SessionPda(k);
    var want := SnapshotOf(l, k, now).value.grants;
    var got := LiveCaps(grants, l[s].epoch, now);
    forall g ensures (g in got <==> g in want) && (g in got ==> got[g] == want[g]) {
      LiveCapsOf(l, s, at, grants, l[s].epoch, now, g);
      assert g in want <==> GrantPda(s, g) in l && LiveGrant(l, s, GrantPda(s, g), now);
    }
    assert got == want;
  }

  /**
    Of accounts that the program wrote, every walk sees the same: the snapshot
    they call for, or nothing exactly when the session is not registered.
   */
  lemma SeenIsSnapshot(l: Ledger, k: Key, now: Time, seen: Option<Snapshot>)
    requires GrantTable.WellFormed(l) && Seen(Some(l), k, now, seen)
    ensures seen == SnapshotOf(l, k, now)
  {
    if seen.None? {
      assert !IsSession(l, k, SessionPda(k));
    } else {
      var s, at :| Scanned(l, k, now, s, at, seen.value);
      var grants :| && Lists(l, s, at, grants)
                    && seen.value == Snapshot(l[s].owner, LiveCaps(grants, l[s].epoch, now));
      BuiltIsSnapshot(l, k, at, grants, now);
    }
  }
}
