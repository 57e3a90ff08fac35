/**
  Delegation chains (wallet/delegation.go, `Verify` and `Fold`) and the owner
  rule of the server handshake (auth/wallet.go).

  What a chain confers is defined inductively: a wallet is a principal because
  the chain says so, or because a principal holding FORGE delegated to it; a
  connection key wields what any principal delegates to it. `FoldIsAuthority`
  shows that the checker accepts exactly the derivations of that relation.

  Ed25519 and the time package are parameters, collected in `Env`.
 */
module Authority {
  import opened Common
  import opened Caps
  import opened Delegation

  const MAX_CHAIN_DEPTH := 8
  const SIGNATURE_SIZE := 64

  /** The wire envelope: text, and a signature over it by the delegator it names. */
  datatype Signed = Signed(content: string, signature: seq<Byte>)

  datatype Env = Env(lib: TimeLibrary, verify: (Key, string, seq<Byte>) -> bool)

  /** The on-chain view of one session, dead grants already left out. */
  datatype Snapshot = Snapshot(owner: Key, grants: map<Key, Caps>)

  datatype FoldError =
    | EmptyChain | ChainTooLong | Malformed(cause: ParseError) | BadKey | BadSignature
    | WrongSession | NotYetValid | Expired
    | BrokenLink | LeafMismatch | UnknownRoot | Attenuation | ForgeRequired

  datatype Verdict = Verdict(caps: Caps, rootIsOwner: bool)

  // ---------------------------------------------------------------------
  // One hop
  // ---------------------------------------------------------------------

  function Verify(env: Env, d: Signed): Result<Fields, FoldError> {
    match ParseContent(env.lib, d.content)
    case Err(e) => Err(Malformed(e))
    case Ok(f) =>
      if |f.delegator| != KEY_SIZE then Err(BadKey)
      else if |d.signature| != SIGNATURE_SIZE then Err(BadSignature)
      else if !env.verify(f.delegator, d.content, d.signature) then Err(BadSignature)
      else Ok(f)
  }

  /** The per-hop checks: signature, session, validity window. */
  function CheckHop(env: Env, d: Signed, session: Key, now: Time): Result<Fields, FoldError> {
    var f :- Verify(env, d);
    if session != f.session then Err(WrongSession)
    else if now < f.notBefore then Err(NotYetValid)
    else if now > f.notAfter then Err(Expired)
    else Ok(f)
  }

  type HopCheck = Signed -> Result<Fields, FoldError>

  /** The fields of every hop, or the error of the first hop that fails. */
  function CheckHops(check: HopCheck, chain: seq<Signed>): Result<seq<Fields>, FoldError> {
    if chain == [] then Ok([])
    else
      var n := |chain| - 1;
      var earlier :- CheckHops(check, chain[..n]);
      var f :- check(chain[n]);
      Ok(earlier + [f])
  }

  lemma {:induction false} AllHopsPass(check: HopCheck, chain: seq<Signed>, hops: seq<Fields>)
    ensures CheckHops(check, chain) == Ok(hops) <==>
            |hops| == |chain| && forall i :: 0 <= i < |hops| ==> check(chain[i]) == Ok(hops[i])
    decreases |chain|
  {
    if chain != [] {
      var n := |chain| - 1;
      var earlier := CheckHops(check, chain[..n]);
      if CheckHops(check, chain) == Ok(hops) {
        AllHopsPass(check, chain[..n], earlier.value);
        assert hops[..n] == earlier.value;
      }
      if |hops| == |chain| && forall i :: 0 <= i < |hops| ==> check(chain[i]) == Ok(hops[i]) {
        AllHopsPass(check, chain[..n], hops[..n]);
        assert hops == hops[..n] + [hops[n]];
      }
    }
  }

  // ---------------------------------------------------------------------
  // A chain of hops
  // ---------------------------------------------------------------------

  function RootCaps(snap: Snapshot, root: Key): Option<Caps> {
    if root == snap.owner then Some(ALL_CAPS)
    else if root in snap.grants then Some(snap.grants[root])
    else None
  }

  /** The caps held by the delegator of hop i: the root's, or those of the hop that named it. */
  function CapsInto(rootCaps: Caps, hops: seq<Fields>, i: nat): Caps
    requires i <= |hops|
  {
    if i == 0 then rootCaps else hops[i - 1].caps
  }

  predicate Linked(hops: seq<Fields>) {
    forall i :: 0 <= i < |hops| - 1 ==> hops[i].delegate == hops[i + 1].delegator
  }

  predicate Attenuates(rootCaps: Caps, hops: seq<Fields>) {
    forall i :: 0 <= i < |hops| ==> Subset(hops[i].caps, CapsInto(rootCaps, hops, i))
  }

  /** The delegators of the first n hops hold FORGE. */
  predicate Forges(rootCaps: Caps, hops: seq<Fields>, n: nat)
    requires n <= |hops|
  {
    forall i :: 0 <= i < n ==> Has(CapsInto(rootCaps, hops, i), FORGE)
  }

  function FoldHops(hops: seq<Fields>, leaf: Key, snap: Snapshot): Result<Verdict, FoldError>
    requires hops != []
  {
    var n := |hops|;
    var root := hops[0].delegator;
    if !Linked(hops) then Err(BrokenLink)
    else if hops[n - 1].delegate != leaf then Err(LeafMismatch)
    else
      match RootCaps(snap, root)
      case None => Err(UnknownRoot)
      case Some(rootCaps) =>
        if !Attenuates(rootCaps, hops) then Err(Attenuation)
        else if !Forges(rootCaps, hops, n - 1) then Err(ForgeRequired)
        else Ok(Verdict(hops[n - 1].caps, root == snap.owner))
  }

  function FoldChain(env: Env, chain: seq<Signed>, leaf: Key, session: Key, snap: Snapshot, now: Time)
    : Result<Verdict, FoldError>
  {
    if |chain| == 0 then Err(EmptyChain)
    else if |chain| > MAX_CHAIN_DEPTH then Err(ChainTooLong)
    else
      var hops :- CheckHops(d => CheckHop(env, d, session, now), chain);
      FoldHops(hops, leaf, snap)
  }

  /** The checker, loop by loop. */
  method Fold(env: Env, chain: seq<Signed>, leaf: Key, session: Key, snap: Snapshot, now: Time)
    returns (r: Result<Verdict, FoldError>)
    ensures r == FoldChain(env, chain, leaf, session, snap, now)
  {
    if |chain| == 0 {
      return Err(EmptyChain);
    }
    if |chain| > MAX_CHAIN_DEPTH {
      return Err(ChainTooLong);
    }
    var hops := FoldVerify(d => CheckHop(env, d, session, now), chain);
    if hops.Err? {
      return Err(hops.error);
    }
    AllHopsPass(d => CheckHop(env, d, session, now), chain, hops.value);
    r := FoldFields(hops.value, leaf, snap);
  }

  /** The first loop of the checker: verify hops from the root, stopping at the first failure. */
  method FoldVerify(check: HopCheck, chain: seq<Signed>) returns (r: Result<seq<Fields>, FoldError>)
    ensures r == CheckHops(check, chain)
  {
    var hops: seq<Fields> := [];
    var i := 0;
    while i < |chain|
      invariant 0 <= i <= |chain|
      invariant CheckHops(check, chain[..i]) == Ok(hops)
    {
      assert chain[..i + 1][..i] == chain[..i];
      var f := check(chain[i]);
      if f.Err? {
        FirstError(check, chain, i + 1);
        return Err(f.error);
      }
      hops := hops + [f.value];
      i := i + 1;
    }
    assert chain[..i] == chain;
    return Ok(hops);
  }

  /** The remaining checks, each a loop over the hops: links, root, attenuation, FORGE. */
  method FoldFields(hops: seq<Fields>, leaf: Key, snap: Snapshot) returns (r: Result<Verdict, FoldError>)
    requires hops != []
    ensures r == FoldHops(hops, leaf, snap)
  {
    var joined := CheckLinks(hops);
    if !joined {
      return Err(BrokenLink);
    }
    if hops[|hops| - 1].delegate != leaf {
      return Err(LeafMismatch);
    }
    var root := hops[0].delegator;
    var rootCaps: Caps, rootIsOwner := ALL_CAPS, true;
    if root != snap.owner {
      if root !in snap.grants {
        return Err(UnknownRoot);
      }
      rootCaps, rootIsOwner := snap.grants[root], false;
    }
    var attenuated, effective := CheckAttenuation(rootCaps, hops);
    if !attenuated {
      return Err(Attenuation);
    }
    var forged := CheckForge(rootCaps, hops);
    if !forged {
      return Err(ForgeRequired);
    }
    return Ok(Verdict(effective, rootIsOwner));
  }

  method CheckLinks(hops: seq<Fields>) returns (ok: bool)
    ensures ok == Linked(hops)
  {
    var i := 0;
    while i < |hops| - 1
      invariant 0 <= i && (i == 0 || i <= |hops| - 1)
      invariant forall k :: 0 <= k < i ==> hops[k].delegate == hops[k + 1].delegator
    {
      if hops[i].delegate != hops[i + 1].delegator {
        return false;
      }
      i := i + 1;
    }
    return true;
  }

  method CheckAttenuation(rootCaps: Caps, hops: seq<Fields>) returns (ok: bool, effective: Caps)
    ensures ok == Attenuates(rootCaps, hops)
    ensures ok ==> effective == CapsInto(rootCaps, hops, |hops|)
  {
    effective := rootCaps;
    var i := 0;
    while i < |hops|
      invariant 0 <= i <= |hops| && effective == CapsInto(rootCaps, hops, i)
      invariant forall k :: 0 <= k < i ==> Subset(hops[k].caps, CapsInto(rootCaps, hops, k))
    {
      if !Subset(hops[i].caps, effective) {
        return false, effective;
      }
      effective := hops[i].caps;
      i := i + 1;
    }
    return true, effective;
  }

  method CheckForge(rootCaps: Caps, hops: seq<Fields>) returns (ok: bool)
    requires hops != []
    ensures ok == Forges(rootCaps, hops, |hops| - 1)
  {
    var i := 0;
    while i < |hops| - 1
      invariant 0 <= i <= |hops| - 1
      invariant Forges(rootCaps, hops, i)
    {
      var delegatorCaps := rootCaps;
      if i > 0 {
        delegatorCaps := hops[i - 1].caps;
      }
      if !Has(delegatorCaps, FORGE) {
        assert !Has(CapsInto(rootCaps, hops, i), FORGE);
        return false;
      }
      i := i + 1;
    }
    return true;
  }

  lemma {:induction false} FirstError(check: HopCheck, chain: seq<Signed>, k: nat)
    requires k <= |chain| && CheckHops(check, chain[..k]).Err?
    ensures CheckHops(check, chain) == CheckHops(check, chain[..k])
    decreases |chain|
  {
    if k == |chain| {
      assert chain[..k] == chain;
    } else {
      var init := chain[..|chain| - 1];
      assert init[..k] == chain[..k];
      FirstError(check, init, k);
    }
  }

  // ---------------------------------------------------------------------
  // The authority relation
  // ---------------------------------------------------------------------

  /** hops make key a principal with caps: rooted on chain, each hop forged by a principal. */
  ghost predicate Principal(snap: Snapshot, hops: seq<Fields>, key: Key, caps: Caps)
    decreases |hops|
  {
    if hops == [] then
      if key == snap.owner then caps == ALL_CAPS else key in snap.grants && caps == snap.grants[key]
    else
      var last := hops[|hops| - 1];
      && key == last.delegate && caps == last.caps
      && exists held :: && Principal(snap, hops[..|hops| - 1], last.delegator, held)
                        && Has(held, FORGE)
                        && Subset(caps, held)
  }

  /** hops let the connection key leaf wield caps: some principal delegated at least that much to it. */
  ghost predicate Wields(snap: Snapshot, hops: seq<Fields>, leaf: Key, caps: Caps) {
    && hops != []
    && var last := hops[|hops| - 1];
       && leaf == last.delegate && caps == last.caps
       && exists held :: && Principal(snap, hops[..|hops| - 1], last.delegator, held)
                         && Subset(caps, held)
  }

  /** The chain ends at key. */
  predicate EndsAt(hops: seq<Fields>, key: Key) {
    hops != [] ==> hops[|hops| - 1].delegate == key
  }

  function RootOf(hops: seq<Fields>, key: Key): Key {
    if hops == [] then key else hops[0].delegator
  }

  /** hops, checked the way the loops check them, make key a principal with caps. */
  ghost predicate Derives(snap: Snapshot, hops: seq<Fields>, key: Key, caps: Caps) {
    && Linked(hops) && EndsAt(hops, key)
    && RootCaps(snap, RootOf(hops, key)).Some?
    && var rootCaps := RootCaps(snap, RootOf(hops, key)).value;
       && Attenuates(rootCaps, hops) && Forges(rootCaps, hops, |hops|)
       && caps == CapsInto(rootCaps, hops, |hops|)
  }

  /** One more hop, seen by the loops. */
  lemma DerivesSnoc(snap: Snapshot, hops: seq<Fields>, key: Key, caps: Caps, held: Caps)
    requires hops != []
    ensures var n := |hops| - 1;
            Derives(snap, hops[..n], hops[n].delegator, held) ==>
              (Derives(snap, hops, key, caps) <==>
                 && key == hops[n].delegate && caps == hops[n].caps
                 && Has(held, FORGE) && Subset(caps, held))
    ensures var n := |hops| - 1;
            Derives(snap, hops, key, caps) ==>
              Derives(snap, hops[..n], hops[n].delegator,
                      CapsInto(RootCaps(snap, RootOf(hops, key)).value, hops, n))
  {
    var n := |hops| - 1;
    LinkedSnoc(hops);
    assert RootOf(hops[..n], hops[n].delegator) == RootOf(hops, key);
    if RootCaps(snap, RootOf(hops, key)).Some? {
      ChecksSnoc(RootCaps(snap, RootOf(hops, key)).value, hops);
    }
  }

  /** The inductive definition of a principal and the loops agree. */
  lemma {:induction false} PrincipalUnrolled(snap: Snapshot, hops: seq<Fields>, key: Key, caps: Caps)
    ensures Principal(snap, hops, key, caps) <==> Derives(snap, hops, key, caps)
    decreases |hops|
  {
    if hops != [] {
      var n := |hops| - 1;
      var init, last := hops[..n], hops[n];
      if Derives(snap, hops, key, caps) {
        var held := CapsInto(RootCaps(snap, RootOf(hops, key)).value, hops, n);
        DerivesSnoc(snap, hops, key, caps, held);
        PrincipalUnrolled(snap, init, last.delegator, held);
      }
      if Principal(snap, hops, key, caps) {
        var held :| && Principal(snap, init, last.delegator, held)
                    && Has(held, FORGE) && Subset(caps, held);
        PrincipalUnrolled(snap, init, last.delegator, held);
        DerivesSnoc(snap, hops, key, caps, held);
      }
    }
  }

  lemma LinkedSnoc(hops: seq<Fields>)
    requires hops != []
    ensures var n := |hops| - 1;
            Linked(hops) <==> Linked(hops[..n]) && EndsAt(hops[..n], hops[n].delegator)
  {
    var n := |hops| - 1;
    var init := hops[..n];
    if Linked(init) && EndsAt(init, hops[n].delegator) {
      forall i | 0 <= i < n ensures hops[i].delegate == hops[i + 1].delegator {
        assert init[i] == hops[i];
      }
    }
    if Linked(hops) {
      assert forall i :: 0 <= i < n - 1 ==> init[i].delegate == init[i + 1].delegator;
    }
  }

  lemma ChecksSnoc(rootCaps: Caps, hops: seq<Fields>)
    requires hops != []
    ensures var n := |hops| - 1;
            && (forall i :: 0 <= i <= n ==> CapsInto(rootCaps, hops[..n], i) == CapsInto(rootCaps, hops, i))
            && (Attenuates(rootCaps, hops) <==>
                  Attenuates(rootCaps, hops[..n]) && Subset(hops[n].caps, CapsInto(rootCaps, hops, n)))
            && (Forges(rootCaps, hops, n) <==> Forges(rootCaps, hops[..n], n))
            && (Forges(rootCaps, hops, n + 1) <==>
                  Forges(rootCaps, hops[..n], n) && Has(CapsInto(rootCaps, hops, n), FORGE))
  {
  }

  /**
    The checker is sound and complete: it admits leaf with caps exactly when
    the hops are a derivation that leaf wields caps.
   */
  lemma FoldIsAuthority(hops: seq<Fields>, leaf: Key, snap: Snapshot, caps: Caps)
    requires hops != []
    ensures FoldHops(hops, leaf, snap) == Ok(Verdict(caps, hops[0].delegator == snap.owner))
       <==> Wields(snap, hops, leaf, caps)
  {
    var n := |hops| - 1;
    var init, last := hops[..n], hops[n];
    LinkedSnoc(hops);
    assert RootOf(init, last.delegator) == hops[0].delegator;
    var root := RootCaps(snap, hops[0].delegator);
    if root.Some? {
      ChecksSnoc(root.value, hops);
      PrincipalUnrolled(snap, init, last.delegator, CapsInto(root.value, hops, n));
    }
    if held :| Principal(snap, init, last.delegator, held) && Subset(caps, held) {
      PrincipalUnrolled(snap, init, last.delegator, held);
    }
  }

  /** The derivation that an admission claims. */
  ghost predicate Derivation(snap: Snapshot, hops: seq<Fields>, leaf: Key, a: Verdict) {
    Wields(snap, hops, leaf, a.caps) && a.rootIsOwner == (hops[0].delegator == snap.owner)
  }

  lemma AdmittedIsDerived(hops: seq<Fields>, leaf: Key, snap: Snapshot, a: Verdict)
    requires hops != []
    ensures FoldHops(hops, leaf, snap) == Ok(a) <==> Derivation(snap, hops, leaf, a)
  {
    FoldIsAuthority(hops, leaf, snap, a.caps);
    var r := FoldHops(hops, leaf, snap);
    assert r.Ok? ==> r.value.rootIsOwner == (hops[0].delegator == snap.owner);
  }

  /** Every hop is well formed, signed by its delegator, scoped to session and valid at now. */
  ghost predicate ValidHops(env: Env, chain: seq<Signed>, session: Key, now: Time, hops: seq<Fields>) {
    && |hops| == |chain|
    && forall i :: 0 <= i < |hops| ==> ValidHop(env, chain[i], session, now, hops[i])
  }

  ghost predicate ValidHop(env: Env, d: Signed, session: Key, now: Time, f: Fields) {
    && ParseContent(env.lib, d.content) == Ok(f)
    && |f.delegator| == 32 && |d.signature| == 64
    && env.verify(f.delegator, d.content, d.signature)
    && f.session == session
    && f.notBefore <= now <= f.notAfter
  }

  /** An envelope verifies exactly when its text parses and the delegator named there signed that text. */
  lemma VerifiedIsSigned(env: Env, d: Signed, f: Fields)
    ensures Verify(env, d) == Ok(f) <==>
            && ParseContent(env.lib, d.content) == Ok(f)
            && |f.delegator| == 32 && |d.signature| == 64
            && env.verify(f.delegator, d.content, d.signature)
  {
  }

  lemma HopsValid(env: Env, chain: seq<Signed>, session: Key, now: Time, hops: seq<Fields>)
    ensures CheckHops(d => CheckHop(env, d, session, now), chain) == Ok(hops)
       <==> ValidHops(env, chain, session, now, hops)
  {
    var check: HopCheck := d => CheckHop(env, d, session, now);
    AllHopsPass(check, chain, hops);
    forall d, f ensures check(d) == Ok(f) <==> ValidHop(env, d, session, now, f) {
      VerifiedIsSigned(env, d, f);
    }
  }

  /**
    The whole check: a chain is accepted exactly when it has one to eight hops,
    each valid, that derive the admission.
   */
  lemma AcceptedChains(env: Env, chain: seq<Signed>, leaf: Key, session: Key, snap: Snapshot, now: Time,
                       a: Verdict)
    ensures FoldChain(env, chain, leaf, session, snap, now) == Ok(a) <==>
            && 1 <= |chain| <= 8
            && exists hops :: ValidHops(env, chain, session, now, hops) && Derivation(snap, hops, leaf, a)
  {
    var checked := CheckHops(d => CheckHop(env, d, session, now), chain);
    forall hops | hops != []
      ensures checked == Ok(hops) <==> ValidHops(env, chain, session, now, hops)
      ensures FoldHops(hops, leaf, snap) == Ok(a) <==> Derivation(snap, hops, leaf, a)
    {
      HopsValid(env, chain, session, now, hops);
      AdmittedIsDerived(hops, leaf, snap, a);
    }
    if checked.Ok? {
      AllHopsPass(d => CheckHop(env, d, session, now), chain, checked.value);
    }
  }

  // ---------------------------------------------------------------------
  // What acceptance implies
  // ---------------------------------------------------------------------

  /** Caps only shrink along an accepted chain, starting from what the root holds on chain. */
  lemma {:induction false} OnlyAttenuates(rootCaps: Caps, hops: seq<Fields>, i: nat, j: nat)
    requires Attenuates(rootCaps, hops) && i <= j <= |hops|
    ensures Subset(CapsInto(rootCaps, hops, j), CapsInto(rootCaps, hops, i))
    decreases j
  {
    SubsetIsOrder(CapsInto(rootCaps, hops, j), CapsInto(rootCaps, hops, j), 0);
    if i < j {
      OnlyAttenuates(rootCaps, hops, i, j - 1);
      assert Subset(hops[j - 1].caps, CapsInto(rootCaps, hops, j - 1));
      SubsetIsOrder(CapsInto(rootCaps, hops, j), CapsInto(rootCaps, hops, j - 1),
                    CapsInto(rootCaps, hops, i));
    }
  }

  /** What the loops after verification accept, they accept of every prefix. */
  lemma PrefixesFold(hops: seq<Fields>, leaf: Key, snap: Snapshot, k: nat)
    requires 1 <= k <= |hops| && FoldHops(hops, leaf, snap).Ok?
    ensures var part := FoldHops(hops[..k], hops[k - 1].delegate, snap);
            && part.Ok?
            && Subset(FoldHops(hops, leaf, snap).value.caps, part.value.caps)
            && part.value.rootIsOwner == FoldHops(hops, leaf, snap).value.rootIsOwner
  {
    var part := hops[..k];
    var rootCaps := RootCaps(snap, hops[0].delegator).value;
    assert Linked(part);
    assert forall i :: 0 <= i <= k ==> CapsInto(rootCaps, part, i) == CapsInto(rootCaps, hops, i);
    assert Attenuates(rootCaps, part) && Forges(rootCaps, part, k - 1);
    OnlyAttenuates(rootCaps, hops, k, |hops|);
  }

  /** The hops of an accepted chain: valid one by one, and accepted by the remaining loops. */
  lemma AcceptedHops(env: Env, chain: seq<Signed>, leaf: Key, session: Key, snap: Snapshot, now: Time)
    returns (hops: seq<Fields>)
    requires FoldChain(env, chain, leaf, session, snap, now).Ok?
    ensures 1 <= |chain| <= MAX_CHAIN_DEPTH && ValidHops(env, chain, session, now, hops)
    ensures FoldHops(hops, leaf, snap) == FoldChain(env, chain, leaf, session, snap, now)
  {
    hops := CheckHops(d => CheckHop(env, d, session, now), chain).value;
    HopsValid(env, chain, session, now, hops);
  }

  lemma FoldOfValid(env: Env, chain: seq<Signed>, leaf: Key, session: Key, snap: Snapshot, now: Time,
                    hops: seq<Fields>)
    requires 1 <= |chain| <= MAX_CHAIN_DEPTH && ValidHops(env, chain, session, now, hops)
    ensures FoldChain(env, chain, leaf, session, snap, now) == FoldHops(hops, leaf, snap)
  {
    HopsValid(env, chain, session, now, hops);
  }

  /**
    Every prefix of an accepted chain is accepted, by the whole checker, for
    the delegate it ends at, with at least the final caps and the same root.
   */
  lemma PrefixesAccepted(env: Env, chain: seq<Signed>, leaf: Key, session: Key, snap: Snapshot, now: Time, k: nat)
    returns (hops: seq<Fields>)
    requires 1 <= k <= |chain| && FoldChain(env, chain, leaf, session, snap, now).Ok?
    ensures ValidHops(env, chain, session, now, hops)
    ensures var whole := FoldChain(env, chain, leaf, session, snap, now).value;
            var part := FoldChain(env, chain[..k], hops[k - 1].delegate, session, snap, now);
            && part.Ok?
            && Subset(whole.caps, part.value.caps)
            && part.value.rootIsOwner == whole.rootIsOwner
  {
    hops := AcceptedHops(env, chain, leaf, session, snap, now);
    PrefixesFold(hops, leaf, snap, k);
    FoldOfValid(env, chain[..k], hops[k - 1].delegate, session, snap, now, hops[..k]);
  }

  /** A derivation stays one when its root comes to hold more. */
  lemma StrongerRoot(hops: seq<Fields>, leaf: Key, snap: Snapshot, snap': Snapshot, caps: Caps)
    requires Wields(snap, hops, leaf, caps)
    requires var held, held' := RootCaps(snap, hops[0].delegator), RootCaps(snap', hops[0].delegator);
             held.Some? ==> held'.Some? && Subset(held.value, held'.value)
    ensures Wields(snap', hops, leaf, caps)
  {
    FoldIsAuthority(hops, leaf, snap, caps);
    FoldIsAuthority(hops, leaf, snap', caps);
    var held, held' := RootCaps(snap, hops[0].delegator).value, RootCaps(snap', hops[0].delegator).value;
    SubsetIsOrder(hops[0].caps, held, held');
    SubsetIsOrder(FORGE, held, held');
    SubsetIsOrder(FORGE, held', held');
    assert forall i :: 0 < i <= |hops| ==> CapsInto(held', hops, i) == CapsInto(held, hops, i);
  }

  // ---------------------------------------------------------------------
  // The identity a handshake grants
  // ---------------------------------------------------------------------

  /** The owner rule: administration needs the full set, unbroken from the session owner. */
  function Granted(a: Verdict): Capabilities {
    Capabilities(a.rootIsOwner && a.caps == ALL_CAPS, Has(a.caps, WRITE), Has(a.caps, RESIZE))
  }

  lemma OwnerOfHops(hops: seq<Fields>, leaf: Key, snap: Snapshot)
    requires hops != [] && FoldHops(hops, leaf, snap).Ok?
    ensures Granted(FoldHops(hops, leaf, snap).value).owner <==>
            hops[0].delegator == snap.owner && AllCarry(hops, ALL_CAPS)
  {
    var a := FoldHops(hops, leaf, snap).value;
    if Granted(a).owner {
      forall i | 0 <= i < |hops| ensures hops[i].caps == ALL_CAPS {
        OnlyAttenuates(ALL_CAPS, hops, 0, i + 1);
        OnlyAttenuates(ALL_CAPS, hops, i + 1, |hops|);
        SubsetIsOrder(hops[i].caps, ALL_CAPS, ALL_CAPS);
      }
    }
  }

  predicate AllCarry(hops: seq<Fields>, caps: Caps) {
    forall i :: 0 <= i < |hops| ==> hops[i].caps == caps
  }

  /**
    The identity that an accepted chain yields is Owner exactly when the chain
    is rooted at the session owner and every one of its hops carries every cap.
   */
  lemma OwnerIdentity(env: Env, chain: seq<Signed>, leaf: Key, session: Key, snap: Snapshot, now: Time)
    returns (hops: seq<Fields>)
    requires FoldChain(env, chain, leaf, session, snap, now).Ok?
    ensures ValidHops(env, chain, session, now, hops) && hops != []
    ensures Granted(FoldChain(env, chain, leaf, session, snap, now).value).owner <==>
            hops[0].delegator == snap.owner && AllCarry(hops, ALL_CAPS)
  {
    hops := AcceptedHops(env, chain, leaf, session, snap, now);
    OwnerOfHops(hops, leaf, snap);
  }

  lemma HeldAlongHops(hops: seq<Fields>, leaf: Key, snap: Snapshot, x: Caps, i: nat)
    requires hops != [] && i <= |hops| && FoldHops(hops, leaf, snap).Ok?
    requires Has(FoldHops(hops, leaf, snap).value.caps, x)
    ensures RootCaps(snap, hops[0].delegator).Some?
    ensures Has(CapsInto(RootCaps(snap, hops[0].delegator).value, hops, i), x)
  {
    var rootCaps := RootCaps(snap, hops[0].delegator).value;
    var end, mid := CapsInto(rootCaps, hops, |hops|), CapsInto(rootCaps, hops, i);
    OnlyAttenuates(rootCaps, hops, i, |hops|);
    SubsetIsOrder(x, end, mid);
    SubsetIsOrder(x, mid, mid);
  }

  /** Whatever an accepted chain confers was held by its root on chain and by every hop in between. */
  lemma GrantedWasHeld(env: Env, chain: seq<Signed>, leaf: Key, session: Key, snap: Snapshot, now: Time, x: Caps)
    returns (hops: seq<Fields>)
    requires FoldChain(env, chain, leaf, session, snap, now).Ok?
    requires Has(FoldChain(env, chain, leaf, session, snap, now).value.caps, x)
    ensures ValidHops(env, chain, session, now, hops) && hops != []
    ensures RootCaps(snap, hops[0].delegator).Some?
    ensures var rootCaps := RootCaps(snap, hops[0].delegator).value;
            forall i :: 0 <= i <= |hops| ==> Has(CapsInto(rootCaps, hops, i), x)
  {
    hops := AcceptedHops(env, chain, leaf, session, snap, now);
    forall i: nat | i <= |hops|
      ensures RootCaps(snap, hops[0].delegator).Some?
      ensures Has(CapsInto(RootCaps(snap, hops[0].delegator).value, hops, i), x)
    {
      HeldAlongHops(hops, leaf, snap, x, i);
    }
  }

  predicate Carries(hops: seq<Fields>, x: Caps) {
    forall i :: 0 <= i < |hops| ==> hops[i].caps & x != 0
  }

  /** What each of the three answers of the identity takes, in bits. */
  lemma GrantedBits(a: Verdict)
    ensures Granted(a).write <==> a.caps & 1 != 0
    ensures Granted(a).resize <==> a.caps & 2 != 0
    ensures Granted(a).owner <==> a.rootIsOwner && a.caps == 7
  {
  }

  /** A bit at the end of a shrinking chain is carried all along it. */
  lemma BitCarried(rootCaps: Caps, hops: seq<Fields>, x: Caps)
    requires hops != [] && Attenuates(rootCaps, hops)
    ensures hops[|hops| - 1].caps & x != 0 <==> Carries(hops, x)
  {
    forall i | 0 <= i < |hops| ensures Subset(hops[|hops| - 1].caps, hops[i].caps) {
      OnlyAttenuates(rootCaps, hops, i + 1, |hops|);
    }
    if hops[|hops| - 1].caps & x != 0 {
      forall i | 0 <= i < |hops| ensures hops[i].caps & x != 0 {
        BitKept(hops[|hops| - 1].caps, hops[i].caps, x);
      }
    }
  }

  lemma BitKept(c: Caps, of: Caps, x: Caps)
    requires Subset(c, of) && c & x != 0
    ensures of & x != 0
  {
  }

  /** The identity that an accepted chain yields may write, or resize, exactly when every hop says so. */
  lemma PermissionsOfChain(env: Env, chain: seq<Signed>, leaf: Key, session: Key, snap: Snapshot, now: Time)
    returns (hops: seq<Fields>)
    requires FoldChain(env, chain, leaf, session, snap, now).Ok?
    ensures ValidHops(env, chain, session, now, hops) && hops != []
    ensures var identity := Granted(FoldChain(env, chain, leaf, session, snap, now).value);
            && (identity.write <==> Carries(hops, 1))
            && (identity.resize <==> Carries(hops, 2))
  {
    hops := AcceptedHops(env, chain, leaf, session, snap, now);
    GrantedBits(FoldHops(hops, leaf, snap).value);
    var rootCaps := RootCaps(snap, hops[0].delegator).value;
    BitCarried(rootCaps, hops, 1);
    BitCarried(rootCaps, hops, 2);
  }
}
