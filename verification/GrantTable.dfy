/**
  The on-chain program (programs/mosey-session/src/lib.rs): session accounts,
  grant accounts and the five instructions that change them.

  Revoking everything at once costs one counter: `bump_epoch` advances the
  session's epoch, and grants stamped with an older one are dead without being
  touched. `RunRefinesEager` proves, over every sequence of transactions on any
  number of sessions, that this is indistinguishable from a plain table whose
  grants are cleared on the spot.
 */
module GrantTable {
  import opened Common
  import opened Caps
  import opened Delegation

  const MAX_EPOCH: nat := 65535

  /** Program-derived addresses. Distinct seeds give distinct addresses. */
  datatype Address = SessionPda(sessionKey: Key) | GrantPda(session: Address, grantee: Key)

  datatype Account =
    | Session(sessionKey: Key, owner: Key, epoch: nat)
    | Grant(session: Address, grantee: Key, caps: Caps, expiry: int, stamp: nat)

  type Ledger = map<Address, Account>

  /** Every account sits at the address its own fields derive, and no grant is from a later epoch. */
  ghost predicate WellFormed(l: Ledger) {
    forall a :: a in l ==>
      match l[a]
      case Session(k, _, epoch) => a == SessionPda(k) && epoch <= MAX_EPOCH
      case Grant(s, g, _, _, stamp) =>
        a == GrantPda(s, g) && s in l && l[s].Session? && stamp <= l[s].epoch
  }

  datatype Instruction =
    | Register(sessionKey: Key, owner: Key, signers: set<Key>)
    | Transfer(session: Address, signer: Key, newOwner: Key)
    | Mint(session: Address, signer: Key, grantee: Key, caps: Caps, expiry: int)
    | Revoke(session: Address, signer: Key, grant: Address)
    | Bump(session: Address, signer: Key)

  datatype TxError = MissingSignature | AlreadyInUse | NotAuthorised | InvalidCaps | NoSuchGrant | EpochOverflow

  /** The constraints on the session account of an owner-only instruction. */
  predicate OwnedBy(l: Ledger, session: Address, signer: Key) {
    && session in l
    && l[session].Session?
    && session == SessionPda(l[session].sessionKey)
    && l[session].owner == signer
  }

  /** A registration is signed by its owner and by the session key itself. */
  predicate CoSigned(sessionKey: Key, owner: Key, signers: set<Key>) {
    sessionKey in signers && owner in signers
  }

  function Apply(l: Ledger, ix: Instruction): Result<Ledger, TxError> {
    match ix
    case Register(k, owner, signers) =>
      if !CoSigned(k, owner, signers) then Err(MissingSignature)
      else if SessionPda(k) in l then Err(AlreadyInUse)
      else Ok(l[SessionPda(k) := Session(k, owner, 0)])
    case Transfer(s, signer, newOwner) =>
      if !OwnedBy(l, s, signer) then Err(NotAuthorised)
      else Ok(l[s := l[s].(owner := newOwner)])
    case Mint(s, signer, g, caps, expiry) =>
      if !OwnedBy(l, s, signer) then Err(NotAuthorised)
      else if !Subset(caps, ALL_CAPS) then Err(InvalidCaps)
      else Ok(l[GrantPda(s, g) := Grant(s, g, caps, expiry, l[s].epoch)])
    case Revoke(s, signer, a) =>
      if !OwnedBy(l, s, signer) then Err(NotAuthorised)
      else if a !in l || !l[a].Grant? || a != GrantPda(s, l[a].grantee) then Err(NoSuchGrant)
      else Ok(l - {a})
    case Bump(s, signer) =>
      if !OwnedBy(l, s, signer) then Err(NotAuthorised)
      else if l[s].epoch == MAX_EPOCH then Err(EpochOverflow)
      else Ok(l[s := l[s].(epoch := l[s].epoch + 1)])
  }

  /** A failed transaction changes nothing. */
  function Step(l: Ledger, ix: Instruction): Ledger {
    match Apply(l, ix)
    case Ok(l') => l'
    case Err(_) => l
  }

  function Exec(l: Ledger, txs: seq<Instruction>): Ledger {
    if txs == [] then l else Step(Exec(l, txs[..|txs| - 1]), txs[|txs| - 1])
  }

  // ---------------------------------------------------------------------
  // The plain table: bump clears it
  // ---------------------------------------------------------------------

  datatype Term = Term(caps: Caps, expiry: int)

  datatype Table = Table(owner: Key, bumps: nat, grants: map<Key, Term>)

  /** One table per session key. */
  type Tables = map<Key, Table>

  /** The session key whose table an owner-signed instruction acts on, if it acts on any. */
  function Target(t: Tables, session: Address, signer: Key): Option<Key> {
    if session.SessionPda? && session.sessionKey in t && t[session.sessionKey].owner == signer
    then Some(session.sessionKey)
    else None
  }

  function EagerStep(t: Tables, ix: Instruction): Tables {
    match ix
    case Register(k, owner, signers) =>
      if !CoSigned(k, owner, signers) || k in t then t else t[k := Table(owner, 0, map[])]
    case Transfer(s, signer, newOwner) =>
      (match Target(t, s, signer)
       case None => t
       case Some(k) => t[k := t[k].(owner := newOwner)])
    case Mint(s, signer, g, caps, expiry) =>
      (match Target(t, s, signer)
       case None => t
       case Some(k) =>
         if Subset(caps, ALL_CAPS) then t[k := t[k].(grants := t[k].grants[g := Term(caps, expiry)])]
         else t)
    case Revoke(s, signer, a) =>
      (match Target(t, s, signer)
       case None => t
       case Some(k) =>
         if a.GrantPda? && a.session == s then t[k := t[k].(grants := t[k].grants - {a.grantee})] else t)
    case Bump(s, signer) =>
      (match Target(t, s, signer)
       case None => t
       case Some(k) =>
         if t[k].bumps < MAX_EPOCH then t[k := Table(t[k].owner, t[k].bumps + 1, map[])] else t)
  }

  function EagerExec(t: Tables, txs: seq<Instruction>): Tables {
    if txs == [] then t else EagerStep(EagerExec(t, txs[..|txs| - 1]), txs[|txs| - 1])
  }

  // ---------------------------------------------------------------------
  // Refinement
  // ---------------------------------------------------------------------

  /** Session k has an unswept grant for g. */
  predicate Unswept(l: Ledger, k: Key, g: Key) {
    var s := SessionPda(k);
    var a := GrantPda(s, g);
    && s in l && l[s].Session?
    && a in l && l[a].Grant?
    && l[a].stamp == l[s].epoch
  }

  /** The accounts of session k amount to table t. */
  ghost predicate SameSession(l: Ledger, k: Key, t: Table) {
    var s := SessionPda(k);
    && s in l && l[s].Session?
    && l[s].owner == t.owner
    && l[s].epoch == t.bumps
    && forall g :: && (g in t.grants <==> Unswept(l, k, g))
                   && (g in t.grants ==> var a := l[GrantPda(s, g)];
                                         t.grants[g] == Term(a.caps, a.expiry))
  }

  ghost predicate Refines(l: Ledger, t: Tables) {
    && WellFormed(l)
    && (forall k :: k in t <==> SessionPda(k) in l)
    && (forall k :: k in t ==> SameSession(l, k, t[k]))
  }

  lemma TargetAgrees(l: Ledger, t: Tables, s: Address, signer: Key)
    requires Refines(l, t)
    ensures OwnedBy(l, s, signer) <==> Target(t, s, signer).Some?
  {
    if s.SessionPda? {
      assert s.sessionKey in t <==> s in l;
    }
  }

  lemma StepWellFormed(l: Ledger, ix: Instruction)
    requires WellFormed(l)
    ensures WellFormed(Step(l, ix))
  {
  }

  /** The session an instruction names. */
  function Named(ix: Instruction): Address {
    match ix
    case Register(key, _, _) => SessionPda(key)
    case Transfer(s, _, _) => s
    case Mint(s, _, _, _, _) => s
    case Revoke(s, _, _) => s
    case Bump(s, _) => s
  }

  /** Two ledgers hold the same accounts for session k. */
  ghost predicate AgreeOn(l: Ledger, l': Ledger, k: Key) {
    var s := SessionPda(k);
    && (s in l <==> s in l') && (s in l ==> l[s] == l'[s])
    && forall g :: && (GrantPda(s, g) in l <==> GrantPda(s, g) in l')
                   && (GrantPda(s, g) in l ==> l[GrantPda(s, g)] == l'[GrantPda(s, g)])
  }

  /** An instruction leaves the accounts of every session it does not name alone. */
  lemma OthersUntouched(l: Ledger, ix: Instruction, k: Key)
    requires WellFormed(l) && SessionPda(k) != Named(ix)
    ensures AgreeOn(l, Step(l, ix), k)
  {
  }

  lemma AgreeSame(l: Ledger, l': Ledger, k: Key, t: Table)
    requires AgreeOn(l, l', k) && SameSession(l, k, t)
    ensures SameSession(l', k, t)
  {
    forall g ensures Unswept(l, k, g) <==> Unswept(l', k, g) {
    }
  }

  /** The named session itself, instruction by instruction. */
  lemma NamedRefines(l: Ledger, t: Tables, ix: Instruction, k: Key)
    requires Refines(l, t) && SessionPda(k) == Named(ix)
    ensures k in EagerStep(t, ix) <==> SessionPda(k) in Step(l, ix)
    ensures k in EagerStep(t, ix) ==> SameSession(Step(l, ix), k, EagerStep(t, ix)[k])
  {
    assert k in t <==> SessionPda(k) in l;
    if !ix.Register? {
      TargetAgrees(l, t, SessionPda(k), ix.signer);
    }
    if k in t {
      assert SameSession(l, k, t[k]);
      match ix {
        case Register(_, _, _) =>
        case Transfer(_, _, _) => TransferRefines(l, t, ix, k);
        case Mint(_, _, _, _, _) => MintRefines(l, t, ix, k);
        case Revoke(_, _, _) => RevokeRefines(l, t, ix, k);
        case Bump(_, _) => BumpRefines(l, t, ix, k);
      }
    }
  }

  lemma TransferRefines(l: Ledger, t: Tables, ix: Instruction, k: Key)
    requires Refines(l, t) && SessionPda(k) == Named(ix) && ix.Transfer? && k in t
    ensures SameSession(Step(l, ix), k, EagerStep(t, ix)[k])
  {
    assert SameSession(l, k, t[k]);
    TargetAgrees(l, t, SessionPda(k), ix.signer);
    forall g ensures Unswept(l, k, g) <==> Unswept(Step(l, ix), k, g) {
    }
  }

  lemma MintRefines(l: Ledger, t: Tables, ix: Instruction, k: Key)
    requires Refines(l, t) && SessionPda(k) == Named(ix) && ix.Mint? && k in t
    ensures SameSession(Step(l, ix), k, EagerStep(t, ix)[k])
  {
    var l', t' := Step(l, ix), EagerStep(t, ix);
    assert SameSession(l, k, t[k]);
    TargetAgrees(l, t, SessionPda(k), ix.signer);
    forall g ensures g in t'[k].grants <==> Unswept(l', k, g) {
      assert g in t[k].grants <==> Unswept(l, k, g);
    }
  }

  /** No grant carries the epoch that a bump begins, so none is left. */
  lemma BumpRefines(l: Ledger, t: Tables, ix: Instruction, k: Key)
    requires Refines(l, t) && SessionPda(k) == Named(ix) && ix.Bump? && k in t
    ensures SameSession(Step(l, ix), k, EagerStep(t, ix)[k])
  {
    var l', t' := Step(l, ix), EagerStep(t, ix);
    assert SameSession(l, k, t[k]);
    TargetAgrees(l, t, SessionPda(k), ix.signer);
    forall g ensures g in t'[k].grants <==> Unswept(l', k, g) {
      assert g in t[k].grants <==> Unswept(l, k, g);
    }
  }

  lemma RevokeRefines(l: Ledger, t: Tables, ix: Instruction, k: Key)
    requires Refines(l, t) && SessionPda(k) == Named(ix) && ix.Revoke? && k in t
    ensures SameSession(Step(l, ix), k, EagerStep(t, ix)[k])
  {
    var l', t' := Step(l, ix), EagerStep(t, ix);
    assert SameSession(l, k, t[k]);
    TargetAgrees(l, t, SessionPda(k), ix.signer);
    forall g ensures g in t'[k].grants <==> Unswept(l', k, g) {
      assert g in t[k].grants <==> Unswept(l, k, g);
    }
  }

  /** One transaction, lazy and eager side by side. */
  lemma StepRefines(l: Ledger, t: Tables, ix: Instruction)
    requires Refines(l, t)
    ensures Refines(Step(l, ix), EagerStep(t, ix))
  {
    var l', t' := Step(l, ix), EagerStep(t, ix);
    StepWellFormed(l, ix);
    forall k ensures (k in t' <==> SessionPda(k) in l') && (k in t' ==> SameSession(l', k, t'[k])) {
      if SessionPda(k) == Named(ix) {
        NamedRefines(l, t, ix, k);
      } else {
        OthersUntouched(l, ix, k);
        EagerOthers(t, ix, k);
        assert k in t <==> SessionPda(k) in l;
        if k in t {
          AgreeSame(l, l', k, t[k]);
        }
      }
    }
  }

  lemma EagerOthers(t: Tables, ix: Instruction, k: Key)
    requires SessionPda(k) != Named(ix)
    ensures (k in EagerStep(t, ix) <==> k in t) && (k in t ==> EagerStep(t, ix)[k] == t[k])
  {
  }

  /**
    From an empty chain, after any transactions on any sessions, the stamped
    accounts hold exactly the plain tables: a swept grant is gone for good,
    because the epoch only ever increases.
   */
  lemma {:induction false} RunRefinesEager(txs: seq<Instruction>)
    ensures Refines(Exec(map[], txs), EagerExec(map[], txs))
    decreases |txs|
  {
    if txs != [] {
      var n := |txs| - 1;
      RunRefinesEager(txs[..n]);
      StepRefines(Exec(map[], txs[..n]), EagerExec(map[], txs[..n]), txs[n]);
    }
  }

  /** No table grants a capability that does not exist. */
  ghost predicate KnownCaps(t: Tables) {
    forall k, g :: k in t && g in t[k].grants ==> Subset(t[k].grants[g].caps, ALL_CAPS)
  }

  lemma {:induction false} OnlyKnownCaps(txs: seq<Instruction>)
    ensures KnownCaps(EagerExec(map[], txs))
    decreases |txs|
  {
    if txs != [] {
      OnlyKnownCaps(txs[..|txs| - 1]);
    }
  }

  /**
    A registered session changes only with the signature of its recorded owner,
    and one comes into being only with those of its key and its first owner.
   */
  lemma {:induction false} ChangesNeedOwner(l: Ledger, ix: Instruction, k: Key)
    requires WellFormed(l) && !AgreeOn(l, Step(l, ix), k)
    ensures Named(ix) == SessionPda(k)
    ensures if SessionPda(k) in l
            then !ix.Register? && ix.signer == l[SessionPda(k)].owner
            else ix.Register? && k in ix.signers && ix.owner in ix.signers
  {
    if Named(ix) != SessionPda(k) {
      OthersUntouched(l, ix, k);
    }
  }

  // ---------------------------------------------------------------------
  // What each instruction brings about
  // ---------------------------------------------------------------------

  /** What g is granted on session k, dead grants not counted. */
  function TermOf(l: Ledger, k: Key, g: Key): Option<Term> {
    if Unswept(l, k, g) then
      Some(Term(l[GrantPda(SessionPda(k), g)].caps, l[GrantPda(SessionPda(k), g)].expiry))
    else None
  }

  /** ix comes from the recorded owner of session k. */
  predicate ByOwner(l: Ledger, ix: Instruction, k: Key) {
    && SessionPda(k) in l && l[SessionPda(k)].Session?
    && !ix.Register? && Named(ix) == SessionPda(k) && ix.signer == l[SessionPda(k)].owner
  }

  /** The grant of g on session k after ix: minted, revoked, swept by a bump, or as before. */
  lemma GrantAfter(l: Ledger, ix: Instruction, k: Key, g: Key)
    requires WellFormed(l) && SessionPda(k) in l
    ensures TermOf(Step(l, ix), k, g) ==
            if !ByOwner(l, ix, k) then TermOf(l, k, g)
            else
              match ix
              case Mint(_, _, grantee, caps, expiry) =>
                if grantee == g && caps & 0xf8 == 0 then Some(Term(caps, expiry)) else TermOf(l, k, g)
              case Revoke(_, _, a) => if a == GrantPda(SessionPda(k), g) then None else TermOf(l, k, g)
              case Bump(_, _) => if l[SessionPda(k)].epoch == 65535 then TermOf(l, k, g) else None
              case _ => TermOf(l, k, g)
  {
    if Named(ix) != SessionPda(k) {
      OthersUntouched(l, ix, k);
    } else if ix.Mint? {
      UnknownBits(ix.caps);
    }
  }

  /** The owner of session k after ix: whom the owner named in a transfer, or as before. */
  lemma OwnerAfter(l: Ledger, ix: Instruction, k: Key)
    requires WellFormed(l) && SessionPda(k) in l
    ensures SessionPda(k) in Step(l, ix)
    ensures Step(l, ix)[SessionPda(k)].Session?
    ensures Step(l, ix)[SessionPda(k)].owner ==
            if ByOwner(l, ix, k) && ix.Transfer? then ix.newOwner else l[SessionPda(k)].owner
  {
    if Named(ix) != SessionPda(k) {
      OthersUntouched(l, ix, k);
    }
  }

  /** A session comes into being exactly by a co-signed registration, owned as it says and granting nothing. */
  lemma BornByRegistration(l: Ledger, ix: Instruction, k: Key, g: Key)
    requires WellFormed(l) && SessionPda(k) !in l
    ensures SessionPda(k) in Step(l, ix) <==>
            ix.Register? && ix.sessionKey == k && k in ix.signers && ix.owner in ix.signers
    ensures SessionPda(k) in Step(l, ix) ==>
              Step(l, ix)[SessionPda(k)] == Session(k, ix.owner, 0) && TermOf(Step(l, ix), k, g) == None
  {
    if Named(ix) != SessionPda(k) {
      OthersUntouched(l, ix, k);
    }
  }
}
