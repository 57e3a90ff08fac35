/**
  The program's handlers as Anchor runs them: instructions that assign fields
  of mutable account objects (programs/mosey-session/src/lib.rs). Each handler
  is proved to make exactly the step of `GrantTable.Apply`.
 */
module Program {
  import opened Common
  import opened Caps
  import opened Delegation
  import opened GrantTable

  class SessionAccount {
    var sessionKey: Key
    var owner: Key
    var epoch: nat

    constructor (sessionKey: Key, owner: Key)
      ensures this.sessionKey == sessionKey && this.owner == owner && epoch == 0
    {
      this.sessionKey, this.owner, epoch := sessionKey, owner, 0;
    }

    ghost function View(): Account
      reads this
    {
      Account.Session(sessionKey, owner, epoch)
    }
  }

  class GrantAccount {
    var session: Address
    var grantee: Key
    var caps: Caps
    var expiry: int
    var stamp: nat

    /** A new account at the address of its seeds, before the handler fills it in. */
    constructor Zeroed(session: Address, grantee: Key)
      ensures View() == Account.Grant(session, grantee, 0, 0, 0)
    {
      this.session, this.grantee, caps, expiry, stamp := session, grantee, 0, 0, 0;
    }

    ghost function View(): Account
      reads this
    {
      Account.Grant(session, grantee, caps, expiry, stamp)
    }

    /** The field assignments of the grant handler. */
    method Assign(session: Address, grantee: Key, caps: Caps, expiry: int, epoch: nat)
      modifies this
      ensures View() == Account.Grant(session, grantee, caps, expiry, epoch)
    {
      this.session := session;
      this.grantee := grantee;
      this.caps := caps;
      this.expiry := expiry;
      this.stamp := epoch;
    }
  }

  /** Two ledgers that agree everywhere but at one address. */
  ghost predicate Elsewhere(a: Ledger, b: Ledger, at: Address) {
    a - {at} == b - {at}
  }

  lemma Overwritten(a: Ledger, b: Ledger, at: Address, account: Account)
    requires Elsewhere(a, b, at)
    ensures a[at := account] == b[at := account]
  {
    assert (a - {at})[at := account] == a[at := account];
    assert (b - {at})[at := account] == b[at := account];
  }

  class MoseySession {
    var sessions: map<Address, SessionAccount>
    var grants: map<Address, GrantAccount>

    ghost function View(): Ledger
      reads this, sessions.Values, grants.Values
    {
      map a | a in sessions.Keys + grants.Keys ::
        if a in sessions then sessions[a].View() else grants[a].View()
    }

    /** Accounts sit at the addresses they derive, so two addresses never share an account. */
    ghost predicate Valid()
      reads this, sessions.Values, grants.Values
    {
      && (forall a :: a in sessions ==> a == SessionPda(sessions[a].sessionKey))
      && (forall a :: a in grants ==> a == GrantPda(grants[a].session, grants[a].grantee))
    }

    constructor ()
      ensures Valid() && View() == map[]
    {
      sessions, grants := map[], map[];
    }

    predicate Authorised(session: Address, signer: Key)
      reads this, sessions.Values
    {
      && session in sessions
      && session == SessionPda(sessions[session].sessionKey)
      && sessions[session].owner == signer
    }

    method RegisterSession(sessionKey: Key, owner: Key, signers: set<Key>) returns (e: Option<TxError>)
      requires Valid()
      modifies this
      ensures Valid()
      ensures Outcome(old(View()), Register(sessionKey, owner, signers), View(), e)
    {
      if sessionKey !in signers || owner !in signers {
        return Some(MissingSignature);
      }
      var at := SessionPda(sessionKey);
      if at in sessions {
        return Some(AlreadyInUse);
      }
      var s := new SessionAccount(sessionKey, owner);
      sessions := sessions[at := s];
      assert View() == old(View())[at := s.View()];
      return None;
    }

    method TransferOwnership(session: Address, signer: Key, newOwner: Key) returns (e: Option<TxError>)
      requires Valid()
      modifies sessions.Values
      ensures Valid()
      ensures Outcome(old(View()), Transfer(session, signer, newOwner), View(), e)
    {
      if !Authorised(session, signer) {
        return Some(NotAuthorised);
      }
      sessions[session].owner := newOwner;
      assert View() == old(View())[session := sessions[session].View()];
      return None;
    }

    method Grant(session: Address, signer: Key, grantee: Key, caps: Caps, expiry: int)
      returns (e: Option<TxError>)
      requires Valid()
      modifies this, grants.Values
      ensures Valid()
      ensures Outcome(old(View()), Mint(session, signer, grantee, caps, expiry), View(), e)
    {
      if !Authorised(session, signer) {
        return Some(NotAuthorised);
      }
      if !Subset(caps, ALL_CAPS) {
        return Some(InvalidCaps);
      }
      InitIfNeeded(session, grantee);
      ghost var made := View();
      FillIn(session, grantee, caps, expiry, sessions[session].epoch);
      Overwritten(old(View()), made, GrantPda(session, grantee),
                  Account.Grant(session, grantee, caps, expiry, sessions[session].epoch));
      return None;
    }

    /** Anchor's `init_if_needed`: makes sure the grant account exists. */
    method InitIfNeeded(session: Address, grantee: Key)
      requires Valid()
      modifies this`grants
      ensures Valid() && GrantPda(session, grantee) in grants
      ensures Elsewhere(old(View()), View(), GrantPda(session, grantee))
      ensures grants == old(grants) || fresh(grants[GrantPda(session, grantee)])
    {
      var at := GrantPda(session, grantee);
      if at !in grants {
        var g := new GrantAccount.Zeroed(session, grantee);
        grants := grants[at := g];
      }
    }

    method FillIn(session: Address, grantee: Key, caps: Caps, expiry: int, epoch: nat)
      requires Valid() && GrantPda(session, grantee) in grants
      modifies grants[GrantPda(session, grantee)]
      ensures Valid()
      ensures View() == old(View())[GrantPda(session, grantee) :=
                                      Account.Grant(session, grantee, caps, expiry, epoch)]
    {
      grants[GrantPda(session, grantee)].Assign(session, grantee, caps, expiry, epoch);
    }

    method Revoke(session: Address, signer: Key, grant: Address) returns (e: Option<TxError>)
      requires Valid()
      modifies this
      ensures Valid()
      ensures Outcome(old(View()), Instruction.Revoke(session, signer, grant), View(), e)
    {
      if !Authorised(session, signer) {
        return Some(NotAuthorised);
      }
      if grant !in grants || grant != GrantPda(session, grants[grant].grantee) {
        return Some(NoSuchGrant);
      }
      grants := grants - {grant};
      assert View() == old(View()) - {grant};
      return None;
    }

    method BumpEpoch(session: Address, signer: Key) returns (e: Option<TxError>)
      requires Valid()
      modifies sessions.Values
      ensures Valid()
      ensures Outcome(old(View()), Bump(session, signer), View(), e)
    {
      if !Authorised(session, signer) {
        return Some(NotAuthorised);
      }
      if sessions[session].epoch == MAX_EPOCH {
        return Some(EpochOverflow);
      }
      sessions[session].epoch := sessions[session].epoch + 1;
      assert View() == old(View())[session := sessions[session].View()];
      return None;
    }
  }

  /** A handler that starts at l and ends at l' with error e performed ix. */
  ghost predicate Outcome(l: Ledger, ix: Instruction, l': Ledger, e: Option<TxError>) {
    match Apply(l, ix)
    case Ok(after) => e == None && l' == after
    case Err(err) => e == Some(err) && l' == l
  }
}
