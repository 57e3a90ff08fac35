/**
  The transaction compiler (walletsolana/tx.go): `compileMessage` merges the
  privileges of every account reference, ranks the accounts, replaces keys by
  one-byte indices and writes the legacy message.

  `CompilationPreservesMeaning` is the compiler's correctness theorem: reading
  the bytes back gives the intended calls and privileges exactly when the
  message fits the format's limits.
 */
module Message {
  import opened Common
  import opened Varints
  import opened Wire

  datatype AccountMeta = AccountMeta(key: Pubkey, signer: bool, writable: bool)

  datatype Instruction = Instruction(program: Pubkey, accounts: seq<AccountMeta>, data: seq<Byte>)

  // ---------------------------------------------------------------------
  // What a message means
  // ---------------------------------------------------------------------

  datatype Privilege = Privilege(signer: bool, writable: bool)

  datatype Call = Call(program: Pubkey, accounts: seq<Pubkey>, data: seq<Byte>)

  datatype Meaning = Meaning(feePayer: Pubkey, blockhash: Pubkey,
                             privileges: map<Pubkey, Privilege>, calls: seq<Call>)

  predicate Distinct(keys: seq<Pubkey>) {
    forall i, j :: 0 <= i < j < |keys| ==> keys[i] != keys[j]
  }

  /** The privileges that the header gives to position i of n keys. */
  function PrivilegeAt(h: Header, n: nat, i: nat): Privilege {
    Privilege(i < h.signers,
              i < h.signers - h.readonlySigned || h.signers <= i < n - h.readonlyUnsigned)
  }

  /** The privileges of every key, read off its position. */
  function PrivilegesOf(h: Header, keys: seq<Pubkey>): map<Pubkey, Privilege>
    requires Distinct(keys)
  {
    map i | 0 <= i < |keys| :: keys[i] := PrivilegeAt(h, |keys|, i)
  }

  /** The fee payer, at index 0, cannot be a program. */
  function ReadCall(keys: seq<Pubkey>, ix: RawInstruction): Option<Call> {
    if 0 < ix.program < |keys| && forall i :: 0 <= i < |ix.accounts| ==> ix.accounts[i] < |keys| then
      Some(Call(keys[ix.program],
                seq(|ix.accounts|, i requires 0 <= i < |ix.accounts| => keys[ix.accounts[i]]),
                ix.data))
    else None
  }

  /** How the chain understands a legacy message; one that its sanitiser rejects means nothing. */
  function Interpret(m: RawMessage): Option<Meaning> {
    var n := |m.keys|;
    if !Distinct(m.keys) || m.header.readonlySigned >= m.header.signers
       || m.header.signers + m.header.readonlyUnsigned > n
       || exists i :: 0 <= i < |m.instructions| && ReadCall(m.keys, m.instructions[i]).None?
    then None
    else
      Some(Meaning(m.keys[0], m.blockhash,
                   PrivilegesOf(m.header, m.keys),
                   seq(|m.instructions|, i requires 0 <= i < |m.instructions| =>
                     ReadCall(m.keys, m.instructions[i]).value)))
  }

  function Decode(bytes: seq<Byte>): Option<Meaning> {
    var m :- ReadMessage(bytes);
    Interpret(m)
  }

  // ---------------------------------------------------------------------
  // What the compiler is asked for
  // ---------------------------------------------------------------------

  function Accounts(ixs: seq<Instruction>): seq<AccountMeta> {
    if ixs == [] then [] else Accounts(ixs[..|ixs| - 1]) + ixs[|ixs| - 1].accounts
  }

  function Programs(ixs: seq<Instruction>): seq<AccountMeta> {
    if ixs == [] then []
    else Programs(ixs[..|ixs| - 1]) + [AccountMeta(ixs[|ixs| - 1].program, false, false)]
  }

  /** Every reference to an account, in the order the compiler meets them. */
  function References(feePayer: Pubkey, ixs: seq<Instruction>): seq<AccountMeta> {
    [AccountMeta(feePayer, true, true)] + Accounts(ixs) + Programs(ixs)
  }

  /** Some reference asks for key to sign. */
  predicate Signs(refs: seq<AccountMeta>, key: Pubkey) {
    exists i :: 0 <= i < |refs| && refs[i].key == key && refs[i].signer
  }

  /** Some reference asks for key to be writable. */
  predicate Writes(refs: seq<AccountMeta>, key: Pubkey) {
    exists i :: 0 <= i < |refs| && refs[i].key == key && refs[i].writable
  }

  function Wanted(refs: seq<AccountMeta>, key: Pubkey): Privilege {
    Privilege(Signs(refs, key), Writes(refs, key))
  }

  function UnionOf(refs: seq<AccountMeta>, order: seq<Pubkey>): map<Pubkey, Privilege> {
    map k | k in order :: Wanted(refs, k)
  }

  /** The distinct keys, in order of first reference. */
  function FirstSeen(refs: seq<AccountMeta>): seq<Pubkey> {
    if refs == [] then []
    else
      var seen := FirstSeen(refs[..|refs| - 1]);
      var key := refs[|refs| - 1].key;
      if key in seen then seen else seen + [key]
  }

  function Calls(ixs: seq<Instruction>): seq<Call> {
    seq(|ixs|, i requires 0 <= i < |ixs| => CallOf(ixs[i]))
  }

  function CallOf(ix: Instruction): Call {
    Call(ix.program,
         seq(|ix.accounts|, j requires 0 <= j < |ix.accounts| => ix.accounts[j].key),
         ix.data)
  }

  /** The meaning asked for: the calls as given, each key with the union of its privileges. */
  function Intended(feePayer: Pubkey, blockhash: Pubkey, ixs: seq<Instruction>): Meaning {
    var refs := References(feePayer, ixs);
    Meaning(feePayer, blockhash, UnionOf(refs, FirstSeen(refs)), Calls(ixs))
  }

  // ---------------------------------------------------------------------
  // The compiled form
  // ---------------------------------------------------------------------

  /** The keys of one privilege class, in order. */
  function Class(refs: seq<AccountMeta>, order: seq<Pubkey>, p: Privilege): seq<Pubkey> {
    if order == [] then []
    else
      var k := order[|order| - 1];
      Class(refs, order[..|order| - 1], p) + if Wanted(refs, k) == p then [k] else []
  }

  const WS := Privilege(true, true)
  const RS := Privilege(true, false)
  const WN := Privilege(false, true)
  const RN := Privilege(false, false)

  function Ranked(refs: seq<AccountMeta>, order: seq<Pubkey>): seq<Pubkey> {
    Class(refs, order, WS) + Class(refs, order, RS) + Class(refs, order, WN) + Class(refs, order, RN)
  }

  /** The position of k in keys. */
  function Index(keys: seq<Pubkey>, k: Pubkey): (i: nat)
    ensures k in keys ==> i < |keys| && keys[i] == k
  {
    if keys == [] || keys[0] == k then 0 else 1 + Index(keys[1..], k)
  }

  /** Go's byte(n). */
  function Truncate(n: nat): Byte {
    n % 256
  }

  function Encode(keys: seq<Pubkey>, ix: Instruction): RawInstruction {
    RawInstruction(Truncate(Index(keys, ix.program)),
                   seq(|ix.accounts|, j requires 0 <= j < |ix.accounts| =>
                     Truncate(Index(keys, ix.accounts[j].key))),
                   ix.data)
  }

  function EncodeAll(keys: seq<Pubkey>, ixs: seq<Instruction>): seq<RawInstruction> {
    seq(|ixs|, i requires 0 <= i < |ixs| => Encode(keys, ixs[i]))
  }

  function CompiledHeader(refs: seq<AccountMeta>, order: seq<Pubkey>): Header {
    var rs := |Class(refs, order, RS)|;
    Header(Truncate(|Class(refs, order, WS)| + rs), Truncate(rs), Truncate(|Class(refs, order, RN)|))
  }

  function Compiled(feePayer: Pubkey, blockhash: Pubkey, ixs: seq<Instruction>): RawMessage {
    var refs := References(feePayer, ixs);
    var order := FirstSeen(refs);
    var keys := Ranked(refs, order);
    RawMessage(CompiledHeader(refs, order), keys, blockhash, EncodeAll(keys, ixs))
  }

  // ---------------------------------------------------------------------
  // Keys: distinct, complete, ranked
  // ---------------------------------------------------------------------

  lemma {:induction false} FirstSeenExact(refs: seq<AccountMeta>)
    ensures Distinct(FirstSeen(refs))
    ensures forall k :: k in FirstSeen(refs) <==> Referenced(refs, k)
    ensures refs != [] ==> FirstSeen(refs) != [] && FirstSeen(refs)[0] == refs[0].key
    decreases |refs|
  {
    if refs != [] {
      var n := |refs| - 1;
      FirstSeenExact(refs[..n]);
      forall k ensures k in FirstSeen(refs) <==> Referenced(refs, k) {
        ReferencedSnoc(refs, k);
      }
    }
  }

  /** Some reference names key. */
  predicate Referenced(refs: seq<AccountMeta>, key: Pubkey) {
    exists i :: 0 <= i < |refs| && refs[i].key == key
  }

  lemma ReferencedSnoc(refs: seq<AccountMeta>, k: Pubkey)
    requires refs != []
    ensures var n := |refs| - 1;
            Referenced(refs, k) <==> Referenced(refs[..n], k) || refs[n].key == k
  {
    var n := |refs| - 1;
    if i :| 0 <= i < n && refs[i].key == k {
      assert refs[..n][i].key == k;
    }
    if i :| 0 <= i < n && refs[..n][i].key == k {
      assert refs[i].key == k;
    }
  }

  lemma {:induction false} ClassExact(refs: seq<AccountMeta>, order: seq<Pubkey>, p: Privilege)
    requires Distinct(order)
    ensures Distinct(Class(refs, order, p))
    ensures forall k :: k in Class(refs, order, p) <==> k in order && Wanted(refs, k) == p
    decreases |order|
  {
    if order != [] {
      var n := |order| - 1;
      ClassExact(refs, order[..n], p);
      assert order == order[..n] + [order[n]];
    }
  }

  lemma DistinctAppend(a: seq<Pubkey>, b: seq<Pubkey>)
    requires Distinct(a) && Distinct(b) && forall k :: k in a ==> k !in b
    ensures Distinct(a + b)
  {
    forall i, j | 0 <= i < j < |a + b| ensures (a + b)[i] != (a + b)[j] {
      if i < |a| <= j {
        assert a[i] in a && b[j - |a|] in b;
      }
    }
  }

  /** Ranking permutes the keys: each once, grouped by privilege. */
  lemma RankedExact(refs: seq<AccountMeta>, order: seq<Pubkey>)
    requires Distinct(order)
    ensures Distinct(Ranked(refs, order))
    ensures forall k :: k in Ranked(refs, order) <==> k in order
  {
    var ws, rs := Class(refs, order, WS), Class(refs, order, RS);
    var wn, rn := Class(refs, order, WN), Class(refs, order, RN);
    ClassExact(refs, order, WS);
    ClassExact(refs, order, RS);
    ClassExact(refs, order, WN);
    ClassExact(refs, order, RN);
    DistinctAppend(ws, rs);
    DistinctAppend(ws + rs, wn);
    DistinctAppend(ws + rs + wn, rn);
  }

  /** The class of the key at each position follows from the class sizes alone. */
  lemma RankedAt(refs: seq<AccountMeta>, order: seq<Pubkey>, i: nat)
    requires Distinct(order) && i < |Ranked(refs, order)|
    ensures var ws, rs := |Class(refs, order, WS)|, |Class(refs, order, RS)|;
            var n, rn := |Ranked(refs, order)|, |Class(refs, order, RN)|;
            Wanted(refs, Ranked(refs, order)[i]) ==
            Privilege(i < ws + rs, i < ws || ws + rs <= i < n - rn)
  {
    var ws, rs := Class(refs, order, WS), Class(refs, order, RS);
    var wn, rn := Class(refs, order, WN), Class(refs, order, RN);
    ClassExact(refs, order, WS);
    ClassExact(refs, order, RS);
    ClassExact(refs, order, WN);
    ClassExact(refs, order, RN);
    var k := Ranked(refs, order)[i];
    if i < |ws| {
      assert k == ws[i] && k in ws;
    } else if i < |ws| + |rs| {
      assert k == rs[i - |ws|] && k in rs;
    } else if i < |ws| + |rs| + |wn| {
      assert k == wn[i - |ws| - |rs|] && k in wn;
    } else {
      assert k == rn[i - |ws| - |rs| - |wn|] && k in rn;
    }
  }

  lemma {:induction false} ClassSizes(refs: seq<AccountMeta>, order: seq<Pubkey>)
    ensures |Ranked(refs, order)| == |order|
    decreases |order|
  {
    if order != [] {
      ClassSizes(refs, order[..|order| - 1]);
    }
  }

  lemma {:induction false} ClassFirst(refs: seq<AccountMeta>, order: seq<Pubkey>)
    requires order != []
    ensures var c := Class(refs, order, Wanted(refs, order[0])); c != [] && c[0] == order[0]
    decreases |order|
  {
    if |order| > 1 {
      ClassFirst(refs, order[..|order| - 1]);
    }
  }

  /** Every key of every instruction is referenced, and every key but the fee payer comes from one. */
  lemma {:induction false} AccountsExact(ixs: seq<Instruction>)
    ensures forall i, j :: 0 <= i < |ixs| && 0 <= j < |ixs[i].accounts| ==>
              ixs[i].accounts[j] in Accounts(ixs)
    ensures forall m :: m in Accounts(ixs) ==> exists i :: 0 <= i < |ixs| && m in ixs[i].accounts
    decreases |ixs|
  {
    if ixs != [] {
      var n := |ixs| - 1;
      AccountsExact(ixs[..n]);
      forall i, j | 0 <= i < |ixs| && 0 <= j < |ixs[i].accounts|
        ensures ixs[i].accounts[j] in Accounts(ixs)
      {
        if i < n {
          assert ixs[..n][i].accounts[j] in Accounts(ixs[..n]);
        }
      }
      forall m | m in Accounts(ixs) ensures exists i :: 0 <= i < |ixs| && m in ixs[i].accounts {
        if m in ixs[n].accounts {
        } else {
          var i :| 0 <= i < n && m in ixs[..n][i].accounts;
          assert m in ixs[i].accounts;
        }
      }
    }
  }

  lemma {:induction false} ProgramsExact(ixs: seq<Instruction>)
    ensures |Programs(ixs)| == |ixs|
    ensures forall i :: 0 <= i < |ixs| ==> Programs(ixs)[i] == AccountMeta(ixs[i].program, false, false)
    decreases |ixs|
  {
    if ixs != [] {
      ProgramsExact(ixs[..|ixs| - 1]);
    }
  }

  /** The instruction mentions key. */
  predicate Mentions(ix: Instruction, key: Pubkey) {
    ix.program == key || exists j :: 0 <= j < |ix.accounts| && ix.accounts[j].key == key
  }

  lemma KeysMentioned(feePayer: Pubkey, ixs: seq<Instruction>, k: Pubkey)
    ensures k in FirstSeen(References(feePayer, ixs)) <==>
            k == feePayer || exists i :: 0 <= i < |ixs| && Mentions(ixs[i], k)
  {
    var refs := References(feePayer, ixs);
    FirstSeenExact(refs);
    if r: nat :| r < |refs| && refs[r].key == k {
      ReferenceMentioned(feePayer, ixs, r);
    }
    if k == feePayer {
      assert refs[0].key == k;
    }
    if i: nat :| i < |ixs| && Mentions(ixs[i], k) {
      MentionReferenced(feePayer, ixs, i, k);
    }
  }

  /** Every reference but the first comes from an instruction. */
  lemma ReferenceMentioned(feePayer: Pubkey, ixs: seq<Instruction>, r: nat)
    requires r < |References(feePayer, ixs)|
    ensures var k := References(feePayer, ixs)[r].key;
            k == feePayer || exists i :: 0 <= i < |ixs| && Mentions(ixs[i], k)
  {
    var refs := References(feePayer, ixs);
    var accounts, programs := Accounts(ixs), Programs(ixs);
    AccountsExact(ixs);
    ProgramsExact(ixs);
    if 1 <= r <= |accounts| {
      var m := accounts[r - 1];
      assert refs[r] == m && m in accounts;
      var i :| 0 <= i < |ixs| && m in ixs[i].accounts;
      assert Mentions(ixs[i], m.key);
    } else if r > |accounts| {
      assert refs[r] == programs[r - 1 - |accounts|];
      assert Mentions(ixs[r - 1 - |accounts|], refs[r].key);
    }
  }

  /** Every key of an instruction is referenced. */
  lemma MentionReferenced(feePayer: Pubkey, ixs: seq<Instruction>, i: nat, k: Pubkey)
    requires i < |ixs| && Mentions(ixs[i], k)
    ensures Referenced(References(feePayer, ixs), k)
  {
    var refs := References(feePayer, ixs);
    var accounts, programs := Accounts(ixs), Programs(ixs);
    AccountsExact(ixs);
    ProgramsExact(ixs);
    if ixs[i].program == k {
      assert refs[1 + |accounts| + i] == programs[i];
    } else {
      var j :| 0 <= j < |ixs[i].accounts| && ixs[i].accounts[j].key == k;
      var r :| 0 <= r < |accounts| && accounts[r] == ixs[i].accounts[j];
      assert refs[1 + r] == accounts[r];
    }
  }

  // ---------------------------------------------------------------------
  // Indices
  // ---------------------------------------------------------------------

  lemma IndexUnique(keys: seq<Pubkey>, i: nat)
    requires Distinct(keys) && i < |keys|
    ensures Index(keys, keys[i]) == i
  {
    assert keys[i] in keys;
  }

  /** With at most 256 keys, indices fit a byte and lead back to their keys. */
  lemma CallDecodes(keys: seq<Pubkey>, ix: Instruction)
    requires 0 < |keys| <= 256 && ix.program != keys[0] && forall k :: Mentions(ix, k) ==> k in keys
    ensures ReadCall(keys, Encode(keys, ix)) == Some(CallOf(ix))
  {
    var raw := Encode(keys, ix);
    assert Mentions(ix, ix.program);
    forall j | 0 <= j < |ix.accounts|
      ensures raw.accounts[j] < |keys| && keys[raw.accounts[j]] == ix.accounts[j].key
    {
      assert Mentions(ix, ix.accounts[j].key);
    }
    var call := ReadCall(keys, raw);
    assert call.Some? && call.value.accounts == CallOf(ix).accounts;
  }

  /** The key at position 256 is mistaken for the one at position 0. */
  lemma CallMisread(keys: seq<Pubkey>, ix: Instruction)
    requires Distinct(keys) && |keys| > 256 && Mentions(ix, keys[256])
    ensures ReadCall(keys, Encode(keys, ix)) != Some(CallOf(ix))
  {
    IndexUnique(keys, 256);
    var raw := Encode(keys, ix);
    if ix.program == keys[256] {
      assert raw.program == 0;
    } else {
      var j :| 0 <= j < |ix.accounts| && ix.accounts[j].key == keys[256];
      assert raw.accounts[j] == 0;
      var call := ReadCall(keys, raw);
      assert call.Some? ==> call.value.accounts[j] == keys[0];
    }
  }

  // ---------------------------------------------------------------------
  // The theorem
  // ---------------------------------------------------------------------

  function NumSigners(refs: seq<AccountMeta>, order: seq<Pubkey>): nat {
    |Class(refs, order, WS)| + |Class(refs, order, RS)|
  }

  /** What the format can carry: byte-sized indices and counts, compact-u16 lengths, no call to the fee payer. */
  predicate Expressible(feePayer: Pubkey, ixs: seq<Instruction>) {
    var refs := References(feePayer, ixs);
    var order := FirstSeen(refs);
    && |order| <= 256
    && NumSigners(refs, order) <= 255
    && |ixs| <= MAX_LENGTH
    && forall i :: 0 <= i < |ixs| ==>
         && ixs[i].program != feePayer
         && |ixs[i].accounts| <= MAX_LENGTH && |ixs[i].data| <= MAX_LENGTH
  }

  lemma CompiledKeys(feePayer: Pubkey, ixs: seq<Instruction>)
    ensures var refs := References(feePayer, ixs);
            var order := FirstSeen(refs);
            var keys := Ranked(refs, order);
            && Distinct(order) && Distinct(keys)
            && |keys| == |order| >= 1
            && keys[0] == feePayer
            && |Class(refs, order, WS)| >= 1
            && (forall k :: k in keys <==> k in order)
  {
    var refs := References(feePayer, ixs);
    var order := FirstSeen(refs);
    FirstSeenExact(refs);
    RankedExact(refs, order);
    ClassSizes(refs, order);
    assert refs[0] == AccountMeta(feePayer, true, true);
    assert Wanted(refs, feePayer) == WS;
    ClassFirst(refs, order);
    assert Ranked(refs, order)[0] == Class(refs, order, WS)[0];
  }

  lemma HeaderExact(refs: seq<AccountMeta>, order: seq<Pubkey>)
    requires |order| <= 256 && NumSigners(refs, order) <= 255
    ensures var ws, rs := |Class(refs, order, WS)|, |Class(refs, order, RS)|;
            var wn, rn := |Class(refs, order, WN)|, |Class(refs, order, RN)|;
            && |Ranked(refs, order)| == ws + rs + wn + rn
            && var h := CompiledHeader(refs, order);
               (ws >= 1 ==> h.signers as int == ws + rs && h.readonlySigned as int == rs
                            && h.readonlyUnsigned as int == rn)
  {
    ClassSizes(refs, order);
  }

  /** Read by position, the header gives every key the union of its privileges. */
  lemma PrivilegesPreserved(refs: seq<AccountMeta>, order: seq<Pubkey>)
    requires Distinct(order) && |order| <= 256 && NumSigners(refs, order) <= 255
    requires |Class(refs, order, WS)| >= 1
    ensures var h := CompiledHeader(refs, order);
            var n := |Ranked(refs, order)|;
            && h.readonlySigned < h.signers
            && h.signers + h.readonlyUnsigned <= n
            && (forall i :: 0 <= i < n ==> PrivilegeAt(h, n, i) == Wanted(refs, Ranked(refs, order)[i]))
  {
    var h, n := CompiledHeader(refs, order), |Ranked(refs, order)|;
    HeaderExact(refs, order);
    forall i | 0 <= i < n ensures PrivilegeAt(h, n, i) == Wanted(refs, Ranked(refs, order)[i]) {
      PrivilegeAtRank(refs, order, h, i);
    }
  }

  lemma PrivilegeAtRank(refs: seq<AccountMeta>, order: seq<Pubkey>, h: Header, i: nat)
    requires Distinct(order) && i < |Ranked(refs, order)|
    requires h.signers == |Class(refs, order, WS)| + |Class(refs, order, RS)|
    requires h.readonlySigned == |Class(refs, order, RS)| && h.readonlyUnsigned == |Class(refs, order, RN)|
    ensures PrivilegeAt(h, |Ranked(refs, order)|, i) == Wanted(refs, Ranked(refs, order)[i])
  {
    RankedAt(refs, order, i);
  }

  /** Privileges read off positions and privileges asked of keys are one map. */
  lemma SamePrivileges(refs: seq<AccountMeta>, order: seq<Pubkey>, keys: seq<Pubkey>, h: Header)
    requires Distinct(keys) && forall k :: k in keys <==> k in order
    requires forall i :: 0 <= i < |keys| ==> PrivilegeAt(h, |keys|, i) == Wanted(refs, keys[i])
    ensures PrivilegesOf(h, keys) == UnionOf(refs, order)
  {
    var got := PrivilegesOf(h, keys);
    forall k ensures k in got <==> k in order {
      assert k in keys <==> exists i :: 0 <= i < |keys| && keys[i] == k;
    }
  }

  lemma CallsPreserved(feePayer: Pubkey, blockhash: Pubkey, ixs: seq<Instruction>, i: nat)
    requires Expressible(feePayer, ixs) && i < |ixs|
    ensures var m := Compiled(feePayer, blockhash, ixs);
            ReadCall(m.keys, m.instructions[i]) == Some(CallOf(ixs[i]))
  {
    CompiledKeys(feePayer, ixs);
    var m := Compiled(feePayer, blockhash, ixs);
    forall k ensures Mentions(ixs[i], k) ==> k in m.keys {
      KeysMentioned(feePayer, ixs, k);
    }
    CallDecodes(m.keys, ixs[i]);
  }

  lemma MeaningPreserved(feePayer: Pubkey, blockhash: Pubkey, ixs: seq<Instruction>)
    requires Expressible(feePayer, ixs)
    ensures Interpret(Compiled(feePayer, blockhash, ixs)) == Some(Intended(feePayer, blockhash, ixs))
  {
    var refs := References(feePayer, ixs);
    var order := FirstSeen(refs);
    var m := Compiled(feePayer, blockhash, ixs);
    CompiledKeys(feePayer, ixs);
    PrivilegesPreserved(refs, order);
    SamePrivileges(refs, order, m.keys, m.header);
    forall i | 0 <= i < |ixs| ensures ReadCall(m.keys, m.instructions[i]) == Some(CallOf(ixs[i])) {
      CallsPreserved(feePayer, blockhash, ixs, i);
    }
    InterpretIs(m, Intended(feePayer, blockhash, ixs));
  }

  /** A message means what its parts mean. */
  lemma InterpretIs(m: RawMessage, want: Meaning)
    requires Distinct(m.keys) && m.header.readonlySigned < m.header.signers
    requires m.header.signers + m.header.readonlyUnsigned <= |m.keys|
    requires want.feePayer == m.keys[0] && want.blockhash == m.blockhash
    requires want.privileges == PrivilegesOf(m.header, m.keys)
    requires |want.calls| == |m.instructions|
    requires forall i :: 0 <= i < |m.instructions| ==>
               ReadCall(m.keys, m.instructions[i]) == Some(want.calls[i])
    ensures Interpret(m) == Some(want)
  {
    assert Interpret(m).Some?;
    assert Interpret(m).value.calls == want.calls;
  }

  /** A call to the fee payer gets index 0, and the message is rejected. */
  lemma FeePayerCalled(feePayer: Pubkey, blockhash: Pubkey, ixs: seq<Instruction>, i: nat)
    requires i < |ixs| && ixs[i].program == feePayer
    ensures Interpret(Compiled(feePayer, blockhash, ixs)).None?
  {
    var m := Compiled(feePayer, blockhash, ixs);
    CompiledKeys(feePayer, ixs);
    IndexUnique(m.keys, 0);
    assert m.instructions[i].program == 0;
    assert ReadCall(m.keys, m.instructions[i]).None?;
  }

  /** Too many keys or signers: some call or privilege is misread, or the message is rejected. */
  lemma MeaningLost(feePayer: Pubkey, blockhash: Pubkey, ixs: seq<Instruction>)
    requires var refs := References(feePayer, ixs);
             var order := FirstSeen(refs);
             |order| > 256 || NumSigners(refs, order) > 255
    ensures Interpret(Compiled(feePayer, blockhash, ixs)) != Some(Intended(feePayer, blockhash, ixs))
  {
    var refs := References(feePayer, ixs);
    var order := FirstSeen(refs);
    var m := Compiled(feePayer, blockhash, ixs);
    CompiledKeys(feePayer, ixs);
    if |order| > 256 {
      var k := m.keys[256];
      assert k in m.keys && k != feePayer;
      KeysMentioned(feePayer, ixs, k);
      var i :| 0 <= i < |ixs| && Mentions(ixs[i], k);
      CallMisread(m.keys, ixs[i]);
      var got := Interpret(m);
      assert got.Some? ==> got.value.calls[i] == ReadCall(m.keys, m.instructions[i]).value;
      assert Intended(feePayer, blockhash, ixs).calls[i] == CallOf(ixs[i]);
    } else {
      assert NumSigners(refs, order) == 256;
      assert m.header.signers == 0;
    }
  }

  lemma InstructionsFit(keys: seq<Pubkey>, ixs: seq<Instruction>)
    ensures |EncodeAll(keys, ixs)| == |ixs|
    ensures forall i :: 0 <= i < |ixs| ==>
              (Fits(EncodeAll(keys, ixs)[i]) <==>
                 |ixs[i].accounts| <= MAX_LENGTH && |ixs[i].data| <= MAX_LENGTH)
  {
  }

  /**
    Reading a compiled message gives the intended fee payer, blockhash, calls
    and merged privileges if and only if there are at most 256 distinct keys,
    at most 255 of them signers, every array length fits a compact-u16, and the
    fee payer is not called as a program.
   */
  lemma CompilationPreservesMeaning(feePayer: Pubkey, blockhash: Pubkey, ixs: seq<Instruction>)
    ensures Decode(MessageBytes(Compiled(feePayer, blockhash, ixs)))
              == Some(Intended(feePayer, blockhash, ixs))
       <==> Expressible(feePayer, ixs)
  {
    MessageWritten(Compiled(feePayer, blockhash, ixs));
    CompiledEncodable(feePayer, blockhash, ixs);
    var refs := References(feePayer, ixs);
    var order := FirstSeen(refs);
    if Expressible(feePayer, ixs) {
      MeaningPreserved(feePayer, blockhash, ixs);
    } else if |order| > 256 || NumSigners(refs, order) > 255 {
      MeaningLost(feePayer, blockhash, ixs);
    } else if i: nat :| i < |ixs| && ixs[i].program == feePayer {
      FeePayerCalled(feePayer, blockhash, ixs, i);
    }
  }

  lemma CompiledEncodable(feePayer: Pubkey, blockhash: Pubkey, ixs: seq<Instruction>)
    ensures Encodable(Compiled(feePayer, blockhash, ixs)) <==>
            && |FirstSeen(References(feePayer, ixs))| <= MAX_LENGTH && |ixs| <= MAX_LENGTH
            && forall i :: 0 <= i < |ixs| ==> |ixs[i].accounts| <= MAX_LENGTH && |ixs[i].data| <= MAX_LENGTH
  {
    CompiledKeys(feePayer, ixs);
    InstructionsFit(Compiled(feePayer, blockhash, ixs).keys, ixs);
  }

  // ---------------------------------------------------------------------
  // A message that is lost
  // ---------------------------------------------------------------------

  function NumberedKey(i: nat): Pubkey
    requires i < 65536
  {
    [i / 256, i % 256] + seq(30, _ => 0)
  }

  /** One call of program 1 on the accounts 2 to 256, paid for by account 0. */
  function BigCall(): Instruction {
    Instruction(NumberedKey(1), seq(255, j requires 0 <= j < 255 => AccountMeta(NumberedKey(j + 2), false, false)), [])
  }

  /** A list that holds the first n numbered keys is at least that long. */
  lemma {:induction false} Crowded(keys: seq<Pubkey>, n: nat)
    requires n <= 65536 && forall i :: 0 <= i < n ==> NumberedKey(i) in keys
    ensures |keys| >= n
    decreases n
  {
    if n > 0 {
      var j :| 0 <= j < |keys| && keys[j] == NumberedKey(n - 1);
      var rest := keys[..j] + keys[j + 1..];
      forall i | 0 <= i < n - 1 ensures NumberedKey(i) in rest {
        KeysDiffer(i, n - 1);
        var k :| 0 <= k < |keys| && keys[k] == NumberedKey(i);
        assert rest[if k < j then k else k - 1] == NumberedKey(i);
      }
      Crowded(rest, n - 1);
    }
  }

  lemma KeysDiffer(i: nat, j: nat)
    requires i < j < 65536
    ensures NumberedKey(i) != NumberedKey(j)
  {
    assert NumberedKey(i)[0] == i / 256 && NumberedKey(i)[1] == i % 256;
    assert NumberedKey(j)[0] == j / 256 && NumberedKey(j)[1] == j % 256;
  }

  /** The compiler accepts an instruction with 257 distinct keys, and what it writes means something else. */
  lemma BigCallIsLost(blockhash: Pubkey)
    ensures Decode(MessageBytes(Compiled(NumberedKey(0), blockhash, [BigCall()])))
         != Some(Intended(NumberedKey(0), blockhash, [BigCall()]))
  {
    var ixs := [BigCall()];
    var order := FirstSeen(References(NumberedKey(0), ixs));
    forall i: nat | i < 257 ensures NumberedKey(i) in order {
      KeysMentioned(NumberedKey(0), ixs, NumberedKey(i));
      if i > 1 {
        assert ixs[0].accounts[i - 2].key == NumberedKey(i);
      }
      assert i > 0 ==> Mentions(ixs[0], NumberedKey(i));
    }
    Crowded(order, 257);
    CompilationPreservesMeaning(NumberedKey(0), blockhash, ixs);
  }

  // ---------------------------------------------------------------------
  // What is asked for, instruction by instruction
  // ---------------------------------------------------------------------

  /** Account j of instruction i, if there is one, satisfies p. */
  predicate AccountAt(ixs: seq<Instruction>, i: nat, j: nat, p: AccountMeta -> bool) {
    i < |ixs| && j < |ixs[i].accounts| && p(ixs[i].accounts[j])
  }

  ghost predicate SomeAccount(ixs: seq<Instruction>, p: AccountMeta -> bool) {
    exists i: nat, j: nat :: AccountAt(ixs, i, j, p)
  }

  ghost predicate SomeOf(refs: seq<AccountMeta>, p: AccountMeta -> bool) {
    exists i :: 0 <= i < |refs| && p(refs[i])
  }

  lemma SomeOfConcat(a: seq<AccountMeta>, b: seq<AccountMeta>, p: AccountMeta -> bool)
    ensures SomeOf(a + b, p) <==> SomeOf(a, p) || SomeOf(b, p)
  {
    if i :| 0 <= i < |a| && p(a[i]) {
      assert p((a + b)[i]);
    }
    if i :| 0 <= i < |b| && p(b[i]) {
      assert p((a + b)[|a| + i]);
    }
    if i :| 0 <= i < |a + b| && p((a + b)[i]) {
      assert if i < |a| then p(a[i]) else p(b[i - |a|]);
    }
  }

  lemma {:induction false} SomeOfAccounts(ixs: seq<Instruction>, p: AccountMeta -> bool)
    ensures SomeOf(Accounts(ixs), p) <==> SomeAccount(ixs, p)
    decreases |ixs|
  {
    if ixs != [] {
      var n := |ixs| - 1;
      SomeOfAccounts(ixs[..n], p);
      SomeOfConcat(Accounts(ixs[..n]), ixs[n].accounts, p);
      SomeAccountSnoc(ixs, p);
    }
  }

  lemma SomeAccountSnoc(ixs: seq<Instruction>, p: AccountMeta -> bool)
    requires ixs != []
    ensures var n := |ixs| - 1;
            SomeAccount(ixs, p) <==> SomeAccount(ixs[..n], p) || SomeOf(ixs[n].accounts, p)
  {
    var n := |ixs| - 1;
    if i: nat, j: nat :| AccountAt(ixs, i, j, p) {
      assert if i < n then AccountAt(ixs[..n], i, j, p) else p(ixs[n].accounts[j]);
    }
    if i: nat, j: nat :| AccountAt(ixs[..n], i, j, p) {
      assert AccountAt(ixs, i, j, p);
    }
    if j :| 0 <= j < |ixs[n].accounts| && p(ixs[n].accounts[j]) {
      assert AccountAt(ixs, n, j, p);
    }
  }

  ghost predicate SomeProgram(ixs: seq<Instruction>, p: AccountMeta -> bool) {
    exists i :: 0 <= i < |ixs| && p(AccountMeta(ixs[i].program, false, false))
  }

  lemma {:induction false} SomeOfPrograms(ixs: seq<Instruction>, p: AccountMeta -> bool)
    ensures SomeOf(Programs(ixs), p) <==> SomeProgram(ixs, p)
    decreases |ixs|
  {
    if ixs != [] {
      var n := |ixs| - 1;
      SomeOfPrograms(ixs[..n], p);
      SomeOfConcat(Programs(ixs[..n]), [AccountMeta(ixs[n].program, false, false)], p);
      SomeOfOne(AccountMeta(ixs[n].program, false, false), p);
      assert forall i :: 0 <= i < n ==> ixs[..n][i] == ixs[i];
    }
  }

  lemma SomeOfOne(a: AccountMeta, p: AccountMeta -> bool)
    ensures SomeOf([a], p) <==> p(a)
  {
    if p(a) {
      assert p([a][0]);
    }
  }

  /** A reference is to the fee payer, an account of an instruction, or a program. */
  lemma SomeReference(feePayer: Pubkey, ixs: seq<Instruction>, p: AccountMeta -> bool)
    ensures SomeOf(References(feePayer, ixs), p) <==>
            p(AccountMeta(feePayer, true, true)) || SomeAccount(ixs, p) || SomeProgram(ixs, p)
  {
    var payer := AccountMeta(feePayer, true, true);
    SomeOfConcat([payer] + Accounts(ixs), Programs(ixs), p);
    SomeOfConcat([payer], Accounts(ixs), p);
    SomeOfOne(payer, p);
    SomeOfAccounts(ixs, p);
    SomeOfPrograms(ixs, p);
  }

  function RefersTo(k: Pubkey): AccountMeta -> bool {
    (a: AccountMeta) => a.key == k
  }

  function SignerFor(k: Pubkey): AccountMeta -> bool {
    (a: AccountMeta) => a.key == k && a.signer
  }

  function WriterFor(k: Pubkey): AccountMeta -> bool {
    (a: AccountMeta) => a.key == k && a.writable
  }

  lemma WantedIsSome(refs: seq<AccountMeta>, k: Pubkey)
    ensures k in FirstSeen(refs) <==> SomeOf(refs, RefersTo(k))
    ensures Signs(refs, k) <==> SomeOf(refs, SignerFor(k))
    ensures Writes(refs, k) <==> SomeOf(refs, WriterFor(k))
  {
    FirstSeenExact(refs);
  }

  ghost predicate Invokes(ixs: seq<Instruction>, k: Pubkey) {
    exists i :: 0 <= i < |ixs| && ixs[i].program == k
  }

  /**
    Who is in the message asked for, and with what: the fee payer, who signs
    and is written; every account, signing or written if any mention asks for
    it; and every program, which by itself gets neither.
   */
  lemma IntendedExactly(feePayer: Pubkey, blockhash: Pubkey, ixs: seq<Instruction>, k: Pubkey)
    ensures var m := Intended(feePayer, blockhash, ixs);
            && m.feePayer == feePayer && m.blockhash == blockhash && |m.calls| == |ixs|
            && (k in m.privileges <==> k == feePayer || SomeAccount(ixs, RefersTo(k)) || Invokes(ixs, k))
            && (k in m.privileges ==>
                  && (m.privileges[k].signer <==> k == feePayer || SomeAccount(ixs, SignerFor(k)))
                  && (m.privileges[k].writable <==> k == feePayer || SomeAccount(ixs, WriterFor(k))))
  {
    var refs := References(feePayer, ixs);
    WantedIsSome(refs, k);
    SomeReference(feePayer, ixs, RefersTo(k));
    SomeReference(feePayer, ixs, SignerFor(k));
    SomeReference(feePayer, ixs, WriterFor(k));
    InvokesIsSome(ixs, k);
  }

  lemma InvokesIsSome(ixs: seq<Instruction>, k: Pubkey)
    ensures SomeProgram(ixs, RefersTo(k)) <==> Invokes(ixs, k)
    ensures !SomeProgram(ixs, SignerFor(k))
    ensures !SomeProgram(ixs, WriterFor(k))
  {
  }
}
