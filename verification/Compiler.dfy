/**
  `compileMessage` and `appendShortVec` (walletsolana/tx.go) as they run: maps
  filled and slices grown loop by loop. `CompileMessage` is proved to produce
  exactly the message that `Message.Compiled` describes, and never to take its
  error return.
 */
module Compiler {
  import opened Common
  import opened Varints
  import opened Wire
  import opened Message

  datatype CompiledMessage = CompiledMessage(accountKeys: seq<Pubkey>, numSigners: nat, serialized: seq<Byte>)

  datatype CompileError = ProgramNotListed

  method AppendShortVec(dst: seq<Byte>, length: nat) returns (out: seq<Byte>)
    ensures out == dst + Varint(length)
  {
    var n := length;
    out := dst;
    while true
      invariant out + Varint(n) == dst + Varint(length)
      decreases n
    {
      var b := n % 128;
      if n / 128 == 0 {
        return out + [b];
      }
      Assoc(out, [b + 128], Varint(n / 128));
      out := out + [b + 128];
      n := n / 128;
    }
  }

  // ---------------------------------------------------------------------
  // Merging references
  // ---------------------------------------------------------------------

  /** order and merged are what the references seen so far amount to. */
  ghost predicate Merging(seen: seq<AccountMeta>, order: seq<Pubkey>, merged: map<Pubkey, AccountMeta>) {
    && order == FirstSeen(seen)
    && (forall k :: k in merged <==> k in order)
    && (forall k :: k in merged ==> merged[k] == AccountMeta(k, Signs(seen, k), Writes(seen, k)))
  }

  lemma SeenSnoc(seen: seq<AccountMeta>, m: AccountMeta, k: Pubkey)
    ensures FirstSeen(seen + [m]) ==
            if m.key in FirstSeen(seen) then FirstSeen(seen) else FirstSeen(seen) + [m.key]
    ensures Signs(seen + [m], k) <==> Signs(seen, k) || (m.key == k && m.signer)
    ensures Writes(seen + [m], k) <==> Writes(seen, k) || (m.key == k && m.writable)
    ensures k !in FirstSeen(seen) ==> !Signs(seen, k) && !Writes(seen, k)
  {
    var all := seen + [m];
    assert all[..|seen|] == seen && all[|seen|] == m;
    assert forall i :: 0 <= i < |seen| ==> all[i] == seen[i];
    FirstSeenExact(seen);
  }

  method Add(order: seq<Pubkey>, merged: map<Pubkey, AccountMeta>, m: AccountMeta, ghost seen: seq<AccountMeta>)
    returns (order': seq<Pubkey>, merged': map<Pubkey, AccountMeta>)
    requires Merging(seen, order, merged)
    ensures Merging(seen + [m], order', merged')
  {
    order', merged' := order, merged;
    forall k {
      SeenSnoc(seen, m, k);
    }
    if m.key in merged {
      var a := merged[m.key];
      merged' := merged[m.key := AccountMeta(m.key, a.signer || m.signer, a.writable || m.writable)];
    } else {
      merged' := merged[m.key := m];
      order' := order + [m.key];
    }
  }

  /** The first pass: the accounts of every instruction, in order. */
  method AddAccounts(ixs: seq<Instruction>, order0: seq<Pubkey>, merged0: map<Pubkey, AccountMeta>,
                     ghost seen0: seq<AccountMeta>)
    returns (order: seq<Pubkey>, merged: map<Pubkey, AccountMeta>)
    requires Merging(seen0, order0, merged0)
    ensures Merging(seen0 + Accounts(ixs), order, merged)
  {
    order, merged := order0, merged0;
    assert seen0 + [] == seen0;
    var i := 0;
    while i < |ixs|
      invariant 0 <= i <= |ixs|
      invariant Merging(seen0 + Accounts(ixs[..i]), order, merged)
    {
      ghost var seen := seen0 + Accounts(ixs[..i]);
      var metas := ixs[i].accounts;
      assert seen + metas[..0] == seen;
      var j := 0;
      while j < |metas|
        invariant 0 <= j <= |metas|
        invariant Merging(seen + metas[..j], order, merged)
      {
        order, merged := Add(order, merged, metas[j], seen + metas[..j]);
        assert seen + metas[..j] + [metas[j]] == seen + metas[..j + 1];
        j := j + 1;
      }
      assert metas[..j] == metas;
      assert ixs[..i + 1][..i] == ixs[..i];
      Assoc(seen0, Accounts(ixs[..i]), metas);
      i := i + 1;
    }
    assert ixs[..i] == ixs;
  }

  /** The second pass: the program ids, read-only. */
  method AddPrograms(ixs: seq<Instruction>, order0: seq<Pubkey>, merged0: map<Pubkey, AccountMeta>,
                     ghost seen0: seq<AccountMeta>)
    returns (order: seq<Pubkey>, merged: map<Pubkey, AccountMeta>)
    requires Merging(seen0, order0, merged0)
    ensures Merging(seen0 + Programs(ixs), order, merged)
  {
    order, merged := order0, merged0;
    assert seen0 + [] == seen0;
    var i := 0;
    while i < |ixs|
      invariant 0 <= i <= |ixs|
      invariant Merging(seen0 + Programs(ixs[..i]), order, merged)
    {
      var m := AccountMeta(ixs[i].program, false, false);
      order, merged := Add(order, merged, m, seen0 + Programs(ixs[..i]));
      assert ixs[..i + 1][..i] == ixs[..i];
      Assoc(seen0, Programs(ixs[..i]), [m]);
      i := i + 1;
    }
    assert ixs[..i] == ixs;
  }

  // ---------------------------------------------------------------------
  // Ranking and indexing
  // ---------------------------------------------------------------------

  method Partition(order: seq<Pubkey>, merged: map<Pubkey, AccountMeta>, ghost refs: seq<AccountMeta>)
    returns (ws: seq<Pubkey>, rs: seq<Pubkey>, wn: seq<Pubkey>, rn: seq<Pubkey>)
    requires Merging(refs, order, merged)
    ensures ws == Class(refs, order, WS) && rs == Class(refs, order, RS)
    ensures wn == Class(refs, order, WN) && rn == Class(refs, order, RN)
  {
    ws, rs, wn, rn := [], [], [], [];
    var i := 0;
    while i < |order|
      invariant 0 <= i <= |order|
      invariant ws == Class(refs, order[..i], WS) && rs == Class(refs, order[..i], RS)
      invariant wn == Class(refs, order[..i], WN) && rn == Class(refs, order[..i], RN)
    {
      assert order[..i + 1][..i] == order[..i] && order[..i + 1][i] == order[i];
      assert order[i] in order;
      var a := merged[order[i]];
      assert Wanted(refs, order[i]) == Privilege(a.signer, a.writable);
      if a.signer && a.writable {
        ws := ws + [a.key];
      } else if a.signer {
        rs := rs + [a.key];
      } else if a.writable {
        wn := wn + [a.key];
      } else {
        rn := rn + [a.key];
      }
      i := i + 1;
    }
    assert order[..i] == order;
  }

  method BuildIndex(keys: seq<Pubkey>) returns (index: map<Pubkey, nat>)
    requires Distinct(keys)
    ensures forall k :: k in index <==> k in keys
    ensures forall k :: k in keys ==> index[k] == Index(keys, k)
  {
    index := map[];
    var i := 0;
    while i < |keys|
      invariant 0 <= i <= |keys|
      invariant forall k :: k in index <==> k in keys[..i]
      invariant forall k :: k in index ==> index[k] == Index(keys, k)
    {
      IndexUnique(keys, i);
      index := index[keys[i] := i];
      i := i + 1;
    }
    assert keys[..i] == keys;
  }

  // ---------------------------------------------------------------------
  // Writing
  // ---------------------------------------------------------------------

  method AppendKeys(dst: seq<Byte>, keys: seq<Pubkey>) returns (out: seq<Byte>)
    ensures out == dst + KeyBytes(keys)
  {
    out := dst;
    var i := 0;
    while i < |keys|
      invariant 0 <= i <= |keys|
      invariant out + KeyBytes(keys[i..]) == dst + KeyBytes(keys)
    {
      assert keys[i..][1..] == keys[i + 1..];
      Assoc(out, keys[i], KeyBytes(keys[i + 1..]));
      out := out + keys[i];
      i := i + 1;
    }
    assert keys[i..] == [] && out + [] == out;
  }

  method AppendInstruction(dst: seq<Byte>, index: map<Pubkey, nat>, ix: Instruction, ghost keys: seq<Pubkey>)
    returns (r: Result<seq<Byte>, CompileError>)
    requires forall k :: k in keys ==> k in index && index[k] == Index(keys, k)
    requires forall k :: Mentions(ix, k) ==> k in keys
    ensures r == Ok(dst + InstructionBytes(Encode(keys, ix)))
  {
    assert Mentions(ix, ix.program);
    if ix.program !in index {
      return Err(ProgramNotListed);
    }
    ghost var raw := Encode(keys, ix);
    var buf := dst + [Truncate(index[ix.program])];
    buf := AppendShortVec(buf, |ix.accounts|);
    ghost var start := buf;
    var j := 0;
    while j < |ix.accounts|
      invariant 0 <= j <= |ix.accounts|
      invariant buf == start + raw.accounts[..j]
    {
      assert Mentions(ix, ix.accounts[j].key);
      buf := buf + [Truncate(index[ix.accounts[j].key])];
      assert raw.accounts[..j + 1] == raw.accounts[..j] + [raw.accounts[j]];
      j := j + 1;
    }
    assert raw.accounts[..j] == raw.accounts;
    buf := AppendShortVec(buf, |ix.data|);
    InstructionParts(dst, raw);
    return Ok(buf + ix.data);
  }

  lemma InstructionParts(dst: seq<Byte>, ix: RawInstruction)
    ensures dst + [ix.program] + Varint(|ix.accounts|) + ix.accounts + Varint(|ix.data|) + ix.data
         == dst + InstructionBytes(ix)
  {
  }

  lemma MessageParts(m: RawMessage)
    ensures [m.header.signers, m.header.readonlySigned, m.header.readonlyUnsigned]
            + Varint(|m.keys|) + KeyBytes(m.keys) + m.blockhash
            + Varint(|m.instructions|) + InstructionsBytes(m.instructions)
         == MessageBytes(m)
  {
  }

  method AppendInstructions(dst: seq<Byte>, index: map<Pubkey, nat>, ixs: seq<Instruction>,
                            ghost keys: seq<Pubkey>)
    returns (r: Result<seq<Byte>, CompileError>)
    requires forall k :: k in keys ==> k in index && index[k] == Index(keys, k)
    requires forall i, k :: 0 <= i < |ixs| && Mentions(ixs[i], k) ==> k in keys
    ensures r == Ok(dst + InstructionsBytes(EncodeAll(keys, ixs)))
  {
    ghost var raws := EncodeAll(keys, ixs);
    var buf := dst;
    var i := 0;
    while i < |ixs|
      invariant 0 <= i <= |ixs|
      invariant buf + InstructionsBytes(raws[i..]) == dst + InstructionsBytes(raws)
    {
      var one := AppendInstruction(buf, index, ixs[i], keys);
      assert raws[i..][1..] == raws[i + 1..] && raws[i..][0] == raws[i];
      Assoc(buf, InstructionBytes(raws[i]), InstructionsBytes(raws[i + 1..]));
      buf := one.value;
      i := i + 1;
    }
    assert raws[i..] == [] && buf + [] == buf;
    return Ok(buf);
  }

  /** The two passes and the ranking. */
  method Rank(feePayer: Pubkey, ixs: seq<Instruction>)
    returns (ws: seq<Pubkey>, rs: seq<Pubkey>, wn: seq<Pubkey>, rn: seq<Pubkey>)
    ensures var refs := References(feePayer, ixs);
            var order := FirstSeen(refs);
            && ws == Class(refs, order, WS) && rs == Class(refs, order, RS)
            && wn == Class(refs, order, WN) && rn == Class(refs, order, RN)
  {
    var payer := AccountMeta(feePayer, true, true);
    var order, merged := Add([], map[], payer, []);
    assert [] + [payer] == [payer];
    order, merged := AddAccounts(ixs, order, merged, [payer]);
    order, merged := AddPrograms(ixs, order, merged, [payer] + Accounts(ixs));
    ws, rs, wn, rn := Partition(order, merged, References(feePayer, ixs));
  }

  /** Writes the header, the keys, the blockhash and the instructions. */
  method Serialize(header: Header, keys: seq<Pubkey>, blockhash: Pubkey, ixs: seq<Instruction>)
    returns (r: Result<seq<Byte>, CompileError>)
    requires Distinct(keys)
    requires forall i, k :: 0 <= i < |ixs| && Mentions(ixs[i], k) ==> k in keys
    ensures r == Ok(MessageBytes(RawMessage(header, keys, blockhash, EncodeAll(keys, ixs))))
  {
    var index := BuildIndex(keys);
    var buf := [header.signers, header.readonlySigned, header.readonlyUnsigned];
    buf := AppendShortVec(buf, |keys|);
    buf := AppendKeys(buf, keys);
    buf := buf + blockhash;
    buf := AppendShortVec(buf, |ixs|);
    r := AppendInstructions(buf, index, ixs, keys);
    MessageParts(RawMessage(header, keys, blockhash, EncodeAll(keys, ixs)));
  }

  /** Every key that an instruction mentions is among the compiled keys. */
  lemma AllListed(feePayer: Pubkey, blockhash: Pubkey, ixs: seq<Instruction>)
    ensures var keys := Compiled(feePayer, blockhash, ixs).keys;
            && Distinct(keys)
            && forall i, k :: 0 <= i < |ixs| && Mentions(ixs[i], k) ==> k in keys
  {
    var keys := Compiled(feePayer, blockhash, ixs).keys;
    CompiledKeys(feePayer, ixs);
    forall i, k | 0 <= i < |ixs| && Mentions(ixs[i], k) ensures k in keys {
      KeysMentioned(feePayer, ixs, k);
    }
  }

  method CompileMessage(feePayer: Pubkey, blockhash: Pubkey, ixs: seq<Instruction>)
    returns (r: Result<CompiledMessage, CompileError>)
    ensures r.Ok?
    ensures r.value.accountKeys == Compiled(feePayer, blockhash, ixs).keys
    ensures r.value.serialized == MessageBytes(Compiled(feePayer, blockhash, ixs))
    ensures var refs := References(feePayer, ixs);
            r.value.numSigners == NumSigners(refs, FirstSeen(refs))
  {
    var ws, rs, wn, rn := Rank(feePayer, ixs);
    var keys := ws + rs + wn + rn;
    var numSigners := |ws| + |rs|;
    AllListed(feePayer, blockhash, ixs);
    var header := Header(Truncate(numSigners), Truncate(|rs|), Truncate(|rn|));
    var written := Serialize(header, keys, blockhash, ixs);
    return Ok(CompiledMessage(keys, numSigners, written.value));
  }
}
