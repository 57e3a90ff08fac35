/**
  The Solana legacy message format: three header bytes, the account keys, a
  recent blockhash and the instructions, every array preceded by its length as
  a compact-u16.

  This module is the reader's side, written from the format and independent of
  the compiler, together with the plain serialisation it inverts.
 */
module Wire {
  import opened Common
  import opened Varints

  type Pubkey = k: seq<Byte> | |k| == 32 witness seq(32, _ => 0)

  const MAX_LENGTH: nat := 65535

  datatype Header = Header(signers: Byte, readonlySigned: Byte, readonlyUnsigned: Byte)

  datatype RawInstruction = RawInstruction(program: Byte, accounts: seq<Byte>, data: seq<Byte>)

  datatype RawMessage = RawMessage(header: Header, keys: seq<Pubkey>, blockhash: Pubkey,
                                   instructions: seq<RawInstruction>)

  // ---------------------------------------------------------------------
  // Writing
  // ---------------------------------------------------------------------

  function KeyBytes(keys: seq<Pubkey>): seq<Byte> {
    if keys == [] then [] else keys[0] + KeyBytes(keys[1..])
  }

  function InstructionBytes(ix: RawInstruction): seq<Byte> {
    [ix.program] + (Varint(|ix.accounts|) + (ix.accounts + (Varint(|ix.data|) + ix.data)))
  }

  /** A list, element by element. */
  function WriteAll<T>(write: T -> seq<Byte>, xs: seq<T>): seq<Byte> {
    if xs == [] then [] else write(xs[0]) + WriteAll(write, xs[1..])
  }

  function InstructionsBytes(ixs: seq<RawInstruction>): seq<Byte> {
    WriteAll(InstructionBytes, ixs)
  }

  function MessageBytes(m: RawMessage): seq<Byte> {
    [m.header.signers, m.header.readonlySigned, m.header.readonlyUnsigned]
    + (Varint(|m.keys|)
       + (KeyBytes(m.keys)
          + (m.blockhash
             + (Varint(|m.instructions|) + InstructionsBytes(m.instructions)))))
  }

  // ---------------------------------------------------------------------
  // Reading
  // ---------------------------------------------------------------------

  /** A value read, and the bytes after it. */
  datatype Read<+T> = Read(value: T, rest: seq<Byte>)

  function Take(buf: seq<Byte>, n: nat): Option<Read<seq<Byte>>> {
    if |buf| < n then None else Some(Read(buf[..n], buf[n..]))
  }

  /** A compact-u16: at most three bytes and at most 65535. */
  function ReadLength(buf: seq<Byte>): Option<Read<nat>> {
    match DecodeVarint(buf)
    case Err(_) => None
    case Ok(d) =>
      if d.n > 3 || d.value > MAX_LENGTH || d.n > |buf| then None else Some(Read(d.value, buf[d.n..]))
  }

  /** A length and that many bytes. */
  function ReadBlock(buf: seq<Byte>): Option<Read<seq<Byte>>> {
    var n :- ReadLength(buf);
    Take(n.rest, n.value)
  }

  function ReadKeys(buf: seq<Byte>, n: nat): Option<Read<seq<Pubkey>>>
    decreases n
  {
    if n == 0 then Some(Read([], buf))
    else
      var k :- Take(buf, 32);
      var more :- ReadKeys(k.rest, n - 1);
      Some(Read([k.value] + more.value, more.rest))
  }

  function ReadInstruction(buf: seq<Byte>): Option<Read<RawInstruction>> {
    var program :- Take(buf, 1);
    var accounts :- ReadBlock(program.rest);
    var data :- ReadBlock(accounts.rest);
    Some(Read(RawInstruction(program.value[0], accounts.value, data.value), data.rest))
  }

  function ReadAll<T>(read: seq<Byte> -> Option<Read<T>>, buf: seq<Byte>, n: nat): Option<Read<seq<T>>>
    decreases n
  {
    if n == 0 then Some(Read([], buf))
    else
      var x :- read(buf);
      var more :- ReadAll(read, x.rest, n - 1);
      Some(Read([x.value] + more.value, more.rest))
  }

  function ReadInstructions(buf: seq<Byte>, n: nat): Option<Read<seq<RawInstruction>>> {
    ReadAll(ReadInstruction, buf, n)
  }

  function ReadMessage(buf: seq<Byte>): Option<RawMessage> {
    var header :- Take(buf, 3);
    var numKeys :- ReadLength(header.rest);
    var keys :- ReadKeys(numKeys.rest, numKeys.value);
    var blockhash :- Take(keys.rest, 32);
    var numIxs :- ReadLength(blockhash.rest);
    var ixs :- ReadInstructions(numIxs.rest, numIxs.value);
    if ixs.rest != [] then None
    else
      Some(RawMessage(Header(header.value[0], header.value[1], header.value[2]),
                      keys.value, blockhash.value, ixs.value))
  }

  // ---------------------------------------------------------------------
  // Reading undoes writing, exactly within the length limits
  // ---------------------------------------------------------------------

  lemma TakeWritten(x: seq<Byte>, rest: seq<Byte>)
    ensures Take(x + rest, |x|) == Some(Read(x, rest))
  {
    DropPrefix(x, rest);
  }

  lemma LengthWritten(n: nat, rest: seq<Byte>)
    ensures ReadLength(Varint(n) + rest) == if n <= MAX_LENGTH then Some(Read(n, rest)) else None
  {
    var buf := Varint(n) + rest;
    DropPrefix(Varint(n), rest);
    VarintRoundTrip(n, rest);
    if n <= MAX_LENGTH {
      VarintLength(n, 3);
      assert Pow128(3) == 128 * (128 * (128 * Pow128(0)));
    } else if n >= Pow128(MAX_BYTES) {
      VarintLength(n, MAX_BYTES);
      assert buf[0..] == buf;
      DecodeEncoded(buf, 0, n, rest);
    }
  }

  lemma BlockWritten(x: seq<Byte>, rest: seq<Byte>)
    ensures ReadBlock(Varint(|x|) + (x + rest)) == if |x| <= MAX_LENGTH then Some(Read(x, rest)) else None
  {
    LengthWritten(|x|, x + rest);
    TakeWritten(x, rest);
  }

  lemma {:induction false} KeysWritten(keys: seq<Pubkey>, rest: seq<Byte>)
    ensures ReadKeys(KeyBytes(keys) + rest, |keys|) == Some(Read(keys, rest))
    decreases |keys|
  {
    if keys != [] {
      var tail := KeyBytes(keys[1..]);
      Assoc(keys[0], tail, rest);
      TakeWritten(keys[0], tail + rest);
      KeysWritten(keys[1..], rest);
      Front(keys);
    } else {
      assert KeyBytes(keys) + rest == rest;
    }
  }

  predicate Fits(ix: RawInstruction) {
    |ix.accounts| <= MAX_LENGTH && |ix.data| <= MAX_LENGTH
  }

  lemma InstructionWritten(ix: RawInstruction, rest: seq<Byte>)
    ensures ReadInstruction(InstructionBytes(ix) + rest) == if Fits(ix) then Some(Read(ix, rest)) else None
  {
    var data := Varint(|ix.data|) + (ix.data + rest);
    var accounts := Varint(|ix.accounts|) + (ix.accounts + data);
    assert InstructionBytes(ix) + rest == [ix.program] + accounts;
    TakeWritten([ix.program], accounts);
    BlockWritten(ix.accounts, data);
    BlockWritten(ix.data, rest);
  }

  /** read undoes write on the elements that fit, and fails on the others. */
  ghost predicate Undoes<T(!new)>(read: seq<Byte> -> Option<Read<T>>, write: T -> seq<Byte>, fits: T -> bool) {
    forall x, rest :: read(write(x) + rest) == if fits(x) then Some(Read(x, rest)) else None
  }

  ghost predicate AllFit<T>(fits: T -> bool, xs: seq<T>) {
    forall i :: 0 <= i < |xs| ==> fits(xs[i])
  }

  lemma AllFitFrom<T>(fits: T -> bool, xs: seq<T>)
    requires xs != []
    ensures AllFit(fits, xs) <==> fits(xs[0]) && AllFit(fits, xs[1..])
  {
    if fits(xs[0]) && AllFit(fits, xs[1..]) {
      forall i | 0 <= i < |xs| ensures fits(xs[i]) {
        assert i > 0 ==> xs[i] == xs[1..][i - 1];
      }
    }
  }

  /** What undoes the elements undoes the list. */
  lemma {:induction false} AllWritten<T(!new)>(read: seq<Byte> -> Option<Read<T>>, write: T -> seq<Byte>,
                                               fits: T -> bool, xs: seq<T>, rest: seq<Byte>)
    requires Undoes(read, write, fits)
    ensures ReadAll(read, WriteAll(write, xs) + rest, |xs|)
         == if AllFit(fits, xs) then Some(Read(xs, rest)) else None
    decreases |xs|
  {
    if xs == [] {
      assert WriteAll(write, xs) + rest == rest;
    } else {
      var tail := WriteAll(write, xs[1..]);
      Assoc(write(xs[0]), tail, rest);
      AllFitFrom(fits, xs);
      AllWritten(read, write, fits, xs[1..], rest);
      Front(xs);
    }
  }

  lemma InstructionsWritten(ixs: seq<RawInstruction>, rest: seq<Byte>)
    ensures ReadInstructions(InstructionsBytes(ixs) + rest, |ixs|)
         == if AllFit(Fits, ixs) then Some(Read(ixs, rest)) else None
  {
    forall ix, tail
      ensures ReadInstruction(InstructionBytes(ix) + tail) == if Fits(ix) then Some(Read(ix, tail)) else None
    {
      InstructionWritten(ix, tail);
    }
    AllWritten(ReadInstruction, InstructionBytes, Fits, ixs, rest);
  }

  /** Every array is short enough for its compact-u16 length. */
  ghost predicate Encodable(m: RawMessage) {
    && |m.keys| <= MAX_LENGTH
    && |m.instructions| <= MAX_LENGTH
    && AllFit(Fits, m.instructions)
  }

  /** A written message reads back as itself when every length fits, and not at all otherwise. */
  lemma MessageWritten(m: RawMessage)
    ensures ReadMessage(MessageBytes(m)) == if Encodable(m) then Some(m) else None
  {
    var h := [m.header.signers, m.header.readonlySigned, m.header.readonlyUnsigned];
    var ixs := InstructionsBytes(m.instructions);
    var numIxs := Varint(|m.instructions|) + ixs;
    var hash := m.blockhash + numIxs;
    var keys := KeyBytes(m.keys) + hash;
    TakeWritten(h, Varint(|m.keys|) + keys);
    LengthWritten(|m.keys|, keys);
    KeysWritten(m.keys, hash);
    TakeWritten(m.blockhash, numIxs);
    LengthWritten(|m.instructions|, ixs);
    InstructionsWritten(m.instructions, []);
    assert ixs + [] == ixs;
  }

  // ---------------------------------------------------------------------
  // Where everything sits
  // ---------------------------------------------------------------------

  lemma {:induction false} KeyPositions(keys: seq<Pubkey>, i: nat)
    ensures |KeyBytes(keys)| == 32 * |keys|
    ensures i < |keys| ==> KeyBytes(keys)[32 * i..32 * i + 32] == keys[i]
    decreases |keys|
  {
    if keys != [] {
      KeyPositions(keys[1..], if i == 0 then 0 else i - 1);
      if 0 < i < |keys| {
        Inside(keys[0], KeyBytes(keys[1..]), 32 * (i - 1), 32);
      }
    }
  }

  /** A stretch of b, seen in a + b. */
  lemma Inside(a: seq<Byte>, b: seq<Byte>, at: nat, n: nat)
    requires at + n <= |b|
    ensures (a + b)[|a| + at..|a| + at + n] == b[at..at + n]
  {
  }

  /** b, seen in a + (b + c). */
  lemma Between(a: seq<Byte>, b: seq<Byte>, c: seq<Byte>)
    ensures (a + (b + c))[|a|..|a| + |b|] == b
    ensures (a + (b + c))[|a| + |b|..] == c
  {
    Inside(a, b + c, 0, |b|);
    assert (b + c)[..|b|] == b;
    Assoc(a, b, c);
    DropPrefix(a + b, c);
  }

  /** Where the keys begin: after the three counts and their own number. */
  function KeysAt(m: RawMessage): nat {
    3 + |Varint(|m.keys|)|
  }

  /**
    The layout, byte by byte: number of signatures, of read-only signers and of
    read-only others; the number of keys; key i in bytes 32i to 32i+31 after
    it; the blockhash; the number of instructions; the instructions.
   */
  lemma MessageLayout(m: RawMessage, i: nat)
    ensures var b, at := MessageBytes(m), KeysAt(m);
            && |b| >= at + 32 * |m.keys| + 32
            && b[0] == m.header.signers && b[1] == m.header.readonlySigned && b[2] == m.header.readonlyUnsigned
            && b[3..at] == Varint(|m.keys|)
            && (i < |m.keys| ==> b[at + 32 * i..at + 32 * i + 32] == m.keys[i])
            && b[at + 32 * |m.keys|..at + 32 * |m.keys| + 32] == m.blockhash
            && b[at + 32 * |m.keys| + 32..] == Varint(|m.instructions|) + InstructionsBytes(m.instructions)
  {
    var head := [m.header.signers, m.header.readonlySigned, m.header.readonlyUnsigned];
    var tail := Varint(|m.instructions|) + InstructionsBytes(m.instructions);
    KeyPositions(m.keys, i);
    FiveParts(head, Varint(|m.keys|), KeyBytes(m.keys), m.blockhash, tail,
              if i < |m.keys| then 32 * i else 0, if i < |m.keys| then 32 else 0);
  }

  /** Five parts in a row, and a stretch of the third. */
  lemma FiveParts(head: seq<Byte>, count: seq<Byte>, keys: seq<Byte>, hash: seq<Byte>, tail: seq<Byte>,
                  from: nat, n: nat)
    requires from + n <= |keys|
    ensures var b := head + (count + (keys + (hash + tail)));
            var at := |head| + |count|;
            && |b| == at + |keys| + |hash| + |tail|
            && b[..|head|] == head
            && b[|head|..at] == count
            && b[at + from..at + from + n] == keys[from..from + n]
            && b[at + |keys|..at + |keys| + |hash|] == hash
            && b[at + |keys| + |hash|..] == tail
            && forall j :: 0 <= j < |head| ==> b[j] == head[j]
  {
    var rest := keys + (hash + tail);
    Between(head, count, rest);
    Assoc(head, count, rest);
    LayoutAfter(head + count, keys, hash, tail);
    Stretch(head + count, keys, hash + tail, from, n);
  }

  lemma LayoutAfter(front: seq<Byte>, keys: seq<Byte>, hash: seq<Byte>, tail: seq<Byte>)
    ensures (front + (keys + (hash + tail)))[|front| + |keys|..|front| + |keys| + |hash|] == hash
    ensures (front + (keys + (hash + tail)))[|front| + |keys| + |hash|..] == tail
  {
    Assoc(front, keys, hash + tail);
    Between(front + keys, hash, tail);
  }

  lemma Stretch(front: seq<Byte>, mid: seq<Byte>, tail: seq<Byte>, at: nat, n: nat)
    requires at + n <= |mid|
    ensures (front + (mid + tail))[|front| + at..|front| + at + n] == mid[at..at + n]
  {
    Inside(front, mid + tail, at, n);
    assert (mid + tail)[at..at + n] == mid[at..at + n];
  }

  /** One instruction: its program's index, its accounts' indices by number, its data by length. */
  lemma InstructionLayout(ix: RawInstruction)
    ensures var b := InstructionBytes(ix);
            var accounts := 1 + |Varint(|ix.accounts|)|;
            var data := accounts + |ix.accounts|;
            && |b| >= data && b[0] == ix.program
            && b[1..accounts] == Varint(|ix.accounts|)
            && b[accounts..data] == ix.accounts
            && b[data..] == Varint(|ix.data|) + ix.data
  {
    var n := Varint(|ix.accounts|);
    var tail := Varint(|ix.data|) + ix.data;
    Between([ix.program], n, ix.accounts + tail);
    Assoc([ix.program], n, ix.accounts + tail);
    Between([ix.program] + n, ix.accounts, tail);
  }

  /** Instructions follow one another with nothing in between. */
  lemma {:induction false} InstructionsFollow(ixs: seq<RawInstruction>, i: nat)
    requires i < |ixs|
    ensures InstructionsBytes(ixs)
         == InstructionsBytes(ixs[..i]) + InstructionBytes(ixs[i]) + InstructionsBytes(ixs[i + 1..])
    decreases i
  {
    if i == 0 {
      assert ixs[..0] == [];
      assert [] + InstructionBytes(ixs[0]) == InstructionBytes(ixs[0]);
    } else {
      InstructionsFollow(ixs[1..], i - 1);
      assert ixs[1..][..i - 1] == ixs[..i][1..] && ixs[1..][i..] == ixs[i + 1..];
      var a := InstructionBytes(ixs[0]);
      var b, c, d := InstructionsBytes(ixs[..i][1..]), InstructionBytes(ixs[i]), InstructionsBytes(ixs[i + 1..]);
      assert InstructionsBytes(ixs[..i]) == a + b;
      Assoc(a, b, c);
      Assoc(a, b + c, d);
    }
  }
}
