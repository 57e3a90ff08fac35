/**
  Base-128 varints: `encodeVarint` and `decodeVarint` of the TypeScript client
  (clients/typescript/src/proto.ts). The same encoding, as compact-u16, prefixes
  the arrays of a Solana message.
 */
module Varints {
  import opened Common

  /** The base-128 digits of n, least significant first, each but the last with its top bit set. */
  function Varint(n: nat): (v: seq<Byte>)
    ensures |v| >= 1
  {
    if n < 128 then [n] else [n % 128 + 128] + Varint(n / 128)
  }

  function Pow128(k: nat): (p: nat)
    ensures p >= 1
  {
    if k == 0 then 1 else 128 * Pow128(k - 1)
  }

  datatype DecodeError = Truncated | Overflow

  datatype Decoded = Decoded(value: nat, n: nat)

  /** The widest varint the decoder reads: ten bytes, as for 64-bit values. */
  const MAX_BYTES: nat := 10

  /** Reads the varint whose bytes from position k on are still to come. */
  function DecodeFrom(buf: seq<Byte>, k: nat): Result<Decoded, DecodeError>
    requires k <= |buf|
    decreases |buf| - k
  {
    if k == |buf| then Err(Truncated)
    else if buf[k] < 128 then Ok(Decoded(buf[k], 1))
    else if k + 1 >= MAX_BYTES then Err(Overflow)
    else
      match DecodeFrom(buf, k + 1)
      case Err(e) => Err(e)
      case Ok(d) => Ok(Decoded(buf[k] - 128 + 128 * d.value, d.n + 1))
  }

  function DecodeVarint(buf: seq<Byte>): Result<Decoded, DecodeError> {
    DecodeFrom(buf, 0)
  }

  // ---------------------------------------------------------------------
  // The loops
  // ---------------------------------------------------------------------

  method EncodeVarint(n: nat) returns (out: seq<Byte>)
    ensures out == Varint(n)
  {
    var value := n;
    out := [];
    while value >= 128
      invariant out + Varint(value) == Varint(n)
    {
      Assoc(out, [value % 128 + 128], Varint(value / 128));
      out := out + [value % 128 + 128];
      value := value / 128;
    }
    out := out + [value];
  }

  /** r is what the decoder returns once `value` has been read from the first i bytes. */
  function Resume(value: nat, i: nat, r: Result<Decoded, DecodeError>): Result<Decoded, DecodeError> {
    match r
    case Err(e) => Err(e)
    case Ok(d) => Ok(Decoded(value + Pow128(i) * d.value, i + d.n))
  }

  /** value and weight are what the loop has come to after i bytes of buf. */
  ghost predicate Reading(buf: seq<Byte>, value: nat, weight: nat, i: nat) {
    && i <= |buf| && i < MAX_BYTES
    && weight == Pow128(i) && value < weight
    && Resume(value, i, DecodeFrom(buf, i)) == DecodeVarint(buf)
  }

  method Decode(buf: seq<Byte>) returns (r: Result<Decoded, DecodeError>)
    ensures r == DecodeVarint(buf)
  {
    var value: nat, weight: nat, i := 0, 1, 0;
    ResumeStart(DecodeVarint(buf));
    while i < |buf|
      invariant i <= |buf| && Reading(buf, value, weight, i)
    {
      if buf[i] < 128 {
        r := LastDigit(buf, value, weight, i);
        return;
      }
      if 7 * (i + 1) > 63 {
        DecodeStep(buf, value, i);
        return Err(Overflow);
      }
      value, weight := NextDigit(buf, value, weight, i);
      i := i + 1;
    }
    return Err(Truncated);
  }

  /**
    The accumulator is `value | low << 7i` in the source; value stays below
    2^(7i), so the shifted bits are clear in it and `|` adds.
   */
  method NextDigit(buf: seq<Byte>, value: nat, weight: nat, i: nat) returns (value': nat, weight': nat)
    requires Reading(buf, value, weight, i) && i < |buf| && buf[i] >= 128 && 7 * (i + 1) <= 63
    ensures Reading(buf, value', weight', i + 1)
  {
    DecodeStep(buf, value, i);
    value', weight' := value + weight * (buf[i] % 128), 128 * weight;
  }

  method LastDigit(buf: seq<Byte>, value: nat, weight: nat, i: nat) returns (r: Result<Decoded, DecodeError>)
    requires Reading(buf, value, weight, i) && i < |buf| && buf[i] < 128
    ensures r == DecodeVarint(buf)
  {
    DecodeStep(buf, value, i);
    r := Ok(Decoded(value + weight * (buf[i] % 128), i + 1));
  }

  /** One byte of the loop: it ends the value, exceeds the limit, or adds seven bits. */
  lemma DecodeStep(buf: seq<Byte>, value: nat, i: nat)
    requires i < |buf| && value < Pow128(i)
    ensures var low, now := buf[i] % 128, Resume(value, i, DecodeFrom(buf, i));
            if buf[i] < 128 then now == Ok(Decoded(value + Pow128(i) * low, i + 1))
            else if 7 * (i + 1) > 63 then now == Err(Overflow)
            else
              && value + Pow128(i) * low < Pow128(i + 1) == 128 * Pow128(i)
              && now == Resume(value + Pow128(i) * low, i + 1, DecodeFrom(buf, i + 1))
  {
    if buf[i] >= 128 && i + 1 < MAX_BYTES {
      assert buf[i] % 128 == buf[i] - 128;
      ResumeStep(value, i, buf[i] % 128, DecodeFrom(buf, i + 1));
    }
  }

  lemma ResumeStart(r: Result<Decoded, DecodeError>)
    ensures Resume(0, 0, r) == r
  {
  }

  lemma ResumeStep(value: nat, i: nat, low: nat, r: Result<Decoded, DecodeError>)
    requires value < Pow128(i) && low < 128
    ensures value + Pow128(i) * low < Pow128(i + 1)
    ensures Resume(value, i, match r case Err(e) => Err(e)
                                    case Ok(d) => Ok(Decoded(low + 128 * d.value, d.n + 1)))
         == Resume(value + Pow128(i) * low, i + 1, r)
  {
    var p := Pow128(i);
    DigitBelow(p, low);
    if r.Ok? {
      Shifted(p, low, r.value.value);
    }
  }

  lemma DigitBelow(p: nat, low: nat)
    requires low < 128
    ensures p * low <= p * 127
  {
  }

  lemma Shifted(p: nat, low: nat, v: nat)
    ensures p * (low + 128 * v) == p * low + (128 * p) * v
  {
  }

  // ---------------------------------------------------------------------
  // Decoding undoes encoding
  // ---------------------------------------------------------------------

  lemma {:induction false} VarintLength(n: nat, k: nat)
    requires k >= 1
    ensures |Varint(n)| <= k <==> n < Pow128(k)
    decreases k
  {
    if n >= 128 {
      if k == 1 {
        assert Pow128(1) == 128 * Pow128(0);
        assert |Varint(n)| >= 2;
      } else {
        VarintLength(n / 128, k - 1);
        assert n / 128 < Pow128(k - 1) <==> n < 128 * Pow128(k - 1);
      }
    } else {
      AtLeast128(k);
    }
  }

  lemma {:induction false} AtLeast128(k: nat)
    requires k >= 1
    ensures Pow128(k) >= 128
  {
    if k > 1 {
      AtLeast128(k - 1);
    }
  }

  lemma {:induction false} DecodeEncoded(buf: seq<Byte>, k: nat, n: nat, rest: seq<Byte>)
    requires k <= |buf| && buf[k..] == Varint(n) + rest && k < MAX_BYTES
    ensures DecodeFrom(buf, k) == if k + |Varint(n)| <= MAX_BYTES then Ok(Decoded(n, |Varint(n)|))
                                  else Err(Overflow)
    decreases n
  {
    assert buf[k] == buf[k..][0] == Varint(n)[0];
    if n >= 128 && k + 1 < MAX_BYTES {
      assert buf[k + 1..] == buf[k..][1..] == Varint(n / 128) + rest;
      DecodeEncoded(buf, k + 1, n / 128, rest);
    }
  }

  /** Every value the ten-byte limit admits, and no other, survives the round trip. */
  lemma VarintRoundTrip(n: nat, rest: seq<Byte>)
    ensures DecodeVarint(Varint(n) + rest) == Ok(Decoded(n, |Varint(n)|)) <==> n < Pow128(MAX_BYTES)
    ensures n < 0x1_0000_0000_0000_0000 ==> n < Pow128(MAX_BYTES)
  {
    var buf := Varint(n) + rest;
    assert buf[0..] == buf;
    DecodeEncoded(buf, 0, n, rest);
    VarintLength(n, MAX_BYTES);
    assert Pow128(10) == 128 * 128 * 128 * 128 * Pow128(6);
    assert Pow128(6) == 128 * 128 * 128 * Pow128(3);
    assert Pow128(3) == 128 * 128 * 128 * Pow128(0);
  }

  /** A proper prefix of an encoding is seen to be incomplete, never misread. */
  lemma {:induction false} VarintPrefix(buf: seq<Byte>, k: nat, n: nat)
    requires k <= |buf| && buf[k..] <= Varint(n) && buf[k..] != Varint(n)
    requires k + |Varint(n)| <= MAX_BYTES
    ensures DecodeFrom(buf, k) == Err(Truncated)
    decreases n
  {
    if k < |buf| {
      assert buf[k] == buf[k..][0] == Varint(n)[0];
      assert buf[k..] == [buf[k]] + buf[k + 1..];
      assert Varint(n) == [Varint(n)[0]] + Varint(n)[1..];
      if n >= 128 {
        assert buf[k + 1..] == buf[k..][1..] <= Varint(n)[1..];
        VarintPrefix(buf, k + 1, n / 128);
      }
    }
  }

  // ---------------------------------------------------------------------
  // What the bytes stand for
  // ---------------------------------------------------------------------

  /** The number whose base-128 digits, least significant first, are the low seven bits of the bytes. */
  function PlaceValue(bytes: seq<Byte>): nat {
    if bytes == [] then 0 else bytes[0] % 128 + 128 * PlaceValue(bytes[1..])
  }

  /** Every byte but the last says that another follows. */
  predicate Terminated(bytes: seq<Byte>) {
    && bytes != []
    && bytes[|bytes| - 1] < 128
    && forall i :: 0 <= i < |bytes| - 1 ==> bytes[i] >= 128
  }

  /** The encoding of n has the value n, ends where it says, and wastes no byte. */
  lemma {:induction false} VarintSpelled(n: nat)
    ensures var v := Varint(n);
            && PlaceValue(v) == n && Terminated(v)
            && (|v| > 1 ==> v[|v| - 1] != 0)
    decreases n
  {
    if n >= 128 {
      VarintSpelled(n / 128);
      var v, rest := Varint(n), Varint(n / 128);
      assert v[1..] == rest;
      assert forall i :: 0 < i < |v| ==> v[i] == rest[i - 1];
    }
  }

  /** From position k, buf begins with the n bytes of a terminated encoding of value. */
  predicate BeginsWith(buf: seq<Byte>, k: nat, value: nat, n: nat) {
    && 1 <= n && k + n <= |buf|
    && Terminated(buf[k..k + n]) && value == PlaceValue(buf[k..k + n])
  }

  lemma LastByte(buf: seq<Byte>, k: nat, value: nat, n: nat)
    requires k < |buf| && buf[k] < 128
    ensures BeginsWith(buf, k, value, n) <==> n == 1 && value == buf[k]
  {
    if n == 1 {
      assert buf[k..k + n] == [buf[k]];
      assert PlaceValue([buf[k]]) == buf[k] % 128 + 128 * PlaceValue([buf[k]][1..]);
    } else if 1 < n && k + n <= |buf| {
      assert buf[k..k + n][0] == buf[k];
    }
  }

  lemma OneByteMore(buf: seq<Byte>, k: nat, value: nat, n: nat)
    requires k < |buf| && buf[k] >= 128
    ensures n >= 1 ==>
              (BeginsWith(buf, k, buf[k] - 128 + 128 * value, n + 1) <==> BeginsWith(buf, k + 1, value, n))
  {
    if n >= 1 && k + 1 + n <= |buf| {
      var all, rest := buf[k..k + (n + 1)], buf[k + 1..k + 1 + n];
      assert all[1..] == rest && all[0] == buf[k];
      assert forall i :: 0 <= i < n ==> rest[i] == all[i + 1];
    }
  }

  /** An encoding that goes on has a value that goes on. */
  lemma GoesOn(buf: seq<Byte>, k: nat, value: nat, n: nat)
    requires k < |buf| && buf[k] >= 128 && BeginsWith(buf, k, value, n)
    ensures n >= 2 && value >= buf[k] - 128 && (value - (buf[k] - 128)) % 128 == 0
  {
    var all := buf[k..k + n];
    assert all[0] == buf[k];
    assert value == buf[k] - 128 + 128 * PlaceValue(all[1..]);
  }

  /** What is decoded is there. */
  lemma {:induction false} DecodedIsThere(buf: seq<Byte>, k: nat)
    requires k <= |buf| && k < MAX_BYTES && DecodeFrom(buf, k).Ok?
    ensures var d := DecodeFrom(buf, k).value; BeginsWith(buf, k, d.value, d.n) && k + d.n <= 10
    decreases |buf| - k
  {
    if buf[k] < 128 {
      LastByte(buf, k, buf[k], 1);
    } else {
      DecodedIsThere(buf, k + 1);
      var r := DecodeFrom(buf, k + 1).value;
      OneByteMore(buf, k, r.value, r.n);
    }
  }

  /** What is there is decoded. */
  lemma {:induction false} ThereIsDecoded(buf: seq<Byte>, k: nat, value: nat, n: nat)
    requires BeginsWith(buf, k, value, n) && k + n <= 10
    ensures DecodeFrom(buf, k) == Ok(Decoded(value, n))
    decreases n
  {
    if buf[k] < 128 {
      LastByte(buf, k, value, n);
    } else {
      GoesOn(buf, k, value, n);
      var v := (value - (buf[k] - 128)) / 128;
      OneByteMore(buf, k, v, n - 1);
      ThereIsDecoded(buf, k + 1, v, n - 1);
    }
  }

  /**
    The decoder reads a value and its width exactly when a terminated encoding
    of it, at most ten bytes long, begins the buffer.
   */
  lemma DecodedExactly(buf: seq<Byte>, d: Decoded)
    ensures DecodeVarint(buf) == Ok(d) <==>
            1 <= d.n <= 10 && d.n <= |buf| && Terminated(buf[..d.n]) && d.value == PlaceValue(buf[..d.n])
  {
    if DecodeVarint(buf) == Ok(d) {
      DecodedIsThere(buf, 0);
    }
    if 1 <= d.n <= 10 && d.n <= |buf| {
      assert buf[0..0 + d.n] == buf[..d.n];
      if Terminated(buf[..d.n]) && d.value == PlaceValue(buf[..d.n]) {
        ThereIsDecoded(buf, 0, d.value, d.n);
      }
    }
  }

  lemma {:induction false} FailsExactly(buf: seq<Byte>, k: nat)
    requires k <= |buf| && k < MAX_BYTES
    requires forall i :: 0 <= i < k ==> buf[i] >= 128
    ensures DecodeFrom(buf, k) == Err(Overflow) <==>
            |buf| >= 10 && forall i :: 0 <= i < 10 ==> buf[i] >= 128
    ensures DecodeFrom(buf, k) == Err(Truncated) <==>
            |buf| < 10 && forall i :: 0 <= i < |buf| ==> buf[i] >= 128
    decreases |buf| - k
  {
    if k < |buf| && buf[k] >= 128 && k + 1 < MAX_BYTES {
      FailsExactly(buf, k + 1);
    }
  }
}
