/**
  Base58 (wallet/base58.go), with the Bitcoin and Solana alphabet: unbounded
  integers written in base 58, plus one '1' for every leading zero byte.

  Encoding and decoding are the same conversion between two bases, run in
  opposite directions. `ConvertInverse` proves that it undoes itself; the round
  trips of `Encode58` and `Decode58` follow, with the exact inputs they hold on.
 */
module Base58 {
  import opened Common

  // ---------------------------------------------------------------------
  // Numerals
  // ---------------------------------------------------------------------

  ghost predicate Numeral(ds: seq<nat>, base: nat) {
    base >= 2 && forall i :: 0 <= i < |ds| ==> ds[i] < base
  }

  /** The number that ds denotes, most significant digit first. */
  function Value(ds: seq<nat>, base: nat): nat {
    if ds == [] then 0 else Value(ds[..|ds| - 1], base) * base + ds[|ds| - 1]
  }

  /** The digits of n, most significant first and without leading zeros; none for 0. */
  function Digits(n: nat, base: nat): (ds: seq<nat>)
    requires base >= 2
    ensures Numeral(ds, base)
    ensures ds == [] <==> n == 0
    ensures ds != [] ==> ds[0] != 0
    decreases n
  {
    if n == 0 then []
    else
      DivSmaller(n, base);
      Digits(n / base, base) + [n % base]
  }

  lemma DivSmaller(n: nat, base: nat)
    requires base >= 2 && n > 0
    ensures n / base < n && (n / base == 0 ==> n % base != 0)
    ensures n == (n / base) * base + n % base
  {
    assert (n / base) * base >= (n / base) * 2;
  }

  function LeadingZeros(ds: seq<nat>): (z: nat)
    ensures z <= |ds|
    ensures forall i :: 0 <= i < z ==> ds[i] == 0
    ensures z < |ds| ==> ds[z] != 0
  {
    if ds == [] || ds[0] != 0 then 0 else 1 + LeadingZeros(ds[1..])
  }

  function Zeros(n: nat): seq<nat> {
    seq(n, _ => 0)
  }

  /** Rewrites a numeral in another base, keeping its leading zeros one for one. */
  function Convert(ds: seq<nat>, from: nat, to: nat): seq<nat>
    requires to >= 2
  {
    Zeros(LeadingZeros(ds)) + Digits(Value(ds, from), to)
  }

  lemma DivModOf(v: nat, base: nat, d: nat)
    requires d < base
    ensures (v * base + d) / base == v && (v * base + d) % base == d
  {
    var n := v * base + d;
    var q: int := v - n / base;
    assert n == (n / base) * base + n % base;
    assert q * base == n % base - d;
    Multiple(q, base);
  }

  lemma Multiple(q: int, base: int)
    requires -base < q * base < base
    ensures q == 0
  {
  }

  lemma ValueSnoc(ds: seq<nat>, d: nat, base: nat)
    ensures Value(ds + [d], base) == Value(ds, base) * base + d
  {
    assert (ds + [d])[..|ds|] == ds;
  }

  lemma {:induction false} ValueOfDigits(n: nat, base: nat)
    requires base >= 2
    ensures Value(Digits(n, base), base) == n
    decreases n
  {
    if n > 0 {
      DivSmaller(n, base);
      ValueOfDigits(n / base, base);
      ValueSnoc(Digits(n / base, base), n % base, base);
    }
  }

  lemma {:induction false} DigitsOfValue(ds: seq<nat>, base: nat)
    requires Numeral(ds, base) && (ds != [] ==> ds[0] != 0)
    ensures Digits(Value(ds, base), base) == ds
    ensures ds != [] ==> Value(ds, base) > 0
  {
    if ds != [] {
      var init, d := ds[..|ds| - 1], ds[|ds| - 1];
      assert ds == init + [d];
      if init != [] {
        assert init[0] == ds[0];
        DigitsOfValue(init, base);
      }
      PushDigit(init, d, base);
    }
  }

  lemma PushDigit(ds: seq<nat>, d: nat, base: nat)
    requires d < base && base >= 2 && (Value(ds, base) > 0 || d > 0)
    ensures Value(ds + [d], base) > 0
    ensures Digits(Value(ds + [d], base), base) == Digits(Value(ds, base), base) + [d]
  {
    ValueSnoc(ds, d, base);
    DigitsSnoc(Value(ds, base), d, base);
  }

  lemma DigitsSnoc(v: nat, d: nat, base: nat)
    requires d < base && base >= 2 && (v > 0 || d > 0)
    ensures v * base + d > 0
    ensures Digits(v * base + d, base) == Digits(v, base) + [d]
  {
    DivModOf(v, base, d);
    assert v * base >= v;
  }

  lemma {:induction false} ValueSkipsZeros(z: nat, ds: seq<nat>, base: nat)
    ensures Value(Zeros(z) + ds, base) == Value(ds, base)
    decreases z + |ds|
  {
    var all := Zeros(z) + ds;
    if ds == [] {
      if z > 0 {
        assert all[..z - 1] == Zeros(z - 1) + [];
        ValueSkipsZeros(z - 1, [], base);
      }
    } else {
      assert all[..|all| - 1] == Zeros(z) + ds[..|ds| - 1];
      ValueSkipsZeros(z, ds[..|ds| - 1], base);
    }
  }

  lemma {:induction false} LeadingZerosOf(z: nat, ds: seq<nat>)
    requires ds != [] ==> ds[0] != 0
    ensures LeadingZeros(Zeros(z) + ds) == z
  {
    var all := Zeros(z) + ds;
    if z > 0 {
      assert all[1..] == Zeros(z - 1) + ds;
      LeadingZerosOf(z - 1, ds);
    } else {
      assert all == ds;
    }
  }

  /** Changing the base and changing it back restores every digit, leading zeros included. */
  lemma ConvertInverse(ds: seq<nat>, from: nat, to: nat)
    requires Numeral(ds, from) && to >= 2
    ensures Numeral(Convert(ds, from, to), to)
    ensures Convert(Convert(ds, from, to), to, from) == ds
  {
    var z := LeadingZeros(ds);
    var core := ds[z..];
    assert ds == Zeros(z) + core;
    ValueSkipsZeros(z, core, from);
    var v := Value(core, from);
    ValueOfDigits(v, to);
    ValueSkipsZeros(z, Digits(v, to), to);
    LeadingZerosOf(z, Digits(v, to));
    DigitsOfValue(core, from);
  }

  // ---------------------------------------------------------------------
  // The alphabet
  // ---------------------------------------------------------------------

  const RADIX: nat := 58

  /**
    The symbol of digit d. The alphabet 1-9 A-Z a-z, without the look-alikes
    0, I, O and l, is written as its six runs of consecutive codes.
   */
  function Symbol(d: nat): char
    requires d < RADIX
  {
    if d < 9 then Nth('1', d)
    else if d < 17 then Nth('A', d - 9)
    else if d < 22 then Nth('J', d - 17)
    else if d < 33 then Nth('P', d - 22)
    else if d < 44 then Nth('a', d - 33)
    else Nth('m', d - 44)
  }

  /** The k-th character from c on. */
  function Nth(c: char, k: nat): char
    requires c as int + k < 128
  {
    (c as int + k) as char
  }

  /** strings.IndexRune on the alphabet: the digit of c, if it is a symbol. */
  function IndexRune(c: char): (i: Option<nat>)
    ensures i.Some? ==> i.value < RADIX && Symbol(i.value) == c
  {
    if '1' <= c <= '9' then Some(c as int - '1' as int)
    else if 'A' <= c <= 'H' then Some(c as int - 'A' as int + 9)
    else if 'J' <= c <= 'N' then Some(c as int - 'J' as int + 17)
    else if 'P' <= c <= 'Z' then Some(c as int - 'P' as int + 22)
    else if 'a' <= c <= 'k' then Some(c as int - 'a' as int + 33)
    else if 'm' <= c <= 'z' then Some(c as int - 'm' as int + 44)
    else None
  }

  lemma IndexOfSymbol(d: nat)
    requires d < RADIX
    ensures IndexRune(Symbol(d)) == Some(d)
  {
  }

  /** A decimal digit or a letter, and none of 0, O, I and l. */
  predicate Unambiguous(c: char) {
    && ('0' <= c <= '9' || 'A' <= c <= 'Z' || 'a' <= c <= 'z')
    && c !in {'0', 'O', 'I', 'l'}
  }

  /** The digits are the unambiguous characters, each once, in the order of their codes. */
  lemma AlphabetExactly(c: char, d: nat, d': nat)
    ensures IndexRune(c).Some? <==> Unambiguous(c)
    ensures Unambiguous(c) <==> exists i: nat :: i < RADIX && Symbol(i) == c
    ensures d < d' < RADIX ==> Symbol(d) < Symbol(d')
    ensures RADIX == 58
  {
    if Unambiguous(c) {
      assert Symbol(IndexRune(c).value) == c;
    }
  }

  predicate InAlphabet(s: string) {
    forall i :: 0 <= i < |s| ==> IndexRune(s[i]).Some?
  }

  function Indices(s: string): (ds: seq<nat>)
    requires InAlphabet(s)
    ensures |ds| == |s| && Numeral(ds, RADIX)
  {
    seq(|s|, i requires 0 <= i < |s| => IndexRune(s[i]).value)
  }

  function Symbols(ds: seq<nat>): (s: string)
    requires Numeral(ds, RADIX)
    ensures |s| == |ds|
  {
    seq(|ds|, i requires 0 <= i < |ds| => Symbol(ds[i]))
  }

  lemma SymbolsOfIndices(s: string)
    requires InAlphabet(s)
    ensures Symbols(Indices(s)) == s
  {
  }

  lemma IndicesOfSymbols(ds: seq<nat>)
    requires Numeral(ds, RADIX)
    ensures InAlphabet(Symbols(ds)) && Indices(Symbols(ds)) == ds
  {
    forall i | 0 <= i < |ds| ensures IndexRune(Symbols(ds)[i]) == Some(ds[i]) {
      IndexOfSymbol(ds[i]);
    }
  }

  // ---------------------------------------------------------------------
  // Encoding and decoding
  // ---------------------------------------------------------------------

  function Encode58(b: seq<Byte>): (s: string)
    ensures InAlphabet(s) && s != ""
  {
    ConvertInverse(b, 256, RADIX);
    var ds := Convert(b, 256, RADIX);
    IndicesOfSymbols(ds);
    if ds == [] then "1" else Symbols(ds)
  }

  function Decode58(s: string): Option<seq<Byte>> {
    if InAlphabet(s) then
      ConvertInverse(Indices(s), RADIX, 256);
      Some(Convert(Indices(s), RADIX, 256))
    else None
  }

  /** Decoding undoes encoding on every byte string but the empty one, which encodes as a zero byte does. */
  lemma DecodeAfterEncode(b: seq<Byte>)
    ensures Decode58(Encode58(b)) == Some(b) <==> b != []
  {
    ConvertInverse(b, 256, RADIX);
    var ds := Convert(b, 256, RADIX);
    IndicesOfSymbols(ds);
    if b != [] {
      NonEmpty(b, 256, RADIX);
    } else {
      assert ds == [];
      assert Indices("1") == [0];
      NonEmpty([0], RADIX, 256);
      assert Encode58(b) == "1";
    }
  }

  /** Encoding undoes decoding on every string over the alphabet but the empty one. */
  lemma EncodeAfterDecode(s: string)
    requires InAlphabet(s)
    ensures Decode58(s).Some? && (Encode58(Decode58(s).value) == s <==> s != "")
  {
    ConvertInverse(Indices(s), RADIX, 256);
    SymbolsOfIndices(s);
    if s != "" {
      NonEmpty(Indices(s), RADIX, 256);
    }
  }

  /** Same number, same count of leading zeros: what conversion keeps, and what fixes its result. */
  lemma ConvertKeepsNumber(ds: seq<nat>, from: nat, to: nat)
    requires Numeral(ds, from) && to >= 2
    ensures var es := Convert(ds, from, to);
            Value(es, to) == Value(ds, from) && LeadingZeros(es) == LeadingZeros(ds)
  {
    var z, v := LeadingZeros(ds), Value(ds, from);
    ValueOfDigits(v, to);
    ValueSkipsZeros(z, Digits(v, to), to);
    LeadingZerosOf(z, Digits(v, to));
  }

  /**
    The text is the big-endian base-58 numeral of the bytes read as a base-256
    one, with a 1 for every leading zero byte.
   */
  lemma EncodesTheNumber(b: seq<Byte>)
    requires b != []
    ensures var ds := Indices(Encode58(b));
            Value(ds, 58) == Value(b, 256) && LeadingZeros(ds) == LeadingZeros(b)
  {
    ConvertInverse(b, 256, RADIX);
    NonEmpty(b, 256, RADIX);
    IndicesOfSymbols(Convert(b, 256, RADIX));
    ConvertKeepsNumber(b, 256, RADIX);
  }

  lemma NonEmpty(ds: seq<nat>, from: nat, to: nat)
    requires Numeral(ds, from) && ds != [] && to >= 2
    ensures Convert(ds, from, to) != []
  {
    if LeadingZeros(ds) == 0 {
      DigitsOfValue(ds, from);
    }
  }

  // ---------------------------------------------------------------------
  // The loops
  // ---------------------------------------------------------------------

  /** The division loop of the encoder: least significant symbol first. */
  method SymbolsBackwards(v: nat) returns (out: string)
    ensures out == Backwards(Symbols(Digits(v, RADIX)))
  {
    var n: nat := v;
    ghost var done: seq<nat> := [];
    out := "";
    while n > 0
      invariant Numeral(done, RADIX)
      invariant Digits(n, RADIX) + done == Digits(v, RADIX)
      invariant out == Backwards(Symbols(done))
    {
      DivSmaller(n, RADIX);
      Assoc(Digits(n / RADIX, RADIX), [n % RADIX], done);
      BackwardsCons(n % RADIX, done);
      out := out + [Symbol(n % RADIX)];
      done := [n % RADIX] + done;
      n := n / RADIX;
    }
    assert done == Digits(v, RADIX);
  }

  method Encode(b: seq<Byte>) returns (s: string)
    ensures s == Encode58(b)
  {
    ConvertInverse(b, 256, RADIX);
    ghost var digits := Symbols(Digits(Value(b, 256), RADIX));
    var out := SymbolsBackwards(Value(b, 256));
    out := AppendOnes(out, b);
    BackwardsTwice(digits, LeadingZeros(b));
    SymbolsOfConvert(b, 256);
    s := Reversed(out);
    if |s| == 0 {
      s := "1";
    }
  }

  /** Leading zero bytes become ones. */
  method AppendOnes(digits: string, b: seq<Byte>) returns (out: string)
    ensures out == digits + seq(LeadingZeros(b), _ => '1')
  {
    out := digits;
    var i := 0;
    while i < |b| && b[i] == 0
      invariant 0 <= i <= LeadingZeros(b)
      invariant out == digits + seq(i, _ => '1')
    {
      out := out + ['1'];
      i := i + 1;
    }
  }

  method Reversed(out: string) returns (s: string)
    ensures s == Backwards(out)
  {
    var a := new char[|out|](j requires 0 <= j < |out| => out[j]);
    assert a[..] == out;
    ReverseInPlace(a);
    s := a[..];
  }

  lemma SymbolsOfConvert(ds: seq<nat>, from: nat)
    requires Numeral(ds, from)
    ensures Numeral(Convert(ds, from, RADIX), RADIX)
    ensures Symbols(Convert(ds, from, RADIX))
         == seq(LeadingZeros(ds), _ => '1') + Symbols(Digits(Value(ds, from), RADIX))
  {
    ConvertInverse(ds, from, RADIX);
  }

  method ReverseInPlace(a: array<char>)
    modifies a
    ensures a[..] == Backwards(old(a[..]))
  {
    var i, j := 0, a.Length - 1;
    while i < j
      invariant 0 <= i <= a.Length && i + j == a.Length - 1
      invariant forall k :: 0 <= k < i || j < k < a.Length ==> a[k] == old(a[a.Length - 1 - k])
      invariant forall k :: i <= k <= j ==> a[k] == old(a[k])
    {
      a[i], a[j] := a[j], a[i];
      i, j := i + 1, j - 1;
    }
  }

  function Backwards(s: string): (r: string)
    ensures |r| == |s|
  {
    seq(|s|, i requires 0 <= i < |s| => s[|s| - 1 - i])
  }

  lemma BackwardsCons(d: nat, ds: seq<nat>)
    requires d < RADIX && Numeral(ds, RADIX)
    ensures Numeral([d] + ds, RADIX)
    ensures Backwards(Symbols([d] + ds)) == Backwards(Symbols(ds)) + [Symbol(d)]
  {
  }

  lemma BackwardsTwice(s: string, z: nat)
    ensures Backwards(Backwards(s) + seq(z, _ => '1')) == seq(z, _ => '1') + s
  {
  }

  lemma IndicesSnoc(s: string, i: nat)
    requires i < |s| && InAlphabet(s[..i]) && IndexRune(s[i]).Some?
    ensures InAlphabet(s[..i + 1])
    ensures Value(Indices(s[..i + 1]), RADIX)
         == Value(Indices(s[..i]), RADIX) * RADIX + IndexRune(s[i]).value
  {
    assert s[..i + 1] == s[..i] + [s[i]];
    assert Indices(s[..i + 1]) == Indices(s[..i]) + [IndexRune(s[i]).value];
    ValueSnoc(Indices(s[..i]), IndexRune(s[i]).value, RADIX);
  }

  /** '1' is the symbol of zero, and of nothing else. */
  lemma OneIsZero(s: string)
    requires InAlphabet(s)
    ensures forall i :: 0 <= i < |s| ==> (s[i] == '1' <==> Indices(s)[i] == 0)
  {
  }

  method LeadingOnes(s: string) returns (zeros: nat)
    requires InAlphabet(s)
    ensures zeros == LeadingZeros(Indices(s))
  {
    OneIsZero(s);
    zeros := 0;
    while zeros < |s| && s[zeros] == '1'
      invariant 0 <= zeros <= LeadingZeros(Indices(s))
    {
      zeros := zeros + 1;
    }
  }

  method Decode(s: string) returns (r: Option<seq<Byte>>)
    ensures r == Decode58(s)
  {
    var n: nat := 0;
    var i := 0;
    while i < |s|
      invariant 0 <= i <= |s| && InAlphabet(s[..i])
      invariant n == Value(Indices(s[..i]), RADIX)
    {
      var idx := IndexRune(s[i]);
      if idx.None? {
        return None;
      }
      IndicesSnoc(s, i);
      n := n * RADIX + idx.value;
      i := i + 1;
    }
    assert s[..i] == s;
    var zeros := LeadingOnes(s);
    ConvertInverse(Indices(s), RADIX, 256);
    return Some(Zeros(zeros) + Digits(n, 256));
  }
}
