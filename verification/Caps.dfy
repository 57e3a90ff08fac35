/**
  Capability bits (wallet/caps.go): the bitmask carried by grants and
  delegations, and its canonical text.
 */
module Caps {
  import opened Common
  import opened Text

  type Caps = bv8

  const WRITE: Caps := 1
  const RESIZE: Caps := 2
  const FORGE: Caps := 4
  const ALL_CAPS: Caps := 7

  predicate Has(c: Caps, x: Caps) {
    c & x == x
  }

  /** c grants nothing beyond `of`. */
  predicate Subset(c: Caps, of: Caps) {
    c & !of == 0
  }

  lemma SubsetIsOrder(a: Caps, b: Caps, c: Caps)
    ensures Subset(a, a)
    ensures Subset(a, b) && Subset(b, c) ==> Subset(a, c)
    ensures Subset(a, b) && Subset(b, a) ==> a == b
    ensures Subset(a, b) <==> Has(b, a)
    ensures Subset(a, b) <==> a | b == b
  {
  }

  /** Only the three lowest bits are known. */
  lemma UnknownBits(c: Caps)
    ensures Subset(c, ALL_CAPS) <==> c & 0xf8 == 0
  {
  }

  function Names(c: Caps): seq<string> {
    (if Has(c, WRITE) then ["write"] else [])
    + (if Has(c, RESIZE) then ["resize"] else [])
    + (if Has(c, FORGE) then ["forge"] else [])
  }

  /** The canonical text of c: its known bits in fixed order. */
  function Render(c: Caps): string {
    if Names(c) == [] then "view-only" else Join(Names(c), ", ")
  }

  /** What is joined for each of the eight sets of known bits. */
  lemma NamesByBit(c: Caps)
    ensures c == 0 ==> Names(c) == []
    ensures c == 1 ==> Names(c) == ["write"]
    ensures c == 2 ==> Names(c) == ["resize"]
    ensures c == 4 ==> Names(c) == ["forge"]
    ensures c == 3 ==> Names(c) == ["write"] + ["resize"]
    ensures c == 5 ==> Names(c) == ["write"] + ["forge"]
    ensures c == 6 ==> Names(c) == ["resize"] + ["forge"]
    ensures c == 7 ==> Names(c) == ["write"] + (["resize"] + ["forge"])
  {
  }

  lemma JoinTwo(a: string, b: string, sep: string)
    ensures Join([a] + [b], sep) == a + sep + b
  {
    JoinCons(a, [b], sep);
  }

  lemma JoinThree(a: string, b: string, c: string, sep: string)
    ensures Join([a] + ([b] + [c]), sep) == a + sep + (b + sep + c)
  {
    JoinTwo(b, c, sep);
    JoinCons(a, [b] + [c], sep);
  }

  /** The eight texts, by the bits they stand for. */
  lemma Texts(c: Caps)
    ensures c == 0 ==> Render(c) == "view-only"
    ensures c == 1 ==> Render(c) == "write"
    ensures c == 2 ==> Render(c) == "resize"
    ensures c == 4 ==> Render(c) == "forge"
    ensures c == 3 ==> Render(c) == "write" + ", " + "resize"
    ensures c == 5 ==> Render(c) == "write" + ", " + "forge"
    ensures c == 6 ==> Render(c) == "resize" + ", " + "forge"
    ensures c == 7 ==> Render(c) == "write" + ", " + ("resize" + ", " + "forge")
  {
    NamesByBit(c);
    JoinTwo("write", "resize", ", ");
    JoinTwo("write", "forge", ", ");
    JoinTwo("resize", "forge", ", ");
    JoinThree("write", "resize", "forge", ", ");
  }

  function Bit(token: string): Option<Caps> {
    if token == "write" then Some(WRITE)
    else if token == "resize" then Some(RESIZE)
    else if token == "forge" then Some(FORGE)
    else None
  }

  /** The union of the named bits, unless some token names none. */
  function Union(tokens: seq<string>): Option<Caps> {
    if tokens == [] then Some(0)
    else
      match (Union(tokens[..|tokens| - 1]), Bit(tokens[|tokens| - 1]))
      case (Some(c), Some(b)) => Some(c | b)
      case _ => None
  }

  function Parse(s: string): Option<Caps> {
    if s == "view-only" then Some(0)
    else
      match Union(Split(s, ", "))
      case None => None
      case Some(c) => if Render(c) == s then Some(c) else None
  }

  method ParseCaps(s: string) returns (r: Option<Caps>)
    ensures r == Parse(s)
  {
    if s == "view-only" {
      return Some(0);
    }
    var tokens := Split(s, ", ");
    var c: Caps := 0;
    var i := 0;
    while i < |tokens|
      invariant 0 <= i <= |tokens|
      invariant Union(tokens[..i]) == Some(c)
    {
      var b := Bit(tokens[i]);
      UnionNext(tokens, i);
      if b.None? {
        StaysInvalid(tokens, i + 1);
        return None;
      }
      c := c | b.value;
      i := i + 1;
    }
    assert tokens[..i] == tokens;
    if Render(c) != s {
      return None;
    }
    return Some(c);
  }

  lemma UnionNext(tokens: seq<string>, i: nat)
    requires i < |tokens|
    ensures Union(tokens[..i + 1]) == match (Union(tokens[..i]), Bit(tokens[i]))
                                      case (Some(c), Some(b)) => Some(c | b)
                                      case _ => None
  {
    assert tokens[..i + 1][..i] == tokens[..i];
  }

  lemma {:induction false} StaysInvalid(tokens: seq<string>, k: nat)
    requires k <= |tokens| && Union(tokens[..k]).None?
    ensures Union(tokens).None?
    decreases |tokens|
  {
    if k == |tokens| {
      assert tokens[..k] == tokens;
    } else {
      var init := tokens[..|tokens| - 1];
      assert init[..k] == tokens[..k];
      StaysInvalid(init, k);
    }
  }

  function Bits(w: bool, r: bool, f: bool): Caps {
    (if w then WRITE else 0) | (if r then RESIZE else 0) | (if f then FORGE else 0)
  }

  lemma KnownBits(c: Caps)
    requires Subset(c, ALL_CAPS)
    ensures c == Bits(Has(c, WRITE), Has(c, RESIZE), Has(c, FORGE))
  {
  }

  lemma UnionKnown(c: Caps)
    requires Subset(c, ALL_CAPS)
    ensures Union(Names(c)) == Some(c)
  {
    KnownBits(c);
    UnionOne(Has(c, WRITE), [], 0, "write");
    var a := if Has(c, WRITE) then ["write"] else [];
    UnionOne(Has(c, RESIZE), a, if Has(c, WRITE) then WRITE else 0, "resize");
    var b := a + if Has(c, RESIZE) then ["resize"] else [];
    UnionOne(Has(c, FORGE), b, Bits(Has(c, WRITE), Has(c, RESIZE), false), "forge");
  }

  /** Adding one optional name adds its bit. */
  lemma UnionOne(present: bool, tokens: seq<string>, c: Caps, name: string)
    requires Union(tokens) == Some(c) && Bit(name).Some?
    ensures Union(tokens + if present then [name] else [])
         == Some(if present then c | Bit(name).value else c)
    ensures [] + [name] == [name]
  {
    UnionSnoc(tokens, name);
    assert tokens + [] == tokens;
  }

  lemma UnionSnoc(tokens: seq<string>, t: string)
    ensures Union(tokens + [t]) == match (Union(tokens), Bit(t))
                                   case (Some(c), Some(b)) => Some(c | b)
                                   case _ => None
  {
    assert (tokens + [t])[..|tokens|] == tokens;
  }

  lemma {:induction false} UnionOnlyKnown(tokens: seq<string>)
    ensures Union(tokens).Some? ==> Subset(Union(tokens).value, ALL_CAPS)
  {
    if tokens != [] {
      UnionOnlyKnown(tokens[..|tokens| - 1]);
    }
  }

  lemma NamesSplit(c: Caps)
    requires Names(c) != []
    ensures Split(Join(Names(c), ", "), ", ") == Names(c)
  {
    SplitOfJoin(Names(c), ", ");
  }

  /** Parsing is the strict inverse of rendering: one text per set of known bits, and no other text. */
  lemma ParseInvertsRender(s: string, c: Caps)
    ensures Parse(s) == Some(c) <==> Subset(c, ALL_CAPS) && Render(c) == s
  {
    if s == "view-only" {
      if Subset(c, ALL_CAPS) {
        ViewOnlyIsEmpty(c);
      }
    } else {
      UnionOnlyKnown(Split(s, ", "));
      if Subset(c, ALL_CAPS) && Render(c) == s {
        NamesSplit(c);
        UnionKnown(c);
      }
    }
  }

  lemma ViewOnlyIsEmpty(c: Caps)
    requires Subset(c, ALL_CAPS)
    ensures Render(c) == "view-only" ==> c == 0
  {
    KnownBits(c);
    if Names(c) != [] {
      assert Join(Names(c), ", ")[0] == Names(c)[0][0] != 'v';
    }
  }

  /** Unknown bits are dropped by the text. */
  lemma RenderIgnoresUnknown(c: Caps)
    ensures Render(c) == Render(c & ALL_CAPS) && Subset(c & ALL_CAPS, ALL_CAPS)
  {
    assert Has(c, WRITE) == Has(c & ALL_CAPS, WRITE);
    assert Has(c, RESIZE) == Has(c & ALL_CAPS, RESIZE);
    assert Has(c, FORGE) == Has(c & ALL_CAPS, FORGE);
  }

  lemma RenderOneLine(c: Caps)
    ensures '\n' !in Render(c)
  {
    JoinAvoids(Names(c), ", ", '\n');
  }
}
