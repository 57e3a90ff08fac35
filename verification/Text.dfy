/** Go's strings.Split and strings.Join, and when each undoes the other. */
module Text {
  import opened Common

  /** Position of the first occurrence of sep in s at or after k. */
  function IndexFrom(s: string, sep: string, k: nat): (i: Option<nat>)
    requires k <= |s|
    ensures i.Some? ==> k <= i.value <= |s| && sep <= s[i.value..]
    ensures i.Some? ==> forall j :: k <= j < i.value ==> !(sep <= s[j..])
    ensures i.None? ==> forall j :: k <= j <= |s| ==> !(sep <= s[j..])
    decreases |s| - k
  {
    if sep <= s[k..] then Some(k)
    else if k == |s| then None
    else IndexFrom(s, sep, k + 1)
  }

  function Split(s: string, sep: string): (parts: seq<string>)
    requires sep != ""
    ensures |parts| >= 1
    decreases |s|
  {
    match IndexFrom(s, sep, 0)
    case None => [s]
    case Some(i) => [s[..i]] + Split(s[i + |sep|..], sep)
  }

  function Join(parts: seq<string>, sep: string): string {
    if parts == [] then ""
    else if |parts| == 1 then parts[0]
    else parts[0] + sep + Join(parts[1..], sep)
  }

  lemma {:induction false} JoinOfSplit(s: string, sep: string)
    requires sep != ""
    ensures Join(Split(s, sep), sep) == s
    decreases |s|
  {
    var i := IndexFrom(s, sep, 0);
    if i.Some? {
      var rest := s[i.value + |sep|..];
      JoinOfSplit(rest, sep);
      JoinCons(s[..i.value], Split(rest, sep), sep);
      CutAround(s, sep, i.value);
    }
  }

  lemma JoinCons(part: string, parts: seq<string>, sep: string)
    requires parts != []
    ensures Join([part] + parts, sep) == part + sep + Join(parts, sep)
  {
    assert ([part] + parts)[1..] == parts;
  }

  lemma CutAround(s: string, sep: string, i: nat)
    requires i <= |s| && sep <= s[i..]
    ensures s[..i] + sep + s[i + |sep|..] == s
  {
    SplitAt(s[i..], |sep|);
    assert s[i..][|sep|..] == s[i + |sep|..];
    Assoc(s[..i], sep, s[i + |sep|..]);
    SplitAt(s, i);
  }

  /** Parts in which the separator cannot begin are recovered whole. */
  lemma {:induction false} SplitOfJoin(parts: seq<string>, sep: string)
    requires sep != "" && parts != []
    requires forall p :: p in parts ==> sep[0] !in p
    ensures Split(Join(parts, sep), sep) == parts
    decreases |parts|
  {
    var s := Join(parts, sep);
    var p := parts[0];
    assert p in parts;
    if |parts| == 1 {
      NoSeparator(p, sep, "");
      assert p + "" == p;
      assert s == p;
    } else {
      var rest := Join(parts[1..], sep);
      SplitOfJoin(parts[1..], sep);
      Assoc(p, sep, rest);
      NoSeparator(p, sep, sep + rest);
      DropPrefix(p, sep + rest);
      assert sep <= s[|p|..];
      assert IndexFrom(s, sep, 0) == Some(|p|);
      DropPrefix(p + sep, rest);
      assert s[..|p|] == p;
    }
  }

  lemma NoSeparator(p: string, sep: string, rest: string)
    requires sep != "" && sep[0] !in p
    ensures forall j :: 0 <= j < |p| ==> !(sep <= (p + rest)[j..])
    ensures rest == "" ==> IndexFrom(p + rest, sep, 0).None?
  {
    forall j | 0 <= j < |p| ensures !(sep <= (p + rest)[j..]) {
      assert (p + rest)[j..][0] == p[j];
    }
  }

  lemma {:induction false} JoinAvoids(parts: seq<string>, sep: string, c: char)
    requires c !in sep && forall p :: p in parts ==> c !in p
    ensures c !in Join(parts, sep)
  {
    if |parts| >= 1 {
      assert parts[0] in parts;
      if |parts| > 1 {
        JoinAvoids(parts[1..], sep, c);
      }
    }
  }
}
