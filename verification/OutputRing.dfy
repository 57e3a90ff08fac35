/**
  The replay ring (streambuf/output_ring.go): the most recent `capacity` bytes
  of PTY output, each carrying a 1-based sequence number.

  The specification is the full history of everything ever written. The class
  keeps a bounded window in one array, shifts it in place, and refines that
  history: `View` ties every field to it, `Write` appends to it and `From`
  answers from it.
 */
module OutputRing {
  import opened Common

  const DEFAULT_CAPACITY: nat := 256 * 1024

  function Min(a: int, b: int): int {
    if a < b then a else b
  }

  function Max(a: int, b: int): int {
    if a < b then b else a
  }

  /** Sequence number of the oldest byte retained after writing `history`. */
  function FirstSeq(history: seq<Byte>, capacity: nat): nat {
    |history| - Min(capacity, |history|) + 1
  }

  /** The bytes retained after writing `history`. */
  function Window(history: seq<Byte>, capacity: nat): seq<Byte> {
    history[FirstSeq(history, capacity) - 1..]
  }

  datatype Replay = Replay(data: seq<Byte>, nextSeq: nat, behind: bool)

  /**
    What a reader that last saw everything before `since` is given: the
    history from `since` on, or what is left of it, with `behind` set when
    bytes it never saw are gone. `since == 0` claims no position.
   */
  function ReplayFrom(history: seq<Byte>, capacity: nat, since: nat): Replay {
    var first := FirstSeq(history, capacity);
    Replay(if since > |history| then [] else history[Max(since, first) - 1..],
           |history| + 1,
           0 < since < first && |Window(history, capacity)| > 0)
  }

  lemma WindowAfterWrite(history: seq<Byte>, p: seq<Byte>, capacity: nat)
    requires |p| <= capacity
    ensures var window := Window(history, capacity);
            var overflow := Max(0, |window| + |p| - capacity);
            && overflow <= |window|
            && Window(history + p, capacity) == window[overflow..] + p
            && FirstSeq(history + p, capacity) == FirstSeq(history, capacity) + overflow
  {
  }

  lemma WindowAfterFlood(history: seq<Byte>, p: seq<Byte>, capacity: nat)
    requires |p| >= capacity
    ensures Window(history + p, capacity) == p[|p| - capacity..]
    ensures FirstSeq(history + p, capacity) == |history| + 1 + (|p| - capacity)
  {
  }

  /** Go's built-in `copy`: src is read in full before dst is written, so the two may overlap. */
  method CopyInto(dst: array<Byte>, at: nat, src: seq<Byte>)
    requires at + |src| <= dst.Length
    modifies dst
    ensures dst[..at] == old(dst[..at])
    ensures dst[at..at + |src|] == src
    ensures dst[..at + |src|] == old(dst[..at]) + src
  {
    forall i | 0 <= i < |src| {
      dst[at + i] := src[i];
    }
  }

  class Ring {
    const capacity: nat
    const data: array<Byte>
    var len: nat
    var firstSeq: nat
    ghost var history: seq<Byte>

    ghost predicate Valid()
      reads this, data
    {
      && capacity > 0
      && data.Length == capacity
      && len == Min(capacity, |history|)
      && firstSeq == FirstSeq(history, capacity)
      && data[..len] == Window(history, capacity)
    }

    constructor (requested: int)
      ensures Valid() && fresh(data) && history == []
      ensures capacity == if requested <= 0 then DEFAULT_CAPACITY else requested
    {
      var c: nat := if requested <= 0 then DEFAULT_CAPACITY else requested;
      capacity := c;
      data := new Byte[c](_ => 0);
      len, firstSeq, history := 0, 1, [];
    }

    function NextSeq(): nat
      reads this
    {
      firstSeq + len
    }

    /** Appends p to the history. Returns the sequence number of p's first byte. */
    method Write(p: seq<Byte>) returns (first: nat, n: nat)
      requires Valid()
      modifies this, data
      ensures Valid()
      ensures history == old(history) + p
      ensures first == |old(history)| + 1 && n == |p|
    {
      first, n := NextSeq(), |p|;
      if |p| == 0 {
        assert history + p == history;
        return;
      }
      if |p| >= capacity {
        Flood(p);
      } else {
        Slide(p);
      }
    }

    method Flood(p: seq<Byte>)
      requires Valid() && |p| >= capacity
      modifies this, data
      ensures Valid() && history == old(history) + p
    {
      WindowAfterFlood(history, p, capacity);
      KeepLast(p, NextSeq());
      history := history + p;
    }

    method Slide(p: seq<Byte>)
      requires Valid() && |p| <= capacity
      modifies this, data
      ensures Valid() && history == old(history) + p
    {
      WindowAfterWrite(history, p, capacity);
      MakeRoom(|p|);
      Append(p);
      history := history + p;
    }

    /** A write that fills the ring leaves only its own last bytes. */
    method KeepLast(p: seq<Byte>, first: nat)
      requires data.Length == capacity <= |p|
      modifies this, data
      ensures history == old(history) && len == capacity && firstSeq == first + (|p| - capacity)
      ensures data[..len] == p[|p| - capacity..]
    {
      var skip := |p| - capacity;
      CopyInto(data, 0, p[skip..]);
      len := capacity;
      firstSeq := first + skip;
    }

    method Append(p: seq<Byte>)
      requires data.Length == capacity && len + |p| <= capacity
      modifies `len, data
      ensures len == old(len) + |p| && data[..len] == old(data[..len]) + p
    {
      CopyInto(data, len, p);
      len := len + |p|;
    }

    /** Slides the oldest bytes out until n more fit. */
    method MakeRoom(n: nat)
      requires data.Length == capacity && len <= capacity && n <= capacity
      modifies this, data
      ensures history == old(history)
      ensures var overflow := Max(0, old(len) + n - capacity);
              && len == old(len) - overflow && firstSeq == old(firstSeq) + overflow
              && data[..len] == old(data[..len])[overflow..]
    {
      var overflow := len + n - capacity;
      if overflow > 0 {
        CopyInto(data, 0, data[overflow..len]);
        len := len - overflow;
        firstSeq := firstSeq + overflow;
      }
    }

    method State() returns (first: nat, next: nat, bytes: nat)
      requires Valid()
      ensures first == FirstSeq(history, capacity) && next == |history| + 1
      ensures bytes == |Window(history, capacity)|
    {
      first, next, bytes := firstSeq, if len == 0 then firstSeq else firstSeq + len, len;
    }

    method From(since: nat) returns (r: Replay)
      requires Valid()
      ensures r == ReplayFrom(history, capacity, since)
    {
      if len == 0 {
        return Replay([], firstSeq, false);
      }
      var end := firstSeq + len;
      if since >= end {
        return Replay([], end, false);
      }
      var start, dropped := 0, false;
      if since == 0 {
      } else if since < firstSeq {
        dropped := true;
      } else {
        start := since - firstSeq;
      }
      assert data[start..len] == data[..len][start..];
      r := Replay(data[start..len], end, dropped);
    }
  }

  /**
    A reader holding the first n bytes, none of whose successors has been
    evicted, rebuilds the whole history from one replay; otherwise the replay
    says that it cannot.
   */
  lemma ResumeIsLossless(history: seq<Byte>, capacity: nat, n: nat)
    requires capacity > 0 && n <= |history|
    ensures var r := ReplayFrom(history, capacity, n + 1);
            && (history[..n] + r.data == history <==> n + 1 >= FirstSeq(history, capacity))
            && (r.behind <==> n + 1 < FirstSeq(history, capacity))
  {
    var r := ReplayFrom(history, capacity, n + 1);
    var first := FirstSeq(history, capacity);
    if n + 1 >= first {
      if n == |history| {
        assert history[..n] + r.data == history;
      } else {
        assert r.data == history[n..];
      }
    } else {
      assert |history[..n] + r.data| == n + (|history| - (first - 1)) < |history|;
    }
  }

  /** A fresh attach is given the last `capacity` bytes, or all there are, and is not behind. */
  lemma FreshReplay(history: seq<Byte>, capacity: nat)
    requires capacity > 0
    ensures var r := ReplayFrom(history, capacity, 0);
            && !r.behind && r.nextSeq == |history| + 1
            && |r.data| == (if |history| < capacity then |history| else capacity)
            && r.data == history[|history| - |r.data|..]
  {
  }

  /**
    A reader at any position, in numbers. It is behind exactly when it claims a
    position and the byte there is among those pushed out by the last
    `capacity`; it is then given those. Otherwise it is given the history from
    its position on, which is nothing once it has caught up.
   */
  lemma ReplayExactly(history: seq<Byte>, capacity: nat, since: nat)
    requires capacity > 0 && since > 0
    ensures var r := ReplayFrom(history, capacity, since);
            && (r.behind <==> since + capacity <= |history|)
            && r.nextSeq == |history| + 1
            && r.data == (if since + capacity <= |history| then history[|history| - capacity..]
                          else if since <= |history| then history[since - 1..]
                          else [])
  {
  }

  /** Replaying, then replaying again from where the first replay ended, misses nothing. */
  lemma ReplaysCompose(history: seq<Byte>, more: seq<Byte>, capacity: nat, since: nat)
    requires 0 < since <= |history| + 1
    requires ReplayFrom(history, capacity, since).nextSeq >= FirstSeq(history + more, capacity)
    ensures var r1 := ReplayFrom(history, capacity, since);
            var r2 := ReplayFrom(history + more, capacity, r1.nextSeq);
            && r2.data == more && !r2.behind
            && (since >= FirstSeq(history, capacity) ==>
                  r1.data + r2.data == (history + more)[since - 1..])
  {
    var all := history + more;
    var r1 := ReplayFrom(history, capacity, since);
    var r2 := ReplayFrom(all, capacity, r1.nextSeq);
    assert r2.data == more;
    if since >= FirstSeq(history, capacity) {
      assert r1.data == history[since - 1..];
      assert history[since - 1..] + more == all[since - 1..];
    }
  }
}
