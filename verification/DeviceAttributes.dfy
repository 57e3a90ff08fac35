/**
  The Device Attributes responder (vterm/queries.go): a byte-at-a-time filter
  that sits on the PTY output, answers the four Device Attributes queries and
  removes them from what attached clients see.

  `Strip` and `Replies` say what it must do to the whole output at once.
  `StreamingEqualsWhole` says that the streaming filter does exactly that, for
  every input and every way of cutting it into reads.
 */
module DeviceAttributes {
  import opened Common

  const ESC: Byte := 0x1b
  const BRACKET: Byte := 0x5b  // '['
  const ZERO: Byte := 0x30     // '0'
  const GREATER: Byte := 0x3e  // '>'
  const LOWER_C: Byte := 0x63  // 'c'

  /** Primary reply: ESC [ ? 6 2 ; 2 2 c */
  const PRIMARY_REPLY: seq<Byte> := [ESC, BRACKET, 0x3f, 0x36, 0x32, 0x3b, 0x32, 0x32, LOWER_C]

  /** Secondary reply: ESC [ > 0 ; 1 0 ; 0 c */
  const SECONDARY_REPLY: seq<Byte> :=
    [ESC, BRACKET, GREATER, ZERO, 0x3b, 0x31, 0x30, 0x3b, ZERO, LOWER_C]

  // ---------------------------------------------------------------------
  // What the filter is for, said of the whole input
  // ---------------------------------------------------------------------

  datatype Query = Primary | Primary0 | Secondary | Secondary0 {
    /** The bytes of the query: Primary Device Attributes in two forms, then Secondary in two. */
    function Text(): (t: seq<Byte>)
      ensures 3 <= |t| <= 5 && t[0] == ESC && t[1] == BRACKET && t[|t| - 1] == LOWER_C
    {
      match this
      case Primary => [ESC, BRACKET, LOWER_C]
      case Primary0 => [ESC, BRACKET, ZERO, LOWER_C]
      case Secondary => [ESC, BRACKET, GREATER, LOWER_C]
      case Secondary0 => [ESC, BRACKET, GREATER, ZERO, LOWER_C]
    }

    function Reply(): seq<Byte> {
      if Primary? || Primary0? then PRIMARY_REPLY else SECONDARY_REPLY
    }
  }

  function Ascii(text: string): seq<Byte> {
    seq(|text|, i requires 0 <= i < |text| => text[i] as int % 256)
  }

  /** The four queries and the two replies as the terminal's documentation writes them after the escape. */
  lemma Spelled()
    ensures Primary.Text() == [27] + Ascii("[c") && Primary0.Text() == [27] + Ascii("[0c")
    ensures Secondary.Text() == [27] + Ascii("[>c") && Secondary0.Text() == [27] + Ascii("[>0c")
    ensures Primary.Reply() == Primary0.Reply() == [27] + Ascii("[?62;22c")
    ensures Secondary.Reply() == Secondary0.Reply() == [27] + Ascii("[>0;10;0c")
  {
  }

  /** Which query, if any, starts at the front of s. */
  function QueryAtFront(s: seq<Byte>): Option<Query> {
    if |s| < 3 || s[0] != ESC || s[1] != BRACKET then None
    else if s[2] == LOWER_C then Some(Primary)
    else if |s| >= 4 && s[2] == ZERO && s[3] == LOWER_C then Some(Primary0)
    else if |s| >= 4 && s[2] == GREATER && s[3] == LOWER_C then Some(Secondary)
    else if |s| >= 5 && s[2] == GREATER && s[3] == ZERO && s[4] == LOWER_C then Some(Secondary0)
    else None
  }

  /** `QueryAtFront` finds a query exactly when its bytes are a prefix, so at most one fits. */
  lemma QueryIsPrefix(s: seq<Byte>, q: Query)
    ensures QueryAtFront(s) == Some(q) <==> q.Text() <= s
  {
    var t := q.Text();
    if t <= s {
      assert forall i :: 0 <= i < |t| ==> s[i] == t[i];
      assert s[2] == t[2] && (|t| >= 4 ==> s[3] == t[3]) && (|t| >= 5 ==> s[4] == t[4]);
    }
  }

  /** s with every occurrence of a query deleted. */
  function Strip(s: seq<Byte>): seq<Byte>
    decreases |s|
  {
    if s == [] then []
    else
      match QueryAtFront(s)
      case Some(q) => Strip(s[|q.Text()|..])
      case None => [s[0]] + Strip(s[1..])
  }

  /** The replies owed for s, in the order of the queries. */
  function Replies(s: seq<Byte>): seq<Byte>
    decreases |s|
  {
    if s == [] then []
    else
      match QueryAtFront(s)
      case Some(q) => q.Reply() + Replies(s[|q.Text()|..])
      case None => Replies(s[1..])
  }

  /** Query q occurs in s at i, and position p lies inside that occurrence. */
  ghost predicate OccursAround(s: seq<Byte>, i: nat, q: Query, p: nat) {
    i <= p < i + |q.Text()| && i <= |s| && q.Text() <= s[i..]
  }

  /** Position p of s lies inside some occurrence of a query. */
  ghost predicate InQuery(s: seq<Byte>, p: nat) {
    exists i: nat, q: Query :: OccursAround(s, i, q, p)
  }

  /** What `part` gives for n positions from `from` on, in order. */
  ghost function Gather(part: nat -> seq<Byte>, from: nat, n: nat): seq<Byte>
    decreases n
  {
    if n == 0 then [] else part(from) + Gather(part, from + 1, n - 1)
  }

  /** The byte at p, unless it lies inside a query. */
  ghost function KeptAt(s: seq<Byte>, p: nat): seq<Byte> {
    if p < |s| && !InQuery(s, p) then [s[p]] else []
  }

  /** The bytes of s that lie outside every occurrence of a query, in order. */
  ghost function OutsideQueries(s: seq<Byte>): seq<Byte> {
    Gather((p: nat) => KeptAt(s, p), 0, |s|)
  }

  /** Query q occurs in s at p. */
  ghost predicate Occurs(s: seq<Byte>, p: nat, q: Query) {
    p <= |s| && q.Text() <= s[p..]
  }

  /** The reply to the query that occurs at p, if any does. */
  ghost function ReplyAt(s: seq<Byte>, p: nat): seq<Byte> {
    if Occurs(s, p, Primary) || Occurs(s, p, Primary0) then PRIMARY_REPLY
    else if Occurs(s, p, Secondary) || Occurs(s, p, Secondary0) then SECONDARY_REPLY
    else []
  }

  /** The replies to all queries that occur in s, by where they start. */
  ghost function RepliesOwed(s: seq<Byte>): seq<Byte> {
    Gather((p: nat) => ReplyAt(s, p), 0, |s|)
  }

  // ---------------------------------------------------------------------
  // The state machine
  // ---------------------------------------------------------------------

  datatype State = Ground | Esc | Csi

  /** Everything `process` reads or writes: the two fields and the two results. */
  datatype Run = Run(state: State, held: seq<Byte>, out: seq<Byte>, resp: seq<Byte>)

  predicate Parameter(b: Byte) {
    b == ZERO || b == GREATER
  }

  /** What `held` may hold in each state. */
  predicate WellFormed(state: State, held: seq<Byte>) {
    match state
    case Ground => held == []
    case Esc => held == [ESC]
    case Csi => [ESC, BRACKET] <= held && forall i :: 2 <= i < |held| ==> Parameter(held[i])
  }

  /** Handles b as in the ground state, after flushing what is held. */
  function FromGround(r: Run, b: Byte): Run {
    if b == ESC then Run(Esc, [ESC], r.out + r.held, r.resp)
    else Run(Ground, [], r.out + r.held + [b], r.resp)
  }

  function Step(r: Run, b: Byte): Run {
    match r.state
    case Ground => FromGround(r.(held := []), b)
    case Esc => if b == BRACKET then r.(state := Csi, held := r.held + [b]) else FromGround(r, b)
    case Csi =>
      if Parameter(b) then r.(held := r.held + [b])
      else if b == LOWER_C then
        match QueryAtFront(r.held + [b])
        case Some(q) => Run(Ground, [], r.out, r.resp + q.Reply())
        case None => Run(Ground, [], r.out + r.held + [b], r.resp)
      else FromGround(r, b)
  }

  function Feed(r: Run, input: seq<Byte>): Run
    decreases |input|
  {
    if input == [] then r else Feed(Step(r, input[0]), input[1..])
  }

  // ---------------------------------------------------------------------
  // The responder object
  // ---------------------------------------------------------------------

  class Responder {
    var state: State
    var held: seq<Byte>

    ghost predicate Valid()
      reads this
    {
      WellFormed(state, held)
    }

    constructor ()
      ensures Valid() && state == Ground && held == []
    {
      state, held := Ground, [];
    }

    method Process(input: seq<Byte>) returns (out: seq<Byte>, resp: seq<Byte>)
      requires Valid()
      modifies this
      ensures Valid()
      ensures Run(state, held, out, resp) == Feed(Run(old(state), old(held), [], []), input)
    {
      out, resp := [], [];
      var i := 0;
      while i < |input|
        invariant 0 <= i <= |input|
        invariant Valid()
        invariant Feed(Run(state, held, out, resp), input[i..])
               == Feed(Run(old(state), old(held), [], []), input)
      {
        var b := input[i];
        ghost var before := Run(state, held, out, resp);
        match state {
          case Ground =>
            if b == ESC {
              state, held := Esc, [b];
            } else {
              out := out + [b];
            }
          case Esc =>
            if b == BRACKET {
              state, held := Csi, held + [b];
            } else {
              out, held := out + held, [];
              state := Ground;
              if b == ESC {
                state, held := Esc, [b];
              } else {
                out := out + [b];
              }
            }
          case Csi =>
            if b == ZERO || b == GREATER {
              held := held + [b];
            } else if b == LOWER_C {
              HeldQuery(held);
              var params := held[2..];
              if params == [] || params == [ZERO] {
                resp := resp + PRIMARY_REPLY;
              } else if params == [GREATER] || params == [GREATER, ZERO] {
                resp := resp + SECONDARY_REPLY;
              } else {
                out, held := out + held, [];
                out := out + [b];
              }
              held := [];
              state := Ground;
            } else {
              out, held := out + held, [];
              state := Ground;
              if b == ESC {
                state, held := Esc, [b];
              } else {
                out := out + [b];
              }
            }
        }
        assert Run(state, held, out, resp) == Step(before, b);
        assert input[i..][0] == b && input[i..][1..] == input[i + 1..];
        i := i + 1;
      }
    }
  }

  /** The string switch on the parameters recognises exactly the four queries. */
  lemma HeldQuery(held: seq<Byte>)
    requires WellFormed(Csi, held)
    ensures QueryAtFront(held + [LOWER_C]) ==
            (if held[2..] == [] then Some(Primary)
             else if held[2..] == [ZERO] then Some(Primary0)
             else if held[2..] == [GREATER] then Some(Secondary)
             else if held[2..] == [GREATER, ZERO] then Some(Secondary0)
             else None)
  {
    assert |held| >= 3 ==> held[2] == held[2..][0];
    assert |held| >= 4 ==> held[3] == held[2..][1];
    assert |held| >= 5 ==> Parameter(held[4]);
  }

  // ---------------------------------------------------------------------
  // Streaming equals whole-input
  // ---------------------------------------------------------------------

  lemma {:induction false} FeedAppend(r: Run, a: seq<Byte>, b: seq<Byte>)
    ensures Feed(r, a + b) == Feed(Feed(r, a), b)
    decreases |a|
  {
    if a == [] {
      assert a + b == b;
    } else {
      assert (a + b)[1..] == a[1..] + b;
      FeedAppend(Step(r, a[0]), a[1..], b);
    }
  }

  /** Bytes other than ESC pass straight through, whatever follows them. */
  lemma {:induction false} PlainPrefix(u: seq<Byte>, t: seq<Byte>)
    requires ESC !in u
    ensures Strip(u + t) == u + Strip(t) && Replies(u + t) == Replies(t)
  {
    if u == [] {
      assert u + t == t;
    } else {
      var s := u + t;
      assert s[0] == u[0] != ESC && s[1..] == u[1..] + t;
      PlainByte(s);
      PlainPrefix(u[1..], t);
      Assoc([u[0]], u[1..], Strip(t));
      Front(u);
    }
  }

  lemma PlainByte(s: seq<Byte>)
    requires s != [] && s[0] != ESC
    ensures Strip(s) == [s[0]] + Strip(s[1..]) && Replies(s) == Replies(s[1..])
  {
    assert QueryAtFront(s).None?;
  }

  /** Held bytes that the next byte shows not to be a query pass through unchanged. */
  lemma FlushHeld(state: State, held: seq<Byte>, b: Byte, t: seq<Byte>)
    requires WellFormed(state, held) && state != Ground
    requires state == Esc ==> b != BRACKET
    requires state == Csi ==> !Parameter(b) && (b == LOWER_C ==> QueryAtFront(held + [b]).None?)
    ensures Strip(held + [b] + t) == held + Strip([b] + t)
    ensures Replies(held + [b] + t) == Replies([b] + t)
  {
    NotAQuery(state, held, b, t);
    var s := held + [b] + t;
    var rest := held[1..];
    assert s[0] == ESC == held[0] && s[1..] == rest + ([b] + t);
    PlainPrefix(rest, [b] + t);
    assert Strip(s) == [ESC] + (rest + Strip([b] + t));
    Assoc([ESC], rest, Strip([b] + t));
    assert [ESC] + rest == held;
  }

  lemma NotAQuery(state: State, held: seq<Byte>, b: Byte, t: seq<Byte>)
    requires WellFormed(state, held) && state != Ground
    requires state == Esc ==> b != BRACKET
    requires state == Csi ==> !Parameter(b) && (b == LOWER_C ==> QueryAtFront(held + [b]).None?)
    ensures QueryAtFront(held + [b] + t).None?
  {
    var s := held + [b] + t;
    assert s[|held|] == b;
    assert forall i :: 0 <= i < |held| ==> s[i] == held[i];
    if state == Csi {
      assert b == LOWER_C ==> (held + [b])[|held|] == b;
    }
  }

  lemma StepStrip(r: Run, b: Byte, t: seq<Byte>)
    requires WellFormed(r.state, r.held)
    ensures var r' := Step(r, b);
            && WellFormed(r'.state, r'.held)
            && r'.out + Strip(r'.held + t) == r.out + Strip(r.held + [b] + t)
            && r'.resp + Replies(r'.held + t) == r.resp + Replies(r.held + [b] + t)
  {
    var r' := Step(r, b);
    if (r.state == Esc && b == BRACKET) || (r.state == Csi && Parameter(b)) {
      assert r'.held == r.held + [b];
    } else if r.state == Csi && b == LOWER_C && QueryAtFront(r.held + [b]).Some? {
      StepQuery(r, b, t);
    } else if r.state == Ground {
      assert r.held + [b] + t == [b] + t;
      assert r.held + Strip([b] + t) == Strip([b] + t);
      StepFlush(r, b, t);
    } else {
      FlushHeld(r.state, r.held, b, t);
      StepFlush(r, b, t);
      assert r' == FromGround(r, b);
    }
  }

  lemma StepQuery(r: Run, b: Byte, t: seq<Byte>)
    requires WellFormed(r.state, r.held)
    requires r.state == Csi && b == LOWER_C && QueryAtFront(r.held + [b]).Some?
    ensures Strip(r.held + [b] + t) == Strip(t)
    ensures r.resp + Replies(r.held + [b] + t) == Step(r, b).resp + Replies(t)
    ensures [] + t == t
  {
    HeldQuery(r.held);
    var q := QueryAtFront(r.held + [b]).value;
    var s := r.held + [b] + t;
    QueryIsPrefix(r.held + [b], q);
    QueryIsPrefix(s, q);
    assert q.Text() <= s;
    assert |q.Text()| == |r.held + [b]|;
    assert s[|q.Text()|..] == t;
    Assoc(r.resp, q.Reply(), Replies(t));
  }

  lemma StepFlush(r: Run, b: Byte, t: seq<Byte>)
    ensures var r' := FromGround(r, b);
            && r'.out + Strip(r'.held + t) == r.out + (r.held + Strip([b] + t))
            && r'.resp + Replies(r'.held + t) == r.resp + Replies([b] + t)
  {
    if b == ESC {
      Assoc(r.out, r.held, Strip([b] + t));
    } else {
      PlainPrefix([b], t);
      Assoc(r.held, [b], Strip(t));
      Assoc(r.out, r.held + [b], Strip(t));
      Assoc(r.out, r.held, [b]);
      var none: seq<Byte> := [];
      assert none + t == t;
    }
  }

  lemma {:induction false} FeedStrip(r: Run, input: seq<Byte>)
    requires WellFormed(r.state, r.held)
    ensures var f := Feed(r, input);
            && WellFormed(f.state, f.held)
            && f.out + f.held == r.out + Strip(r.held + input)
            && f.resp == r.resp + Replies(r.held + input)
    decreases |input|
  {
    if input == [] {
      assert r.held + input == r.held;
      HeldIsPlain(r.state, r.held);
    } else {
      StepStrip(r, input[0], input[1..]);
      OntoFront(r.held, input);
      FeedStrip(Step(r, input[0]), input[1..]);
    }
  }

  lemma OntoFront(a: seq<Byte>, input: seq<Byte>)
    requires input != []
    ensures a + [input[0]] + input[1..] == a + input
  {
  }

  lemma HeldIsPlain(state: State, held: seq<Byte>)
    requires WellFormed(state, held)
    ensures Strip(held) == held && Replies(held) == []
  {
    if state != Ground {
      PlainPrefix(held[1..], []);
      assert held[1..] + [] == held[1..];
      assert QueryAtFront(held).None?;
      Front(held);
    }
  }

  /** A run of `process` calls, one per chunk, collecting both outputs. */
  function ProcessAll(r: Run, chunks: seq<seq<Byte>>): Run
    decreases |chunks|
  {
    if chunks == [] then r
    else
      var one := Feed(Run(r.state, r.held, [], []), chunks[0]);
      ProcessAll(Run(one.state, one.held, r.out + one.out, r.resp + one.resp), chunks[1..])
  }

  const START := Run(Ground, [], [], [])

  /** Earlier output does not influence a step; it only stays in front. */
  lemma StepFrame(r: Run, b: Byte)
    ensures var s := Step(Run(r.state, r.held, [], []), b);
            Step(r, b) == Run(s.state, s.held, r.out + s.out, r.resp + s.resp)
  {
    var none: seq<Byte> := [];
    assert none + r.held == r.held && r.out + none == r.out && r.resp + none == r.resp;
    Assoc(r.out, r.held, [b]);
    assert none + none == none;
    assert none + none + [b] == [b];
    var f := QueryAtFront(r.held + [b]);
    if f.Some? {
      assert none + f.value.Reply() == f.value.Reply();
    }
  }

  lemma {:induction false} FeedFrame(r: Run, input: seq<Byte>)
    ensures var f := Feed(Run(r.state, r.held, [], []), input);
            Feed(r, input) == Run(f.state, f.held, r.out + f.out, r.resp + f.resp)
    decreases |input|
  {
    if input == [] {
      assert r.out + [] == r.out && r.resp + [] == r.resp;
    } else {
      StepFrame(r, input[0]);
      var c1 := Step(Run(r.state, r.held, [], []), input[0]);
      FeedFrame(Step(r, input[0]), input[1..]);
      FeedFrame(c1, input[1..]);
      var f := Feed(Run(c1.state, c1.held, [], []), input[1..]);
      Assoc(r.out, c1.out, f.out);
      Assoc(r.resp, c1.resp, f.resp);
    }
  }

  lemma {:induction false} ProcessAllIsFeed(r: Run, chunks: seq<seq<Byte>>)
    ensures ProcessAll(r, chunks) == Feed(r, Concat(chunks))
    decreases |chunks|
  {
    if chunks != [] {
      FeedFrame(r, chunks[0]);
      FeedAppend(r, chunks[0], Concat(chunks[1..]));
      ProcessAllIsFeed(Feed(r, chunks[0]), chunks[1..]);
    }
  }

  /**
    For every input and every split of it into reads: what was emitted, followed
    by what is still held, is the input with every query deleted, and the
    replies are exactly those owed, in order.
   */
  lemma StreamingEqualsWhole(chunks: seq<seq<Byte>>)
    ensures var r := ProcessAll(START, chunks);
            && r.out + r.held == Strip(Concat(chunks))
            && r.resp == Replies(Concat(chunks))
  {
    ProcessAllIsFeed(START, chunks);
    FeedStrip(START, Concat(chunks));
    assert START.held + Concat(chunks) == Concat(chunks);
  }

  // ---------------------------------------------------------------------
  // Occurrences of queries
  // ---------------------------------------------------------------------

  /** Two occurrences that share a position are the same occurrence. */
  lemma OccurrencesDisjoint(s: seq<Byte>, i: nat, q: Query, j: nat, q': Query, p: nat)
    requires OccursAround(s, i, q, p) && OccursAround(s, j, q', p)
    ensures i == j && q == q'
  {
    StartsOnce(s, i, q);
    StartsOnce(s, j, q');
    QueryIsPrefix(s[i..], q);
    QueryIsPrefix(s[j..], q');
  }

  /** Inside an occurrence, ESC stands at its start and nowhere else. */
  lemma StartsOnce(s: seq<Byte>, i: nat, q: Query)
    requires OccursAround(s, i, q, i)
    ensures i + |q.Text()| <= |s|
    ensures forall k :: i <= k < i + |q.Text()| ==> (s[k] == ESC <==> k == i)
  {
    assert forall k :: i <= k < i + |q.Text()| ==> s[k] == s[i..][k - i] == q.Text()[k - i];
  }

  /** Every query of s that covers k begins there. */
  ghost predicate Boundary(s: seq<Byte>, k: nat) {
    forall i: nat, q: Query :: OccursAround(s, i, q, k) ==> i == k
  }

  /** A query at k fits in s, and all its positions lie in it. */
  lemma AllInside(s: seq<Byte>, k: nat, q: Query)
    requires k < |s| && QueryAtFront(s[k..]) == Some(q)
    ensures k + |q.Text()| <= |s| && OccursAround(s, k, q, k)
    ensures forall p: nat :: k <= p < k + |q.Text()| ==> InQuery(s, p)
  {
    QueryIsPrefix(s[k..], q);
    var n := |q.Text()|;
    forall p: nat | k <= p < k + n ensures InQuery(s, p) {
      assert OccursAround(s, k, q, p);
    }
  }

  lemma BoundaryAfter(s: seq<Byte>, k: nat, q: Query, next: nat)
    requires OccursAround(s, k, q, k) && next == k + |q.Text()|
    ensures Boundary(s, next)
  {
    forall i: nat, q': Query ensures OccursAround(s, i, q', next) ==> i == next {
      if OccursAround(s, i, q', next) && OccursAround(s, i, q', next - 1) {
        assert OccursAround(s, k, q, next - 1);
        OccurrencesDisjoint(s, i, q', k, q, next - 1);
      }
    }
  }

  lemma NoQueryHere(s: seq<Byte>, k: nat)
    requires k < |s| && Boundary(s, k) && QueryAtFront(s[k..]).None?
    ensures !InQuery(s, k) && Boundary(s, k + 1)
  {
    forall i: nat, q: Query ensures !OccursAround(s, i, q, k) {
      QueryIsPrefix(s[k..], q);
    }
    var next := k + 1;
    forall i: nat, q: Query ensures OccursAround(s, i, q, next) ==> i == next {
      assert !OccursAround(s, i, q, k);
    }
  }

  // ---------------------------------------------------------------------
  // Scanning a text, and gathering over its positions
  // ---------------------------------------------------------------------

  /** One move of a scan: what it puts out, and how much it goes forward. */
  datatype Move = Move(emit: seq<Byte>, length: nat)

  type Mover = seq<Byte> -> Move

  /** What a scan puts out; one that does not go forward, or goes too far, stops. */
  ghost function Scan(move: Mover, s: seq<Byte>): seq<Byte>
    decreases |s|
  {
    if s == [] then []
    else
      var m := move(s);
      m.emit + if 0 < m.length <= |s| then Scan(move, s[m.length..]) else []
  }

  /** The same over positions: n are left from k on, and `at` says how to move from each. */
  ghost function Walk(at: nat -> Move, k: nat, n: nat): seq<Byte>
    decreases n
  {
    if n == 0 then []
    else
      var m := at(k);
      m.emit + if 0 < m.length <= n then Walk(at, k + m.length, n - m.length) else []
  }

  ghost predicate MovesAt(move: Mover, s: seq<Byte>, at: nat -> Move) {
    forall p: nat {:trigger at(p)} :: p < |s| ==> at(p) == move(s[p..])
  }

  /** From position k on, scanning and walking come to the same. */
  ghost predicate SameWalk(move: Mover, s: seq<Byte>, at: nat -> Move, k: nat) {
    k <= |s| && Scan(move, s[k..]) == Walk(at, k, |s| - k)
  }

  lemma WalkEnd(move: Mover, s: seq<Byte>, at: nat -> Move)
    ensures SameWalk(move, s, at, |s|)
  {
    assert s[|s|..] == [];
  }

  lemma WalkStep(move: Mover, s: seq<Byte>, at: nat -> Move, k: nat, m: Move)
    requires k < |s| && at(k) == move(s[k..]) == m
    requires 0 < m.length && k + m.length <= |s| ==> SameWalk(move, s, at, k + m.length)
    ensures SameWalk(move, s, at, k)
  {
    if k + m.length <= |s| {
      DropTwice(s, k, m.length);
    }
  }

  lemma {:induction false} ScanWalks(move: Mover, s: seq<Byte>, at: nat -> Move, k: nat)
    requires k <= |s| && MovesAt(move, s, at)
    ensures SameWalk(move, s, at, k)
    decreases |s| - k
  {
    if k == |s| {
      WalkEnd(move, s, at);
    } else {
      var m := at(k);
      if 0 < m.length && k + m.length <= |s| {
        ScanWalks(move, s, at, k + m.length);
      }
      WalkStep(move, s, at, k, m);
    }
  }

  /** The move from k puts out part(k), stays before end, and passes over positions with no part. */
  ghost predicate Covers(at: nat -> Move, part: nat -> seq<Byte>, k: nat, end: nat) {
    var m := at(k);
    && m.emit == part(k) && 0 < m.length && k + m.length <= end
    && forall p: nat {:trigger part(p)} :: k < p < k + m.length ==> part(p) == []
  }

  /** Where a walk lands it covers, and it goes on to land. */
  ghost predicate AllCovered(at: nat -> Move, part: nat -> seq<Byte>, lands: nat -> bool, end: nat) {
    forall k: nat {:trigger at(k)} :: k < end && lands(k) ==>
      Covers(at, part, k, end) && lands(k + at(k).length)
  }

  lemma {:induction false} GatherSkips(part: nat -> seq<Byte>, from: nat, j: nat, n: nat)
    requires j <= n && forall p: nat {:trigger part(p)} :: from <= p < from + j ==> part(p) == []
    ensures Gather(part, from, n) == Gather(part, from + j, n - j)
    decreases j
  {
    if j > 0 {
      assert part(from) == [];
      GatherSkips(part, from + 1, j - 1, n - 1);
    }
  }

  ghost predicate WalkIs(at: nat -> Move, part: nat -> seq<Byte>, k: nat, n: nat) {
    Walk(at, k, n) == Gather(part, k, n)
  }

  /** A walk that covers puts out what gathering over every position does. */
  lemma {:induction false} WalkGathers(at: nat -> Move, part: nat -> seq<Byte>, lands: nat -> bool, k: nat, n: nat)
    requires AllCovered(at, part, lands, k + n) && lands(k)
    ensures WalkIs(at, part, k, n)
    decreases n
  {
    if n > 0 {
      var m := at(k);
      assert Covers(at, part, k, k + n);
      WalkGathers(at, part, lands, k + m.length, n - m.length);
      GatherMove(at, part, k, n);
    }
  }

  lemma GatherMove(at: nat -> Move, part: nat -> seq<Byte>, k: nat, n: nat)
    requires n > 0 && Covers(at, part, k, k + n) && WalkIs(at, part, k + at(k).length, n - at(k).length)
    ensures WalkIs(at, part, k, n)
  {
    GatherSkips(part, k + 1, at(k).length - 1, n - 1);
  }

  /** Scanning s puts out what gathering over its positions does. */
  ghost predicate ScanIs(move: Mover, s: seq<Byte>, part: nat -> seq<Byte>) {
    Scan(move, s) == Gather(part, 0, |s|)
  }

  lemma ScanByWalk(move: Mover, s: seq<Byte>, at: nat -> Move, part: nat -> seq<Byte>)
    requires SameWalk(move, s, at, 0) && WalkIs(at, part, 0, |s|)
    ensures ScanIs(move, s, part)
  {
    assert s[0..] == s;
  }

  lemma ScanGathers(move: Mover, s: seq<Byte>, at: nat -> Move, part: nat -> seq<Byte>, lands: nat -> bool)
    requires MovesAt(move, s, at) && AllCovered(at, part, lands, |s|) && lands(0)
    ensures ScanIs(move, s, part)
  {
    ScanWalks(move, s, at, 0);
    WalkGathers(at, part, lands, 0, |s|);
    ScanByWalk(move, s, at, part);
  }

  // ---------------------------------------------------------------------
  // Deleting keeps exactly the bytes outside every occurrence
  // ---------------------------------------------------------------------

  function StripMove(s: seq<Byte>): Move {
    match QueryAtFront(s)
    case Some(q) => Move([], |q.Text()|)
    case None => Move(if s == [] then [] else [s[0]], 1)
  }

  lemma {:induction false} StripIsScan(s: seq<Byte>)
    ensures Strip(s) == Scan(StripMove, s)
    decreases |s|
  {
    if s != [] {
      match QueryAtFront(s) {
        case Some(q) =>
          QueryIsPrefix(s, q);
          StripIsScan(s[|q.Text()|..]);
        case None => StripIsScan(s[1..]);
      }
    }
  }

  /** From a boundary, the next move keeps the byte there or deletes the query there, and lands on a boundary. */
  lemma StripCovers(s: seq<Byte>, k: nat, m: Move)
    requires k < |s| && Boundary(s, k) && m == StripMove(s[k..])
    ensures m.emit == KeptAt(s, k) && 0 < m.length && k + m.length <= |s| && Boundary(s, k + m.length)
    ensures forall p: nat :: k < p < k + m.length ==> KeptAt(s, p) == []
  {
    match QueryAtFront(s[k..]) {
      case Some(q) =>
        QuerySkipped(s, k, q, m.length);
      case None =>
        NoQueryHere(s, k);
    }
  }

  lemma QuerySkipped(s: seq<Byte>, k: nat, q: Query, n: nat)
    requires k < |s| && Boundary(s, k) && QueryAtFront(s[k..]) == Some(q) && n == |q.Text()|
    ensures k + n <= |s| && Boundary(s, k + n)
    ensures forall p: nat :: k <= p < k + n ==> KeptAt(s, p) == []
  {
    AllInside(s, k, q);
    BoundaryAfter(s, k, q, k + n);
  }

  /** What deletes, keeps and lands, as functions of the position. */
  ghost predicate StripWalk(s: seq<Byte>, at: nat -> Move, part: nat -> seq<Byte>, lands: nat -> bool) {
    && (forall p: nat {:trigger at(p)} :: p <= |s| ==> at(p) == StripMove(s[p..]))
    && (forall p: nat {:trigger part(p)} :: part(p) == KeptAt(s, p))
    && (forall p: nat {:trigger lands(p)} :: lands(p) == Boundary(s, p))
  }

  lemma StripCoversAt(s: seq<Byte>, at: nat -> Move, part: nat -> seq<Byte>, lands: nat -> bool, k: nat)
    requires StripWalk(s, at, part, lands) && k < |s| && lands(k)
    ensures Covers(at, part, k, |s|) && lands(k + at(k).length)
  {
    StripCovers(s, k, at(k));
  }

  lemma StripAllCovered(s: seq<Byte>, at: nat -> Move, part: nat -> seq<Byte>, lands: nat -> bool)
    requires StripWalk(s, at, part, lands)
    ensures AllCovered(at, part, lands, |s|)
  {
    forall k: nat | k < |s| && lands(k) ensures Covers(at, part, k, |s|) && lands(k + at(k).length) {
      StripCoversAt(s, at, part, lands, k);
    }
  }

  /** `Strip` keeps, in order, exactly the bytes that lie in no query. */
  lemma StripKeepsOutside(s: seq<Byte>)
    ensures Strip(s) == OutsideQueries(s)
  {
    var at := (p: nat) => if p <= |s| then StripMove(s[p..]) else Move([], 1);
    var part := (p: nat) => KeptAt(s, p);
    var lands := (p: nat) => Boundary(s, p);
    StripAllCovered(s, at, part, lands);
    StripIsScan(s);
    ScanGathers(StripMove, s, at, part, lands);
  }

  // ---------------------------------------------------------------------
  // Replies answers exactly the occurrences
  // ---------------------------------------------------------------------

  function ReplyMove(s: seq<Byte>): Move {
    match QueryAtFront(s)
    case Some(q) => Move(q.Reply(), |q.Text()|)
    case None => Move([], 1)
  }

  lemma {:induction false} RepliesIsScan(s: seq<Byte>)
    ensures Replies(s) == Scan(ReplyMove, s)
    decreases |s|
  {
    if s != [] {
      match QueryAtFront(s) {
        case Some(q) =>
          QueryIsPrefix(s, q);
          RepliesIsScan(s[|q.Text()|..]);
        case None => RepliesIsScan(s[1..]);
      }
    }
  }

  lemma ReplyToFront(s: seq<Byte>, p: nat)
    requires p <= |s|
    ensures ReplyAt(s, p) == ReplyMove(s[p..]).emit
  {
    QueryIsPrefix(s[p..], Primary);
    QueryIsPrefix(s[p..], Primary0);
    QueryIsPrefix(s[p..], Secondary);
    QueryIsPrefix(s[p..], Secondary0);
  }

  /** No query starts inside another. */
  lemma NothingInside(s: seq<Byte>, k: nat, q: Query, p: nat)
    requires k < |s| && QueryAtFront(s[k..]) == Some(q) && k < p < k + |q.Text()|
    ensures p < |s| && ReplyAt(s, p) == []
  {
    AllInside(s, k, q);
    StartsOnce(s, k, q);
    assert s[p..][0] == s[p] != ESC;
    ReplyToFront(s, p);
  }

  lemma ReplyCovers(s: seq<Byte>, k: nat)
    requires k < |s|
    ensures var m := ReplyMove(s[k..]);
            && m.emit == ReplyAt(s, k) && 0 < m.length && k + m.length <= |s|
            && forall p: nat :: k < p < k + m.length ==> ReplyAt(s, p) == []
  {
    ReplyToFront(s, k);
    var f := QueryAtFront(s[k..]);
    if f.Some? {
      AllInside(s, k, f.value);
      forall p: nat | k < p < k + |f.value.Text()| ensures ReplyAt(s, p) == [] {
        NothingInside(s, k, f.value, p);
      }
    }
  }

  /** The replies are those to the queries that occur in s, each once, by where they start. */
  lemma RepliesAnswerOccurrences(s: seq<Byte>)
    ensures Replies(s) == RepliesOwed(s)
  {
    var at := (p: nat) => if p <= |s| then ReplyMove(s[p..]) else Move([], 1);
    var part := (p: nat) => ReplyAt(s, p);
    var lands := (p: nat) => true;
    forall k: nat | k < |s| ensures Covers(at, part, k, |s|) {
      ReplyCovers(s, k);
    }
    RepliesIsScan(s);
    ScanGathers(ReplyMove, s, at, part, lands);
  }
}
