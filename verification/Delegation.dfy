/**
  Delegation text (wallet/delegation.go): the nine-line message a wallet signs,
  its renderer and its strict parser.

  `ParseAfterRender` gives the exact fields the parser recovers, and
  `RenderAfterParse` shows that every accepted text is the canonical one, so a
  signature over it covers one reading and no other.
 */
module Delegation {
  import opened Common
  import opened Text
  import opened Base58
  import Caps

  type Key = seq<Byte>

  /** An instant, in nanoseconds. */
  type Time = int

  const SECOND: int := 1_000_000_000

  /** The two operations used of Go's time package, with the RFC 3339 layout and UTC output. */
  datatype TimeLibrary = TimeLibrary(format: Time -> string, parse: string -> Option<Time>)

  datatype Fields = Fields(session: Key, delegator: Key, delegate: Key, caps: Caps.Caps,
                           notBefore: Time, notAfter: Time, nonce: seq<Byte>)

  const HEADER := "mosey session authorization v1"
  const KEY_SIZE := 32
  const NONCE_SIZE := 16

  function Truncate(t: Time): Time {
    t - t % SECOND
  }

  function RenderTime(lib: TimeLibrary, t: Time): string {
    lib.format(Truncate(t))
  }

  datatype ParseError =
    | LineCount | BadHeader | NotBlank
    | WrongLabel(line: nat) | BadBase58(line: nat) | BadLength(line: nat)
    | BadCaps | BadTimestamp | NotCanonicalTimestamp

  function ParseTime(lib: TimeLibrary, s: string): Result<Time, ParseError> {
    match lib.parse(s)
    case None => Err(BadTimestamp)
    case Some(t) => if RenderTime(lib, t) != s then Err(NotCanonicalTimestamp) else Ok(t)
  }

  function Labelled(name: string, value: string): string {
    name + ": " + value
  }

  function Lines(lib: TimeLibrary, f: Fields): seq<string> {
    [HEADER,
     "",
     Labelled("session", Encode58(f.session)),
     Labelled("delegator", Encode58(f.delegator)),
     Labelled("delegate", Encode58(f.delegate)),
     Labelled("caps", Caps.Render(f.caps)),
     Labelled("not-before", RenderTime(lib, f.notBefore)),
     Labelled("not-after", RenderTime(lib, f.notAfter)),
     Labelled("nonce", Encode58(f.nonce))]
  }

  function Render(lib: TimeLibrary, f: Fields): string {
    Join(Lines(lib, f), "\n")
  }

  lemma JoinOn(part: string, parts: seq<string>)
    requires parts != []
    ensures Join([part] + parts, "\n") == part + "\n" + Join(parts, "\n")
  {
    JoinCons(part, parts, "\n");
  }

  /** Nine strings joined, one line at a time. */
  lemma NineJoined(a: string, b: string, c: string, d: string, e: string,
                   f: string, g: string, h: string, i: string)
    ensures Join([a, b, c, d, e, f, g, h, i], "\n")
         == a + "\n" + (b + "\n" + (c + "\n" + (d + "\n" + (e + "\n" + (f + "\n" + (g + "\n" + (h + "\n" + i)))))))
  {
    JoinOn(h, [i]);
    assert [h] + [i] == [h, i];
    JoinOn(g, [h, i]);
    assert [g] + [h, i] == [g, h, i];
    JoinOn(f, [g, h, i]);
    assert [f] + [g, h, i] == [f, g, h, i];
    JoinOn(e, [f, g, h, i]);
    assert [e] + [f, g, h, i] == [e, f, g, h, i];
    JoinOn(d, [e, f, g, h, i]);
    assert [d] + [e, f, g, h, i] == [d, e, f, g, h, i];
    JoinOn(c, [d, e, f, g, h, i]);
    assert [c] + [d, e, f, g, h, i] == [c, d, e, f, g, h, i];
    JoinOn(b, [c, d, e, f, g, h, i]);
    assert [b] + [c, d, e, f, g, h, i] == [b, c, d, e, f, g, h, i];
    JoinOn(a, [b, c, d, e, f, g, h, i]);
    assert [a] + [b, c, d, e, f, g, h, i] == [a, b, c, d, e, f, g, h, i];
  }

  /** The text a wallet is asked to sign, spelled out. */
  lemma Wording(lib: TimeLibrary, f: Fields)
    ensures Render(lib, f)
         == "mosey session authorization v1" + "\n" + ("" + "\n"
            + (("session: " + Encode58(f.session)) + "\n"
            + (("delegator: " + Encode58(f.delegator)) + "\n"
            + (("delegate: " + Encode58(f.delegate)) + "\n"
            + (("caps: " + Caps.Render(f.caps)) + "\n"
            + (("not-before: " + RenderTime(lib, f.notBefore)) + "\n"
            + (("not-after: " + RenderTime(lib, f.notAfter)) + "\n"
            + ("nonce: " + Encode58(f.nonce)))))))))
  {
    Labels();
    NineJoined(HEADER, "",
               Labelled("session", Encode58(f.session)),
               Labelled("delegator", Encode58(f.delegator)),
               Labelled("delegate", Encode58(f.delegate)),
               Labelled("caps", Caps.Render(f.caps)),
               Labelled("not-before", RenderTime(lib, f.notBefore)),
               Labelled("not-after", RenderTime(lib, f.notAfter)),
               Labelled("nonce", Encode58(f.nonce)));
  }

  lemma Labels()
    ensures "session" + ": " == "session: " && "delegator" + ": " == "delegator: "
    ensures "delegate" + ": " == "delegate: " && "caps" + ": " == "caps: "
    ensures "not-before" + ": " == "not-before: " && "not-after" + ": " == "not-after: "
    ensures "nonce" + ": " == "nonce: "
  {
  }

  // ---------------------------------------------------------------------
  // The parser
  // ---------------------------------------------------------------------

  function Field(lines: seq<string>, i: nat, name: string): Result<string, ParseError>
    requires i < |lines|
  {
    var prefix := name + ": ";
    if prefix <= lines[i] then Ok(lines[i][|prefix|..]) else Err(WrongLabel(i))
  }

  function Bytes(lines: seq<string>, i: nat, name: string, size: nat): Result<seq<Byte>, ParseError>
    requires i < |lines|
  {
    var s :- Field(lines, i, name);
    match Decode58(s)
    case None => Err(BadBase58(i))
    case Some(b) => if |b| != size then Err(BadLength(i)) else Ok(b)
  }

  function CapsField(lines: seq<string>, i: nat, name: string): Result<Caps.Caps, ParseError>
    requires i < |lines|
  {
    var s :- Field(lines, i, name);
    match Caps.Parse(s)
    case None => Err(BadCaps)
    case Some(c) => Ok(c)
  }

  function TimeField(lib: TimeLibrary, lines: seq<string>, i: nat, name: string): Result<Time, ParseError>
    requires i < |lines|
  {
    var s :- Field(lines, i, name);
    ParseTime(lib, s)
  }

  function ParseLines(lib: TimeLibrary, lines: seq<string>): Result<Fields, ParseError> {
    if |lines| != 9 then Err(LineCount)
    else if lines[0] != HEADER then Err(BadHeader)
    else if lines[1] != "" then Err(NotBlank)
    else
      var session :- Bytes(lines, 2, "session", KEY_SIZE);
      var delegator :- Bytes(lines, 3, "delegator", KEY_SIZE);
      var delegate :- Bytes(lines, 4, "delegate", KEY_SIZE);
      var caps :- CapsField(lines, 5, "caps");
      var notBefore :- TimeField(lib, lines, 6, "not-before");
      var notAfter :- TimeField(lib, lines, 7, "not-after");
      var nonce :- Bytes(lines, 8, "nonce", NONCE_SIZE);
      Ok(Fields(session, delegator, delegate, caps, notBefore, notAfter, nonce))
  }

  function ParseContent(lib: TimeLibrary, content: string): Result<Fields, ParseError> {
    ParseLines(lib, Split(content, "\n"))
  }

  // ---------------------------------------------------------------------
  // Canonical text
  // ---------------------------------------------------------------------

  lemma FieldIsLine(lines: seq<string>, i: nat, name: string, value: string)
    requires i < |lines|
    ensures Field(lines, i, name) == Ok(value) <==> lines[i] == Labelled(name, value)
  {
    var prefix := name + ": ";
    if prefix <= lines[i] {
      SplitAt(lines[i], |prefix|);
    }
    DropPrefix(prefix, value);
  }

  /** A byte field is read as b exactly from its canonical line. */
  lemma BytesIsLine(lines: seq<string>, i: nat, name: string, size: nat, b: seq<Byte>)
    requires i < |lines| && size > 0
    ensures Bytes(lines, i, name, size) == Ok(b)
       <==> |b| == size && lines[i] == Labelled(name, Encode58(b))
  {
    var s := Field(lines, i, name);
    if s.Ok? {
      FieldIsLine(lines, i, name, s.value);
      if Decode58(s.value) == Some(b) && |b| == size {
        EncodeAfterDecode(s.value);
        assert s.value != "" by {
          EmptyDecodesEmpty();
        }
      }
    }
    if |b| == size {
      FieldIsLine(lines, i, name, Encode58(b));
      DecodeAfterEncode(b);
    }
  }

  lemma EmptyDecodesEmpty()
    ensures Decode58("") == Some([])
  {
    assert Indices("") == [];
    assert Convert([], RADIX, 256) == [];
  }

  lemma CapsIsLine(lines: seq<string>, i: nat, name: string, c: Caps.Caps)
    requires i < |lines|
    ensures CapsField(lines, i, name) == Ok(c)
       <==> Caps.Subset(c, Caps.ALL_CAPS) && lines[i] == Labelled(name, Caps.Render(c))
  {
    var s := Field(lines, i, name);
    if s.Ok? {
      FieldIsLine(lines, i, name, s.value);
      Caps.ParseInvertsRender(s.value, c);
    }
    FieldIsLine(lines, i, name, Caps.Render(c));
    Caps.ParseInvertsRender(Caps.Render(c), c);
  }

  /** The library reads the rendering of t back as t. */
  predicate Representable(lib: TimeLibrary, t: Time) {
    lib.parse(RenderTime(lib, t)) == Some(t)
  }

  lemma TimeIsLine(lib: TimeLibrary, lines: seq<string>, i: nat, name: string, t: Time)
    requires i < |lines|
    ensures TimeField(lib, lines, i, name) == Ok(t)
       <==> Representable(lib, t) && lines[i] == Labelled(name, RenderTime(lib, t))
  {
    var s := Field(lines, i, name);
    if s.Ok? {
      FieldIsLine(lines, i, name, s.value);
    }
    FieldIsLine(lines, i, name, RenderTime(lib, t));
  }

  /** Fields whose rendering the parser reads back, given what the library does with the two times. */
  predicate Readable(lib: TimeLibrary, f: Fields) {
    && |f.session| == |f.delegator| == |f.delegate| == KEY_SIZE
    && |f.nonce| == NONCE_SIZE
    && Caps.Subset(f.caps, Caps.ALL_CAPS)
    && Representable(lib, f.notBefore)
    && Representable(lib, f.notAfter)
  }

  /** lines, one by one, are those that f renders to. */
  predicate LineByLine(lib: TimeLibrary, lines: seq<string>, f: Fields) {
    && |lines| == 9
    && lines[0] == HEADER
    && lines[1] == ""
    && lines[2] == Labelled("session", Encode58(f.session))
    && lines[3] == Labelled("delegator", Encode58(f.delegator))
    && lines[4] == Labelled("delegate", Encode58(f.delegate))
    && lines[5] == Labelled("caps", Caps.Render(f.caps))
    && lines[6] == Labelled("not-before", RenderTime(lib, f.notBefore))
    && lines[7] == Labelled("not-after", RenderTime(lib, f.notAfter))
    && lines[8] == Labelled("nonce", Encode58(f.nonce))
  }

  lemma LineByLineIsLines(lib: TimeLibrary, lines: seq<string>, f: Fields)
    ensures LineByLine(lib, lines, f) <==> lines == Lines(lib, f)
  {
    NineLines(lines, HEADER, "",
              Labelled("session", Encode58(f.session)),
              Labelled("delegator", Encode58(f.delegator)),
              Labelled("delegate", Encode58(f.delegate)),
              Labelled("caps", Caps.Render(f.caps)),
              Labelled("not-before", RenderTime(lib, f.notBefore)),
              Labelled("not-after", RenderTime(lib, f.notAfter)),
              Labelled("nonce", Encode58(f.nonce)));
  }

  lemma NineLines(lines: seq<string>, a: string, b: string, c: string, d: string, e: string,
                  f: string, g: string, h: string, i: string)
    ensures lines == [a, b, c, d, e, f, g, h, i] <==>
            && |lines| == 9
            && lines[0] == a && lines[1] == b && lines[2] == c && lines[3] == d && lines[4] == e
            && lines[5] == f && lines[6] == g && lines[7] == h && lines[8] == i
  {
  }

  lemma ParseLinesExact(lib: TimeLibrary, lines: seq<string>, f: Fields)
    requires |lines| == 9
    ensures ParseLines(lib, lines) == Ok(f) <==> Readable(lib, f) && LineByLine(lib, lines, f)
  {
    BytesIsLine(lines, 2, "session", KEY_SIZE, f.session);
    BytesIsLine(lines, 3, "delegator", KEY_SIZE, f.delegator);
    BytesIsLine(lines, 4, "delegate", KEY_SIZE, f.delegate);
    CapsIsLine(lines, 5, "caps", f.caps);
    TimeIsLine(lib, lines, 6, "not-before", f.notBefore);
    TimeIsLine(lib, lines, 7, "not-after", f.notAfter);
    BytesIsLine(lines, 8, "nonce", NONCE_SIZE, f.nonce);
  }

  /** Whatever the parser accepts is, byte for byte, the rendering of what it returned. */
  lemma RenderAfterParse(lib: TimeLibrary, content: string, f: Fields)
    requires ParseContent(lib, content) == Ok(f)
    ensures Readable(lib, f) && Render(lib, f) == content
  {
    var lines := Split(content, "\n");
    ParseLinesExact(lib, lines, f);
    LineByLineIsLines(lib, lines, f);
    JoinOfSplit(content, "\n");
  }

  /** Two accepted texts with the same fields are the same text. */
  lemma ParseInjective(lib: TimeLibrary, a: string, b: string)
    requires ParseContent(lib, a).Ok? && ParseContent(lib, a) == ParseContent(lib, b)
    ensures a == b
  {
    RenderAfterParse(lib, a, ParseContent(lib, a).value);
    RenderAfterParse(lib, b, ParseContent(lib, b).value);
  }

  lemma NoNewline(s: string)
    requires InAlphabet(s)
    ensures '\n' !in s
  {
  }

  lemma LinesHaveNoNewline(lib: TimeLibrary, f: Fields)
    requires '\n' !in RenderTime(lib, f.notBefore) && '\n' !in RenderTime(lib, f.notAfter)
    ensures forall line :: line in Lines(lib, f) ==> '\n' !in line
  {
    NoNewline(Encode58(f.session));
    NoNewline(Encode58(f.delegator));
    NoNewline(Encode58(f.delegate));
    NoNewline(Encode58(f.nonce));
    Caps.RenderOneLine(f.caps);
    LabelsOneLine();
    NineWithout(HEADER, "",
                LabelledOneLine("session", Encode58(f.session)),
                LabelledOneLine("delegator", Encode58(f.delegator)),
                LabelledOneLine("delegate", Encode58(f.delegate)),
                LabelledOneLine("caps", Caps.Render(f.caps)),
                LabelledOneLine("not-before", RenderTime(lib, f.notBefore)),
                LabelledOneLine("not-after", RenderTime(lib, f.notAfter)),
                LabelledOneLine("nonce", Encode58(f.nonce)));
  }

  lemma LabelsOneLine()
    ensures '\n' !in HEADER && '\n' !in "session" && '\n' !in "delegator" && '\n' !in "delegate"
    ensures '\n' !in "caps" && '\n' !in "not-before" && '\n' !in "not-after" && '\n' !in "nonce"
  {
  }

  function LabelledOneLine(name: string, value: string): (line: string)
    requires '\n' !in name && '\n' !in value
    ensures line == Labelled(name, value) && '\n' !in line
  {
    Labelled(name, value)
  }

  lemma NineWithout(a: string, b: string, c: string, d: string, e: string,
                    f: string, g: string, h: string, i: string)
    requires '\n' !in a && '\n' !in b && '\n' !in c && '\n' !in d && '\n' !in e
    requires '\n' !in f && '\n' !in g && '\n' !in h && '\n' !in i
    ensures forall line :: line in [a, b, c, d, e, f, g, h, i] ==> '\n' !in line
  {
  }

  // ---------------------------------------------------------------------
  // Times
  // ---------------------------------------------------------------------

  // The years 0000 to 9999, in nanoseconds from the Unix epoch: what four digits can write.
  const FIRST_INSTANT: Time := -62_167_219_200 * SECOND
  const LAST_INSTANT: Time := 253_402_300_800 * SECOND

  predicate FourDigitYear(t: Time) {
    FIRST_INSTANT <= t < LAST_INSTANT
  }

  predicate OnTheSecond(t: Time) {
    t % SECOND == 0
  }

  /**
    All that is asked of the library: a whole second is formatted on one line,
    and reads back exactly when its year has four digits (section 5.6 of RFC 3339).
   */
  ghost predicate Rfc3339(lib: TimeLibrary) {
    forall t :: OnTheSecond(t) ==>
      && '\n' !in lib.format(t)
      && lib.parse(lib.format(t)) == if FourDigitYear(t) then Some(t) else None
  }

  /** Rendering truncates, so a time survives it exactly when it is on a whole second of such a year. */
  lemma WholeSeconds(lib: TimeLibrary, t: Time)
    requires Rfc3339(lib)
    ensures '\n' !in RenderTime(lib, t)
    ensures Representable(lib, t) <==> OnTheSecond(t) && FourDigitYear(t)
  {
    assert OnTheSecond(Truncate(t));
  }

  /** Keys and nonce of the fixed sizes, only known capability bits, two whole seconds of four-digit years. */
  predicate WellFormed(f: Fields) {
    && |f.session| == |f.delegator| == |f.delegate| == 32
    && |f.nonce| == 16
    && f.caps & 0xf8 == 0
    && OnTheSecond(f.notBefore) && FourDigitYear(f.notBefore)
    && OnTheSecond(f.notAfter) && FourDigitYear(f.notAfter)
  }

  /** The parser recovers f from its rendering exactly when f is well formed. */
  lemma ParseAfterRender(lib: TimeLibrary, f: Fields)
    requires Rfc3339(lib)
    ensures ParseContent(lib, Render(lib, f)) == Ok(f) <==> WellFormed(f)
  {
    var lines := Lines(lib, f);
    WholeSeconds(lib, f.notBefore);
    WholeSeconds(lib, f.notAfter);
    LinesHaveNoNewline(lib, f);
    Caps.UnknownBits(f.caps);
    SplitOfJoin(lines, "\n");
    ParseLinesExact(lib, lines, f);
    LineByLineIsLines(lib, lines, f);
  }
}
