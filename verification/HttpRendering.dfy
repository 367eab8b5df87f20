/** Request heads written out from their pieces (sections 3.1.1, 3.2 and 3.5 of RFC 7230), and where the
    parser's scans end. */
module HttpRendering {
  import opened Bytes
  import opened Options
  import opened HttpGrammar

  // ---- the pieces

  function Code(c: char): int { c as int }

  /** The characters of tokens in section 3.2.6 of RFC 7230. */
  const MARKS := "!#$%&'*+-.^_`|~"

  predicate Among(c: byte, marks: string) { exists i :: 0 <= i < |marks| && c as int == Code(marks[i]) }

  predicate InToken(c: byte) {
    || Code('0') <= c as int <= Code('9') || Code('A') <= c as int <= Code('Z') || Code('a') <= c as int <= Code('z')
    || Among(c, MARKS)
  }

  lemma TokenChars(c: byte)
    ensures TokenChar(c) <==> InToken(c)
  {
    forall i | 0 <= i < |MARKS| && c as int == Code(MARKS[i]) ensures TokenChar(c) {
      Marks(i);
    }
    if c == 33 || 35 <= c <= 39 || 42 <= c <= 46 || 94 <= c <= 96 || c == 124 || c == 126 {
      var i := if c == 33 then 0 else if c <= 39 then c as int - 34 else if c <= 43 then c as int - 36
               else if c <= 46 then c as int - 37 else if c <= 96 then c as int - 84 else if c == 124 then 13 else 14;
      assert c != 44 ==> Code(MARKS[i]) == c as int;
    }
  }

  lemma Marks(i: nat)
    requires i < |MARKS|
    ensures var c := Code(MARKS[i]);
            c == 33 || 35 <= c <= 39 || c == 42 || c == 43 || c == 45 || c == 46 || 94 <= c <= 96 || c == 124 || c == 126
  {
  }

  predicate IsToken(t: seq<byte>) { t != [] && forall i :: 0 <= i < |t| ==> InToken(t[i]) }

  /** Bytes above the space, other than DEL. */
  predicate IsPath(t: seq<byte>) { t != [] && forall i :: 0 <= i < |t| ==> t[i] > 32 && t[i] != 127 }

  predicate Space(c: byte) { c == 32 || c == 9 }

  predicate AllSpace(t: seq<byte>) { forall i :: 0 <= i < |t| ==> Space(t[i]) }

  predicate InValue(c: byte) { c == 9 || (c >= 32 && c != 127) }

  /** The value of a header, which does not end in blanks. */
  predicate IsValue(t: seq<byte>) {
    (t != [] ==> !Space(t[|t| - 1])) && forall i :: 0 <= i < |t| ==> InValue(t[i])
  }

  // ---- writing them out

  /** A header line, or one that continues the header before it: then it has no name and begins with a
      blank. */
  datatype Line = Line(name: Option<seq<byte>>, gap: seq<byte>, value: seq<byte>, pad: seq<byte>, crlf: bool)

  /** A request head: perhaps an empty line, the request line, header lines, an empty line. */
  datatype Head = Head(lead: Option<bool>, method_: seq<byte>, gap: nat, path: seq<byte>, gap': nat, digit: nat, crlf: bool,
                       lines: seq<Line>, last: bool)

  function Eol(crlf: bool): seq<byte> { if crlf then [13, 10] else [10] }

  function Spaces(n: nat): seq<byte> { seq(n, _ => 32) }

  const VERSION := "HTTP/1."

  function Ascii(t: string): seq<byte>
    requires forall i :: 0 <= i < |t| ==> Code(t[i]) < 128
  {
    seq(|t|, i requires 0 <= i < |t| => Code(t[i]) as byte)
  }

  predicate LineOk(l: Line) {
    && AllSpace(l.gap) && IsValue(l.value) && AllSpace(l.pad)
    && match l.name
       case Some(name) => IsToken(name) && (if l.value == [] then l.pad == [] else !Space(l.value[0]))
       case None => l.gap == [] && l.value + l.pad != [] && Space((l.value + l.pad)[0])
  }

  predicate LinesOk(ls: seq<Line>) { forall i :: 0 <= i < |ls| ==> LineOk(ls[i]) }

  predicate HeadOk(h: Head) {
    && IsToken(h.method_) && IsPath(h.path) && h.gap >= 1 && h.gap' >= 1 && h.digit < 10
    && LinesOk(h.lines) && (h.lines != [] ==> h.lines[0].name.Some?)
  }

  function LineText(l: Line): seq<byte> {
    (if l.name.Some? then l.name.value + ([58] + l.gap) else []) + (l.value + (l.pad + Eol(l.crlf)))
  }

  function LinesText(ls: seq<Line>): seq<byte> {
    if ls == [] then [] else LineText(ls[0]) + LinesText(ls[1..])
  }

  function VersionText(digit: nat): seq<byte>
    requires digit < 10
  {
    Ascii(VERSION) + [48 + digit as byte]
  }

  function RequestText(h: Head): seq<byte>
    requires h.digit < 10
  {
    h.method_ + (Spaces(h.gap) + (h.path + (Spaces(h.gap') + (VersionText(h.digit) + Eol(h.crlf)))))
  }

  function LeadText(h: Head): seq<byte> { if h.lead.Some? then Eol(h.lead.value) else [] }

  function HeadText(h: Head): seq<byte>
    requires h.digit < 10
  {
    LeadText(h) + (RequestText(h) + (LinesText(h.lines) + Eol(h.last)))
  }

  // ---- reading them back

  predicate Inside(s: seq<byte>, p: Span) { p.start + p.len <= |s| }

  function Piece(s: seq<byte>, p: Span): seq<byte>
    requires Inside(s, p)
  {
    s[p.start..p.start + p.len]
  }

  predicate LineRead(s: seq<byte>, x: Header, l: Line) {
    && (x.name.Some? <==> l.name.Some?)
    && (x.name.Some? ==> Inside(s, x.name.value) && Piece(s, x.name.value) == l.name.value)
    && Inside(s, x.value) && Piece(s, x.value) == l.value
  }

  predicate LinesRead(s: seq<byte>, xs: seq<Header>, ls: seq<Line>) {
    |xs| == |ls| && forall i :: 0 <= i < |xs| ==> LineRead(s, xs[i], ls[i])
  }

  /** The input at the places found is what the request was written from. */
  predicate HeadRead(s: seq<byte>, q: Request, h: Head) {
    && Inside(s, q.method_) && Piece(s, q.method_) == h.method_
    && Inside(s, q.path) && Piece(s, q.path) == h.path
    && q.minor == h.digit && LinesRead(s, q.headers, h.lines)
  }

  // ---- where texts stand

  predicate StandsAt(s: seq<byte>, i: nat, t: seq<byte>) {
    i + |t| <= |s| && forall k :: 0 <= k < |t| ==> s[i + k] == t[k]
  }

  lemma StandsSplit(s: seq<byte>, i: nat, a: seq<byte>, b: seq<byte>)
    ensures StandsAt(s, i, a + b) <==> StandsAt(s, i, a) && StandsAt(s, i + |a|, b)
  {
    if StandsAt(s, i, a + b) {
      forall k | 0 <= k < |a| ensures s[i + k] == a[k] { assert (a + b)[k] == a[k]; }
      forall k | 0 <= k < |b| ensures s[i + |a| + k] == b[k] { assert (a + b)[|a| + k] == b[k] && s[i + (|a| + k)] == b[k]; }
    }
    if StandsAt(s, i, a) && StandsAt(s, i + |a|, b) {
      forall k | 0 <= k < |a + b| ensures s[i + k] == (a + b)[k] {
        assert k >= |a| ==> s[i + |a| + (k - |a|)] == b[k - |a|];
      }
    }
  }

  lemma StandsSlice(s: seq<byte>, i: nat, t: seq<byte>)
    ensures StandsAt(s, i, t) <==> i + |t| <= |s| && s[i..i + |t|] == t
  {
    if StandsAt(s, i, t) {
      forall k | 0 <= k < |t| ensures s[i..i + |t|][k] == t[k] { assert s[i + k] == t[k]; }
    }
  }

  // ---- where the scans end

  lemma Ended(r: Parse<()>)
    requires r.Got?
    ensures r == Got(r.next, ())
  {
    match r {
      case Got(_, ()) =>
    }
  }

  lemma {:induction false} FindControlAt(s: seq<byte>, i: nat)
    ensures !FindControl(s, i).Bad?
    ensures forall j: nat :: FindControl(s, i) == Got(j, ()) <==> i <= j < |s| && Control(s[j]) && forall k :: i <= k < j ==> !Control(s[k])
    decreases |s| - i
  {
    if i < |s| && !Control(s[i]) {
      FindControlAt(s, i + 1);
    }
  }

  lemma {:induction false} FindTokenAt(s: seq<byte>, i: nat, stop: byte)
    ensures forall j: nat :: FindToken(s, i, stop) == Got(j, ()) <==>
              i <= j < |s| && s[j] == stop && forall k :: i <= k < j ==> s[k] != stop && TokenChar(s[k])
    decreases |s| - i
  {
    if i < |s| && s[i] != stop && TokenChar(s[i]) {
      FindTokenAt(s, i + 1, stop);
    }
  }

  lemma {:induction false} FindSpaceAt(s: seq<byte>, i: nat)
    ensures forall j: nat :: FindSpace(s, i) == Got(j, ()) <==>
              i <= j < |s| && s[j] == SP && forall k :: i <= k < j ==> s[k] > 32 && s[k] != DEL
    decreases |s| - i
  {
    if i < |s| && s[i] != SP && s[i] >= 32 && s[i] != DEL {
      FindSpaceAt(s, i + 1);
    }
  }

  lemma {:induction false} SkipBlanksAt(s: seq<byte>, i: nat, tabs: bool)
    ensures forall j: nat :: SkipBlanks(s, i, tabs) == Got(j, ()) <==>
              i <= j < |s| && !(s[j] == SP || (tabs && s[j] == HT)) && forall k :: i <= k < j ==> s[k] == SP || (tabs && s[k] == HT)
    ensures !SkipBlanks(s, i, tabs).Bad?
    decreases |s| - i
  {
    if i < |s| && (s[i] == SP || (tabs && s[i] == HT)) {
      SkipBlanksAt(s, i + 1, tabs);
    }
  }

  lemma EolAt(s: seq<byte>, i: nat, crlf: bool)
    requires StandsAt(s, i, Eol(crlf))
    ensures EndOfLine(s, i) == Got(i + |Eol(crlf)|, ())
  {
    assert s[i + 0] == Eol(crlf)[0];
    assert crlf ==> s[i + 1] == Eol(crlf)[1];
  }

  lemma EolOf(s: seq<byte>, i: nat) returns (crlf: bool)
    requires EndOfLine(s, i).Got?
    ensures StandsAt(s, i, Eol(crlf)) && EndOfLine(s, i).next == i + |Eol(crlf)|
  {
    crlf := s[i] == CR;
  }

  lemma VersionAt(s: seq<byte>, i: nat)
    ensures forall k: nat, m: nat :: Version(s, i) == Got(k, m) <==> i + 9 <= |s| && k == i + 8 && m < 10 && StandsAt(s, i, VersionText(m))
  {
    if i + 9 <= |s| {
      assert Ascii(VERSION) == [72, 84, 84, 80, 47, 49, 46];
      StandsSlice(s, i, Ascii(VERSION));
      forall m: nat | m < 10 ensures StandsAt(s, i, VersionText(m)) <==> s[i..i + 7] == Ascii(VERSION) && s[i + 7] == 48 + m as byte {
        StandsSplit(s, i, Ascii(VERSION), [48 + m as byte]);
        StandsSlice(s, i + 7, [48 + m as byte]);
      }
    }
  }
}
