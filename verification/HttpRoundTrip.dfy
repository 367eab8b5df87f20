/** Parsing what was written out gives back the pieces, and whatever parses was written out of the
    pieces found. */
module HttpRoundTrip {
  import opened Bytes
  import opened Options
  import opened HttpGrammar
  import opened HttpRendering

  // ---- the request line

  /** The parts of a request line stand one behind the other. */
  predicate RequestAt(s: seq<byte>, i: nat, h: Head)
    requires h.digit < 10
  {
    var a := i + |h.method_|;
    var b := a + h.gap;
    var c := b + |h.path|;
    var d := c + h.gap';
    && StandsAt(s, i, h.method_) && StandsAt(s, a, Spaces(h.gap)) && StandsAt(s, b, h.path)
    && StandsAt(s, c, Spaces(h.gap')) && StandsAt(s, d, VersionText(h.digit)) && StandsAt(s, d + 8, Eol(h.crlf))
  }

  lemma RequestParts(s: seq<byte>, i: nat, h: Head)
    requires h.digit < 10
    ensures StandsAt(s, i, RequestText(h)) <==> RequestAt(s, i, h)
    ensures |RequestText(h)| == |h.method_| + h.gap + |h.path| + h.gap' + 8 + |Eol(h.crlf)|
  {
    hide StandsAt;
    var end := VersionText(h.digit) + Eol(h.crlf);
    var a := i + |h.method_|;
    var b := a + h.gap;
    var c := b + |h.path|;
    StandsSplit(s, i, h.method_, Spaces(h.gap) + (h.path + (Spaces(h.gap') + end)));
    StandsSplit(s, a, Spaces(h.gap), h.path + (Spaces(h.gap') + end));
    StandsSplit(s, b, h.path, Spaces(h.gap') + end);
    StandsSplit(s, c, Spaces(h.gap'), end);
    StandsSplit(s, c + h.gap', VersionText(h.digit), Eol(h.crlf));
  }

  /** The request line as it is found at i. */
  function RequestFound(i: nat, h: Head): Request {
    Request(Span(i, |h.method_|), Span(i + |h.method_| + h.gap, |h.path|), h.digit, [])
  }

  lemma RequestForward(s: seq<byte>, i: nat, h: Head)
    requires HeadOk(h) && RequestAt(s, i, h)
    ensures RequestLine(s, i) == Got(i + |h.method_| + h.gap + |h.path| + h.gap' + 8 + |Eol(h.crlf)|, RequestFound(i, h))
  {
    hide VersionText, Spaces, IsToken, IsPath, LinesOk, StandsAt, FindToken, FindSpace, SkipBlanks, Version, EndOfLine;
    var a := i + |h.method_|;
    var b := a + h.gap;
    var c := b + |h.path|;
    var d := c + h.gap';
    EolAt(s, d + 8, h.crlf);
    VersionForward(s, d, h.digit, h.crlf);
    PathForward(s, b, h.path);
    SpacesForward(s, a, h.gap);
    SpacesForward(s, c, h.gap');
    TokenForward(s, i, h.method_, SP);
  }

  lemma VersionForward(s: seq<byte>, d: nat, digit: nat, crlf: bool)
    requires digit < 10 && StandsAt(s, d, VersionText(digit)) && StandsAt(s, d + 8, Eol(crlf))
    ensures Version(s, d) == Got(d + 8, digit) && d < |s| && s[d] != SP
  {
    VersionAt(s, d);
    VersionBegins(s, d, digit);
  }

  lemma VersionBegins(s: seq<byte>, d: nat, digit: nat)
    requires digit < 10 && StandsAt(s, d, VersionText(digit))
    ensures d < |s| && s[d] == 72
  {
    assert s[d + 0] == VersionText(digit)[0];
  }

  lemma SpacesForward(s: seq<byte>, i: nat, n: nat)
    requires n >= 1 && StandsAt(s, i, Spaces(n)) && i + n < |s| && s[i + n] != SP
    ensures s[i] == SP && SkipBlanks(s, i + 1, false) == Got(i + n, ())
  {
    forall k | i <= k < i + n ensures s[k] == SP { assert s[i + (k - i)] == Spaces(n)[k - i]; }
    SkipBlanksAt(s, i + 1, false);
  }

  lemma TokenForward(s: seq<byte>, i: nat, t: seq<byte>, stop: byte)
    requires IsToken(t) && StandsAt(s, i, t) && (stop == SP || stop == COLON)
    ensures t != []
    ensures i + |t| < |s| && s[i + |t|] == stop ==> FindToken(s, i, stop) == Got(i + |t|, ())
  {
    forall k | i <= k < i + |t| ensures TokenChar(s[k]) && s[k] != stop {
      assert s[i + (k - i)] == t[k - i];
      TokenChars(s[k]);
      TokenChars(stop);
    }
    FindTokenAt(s, i, stop);
  }

  lemma PathForward(s: seq<byte>, i: nat, t: seq<byte>)
    requires IsPath(t) && StandsAt(s, i, t)
    ensures i < |s| && s[i] != SP && t != []
    ensures i + |t| < |s| && s[i + |t|] == SP ==> FindSpace(s, i) == Got(i + |t|, ())
  {
    forall k | i <= k < i + |t| ensures s[k] > 32 && s[k] != DEL {
      assert s[i + (k - i)] == t[k - i];
    }
    assert s[i + 0] == t[0];
    FindSpaceAt(s, i);
  }

  /** What stands from i to j, if the input goes on as far as j. */
  function From(s: seq<byte>, i: nat, j: nat): seq<byte>
    requires i <= j <= |s|
  {
    s[i..j]
  }

  lemma FromStands(s: seq<byte>, i: nat, j: nat)
    requires i <= j <= |s|
    ensures |From(s, i, j)| == j - i && StandsAt(s, i, From(s, i, j))
    ensures forall k :: 0 <= k < j - i ==> From(s, i, j)[k] == s[i + k]
  {
  }

  lemma TokenBack(s: seq<byte>, i: nat, stop: byte)
    requires FindToken(s, i, stop).Got?
    ensures var j := FindToken(s, i, stop).next;
            i <= j < |s| && s[j] == stop && (j > i ==> IsToken(From(s, i, j)))
  {
    FindTokenAt(s, i, stop);
    var j := FindToken(s, i, stop).next;
    Ended(FindToken(s, i, stop));
    forall k | i <= k < j ensures InToken(s[k]) {
      TokenChars(s[k]);
    }
  }

  lemma PathBack(s: seq<byte>, i: nat)
    requires FindSpace(s, i).Got?
    ensures var j := FindSpace(s, i).next;
            i <= j < |s| && s[j] == SP && (j > i ==> IsPath(From(s, i, j)))
  {
    FindSpaceAt(s, i);
    Ended(FindSpace(s, i));
  }

  lemma SpacesBack(s: seq<byte>, i: nat)
    requires i < |s| && s[i] == SP && SkipBlanks(s, i + 1, false).Got?
    ensures var j := SkipBlanks(s, i + 1, false).next;
            i < j < |s| && StandsAt(s, i, Spaces(j - i))
  {
    SkipBlanksAt(s, i + 1, false);
    Ended(SkipBlanks(s, i + 1, false));
  }

  lemma VersionBack(s: seq<byte>, i: nat)
    requires Version(s, i).Got?
    ensures Version(s, i).next == i + 8 && Version(s, i).value < 10 && StandsAt(s, i, VersionText(Version(s, i).value))
  {
    VersionAt(s, i);
    assert Version(s, i) == Got(Version(s, i).next, Version(s, i).value);
  }

  /** A request line that parses stands there. */
  lemma RequestBack(s: seq<byte>, i: nat) returns (h: Head)
    requires RequestLine(s, i).Got?
    ensures HeadOk(h) && h.lines == [] && RequestAt(s, i, h)
    ensures RequestLine(s, i) == Got(i + |h.method_| + h.gap + |h.path| + h.gap' + 8 + |Eol(h.crlf)|, RequestFound(i, h))
  {
    hide FindToken, FindSpace, SkipBlanks, Version, EndOfLine, StandsAt, VersionText, IsToken, IsPath, Spaces, From;
    TokenBack(s, i, SP);
    var a := FindToken(s, i, SP).next;
    SpacesBack(s, a);
    var b := SkipBlanks(s, a + 1, false).next;
    PathBack(s, b);
    var c := FindSpace(s, b).next;
    SpacesBack(s, c);
    var d := SkipBlanks(s, c + 1, false).next;
    VersionBack(s, d);
    var crlf := EolOf(s, d + 8);
    FromStands(s, i, a);
    FromStands(s, b, c);
    h := Head(None, From(s, i, a), b - a, From(s, b, c), d - c, Version(s, d).value, crlf, [], false);
  }

  // ---- header lines

  /** Where the value of a line begins. */
  function ValueAt(i: nat, l: Line): nat { if l.name.Some? then i + |l.name.value| + 1 + |l.gap| else i }

  predicate LineAt(s: seq<byte>, i: nat, l: Line) {
    var v := ValueAt(i, l);
    && (l.name.Some? ==>
          StandsAt(s, i, l.name.value) && StandsAt(s, i + |l.name.value|, [58]) && StandsAt(s, i + |l.name.value| + 1, l.gap))
    && StandsAt(s, v, l.value) && StandsAt(s, v + |l.value|, l.pad) && StandsAt(s, v + |l.value| + |l.pad|, Eol(l.crlf))
  }

  function LineEnd(i: nat, l: Line): nat { ValueAt(i, l) + |l.value| + |l.pad| + |Eol(l.crlf)| }

  lemma LineParts(s: seq<byte>, i: nat, l: Line)
    ensures StandsAt(s, i, LineText(l)) <==> LineAt(s, i, l)
    ensures i + |LineText(l)| == LineEnd(i, l)
  {
    hide StandsAt;
    var rest := l.value + (l.pad + Eol(l.crlf));
    var v := ValueAt(i, l);
    if l.name.Some? {
      var name := l.name.value;
      assert LineText(l) == name + ([58] + (l.gap + rest));
      StandsSplit(s, i, name, [58] + (l.gap + rest));
      StandsSplit(s, i + |name|, [58], l.gap + rest);
      StandsSplit(s, i + |name| + 1, l.gap, rest);
    } else {
      assert LineText(l) == rest;
    }
    StandsSplit(s, v, l.value, l.pad + Eol(l.crlf));
    StandsSplit(s, v + |l.value|, l.pad, Eol(l.crlf));
  }

  function LineFound(i: nat, l: Line): Header {
    Header(if l.name.Some? then Some(Span(i, |l.name.value|)) else None, Span(ValueAt(i, l), |l.value|))
  }

  /** The value, the blanks behind it, and the end of the line. */
  lemma ValueForward(s: seq<byte>, v: nat, value: seq<byte>, pad: seq<byte>, crlf: bool)
    requires IsValue(value) && AllSpace(pad)
    requires StandsAt(s, v, value) && StandsAt(s, v + |value|, pad) && StandsAt(s, v + |value| + |pad|, Eol(crlf))
    ensures v + |value| + |pad| + |Eol(crlf)| <= |s|
    ensures TokenToEol(s, v) == Got(v + |value| + |pad| + |Eol(crlf)|, Span(v, |value| + |pad|))
    ensures Trimmed(s, v, |value| + |pad|) == |value|
  {
    var j := v + |value| + |pad|;
    hide TokenToEol, Trimmed, FindControl, EndOfLine;
    EolAt(s, j, crlf);
    assert s[j + 0] == Eol(crlf)[0];
    forall k | v <= k < j ensures !Control(s[k]) {
      assert k < v + |value| ==> s[v + (k - v)] == value[k - v];
      assert k >= v + |value| ==> s[v + |value| + (k - v - |value|)] == pad[k - v - |value|];
    }
    FindControlAt(s, v);
    assert FindControl(s, v) == Got(j, ());
    EolJoins(s, v, j);
    TrimmedForward(s, v, value, pad);
  }

  lemma EolJoins(s: seq<byte>, v: nat, j: nat)
    requires FindControl(s, v) == Got(j, ()) && j >= v && EndOfLine(s, j).Got?
    ensures TokenToEol(s, v) == Got(EndOfLine(s, j).next, Span(v, j - v))
  {
  }

  lemma TrimmedForward(s: seq<byte>, v: nat, value: seq<byte>, pad: seq<byte>)
    requires IsValue(value) && AllSpace(pad) && StandsAt(s, v, value) && StandsAt(s, v + |value|, pad)
    ensures Trimmed(s, v, |value| + |pad|) == |value|
  {
    hide Trimmed;
    var n := Trimmed(s, v, |value| + |pad|);
    if |value| > 0 {
      assert s[v + (|value| - 1)] == value[|value| - 1];
    }
    forall k | v + |value| <= k < v + |value| + |pad| ensures Blank(s[k]) {
      assert s[v + |value| + (k - v - |value|)] == pad[k - v - |value|];
    }
  }

  /** The name, its colon and the blanks before the value. */
  lemma NameForward(s: seq<byte>, i: nat, name: seq<byte>, gap: seq<byte>)
    requires IsToken(name) && AllSpace(gap)
    requires StandsAt(s, i, name) && StandsAt(s, i + |name|, [58]) && StandsAt(s, i + |name| + 1, gap)
    requires i + |name| + 1 + |gap| < |s| && !Space(s[i + |name| + 1 + |gap|])
    ensures HeaderName(s, i) == Got(i + |name| + 1 + |gap|, Span(i, |name|)) && InToken(s[i])
  {
    hide FindToken, SkipBlanks;
    var a := i + |name|;
    var colon: seq<byte> := [58];
    assert s[a + 0] == colon[0] && s[i + 0] == name[0];
    TokenForward(s, i, name, COLON);
    forall k | a + 1 <= k < a + 1 + |gap| ensures Space(s[k]) {
      assert s[a + 1 + (k - a - 1)] == gap[k - a - 1];
    }
    SkipBlanksAt(s, a + 1, true);
    assert SkipBlanks(s, a + 1, true) == Got(a + 1 + |gap|, ());
  }

  /** The value of a header, or what ends its line, is no blank. */
  lemma ValueBegins(s: seq<byte>, v: nat, l: Line)
    requires LineOk(l) && l.name.Some?
    requires StandsAt(s, v, l.value) && StandsAt(s, v + |l.value|, l.pad) && StandsAt(s, v + |l.value| + |l.pad|, Eol(l.crlf))
    ensures v < |s| && !Space(s[v])
  {
    if l.value != [] {
      assert s[v + 0] == l.value[0];
    } else {
      assert s[v + 0] == Eol(l.crlf)[0];
    }
  }

  lemma BlankBegins(s: seq<byte>, v: nat, l: Line)
    requires LineOk(l) && l.name.None? && StandsAt(s, v, l.value) && StandsAt(s, v + |l.value|, l.pad)
    ensures v < |s| && Blank(s[v])
  {
    if l.value != [] {
      assert s[v + 0] == l.value[0];
    } else {
      assert s[v + |l.value| + 0] == l.pad[0];
    }
  }

  lemma LineForward(s: seq<byte>, i: nat, l: Line, first: bool)
    requires LineOk(l) && LineAt(s, i, l) && (first ==> l.name.Some?)
    ensures HeaderLine(s, i, first) == Got(LineEnd(i, l), LineFound(i, l))
    ensures i < |s| && !Newline(s[i])
  {
    hide TokenToEol, Trimmed, HeaderName, StandsAt, IsToken, IsValue, AllSpace, InToken;
    var v := ValueAt(i, l);
    ValueForward(s, v, l.value, l.pad, l.crlf);
    if l.name.Some? {
      ValueBegins(s, v, l);
      NameForward(s, i, l.name.value, l.gap);
      NoNewline(s[i]);
    } else {
      BlankBegins(s, v, l);
    }
  }

  lemma NoNewline(c: byte)
    requires InToken(c)
    ensures !Newline(c) && !Blank(c)
  {
    TokenChars(c);
  }

  lemma NameBack(s: seq<byte>, i: nat)
    requires HeaderName(s, i).Got?
    ensures var n, k := HeaderName(s, i).value.len, HeaderName(s, i).next;
            && HeaderName(s, i).value.start == i && i + n + 1 <= k < |s| && !Space(s[k])
            && IsToken(From(s, i, i + n)) && StandsAt(s, i + n, [58]) && AllSpace(From(s, i + n + 1, k))
  {
    hide IsToken;
    TokenBack(s, i, COLON);
    var a := FindToken(s, i, COLON).next;
    SkipBlanksAt(s, a + 1, true);
    Ended(SkipBlanks(s, a + 1, true));
  }

  lemma ValueBack(s: seq<byte>, v: nat) returns (crlf: bool)
    requires TokenToEol(s, v).Got?
    ensures var len := TokenToEol(s, v).value.len;
            && TokenToEol(s, v).value.start == v && v + len <= |s|
            && TokenToEol(s, v).next == v + len + |Eol(crlf)| && StandsAt(s, v + len, Eol(crlf))
            && forall k :: v <= k < v + len ==> InValue(s[k])
  {
    hide EndOfLine, FindControl;
    FindControlAt(s, v);
    Ended(FindControl(s, v));
    crlf := EolOf(s, FindControl(s, v).next);
  }

  /** The value without the blanks behind it. */
  lemma TrimmedBack(s: seq<byte>, v: nat, len: nat)
    requires v + len <= |s| && forall k :: v <= k < v + len ==> InValue(s[k])
    ensures var n := Trimmed(s, v, len); IsValue(From(s, v, v + n)) && AllSpace(From(s, v + n, v + len))
  {
    hide Trimmed;
    var n := Trimmed(s, v, len);
    FromStands(s, v, v + n);
    FromStands(s, v + n, v + len);
  }

  /** No blanks follow an empty value: those before it are skipped. */
  lemma NoPad(s: seq<byte>, v: nat, n: nat, len: nat)
    requires n <= len && v + len <= |s| && v < |s| && !Space(s[v]) && AllSpace(From(s, v + n, v + len))
    ensures n == 0 ==> len == 0
  {
    FromStands(s, v + n, v + len);
    assert n < len ==> Space(From(s, v + n, v + len)[0]);
  }

  lemma BlankFirst(s: seq<byte>, v: nat, len: nat, crlf: bool)
    requires v < |s| && Blank(s[v]) && StandsAt(s, v + len, Eol(crlf))
    ensures len > 0
  {
    assert s[v + len + 0] == Eol(crlf)[0];
  }

  lemma NoSpaces(t: seq<byte>)
    requires t == []
    ensures AllSpace(t)
  {
  }

  lemma LineBack(s: seq<byte>, i: nat, first: bool) returns (l: Line)
    requires HeaderLine(s, i, first).Got?
    ensures LineOk(l) && LineAt(s, i, l) && (first ==> l.name.Some?)
    ensures HeaderLine(s, i, first) == Got(LineEnd(i, l), LineFound(i, l))
  {
    hide TokenToEol, Trimmed, HeaderName, StandsAt, IsToken, IsValue, AllSpace, From;
    var start := HeaderStart(s, i, first);
    var v := start.next;
    var crlf := ValueBack(s, v);
    var len := TokenToEol(s, v).value.len;
    TrimmedBack(s, v, len);
    var n := Trimmed(s, v, len);
    FromStands(s, v, v + n);
    FromStands(s, v + n, v + len);
    if start.value.Some? {
      NameBack(s, i);
      var a := i + start.value.value.len;
      FromStands(s, i, a);
      FromStands(s, a + 1, v);
      l := Line(Some(From(s, i, a)), From(s, a + 1, v), From(s, v, v + n), From(s, v + n, v + len), crlf);
      NoPad(s, v, n, len);
    } else {
      l := Line(None, [], From(s, v, v + n), From(s, v + n, v + len), crlf);
      assert v + len > v by { BlankFirst(s, v, len, crlf); }
      assert (l.value + l.pad)[0] == s[v];
      assert AllSpace(l.gap) by { NoSpaces(l.gap); }
    }
  }

  // ---- all header lines

  lemma {:induction false} LinesForward(s: seq<byte>, i: nat, max: nat, done: seq<Header>, ls: seq<Line>, last: bool) returns (xs: seq<Header>)
    requires LinesOk(ls) && StandsAt(s, i, LinesText(ls) + Eol(last)) && |done| + |ls| <= max
    requires done == [] && ls != [] ==> ls[0].name.Some?
    ensures Headers(s, i, max, done) == Got(i + |LinesText(ls)| + |Eol(last)|, done + xs) && LinesRead(s, xs, ls)
    decreases |ls|
  {
    hide HeaderLine, EndOfLine, StandsAt, LineOk, LineRead, LineText;
    if ls == [] {
      xs := [];
      assert LinesText(ls) + Eol(last) == Eol(last);
      EolAt(s, i, last);
      EolBegins(s, i, last);
      assert done + [] == done;
    } else {
      var l, rest := ls[0], LinesText(ls[1..]) + Eol(last);
      assert LinesText(ls) + Eol(last) == LineText(l) + rest;
      StandsSplit(s, i, LineText(l), rest);
      LineParts(s, i, l);
      LineForward(s, i, l, done == []);
      var x := LineFound(i, l);
      xs := LinesForward(s, LineEnd(i, l), max, done + [x], ls[1..], last);
      LineReads(s, i, l);
      assert done + [x] + xs == done + ([x] + xs);
      xs := [x] + xs;
    }
  }

  lemma EolBegins(s: seq<byte>, i: nat, crlf: bool)
    requires StandsAt(s, i, Eol(crlf))
    ensures i < |s| && Newline(s[i])
  {
    assert s[i + 0] == Eol(crlf)[0];
  }

  /** A line that stands there is read back at the places found. */
  lemma LineReads(s: seq<byte>, i: nat, l: Line)
    requires LineAt(s, i, l)
    ensures LineRead(s, LineFound(i, l), l) && i < LineEnd(i, l)
  {
    hide StandsAt;
    StandsSlice(s, ValueAt(i, l), l.value);
    if l.name.Some? {
      StandsSlice(s, i, l.name.value);
    }
  }

  lemma {:induction false} LinesBack(s: seq<byte>, i: nat, max: nat, done: seq<Header>) returns (ls: seq<Line>, last: bool, xs: seq<Header>)
    requires Headers(s, i, max, done).Got? && |done| <= max
    ensures LinesOk(ls) && StandsAt(s, i, LinesText(ls) + Eol(last)) && |done| + |ls| <= max
    ensures done == [] && ls != [] ==> ls[0].name.Some?
    ensures Headers(s, i, max, done) == Got(i + |LinesText(ls)| + |Eol(last)|, done + xs) && LinesRead(s, xs, ls)
    decreases |s| - i
  {
    hide HeaderLine, EndOfLine, StandsAt, LineOk, LineRead, LineText;
    if Newline(s[i]) {
      last := EolOf(s, i);
      ls, xs := [], [];
      assert LinesText(ls) + Eol(last) == Eol(last) && done + [] == done;
    } else {
      var l := LineBack(s, i, done == []);
      var x := LineFound(i, l);
      LineReads(s, i, l);
      LineParts(s, i, l);
      ls, last, xs := LinesBack(s, LineEnd(i, l), max, done + [x]);
      var rest := LinesText(ls) + Eol(last);
      StandsSplit(s, i, LineText(l), rest);
      assert LinesText([l] + ls) + Eol(last) == LineText(l) + rest by { assert ([l] + ls)[1..] == ls; }
      assert done + [x] + xs == done + ([x] + xs);
      ls, xs := [l] + ls, [x] + xs;
    }
  }

  // ---- the head

  lemma HeadParts(s: seq<byte>, h: Head)
    requires h.digit < 10
    ensures var i := |LeadText(h)|; var j := i + |RequestText(h)|; var tail := LinesText(h.lines) + Eol(h.last);
            && (StandsAt(s, 0, HeadText(h)) <==> StandsAt(s, 0, LeadText(h)) && StandsAt(s, i, RequestText(h)) && StandsAt(s, j, tail))
            && |HeadText(h)| == j + |LinesText(h.lines)| + |Eol(h.last)|
  {
    hide StandsAt, LeadText, RequestText, LinesText, Eol;
    var tail := LinesText(h.lines) + Eol(h.last);
    StandsSplit(s, 0, LeadText(h), RequestText(h) + tail);
    StandsSplit(s, |LeadText(h)|, RequestText(h), tail);
  }

  lemma RequestReads(s: seq<byte>, i: nat, h: Head, q: Request)
    requires HeadOk(h) && RequestAt(s, i, h) && q == RequestFound(i, h).(headers := q.headers) && LinesRead(s, q.headers, h.lines)
    ensures HeadRead(s, q, h)
  {
    hide StandsAt, LinesRead;
    StandsSlice(s, i, h.method_);
    StandsSlice(s, i + |h.method_| + h.gap, h.path);
  }

  lemma LeadForward(s: seq<byte>, h: Head)
    requires HeadOk(h) && StandsAt(s, 0, LeadText(h)) && StandsAt(s, |LeadText(h)|, h.method_)
    ensures LeadingLine(s, 0) == Got(|LeadText(h)|, ())
  {
    if h.lead.Some? {
      EolAt(s, 0, h.lead.value);
      EolBegins(s, 0, h.lead.value);
    } else {
      assert s[0 + 0] == h.method_[0];
      NoNewline(s[0]);
    }
  }

  lemma LeadBack(s: seq<byte>) returns (lead: Option<bool>)
    requires LeadingLine(s, 0).Got?
    ensures var t := if lead.Some? then Eol(lead.value) else []; StandsAt(s, 0, t) && LeadingLine(s, 0).next == |t|
  {
    if Newline(s[0]) {
      var crlf := EolOf(s, 0);
      lead := Some(crlf);
    } else {
      lead := None;
    }
  }

  /** A head written out from its pieces parses at its end, whatever follows, and the input at the
      places found gives the pieces back: method, path, version, and the name and value of every
      header. */
  lemma HeadParses(s: seq<byte>, h: Head, max: nat)
    requires HeadOk(h) && StandsAt(s, 0, HeadText(h)) && |h.lines| <= max
    ensures ParseRequest(s, max).Got? && ParseRequest(s, max).next == |HeadText(h)| && HeadRead(s, ParseRequest(s, max).value, h)
  {
    hide StandsAt, HeadText, LeadText, RequestText, LinesText, RequestLine, Headers, LeadingLine, RequestAt, HeadRead;
    var i := |LeadText(h)|;
    HeadParts(s, h);
    RequestParts(s, i, h);
    RequestMethod(s, i, h);
    LeadForward(s, h);
    RequestForward(s, i, h);
    var j := i + |RequestText(h)|;
    var xs := LinesForward(s, j, max, [], h.lines, h.last);
    assert [] + xs == xs;
    RequestReads(s, i, h, RequestFound(i, h).(headers := xs));
  }

  lemma RequestMethod(s: seq<byte>, i: nat, h: Head)
    requires h.digit < 10 && RequestAt(s, i, h)
    ensures StandsAt(s, i, h.method_)
  {
  }

  /** Whatever parses is a head written out from the pieces found. */
  lemma ParsedIsHead(s: seq<byte>, max: nat) returns (h: Head)
    requires ParseRequest(s, max).Got?
    ensures HeadOk(h) && StandsAt(s, 0, HeadText(h)) && |h.lines| <= max
    ensures ParseRequest(s, max).next == |HeadText(h)| && HeadRead(s, ParseRequest(s, max).value, h)
  {
    hide StandsAt, HeadText, RequestText, LinesText, RequestLine, Headers, LeadingLine, RequestAt, HeadRead, RequestFound;
    var lead := LeadBack(s);
    var i := LeadingLine(s, 0).next;
    Ended(LeadingLine(s, 0));
    var r := RequestBack(s, i);
    var j := RequestLine(s, i).next;
    var ls, last, xs := LinesBack(s, j, max, []);
    assert [] + xs == xs;
    h := r.(lead := lead, lines := ls, last := last);
    SameRequest(s, i, r, h);
    RequestParts(s, i, h);
    HeadParts(s, h);
    RequestReads(s, i, h, RequestFound(i, h).(headers := xs));
  }

  lemma SameRequest(s: seq<byte>, i: nat, r: Head, h: Head)
    requires HeadOk(r) && RequestAt(s, i, r) && h == r.(lead := h.lead, lines := h.lines, last := h.last)
    requires LinesOk(h.lines) && (h.lines != [] ==> h.lines[0].name.Some?)
    ensures HeadOk(h) && RequestAt(s, i, h) && RequestFound(i, h) == RequestFound(i, r)
  {
  }

  /** The first next bytes are a head with at most max headers, and q gives its pieces back. */
  ghost predicate IsHead(s: seq<byte>, max: nat, next: nat, q: Request) {
    exists h :: HeadOk(h) && |h.lines| <= max && StandsAt(s, 0, HeadText(h)) && next == |HeadText(h)| && HeadRead(s, q, h)
  }

  /** A request is accepted if and only if it begins with a head written out from pieces, and these are
      what is found. */
  lemma AcceptedIff(s: seq<byte>, max: nat)
    ensures ParseRequest(s, max).Got? <==> exists h :: HeadOk(h) && |h.lines| <= max && StandsAt(s, 0, HeadText(h))
    ensures ParseRequest(s, max).Got? ==> IsHead(s, max, ParseRequest(s, max).next, ParseRequest(s, max).value)
  {
    hide ParseRequest, LinesOk, StandsAt, HeadText, HeadRead;
    if ParseRequest(s, max).Got? {
      var h := ParsedIsHead(s, max);
      assert HeadOk(h) && |h.lines| <= max && StandsAt(s, 0, HeadText(h));
    }
    if h :| HeadOk(h) && |h.lines| <= max && StandsAt(s, 0, HeadText(h)) {
      HeadParses(s, h, max);
    }
  }
}
