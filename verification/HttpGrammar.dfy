/** Parsing an HTTP request head, as functions of the bytes there are so far (sections 3.1.1,
    3.2 and 3.5 of RFC 7230). */
module HttpGrammar {
  import opened Bytes
  import opened Options

  const HT: byte := 9
  const SP: byte := 32
  const COLON: byte := 58
  const DEL: byte := 127

  /** What parsing from some place gives: where it ended and what it found; or that the input
      is wrong; or that there is not enough of it. */
  datatype Parse<T> = Got(next: nat, value: T) | Bad | More

  /** A piece of the input. */
  datatype Span = Span(start: nat, len: nat)

  /** A header without a name continues the one before it. */
  datatype Header = Header(name: Option<Span>, value: Span)

  datatype Request = Request(method_: Span, path: Span, minor: nat, headers: seq<Header>)

  predicate Printable(c: byte) { 32 <= c <= 126 }

  /** Control characters other than the tab. */
  predicate Control(c: byte) { (c < 32 && c != HT) || c == DEL }

  predicate TokenChar(c: byte) {
    || c == 33 || (35 <= c <= 39) || c == 42 || c == 43 || c == 45 || c == 46
    || (48 <= c <= 57) || (65 <= c <= 90) || (94 <= c <= 122) || c == 124 || c == 126
  }

  predicate Blank(c: byte) { c == SP || c == HT }

  function FindControl(s: seq<byte>, i: nat): Parse<()>
    decreases |s| - i
  {
    if i >= |s| then More else if Control(s[i]) then Got(i, ()) else FindControl(s, i + 1)
  }

  /** An end of line: a line feed, with or without a carriage return before it. */
  function EndOfLine(s: seq<byte>, i: nat): Parse<()> {
    if i >= |s| then More
    else if s[i] == CR then
      if i + 1 >= |s| then More else if s[i + 1] == LF then Got(i + 2, ()) else Bad
    else if s[i] == LF then Got(i + 1, ())
    else Bad
  }

  /** The rest of the line, which may not hold control characters other than tabs. */
  function TokenToEol(s: seq<byte>, i: nat): Parse<Span> {
    match FindControl(s, i)
    case More => More
    case Bad => Bad
    case Got(j, _) =>
      match EndOfLine(s, j)
      case More => More
      case Bad => Bad
      case Got(k, _) => Got(k, Span(i, if j >= i then j - i else 0))
  }

  function FindToken(s: seq<byte>, i: nat, stop: byte): Parse<()>
    decreases |s| - i
  {
    if i >= |s| then More
    else if s[i] == stop then Got(i, ())
    else if !TokenChar(s[i]) then Bad
    else FindToken(s, i + 1, stop)
  }

  function Token(s: seq<byte>, i: nat, stop: byte): Parse<Span> {
    match FindToken(s, i, stop)
    case More => More
    case Bad => Bad
    case Got(j, _) => Got(j, Span(i, if j >= i then j - i else 0))
  }

  function FindSpace(s: seq<byte>, i: nat): Parse<()>
    decreases |s| - i
  {
    if i >= |s| then More
    else if s[i] == SP then Got(i, ())
    else if s[i] < 32 || s[i] == DEL then Bad
    else FindSpace(s, i + 1)
  }

  function SkipBlanks(s: seq<byte>, i: nat, tabs: bool): Parse<()>
    decreases |s| - i
  {
    if i >= |s| then More
    else if s[i] == SP || (tabs && s[i] == HT) then SkipBlanks(s, i + 1, tabs)
    else Got(i, ())
  }

  /** HTTP/1. and a digit; nothing is looked at before there is one more byte. */
  function Version(s: seq<byte>, i: nat): Parse<nat> {
    if |s| < i + 9 then More
    else if s[i..i + 7] != [72, 84, 84, 80, 47, 49, 46] then Bad
    else if 48 <= s[i + 7] <= 57 then Got(i + 8, (s[i + 7] - 48) as nat)
    else Bad
  }

  /** The length without spaces and tabs at the end. */
  function Trimmed(s: seq<byte>, start: nat, len: nat): (n: nat)
    requires start + len <= |s|
    ensures n <= len && (n > 0 ==> !Blank(s[start + n - 1])) && forall k :: start + n <= k < start + len ==> Blank(s[k])
  {
    if len > 0 && Blank(s[start + len - 1]) then Trimmed(s, start, len - 1) else len
  }

  /** The name of a header, its colon, and the spaces before its value. */
  function HeaderName(s: seq<byte>, i: nat): Parse<Span> {
    match Token(s, i, COLON)
    case More => More
    case Bad => Bad
    case Got(j, name) =>
      if name.len == 0 then Bad
      else
        match SkipBlanks(s, j + 1, true)
        case More => More
        case Bad => Bad
        case Got(k, _) => Got(k, name)
  }

  /** The part of a header before its value; a line that begins with a blank has none, unless
      it is the first. */
  function HeaderStart(s: seq<byte>, i: nat, first: bool): Parse<Option<Span>> {
    if i >= |s| then More
    else if !first && Blank(s[i]) then Got(i, None)
    else
      match HeaderName(s, i)
      case More => More
      case Bad => Bad
      case Got(k, name) => Got(k, Some(name))
  }

  function HeaderLine(s: seq<byte>, i: nat, first: bool): (r: Parse<Header>)
  {
    match HeaderStart(s, i, first)
    case More => More
    case Bad => Bad
    case Got(k, name) =>
      match TokenToEol(s, k)
      case More => More
      case Bad => Bad
      case Got(next, v) =>
        if v.start + v.len <= |s| then Got(next, Header(name, Span(v.start, Trimmed(s, v.start, v.len)))) else Bad
  }

  predicate Newline(c: byte) { c == CR || c == LF }

  /** Headers up to an empty line, at most max of them. */
  function Headers(s: seq<byte>, i: nat, max: nat, done: seq<Header>): Parse<seq<Header>>
    decreases |s| - i
  {
    if i >= |s| then More
    else if Newline(s[i]) then
      match EndOfLine(s, i)
      case More => More
      case Bad => Bad
      case Got(k, _) => Got(k, done)
    else if |done| == max then Bad
    else
      match HeaderLine(s, i, done == [])
      case More => More
      case Bad => Bad
      case Got(k, h) => if k > i then Headers(s, k, max, done + [h]) else Bad
  }

  /** An empty line before the request is skipped. */
  function LeadingLine(s: seq<byte>, i: nat): Parse<()> {
    if i >= |s| then More else if Newline(s[i]) then EndOfLine(s, i) else Got(i, ())
  }

  /** Method, path and version, and the end of their line. */
  function RequestLine(s: seq<byte>, i: nat): Parse<Request> {
    match Token(s, i, SP)
    case More => More
    case Bad => Bad
    case Got(a, method_) =>
      match SkipBlanks(s, a + 1, false)
      case More => More
      case Bad => Bad
      case Got(b, _) =>
        match FindSpace(s, b)
        case More => More
        case Bad => Bad
        case Got(c, _) =>
          match SkipBlanks(s, c + 1, false)
          case More => More
          case Bad => Bad
          case Got(d, _) =>
            if method_.len == 0 || c <= b then Bad
            else
              match Version(s, d)
              case More => More
              case Bad => Bad
              case Got(e, minor) =>
                match EndOfLine(s, e)
                case More => More
                case Bad => Bad
                case Got(k, _) => Got(k, Request(method_, Span(b, c - b), minor, []))
  }

  function ParseRequest(s: seq<byte>, max: nat): Parse<Request> {
    match LeadingLine(s, 0)
    case More => More
    case Bad => Bad
    case Got(i, _) =>
      match RequestLine(s, i)
      case More => More
      case Bad => Bad
      case Got(j, line) =>
        match Headers(s, j, max, [])
        case More => More
        case Bad => Bad
        case Got(k, headers) => Got(k, line.(headers := headers))
  }

  /** The scan for an empty line: two ends of line in a row. */
  function EmptyLine(s: seq<byte>, i: nat, newlines: nat): Parse<()>
    decreases |s| - i
  {
    if i >= |s| then More
    else if Newline(s[i]) then
      match EndOfLine(s, i)
      case More => More
      case Bad => Bad
      case Got(k, _) => if newlines + 1 == 2 then Got(k, ()) else if k > i then EmptyLine(s, k, newlines + 1) else Bad
    else EmptyLine(s, i + 1, 0)
  }

  /** Three bytes before the end of what was scanned before. */
  function ResumeAt(lastLen: nat): nat { if lastLen < 3 then 0 else lastLen - 3 }

  /** The whole call: unless it is the first, the empty line has to be there. */
  function PhrParseRequest(s: seq<byte>, max: nat, lastLen: nat): Parse<Request> {
    if lastLen != 0 && !EmptyLine(s, ResumeAt(lastLen), 0).Got? then
      if EmptyLine(s, ResumeAt(lastLen), 0).Bad? then Bad else More
    else ParseRequest(s, max)
  }
}
