/** The parser itself: pointers that walk over the buffer. */
module HttpParser {
  import opened Bytes
  import opened Options
  import opened HttpGrammar
  import HttpRoundTrip
  import HttpStability

  /** A walk that is at i has the outcome it had at its start. */
  method GetTokenToEol(buf: array<byte>, len: nat, from: nat) returns (r: Parse<Span>)
    requires from <= len <= buf.Length
    ensures r == TokenToEol(buf[..len], from)
  {
    ghost var s := buf[..len];
    var i := from;
    var found := false;
    // Eight bytes at a time; a byte that is not printable but no control character breaks the
    // eight off and is stepped over.
    while !found && len - i >= 8
      invariant from <= i <= len && FindControl(s, i) == FindControl(s, from)
      invariant found ==> i < len && Control(buf[i])
      decreases len - i, !found
    {
      ghost var i0 := i;
      var n := 0;
      while n < 8 && Printable(buf[i])
        invariant 0 <= n <= 8 && i == i0 + n && i0 + 8 <= len
        invariant FindControl(s, i) == FindControl(s, from)
        decreases 8 - n
      {
        i := i + 1;
        n := n + 1;
      }
      if n < 8 {
        if Control(buf[i]) {
          found := true;
        } else {
          i := i + 1;
        }
      }
    }
    while !found
      invariant from <= i <= len && FindControl(s, i) == FindControl(s, from)
      invariant found ==> i < len && Control(buf[i])
      decreases len - i, !found
    {
      if i == len {
        return More;
      }
      if !Printable(buf[i]) && Control(buf[i]) {
        found := true;
      } else {
        i := i + 1;
      }
    }
    if buf[i] == CR {
      if i + 1 == len {
        return More;
      }
      if buf[i + 1] != LF {
        return Bad;
      }
      return Got(i + 2, Span(from, i - from));
    } else if buf[i] == LF {
      return Got(i + 1, Span(from, i - from));
    }
    return Bad;
  }

  method ParseToken(buf: array<byte>, len: nat, from: nat, stop: byte) returns (r: Parse<Span>)
    requires from <= len <= buf.Length
    ensures r == Token(buf[..len], from, stop)
  {
    var i := from;
    while true
      invariant from <= i <= len && FindToken(buf[..len], i, stop) == FindToken(buf[..len], from, stop)
      decreases len - i
    {
      if i == len {
        return More;
      }
      if buf[i] == stop {
        break;
      }
      if !TokenChar(buf[i]) {
        return Bad;
      }
      i := i + 1;
    }
    return Got(i, Span(from, i - from));
  }

  /** The path: up to a space, and no control characters. */
  method AdvanceToken(buf: array<byte>, len: nat, from: nat) returns (r: Parse<()>)
    requires from <= len <= buf.Length
    ensures r == FindSpace(buf[..len], from)
    ensures r.Got? ==> from <= r.next < len
  {
    var i := from;
    while true
      invariant from <= i <= len && FindSpace(buf[..len], i) == FindSpace(buf[..len], from)
      decreases len - i
    {
      if i == len {
        return More;
      }
      if buf[i] == SP {
        break;
      }
      if !Printable(buf[i]) && (buf[i] < 32 || buf[i] == DEL) {
        return Bad;
      }
      i := i + 1;
    }
    return Got(i, ());
  }

  method SkipSpaces(buf: array<byte>, len: nat, from: nat, tabs: bool) returns (r: Parse<()>)
    requires from <= len <= buf.Length
    ensures r == SkipBlanks(buf[..len], from, tabs)
    ensures r.Got? ==> from <= r.next < len
  {
    var i := from;
    while true
      invariant from <= i <= len && SkipBlanks(buf[..len], i, tabs) == SkipBlanks(buf[..len], from, tabs)
      decreases len - i
    {
      if i == len {
        return More;
      }
      if !(buf[i] == SP || (tabs && buf[i] == HT)) {
        break;
      }
      i := i + 1;
    }
    return Got(i, ());
  }

  method ParseHttpVersion(buf: array<byte>, len: nat, from: nat) returns (r: Parse<nat>)
    requires from <= len <= buf.Length
    ensures r == Version(buf[..len], from)
  {
    if len - from < 9 {
      return More;
    }
    var expected: seq<byte> := [72, 84, 84, 80, 47, 49, 46];
    var k := 0;
    while k < 7
      invariant 0 <= k <= 7 && buf[from..from + k] == expected[..k]
    {
      if buf[from + k] != expected[k] {
        assert buf[..len][from..from + 7][k] != expected[k];
        return Bad;
      }
      assert buf[from..from + (k + 1)] == buf[from..from + k] + [buf[from + k]];
      assert expected[..k + 1] == expected[..k] + [expected[k]];
      k := k + 1;
    }
    assert buf[..len][from..from + 7] == buf[from..from + 7] == expected;
    if buf[from + 7] < 48 || 57 < buf[from + 7] {
      return Bad;
    }
    return Got(from + 8, (buf[from + 7] - 48) as nat);
  }

  method TrimEnd(buf: array<byte>, len: nat, v: Span) returns (n: nat)
    requires v.start + v.len <= len <= buf.Length
    ensures n == Trimmed(buf[..len], v.start, v.len)
  {
    n := v.len;
    while n != 0 && Blank(buf[v.start + n - 1])
      invariant n <= v.len && Trimmed(buf[..len], v.start, n) == Trimmed(buf[..len], v.start, v.len)
      decreases n
    {
      n := n - 1;
    }
  }

  method ExpectEol(buf: array<byte>, len: nat, i: nat) returns (r: Parse<()>)
    requires i <= len <= buf.Length
    ensures r == EndOfLine(buf[..len], i)
    ensures r.Got? ==> i < r.next <= len
  {
    if i == len {
      return More;
    }
    if buf[i] == CR {
      if i + 1 == len {
        return More;
      }
      if buf[i + 1] != LF {
        return Bad;
      }
      return Got(i + 2, ());
    } else if buf[i] == LF {
      return Got(i + 1, ());
    }
    return Bad;
  }

  /** Headers into the array there is room in, up to the empty line. */
  method ParseHeaders(buf: array<byte>, len: nat, from: nat, headers: array<Header>, max: nat) returns (r: Parse<()>, num: nat)
    requires from <= len <= buf.Length && max <= headers.Length
    modifies headers
    ensures num <= max
    ensures match Headers(buf[..len], from, max, [])
            case Got(next, hs) => r == Got(next, ()) && headers[..num] == hs
            case Bad => r == Bad
            case More => r == More
  {
    hide HeaderLine, Headers;
    ghost var s := buf[..len];
    var i := from;
    num := 0;
    while true
      invariant from <= i <= len && num <= max && s == buf[..len]
      invariant Headers(s, i, max, headers[..num]) == Headers(s, from, max, [])
      decreases len - i
    {
      HeadersStep(s, i, max, headers[..num]);
      if i == len {
        return More, num;
      }
      if buf[i] == CR || buf[i] == LF {
        var e := ExpectEol(buf, len, i);
        return e, num;
      }
      if num == max {
        return Bad, num;
      }
      var h := ParseHeaderLine(buf, len, i, num == 0);
      match h {
        case More => return More, num;
        case Bad => return Bad, num;
        case Got(next, header) =>
          ghost var done := headers[..num];
          headers[num] := header;
          assert headers[..num + 1] == done + [header];
          i := next;
          num := num + 1;
      }
    }
  }

  /** One turn of the loop over the headers. */
  lemma HeadersStep(s: seq<byte>, i: nat, max: nat, done: seq<Header>)
    requires i <= |s|
    ensures i == |s| ==> Headers(s, i, max, done).More?
    ensures i < |s| && Newline(s[i]) ==>
              Headers(s, i, max, done) == (match EndOfLine(s, i) case More => More case Bad => Bad case Got(k, _) => Got(k, done))
    ensures i < |s| && !Newline(s[i]) && |done| == max ==> Headers(s, i, max, done).Bad?
    ensures i < |s| && !Newline(s[i]) && |done| != max ==>
              match HeaderLine(s, i, done == [])
              case More => Headers(s, i, max, done).More?
              case Bad => Headers(s, i, max, done).Bad?
              case Got(k, h) => i < k <= |s| && Headers(s, i, max, done) == Headers(s, k, max, done + [h])
  {
    HttpStability.HeaderLineStable(s, s, i, done == []);
    hide HeaderLine;
  }

  method ParseHeaderLine(buf: array<byte>, len: nat, from: nat, first: bool) returns (r: Parse<Header>)
    requires from < len <= buf.Length
    ensures r == HeaderLine(buf[..len], from, first)
  {
    hide FindToken, SkipBlanks, TokenToEol, Trimmed;
    ghost var s := buf[..len];
    var i, name := from, None;
    if first || !Blank(buf[from]) {
      var t := ParseToken(buf, len, from, COLON);
      if !t.Got? {
        return if t.More? then More else Bad;
      }
      HttpStability.FindTokenStable(s, s, from, COLON);
      if t.value.len == 0 {
        return Bad;
      }
      var b := SkipSpaces(buf, len, t.next + 1, true);
      if !b.Got? {
        return if b.More? then More else Bad;
      }
      i, name := b.next, Some(t.value);
    }
    assert HeaderStart(s, from, first) == Got(i, name);
    var v := GetTokenToEol(buf, len, i);
    if !v.Got? {
      return if v.More? then More else Bad;
    }
    HttpStability.TokenToEolStable(s, s, i);
    var n := TrimEnd(buf, len, v.value);
    return Got(v.next, Header(name, Span(v.value.start, n)));
  }

  method ParseRequestLine(buf: array<byte>, len: nat, from: nat) returns (r: Parse<Request>)
    requires from <= len <= buf.Length
    ensures r == RequestLine(buf[..len], from)
  {
    hide FindToken, SkipBlanks, FindSpace, Version, EndOfLine;
    ghost var s := buf[..len];
    var m := ParseToken(buf, len, from, SP);
    if !m.Got? {
      return if m.More? then More else Bad;
    }
    HttpStability.FindTokenStable(s, s, from, SP);
    var b := SkipSpaces(buf, len, m.next + 1, false);
    if !b.Got? {
      return if b.More? then More else Bad;
    }
    var c := AdvanceToken(buf, len, b.next);
    if !c.Got? {
      return if c.More? then More else Bad;
    }
    var d := SkipSpaces(buf, len, c.next + 1, false);
    if !d.Got? {
      return if d.More? then More else Bad;
    }
    if m.value.len == 0 || c.next == b.next {
      return Bad;
    }
    var v := ParseHttpVersion(buf, len, d.next);
    if !v.Got? {
      return if v.More? then More else Bad;
    }
    HttpStability.VersionStable(s, s, d.next);
    var e := ExpectEol(buf, len, v.next);
    if !e.Got? {
      return if e.More? then More else Bad;
    }
    return Got(e.next, Request(m.value, Span(b.next, c.next - b.next), v.value, []));
  }

  method IsComplete(buf: array<byte>, len: nat, lastLen: nat) returns (r: Parse<()>)
    requires len <= buf.Length
    ensures r == EmptyLine(buf[..len], ResumeAt(lastLen), 0)
  {
    var i, newlines := ResumeAt(lastLen), 0;
    while true
      invariant newlines < 2 && (i <= len || newlines == 0)
      invariant EmptyLine(buf[..len], i, newlines) == EmptyLine(buf[..len], ResumeAt(lastLen), 0)
      decreases len - i
    {
      if i >= len {
        return More;
      }
      if buf[i] == CR {
        if i + 1 == len {
          return More;
        }
        if buf[i + 1] != LF {
          return Bad;
        }
        i, newlines := i + 2, newlines + 1;
      } else if buf[i] == LF {
        i, newlines := i + 1, newlines + 1;
      } else {
        i, newlines := i + 1, 0;
      }
      if newlines == 2 {
        return Got(i, ());
      }
    }
  }

  /** The call: its outcome, and the headers in the array. */
  method PhrParse(buf: array<byte>, len: nat, headers: array<Header>, lastLen: nat) returns (r: Parse<Request>)
    requires len <= buf.Length && lastLen <= len
    modifies headers
    ensures r == PhrParseRequest(buf[..len], headers.Length, lastLen)
    ensures r.Got? ==> |r.value.headers| <= headers.Length && headers[..|r.value.headers|] == r.value.headers
    // what is accepted is a request head, and what is found are its pieces
    ensures r.Got? ==> HttpRoundTrip.IsHead(buf[..len], headers.Length, r.next, r.value)
  {
    HttpRoundTrip.AcceptedIff(buf[..len], headers.Length);
    hide RequestLine, Headers, EmptyLine, HttpRoundTrip.IsHead;
    if lastLen != 0 {
      var c := IsComplete(buf, len, lastLen);
      if !c.Got? {
        return if c.More? then More else Bad;
      }
    }
    if len == 0 {
      return More;
    }
    var i := 0;
    if buf[0] == CR || buf[0] == LF {
      var l := ExpectEol(buf, len, 0);
      if !l.Got? {
        return if l.More? then More else Bad;
      }
      i := l.next;
    }
    var line := ParseRequestLine(buf, len, i);
    if !line.Got? {
      return if line.More? then More else Bad;
    }
    HttpStability.RequestLineStable(buf[..len], buf[..len], i);
    var e, num := ParseHeaders(buf, len, line.next, headers, headers.Length);
    if !e.Got? {
      return if e.More? then More else Bad;
    }
    return Got(e.next, line.value.(headers := headers[..num]));
  }
}
