/** Once parsing has succeeded or failed, more input changes nothing; and what a parse says it
    needed is all it needed. */
module HttpStability {
  import opened Bytes
  import opened HttpGrammar

  predicate Prefix(s: seq<byte>, t: seq<byte>) {
    |s| <= |t| && forall i :: 0 <= i < |s| ==> t[i] == s[i]
  }

  /** r is what parsing at i gives on s, r' on an extension t of s.  Where the parse ends at a
      byte it has looked at but not taken, peek is 1. */
  predicate Stable<T(==)>(r: Parse<T>, r': Parse<T>, i: nat, s: nat, t: nat, peek: nat) {
    && (r.More? || r' == r)
    && (r.Got? ==> r.next + peek <= s)
    && (r'.Got? ==> i < r'.next + peek <= t)
    && (r.More? && r'.Got? ==> s < r'.next + peek)
  }

  lemma {:induction false} FindControlStable(s: seq<byte>, t: seq<byte>, i: nat)
    requires Prefix(s, t)
    ensures Stable(FindControl(s, i), FindControl(t, i), i, |s|, |t|, 1)
    decreases |t| - i
  {
    if i < |t| && !Control(t[i]) {
      FindControlStable(s, t, i + 1);
    }
  }

  lemma {:induction false} FindTokenStable(s: seq<byte>, t: seq<byte>, i: nat, stop: byte)
    requires Prefix(s, t)
    ensures Stable(FindToken(s, i, stop), FindToken(t, i, stop), i, |s|, |t|, 1)
    decreases |t| - i
  {
    if i < |t| && t[i] != stop && TokenChar(t[i]) {
      FindTokenStable(s, t, i + 1, stop);
    }
  }

  lemma {:induction false} FindSpaceStable(s: seq<byte>, t: seq<byte>, i: nat)
    requires Prefix(s, t)
    ensures Stable(FindSpace(s, i), FindSpace(t, i), i, |s|, |t|, 1)
    decreases |t| - i
  {
    if i < |t| && t[i] != SP && !(t[i] < 32 || t[i] == DEL) {
      FindSpaceStable(s, t, i + 1);
    }
  }

  lemma {:induction false} SkipBlanksStable(s: seq<byte>, t: seq<byte>, i: nat, tabs: bool)
    requires Prefix(s, t)
    ensures Stable(SkipBlanks(s, i, tabs), SkipBlanks(t, i, tabs), i, |s|, |t|, 1)
    decreases |t| - i
  {
    if i < |t| && (t[i] == SP || (tabs && t[i] == HT)) {
      SkipBlanksStable(s, t, i + 1, tabs);
    }
  }

  lemma EndOfLineStable(s: seq<byte>, t: seq<byte>, i: nat)
    requires Prefix(s, t)
    ensures Stable(EndOfLine(s, i), EndOfLine(t, i), i, |s|, |t|, 0)
  {
  }

  lemma VersionStable(s: seq<byte>, t: seq<byte>, i: nat)
    requires Prefix(s, t)
    ensures Stable(Version(s, i), Version(t, i), i, |s|, |t|, 1)
  {
    if i + 9 <= |s| {
      assert t[i..i + 7] == s[i..i + 7];
    }
  }

  lemma TokenToEolStable(s: seq<byte>, t: seq<byte>, i: nat)
    requires Prefix(s, t)
    ensures Stable(TokenToEol(s, i), TokenToEol(t, i), i, |s|, |t|, 0)
    ensures TokenToEol(s, i).Got? ==> TokenToEol(s, i).value.start == i && i + TokenToEol(s, i).value.len <= |s|
    ensures TokenToEol(t, i).Got? ==> TokenToEol(t, i).value.start == i && i + TokenToEol(t, i).value.len < TokenToEol(t, i).next
  {
    hide FindControl, EndOfLine, Prefix;
    FindControlStable(s, t, i);
    var c := FindControl(t, i);
    if c.Got? {
      EndOfLineStable(s, t, c.next);
    }
  }

  lemma {:induction false} TrimmedStable(s: seq<byte>, t: seq<byte>, start: nat, len: nat)
    requires Prefix(s, t) && start + len <= |s|
    ensures Trimmed(t, start, len) == Trimmed(s, start, len)
    decreases len
  {
    if len > 0 && Blank(s[start + len - 1]) {
      TrimmedStable(s, t, start, len - 1);
    }
  }

  lemma HeaderStartStable(s: seq<byte>, t: seq<byte>, i: nat, first: bool)
    requires Prefix(s, t)
    ensures Stable(HeaderStart(s, i, first), HeaderStart(t, i, first), i, |s|, |t|, 1)
  {
    hide FindToken, SkipBlanks;
    FindTokenStable(s, t, i, COLON);
    var n := FindToken(t, i, COLON);
    if n.Got? {
      SkipBlanksStable(s, t, n.next + 1, true);
    }
  }

  lemma HeaderLineStable(s: seq<byte>, t: seq<byte>, i: nat, first: bool)
    requires Prefix(s, t)
    ensures Stable(HeaderLine(s, i, first), HeaderLine(t, i, first), i, |s|, |t|, 0)
  {
    hide HeaderStart, TokenToEol, Trimmed;
    HeaderStartStable(s, t, i, first);
    var n := HeaderStart(t, i, first);
    if n.Got? {
      TokenToEolStable(s, t, n.next);
      var v := TokenToEol(s, n.next);
      if v.Got? {
        TrimmedStable(s, t, v.value.start, v.value.len);
      }
    }
  }

  lemma {:induction false} HeadersStable(s: seq<byte>, t: seq<byte>, i: nat, max: nat, done: seq<Header>)
    requires Prefix(s, t)
    ensures Stable(Headers(s, i, max, done), Headers(t, i, max, done), i, |s|, |t|, 0)
    decreases |t| - i
  {
    hide HeaderLine, EndOfLine;
    EndOfLineStable(s, t, i);
    HeaderLineStable(s, t, i, done == []);
    if i < |t| && !Newline(t[i]) && |done| != max {
      var h := HeaderLine(t, i, done == []);
      if h.Got? {
        HeadersStable(s, t, h.next, max, done + [h.value]);
      }
    }
  }

  lemma RequestLineStable(s: seq<byte>, t: seq<byte>, i: nat)
    requires Prefix(s, t)
    ensures Stable(RequestLine(s, i), RequestLine(t, i), i, |s|, |t|, 0)
  {
    hide FindToken, SkipBlanks, FindSpace, Version, EndOfLine, Prefix;
    FindTokenStable(s, t, i, SP);
    var m := FindToken(t, i, SP);
    if m.Got? {
      SkipBlanksStable(s, t, m.next + 1, false);
      var b := SkipBlanks(t, m.next + 1, false);
      if b.Got? {
        FindSpaceStable(s, t, b.next);
        var c := FindSpace(t, b.next);
        if c.Got? {
          SkipBlanksStable(s, t, c.next + 1, false);
          var d := SkipBlanks(t, c.next + 1, false);
          if d.Got? {
            VersionStable(s, t, d.next);
            var e := Version(t, d.next);
            if e.Got? {
              EndOfLineStable(s, t, e.next);
            }
          }
        }
      }
    }
  }

  lemma ParseSteady(s: seq<byte>, t: seq<byte>, max: nat)
    requires Prefix(s, t)
    ensures Stable(ParseRequest(s, max), ParseRequest(t, max), 0, |s|, |t|, 0)
  {
    hide RequestLine, Headers, EndOfLine, Prefix;
    LeadingStable(s, t);
    var l := LeadingLine(t, 0);
    if l.Got? {
      RequestLineStable(s, t, l.next);
      var r := RequestLine(t, l.next);
      if r.Got? {
        HeadersStable(s, t, r.next, max, []);
      }
    }
  }

  lemma LeadingStable(s: seq<byte>, t: seq<byte>)
    requires Prefix(s, t)
    ensures LeadingLine(s, 0).More? || LeadingLine(t, 0) == LeadingLine(s, 0)
    ensures LeadingLine(s, 0).More? && LeadingLine(t, 0).Got? ==> |s| <= LeadingLine(t, 0).next
  {
    EndOfLineStable(s, t, 0);
  }

  /** If parsing x succeeds or fails, parsing any extension of x does the same, with the same
      fields. */
  lemma ParseStable(x: seq<byte>, y: seq<byte>, max: nat)
    ensures ParseRequest(x, max).More? || ParseRequest(x + y, max) == ParseRequest(x, max)
  {
    ParseSteady(x, x + y, max);
    hide ParseRequest;
  }

  /** Of an accepted request, every prefix that lacks a part of it is incomplete, and every one
      that does not is accepted alike. */
  lemma PrefixIncomplete(s: seq<byte>, max: nat, k: nat)
    requires ParseRequest(s, max).Got? && k <= |s|
    ensures ParseRequest(s[..k], max) == if k < ParseRequest(s, max).next then More else ParseRequest(s, max)
  {
    ParseSteady(s[..k], s, max);
    hide ParseRequest;
  }
}
