/** The resumed scan for the end of the headers. */
module HttpComplete {
  import opened Bytes
  import opened HttpGrammar
  import opened HttpStability

  lemma {:induction false} EmptyLineStable(s: seq<byte>, t: seq<byte>, i: nat, n: nat)
    requires Prefix(s, t)
    ensures Stable(EmptyLine(s, i, n), EmptyLine(t, i, n), i, |s|, |t|, 0)
    decreases |t| - i
  {
    hide EndOfLine;
    EndOfLineStable(s, t, i);
    if i < |t| {
      if !Newline(t[i]) {
        EmptyLineStable(s, t, i + 1, 0);
      } else if EndOfLine(t, i).Got? && n + 1 != 2 {
        EmptyLineStable(s, t, EndOfLine(t, i).next, n + 1);
      }
    }
  }

  /** A scan that had not ended at len comes, on longer input, to what a fresh scan started
      three bytes before len comes to. */
  lemma {:induction false} ResumeFrom(s: seq<byte>, len: nat, i: nat, n: nat)
    requires 3 <= len <= |s| && i <= len - 3 && n <= 1 && EmptyLine(s[..len], i, n).More?
    ensures EmptyLine(s, i, n) == EmptyLine(s, len - 3, 0)
    decreases len - i
  {
    var j := len - 3;
    var p := s[..len];
    assert p[i] == s[i] && p[i + 1] == s[i + 1];
    if i < j {
      if Newline(s[i]) {
        var k := EndOfLine(s, i).next;
        assert EndOfLine(p, i) == EndOfLine(s, i) && n == 0;
        if k <= j {
          ResumeFrom(s, len, k, 1);
        }
      } else {
        ResumeFrom(s, len, i + 1, 0);
      }
    }
  }

  /** Resuming gives what scanning from the first byte gives: the same outcome and the same
      end. */
  lemma ResumeIsFresh(s: seq<byte>, lastLen: nat)
    requires lastLen <= |s| && EmptyLine(s[..lastLen], 0, 0).More?
    ensures EmptyLine(s, ResumeAt(lastLen), 0) == EmptyLine(s, 0, 0)
  {
    if lastLen >= 3 {
      ResumeFrom(s, lastLen, 0, 0);
    }
  }

  ghost predicate OneLine(s: seq<byte>, i: nat, j: nat) {
    i <= j <= |s| && forall k :: i <= k < j ==> !Newline(s[k])
  }

  lemma OneLineJoin(s: seq<byte>, i: nat, j: nat, k: nat)
    requires OneLine(s, i, j) && OneLine(s, j, k)
    ensures OneLine(s, i, k)
  {
  }

  lemma {:induction false} EmptyLineSkips(s: seq<byte>, i: nat, j: nat, n: nat)
    requires OneLine(s, i, j) && i < j
    ensures EmptyLine(s, i, n) == EmptyLine(s, j, 0)
    decreases j - i
  {
    if i + 1 < j {
      EmptyLineSkips(s, i + 1, j, 0);
    }
  }

  lemma {:induction false} FindControlLine(s: seq<byte>, i: nat)
    requires FindControl(s, i).Got?
    ensures OneLine(s, i, FindControl(s, i).next)
    decreases |s| - i
  {
    if !Control(s[i]) {
      FindControlLine(s, i + 1);
    }
  }

  lemma {:induction false} FindTokenLine(s: seq<byte>, i: nat, stop: byte)
    requires FindToken(s, i, stop).Got? && !Newline(stop)
    ensures OneLine(s, i, FindToken(s, i, stop).next + 1)
    decreases |s| - i
  {
    if s[i] != stop {
      FindTokenLine(s, i + 1, stop);
    }
  }

  lemma {:induction false} FindSpaceLine(s: seq<byte>, i: nat)
    requires FindSpace(s, i).Got?
    ensures OneLine(s, i, FindSpace(s, i).next + 1)
    decreases |s| - i
  {
    if s[i] != SP {
      FindSpaceLine(s, i + 1);
    }
  }

  lemma {:induction false} SkipBlanksLine(s: seq<byte>, i: nat, tabs: bool)
    requires SkipBlanks(s, i, tabs).Got?
    ensures OneLine(s, i, SkipBlanks(s, i, tabs).next)
    decreases |s| - i
  {
    if s[i] == SP || (tabs && s[i] == HT) {
      SkipBlanksLine(s, i + 1, tabs);
    }
  }

  lemma VersionLine(s: seq<byte>, i: nat)
    requires Version(s, i).Got?
    ensures OneLine(s, i, Version(s, i).next)
  {
    forall k | i <= k < i + 8 ensures !Newline(s[k]) {
      assert k < i + 7 ==> s[k] == s[i..i + 7][k - i];
    }
  }

  /** A header takes the scan from one end of line to the next. */
  lemma HeaderLineScans(s: seq<byte>, i: nat, first: bool, n: nat)
    requires i < |s| && !Newline(s[i]) && HeaderLine(s, i, first).Got?
    ensures EmptyLine(s, i, n) == EmptyLine(s, HeaderLine(s, i, first).next, 1)
  {
    HeaderStartStable(s, s, i, first);
    var v := HeaderStart(s, i, first).next;
    assert OneLine(s, i, v) by { HeaderStartLine(s, i, first); }
    FindControlStable(s, s, v);
    FindControlLine(s, v);
    var c := FindControl(s, v).next;
    OneLineJoin(s, i, v, c);
    hide FindControl, HeaderStart;
    assert i < c by { NotAtNewline(s, i, c); }
    EmptyLineSkips(s, i, c, n);
    EndOfLineStable(s, s, c);
  }

  lemma NotAtNewline(s: seq<byte>, i: nat, c: nat)
    requires i < |s| && !Newline(s[i]) && i <= c && EndOfLine(s, c).Got?
    ensures i < c
  {
  }

  lemma HeaderStartLine(s: seq<byte>, i: nat, first: bool)
    requires HeaderStart(s, i, first).Got?
    ensures OneLine(s, i, HeaderStart(s, i, first).next)
  {
    hide FindToken, SkipBlanks;
    if !first && Blank(s[i]) {
    } else {
      FindTokenLine(s, i, COLON);
      var a := FindToken(s, i, COLON).next + 1;
      SkipBlanksLine(s, a, true);
      OneLineJoin(s, i, a, SkipBlanks(s, a, true).next);
    }
  }

  lemma {:induction false} HeadersScan(s: seq<byte>, i: nat, max: nat, done: seq<Header>)
    requires Headers(s, i, max, done).Got?
    ensures EmptyLine(s, i, 1) == Got(Headers(s, i, max, done).next, ())
    decreases |s| - i
  {
    hide HeaderLine, EndOfLine;
    if !Newline(s[i]) {
      HeaderLineScans(s, i, done == [], 1);
      var h := HeaderLine(s, i, done == []);
      HeadersScan(s, h.next, max, done + [h.value]);
    }
  }

  lemma RequestLineScans(s: seq<byte>, i: nat, n: nat)
    requires RequestLine(s, i).Got?
    ensures EmptyLine(s, i, n) == EmptyLine(s, RequestLine(s, i).next, 1)
  {
    var e := RequestLineIsLine(s, i);
    hide RequestLine;
    EmptyLineSkips(s, i, e, n);
    EndOfLineStable(s, s, e);
    EndsLine(s, e);
  }

  lemma RequestLineIsLine(s: seq<byte>, i: nat) returns (e: nat)
    requires RequestLine(s, i).Got?
    ensures i < e && OneLine(s, i, e) && EndOfLine(s, e).Got? && EndOfLine(s, e).next == RequestLine(s, i).next
  {
    var a := FindToken(s, i, SP).next + 1;
    FindTokenStable(s, s, i, SP);
    FindTokenLine(s, i, SP);
    hide FindToken, SkipBlanks, FindSpace, Version, EndOfLine;
    SkipBlanksLine(s, a, false);
    var b := SkipBlanks(s, a, false).next;
    OneLineJoin(s, i, a, b);
    FindSpaceLine(s, b);
    var c := FindSpace(s, b).next + 1;
    OneLineJoin(s, i, b, c);
    SkipBlanksLine(s, c, false);
    var d := SkipBlanks(s, c, false).next;
    OneLineJoin(s, i, c, d);
    VersionLine(s, d);
    e := Version(s, d).next;
    OneLineJoin(s, i, d, e);
  }

  lemma EndsLine(s: seq<byte>, e: nat)
    requires EndOfLine(s, e).Got?
    ensures EmptyLine(s, e, 0) == EmptyLine(s, EndOfLine(s, e).next, 1)
  {
  }

  /** An accepted request ends where the scan finds its empty line. */
  lemma AcceptedIsComplete(s: seq<byte>, max: nat)
    requires ParseRequest(s, max).Got?
    ensures EmptyLine(s, 0, 0) == Got(ParseRequest(s, max).next, ())
  {
    hide RequestLine, Headers;
    var i := LeadingLine(s, 0).next;
    var n := if i == 0 then 0 else 1;
    assert EmptyLine(s, 0, 0) == EmptyLine(s, i, n);
    RequestLineScans(s, i, n);
    HeadersScan(s, RequestLine(s, i).next, max, []);
  }

  /** A request that is accepted when parsed at once is accepted, with the same fields, when an
      earlier call saw only a part of it. */
  lemma ResumedAccepts(s: seq<byte>, max: nat, lastLen: nat)
    requires ParseRequest(s, max).Got? && lastLen < ParseRequest(s, max).next
    ensures PhrParseRequest(s, max, lastLen) == ParseRequest(s, max)
  {
    hide ParseRequest;
    AcceptedIsComplete(s, max);
    var m := ParseRequest(s, max).next;
    ParseSteady(s, s, max);
    EmptyLineStable(s[..lastLen], s, 0, 0);
    ResumeIsFresh(s, lastLen);
  }

  function LastLen(lens: seq<nat>): nat { if lens == [] then 0 else lens[|lens| - 1] }

  /** Calls with more and more of s, each told how much the one before had, all came back
      incomplete. */
  predicate Waiting(s: seq<byte>, max: nat, lens: seq<nat>)
    decreases |lens|
  {
    lens == [] ||
    var before, k := lens[..|lens| - 1], LastLen(lens);
    && Waiting(s, max, before) && LastLen(before) <= k <= |s|
    && PhrParseRequest(s[..k], max, LastLen(before)).More?
  }

  /** Of an acceptable request these calls have seen only a part. */
  lemma {:induction false} WaitingIsShort(s: seq<byte>, max: nat, lens: seq<nat>)
    requires ParseRequest(s, max).Got? && Waiting(s, max, lens)
    ensures LastLen(lens) < ParseRequest(s, max).next <= |s|
    decreases |lens|
  {
    ParseSteady(s, s, max);
    hide ParseRequest, PhrParseRequest;
    if lens != [] {
      var before, k := lens[..|lens| - 1], LastLen(lens);
      WaitingIsShort(s, max, before);
      PrefixIncomplete(s, max, k);
      if k >= ParseRequest(s, max).next {
        ResumedAccepts(s[..k], max, LastLen(before));
      }
    }
  }

  /** After any such calls, an acceptable request is incomplete as long as a part of it lacks, and is
      then accepted with the fields it has when parsed at once. */
  lemma CallsAccept(s: seq<byte>, max: nat, lens: seq<nat>, k: nat)
    requires ParseRequest(s, max).Got? && Waiting(s, max, lens) && LastLen(lens) <= k <= |s|
    ensures PhrParseRequest(s[..k], max, LastLen(lens)) == if k < ParseRequest(s, max).next then More else ParseRequest(s, max)
  {
    var last, m := LastLen(lens), ParseRequest(s, max).next;
    WaitingIsShort(s, max, lens);
    PrefixIncomplete(s, max, k);
    hide ParseRequest;
    if k < m {
      AcceptedIsComplete(s, max);
      EmptyLineStable(s[..k], s, 0, 0);
      EmptyLineStable(s[..last], s, 0, 0);
      assert s[..k][..last] == s[..last];
      ResumeIsFresh(s[..k], last);
    } else {
      ResumedAccepts(s[..k], max, last);
    }
  }

  lemma {:induction false} StillWaiting(s: seq<byte>, y: seq<byte>, max: nat, lens: seq<nat>)
    requires Waiting(s, max, lens)
    ensures Waiting(s + y, max, lens) && LastLen(lens) <= |s|
    decreases |lens|
  {
    hide PhrParseRequest;
    if lens != [] {
      StillWaiting(s, y, max, lens[..|lens| - 1]);
      assert (s + y)[..LastLen(lens)] == s[..LastLen(lens)];
    }
  }

  /** What is rejected after calls that came back incomplete, no further input would have made
      acceptable. */
  lemma ResumedRejects(s: seq<byte>, y: seq<byte>, max: nat, lens: seq<nat>)
    requires Waiting(s, max, lens) && PhrParseRequest(s, max, LastLen(lens)).Bad?
    ensures !ParseRequest(s + y, max).Got?
  {
    hide ParseRequest, PhrParseRequest;
    StillWaiting(s, y, max, lens);
    assert (s + y)[..|s|] == s;
    if ParseRequest(s + y, max).Got? {
      CallsAccept(s + y, max, lens, |s|);
    }
  }
}
