/** An incomplete parse is open: what follows can still make the input wrong. */
module HttpOpen {
  import opened Bytes
  import opened HttpGrammar
  import opened HttpStability

  /** Nine bytes that nothing in a request head may be. */
  function Zeros(): seq<byte> { [0, 0, 0, 0, 0, 0, 0, 0, 0] }

  /** t is s and then such bytes. */
  predicate Spoilt(s: seq<byte>, t: seq<byte>) { t == s + Zeros() }

  lemma SpoiltMeans(s: seq<byte>, t: seq<byte>)
    requires Spoilt(s, t)
    ensures Prefix(s, t) && |t| == |s| + 9 && forall k :: |s| <= k < |t| ==> t[k] == 0
  {
    forall k | 0 <= k < |s| ensures t[k] == s[k] {
    }
  }

  lemma {:induction false} FindControlOpen(s: seq<byte>, t: seq<byte>, i: nat)
    requires Spoilt(s, t) && i <= |s|
    ensures FindControl(s, i).More? ==> FindControl(t, i) == Got(|s|, ())
    decreases |s| - i
  {
    SpoiltMeans(s, t);
    if i < |s| {
      FindControlOpen(s, t, i + 1);
    }
  }

  lemma {:induction false} FindTokenOpen(s: seq<byte>, t: seq<byte>, i: nat, stop: byte)
    requires Spoilt(s, t) && i <= |s| && stop != 0
    ensures FindToken(s, i, stop).More? ==> FindToken(t, i, stop).Bad?
    decreases |s| - i
  {
    SpoiltMeans(s, t);
    if i < |s| {
      FindTokenOpen(s, t, i + 1, stop);
    }
  }

  lemma {:induction false} FindSpaceOpen(s: seq<byte>, t: seq<byte>, i: nat)
    requires Spoilt(s, t) && i <= |s|
    ensures FindSpace(s, i).More? ==> FindSpace(t, i).Bad?
    decreases |s| - i
  {
    SpoiltMeans(s, t);
    if i < |s| {
      FindSpaceOpen(s, t, i + 1);
    }
  }

  lemma {:induction false} SkipBlanksOpen(s: seq<byte>, t: seq<byte>, i: nat, tabs: bool)
    requires Spoilt(s, t) && i <= |s|
    ensures SkipBlanks(s, i, tabs).More? ==> SkipBlanks(t, i, tabs) == Got(|s|, ())
    ensures !SkipBlanks(s, i, tabs).Bad?
    decreases |s| - i
  {
    SpoiltMeans(s, t);
    if i < |s| {
      SkipBlanksOpen(s, t, i + 1, tabs);
    }
  }

  lemma EndOfLineOpen(s: seq<byte>, t: seq<byte>, i: nat)
    requires Spoilt(s, t) && i <= |s|
    ensures EndOfLine(s, i).More? ==> EndOfLine(t, i).Bad?
  {
    SpoiltMeans(s, t);
  }

  /** A version cut short is none, unless only the byte behind it is missing. */
  lemma VersionOpen(s: seq<byte>, t: seq<byte>, i: nat)
    requires Spoilt(s, t) && i <= |s|
    ensures Version(s, i).More? ==> Version(t, i).Bad? || (Version(t, i).Got? && Version(t, i).next == |s|)
  {
    SpoiltMeans(s, t);
    if |s| < i + 8 {
      assert |s| < i + 7 ==> t[i..i + 7][|s| - i] == 0;
    }
  }

  lemma TokenToEolOpen(s: seq<byte>, t: seq<byte>, i: nat)
    requires Spoilt(s, t) && i <= |s|
    ensures TokenToEol(s, i).More? ==> TokenToEol(t, i).Bad?
  {
    hide FindControl;
    SpoiltMeans(s, t);
    FindControlStable(s, t, i);
    FindControlOpen(s, t, i);
    var c := FindControl(s, i);
    if c.Got? {
      EndOfLineOpen(s, t, c.next);
    }
  }

  lemma HeaderLineOpen(s: seq<byte>, t: seq<byte>, i: nat, first: bool)
    requires Spoilt(s, t) && i <= |s|
    ensures HeaderLine(s, i, first).More? ==> HeaderLine(t, i, first).Bad?
  {
    hide FindToken, SkipBlanks, TokenToEol, Trimmed, Spoilt;
    SpoiltMeans(s, t);
    HeaderStartStable(s, t, i, first);
    FindTokenStable(s, t, i, COLON);
    FindTokenOpen(s, t, i, COLON);
    TokenToEolOpen(s, t, |s|);
    EndsWithZero(s, t);
    var n := FindToken(s, i, COLON);
    if n.Got? {
      SkipBlanksStable(s, t, n.next + 1, true);
      SkipBlanksOpen(s, t, n.next + 1, true);
    }
    var start := HeaderStart(s, i, first);
    if start.Got? {
      TokenToEolStable(s, t, start.next);
      TokenToEolOpen(s, t, start.next);
      if TokenToEol(s, start.next).Got? {
        var v := TokenToEol(s, start.next).value;
        TrimmedStable(s, t, v.start, v.len);
      }
    }
  }

  lemma EndsWithZero(s: seq<byte>, t: seq<byte>)
    requires Spoilt(s, t)
    ensures TokenToEol(t, |s|).Bad? && FindSpace(t, |s|).Bad? && Version(t, |s|).Bad? && EndOfLine(t, |s|).Bad?
    ensures forall max, done :: Headers(t, |s|, max, done).Bad?
  {
    SpoiltMeans(s, t);
    assert t[|s|] == 0 && t[|s|..|s| + 7][0] == 0;
  }

  lemma {:induction false} HeadersOpen(s: seq<byte>, t: seq<byte>, i: nat, max: nat, done: seq<Header>)
    requires Spoilt(s, t) && i <= |s|
    ensures Headers(s, i, max, done).More? ==> Headers(t, i, max, done).Bad?
    decreases |s| - i
  {
    hide HeaderLine, EndOfLine, Spoilt;
    SpoiltMeans(s, t);
    if i == |s| {
      EndsWithZero(s, t);
    } else {
      EndOfLineOpen(s, t, i);
      HeaderLineOpen(s, t, i, done == []);
      HeaderLineStable(s, t, i, done == []);
      var h := HeaderLine(s, i, done == []);
      if !Newline(s[i]) && |done| != max && h.Got? {
        HeadersOpen(s, t, h.next, max, done + [h.value]);
      }
    }
  }

  lemma RequestLineOpen(s: seq<byte>, t: seq<byte>, i: nat)
    requires Spoilt(s, t) && i <= |s|
    ensures RequestLine(s, i).More? ==> RequestLine(t, i).Bad?
  {
    hide FindToken, SkipBlanks, FindSpace, Version, EndOfLine, Spoilt;
    SpoiltMeans(s, t);
    EndsWithZero(s, t);
    FindTokenStable(s, t, i, SP);
    FindTokenOpen(s, t, i, SP);
    var m := FindToken(s, i, SP);
    if m.Got? {
      SkipBlanksStable(s, t, m.next + 1, false);
      SkipBlanksOpen(s, t, m.next + 1, false);
      var b := SkipBlanks(s, m.next + 1, false);
      if b.Got? {
        FindSpaceStable(s, t, b.next);
        FindSpaceOpen(s, t, b.next);
        var c := FindSpace(s, b.next);
        if c.Got? {
          SkipBlanksStable(s, t, c.next + 1, false);
          SkipBlanksOpen(s, t, c.next + 1, false);
          var d := SkipBlanks(s, c.next + 1, false);
          if d.Got? {
            VersionStable(s, t, d.next);
            VersionOpen(s, t, d.next);
            var e := Version(s, d.next);
            if e.Got? {
              EndOfLineStable(s, t, e.next);
              EndOfLineOpen(s, t, e.next);
            }
          }
        }
      }
    }
  }

  lemma LeadingOpen(s: seq<byte>, t: seq<byte>)
    requires Spoilt(s, t) && LeadingLine(s, 0).More?
    ensures LeadingLine(t, 0).Bad? || (LeadingLine(t, 0) == Got(|s|, ()) && RequestLine(t, |s|).Bad?)
  {
    SpoiltMeans(s, t);
  }

  lemma ParseOpen(s: seq<byte>, t: seq<byte>, max: nat)
    requires Spoilt(s, t)
    ensures ParseRequest(s, max).More? ==> ParseRequest(t, max).Bad?
  {
    hide RequestLine, Headers, LeadingLine, Spoilt;
    SpoiltMeans(s, t);
    LeadingStable(s, t);
    var l := LeadingLine(s, 0);
    if l.More? {
      LeadingOpen(s, t);
    } else if l.Got? {
      LeadingEnds(s);
      RequestLineStable(s, t, l.next);
      RequestLineOpen(s, t, l.next);
      var r := RequestLine(s, l.next);
      if r.Got? {
        HeadersStable(s, t, r.next, max, []);
        HeadersOpen(s, t, r.next, max, []);
      }
    }
  }

  lemma LeadingEnds(s: seq<byte>)
    ensures LeadingLine(s, 0).Got? ==> LeadingLine(s, 0).next <= |s|
  {
  }

  /** The parser asks for more exactly if more input can change its answer. */
  lemma MoreIff(s: seq<byte>, max: nat)
    ensures ParseRequest(s, max).More? <==> exists y :: ParseRequest(s + y, max) != ParseRequest(s, max)
  {
    forall y ensures ParseRequest(s, max).More? || ParseRequest(s + y, max) == ParseRequest(s, max) {
      ParseStable(s, y, max);
    }
    ParseOpen(s, s + Zeros(), max);
    hide ParseRequest, Zeros;
    assert ParseRequest(s, max).More? ==> ParseRequest(s + Zeros(), max) != ParseRequest(s, max);
  }
}
