/** The converse: whatever the chunked decoder completes is an encoding, what it calls incomplete is
    the beginning of one, and what it rejects is not. */
module ChunkedGrammar {
  import opened Bytes
  import opened Options
  import opened Chunked
  import opened ChunkedRoundTrip

  lemma {:induction false} DigitsOf(d: Decoder, s: seq<byte>) returns (digits: seq<byte>, rest: seq<byte>)
    requires d.phase.Size? && d.hexCount <= 16 && Run(d, s).status.Complete?
    ensures s == digits + rest && AllHex(digits) && 0 < d.hexCount + |digits| <= 16
    ensures rest != [] && !IsHex(rest[0])
    ensures Run(d, s) == Run(Decoder(Value(d.left, digits), d.consumeTrailer, 0, Ext), rest)
    decreases |s|
  {
    hide IsDigit, DecodeHex;
    DigitsDecode(s[0]);
    if IsHex(s[0]) {
      var n := Step(d, s[0]).d;
      digits, rest := DigitsOf(n, s[1..]);
      RunWent(d, s[0], s[1..]);
      assert [s[0]] + s[1..] == s;
      digits := [s[0]] + digits;
      assert digits[1..] + rest == s[1..];
    } else {
      digits, rest := [], s;
      RunNoDigit(d, s);
    }
  }

  lemma {:induction false} LineOf(d: Decoder, s: seq<byte>) returns (ext: seq<byte>, rest: seq<byte>)
    requires d.phase.Ext? && Run(d, s).status.Complete?
    ensures s == ext + ([LF] + rest) && LF !in ext
    ensures Run(d, s) == AfterLine(d, rest)
    decreases |s|
  {
    if s[0] == LF {
      ext, rest := [], s[1..];
    } else {
      assert [s[0]] + s[1..] == s;
      RunWent(d, s[0], s[1..]);
      ext, rest := LineOf(d, s[1..]);
      ext := [s[0]] + ext;
    }
    RunExt(d, ext, rest);
  }

  lemma DataOf(d: Decoder, s: seq<byte>)
    requires d.phase.Data? && d.left > 0 && Run(d, s).status.Complete?
    ensures d.left <= |s|
    ensures Run(d, s) == Emit(s[..d.left], Run(d.(left := 0, phase := Crlf), s[d.left..]))
  {
    if |s| < d.left {
      ShortData(d, s);
    } else {
      RunData(d, s, d.left);
    }
  }

  lemma ShortData(d: Decoder, s: seq<byte>)
    requires d.phase.Data? && |s| < d.left
    ensures Run(d, s).status.Incomplete?
  {
    if s != [] {
      RunData(d, s, |s|);
      assert s[|s|..] == [];
    }
  }

  lemma {:induction false} CrsOf(d: Decoder, s: seq<byte>) returns (n: nat, rest: seq<byte>)
    requires (d.phase.Crlf? || d.phase.LineHead?) && Run(d, s).status.Complete?
    ensures s == Crs(n) + rest && rest != [] && rest[0] != CR
    ensures Run(d, s) == Run(d, rest)
    decreases |s|
  {
    if s[0] == CR {
      assert [CR] + s[1..] == s;
      RunWent(d, CR, s[1..]);
      n, rest := CrsOf(d, s[1..]);
      n := n + 1;
      assert Crs(n) == [CR] + Crs(n - 1);
    } else {
      n, rest := 0, s;
    }
  }

  lemma {:induction false} MiddleOf(d: Decoder, s: seq<byte>) returns (line: seq<byte>, rest: seq<byte>)
    requires d.phase.LineMiddle? && Run(d, s).status.Complete?
    ensures s == line + ([LF] + rest) && LF !in line
    ensures Run(d, s) == Run(d.(phase := LineHead), rest)
    decreases |s|
  {
    assert [s[0]] + s[1..] == s;
    RunWent(d, s[0], s[1..]);
    if s[0] == LF {
      line, rest := [], s[1..];
    } else {
      line, rest := MiddleOf(d, s[1..]);
      line := [s[0]] + line;
    }
  }

  lemma {:induction false} TrailersOf(d: Decoder, s: seq<byte>) returns (ts: seq<Trailer>, crs: nat, rest: seq<byte>)
    requires d.phase.LineHead? && Run(d, s).status.Complete?
    ensures TrailersOk(ts) && s == EncodeTrailers(ts, crs) + rest
    ensures Run(d, s) == Result(Complete, d, [], rest)
    decreases |s|
  {
    var n, tail := CrsOf(d, s);
    if tail[0] == LF {
      ts, crs, rest := [], n, tail[1..];
      assert tail == [LF] + rest;
    } else {
      assert tail == [tail[0]] + tail[1..];
      RunWent(d, tail[0], tail[1..]);
      var line, behind := MiddleOf(d.(phase := LineMiddle), tail[1..]);
      ts, crs, rest := TrailersOf(d, behind);
      var t := Trailer(n, tail[0], line);
      ts := [t] + ts;
      hide Run;
      assert s == EncodeTrailers(ts, crs) + rest by {
        TrailersAdd(t, ts[1..], crs, rest);
        assert ts == [t] + ts[1..];
      }
    }
  }

  lemma TrailersAdd(t: Trailer, ts: seq<Trailer>, crs: nat, rest: seq<byte>)
    ensures EncodeTrailers([t] + ts, crs) + rest
            == Crs(t.crs) + ([t.first] + (t.rest + ([LF] + (EncodeTrailers(ts, crs) + rest))))
  {
    assert ([t] + ts)[1..] == ts;
  }

  /** A chunk more in front. */
  function WithChunk(c: Chunk, e: Encoding): Encoding { e.(chunks := [c] + e.chunks) }

  lemma WithChunkOk(c: Chunk, e: Encoding, consume: bool, rest: seq<byte>)
    requires ChunkOk(c) && EncodingOk(e)
    ensures EncodingOk(WithChunk(c, e)) && Decoded(WithChunk(c, e).chunks) == c.data + Decoded(e.chunks)
    ensures Encode(WithChunk(c, e), consume) + rest == EncodeChunk(c) + (Encode(e, consume) + rest)
  {
    hide SizeLineOk, EncodeChunk;
    assert ([c] + e.chunks)[1..] == e.chunks;
  }

  /** The data of a chunk and the end of their line. */
  lemma ChunkOf(consume: bool, size: nat, s: seq<byte>) returns (crs: nat, rest: seq<byte>)
    requires size > 0 && Run(Decoder(size, consume, 0, Data), s).status.Complete?
    ensures size <= |s| && s == s[..size] + (Crs(crs) + ([LF] + rest))
    ensures Run(Fresh(consume), rest).status.Complete?
  {
    var d := Decoder(0, consume, 0, Crlf);
    DataOf(Decoder(size, consume, 0, Data), s);
    var behind;
    crs, behind := CrsOf(d, s[size..]);
    EolOnly(d, behind);
    rest := behind[1..];
    hide Run, Crs;
    assert behind == [LF] + rest;
    RunWent(d, LF, rest);
    assert s == s[..size] + s[size..];
  }

  lemma {:induction false} EncodingOf(consume: bool, s: seq<byte>) returns (e: Encoding, rest: seq<byte>)
    requires Run(Fresh(consume), s).status.Complete?
    ensures EncodingOk(e) && s == Encode(e, consume) + rest
    decreases |s|
  {
    hide Run, Value, IsHex, IsDigit, Crs, EncodeTrailers;
    var digits, line := DigitsOf(Fresh(consume), s);
    var size := Value(0, digits);
    var ext, tail := LineOf(Decoder(size, consume, 0, Ext), line);
    assert ext != [] ==> ext[0] == line[0];
    if size > 0 {
      var crs, behind := ChunkOf(consume, size, tail);
      var c := Chunk(digits, ext, tail[..size], crs);
      ChunkText(c, behind);
      var e1;
      e1, rest := EncodingOf(consume, behind);
      e := WithChunk(c, e1);
      WithChunkOk(c, e1, consume, rest);
    } else {
      var ts, crs := [], 0;
      rest := tail;
      if consume {
        ts, crs, rest := TrailersOf(Decoder(0, consume, 0, LineHead), tail);
      }
      e := Encoding([], digits, ext, ts, crs);
      LastText(e, consume, rest);
    }
  }

  lemma LastText(e: Encoding, consume: bool, rest: seq<byte>)
    requires e.chunks == []
    ensures Encode(e, consume) + rest
            == e.zeros + (e.ext + ([LF] + if consume then EncodeTrailers(e.trailers, e.crs) + rest else rest))
  {
    hide EncodeTrailers;
  }

  lemma EolOnly(d: Decoder, s: seq<byte>)
    requires d.phase.Crlf? && s != [] && s[0] != CR && Run(d, s).status.Complete?
    ensures s[0] == LF
  {
  }

  lemma ChunkText(c: Chunk, tail: seq<byte>)
    ensures EncodeChunk(c) + tail == c.digits + (c.ext + ([LF] + (c.data + (Crs(c.crs) + ([LF] + tail)))))
  {
  }

  /** The input begins with an encoding of these data, and that follows it. */
  ghost predicate Encodes(s: seq<byte>, consume: bool, out: seq<byte>, rest: seq<byte>) {
    exists e :: EncodingOk(e) && s == Encode(e, consume) + rest && out == Decoded(e.chunks)
  }

  /** The decoder completes exactly what begins with an encoding, and gives its data and what follows
      it. */
  lemma CompleteIff(s: seq<byte>, consume: bool, out: seq<byte>, rest: seq<byte>)
    ensures Run(Fresh(consume), s) == Result(Complete, Finish(consume), out, rest) <==> Encodes(s, consume, out, rest)
    ensures Run(Fresh(consume), s).status.Complete? ==> Run(Fresh(consume), s).d == Finish(consume)
  {
    hide Run, Encode, EncodingOk;
    if e :| EncodingOk(e) && s == Encode(e, consume) + rest && out == Decoded(e.chunks) {
      RoundTrip(e, consume, rest);
    }
    if Run(Fresh(consume), s).status.Complete? {
      var e, behind := EncodingOf(consume, s);
      RoundTrip(e, consume, behind);
    }
  }

  // ---- incomplete and rejected input

  /** What completes a body before a chunk, and before the line feed behind the data. */
  function Ending(consume: bool): seq<byte> { [48, LF] + if consume then [LF] else [] }

  lemma EndingCompletes(consume: bool)
    ensures Run(Fresh(consume), Ending(consume)).status.Complete?
  {
    assert DecodeHex(48) == Some(0) && DecodeHex(LF) == None;
    var last := if consume then [LF] else [];
    assert Ending(consume) == [48] + ([LF] + last);
    RunWent(Fresh(consume), 48, [LF] + last);
    var d := Decoder(0, consume, 1, Size);
    assert Run(d, [LF] + last) == Run(Decoder(0, consume, 0, Ext), [LF] + last);
    RunExt(Decoder(0, consume, 0, Ext), [], last);
    assert [] + ([LF] + last) == [LF] + last;
  }

  /** From every state there is a way to complete. */
  lemma Completable(d: Decoder) returns (y: seq<byte>)
    requires Ok(d)
    ensures Run(d, y).status.Complete?
  {
    var c := d.consumeTrailer;
    EndingCompletes(c);
    hide Run, Ending, DecodeHex;
    match d.phase {
      case Size =>
        if d.hexCount == 0 {
          assert Pow16(0) == 1;
          y := Ending(c);
        } else {
          y := LineCompletes(d.(hexCount := 0, phase := Ext));
          NoHexInEol();
          RunNoDigit(d, y);
        }
      case Ext => y := LineCompletes(d);
      case Data => y := DataCompletes(d);
      case Crlf =>
        y := [LF] + Ending(c);
        RunWent(d, LF, Ending(c));
      case LineHead =>
        y := [LF];
        HeadEnds(d);
      case LineMiddle =>
        y := [LF] + [LF];
        RunWent(d, LF, [LF]);
        HeadEnds(d.(phase := LineHead));
    }
  }

  lemma HeadEnds(d: Decoder)
    requires d.phase.LineHead?
    ensures Run(d, [LF]).status.Complete?
  {
  }

  lemma DataCompletes(d: Decoder) returns (y: seq<byte>)
    requires d.phase.Data? && d.left > 0 && d.hexCount == 0
    ensures Run(d, y).status.Complete?
  {
    EndingCompletes(d.consumeTrailer);
    hide Run, Ending;
    var data, tail := seq(d.left, _ => 0), Ending(d.consumeTrailer);
    y := data + ([LF] + tail);
    RunData(d, y, d.left);
    assert y[d.left..] == [LF] + tail;
    RunWent(Decoder(0, d.consumeTrailer, 0, Crlf), LF, tail);
  }

  lemma LineCompletes(d: Decoder) returns (y: seq<byte>)
    requires d.phase.Ext? && d.hexCount == 0
    ensures Run(d, y).status.Complete? && y != [] && y[0] == LF
  {
    hide Run;
    var tail := [];
    if d.left > 0 {
      tail := DataCompletes(d.(phase := Data));
    } else if d.consumeTrailer {
      tail := [LF];
      HeadEnds(d.(phase := LineHead));
    }
    y := [LF] + tail;
    RunExt(d, [], tail);
    assert [] + ([LF] + tail) == y;
  }

  /** What the decoder calls incomplete is the beginning of an encoding, and what it rejects is not. */
  lemma BadIff(s: seq<byte>, consume: bool)
    ensures Run(Fresh(consume), s).status.Bad? <==> forall y :: !Run(Fresh(consume), s + y).status.Complete?
    ensures Run(Fresh(consume), s).status.Incomplete? <==>
            !Run(Fresh(consume), s).status.Complete? && exists y :: Run(Fresh(consume), s + y).status.Complete?
  {
    var r := Run(Fresh(consume), s);
    forall y ensures r.status.Bad? ==> Run(Fresh(consume), s + y).status.Bad? {
      RunSplit(Fresh(consume), s, y);
    }
    assert Pow16(0) == 1;
    RunOk(Fresh(consume), s);
    hide Run;
    if r.status.Incomplete? {
      var y := Completable(r.d);
      RunSplit(Fresh(consume), s, y);
      assert Run(Fresh(consume), s + y).status.Complete?;
    } else if r.status.Complete? {
      RunSplit(Fresh(consume), s, []);
      assert Run(Fresh(consume), s + []).status.Complete?;
    }
  }
}
