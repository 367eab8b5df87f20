/** Encodings in the chunked transfer coding, and decoding them: what the decoder accepts is exactly
    these. */
module ChunkedRoundTrip {
  import opened Bytes
  import opened Options
  import opened Chunked

  // ---- hexadecimal digits

  const LOWER := "0123456789abcdef"
  const UPPER := "0123456789ABCDEF"

  /** The digit for v, of either case. */
  predicate IsDigit(c: byte, v: nat) {
    v < 16 && (c as int == LOWER[v] as int || c as int == UPPER[v] as int)
  }

  ghost predicate IsHex(c: byte) { exists v: nat :: IsDigit(c, v) }

  /** Digits are decoded to their positions, and nothing else is taken for a digit. */
  lemma DigitsDecode(c: byte)
    ensures forall v: nat :: IsDigit(c, v) <==> DecodeHex(c) == Some(v)
    ensures IsHex(c) <==> DecodeHex(c).Some?
  {
    forall v: nat ensures IsDigit(c, v) <==> DecodeHex(c) == Some(v) {
      if v < 16 {
        Positions(v);
      }
    }
    if DecodeHex(c).Some? {
      assert IsDigit(c, DecodeHex(c).value);
    }
  }

  lemma Positions(v: nat)
    requires v < 16
    ensures LOWER[v] as int == (if v < 10 then 48 + v else 87 + v)
    ensures UPPER[v] as int == (if v < 10 then 48 + v else 55 + v)
  {
  }

  ghost function DigitValue(c: byte): nat
    requires IsHex(c)
  {
    var v: nat :| IsDigit(c, v);
    v
  }

  ghost predicate AllHex(digits: seq<byte>) { forall i :: 0 <= i < |digits| ==> IsHex(digits[i]) }

  /** What the digits add up to, after acc. */
  ghost function Value(acc: nat, digits: seq<byte>): nat
    requires AllHex(digits)
    decreases |digits|
  {
    if digits == [] then acc else Value(acc * 16 + DigitValue(digits[0]), digits[1..])
  }

  // ---- encodings

  /** A chunk: the digits of its size, what else stands on their line, its data, and the number of
      carriage returns before the line feed behind the data. */
  datatype Chunk = Chunk(digits: seq<byte>, ext: seq<byte>, data: seq<byte>, crs: nat)

  /** A trailer line: it may begin with carriage returns, but it is not empty. */
  datatype Trailer = Trailer(crs: nat, first: byte, rest: seq<byte>)

  /** Chunks and the size line of the last chunk; then, if they are to be consumed, the trailer lines
      and the carriage returns of the empty line. */
  datatype Encoding = Encoding(chunks: seq<Chunk>, zeros: seq<byte>, ext: seq<byte>, trailers: seq<Trailer>, crs: nat)

  /** One to sixteen hexadecimal digits, then something that begins with something else and stays on
      the line. */
  ghost predicate SizeLineOk(digits: seq<byte>, ext: seq<byte>, size: nat) {
    && 0 < |digits| <= 16 && AllHex(digits) && Value(0, digits) == size
    && LF !in ext && (ext != [] ==> !IsHex(ext[0]))
  }

  ghost predicate ChunkOk(c: Chunk) { c.data != [] && SizeLineOk(c.digits, c.ext, |c.data|) }

  ghost predicate ChunksOk(cs: seq<Chunk>) { forall i :: 0 <= i < |cs| ==> ChunkOk(cs[i]) }

  predicate TrailerOk(t: Trailer) { t.first != CR && t.first != LF && LF !in t.rest }

  predicate TrailersOk(ts: seq<Trailer>) { forall i :: 0 <= i < |ts| ==> TrailerOk(ts[i]) }

  ghost predicate EncodingOk(e: Encoding) {
    ChunksOk(e.chunks) && SizeLineOk(e.zeros, e.ext, 0) && TrailersOk(e.trailers)
  }

  function Crs(n: nat): seq<byte> { seq(n, _ => CR) }

  function EncodeChunk(c: Chunk): seq<byte> {
    c.digits + (c.ext + ([LF] + (c.data + (Crs(c.crs) + [LF]))))
  }

  function EncodeBody(cs: seq<Chunk>): seq<byte> {
    if cs == [] then [] else EncodeChunk(cs[0]) + EncodeBody(cs[1..])
  }

  function Decoded(cs: seq<Chunk>): seq<byte> {
    if cs == [] then [] else cs[0].data + Decoded(cs[1..])
  }

  function EncodeTrailers(ts: seq<Trailer>, crs: nat): seq<byte> {
    if ts == [] then Crs(crs) + [LF]
    else Crs(ts[0].crs) + ([ts[0].first] + (ts[0].rest + ([LF] + EncodeTrailers(ts[1..], crs))))
  }

  function Encode(e: Encoding, consumeTrailer: bool): seq<byte> {
    EncodeBody(e.chunks) + (e.zeros + (e.ext + ([LF] + if consumeTrailer then EncodeTrailers(e.trailers, e.crs) else [])))
  }

  /** A decoder before a chunk, and the one that is done. */
  function Fresh(consumeTrailer: bool): Decoder { Decoder(0, consumeTrailer, 0, Size) }

  function Finish(consumeTrailer: bool): Decoder {
    Decoder(0, consumeTrailer, 0, if consumeTrailer then LineHead else Ext)
  }

  // ---- decoding an encoding

  lemma RunWent(d: Decoder, b: byte, tail: seq<byte>)
    requires Step(d, b).Went?
    ensures Run(d, [b] + tail) == Emit(Step(d, b).emitted, Run(Step(d, b).d, tail))
    ensures Step(d, b).emitted == [] ==> Run(d, [b] + tail) == Run(Step(d, b).d, tail)
  {
    assert ([b] + tail)[1..] == tail;
    var r := Run(Step(d, b).d, tail);
    assert [] + r.out == r.out;
  }

  lemma {:induction false} RunDigits(d: Decoder, digits: seq<byte>, tail: seq<byte>)
    requires d.phase.Size? && d.hexCount + |digits| <= 16 && AllHex(digits)
    ensures Run(d, digits + tail) == Run(d.(left := Value(d.left, digits), hexCount := d.hexCount + |digits|), tail)
    decreases |digits|
  {
    hide Run, DecodeHex, IsDigit;
    if digits == [] {
      assert digits + tail == tail;
    } else {
      assert digits + tail == [digits[0]] + (digits[1..] + tail);
      DigitsDecode(digits[0]);
      RunWent(d, digits[0], digits[1..] + tail);
      RunDigits(Step(d, digits[0]).d, digits[1..], tail);
    }
  }

  /** Behind the end of the size line. */
  function AfterLine(d: Decoder, tail: seq<byte>): Result
    requires d.phase.Ext?
  {
    if d.left > 0 then Run(d.(phase := Data), tail)
    else if d.consumeTrailer then Run(d.(phase := LineHead), tail)
    else Result(Complete, d, [], tail)
  }

  /** Behind the digits everything up to the end of the line is skipped. */
  lemma {:induction false} RunExt(d: Decoder, ext: seq<byte>, tail: seq<byte>)
    requires d.phase.Ext? && LF !in ext
    ensures Run(d, ext + ([LF] + tail)) == AfterLine(d, tail)
    decreases |ext|
  {
    if ext == [] {
      assert ext + ([LF] + tail) == [LF] + tail;
      assert ([LF] + tail)[1..] == tail;
      if Step(d, LF).Went? {
        RunWent(d, LF, tail);
      }
    } else {
      hide Run;
      assert ext + ([LF] + tail) == [ext[0]] + (ext[1..] + ([LF] + tail));
      RunWent(d, ext[0], ext[1..] + ([LF] + tail));
      RunExt(d, ext[1..], tail);
    }
  }

  /** The first byte that is no digit is looked at as part of the rest of the line. */
  lemma RunNoDigit(d: Decoder, tail: seq<byte>)
    requires d.phase.Size? && d.hexCount > 0 && tail != [] && !IsHex(tail[0])
    ensures Run(d, tail) == Run(d.(hexCount := 0, phase := Ext), tail)
  {
    DigitsDecode(tail[0]);
  }

  lemma RunSizeLine(consume: bool, digits: seq<byte>, ext: seq<byte>, size: nat, tail: seq<byte>)
    requires SizeLineOk(digits, ext, size)
    ensures Run(Fresh(consume), digits + (ext + ([LF] + tail))) == AfterLine(Decoder(size, consume, 0, Ext), tail)
  {
    hide Run, Value, IsHex;
    var line := ext + ([LF] + tail);
    RunDigits(Fresh(consume), digits, line);
    assert line != [] && !IsHex(line[0]) by {
      if ext == [] { assert line[0] == LF; DigitsDecode(LF); } else { assert line[0] == ext[0]; }
    }
    RunNoDigit(Decoder(size, consume, |digits|, Size), line);
    RunExt(Decoder(size, consume, 0, Ext), ext, tail);
  }

  /** Carriage returns are skipped behind the data and at the head of a trailer line. */
  lemma {:induction false} RunCrs(d: Decoder, n: nat, tail: seq<byte>)
    requires d.phase.Crlf? || d.phase.LineHead?
    ensures Run(d, Crs(n) + tail) == Run(d, tail)
    decreases n
  {
    if n == 0 {
      assert Crs(n) + tail == tail;
    } else {
      assert Crs(n) + tail == [CR] + (Crs(n - 1) + tail);
      RunWent(d, CR, Crs(n - 1) + tail);
      RunCrs(d, n - 1, tail);
    }
  }

  lemma RunChunk(consume: bool, c: Chunk, tail: seq<byte>)
    requires ChunkOk(c)
    ensures Run(Fresh(consume), EncodeChunk(c) + tail) == Emit(c.data, Run(Fresh(consume), tail))
  {
    hide Run, Value, Crs;
    var n, behind := |c.data|, Crs(c.crs) + ([LF] + tail);
    var rest := c.data + behind;
    assert EncodeChunk(c) + tail == c.digits + (c.ext + ([LF] + rest)) by {
      assert c.data + (Crs(c.crs) + [LF]) + tail == rest;
    }
    RunSizeLine(consume, c.digits, c.ext, n, rest);
    RunData(Decoder(n, consume, 0, Data), rest, n);
    assert rest[..n] == c.data && rest[n..] == behind;
    var d := Decoder(0, consume, 0, Crlf);
    RunCrs(d, c.crs, [LF] + tail);
    RunWent(d, LF, tail);
  }

  lemma {:induction false} RunBody(consume: bool, cs: seq<Chunk>, tail: seq<byte>)
    requires ChunksOk(cs)
    ensures Run(Fresh(consume), EncodeBody(cs) + tail) == Emit(Decoded(cs), Run(Fresh(consume), tail))
    decreases |cs|
  {
    hide Run, EncodeChunk, ChunkOk;
    if cs == [] {
      assert EncodeBody(cs) + tail == tail;
      assert [] + Run(Fresh(consume), tail).out == Run(Fresh(consume), tail).out;
    } else {
      assert EncodeBody(cs) + tail == EncodeChunk(cs[0]) + (EncodeBody(cs[1..]) + tail);
      assert ChunkOk(cs[0]);
      RunChunk(consume, cs[0], EncodeBody(cs[1..]) + tail);
      RunBody(consume, cs[1..], tail);
      EmitEmit(cs[0].data, Decoded(cs[1..]), Run(Fresh(consume), tail));
    }
  }

  lemma {:induction false} RunMiddle(d: Decoder, line: seq<byte>, tail: seq<byte>)
    requires d.phase.LineMiddle? && LF !in line
    ensures Run(d, line + ([LF] + tail)) == Run(d.(phase := LineHead), tail)
    decreases |line|
  {
    hide Run;
    if line == [] {
      assert line + ([LF] + tail) == [LF] + tail;
      RunWent(d, LF, tail);
    } else {
      assert line + ([LF] + tail) == [line[0]] + (line[1..] + ([LF] + tail));
      RunWent(d, line[0], line[1..] + ([LF] + tail));
      RunMiddle(d, line[1..], tail);
    }
  }

  lemma {:induction false} RunTrailers(d: Decoder, ts: seq<Trailer>, crs: nat, rest: seq<byte>)
    requires d.phase.LineHead? && TrailersOk(ts)
    ensures Run(d, EncodeTrailers(ts, crs) + rest) == Result(Complete, d, [], rest)
    decreases |ts|
  {
    if ts == [] {
      assert EncodeTrailers(ts, crs) + rest == Crs(crs) + ([LF] + rest);
      RunCrs(d, crs, [LF] + rest);
      assert ([LF] + rest)[1..] == rest;
    } else {
      hide Run;
      var t, tail := ts[0], EncodeTrailers(ts[1..], crs) + rest;
      assert EncodeTrailers(ts, crs) + rest == Crs(t.crs) + ([t.first] + (t.rest + ([LF] + tail)));
      RunCrs(d, t.crs, [t.first] + (t.rest + ([LF] + tail)));
      RunWent(d, t.first, t.rest + ([LF] + tail));
      RunMiddle(d.(phase := LineMiddle), t.rest, tail);
      RunTrailers(d, ts[1..], crs, rest);
    }
  }

  /** Decoding an encoding, whatever stands on its size lines and in its trailers and whatever follows
      it, gives the data of its chunks and leaves exactly what follows. */
  lemma RoundTrip(e: Encoding, consume: bool, rest: seq<byte>)
    requires EncodingOk(e)
    ensures Run(Fresh(consume), Encode(e, consume) + rest) == Result(Complete, Finish(consume), Decoded(e.chunks), rest)
  {
    hide Run, EncodeBody, EncodeTrailers, Value, SizeLineOk, ChunksOk;
    var behind := (if consume then EncodeTrailers(e.trailers, e.crs) else []) + rest;
    var last := e.zeros + (e.ext + ([LF] + behind));
    assert Encode(e, consume) + rest == EncodeBody(e.chunks) + last;
    RunBody(consume, e.chunks, last);
    RunSizeLine(consume, e.zeros, e.ext, 0, behind);
    if consume {
      RunTrailers(Finish(consume), e.trailers, e.crs, rest);
    } else {
      assert behind == rest;
    }
    assert Decoded(e.chunks) + [] == Decoded(e.chunks);
  }

  // ---- encoding any data

  /** The digit for v in upper or lower case. */
  function HexDigit(v: nat, upper: bool): (c: byte)
    requires v < 16
    ensures IsDigit(c, v)
  {
    Positions(v);
    if upper then UPPER[v] as int as byte else LOWER[v] as int as byte
  }

  /** The size in hexadecimal, without leading zeros. */
  function Hex(n: nat, upper: bool): seq<byte> {
    (if n < 16 then [] else Hex(n / 16, upper)) + [HexDigit(n % 16, upper)]
  }

  lemma {:induction false} ValueAppend(acc: nat, a: seq<byte>, b: seq<byte>)
    requires AllHex(a) && AllHex(b)
    ensures AllHex(a + b) && Value(acc, a + b) == Value(Value(acc, a), b)
    decreases |a|
  {
    hide IsHex;
    if a == [] {
      assert a + b == b;
    } else {
      assert (a + b)[1..] == a[1..] + b;
      ValueAppend(acc * 16 + DigitValue(a[0]), a[1..], b);
    }
  }

  lemma OneDigit(acc: nat, v: nat, upper: bool)
    requires v < 16
    ensures AllHex([HexDigit(v, upper)]) && Value(acc, [HexDigit(v, upper)]) == acc * 16 + v
  {
    var c := HexDigit(v, upper);
    assert IsDigit(c, v);
    DigitsDecode(c);
  }

  /** Every size below 16^k can be written with at most k digits. */
  lemma {:induction false} HexOk(n: nat, k: nat, upper: bool)
    requires n < Pow16(k) && 0 < k
    ensures AllHex(Hex(n, upper)) && Value(0, Hex(n, upper)) == n && 0 < |Hex(n, upper)| <= k
    decreases k
  {
    hide IsHex, IsDigit, Value;
    var high := if n < 16 then [] else Hex(n / 16, upper);
    if n >= 16 {
      assert Pow16(k) == 16 * Pow16(k - 1) && Pow16(0) == 1;
      assert n / 16 < Pow16(k - 1) && k > 1;
      HexOk(n / 16, k - 1, upper);
    } else {
      NoDigits();
    }
    OneDigit(n / 16, n % 16, upper);
    ValueAppend(0, high, [HexDigit(n % 16, upper)]);
  }

  lemma NoDigits()
    ensures Value(0, []) == 0
  {
  }

  function Joined(pieces: seq<seq<byte>>): seq<byte> {
    if pieces == [] then [] else pieces[0] + Joined(pieces[1..])
  }

  /** The pieces as chunks, their sizes in hexadecimal, their lines ended as section 4.1 of RFC 7230
      has it. */
  function AsChunks(pieces: seq<seq<byte>>, upper: bool): seq<Chunk> {
    if pieces == [] then [] else [Chunk(Hex(|pieces[0]|, upper), [CR], pieces[0], 1)] + AsChunks(pieces[1..], upper)
  }

  lemma {:induction false} AsChunksOk(pieces: seq<seq<byte>>, upper: bool)
    requires forall i :: 0 <= i < |pieces| ==> 0 < |pieces[i]| < Pow16(16)
    ensures ChunksOk(AsChunks(pieces, upper)) && Decoded(AsChunks(pieces, upper)) == Joined(pieces)
    decreases |pieces|
  {
    hide Pow16, Hex, Value, DecodeHex, IsHex;
    if pieces != [] {
      HexOk(|pieces[0]|, 16, upper);
      NoHexInEol();
      AsChunksOk(pieces[1..], upper);
      assert AsChunks(pieces, upper)[1..] == AsChunks(pieces[1..], upper);
    }
  }

  lemma NoHexInEol()
    ensures !IsHex(CR) && !IsHex(LF)
  {
    DigitsDecode(CR);
    DigitsDecode(LF);
  }

  /** Any list of non-empty pieces, none of 2^64 bytes or more, has an encoding with digits of either
      case, and decoding it gives the pieces one after the other. */
  lemma ListRoundTrip(pieces: seq<seq<byte>>, upper: bool, consume: bool, rest: seq<byte>)
    requires forall i :: 0 <= i < |pieces| ==> 0 < |pieces[i]| < 0x1_0000_0000_0000_0000
    ensures var e := Encoding(AsChunks(pieces, upper), Hex(0, upper), [CR], [], 1);
            Run(Fresh(consume), Encode(e, consume) + rest) == Result(Complete, Finish(consume), Joined(pieces), rest)
  {
    hide Run, Encode, AsChunks, Value, Hex, IsHex;
    Pow16Word();
    AsChunksOk(pieces, upper);
    assert Pow16(1) == 16 * Pow16(0) == 16;
    HexOk(0, 1, upper);
    NoHexInEol();
    RoundTrip(Encoding(AsChunks(pieces, upper), Hex(0, upper), [CR], [], 1), consume, rest);
  }
}
