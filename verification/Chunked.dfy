/** The chunked transfer coding, one byte at a time (section 4.1 of RFC 7230). */
module Chunked {
  import opened Bytes
  import opened Options

  const MAX_DIGITS := 16

  datatype Phase = Size | Ext | Data | Crlf | LineHead | LineMiddle

  /** The decoder between bytes. */
  datatype Decoder = Decoder(left: nat, consumeTrailer: bool, hexCount: nat, phase: Phase)

  datatype Status = Incomplete | Bad | Complete

  /** What becomes of some input: the decoder then, the decoded bytes, and the undecoded rest. */
  datatype Result = Result(status: Status, d: Decoder, out: seq<byte>, rest: seq<byte>)

  function DecodeHex(c: byte): (v: Option<nat>)
    ensures v.Some? ==> v.value < 16
  {
    if 48 <= c <= 57 then Some((c - 48) as nat)
    else if 65 <= c <= 70 then Some((c - 65) as nat + 10)
    else if 97 <= c <= 102 then Some((c - 97) as nat + 10)
    else None
  }

  function Pow16(n: nat): (p: nat)
    ensures p >= 1
  {
    if n == 0 then 1 else 16 * Pow16(n - 1)
  }

  /** The size read so far is as long as its digits; nothing is left over where no chunk is
      open; in the data something is left. */
  predicate Ok(d: Decoder) {
    match d.phase
    case Size => d.hexCount <= MAX_DIGITS && d.left < Pow16(d.hexCount)
    case Ext => d.hexCount == 0 && d.left < Pow16(MAX_DIGITS)
    case Data => d.hexCount == 0 && 0 < d.left < Pow16(MAX_DIGITS)
    case _ => d.hexCount == 0 && d.left == 0
  }

  datatype Next =
    | Went(d: Decoder, emitted: seq<byte>)
    | Failed(d: Decoder)
    | Finished(d: Decoder)

  /** One byte.  A byte that makes it fail is not taken. */
  function Step(d: Decoder, b: byte): Next {
    match d.phase
    case Size =>
      var v := DecodeHex(b);
      if v.Some? then
        if d.hexCount == MAX_DIGITS then Failed(d)
        else Went(d.(left := d.left * 16 + v.value, hexCount := d.hexCount + 1), [])
      else if d.hexCount == 0 then Failed(d)
      else StepExt(d.(hexCount := 0, phase := Ext), b)
    case Ext => StepExt(d, b)
    case Data => Went(Advanced(d, 1), [b])
    case Crlf =>
      if b == CR then Went(d, []) else if b == LF then Went(d.(phase := Size), []) else Failed(d)
    case LineHead =>
      if b == CR then Went(d, []) else if b == LF then Finished(d) else Went(d.(phase := LineMiddle), [])
    case LineMiddle =>
      if b == LF then Went(d.(phase := LineHead), []) else Went(d, [])
  }

  function StepExt(d: Decoder, b: byte): Next {
    if b != LF then Went(d, [])
    else if d.left > 0 then Went(d.(phase := Data), [])
    else if d.consumeTrailer then Went(d.(phase := LineHead), [])
    else Finished(d)
  }

  /** After n bytes of chunk data. */
  function Advanced(d: Decoder, n: nat): Decoder {
    if n < d.left then d.(left := d.left - n) else d.(left := 0, phase := Crlf)
  }

  function Run(d: Decoder, input: seq<byte>): Result
    decreases |input|
  {
    if input == [] then Result(Incomplete, d, [], [])
    else
      match Step(d, input[0])
      case Went(d', emitted) => Emit(emitted, Run(d', input[1..]))
      case Failed(d') => Result(Bad, d', [], input)
      case Finished(d') => Result(Complete, d', [], input[1..])
  }

  function Emit(out: seq<byte>, r: Result): Result {
    r.(out := out + r.out)
  }

  lemma EmitEmit(a: seq<byte>, b: seq<byte>, r: Result)
    ensures Emit(a, Emit(b, r)) == Emit(a + b, r)
  {
    assert a + (b + r.out) == (a + b) + r.out;
  }

  lemma {:induction false} Pow16Mono(m: nat, n: nat)
    requires m <= n
    ensures Pow16(m) <= Pow16(n)
  {
    if m < n {
      Pow16Mono(m, n - 1);
    }
  }

  /** The size never outgrows its digits, so the 64-bit accumulator never wraps; whatever the
      input, the decoder stays well formed. */
  lemma {:induction false} RunOk(d: Decoder, input: seq<byte>)
    requires Ok(d)
    ensures Ok(Run(d, input).d) && Run(d, input).d.left < 0x1_0000_0000_0000_0000
    ensures Run(d, input).d.consumeTrailer == d.consumeTrailer
    decreases |input|
  {
    OkBounded(d);
    if input != [] {
      StepOk(d, input[0]);
      var n := Step(d, input[0]);
      if n.Went? {
        RunOk(n.d, input[1..]);
      } else {
        OkBounded(n.d);
      }
    }
  }

  lemma Pow16Word()
    ensures Pow16(MAX_DIGITS) == 0x1_0000_0000_0000_0000
  {
    assert Pow16(2) == 0x100;
    assert Pow16(4) == 0x1_0000;
    assert Pow16(6) == 0x100_0000;
    assert Pow16(8) == 0x1_0000_0000;
    assert Pow16(10) == 0x100_0000_0000;
    assert Pow16(12) == 0x1_0000_0000_0000;
    assert Pow16(14) == 0x100_0000_0000_0000;
  }

  lemma OkBounded(d: Decoder)
    requires Ok(d)
    ensures d.left < 0x1_0000_0000_0000_0000
  {
    Pow16Word();
    if d.phase.Size? {
      Pow16Mono(d.hexCount, MAX_DIGITS);
    }
  }

  lemma StepOk(d: Decoder, b: byte)
    requires Ok(d)
    ensures Ok(Step(d, b).d) && Step(d, b).d.consumeTrailer == d.consumeTrailer
  {
    var v := DecodeHex(b);
    hide Pow16, DecodeHex, Step, StepExt;
    if d.phase.Size? && v.None? && d.hexCount > 0 {
      Pow16Mono(d.hexCount, MAX_DIGITS);
      StepExtOk(d.(hexCount := 0, phase := Ext), b);
      assert Step(d, b) == StepExt(d.(hexCount := 0, phase := Ext), b) by { SizeEnds(d, b); }
    } else if d.phase.Size? {
      SizeStepOk(d, b);
    } else if d.phase.Ext? {
      StepExtOk(d, b);
      assert Step(d, b) == StepExt(d, b) by { ExtSteps(d, b); }
    } else {
      OtherStepOk(d, b);
    }
  }

  lemma SizeEnds(d: Decoder, b: byte)
    requires d.phase.Size? && DecodeHex(b).None? && d.hexCount > 0
    ensures Step(d, b) == StepExt(d.(hexCount := 0, phase := Ext), b)
  {
  }

  lemma ExtSteps(d: Decoder, b: byte)
    requires d.phase.Ext?
    ensures Step(d, b) == StepExt(d, b)
  {
  }

  lemma StepExtOk(d: Decoder, b: byte)
    requires Ok(d) && d.phase.Ext?
    ensures Ok(StepExt(d, b).d) && StepExt(d, b).d.consumeTrailer == d.consumeTrailer
  {
    hide Pow16;
  }

  lemma SizeStepOk(d: Decoder, b: byte)
    requires Ok(d) && d.phase.Size? && (DecodeHex(b).Some? || d.hexCount == 0)
    ensures Ok(Step(d, b).d) && Step(d, b).d.consumeTrailer == d.consumeTrailer
  {
    assert Pow16(d.hexCount + 1) == 16 * Pow16(d.hexCount);
    hide Pow16, DecodeHex;
  }

  lemma OtherStepOk(d: Decoder, b: byte)
    requires Ok(d) && !d.phase.Size? && !d.phase.Ext?
    ensures Ok(Step(d, b).d) && Step(d, b).d.consumeTrailer == d.consumeTrailer
  {
    hide Pow16, DecodeHex;
  }

  /** Feeding the input in two pieces, for every way to cut it: the same decoded bytes, the
      same state, the same result, and the same bytes left over. */
  lemma {:induction false} RunSplit(d: Decoder, a: seq<byte>, b: seq<byte>)
    ensures Run(d, a + b) ==
            if Run(d, a).status.Incomplete? then Emit(Run(d, a).out, Run(Run(d, a).d, b))
            else Run(d, a).(rest := Run(d, a).rest + b)
    decreases |a|
  {
    if a == [] {
      assert a + b == b;
    } else {
      assert (a + b)[0] == a[0] && (a + b)[1..] == a[1..] + b;
      var n := Step(d, a[0]);
      if n.Went? {
        RunSplit(n.d, a[1..], b);
        var r := Run(n.d, a[1..]);
        if r.status.Incomplete? {
          EmitEmit(n.emitted, r.out, Run(r.d, b));
        }
      }
    }
  }

  /** An incomplete result has taken everything; otherwise what is not taken is the end of the
      input. */
  lemma {:induction false} RunRest(d: Decoder, input: seq<byte>)
    ensures Run(d, input).status.Incomplete? ==> Run(d, input).rest == []
    ensures |Run(d, input).out| + |Run(d, input).rest| <= |input|
    ensures Run(d, input).rest == input[|input| - |Run(d, input).rest|..]
    decreases |input|
  {
    if input != [] && Step(d, input[0]).Went? {
      RunRest(Step(d, input[0]).d, input[1..]);
    }
  }

  /** A run of chunk data. */
  lemma {:induction false} RunData(d: Decoder, input: seq<byte>, n: nat)
    requires d.phase.Data? && n <= d.left && n <= |input| && 0 < n
    ensures Run(d, input) == Emit(input[..n], Run(Advanced(d, n), input[n..]))
    decreases n
  {
    var d1 := Advanced(d, 1);
    if n == 1 {
      assert input[..1] == [input[0]];
    } else {
      RunData(d1, input[1..], n - 1);
      EmitEmit([input[0]], input[1..][..n - 1], Run(Advanced(d1, n - 1), input[1..][n - 1..]));
      assert [input[0]] + input[1..][..n - 1] == input[..n];
      assert input[1..][n - 1..] == input[n..];
    }
  }
}
