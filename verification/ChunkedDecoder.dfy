/** The resumable decoder that rewrites its buffer in place. */
module ChunkedDecoder {
  import opened Bytes
  import opened Options
  import opened Chunked

  datatype Stop = Going | NoMore | Wrong | Whole

  /** What the whole call will give, when out is decoded and the decoder is at d before tail. */
  ghost predicate At(stop: Stop, r: Result, out: seq<byte>, d: Decoder, tail: seq<byte>) {
    match stop
    case Going => r == Emit(out, Run(d, tail))
    case NoMore => tail == [] && r == Result(Incomplete, d, out, [])
    case Wrong => r == Result(Bad, d, out, tail)
    case Whole => r == Result(Complete, d, out, tail)
  }

  /** One byte taken. */
  lemma AtStep(r: Result, out: seq<byte>, d: Decoder, tail: seq<byte>)
    requires At(Going, r, out, d, tail)
    ensures tail == [] ==> At(NoMore, r, out, d, tail)
    ensures tail != [] && Step(d, tail[0]).Went? ==> At(Going, r, out + Step(d, tail[0]).emitted, Step(d, tail[0]).d, tail[1..])
    ensures tail != [] && Step(d, tail[0]).Failed? ==> At(Wrong, r, out, Step(d, tail[0]).d, tail)
    ensures tail != [] && Step(d, tail[0]).Finished? ==> At(Whole, r, out, Step(d, tail[0]).d, tail[1..])
  {
    assert out + [] == out;
    if tail != [] && Step(d, tail[0]).Went? {
      EmitEmit(out, Step(d, tail[0]).emitted, Run(Step(d, tail[0]).d, tail[1..]));
    }
  }

  lemma AtNext(r: Result, out: seq<byte>, d: Decoder, buf: seq<byte>, src: nat, bufsz: nat)
    requires src <= bufsz <= |buf| && !d.phase.Data? && At(Going, r, out, d, buf[src..bufsz])
    ensures src == bufsz ==> At(NoMore, r, out, d, buf[src..bufsz])
    ensures src < bufsz && Step(d, buf[src]).Went? ==> At(Going, r, out, Step(d, buf[src]).d, buf[src + 1..bufsz])
    ensures src < bufsz && Step(d, buf[src]).Failed? ==> At(Wrong, r, out, Step(d, buf[src]).d, buf[src..bufsz])
    ensures src < bufsz && Step(d, buf[src]).Finished? ==> At(Whole, r, out, Step(d, buf[src]).d, buf[src + 1..bufsz])
  {
    hide At;
    var tail := buf[src..bufsz];
    AtStep(r, out, d, tail);
    if tail != [] {
      assert tail[0] == buf[src] && tail[1..] == buf[src + 1..bufsz] && out + [] == out;
    }
  }

  lemma AtData(r: Result, out: seq<byte>, d: Decoder, tail: seq<byte>, n: nat)
    requires At(Going, r, out, d, tail) && d.phase.Data? && 0 < n <= d.left && n <= |tail|
    ensures At(Going, r, out + tail[..n], Advanced(d, n), tail[n..])
  {
    RunData(d, tail, n);
    EmitEmit(out, tail[..n], Run(Advanced(d, n), tail[n..]));
  }

  lemma AtCopied(r: Result, d: Decoder, buf: seq<byte>, from: nat, to: nat, n: nat, bufsz: nat)
    requires to <= from <= bufsz <= |buf| && d.phase.Data? && At(Going, r, buf[..to], d, buf[from..bufsz])
    requires 0 < d.left && n == (if bufsz - from < d.left then bufsz - from else d.left)
    ensures bufsz - from < d.left ==> At(NoMore, r, buf[..to] + buf[from..from + n], d.(left := d.left - n), buf[from + n..bufsz])
    ensures d.left <= bufsz - from ==> At(Going, r, buf[..to] + buf[from..from + n], d.(left := 0, phase := Crlf), buf[from + n..bufsz])
  {
    hide At;
    var tail := buf[from..bufsz];
    assert tail[..n] == buf[from..from + n] && tail[n..] == buf[from + n..bufsz];
    if n > 0 {
      AtData(r, buf[..to], d, tail, n);
    } else {
      assert buf[..to] + buf[from..from + n] == buf[..to];
    }
    if bufsz - from < d.left {
      AtStep(r, buf[..to] + buf[from..from + n], d.(left := d.left - n), buf[from + n..bufsz]);
    }
  }

  lemma Moved(was: seq<byte>, now: seq<byte>, from: nat, to: nat, n: nat, bufsz: nat)
    requires |was| == |now| && to <= from && from + n <= bufsz <= |was|
    requires now[..to] == was[..to] && now[to..to + n] == was[from..from + n] && now[to + n..] == was[to + n..]
    ensures now[..to + n] == was[..to] + was[from..from + n]
    ensures now[from + n..bufsz] == was[from + n..bufsz] && now[from + n..] == was[from + n..]
  {
    assert now[..to + n] == now[..to] + now[to..to + n];
    assert now[from + n..] == now[to + n..][from - to..];
    assert was[from + n..] == was[to + n..][from - to..];
    assert now[from + n..bufsz] == now[from + n..][..bufsz - from - n];
    assert was[from + n..bufsz] == was[from + n..][..bufsz - from - n];
  }

  lemma SameTail(was: seq<byte>, now: seq<byte>, k: nat, bufsz: nat)
    requires |was| == |now| && k <= bufsz <= |was| && was[k..] == now[k..]
    ensures was[bufsz..] == now[bufsz..]
  {
    assert was[bufsz..] == was[k..][bufsz - k..] && now[bufsz..] == now[k..][bufsz - k..];
  }

  /** The first byte that is no digit is looked at again as part of the extension. */
  lemma AtExt(r: Result, out: seq<byte>, d: Decoder, tail: seq<byte>)
    requires At(Going, r, out, d, tail) && d.phase.Size? && d.hexCount > 0 && tail != [] && DecodeHex(tail[0]).None?
    ensures At(Going, r, out, d.(hexCount := 0, phase := Ext), tail)
  {
  }

  class ChunkedDecoder {
    var left: nat
    const consumeTrailer: bool
    var hexCount: nat
    var phase: Phase

    function State(): Decoder
      reads this
    {
      Decoder(left, consumeTrailer, hexCount, phase)
    }

    constructor (consumeTrailer: bool)
      ensures State() == Decoder(0, consumeTrailer, 0, Size) && Ok(State())
    {
      this.consumeTrailer := consumeTrailer;
      left, hexCount, phase := 0, 0, Size;
    }

    method ReadSize(buf: array<byte>, bufsz: nat, from: nat, ghost r: Result, ghost out: seq<byte>) returns (src: nat, stop: Stop)
      requires from <= bufsz <= buf.Length && Ok(State()) && phase.Size? && At(Going, r, out, State(), buf[from..bufsz])
      modifies this
      ensures from <= src <= bufsz && Ok(State()) && At(stop, r, out, State(), buf[src..bufsz])
      ensures stop.Going? ==> phase.Ext?
    {
      hide At, Pow16;
      src := from;
      while true
        invariant from <= src <= bufsz && Ok(State()) && phase.Size? && At(Going, r, out, State(), buf[src..bufsz])
        decreases bufsz - src
      {
        AtNext(r, out, State(), buf[..], src, bufsz);
        if src == bufsz {
          return src, NoMore;
        }
        var v := DecodeHex(buf[src]);
        if v.None? {
          if hexCount == 0 {
            return src, Wrong;
          }
          break;
        }
        if hexCount == MAX_DIGITS {
          return src, Wrong;
        }
        StepOk(State(), buf[src]);
        left, hexCount := left * 16 + v.value, hexCount + 1;
        src := src + 1;
      }
      AtExt(r, out, State(), buf[src..bufsz]);
      Pow16Mono(hexCount, MAX_DIGITS);
      hexCount, phase := 0, Ext;
      stop := Going;
    }

    method SkipExt(buf: array<byte>, bufsz: nat, from: nat, ghost r: Result, ghost out: seq<byte>) returns (src: nat, stop: Stop)
      requires from <= bufsz <= buf.Length && Ok(State()) && phase.Ext? && At(Going, r, out, State(), buf[from..bufsz])
      modifies this
      ensures from <= src <= bufsz && Ok(State()) && At(stop, r, out, State(), buf[src..bufsz])
      ensures stop.Going? ==> from < src && (phase.Data? || phase.LineHead?)
    {
      hide At, Pow16;
      src := from;
      while true
        invariant from <= src <= bufsz && Ok(State()) && phase.Ext? && At(Going, r, out, State(), buf[src..bufsz])
        decreases bufsz - src
      {
        AtNext(r, out, State(), buf[..], src, bufsz);
        if src == bufsz {
          return src, NoMore;
        }
        if buf[src] == LF {
          break;
        }
        src := src + 1;
      }
      src := src + 1;
      if left == 0 {
        if consumeTrailer {
          phase := LineHead;
          return src, Going;
        }
        return src, Whole;
      }
      phase := Data;
      stop := Going;
    }

    /** Moves the chunk data there is to its place. */
    method CopyData(buf: array<byte>, bufsz: nat, from: nat, to: nat, ghost r: Result) returns (src: nat, dst: nat, stop: Stop)
      requires to <= from <= bufsz <= buf.Length && Ok(State()) && phase.Data? && At(Going, r, buf[..to], State(), buf[from..bufsz])
      modifies this, buf
      ensures from <= src <= bufsz && to <= dst <= src && Ok(State()) && At(stop, r, buf[..dst], State(), buf[src..bufsz])
      ensures buf[src..] == old(buf[src..])
      ensures stop.Going? ==> from < src && phase.Crlf?
    {
      hide At, Pow16;
      var avail := bufsz - from;
      var n := if avail < left then avail else left;
      ghost var was := buf[..];
      AtCopied(r, State(), was, from, to, n, bufsz);
      if to != from {
        Move(buf, to, from, n);
      }
      src, dst := from + n, to + n;
      Moved(was, buf[..], from, to, n, bufsz);
      if avail < left {
        left := left - avail;
        return src, dst, NoMore;
      }
      left, phase := 0, Crlf;
      stop := Going;
    }

    method SkipCrlf(buf: array<byte>, bufsz: nat, from: nat, ghost r: Result, ghost out: seq<byte>) returns (src: nat, stop: Stop)
      requires from <= bufsz <= buf.Length && Ok(State()) && phase.Crlf? && At(Going, r, out, State(), buf[from..bufsz])
      modifies this
      ensures from <= src <= bufsz && Ok(State()) && At(stop, r, out, State(), buf[src..bufsz])
      ensures stop.Going? ==> from < src && phase.Size?
    {
      hide At, Pow16;
      src := from;
      while true
        invariant from <= src <= bufsz && Ok(State()) && phase.Crlf? && At(Going, r, out, State(), buf[src..bufsz])
        decreases bufsz - src
      {
        AtNext(r, out, State(), buf[..], src, bufsz);
        if src == bufsz {
          return src, NoMore;
        }
        if buf[src] != CR {
          break;
        }
        src := src + 1;
      }
      if buf[src] != LF {
        return src, Wrong;
      }
      src := src + 1;
      phase := Size;
      stop := Going;
    }

    method TrailerHead(buf: array<byte>, bufsz: nat, from: nat, ghost r: Result, ghost out: seq<byte>) returns (src: nat, stop: Stop)
      requires from <= bufsz <= buf.Length && Ok(State()) && phase.LineHead? && At(Going, r, out, State(), buf[from..bufsz])
      modifies this
      ensures from <= src <= bufsz && Ok(State()) && At(stop, r, out, State(), buf[src..bufsz])
      ensures stop.Going? ==> from < src && phase.LineMiddle?
    {
      hide At, Pow16;
      src := from;
      while true
        invariant from <= src <= bufsz && Ok(State()) && phase.LineHead? && At(Going, r, out, State(), buf[src..bufsz])
        decreases bufsz - src
      {
        AtNext(r, out, State(), buf[..], src, bufsz);
        if src == bufsz {
          return src, NoMore;
        }
        if buf[src] != CR {
          break;
        }
        src := src + 1;
      }
      src := src + 1;
      if buf[src - 1] == LF {
        return src, Whole;
      }
      phase := LineMiddle;
      stop := Going;
    }

    method TrailerMiddle(buf: array<byte>, bufsz: nat, from: nat, ghost r: Result, ghost out: seq<byte>) returns (src: nat, stop: Stop)
      requires from <= bufsz <= buf.Length && Ok(State()) && phase.LineMiddle? && At(Going, r, out, State(), buf[from..bufsz])
      modifies this
      ensures from <= src <= bufsz && Ok(State()) && At(stop, r, out, State(), buf[src..bufsz])
      ensures stop.Going? ==> from < src && phase.LineHead?
    {
      hide At, Pow16;
      src := from;
      while true
        invariant from <= src <= bufsz && Ok(State()) && phase.LineMiddle? && At(Going, r, out, State(), buf[src..bufsz])
        decreases bufsz - src
      {
        AtNext(r, out, State(), buf[..], src, bufsz);
        if src == bufsz {
          return src, NoMore;
        }
        if buf[src] == LF {
          break;
        }
        src := src + 1;
      }
      src := src + 1;
      phase := LineHead;
      stop := Going;
    }

    /** Decodes what there is.  The result is -2 for incomplete, -1 for an error, and else the
        number of bytes left over; the decoded bytes, then the bytes not taken, are at the
        front of the buffer. */
    method Decode(buf: array<byte>, bufsz: nat) returns (ret: int, newsz: nat)
      requires Ok(State()) && bufsz <= buf.Length
      modifies this, buf
      ensures var r := Run(old(State()), old(buf[..bufsz]));
              && State() == r.d && Ok(State())
              && ret == (match r.status case Incomplete => -2 case Bad => -1 case Complete => |r.rest|)
              && newsz == |r.out| && newsz + |r.rest| <= bufsz
              && buf[..newsz] == r.out && buf[newsz..newsz + |r.rest|] == r.rest
      ensures buf[bufsz..] == old(buf[bufsz..])
    {
      hide Ok, At, Run, Emit;
      ghost var r := Run(State(), buf[..bufsz]);
      var dst, src, stop := 0, 0, Going;
      AtStart(State(), buf[..bufsz]);
      assert buf[..0] == [];
      while stop.Going?
        invariant 0 <= dst <= src <= bufsz && Ok(State()) && At(stop, r, buf[..dst], State(), buf[src..bufsz])
        invariant buf[bufsz..] == old(buf[bufsz..])
        decreases stop.Going?, bufsz - src
      {
        ghost var out := buf[..dst];
        if phase.Size? {
          src, stop := ReadSize(buf, bufsz, src, r, out);
        }
        if stop.Going? && phase.Ext? {
          src, stop := SkipExt(buf, bufsz, src, r, out);
        }
        if stop.Going? && phase.Data? {
          ghost var was := buf[..];
          src, dst, stop := CopyData(buf, bufsz, src, dst, r);
          SameTail(was, buf[..], src, bufsz);
        }
        if stop.Going? && phase.Crlf? {
          src, stop := SkipCrlf(buf, bufsz, src, r, buf[..dst]);
        } else if stop.Going? && phase.LineHead? {
          src, stop := TrailerHead(buf, bufsz, src, r, buf[..dst]);
        } else if stop.Going? && phase.LineMiddle? {
          src, stop := TrailerMiddle(buf, bufsz, src, r, buf[..dst]);
        }
      }
      ret := if stop.Whole? then bufsz - src else if stop.NoMore? then -2 else -1;
      ghost var out, tail := buf[..dst], buf[src..bufsz];
      ghost var was := buf[..];
      if dst != src {
        Move(buf, dst, src, bufsz - src);
        SameTail(was, buf[..], dst + (bufsz - src), bufsz);
      }
      newsz := dst;
      AtEnd(stop, r, out, State(), tail);
    }
  }

  lemma AtStart(d: Decoder, input: seq<byte>)
    ensures At(Going, Run(d, input), [], d, input)
  {
  }

  lemma AtEnd(stop: Stop, r: Result, out: seq<byte>, d: Decoder, tail: seq<byte>)
    requires At(stop, r, out, d, tail) && !stop.Going?
    ensures r == Result(if stop.Whole? then Complete else if stop.NoMore? then Incomplete else Bad, d, out, tail)
  {
  }

  /** Moves n bytes down, overlapping or not. */
  method Move(buf: array<byte>, dst: nat, src: nat, n: nat)
    requires dst <= src && src + n <= buf.Length
    modifies buf
    ensures buf[..dst] == old(buf[..dst])
    ensures buf[dst..dst + n] == old(buf[src..src + n])
    ensures buf[dst + n..] == old(buf[dst + n..])
  {
    ghost var was := buf[..];
    var i := 0;
    while i < n
      invariant 0 <= i <= n
      invariant buf[..] == MovedPart(was, dst, src, i)
    {
      MovedNext(was, dst, src, i);
      buf[dst + i] := buf[src + i];
      i := i + 1;
    }
    MovedAll(was, dst, src, n);
  }

  /** The buffer when i bytes are moved. */
  function MovedPart(was: seq<byte>, dst: nat, src: nat, i: nat): seq<byte>
    requires dst <= src && src + i <= |was|
  {
    was[..dst] + was[src..src + i] + was[dst + i..]
  }

  lemma MovedNext(was: seq<byte>, dst: nat, src: nat, i: nat)
    requires dst <= src && src + i < |was|
    ensures var now := MovedPart(was, dst, src, i);
            |now| == |was| && now[src + i] == was[src + i]
            && now[dst + i := was[src + i]] == MovedPart(was, dst, src, i + 1)
  {
  }

  lemma MovedAll(was: seq<byte>, dst: nat, src: nat, n: nat)
    requires dst <= src && src + n <= |was|
    ensures var now := MovedPart(was, dst, src, n);
            |now| == |was| && now[..dst] == was[..dst] && now[dst..dst + n] == was[src..src + n] && now[dst + n..] == was[dst + n..]
  {
  }
}
