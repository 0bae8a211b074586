/** The microphone worklet: a low-pass filter and a fractional resampler that carry a
    tail and a position across render quanta of any size, and the chunker behind
    them.  Samples, taps and the position are reals. */
module Resampler {
  import opened RealSums

  // ------------------------------------------------- one-shot specification

  /** The filter applied at integer index `i` of a whole signal. */
  ghost function Fir(taps: seq<real>, s: seq<real>, i: int): real
    requires 0 <= i - |taps| / 2 && i + |taps| / 2 < |s| && |taps| % 2 == 1
  {
    Dot(taps, s[i - |taps| / 2..i + |taps| / 2 + 1])
  }

  ghost function Dot(a: seq<real>, b: seq<real>): real
    requires |a| == |b|
  {
    if |a| == 0 then 0.0 else Dot(a[..|a| - 1], b[..|a| - 1]) + a[|a| - 1] * b[|a| - 1]
  }

  /** Absolute position of output `k`. */
  ghost function At(half: nat, step: real, k: nat): real {
    half as real + k as real * step
  }

  /** `n` input samples are enough to filter either side of output `k`. */
  ghost predicate Available(half: nat, step: real, n: nat, k: nat) {
    At(half, step, k).Floor + 1 <= n - 1 - half
  }

  /** The filtered signal at a fractional position, linearly interpolated. */
  ghost function Sample(taps: seq<real>, s: seq<real>, pos: real): real
    requires |taps| % 2 == 1 && pos >= (|taps| / 2) as real && pos.Floor + 1 + |taps| / 2 < |s|
  {
    var frac := pos - pos.Floor as real;
    var y0 := Fir(taps, s, pos.Floor);
    if frac == 0.0 then y0 else y0 + frac * (Fir(taps, s, pos.Floor + 1) - y0)
  }

  /** Filter parameters under which the worklet runs. */
  ghost predicate Sane(taps: seq<real>, step: real) {
    |taps| % 2 == 1 && 0.0 < step <= |taps| as real
  }

  /** `out` is exactly what one-shot filtering of `s` yields: every output that
      `|s|` samples allow, and no other. */
  ghost predicate Resampled(taps: seq<real>, step: real, s: seq<real>, out: seq<real>)
    requires Sane(taps, step)
  {
    var half := |taps| / 2;
    && !Available(half, step, |s|, |out|)
    && Prefix(taps, step, s, out)
  }

  ghost predicate Prefix(taps: seq<real>, step: real, s: seq<real>, out: seq<real>)
    requires Sane(taps, step)
  {
    forall k :: 0 <= k < |out| ==>
      Available(|taps| / 2, step, |s|, k) && OutputIs(taps, step, s, k, out[k])
  }

  ghost predicate OutputIs(taps: seq<real>, step: real, s: seq<real>, k: nat, y: real)
    requires Sane(taps, step) && Available(|taps| / 2, step, |s|, k)
  {
    PositionAdvances(|taps| / 2, step, 0, k);
    y == Sample(taps, s, At(|taps| / 2, step, k))
  }

  lemma PositionAdvances(half: nat, step: real, j: nat, k: nat)
    requires 0.0 < step && j <= k
    ensures At(half, step, j) <= At(half, step, k)
    ensures At(half, step, k) == At(half, step, j) + (k - j) as real * step
  {
    assert (k - j) as real * step >= 0.0;
  }

  /** Filtering a suffix at `pos` is filtering the whole at `off + pos`. */
  lemma SampleOfSuffix(taps: seq<real>, s: seq<real>, off: nat, pos: real)
    requires |taps| % 2 == 1 && off <= |s| && pos >= (|taps| / 2) as real
    requires pos.Floor + 1 + |taps| / 2 < |s| - off
    ensures (pos + off as real).Floor == pos.Floor + off
    ensures Sample(taps, s[off..], pos) == Sample(taps, s, pos + off as real)
  {
    var half, i := |taps| / 2, pos.Floor;
    var j := i + off;
    assert s[off..][i - half..i + half + 1] == s[j - half..j + half + 1];
    assert s[off..][i + 1 - half..i + 1 + half + 1] == s[j + 1 - half..j + 1 + half + 1];
  }

  // ------------------------------------------------- what the specification says

  /** Two outputs of the same signal are equal: the specification is a function. */
  lemma ResampledIsUnique(taps: seq<real>, step: real, s: seq<real>, a: seq<real>, b: seq<real>)
    requires Sane(taps, step) && Resampled(taps, step, s, a) && Resampled(taps, step, s, b)
    ensures a == b
  {
    assert |a| == |b|;
    forall k | 0 <= k < |a| ensures a[k] == b[k] {
      assert OutputIs(taps, step, s, k, a[k]) && OutputIs(taps, step, s, k, b[k]);
    }
  }

  /** Later input never changes an output already produced. */
  lemma OutputIsCausal(taps: seq<real>, step: real, s: seq<real>, more: seq<real>, k: nat, y: real)
    requires Sane(taps, step) && Available(|taps| / 2, step, |s|, k) && OutputIs(taps, step, s, k, y)
    ensures Available(|taps| / 2, step, |s + more|, k) && OutputIs(taps, step, s + more, k, y)
  {
    var half := |taps| / 2;
    PositionAdvances(half, step, 0, k);
    var i := At(half, step, k).Floor;
    assert s[i - half..i + half + 1] == (s + more)[i - half..i + half + 1];
    assert s[i + 1 - half..i + 1 + half + 1] == (s + more)[i + 1 - half..i + 1 + half + 1];
  }

  lemma {:induction false} DotConstant(a: seq<real>, b: seq<real>, v: real)
    requires |a| == |b| && forall i :: 0 <= i < |b| ==> b[i] == v
    ensures Dot(a, b) == Sum(a) * v
  {
    if |a| > 0 {
      DotConstant(a[..|a| - 1], b[..|a| - 1], v);
    }
  }

  lemma ConstantSample(taps: seq<real>, s: seq<real>, pos: real, v: real)
    requires |taps| % 2 == 1 && pos >= (|taps| / 2) as real && pos.Floor + 1 + |taps| / 2 < |s|
    requires Sum(taps) == 1.0 && forall i :: 0 <= i < |s| ==> s[i] == v
    ensures Sample(taps, s, pos) == v
  {
    hide Fir;
    var i := pos.Floor;
    ConstantFir(taps, s, i, v);
    ConstantFir(taps, s, i + 1, v);
  }

  lemma ConstantFir(taps: seq<real>, s: seq<real>, i: int, v: real)
    requires |taps| % 2 == 1 && |taps| / 2 <= i && i + |taps| / 2 < |s|
    requires Sum(taps) == 1.0 && forall j :: 0 <= j < |s| ==> s[j] == v
    ensures Fir(taps, s, i) == v
  {
    DotConstant(taps, s[i - |taps| / 2..i + |taps| / 2 + 1], v);
  }

  /** With unit DC gain, a constant signal comes out as that constant. */
  lemma ConstantPasses(taps: seq<real>, step: real, s: seq<real>, out: seq<real>, v: real)
    requires Sane(taps, step) && Resampled(taps, step, s, out)
    requires Sum(taps) == 1.0 && forall i :: 0 <= i < |s| ==> s[i] == v
    ensures forall k :: 0 <= k < |out| ==> out[k] == v
  {
    forall k | 0 <= k < |out| ensures out[k] == v {
      assert OutputIs(taps, step, s, k, out[k]);
      PositionAdvances(|taps| / 2, step, 0, k);
      ConstantSample(taps, s, At(|taps| / 2, step, k), v);
    }
  }

  // ------------------------------------------------- chunks

  datatype Message = Message(pcm: seq<int>, peak: real)

  function Clamp(y: real): real {
    if y > 1.0 then 1.0 else if y < -1.0 then -1.0 else y
  }

  /** JavaScript's Math.round: the nearest integer, halves upwards. */
  function Round(x: real): int {
    (x + 0.5).Floor
  }

  function Quantise(y: real): (q: int)
    ensures -32768 <= q <= 32767
    ensures y <= -1.0 ==> q == -32768
    ensures y >= 1.0 ==> q == 32767
  {
    var c := Clamp(y);
    if c < 0.0 then Round(c * 32768.0) else Round(c * 32767.0)
  }

  lemma QuantiseIsMonotone(a: real, b: real)
    requires a <= b
    ensures Quantise(a) <= Quantise(b)
  {
  }

  ghost function Pcm(out: seq<real>): (r: seq<int>)
    ensures |r| == |out|
  {
    seq(|out|, i requires 0 <= i < |out| => Quantise(out[i]))
  }

  /** The loudest clamped sample. */
  ghost predicate IsPeak(out: seq<real>, peak: real) {
    && peak >= 0.0
    && (forall y :: y in out ==> -peak <= Clamp(y) <= peak)
    && (peak == 0.0 || exists y :: y in out && (Clamp(y) == peak || Clamp(y) == -peak))
  }

  /** `posted` cuts `out` into full chunks of `size`, in order, each with its own peak. */
  ghost predicate Posted(out: seq<real>, size: nat, posted: seq<Message>) {
    && size * |posted| <= |out|
    && forall m :: 0 <= m < |posted| ==> ChunkIs(out, size, m, posted[m])
  }

  ghost predicate ChunkIs(out: seq<real>, size: nat, m: nat, msg: Message) {
    && m * size + size <= |out|
    && msg.pcm == Pcm(out[m * size..m * size + size])
    && IsPeak(out[m * size..m * size + size], msg.peak)
  }

  /** Everything sent plus the partial chunk is the output so far. */
  ghost predicate Chunked(out: seq<real>, size: nat, posted: seq<Message>, partial: seq<int>, peak: real) {
    && Posted(out, size, posted)
    && partial == Pcm(out[size * |posted|..])
    && IsPeak(out[size * |posted|..], peak)
  }

  lemma PeakGrows(out: seq<real>, peak: real, y: real)
    requires IsPeak(out, peak)
    ensures var a := if Clamp(y) < 0.0 then -Clamp(y) else Clamp(y);
            IsPeak(out + [y], if a > peak then a else peak)
  {
    assert (out + [y])[|out|] == y;
    if peak > 0.0 {
      var x :| x in out && (Clamp(x) == peak || Clamp(x) == -peak);
      assert x in out + [y];
    }
  }

  lemma ChunkGrows(out: seq<real>, size: nat, posted: seq<Message>, partial: seq<int>, peak: real, y: real)
    requires Chunked(out, size, posted, partial, peak)
    ensures var a := if Clamp(y) < 0.0 then -Clamp(y) else Clamp(y);
            Chunked(out + [y], size, posted, partial + [Quantise(y)], if a > peak then a else peak)
  {
    var out' := out + [y];
    assert out'[size * |posted|..] == out[size * |posted|..] + [y];
    PeakGrows(out[size * |posted|..], peak, y);
    forall m | 0 <= m < |posted| ensures ChunkIs(out', size, m, posted[m]) {
      assert ChunkIs(out, size, m, posted[m]);
      assert out'[m * size..m * size + size] == out[m * size..m * size + size];
    }
  }

  lemma ChunkPosts(out: seq<real>, size: nat, posted: seq<Message>, partial: seq<int>, peak: real)
    requires Chunked(out, size, posted, partial, peak) && |partial| == size
    ensures size * (|posted| + 1) == |out|
    ensures Chunked(out, size, posted + [Message(partial, peak)], [], 0.0)
  {
    var n := |posted|;
    assert size * (n + 1) == size * n + size == n * size + size == |out|;
    assert out[n * size..n * size + size] == out[size * n..];
    assert out[size * (n + 1)..] == [];
    var posted' := posted + [Message(partial, peak)];
    forall m | 0 <= m < |posted'| ensures ChunkIs(out, size, m, posted'[m]) {
      if m < n {
        assert ChunkIs(out, size, m, posted[m]);
      }
    }
  }

  // ------------------------------------------------- channels

  ghost function ChannelSum(input: seq<seq<real>>, n: nat, i: nat): real
    requires n <= |input| && forall c :: 0 <= c < n ==> i < |input[c]|
  {
    if n == 0 then 0.0 else ChannelSum(input, n - 1, i) + input[n - 1][i]
  }

  ghost predicate SameLength(input: seq<seq<real>>) {
    forall c :: 0 <= c < |input| ==> |input[c]| == |input[0]|
  }

  /** The mean over the channels; one channel is taken as it is. */
  ghost function Mono(input: seq<seq<real>>): (m: seq<real>)
    requires |input| > 0 && SameLength(input)
    ensures |m| == |input[0]|
  {
    seq(|input[0]|, i requires 0 <= i < |input[0]| => ChannelSum(input, |input|, i) / |input| as real)
  }

  lemma OutputCountIsBounded(half: nat, step: real, n: nat) returns (bound: nat)
    requires 0.0 < step
    ensures forall k: nat :: Available(half, step, n, k) ==> k < bound
  {
    bound := (n as real / step).Floor + 1;
    assert bound as real * step >= n as real by {
      assert bound as real >= n as real / step;
      assert bound as real * step >= (n as real / step) * step;
    }
    forall k: nat | Available(half, step, n, k) ensures k < bound {
      if k >= bound {
        PositionAdvances(half, step, bound, k);
      }
    }
  }

  /** The scan of the live samples `s[off..]` stands at `p`, having produced `out`. */
  ghost predicate OnGrid(taps: seq<real>, step: real, s: seq<real>, off: nat, p: real, out: seq<real>) {
    && Sane(taps, step) && off <= |s|
    && |taps| / 2 <= p.Floor <= |taps| / 2 + |s| - off
    && p + off as real == At(|taps| / 2, step, |out|)
    && Prefix(taps, step, s, out)
  }

  lemma GridStep(taps: seq<real>, step: real, s: seq<real>, off: nat, p: real, out: seq<real>, y: real)
    requires OnGrid(taps, step, s, off, p, out)
    requires p.Floor + 1 <= |s| - off - 1 - |taps| / 2
    requires y == Sample(taps, s[off..], p)
    ensures OnGrid(taps, step, s, off, p + step, out + [y])
    ensures Available(|taps| / 2, step, |s|, |out|)
  {
    var half, out' := |taps| / 2, out + [y];
    SampleOfSuffix(taps, s, off, p);
    assert OutputIs(taps, step, s, |out|, y);
    forall k | 0 <= k < |out'| ensures Available(half, step, |s|, k) && OutputIs(taps, step, s, k, out'[k]) {
      if k < |out| {
        assert out'[k] == out[k];
      }
    }
    PositionAdvances(half, step, |out|, |out| + 1);
  }

  /** Between calls: the tail is the end of the signal, the position stands at the
      filter's half width, and all outputs the signal allows have been produced. */
  ghost predicate Carry(taps: seq<real>, step: real, s: seq<real>, tail: seq<real>, pos: real, out: seq<real>) {
    && Sane(taps, step)
    && pos.Floor == |taps| / 2
    && |tail| <= |taps| && |tail| <= |s| && tail == s[|s| - |tail|..]
    && pos + (|s| - |tail|) as real == At(|taps| / 2, step, |out|)
    && Resampled(taps, step, s, out)
  }

  lemma CarryMeans(taps: seq<real>, step: real, s: seq<real>, tail: seq<real>, pos: real, out: seq<real>)
    requires Carry(taps, step, s, tail, pos, out)
    ensures Sane(taps, step) && Resampled(taps, step, s, out)
  {
  }

  lemma Resume(taps: seq<real>, step: real, s: seq<real>, tail: seq<real>, pos: real, out: seq<real>, more: seq<real>)
    requires Carry(taps, step, s, tail, pos, out)
    ensures tail + more == (s + more)[|s| - |tail|..]
    ensures OnGrid(taps, step, s + more, |s| - |tail|, pos, out)
  {
    PrefixIsCausal(taps, step, s, more, out);
  }

  lemma GridIsAhead(taps: seq<real>, step: real, s: seq<real>, off: nat, p: real, out: seq<real>)
    requires OnGrid(taps, step, s, off, p, out)
    ensures |taps| / 2 <= p.Floor <= |taps| / 2 + |s| - off
  {
  }

  /** Dropping what no later output needs leaves at most one filter length. */
  lemma Rebase(taps: seq<real>, step: real, s: seq<real>, off: nat, p: real, out: seq<real>, keepFrom: nat)
    requires OnGrid(taps, step, s, off, p, out) && Resampled(taps, step, s, out)
    requires |s| - off <= p.Floor + |taps| / 2 + 1 && keepFrom == p.Floor - |taps| / 2
    ensures keepFrom <= |s| - off
    ensures Carry(taps, step, s, s[off..][keepFrom..], p - keepFrom as real, out)
  {
    assert s[off..][keepFrom..] == s[off + keepFrom..];
    FloorShift(p - keepFrom as real, keepFrom);
  }

  // ------------------------------------------------- the worklet

  class PcmCaptureProcessor {
    const taps: seq<real>
    const half: nat
    const step: real
    const chunkSamples: nat

    var tail: seq<real>        // samples carried over between calls
    var pos: real              // index into tail + next input of the next output
    var work: array<real>
    var chunk: array<int>
    var fill: nat
    var peak: real
    var running: bool
    var posted: seq<Message>   // what the port has been given

    ghost var signal: seq<real>  // everything heard since construction
    ghost var out: seq<real>     // everything pushed since construction

    ghost predicate ChunkState()
      reads this, chunk
    {
      && chunk.Length == chunkSamples && fill < chunkSamples
      && |out| == chunkSamples * |posted| + fill
      && Chunked(out, chunkSamples, posted, chunk[..fill], peak)
    }

    ghost predicate Filter()
      reads this
    {
      && Sane(taps, step) && half == |taps| / 2
    }

    ghost predicate Valid()
      reads this, chunk
    {
      && Filter() && ChunkState()
      && Carry(taps, step, signal, tail, pos, out)
    }

    constructor (taps: seq<real>, step: real, chunkSamples: nat)
      requires Sane(taps, step) && chunkSamples > 0
      ensures Valid() && fresh(chunk) && fresh(work) && running
      ensures signal == [] && out == [] && posted == []
      ensures this.taps == taps && this.step == step && this.chunkSamples == chunkSamples
    {
      this.taps, this.step, this.half, this.chunkSamples := taps, step, |taps| / 2, chunkSamples;
      tail, pos := [], (|taps| / 2) as real;
      work := new real[|taps| + 4096];
      chunk := new int[chunkSamples];
      fill, peak, running, posted := 0, 0.0, true, [];
      signal, out := [], [];
      new;
      assert chunk[..fill] == Pcm(out[chunkSamples * |posted|..]);
    }

    /** The filter centred on `i`, read straight from the buffer. */
    method FirAt(buf: array<real>, i: int, ghost live: seq<real>) returns (y: real)
      requires Filter() && |live| <= buf.Length && buf[..|live|] == live
      requires half <= i && i + half < |live|
      ensures y == Fir(taps, live, i)
    {
      var base := i - half;
      y := 0.0;
      ghost var window := live[i - half..i + half + 1];
      for k := 0 to |taps|
        invariant y == Dot(taps[..k], window[..k])
      {
        y := y + taps[k] * buf[base + k];
        assert window[k] == live[base + k] == buf[base + k];
        assert taps[..k + 1][..k] == taps[..k] && window[..k + 1][..k] == window[..k];
      }
      assert taps[..|taps|] == taps && window[..|taps|] == window;
    }

    method Push(y: real)
      requires ChunkState()
      modifies this`chunk, this`fill, this`peak, this`posted, this`out, chunk
      ensures ChunkState() && (chunk == old(chunk) || fresh(chunk))
      ensures out == old(out) + [y]
    {
      var c := Clamp(y);
      var a := if c < 0.0 then -c else c;
      ChunkGrows(out, chunkSamples, posted, chunk[..fill], peak, y);
      ghost var partial := chunk[..fill] + [Quantise(y)];
      if a > peak {
        peak := a;
      }
      chunk[fill] := if c < 0.0 then Round(c * 32768.0) else Round(c * 32767.0);
      fill := fill + 1;
      out := out + [y];
      assert chunk[..fill] == partial;
      if fill == chunkSamples {
        Post();
      }
    }

    /** Transfers a full chunk out and starts an empty one. */
    method Post()
      requires chunk.Length == chunkSamples == fill > 0
      requires Chunked(out, chunkSamples, posted, chunk[..fill], peak)
      modifies this`chunk, this`fill, this`peak, this`posted
      ensures ChunkState() && fresh(chunk) && fill == 0
      ensures posted == old(posted) + [Message(old(chunk[..]), old(peak))]
    {
      ChunkPosts(out, chunkSamples, posted, chunk[..fill], peak);
      assert chunk[..fill] == chunk[..];
      posted := posted + [Message(chunk[..], peak)];
      chunk := new int[chunkSamples];
      fill, peak := 0, 0.0;
      assert chunk[..fill] == [];
    }
  
    /** The inner fold: adds channel `c` to the sums of the first `c` channels. */
    method AddChannel(input: seq<seq<real>>, c: nat, at: nat)
      requires c < |input| && SameLength(input) && at + |input[0]| <= work.Length
      requires forall p :: at <= p < at + |input[0]| ==> work[p] == ChannelSum(input, c, p - at)
      modifies work
      ensures forall p :: at <= p < at + |input[0]| ==> work[p] == ChannelSum(input, c + 1, p - at)
      ensures forall p :: 0 <= p < at ==> work[p] == old(work[p])
    {
      var n := |input[0]|;
      for i := 0 to n
        invariant forall p :: 0 <= p < at ==> work[p] == old(work[p])
        invariant forall p :: at <= p < at + i ==> work[p] == ChannelSum(input, c + 1, p - at)
        invariant forall p :: at + i <= p < at + n ==> work[p] == old(work[p])
      {
        work[at + i] := work[at + i] + input[c][i];
      }
    }

    /** Writes the input behind the tail, folding extra channels in as a mean. */
    method FoldChannels(input: seq<seq<real>>, at: nat)
      requires |input| > 0 && SameLength(input) && at + |input[0]| <= work.Length
      modifies work
      ensures work[at..at + |input[0]|] == Mono(input)
      ensures work[..at] == old(work[..at])
    {
      var n := |input[0]|;
      for i := 0 to n
        invariant forall p :: 0 <= p < at ==> work[p] == old(work[p])
        invariant forall p :: at <= p < at + i ==> work[p] == ChannelSum(input, 1, p - at)
      {
        assert ChannelSum(input, 0, i) == 0.0;
        work[at + i] := input[0][i];
      }
      if |input| > 1 {
        for c := 1 to |input|
          invariant forall p :: 0 <= p < at ==> work[p] == old(work[p])
          invariant forall p :: at <= p < at + n ==> work[p] == ChannelSum(input, c, p - at)
        {
          AddChannel(input, c, at);
        }
        for i := 0 to n
          invariant forall p :: 0 <= p < at ==> work[p] == old(work[p])
          invariant forall p :: at <= p < at + i ==> work[p] == Mono(input)[p - at]
          invariant forall p :: at + i <= p < at + n ==> work[p] == ChannelSum(input, |input|, p - at)
        {
          work[at + i] := work[at + i] / |input| as real;
        }
      }
      assert forall p :: at <= p < at + n ==> work[p] == Mono(input)[p - at];
    }
  
    /** The output at position `p` of the live part of the work buffer. */
    method Interpolate(buf: array<real>, p: real, ghost live: seq<real>) returns (y: real)
      requires Filter() && |live| <= buf.Length && buf[..|live|] == live
      requires p >= half as real && p.Floor + 1 + half < |live|
      ensures y == Sample(taps, live, p)
    {
      var i := p.Floor;
      var frac := p - i as real;
      y := FirAt(buf, i, live);
      if frac != 0.0 {
        var y1 := FirAt(buf, i + 1, live);
        y := y + frac * (y1 - y);
      }
    }

    /** Lays out the carried tail followed by the new input. */
    method Load(input: seq<seq<real>>) returns (need: nat)
      requires |input| > 0 && SameLength(input)
      modifies this`work, work
      ensures work == old(work) || fresh(work)
      ensures need == |tail| + |input[0]| <= work.Length
      ensures work[..need] == tail + Mono(input)
    {
      need := |tail| + |input[0]|;
      if need > work.Length {
        work := new real[need + |taps|];
      }
      var buf := work;
      for i := 0 to |tail|
        invariant work == buf
        invariant forall j :: 0 <= j < i ==> buf[j] == tail[j]
      {
        buf[i] := tail[i];
      }
      assert buf[..|tail|] == tail;
      FoldChannels(input, |tail|);
      assert work[..need] == work[..|tail|] + work[|tail|..need];
    }

    /** Pushes every output the live samples allow, starting at position `start`. */
    method Emit(start: real, need: nat, ghost s: seq<real>, ghost off: nat) returns (p: real)
      requires Filter() && ChunkState() && off + need == |s|
      requires need <= work.Length && work[..need] == s[off..]
      requires OnGrid(taps, step, s, off, start, out)
      modifies this`chunk, this`fill, this`peak, this`posted, this`out, chunk
      ensures ChunkState() && (chunk == old(chunk) || fresh(chunk))
      ensures OnGrid(taps, step, s, off, p, out) && need <= p.Floor + half + 1
      ensures Resampled(taps, step, s, out)
    {
      var last := need - 1 - half;
      p := start;
      ghost var bound := OutputCountIsBounded(half, step, |s|);
      while p.Floor + 1 <= last
        invariant ChunkState() && (chunk == old(chunk) || fresh(chunk))
        invariant OnGrid(taps, step, s, off, p, out)
        decreases bound - |out|
      {
        var y := Interpolate(work, p, s[off..]);
        GridStep(taps, step, s, off, p, out, y);
        Push(y);
        p := p + step;
      }
      FloorShift(p, off);
    }

    /** Keeps the samples later outputs need and moves the position with them. */
    method Retain(p: real, need: nat, ghost s: seq<real>, ghost off: nat)
      requires Filter() && ChunkState() && off + need == |s|
      requires need <= work.Length && work[..need] == s[off..]
      requires OnGrid(taps, step, s, off, p, out) && need <= p.Floor + half + 1
      requires Resampled(taps, step, s, out)
      modifies this`tail, this`pos, this`signal
      ensures Valid() && signal == s
    {
      hide OnGrid, Resampled;
      GridIsAhead(taps, step, s, off, p, out);
      var keepFrom := if p.Floor - half > 0 then p.Floor - half else 0;
      assert work[keepFrom..need] == s[off..][keepFrom..];
      Rebase(taps, step, s, off, p, out, keepFrom);
      tail := work[keepFrom..need];
      pos := p - keepFrom as real;
      signal := s;
    }

    /** A quantum with samples in it: filter, resample, keep what later outputs need. */
    method Advance(input: seq<seq<real>>)
      requires Valid() && |input| > 0 && SameLength(input)
      modifies this`tail, this`pos, this`work, this`chunk, this`fill, this`peak, this`posted, this`out, this`signal
      modifies work, chunk
      ensures Valid()
      ensures work == old(work) || fresh(work)
      ensures chunk == old(chunk) || fresh(chunk)
      ensures signal == old(signal) + Mono(input)
    {
      hide OnGrid, Resampled, Mono;
      ghost var off := |signal| - |tail|;
      ghost var s := signal + Mono(input);
      Resume(taps, step, signal, tail, pos, out, Mono(input));
      var need := Load(input);
      var p := Emit(pos, need, s, off);
      Retain(p, need, s, off);
    }

    /** One render quantum. */
    method Process(input: seq<seq<real>>) returns (keepAlive: bool)
      requires Valid() && SameLength(input)
      modifies this`tail, this`pos, this`work, this`chunk, this`fill, this`peak, this`posted, this`out, this`signal
      modifies work, chunk
      ensures Valid() && keepAlive == running
      ensures work == old(work) || fresh(work)
      ensures chunk == old(chunk) || fresh(chunk)
      ensures signal == old(signal) + Heard(running, input)
    {
      if !running {
        return false;
      }
      if |input| == 0 || |input[0]| == 0 {
        return true;
      }
      Advance(input);
      return true;
    }

    /** Any sequence of quanta: what has been pushed is the one-shot filtering of
        their concatenation. */
    method ProcessAll(quanta: seq<seq<seq<real>>>)
      requires Valid() && forall q :: q in quanta ==> SameLength(q)
      modifies this`tail, this`pos, this`work, this`chunk, this`fill, this`peak, this`posted, this`out, this`signal
      modifies work, chunk
      ensures Valid()
      ensures signal == old(signal) + HeardAll(running, quanta)
      ensures Resampled(taps, step, old(signal) + HeardAll(running, quanta), out)
    {
      hide Carry, ChunkState, Mono;
      for i := 0 to |quanta|
        invariant Valid()
        invariant work == old(work) || fresh(work)
        invariant chunk == old(chunk) || fresh(chunk)
        invariant signal == old(signal) + HeardAll(running, quanta[..i])
      {
        assert quanta[..i + 1][..i] == quanta[..i];
        var _ := Process(quanta[i]);
      }
      assert quanta[..|quanta|] == quanta;
      CarryMeans(taps, step, signal, tail, pos, out);
    }
  }

  ghost function HeardAll(running: bool, quanta: seq<seq<seq<real>>>): seq<real>
    requires forall q :: q in quanta ==> SameLength(q)
  {
    if |quanta| == 0 then [] else
    HeardAll(running, quanta[..|quanta| - 1]) + Heard(running, quanta[|quanta| - 1])
  }

  ghost function Heard(running: bool, input: seq<seq<real>>): seq<real>
    requires SameLength(input)
  {
    if running && |input| > 0 then Mono(input) else []
  }

  lemma FloorShift(p: real, off: nat)
    ensures (p + off as real).Floor == p.Floor + off
  {
  }

  lemma PrefixIsCausal(taps: seq<real>, step: real, s: seq<real>, more: seq<real>, out: seq<real>)
    requires Sane(taps, step) && Prefix(taps, step, s, out)
    ensures Prefix(taps, step, s + more, out)
  {
    forall k | 0 <= k < |out|
      ensures Available(|taps| / 2, step, |s + more|, k) && OutputIs(taps, step, s + more, k, out[k])
    {
      assert OutputIs(taps, step, s, k, out[k]);
      OutputIsCausal(taps, step, s, more, k, out[k]);
    }
  }

  lemma PeakIsUnique(out: seq<real>, p: real, q: real)
    requires IsPeak(out, p) && IsPeak(out, q)
    ensures p == q
  {
  }

  lemma ChunkIsUnique(out: seq<real>, size: nat, m: nat, p: Message, q: Message)
    requires ChunkIs(out, size, m, p) && ChunkIs(out, size, m, q)
    ensures p == q
  {
    PeakIsUnique(out[m * size..m * size + size], p.peak, q.peak);
  }

  /** However the same signal was split into quanta, two worklets agree on every
      sample pushed, on the tail and the position they carry, on the chunks posted with
      their peaks, and on the partial one. */
  lemma SplitIndependent(a: PcmCaptureProcessor, b: PcmCaptureProcessor)
    requires a.Valid() && b.Valid() && a.signal == b.signal
    requires a.taps == b.taps && a.step == b.step && a.chunkSamples == b.chunkSamples
    ensures a.out == b.out && a.tail == b.tail && a.pos == b.pos
    ensures a.posted == b.posted && a.peak == b.peak
    ensures a.fill == b.fill && a.chunk[..a.fill] == b.chunk[..b.fill]
  {
    ResampledIsUnique(a.taps, a.step, a.signal, a.out, b.out);
    FloorShift(a.pos, |a.signal| - |a.tail|);
    FloorShift(b.pos, |b.signal| - |b.tail|);
    QuotientIsUnique(a.chunkSamples, |a.posted|, a.fill, |b.posted|, b.fill);
    forall m | 0 <= m < |a.posted| ensures a.posted[m] == b.posted[m] {
      ChunkIsUnique(a.out, a.chunkSamples, m, a.posted[m], b.posted[m]);
    }
    PeakIsUnique(a.out[a.chunkSamples * |a.posted|..], a.peak, b.peak);
  }

  lemma QuotientIsUnique(size: nat, m: nat, i: nat, n: nat, j: nat)
    requires i < size && j < size && size * m + i == size * n + j
    ensures m == n && i == j
  {
    assert m < n ==> size * n >= size * (m + 1);
    assert n < m ==> size * m >= size * (n + 1);
  }
}
