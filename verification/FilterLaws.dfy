/** What the one-shot filtering of a signal does, in terms of samples and taps alone:
    it is linear, its response to a single sample are the taps, a line comes out as
    itself, and so many outputs come out as the input allows. */
module FilterLaws {
  import opened RealSums
  import opened Resampler

  // ------------------------------------------------- scalar products

  lemma {:induction false} DotCombines(a: seq<real>, x: seq<real>, y: seq<real>, z: seq<real>, u: real, v: real)
    requires |a| == |x| == |y| == |z| && forall i :: 0 <= i < |z| ==> z[i] == u * x[i] + v * y[i]
    ensures Dot(a, z) == u * Dot(a, x) + v * Dot(a, y)
  {
    if |a| > 0 {
      var n := |a| - 1;
      DotCombines(a[..n], x[..n], y[..n], z[..n], u, v);
      Expand(u, v, Dot(a[..n], x[..n]), Dot(a[..n], y[..n]), a[n], x[n], y[n]);
    }
  }

  lemma Expand(u: real, v: real, p: real, q: real, a: real, x: real, y: real)
    ensures u * p + v * q + a * (u * x + v * y) == u * (p + a * x) + v * (q + a * y)
  {
  }

  lemma {:induction false} DotZero(a: seq<real>, b: seq<real>)
    requires |a| == |b| && forall i :: 0 <= i < |b| ==> b[i] == 0.0
    ensures Dot(a, b) == 0.0
  {
    if |a| > 0 {
      DotZero(a[..|a| - 1], b[..|a| - 1]);
    }
  }

  lemma {:induction false} DotUnit(a: seq<real>, b: seq<real>, at: nat)
    requires |a| == |b| && at < |a| && forall i :: 0 <= i < |b| ==> b[i] == if i == at then 1.0 else 0.0
    ensures Dot(a, b) == a[at]
  {
    var n := |a| - 1;
    if at < n {
      DotUnit(a[..n], b[..n], at);
    } else {
      DotZero(a[..n], b[..n]);
    }
  }

  lemma {:induction false} DotOfFirst(a: seq<real>, b: seq<real>)
    requires |a| == |b| > 0
    ensures Dot(a, b) == a[0] * b[0] + Dot(a[1..], b[1..])
  {
    var n := |a| - 1;
    if n > 0 {
      DotOfFirst(a[..n], b[..n]);
      assert a[1..][..n - 1] == a[..n][1..] && b[1..][..n - 1] == b[..n][1..];
    } else {
      assert Dot(a[..0], b[..0]) == 0.0 && Dot(a[1..], b[1..]) == 0.0;
    }
  }

  ghost predicate Reverses(c: seq<real>, a: seq<real>) {
    |c| == |a| && forall i, j :: 0 <= i < |a| && 0 <= j < |a| && i + j == |a| - 1 ==> c[i] == a[j]
  }

  lemma LastTerm(a: seq<real>, b: seq<real>)
    requires |a| == |b| > 0
    ensures Dot(a, b) == Dot(a[..|a| - 1], b[..|a| - 1]) + a[|a| - 1] * b[|a| - 1]
  {
  }

  lemma {:induction false} DotOfReverse(a: seq<real>, b: seq<real>, c: seq<real>, d: seq<real>)
    requires |a| == |b| && Reverses(c, a) && Reverses(d, b)
    ensures Dot(c, d) == Dot(a, b)
  {
    if |a| > 0 {
      var n := |a| - 1;
      assert Reverses(c[..n], a[1..]) && Reverses(d[..n], b[1..]);
      assert c[n] == a[0] && d[n] == b[0];
      LastTerm(c, d);
      hide Dot, Reverses;
      DotOfReverse(a[1..], b[1..], c[..n], d[..n]);
      DotOfFirst(a, b);
    }
  }

  // ------------------------------------------------- how many outputs

  /** Output `k` exists exactly when one sample beyond its position the filter still
      fits. */
  lemma OutputCount(taps: seq<real>, step: real, s: seq<real>, out: seq<real>, k: nat)
    requires Sane(taps, step) && Resampled(taps, step, s, out)
    ensures k < |out| <==> ((|taps| / 2) as real + k as real * step).Floor + |taps| / 2 + 1 < |s|
  {
    if k < |out| {
      assert Available(|taps| / 2, step, |s|, k);
    } else {
      PositionAdvances(|taps| / 2, step, |out|, k);
    }
  }

  // ------------------------------------------------- linearity

  function Mixed(u: real, v: real, p: real, q: real): real {
    u * p + v * q
  }

  ghost predicate Combines(x: seq<real>, y: seq<real>, z: seq<real>, u: real, v: real) {
    |x| == |y| == |z| && forall i :: 0 <= i < |z| ==> z[i] == u * x[i] + v * y[i]
  }

  lemma FirCombines(taps: seq<real>, x: seq<real>, y: seq<real>, z: seq<real>, u: real, v: real, i: int)
    requires Combines(x, y, z, u, v)
    requires |taps| % 2 == 1 && |taps| / 2 <= i && i + |taps| / 2 < |x|
    ensures Fir(taps, z, i) == Mixed(u, v, Fir(taps, x, i), Fir(taps, y, i))
  {
    var lo, hi := i - |taps| / 2, i + |taps| / 2 + 1;
    DotCombines(taps, x[lo..hi], y[lo..hi], z[lo..hi], u, v);
  }

  lemma BlendCombines(u: real, v: real, f: real, p: real, p': real, q: real, q': real)
    ensures u * p + v * q + f * ((u * p' + v * q') - (u * p + v * q))
            == u * (p + f * (p' - p)) + v * (q + f * (q' - q))
  {
  }

  lemma OutputCombines(taps: seq<real>, step: real, x: seq<real>, y: seq<real>, z: seq<real>, u: real, v: real,
                       a: seq<real>, b: seq<real>, c: seq<real>, k: nat)
    requires Sane(taps, step) && Combines(x, y, z, u, v)
    requires Resampled(taps, step, x, a) && Resampled(taps, step, y, b) && Resampled(taps, step, z, c)
    requires k < |a| && k < |b| && k < |c|
    ensures c[k] == u * a[k] + v * b[k]
  {
    assert |x| == |y| == |z|;
    assert OutputIs(taps, step, x, k, a[k]) && OutputIs(taps, step, y, k, b[k]) && OutputIs(taps, step, z, k, c[k]);
    hide Sample, Combines, Resampled;
    PositionAdvances(|taps| / 2, step, 0, k);
    SampleCombines(taps, x, y, z, u, v, At(|taps| / 2, step, k));
  }

  /** The output of a combination of two signals is that combination of their outputs. */
  lemma Superposes(taps: seq<real>, step: real, x: seq<real>, y: seq<real>, z: seq<real>, u: real, v: real,
                   a: seq<real>, b: seq<real>, c: seq<real>)
    requires Sane(taps, step) && Combines(x, y, z, u, v)
    requires Resampled(taps, step, x, a) && Resampled(taps, step, y, b) && Resampled(taps, step, z, c)
    ensures Combines(a, b, c, u, v)
  {
    assert |x| == |y| == |z|;
    hide Resampled, Sane;
    SameCount(taps, step, x, z, a, c);
    SameCount(taps, step, y, z, b, c);
    forall k | 0 <= k < |c| ensures c[k] == u * a[k] + v * b[k] {
      OutputCombines(taps, step, x, y, z, u, v, a, b, c, k);
    }
  }

  lemma SameCount(taps: seq<real>, step: real, x: seq<real>, y: seq<real>, a: seq<real>, b: seq<real>)
    requires Sane(taps, step) && |x| == |y| && Resampled(taps, step, x, a) && Resampled(taps, step, y, b)
    ensures |a| == |b|
  {
    OutputCount(taps, step, x, a, |a|);
    OutputCount(taps, step, y, b, |a|);
    OutputCount(taps, step, x, a, |b|);
    OutputCount(taps, step, y, b, |b|);
  }

  function Between(y0: real, y1: real, f: real): real {
    if f == 0.0 then y0 else y0 + f * (y1 - y0)
  }

  lemma BetweenCombines(u: real, v: real, f: real, p: real, p': real, q: real, q': real)
    ensures Between(Mixed(u, v, p, q), Mixed(u, v, p', q'), f) == Mixed(u, v, Between(p, p', f), Between(q, q', f))
  {
    BlendCombines(u, v, f, p, p', q, q');
  }

  lemma SampleCombines(taps: seq<real>, x: seq<real>, y: seq<real>, z: seq<real>, u: real, v: real, pos: real)
    requires Combines(x, y, z, u, v)
    requires |taps| % 2 == 1 && pos >= (|taps| / 2) as real && pos.Floor + 1 + |taps| / 2 < |x|
    ensures Sample(taps, z, pos) == Mixed(u, v, Sample(taps, x, pos), Sample(taps, y, pos))
  {
    assert |x| == |y| == |z|;
    hide Fir, Combines, Mixed;
    var i := pos.Floor;
    SampleBetween(taps, x, pos);
    SampleBetween(taps, y, pos);
    SampleBetween(taps, z, pos);
    FirCombines(taps, x, y, z, u, v, i);
    FirCombines(taps, x, y, z, u, v, i + 1);
    hide Sample, Between;
    BetweenCombines(u, v, pos - i as real, Fir(taps, x, i), Fir(taps, x, i + 1), Fir(taps, y, i), Fir(taps, y, i + 1));
  }

  lemma SampleBetween(taps: seq<real>, s: seq<real>, pos: real)
    requires |taps| % 2 == 1 && pos >= (|taps| / 2) as real && pos.Floor + 1 + |taps| / 2 < |s|
    ensures Sample(taps, s, pos)
            == Between(Fir(taps, s, pos.Floor), Fir(taps, s, pos.Floor + 1), pos - pos.Floor as real)
  {
    hide Fir;
  }

  // ------------------------------------------------- the response to one sample

  function TapAt(taps: seq<real>, j: int): real {
    if 0 <= j < |taps| then taps[j] else 0.0
  }

  ghost predicate IsImpulse(s: seq<real>, p: nat) {
    p < |s| && forall i :: 0 <= i < |s| ==> s[i] == if i == p then 1.0 else 0.0
  }

  lemma FirOfImpulse(taps: seq<real>, s: seq<real>, p: nat, i: int)
    requires IsImpulse(s, p) && |taps| % 2 == 1 && |taps| / 2 <= i && i + |taps| / 2 < |s|
    ensures Fir(taps, s, i) == TapAt(taps, p - i + |taps| / 2)
  {
    var window := s[i - |taps| / 2..i + |taps| / 2 + 1];
    var at := p - i + |taps| / 2;
    if 0 <= at < |taps| {
      DotUnit(taps, window, at);
    } else {
      DotZero(taps, window);
    }
  }

  lemma Blend(f: real, y0: real, y1: real)
    ensures y0 + f * (y1 - y0) == (1.0 - f) * y0 + f * y1
  {
  }

  /** The two taps standing over the sample `p` when the filter is read at `pos`, each
      weighted by how near its index is. */
  function Response(taps: seq<real>, p: nat, pos: real): real {
    var near := pos - pos.Floor as real;
    (1.0 - near) * TapAt(taps, p - pos.Floor + |taps| / 2) + near * TapAt(taps, p - pos.Floor - 1 + |taps| / 2)
  }

  lemma SampleOfImpulse(taps: seq<real>, s: seq<real>, p: nat, pos: real)
    requires |taps| % 2 == 1 && pos >= (|taps| / 2) as real && pos.Floor + 1 + |taps| / 2 < |s| && IsImpulse(s, p)
    ensures Sample(taps, s, pos) == Response(taps, p, pos)
  {
    hide Fir, TapAt, IsImpulse;
    FirOfImpulse(taps, s, p, pos.Floor);
    FirOfImpulse(taps, s, p, pos.Floor + 1);
    Blend(pos - pos.Floor as real, TapAt(taps, p - pos.Floor + |taps| / 2), TapAt(taps, p - pos.Floor - 1 + |taps| / 2));
  }

  /** A single sample at `p` shows in output `k` as the taps that stand over it. */
  lemma ImpulseResponse(taps: seq<real>, step: real, s: seq<real>, p: nat, out: seq<real>, k: nat)
    requires Sane(taps, step) && IsImpulse(s, p) && Resampled(taps, step, s, out) && k < |out|
    ensures out[k] == Response(taps, p, (|taps| / 2) as real + k as real * step)
  {
    assert OutputIs(taps, step, s, k, out[k]);
    hide Sample, Response, IsImpulse, Resampled;
    PositionAdvances(|taps| / 2, step, 0, k);
    SampleOfImpulse(taps, s, p, At(|taps| / 2, step, k));
  }

  // ------------------------------------------------- a line

  ghost predicate Symmetric(taps: seq<real>) {
    Reverses(taps, taps)
  }

  lemma {:induction false} DotOfPairs(a: seq<real>, w: seq<real>, v: seq<real>, c: real)
    requires |a| == |w| == |v| && forall i :: 0 <= i < |w| ==> w[i] + v[i] == c
    ensures Dot(a, w) + Dot(a, v) == Sum(a) * c
  {
    if |a| > 0 {
      var n := |a| - 1;
      DotOfPairs(a[..n], w[..n], v[..n], c);
      Pair(Sum(a[..n]), a[n], w[n], v[n], c);
    }
  }

  lemma Pair(s: real, a: real, w: real, v: real, c: real)
    requires w + v == c
    ensures s * c + a * w + a * v == (s + a) * c
  {
  }

  lemma OnePart(s: real, c: real)
    requires s == 1.0
    ensures s * c == c
  {
  }

  lemma UnitPairs(a: seq<real>, w: seq<real>, v: seq<real>, c: real)
    requires |a| == |w| == |v| && Sum(a) == 1.0 && forall i :: 0 <= i < |w| ==> w[i] + v[i] == c
    ensures Dot(a, w) + Dot(a, v) == c
  {
    hide Dot, Sum;
    DotOfPairs(a, w, v, c);
    OnePart(Sum(a), c);
  }

  /** Symmetric taps weigh what rises on one side against what falls on the other. */
  lemma DotOfLine(taps: seq<real>, w: seq<real>, v: seq<real>, c: real)
    requires |taps| == |w| && Symmetric(taps) && Sum(taps) == 1.0 && Reverses(v, w)
    requires forall i :: 0 <= i < |w| ==> w[i] + v[i] == c
    ensures Dot(taps, w) + Dot(taps, w) == c
  {
    assert |v| == |w|;
    hide Dot, Sum, Reverses;
    DotOfReverse(taps, w, taps, v);
    UnitPairs(taps, w, v, c);
  }

  /** The height of a line. */
  function Line(a: real, b: real, x: real): real {
    a + b * x
  }

  lemma Mirror(a: real, b: real, i: int, j: int, j': int)
    requires j + j' == 2 * i
    ensures Line(a, b, j as real) + Line(a, b, j' as real) == 2.0 * Line(a, b, i as real)
  {
    var x, y, z := j as real, j' as real, i as real;
    assert x + y == 2.0 * z;
    Distribute(b, x, y, z);
  }

  lemma Distribute(b: real, x: real, y: real, z: real)
    requires x + y == 2.0 * z
    ensures b * x + b * y == 2.0 * (b * z)
  {
    assert b * x + b * y == b * (x + y);
  }

  lemma Window(s: seq<real>, a: real, b: real, half: nat, i: int) returns (w: seq<real>, v: seq<real>)
    requires half <= i && i + half < |s| && forall j :: 0 <= j < |s| ==> s[j] == Line(a, b, j as real)
    ensures w == s[i - half..i + half + 1] && Reverses(v, w)
    ensures forall j :: 0 <= j < |w| ==> w[j] + v[j] == 2.0 * Line(a, b, i as real)
  {
    hide Line;
    w := s[i - half..i + half + 1];
    v := seq(2 * half + 1, j requires 0 <= j < 2 * half + 1 => s[i + half - j]);
    forall j | 0 <= j < |w| ensures w[j] + v[j] == 2.0 * Line(a, b, i as real) {
      assert w[j] == s[i - half + j] && v[j] == s[i + half - j];
      Mirror(a, b, i, i - half + j, i + half - j);
    }
  }

  lemma FirOfLine(taps: seq<real>, s: seq<real>, a: real, b: real, i: int)
    requires |taps| % 2 == 1 && |taps| / 2 <= i && i + |taps| / 2 < |s| && Symmetric(taps) && Sum(taps) == 1.0
    requires forall j :: 0 <= j < |s| ==> s[j] == Line(a, b, j as real)
    ensures Fir(taps, s, i) == Line(a, b, i as real)
  {
    hide Symmetric, Sum, Dot, Line, Reverses;
    var w, v := Window(s, a, b, |taps| / 2, i);
    DotOfLine(taps, w, v, 2.0 * Line(a, b, i as real));
  }

  lemma OnTheLine(a: real, b: real, i: real, f: real)
    ensures Between(Line(a, b, i), Line(a, b, i + 1.0), f) == Line(a, b, i + f)
  {
    assert b * (i + 1.0) == b * i + b;
    assert b * (i + f) == b * i + b * f;
  }

  lemma SampleOfLine(taps: seq<real>, s: seq<real>, pos: real, a: real, b: real)
    requires |taps| % 2 == 1 && pos >= (|taps| / 2) as real && pos.Floor + 1 + |taps| / 2 < |s|
    requires Symmetric(taps) && Sum(taps) == 1.0
    requires forall i :: 0 <= i < |s| ==> s[i] == Line(a, b, i as real)
    ensures Sample(taps, s, pos) == Line(a, b, pos)
  {
    hide Fir, Symmetric, Sum, Line;
    var i := pos.Floor;
    FirOfLine(taps, s, a, b, i);
    FirOfLine(taps, s, a, b, i + 1);
    SampleBetween(taps, s, pos);
    assert (i + 1) as real == i as real + 1.0;
    hide Sample, Between;
    OnTheLine(a, b, i as real, pos - i as real);
  }

  lemma LineOut(taps: seq<real>, step: real, s: seq<real>, out: seq<real>, a: real, b: real, k: nat)
    requires Sane(taps, step) && Resampled(taps, step, s, out) && Symmetric(taps) && Sum(taps) == 1.0 && k < |out|
    requires forall i :: 0 <= i < |s| ==> s[i] == Line(a, b, i as real)
    ensures out[k] == Line(a, b, At(|taps| / 2, step, k))
  {
    hide Symmetric, Sum, Sample, Line;
    assert OutputIs(taps, step, s, k, out[k]);
    PositionAdvances(|taps| / 2, step, 0, k);
    SampleOfLine(taps, s, At(|taps| / 2, step, k), a, b);
  }

  /** With unit gain and symmetric taps a line comes out on the line, read at the
      positions of the outputs. */
  lemma LinePasses(taps: seq<real>, step: real, s: seq<real>, out: seq<real>, a: real, b: real)
    requires Sane(taps, step) && Resampled(taps, step, s, out) && Symmetric(taps) && Sum(taps) == 1.0
    requires forall i :: 0 <= i < |s| ==> s[i] == a + b * i as real
    ensures forall k :: 0 <= k < |out| ==> out[k] == a + b * ((|taps| / 2) as real + k as real * step)
  {
    hide Symmetric, Sum, Sample, Resampled;
    forall k | 0 <= k < |out| ensures out[k] == a + b * ((|taps| / 2) as real + k as real * step) {
      LineOut(taps, step, s, out, a, b, k);
    }
  }

  // ------------------------------------------------- channels and chunks

  lemma {:induction false} SumBetween(input: seq<seq<real>>, n: nat, i: nat, lo: real, hi: real)
    requires n <= |input| && forall c :: 0 <= c < n ==> i < |input[c]| && lo <= input[c][i] <= hi
    ensures n as real * lo <= ChannelSum(input, n, i) <= n as real * hi
  {
    if n > 0 {
      SumBetween(input, n - 1, i, lo, hi);
      OneMoreOf(n, lo);
      OneMoreOf(n, hi);
    }
  }

  lemma OneMoreOf(n: nat, v: real)
    requires n > 0
    ensures n as real * v == (n - 1) as real * v + v
  {
    assert n as real == (n - 1) as real + 1.0;
  }

  lemma NonNegativeFactor(n: real, d: real)
    requires n > 0.0 && n * d >= 0.0
    ensures d >= 0.0
  {
  }

  lemma QuotientBetween(n: real, x: real, lo: real, hi: real)
    requires n > 0.0 && n * lo <= x <= n * hi
    ensures lo <= x / n <= hi
  {
    var q := x / n;
    assert n * q == x;
    NonNegativeFactor(n, q - lo);
    NonNegativeFactor(n, hi - q);
  }

  /** The fold lies between the quietest and the loudest channel; of one channel it is
      that channel, of two it is half their sum. */
  lemma MonoMeans(input: seq<seq<real>>, i: nat, lo: real, hi: real)
    requires |input| > 0 && SameLength(input) && i < |input[0]|
    ensures (forall c :: 0 <= c < |input| ==> lo <= input[c][i] <= hi) ==> lo <= Mono(input)[i] <= hi
    ensures |input| == 1 ==> Mono(input)[i] == input[0][i]
    ensures |input| == 2 ==> Mono(input)[i] == (input[0][i] + input[1][i]) / 2.0
  {
    if forall c :: 0 <= c < |input| ==> lo <= input[c][i] <= hi {
      SumBetween(input, |input|, i, lo, hi);
      QuotientBetween(|input| as real, ChannelSum(input, |input|, i), lo, hi);
    }
    assert ChannelSum(input, 0, i) == 0.0 && ChannelSum(input, 1, i) == input[0][i];
  }

  /** A sample is posted as the nearest integer on the side of zero it is on, and
      silence as zero. */
  lemma QuantiseIsNearest(y: real)
    ensures 0.0 <= y <= 1.0 ==> -0.5 <= Quantise(y) as real - y * 32767.0 <= 0.5
    ensures -1.0 <= y < 0.0 ==> -0.5 <= Quantise(y) as real - y * 32768.0 <= 0.5
  {
  }

  /** Every sample ever posted is the rounding of the output at its place, chunk after
      chunk. */
  lemma PostedSample(out: seq<real>, size: nat, posted: seq<Message>, m: nat, i: nat)
    requires Posted(out, size, posted) && m < |posted| && i < size
    ensures |posted[m].pcm| == size && m * size + i < |out|
    ensures var y := out[m * size + i];
      && (0.0 <= y <= 1.0 ==> -0.5 <= posted[m].pcm[i] as real - y * 32767.0 <= 0.5)
      && (-1.0 <= y < 0.0 ==> -0.5 <= posted[m].pcm[i] as real - y * 32768.0 <= 0.5)
      && (y > 1.0 ==> posted[m].pcm[i] == 32767) && (y < -1.0 ==> posted[m].pcm[i] == -32768)
      && (-1.0 <= y <= 1.0 ==> -posted[m].peak <= y <= posted[m].peak)
  {
    assert ChunkIs(out, size, m, posted[m]);
    var chunk := out[m * size..m * size + size];
    assert chunk[i] == out[m * size + i] && chunk[i] in chunk;
    QuantiseIsNearest(chunk[i]);
  }
}
