/**
  * The streaming transposed convolution of export-pocket.py: overlap-add with an explicit partial
  * sum. Its output is the beginning of the one-shot result exactly when every chunk is long enough.
  */
module Transposed {
  import opened Streaming

  /** One channel-mixing matrix per tap: `weight[o][c][k]`; an absent bias is a row of zeros. */
  datatype Upsample = Upsample(kernel: nat, stride: nat, inputs: nat, outputs: nat,
                               weight: seq<seq<seq<real>>>, bias: seq<real>)
  {
    predicate Valid() {
      && stride > 0 && kernel >= stride
      && |weight| == outputs && |bias| == outputs
      && (forall o :: 0 <= o < outputs ==> |weight[o]| == inputs)
      && (forall o, c :: 0 <= o < outputs && 0 <= c < inputs ==> |weight[o][c]| == kernel)
    }

    /** The width of the partial sum carried between calls. */
    function Width(): nat
      requires Valid()
    {
      kernel - stride
    }
  }

  /** What one input column adds to the output sample `k` places after its own position. */
  function Share(u: Upsample, column: Column, k: int, o: nat): real
    requires u.Valid() && o < u.outputs && |column| == u.inputs
  {
    if 0 <= k < u.kernel then TapSum(u.weight[o], column, k, u.inputs) else 0.0
  }

  /** The sum of the shares of all columns at output position `p`. */
  function Sample(u: Upsample, x: Signal, p: int, o: nat): real
    requires u.Valid() && o < u.outputs && IsSignal(x, u.inputs)
  {
    if x == [] then 0.0
    else
      var n := |x| - 1;
      Sample(u, x[..n], p, o) + Share(u, x[n], p - n * u.stride, o)
  }

  function SampleColumn(u: Upsample, x: Signal, p: int): Column
    requires u.Valid() && IsSignal(x, u.inputs)
  {
    seq(u.outputs, o requires 0 <= o < u.outputs => u.bias[o] + Sample(u, x, p, o))
  }

  /** The number of samples `n` columns produce. */
  function Length(u: Upsample, n: nat): nat
    requires u.Valid()
  {
    if n == 0 then 0 else (n - 1) * u.stride + u.kernel
  }

  lemma LengthIs(u: Upsample, n: nat)
    requires u.Valid() && n > 0
    ensures Length(u, n) == n * u.stride + u.Width()
  {
    assert n * u.stride == (n - 1) * u.stride + u.stride;
  }

  /** `self.convtr(x)`, as its defining sum. */
  function OneShot(u: Upsample, x: Signal): (y: Signal)
    requires u.Valid() && IsSignal(x, u.inputs)
    ensures |y| == Length(u, |x|)
  {
    seq(Length(u, |x|), p requires 0 <= p < Length(u, |x|) => SampleColumn(u, x, p))
  }

  function AddColumns(a: Column, b: Column): Column {
    if |a| <= |b| then seq(|a|, o requires 0 <= o < |a| => a[o] + b[o]) else a
  }

  function SubColumns(a: Column, b: Column): Column {
    if |a| <= |b| then seq(|a|, o requires 0 <= o < |a| => a[o] - b[o]) else a
  }

  datatype Reply = Reply(output: Signal, partial: Signal)

  /** `y[..., :width] + partial`. */
  function HeadOf(y: Signal, partial: Signal): Signal
    requires |partial| <= |y|
  {
    seq(|partial|, j requires 0 <= j < |partial| => AddColumns(y[j], partial[j]))
  }

  /** `y[..., -width:]` without the bias. */
  function TailOf(y: Signal, w: nat, bias: seq<real>): Signal
    requires w <= |y|
  {
    seq(w, j requires 0 <= j < w => SubColumns(y[|y| - w + j], bias))
  }

  /** `y[..., width:-width]`, empty when the ends overlap. */
  function MiddleOf(y: Signal, w: nat): Signal {
    if w <= |y| - w then y[w..|y| - w] else []
  }

  /** One call of `functional_transposed_conv` with the state `partial`. */
  function Forward(u: Upsample, partial: Signal, x: Signal): (r: Reply)
    requires u.Valid() && IsSignal(x, u.inputs) && x != [] && |partial| == u.Width()
    ensures |r.partial| == u.Width()
  {
    var y, w := OneShot(u, x), |partial|;
    if w == 0 then Reply(y, partial)
    else
      LengthIs(u, |x|);
      DilatedNonNegative(|x|, u.stride);
      Reply(HeadOf(y, partial) + MiddleOf(y, w), TailOf(y, w, u.bias))
  }

  /** Every chunk is a non-empty signal. */
  predicate Chunks(chunks: seq<Signal>, channels: nat) {
    forall i :: 0 <= i < |chunks| ==> IsSignal(chunks[i], channels) && chunks[i] != []
  }

  /** Every chunk produces at least as many samples as the partial sum is wide. */
  predicate LongEnough(u: Upsample, chunks: seq<Signal>)
    requires u.Valid()
  {
    forall i :: 0 <= i < |chunks| ==> |chunks[i]| * u.stride >= u.Width()
  }

  /** The outputs of a run of calls. */
  function Upsampled(u: Upsample, partial: Signal, chunks: seq<Signal>): Signal
    requires u.Valid() && Chunks(chunks, u.inputs) && |partial| == u.Width()
    decreases |chunks|
  {
    if chunks == [] then []
    else
      var r := Forward(u, partial, chunks[0]);
      r.output + Upsampled(u, r.partial, chunks[1..])
  }

  // ----- sums over two parts of the input -----

  lemma {:induction false} SampleSplits(u: Upsample, x: Signal, c: Signal, p: int, o: nat)
    requires u.Valid() && o < u.outputs && IsSignal(x, u.inputs) && IsSignal(c, u.inputs)
    ensures IsSignal(x + c, u.inputs)
    ensures Sample(u, x + c, p, o) == Sample(u, x, p, o) + Sample(u, c, p - |x| * u.stride, o)
    decreases |c|
  {
    if c == [] {
      assert x + c == x;
    } else {
      var n := |c| - 1;
      assert (x + c)[..|x| + n] == x + c[..n];
      assert (x + c)[|x| + n] == c[n];
      SampleSplits(u, x, c[..n], p, o);
      assert (|x| + n) * u.stride == |x| * u.stride + n * u.stride;
    }
  }

  /** Past the reach of the last column nothing is added. */
  lemma {:induction false} SamplePast(u: Upsample, x: Signal, p: int, o: nat)
    requires u.Valid() && o < u.outputs && IsSignal(x, u.inputs)
    requires p >= |x| * u.stride + u.Width()
    ensures Sample(u, x, p, o) == 0.0
    decreases |x|
  {
    if x != [] {
      var n := |x| - 1;
      assert |x| * u.stride == n * u.stride + u.stride;
      SamplePast(u, x[..n], p, o);
    }
  }

  /** Before the first column nothing is added. */
  lemma {:induction false} SampleBefore(u: Upsample, x: Signal, p: int, o: nat)
    requires u.Valid() && o < u.outputs && IsSignal(x, u.inputs) && p < 0
    ensures Sample(u, x, p, o) == 0.0
    decreases |x|
  {
    if x != [] {
      var n := |x| - 1;
      DilatedNonNegative(n, u.stride);
      SampleBefore(u, x[..n], p, o);
    }
  }

  // ----- the state -----

  /** The partial sum is what the columns seen so far still owe to later samples, bias left out. */
  ghost predicate Owes(u: Upsample, x: Signal, partial: Signal)
    requires u.Valid() && IsSignal(x, u.inputs)
  {
    && |partial| == u.Width() && IsSignal(partial, u.outputs)
    && forall j :: 0 <= j < |partial| ==> OwesAt(u, x, partial, j)
  }

  ghost predicate OwesAt(u: Upsample, x: Signal, partial: Signal, j: nat)
    requires u.Valid() && IsSignal(x, u.inputs) && j < |partial| && IsSignal(partial, u.outputs)
  {
    forall o :: 0 <= o < u.outputs ==> partial[j][o] == Sample(u, x, |x| * u.stride + j, o)
  }

  /** The sample `j` places after the columns `x` is what `c` adds there, and the partial sum. */
  ghost predicate AddsUp(u: Upsample, x: Signal, partial: Signal, c: Signal, j: nat)
    requires u.Valid() && IsSignal(c, u.inputs) && IsSignal(x + c, u.inputs) && |partial| == u.Width()
    requires IsSignal(partial, u.outputs)
  {
    forall o :: 0 <= o < u.outputs ==>
      Sample(u, x + c, |x| * u.stride + j, o) == Sample(u, c, j, o) + (if j < u.Width() then partial[j][o] else 0.0)
  }

  lemma ZerosOwe(u: Upsample)
    requires u.Valid()
    ensures Owes(u, [], Zeros(u.outputs, u.Width()))
  {
  }

  /** The samples from `a` to `b` of the one-shot result, bias included. */
  function Samples(u: Upsample, x: Signal, a: nat, b: nat): Signal
    requires u.Valid() && IsSignal(x, u.inputs) && a <= b
  {
    seq(b - a, j requires 0 <= j < b - a => SampleColumn(u, x, a + j))
  }

  /** One long-enough call after `x` answers the next samples of the whole and owes the rest. */
  lemma ForwardStep(u: Upsample, x: Signal, partial: Signal, c: Signal)
    requires u.Valid() && IsSignal(x, u.inputs) && IsSignal(c, u.inputs) && c != []
    requires Owes(u, x, partial) && |c| * u.stride >= u.Width()
    ensures IsSignal(x + c, u.inputs)
    ensures |x| * u.stride <= |x + c| * u.stride
    ensures Forward(u, partial, c).output == Samples(u, x + c, |x| * u.stride, |x + c| * u.stride)
    ensures Owes(u, x + c, Forward(u, partial, c).partial)
  {
    hide Sample, TapSum;
    var s, w, r := u.stride, u.Width(), Forward(u, partial, c);
    var y, a, n := OneShot(u, c), |x| * s, |c| * s;
    LengthIs(u, |c|);
    DilatedNonNegative(|c|, s);
    assert |x + c| * s == a + n by { assert (|x| + |c|) * s == |x| * s + |c| * s; }
    assert IsSignal(x + c, u.inputs);
    forall j: nat | j < n + w
      ensures AddsUp(u, x, partial, c, j)
    {
      SampleAdds(u, x, partial, c, j);
    }
    ForwardOutput(u, x, partial, c);
    ForwardPartial(u, x, partial, c);
  }

  lemma SampleAdds(u: Upsample, x: Signal, partial: Signal, c: Signal, j: nat)
    requires u.Valid() && IsSignal(x, u.inputs) && IsSignal(c, u.inputs) && IsSignal(x + c, u.inputs)
    requires Owes(u, x, partial)
    ensures AddsUp(u, x, partial, c, j)
  {
    hide Sample, TapSum;
    var a := |x| * u.stride;
    forall o | 0 <= o < u.outputs
      ensures Sample(u, x + c, a + j, o) == Sample(u, c, j, o) + (if j < u.Width() then partial[j][o] else 0.0)
    {
      SampleSplits(u, x, c, a + j, o);
      if j >= u.Width() {
        SamplePast(u, x, a + j, o);
      } else {
        assert OwesAt(u, x, partial, j);
      }
    }
  }

  lemma ForwardOutput(u: Upsample, x: Signal, partial: Signal, c: Signal)
    requires u.Valid() && IsSignal(x, u.inputs) && IsSignal(c, u.inputs) && c != [] && IsSignal(x + c, u.inputs)
    requires Owes(u, x, partial) && |c| * u.stride >= u.Width()
    requires |x + c| * u.stride == |x| * u.stride + |c| * u.stride
    requires forall j: nat :: j < |c| * u.stride + u.Width() ==> AddsUp(u, x, partial, c, j)
    ensures |x| * u.stride <= |x + c| * u.stride
    ensures Forward(u, partial, c).output == Samples(u, x + c, |x| * u.stride, |x + c| * u.stride)
  {
    hide Sample, TapSum;
    var s, w, r := u.stride, u.Width(), Forward(u, partial, c);
    var y, a, n := OneShot(u, c), |x| * s, |c| * s;
    LengthIs(u, |c|);
    DilatedNonNegative(|c|, s);
    var out := Samples(u, x + c, a, a + n);
    assert |r.output| == n;
    forall j | 0 <= j < n
      ensures r.output[j] == out[j]
    {
      assert AddsUp(u, x, partial, c, j);
      assert out[j] == SampleColumn(u, x + c, a + j);
      assert y[j] == SampleColumn(u, c, j);
      assert forall o :: 0 <= o < u.outputs ==> r.output[j][o] == out[j][o];
    }
  }

  lemma ForwardPartial(u: Upsample, x: Signal, partial: Signal, c: Signal)
    requires u.Valid() && IsSignal(x, u.inputs) && IsSignal(c, u.inputs) && c != [] && IsSignal(x + c, u.inputs)
    requires Owes(u, x, partial) && |c| * u.stride >= u.Width()
    requires |x + c| * u.stride == |x| * u.stride + |c| * u.stride
    requires forall j: nat :: j < |c| * u.stride + u.Width() ==> AddsUp(u, x, partial, c, j)
    ensures Owes(u, x + c, Forward(u, partial, c).partial)
  {
    hide Sample, TapSum;
    var s, w, p := u.stride, u.Width(), Forward(u, partial, c).partial;
    var y, a, n := OneShot(u, c), |x| * s, |c| * s;
    LengthIs(u, |c|);
    DilatedNonNegative(|c|, s);
    assert IsSignal(p, u.outputs) by {
      forall j | 0 <= j < w
        ensures |p[j]| == u.outputs
      {
        assert y[n + j] == SampleColumn(u, c, n + j);
        assert p[j] == SubColumns(y[n + j], u.bias);
      }
    }
    forall j | 0 <= j < w
      ensures OwesAt(u, x + c, p, j)
    {
      assert AddsUp(u, x, partial, c, n + j);
      assert y[n + j] == SampleColumn(u, c, n + j);
      assert p[j] == SubColumns(y[n + j], u.bias);
      assert a + (n + j) == |x + c| * s + j;
    }
  }

  // ----- a run -----

  /** Earlier samples do not change when more input follows. */
  lemma SamplesKept(u: Upsample, x: Signal, rest: Signal, b: nat)
    requires u.Valid() && IsSignal(x, u.inputs) && IsSignal(rest, u.inputs) && b <= |x| * u.stride
    ensures IsSignal(x + rest, u.inputs)
    ensures forall a: nat :: a <= b ==> Samples(u, x + rest, a, b) == Samples(u, x, a, b)
  {
    hide Sample, TapSum;
    forall p, o | 0 <= p < b && 0 <= o < u.outputs
      ensures Sample(u, x + rest, p, o) == Sample(u, x, p, o)
    {
      SampleSplits(u, x, rest, p, o);
      SampleBefore(u, rest, p - |x| * u.stride, o);
    }
    forall a: nat | a <= b
      ensures Samples(u, x + rest, a, b) == Samples(u, x, a, b)
    {
      var m, k := Samples(u, x + rest, a, b), Samples(u, x, a, b);
      forall j | 0 <= j < b - a
        ensures m[j] == k[j]
      {
        assert m[j] == SampleColumn(u, x + rest, a + j) && k[j] == SampleColumn(u, x, a + j);
      }
    }
  }

  lemma SamplesJoin(u: Upsample, x: Signal, a: nat, b: nat, c: nat)
    requires u.Valid() && IsSignal(x, u.inputs) && a <= b <= c
    ensures Samples(u, x, a, b) + Samples(u, x, b, c) == Samples(u, x, a, c)
  {
    var one, two, all := Samples(u, x, a, b), Samples(u, x, b, c), Samples(u, x, a, c);
    forall j | 0 <= j < c - a
      ensures (one + two)[j] == all[j]
    {
      if j >= b - a {
        assert (one + two)[j] == two[j - (b - a)];
        assert b + (j - (b - a)) == a + j;
      }
    }
  }

  lemma {:induction false} ConcatIsSignal(chunks: seq<Signal>, channels: nat)
    requires Chunks(chunks, channels)
    ensures IsSignal(Concat(chunks), channels)
    decreases |chunks|
  {
    if chunks != [] {
      ConcatIsSignal(chunks[1..], channels);
    }
  }

  /** After the input `x`, a run of long-enough chunks answers the next samples of the whole. */
  lemma {:induction false} StreamContinues(u: Upsample, x: Signal, partial: Signal, chunks: seq<Signal>)
    requires u.Valid() && IsSignal(x, u.inputs) && Owes(u, x, partial)
    requires Chunks(chunks, u.inputs) && LongEnough(u, chunks)
    ensures IsSignal(x + Concat(chunks), u.inputs)
    ensures |x| * u.stride <= |x + Concat(chunks)| * u.stride
    ensures Upsampled(u, partial, chunks)
         == Samples(u, x + Concat(chunks), |x| * u.stride, |x + Concat(chunks)| * u.stride)
    decreases |chunks|
  {
    hide Sample, TapSum, Forward, Samples;
    ConcatIsSignal(chunks, u.inputs);
    if chunks == [] {
      assert x + [] == x;
      NoSamples(u, x, |x| * u.stride);
    } else {
      var c, rest := chunks[0], chunks[1..];
      ForwardStep(u, x, partial, c);
      var r := Forward(u, partial, c);
      StreamContinues(u, x + c, r.partial, rest);
      ConcatIsSignal(rest, u.inputs);
      assert x + (c + Concat(rest)) == (x + c) + Concat(rest);
      var all := x + Concat(chunks);
      SamplesKept(u, x + c, Concat(rest), |x + c| * u.stride);
      SamplesJoin(u, all, |x| * u.stride, |x + c| * u.stride, |all| * u.stride);
    }
  }

  lemma NoSamples(u: Upsample, x: Signal, a: nat)
    requires u.Valid() && IsSignal(x, u.inputs)
    ensures Samples(u, x, a, a) == []
  {
  }

  /** The beginning of the one-shot result. */
  lemma OneShotBegins(u: Upsample, x: Signal)
    requires u.Valid() && IsSignal(x, u.inputs)
    ensures |x| * u.stride <= |OneShot(u, x)|
    ensures OneShot(u, x)[..|x| * u.stride] == Samples(u, x, 0, |x| * u.stride)
  {
    hide Sample;
    if x != [] {
      LengthIs(u, |x|);
    }
    DilatedNonNegative(|x|, u.stride);
    var n := |x| * u.stride;
    forall j | 0 <= j < n
      ensures OneShot(u, x)[..n][j] == Samples(u, x, 0, n)[j]
    {
      assert 0 + j == j;
    }
  }

  /** A call answers one sample per stride and column, or fills the partial sum's width. */
  lemma ForwardLength(u: Upsample, partial: Signal, c: Signal)
    requires u.Valid() && IsSignal(c, u.inputs) && c != [] && |partial| == u.Width()
    ensures |Forward(u, partial, c).output| == if |c| * u.stride >= u.Width() then |c| * u.stride else u.Width()
  {
    LengthIs(u, |c|);
    DilatedNonNegative(|c|, u.stride);
  }

  /** The number of samples a run answers. */
  lemma {:induction false} StreamLength(u: Upsample, partial: Signal, chunks: seq<Signal>)
    requires u.Valid() && Chunks(chunks, u.inputs) && |partial| == u.Width()
    ensures |Upsampled(u, partial, chunks)| >= |Concat(chunks)| * u.stride
    ensures |Upsampled(u, partial, chunks)| == |Concat(chunks)| * u.stride ==> LongEnough(u, chunks)
    decreases |chunks|
  {
    hide Forward;
    if chunks != [] {
      var c, rest := chunks[0], chunks[1..];
      ForwardLength(u, partial, c);
      StreamLength(u, Forward(u, partial, c).partial, rest);
      Distributes(|c|, |Concat(rest)|, u.stride);
      assert forall i :: 1 <= i < |chunks| ==> chunks[i] == rest[i - 1];
    }
  }

  lemma Distributes(a: nat, b: nat, s: nat)
    ensures (a + b) * s == a * s + b * s
  {
  }

  /**
    * Over any chunking, the streamed outputs are the first `stride * N` samples of the one-shot
    * transposed convolution if and only if no chunk is shorter than the partial sum is wide.
    */
  lemma StreamIsOneShotIff(u: Upsample, chunks: seq<Signal>)
    requires u.Valid() && Chunks(chunks, u.inputs)
    ensures IsSignal(Concat(chunks), u.inputs)
    ensures
      var x := Concat(chunks);
      && |x| * u.stride <= |OneShot(u, x)|
      && (Upsampled(u, Zeros(u.outputs, u.Width()), chunks) == OneShot(u, x)[..|x| * u.stride] <==> LongEnough(u, chunks))
  {
    hide OneShot, Samples, Upsampled, Owes;
    var x, none := Concat(chunks), Zeros(u.outputs, u.Width());
    ConcatIsSignal(chunks, u.inputs);
    OneShotBegins(u, x);
    StreamLength(u, none, chunks);
    if LongEnough(u, chunks) {
      ZerosOwe(u);
      StreamContinues(u, [], none, chunks);
      assert [] + x == x;
    }
  }

  /** A kernel of three with stride one and a chunk of one column: the call answers too many samples. */
  lemma ShortChunkFails(weight: seq<real>, sample: real)
    requires |weight| == 3
    ensures
      var u, chunks := Upsample(3, 1, 1, 1, [[weight]], [0.0]), [[[sample]]];
      && u.Valid() && Chunks(chunks, 1) && !LongEnough(u, chunks)
      && |Upsampled(u, Zeros(1, u.Width()), chunks)| == 2
      && IsSignal(Concat(chunks), 1) && |OneShot(u, Concat(chunks))| == 3
      && Upsampled(u, Zeros(1, u.Width()), chunks) != OneShot(u, Concat(chunks))[..1]
  {
    hide OneShot, Forward;
    var u, chunks: seq<Signal> := Upsample(3, 1, 1, 1, [[weight]], [0.0]), [[[sample]]];
    ForwardLength(u, Zeros(1, 2), chunks[0]);
    assert chunks[1..] == [] && Concat(chunks) == chunks[0] + [];
  }

  /** The kernels the models use, at most twice the stride, are long enough for every chunking. */
  lemma ShortKernelAlwaysFits(u: Upsample, chunks: seq<Signal>)
    requires u.Valid() && Chunks(chunks, u.inputs) && u.kernel <= 2 * u.stride
    ensures LongEnough(u, chunks)
  {
    forall i | 0 <= i < |chunks|
      ensures |chunks[i]| * u.stride >= u.Width()
    {
      assert |chunks[i]| * u.stride == u.stride + (|chunks[i]| - 1) * u.stride;
      DilatedNonNegative(|chunks[i]| - 1, u.stride);
    }
  }

  // ----- functional_transposed_conv -----

  class StreamingUpsample {
    const layer: Upsample
    var partial: Signal

    ghost predicate Valid()
      reads this
    {
      layer.Valid() && |partial| == layer.Width()
    }

    constructor (u: Upsample)
      requires u.Valid()
      ensures Valid() && layer == u && partial == Zeros(u.outputs, u.Width())
    {
      layer, partial := u, Zeros(u.outputs, u.Width());
    }

    /** One call; it overwrites the partial sum. */
    method Call(x: Signal) returns (y: Signal)
      requires Valid() && IsSignal(x, layer.inputs) && x != []
      modifies this`partial
      ensures Valid()
      ensures Reply(y, partial) == Forward(layer, old(partial), x)
    {
      var full, width := OneShot(layer, x), |partial|;
      if width == 0 {
        return full;
      }
      LengthIs(layer, |x|);
      DilatedNonNegative(|x|, layer.stride);
      y := HeadOf(full, partial) + MiddleOf(full, width);
      partial := TailOf(full, width, layer.bias);
    }

    /** A run of calls from the initial state, against the one-shot result. */
    method Run(chunks: seq<Signal>) returns (y: Signal)
      requires Valid() && partial == Zeros(layer.outputs, layer.Width())
      requires Chunks(chunks, layer.inputs)
      modifies this`partial
      ensures IsSignal(Concat(chunks), layer.inputs)
      ensures |Concat(chunks)| * layer.stride <= |OneShot(layer, Concat(chunks))|
      ensures y == OneShot(layer, Concat(chunks))[..|Concat(chunks)| * layer.stride] <==> LongEnough(layer, chunks)
    {
      hide Forward, OneShot, LongEnough;
      y := [];
      ghost var start := partial;
      assert chunks[0..] == chunks;
      for i := 0 to |chunks|
        invariant Valid()
        invariant y + Upsampled(layer, partial, chunks[i..]) == Upsampled(layer, start, chunks)
      {
        assert chunks[i..][0] == chunks[i] && chunks[i..][1..] == chunks[i + 1..];
        ghost var before := y;
        var out := Call(chunks[i]);
        y := y + out;
        assert before + (out + Upsampled(layer, partial, chunks[i + 1..])) == y + Upsampled(layer, partial, chunks[i + 1..]);
      }
      assert chunks[|chunks|..] == [];
      assert y + [] == y;
      StreamIsOneShotIff(layer, chunks);
    }
  }
}
