/**
  * The streaming rewrites of the convolution layers in export-pocket.py. A signal is a sequence of
  * columns, one column per time step and one value per channel.
  */
module Streaming {
  type Column = seq<real>
  type Signal = seq<Column>

  /** `weight[o][c][k]`; an absent bias is a row of zeros. */
  datatype Layer = Layer(kernel: nat, stride: nat, dilation: nat, inputs: nat, outputs: nat,
                         weight: seq<seq<seq<real>>>, bias: seq<real>)
  {
    predicate Valid() {
      && kernel > 0 && stride > 0 && dilation > 0
      && |weight| == outputs && |bias| == outputs
      && (forall o :: 0 <= o < outputs ==> |weight[o]| == inputs)
      && (forall o, c :: 0 <= o < outputs && 0 <= c < inputs ==> |weight[o][c]| == kernel)
    }

    /** `_effective_kernel_size`. */
    function Span(): (n: nat)
      requires Valid()
      ensures n > 0
    {
      DilatedNonNegative(kernel - 1, dilation);
      (kernel - 1) * dilation + 1
    }

    /** The streaming convolution carries this many columns from one call to the next. */
    function Width(): nat
      requires Valid() && Span() >= stride
    {
      Span() - stride
    }
  }

  lemma DilatedNonNegative(k: nat, d: nat)
    ensures k * d >= 0
  {
  }

  /** A multiple of `s` divides exactly. */
  lemma Multiple(q: nat, s: nat)
    requires s > 0
    ensures (q * s) / s == q && (q * s) % s == 0
  {
    var a := q * s;
    var d, r := q - a / s, a % s;
    assert a == s * (a / s) + r;
    assert s * d == s * q - s * (a / s);
    assert s * d == r;
    SmallMultiple(s, d);
  }

  lemma Quotient(a: nat, s: nat)
    requires s > 0 && a % s == 0
    ensures a == (a / s) * s
  {
  }

  lemma SmallMultiple(s: nat, d: int)
    requires 0 <= s * d < s
    ensures d == 0
  {
  }

  lemma TapInside(k: nat, n: nat, d: nat)
    requires k < n && d > 0
    ensures 0 <= k * d <= (n - 1) * d
  {
    var m := n - 1 - k;
    assert (n - 1) * d == k * d + m * d;
    DilatedNonNegative(m, d);
    DilatedNonNegative(k, d);
  }

  predicate IsSignal(x: Signal, channels: nat) {
    forall t :: 0 <= t < |x| ==> |x[t]| == channels
  }

  // ----- the convolution as its defining sum -----

  /** One tap of one output channel, summed over the input channels below `c`. */
  function TapSum(w: seq<seq<real>>, column: Column, k: nat, c: nat): real
    requires c <= |w| && c <= |column| && forall i :: 0 <= i < |w| ==> k < |w[i]|
  {
    if c == 0 then 0.0 else TapSum(w, column, k, c - 1) + w[c - 1][k] * column[c - 1]
  }

  /** The taps below `k` over one window of the input. */
  function WindowSum(l: Layer, window: Signal, o: nat, k: nat): real
    requires l.Valid() && o < l.outputs && k <= l.kernel && |window| == l.Span() && IsSignal(window, l.inputs)
  {
    if k == 0 then 0.0
    else
      TapInside(k - 1, l.kernel, l.dilation);
      WindowSum(l, window, o, k - 1) + TapSum(l.weight[o], window[(k - 1) * l.dilation], k - 1, l.inputs)
  }

  function ConvColumn(l: Layer, window: Signal): Column
    requires l.Valid() && |window| == l.Span() && IsSignal(window, l.inputs)
  {
    seq(l.outputs, o requires 0 <= o < l.outputs => l.bias[o] + WindowSum(l, window, o, l.kernel))
  }

  /** How many windows fit. */
  function Steps(l: Layer, n: nat): nat
    requires l.Valid()
  {
    if n < l.Span() then 0 else (n - l.Span()) / l.stride + 1
  }

  lemma WindowFits(l: Layer, n: nat, t: nat)
    requires l.Valid() && t < Steps(l, n)
    ensures 0 <= t * l.stride && t * l.stride + l.Span() <= n
  {
    var q, s := (n - l.Span()) / l.stride, l.stride;
    assert t <= q;
    var m := q - t;
    assert q * s == t * s + m * s;
    DilatedNonNegative(m, s);
    DilatedNonNegative(t, s);
    assert q * s <= n - l.Span();
  }

  /** The columns `t`, `t + 1`, ... up to `n` of `self.conv(x)`. */
  function ConvFrom(l: Layer, x: Signal, t: nat): (y: Signal)
    requires l.Valid() && IsSignal(x, l.inputs) && t <= Steps(l, |x|)
    ensures |y| == Steps(l, |x|) - t
    decreases Steps(l, |x|) - t
  {
    if t == Steps(l, |x|) then []
    else
      WindowFits(l, |x|, t);
      [ConvColumn(l, x[t * l.stride..t * l.stride + l.Span()])] + ConvFrom(l, x, t + 1)
  }

  /** `self.conv(x)`. */
  function Conv(l: Layer, x: Signal): (y: Signal)
    requires l.Valid() && IsSignal(x, l.inputs)
    ensures |y| == Steps(l, |x|)
  {
    ConvFrom(l, x, 0)
  }

  function ZeroColumn(channels: nat): Column {
    seq(channels, _ => 0.0)
  }

  function Zeros(channels: nat, n: nat): (x: Signal)
    ensures |x| == n && IsSignal(x, channels)
  {
    seq(n, _ => ZeroColumn(channels))
  }

  function Concat(chunks: seq<Signal>): Signal {
    if chunks == [] then [] else chunks[0] + Concat(chunks[1..])
  }

  /** Every chunk is a signal whose length is a positive multiple of the stride. */
  predicate Chunked(chunks: seq<Signal>, channels: nat, stride: nat)
    requires stride > 0
  {
    forall i :: 0 <= i < |chunks| ==>
      IsSignal(chunks[i], channels) && |chunks[i]| > 0 && |chunks[i]| % stride == 0
  }

  // ----- the streaming convolution -----

  /** The state kept after a call: the last `Width` columns seen. */
  function Tail(x: Signal, width: nat): Signal
    requires width <= |x|
  {
    x[|x| - width..]
  }

  /** All the outputs of a run of calls that starts with the state `previous`. */
  function Stream(l: Layer, previous: Signal, chunks: seq<Signal>): Signal
    requires l.Valid() && l.Span() >= l.stride && |previous| == l.Width() && IsSignal(previous, l.inputs)
    requires Chunked(chunks, l.inputs, l.stride)
    decreases |chunks|
  {
    if chunks == [] then []
    else
      var x := previous + chunks[0];
      Conv(l, x) + Stream(l, Tail(x, l.Width()), chunks[1..])
  }

  lemma StepsOf(l: Layer, n: nat, m: nat)
    requires l.Valid() && l.Span() >= l.stride && n == l.Width() + m * l.stride
    ensures Steps(l, n) == m
  {
    var s := l.stride;
    if m == 0 {
      assert 0 * s == 0;
    } else {
      assert m * s == (m - 1) * s + s;
      DilatedNonNegative(m - 1, s);
      Multiple(m - 1, s);
      assert n - l.Span() == (m - 1) * s;
    }
  }

  /** Columns from `t` on only see the input from `t * stride` on. */
  lemma {:induction false} ConvShift(l: Layer, x: Signal, z: Signal, n: nat, t: nat)
    requires l.Valid() && IsSignal(x, l.inputs) && IsSignal(z, l.inputs)
    requires n * l.stride <= |x| && z == x[n * l.stride..]
    requires Steps(l, |x|) == n + Steps(l, |z|) && t <= Steps(l, |z|)
    ensures ConvFrom(l, x, n + t) == ConvFrom(l, z, t)
    decreases Steps(l, |z|) - t
  {
    if t < Steps(l, |z|) {
      ConvShift(l, x, z, n, t + 1);
      WindowFits(l, |z|, t);
      WindowFits(l, |x|, n + t);
      var s, w := l.stride, l.Span();
      assert (n + t) * s == n * s + t * s;
      assert x[(n + t) * s..(n + t) * s + w] == z[t * s..t * s + w];
    }
  }

  /** Columns below `n` only see the input below the end of the `n`-th window. */
  lemma {:induction false} ConvPrefix(l: Layer, x: Signal, y: Signal, n: nat, t: nat)
    requires l.Valid() && IsSignal(x, l.inputs) && IsSignal(y, l.inputs)
    requires y <= x && Steps(l, |y|) == n && n <= Steps(l, |x|) && t <= n
    ensures ConvFrom(l, x, t) == ConvFrom(l, y, t) + ConvFrom(l, x, n)
    decreases n - t
  {
    if t == n {
      assert ConvFrom(l, y, n) == [];
    } else {
      ConvPrefix(l, x, y, n, t + 1);
      WindowFits(l, |y|, t);
      WindowFits(l, |x|, t);
      var s, w := l.stride, l.Span();
      assert x[t * s..t * s + w] == y[t * s..t * s + w];
    }
  }

  /** Convolving the whole is convolving a first part, then the rest behind the kept columns. */
  lemma ConvSplits(l: Layer, x: Signal, rest: Signal, n: nat, m: nat)
    requires l.Valid() && l.Span() >= l.stride && IsSignal(x, l.inputs) && IsSignal(rest, l.inputs)
    requires |x| == l.Width() + n * l.stride && |rest| == m * l.stride
    ensures Conv(l, x + rest) == Conv(l, x) + Conv(l, Tail(x, l.Width()) + rest)
  {
    var all, kept := x + rest, Tail(x, l.Width()) + rest;
    StepsOf(l, |x|, n);
    StepsOf(l, |kept|, m);
    assert (n + m) * l.stride == n * l.stride + m * l.stride;
    StepsOf(l, |all|, n + m);
    DilatedNonNegative(n, l.stride);
    assert all[n * l.stride..] == kept;
    ConvPrefix(l, all, x, n, 0);
    ConvShift(l, all, kept, n, 0);
  }

  lemma {:induction false} ConcatLength(chunks: seq<Signal>, channels: nat, s: nat)
    requires s > 0 && Chunked(chunks, channels, s)
    ensures IsSignal(Concat(chunks), channels)
    ensures |Concat(chunks)| % s == 0
    decreases |chunks|
  {
    if chunks != [] {
      ConcatLength(chunks[1..], channels, s);
      var a, b := |chunks[0]|, |Concat(chunks[1..])|;
      Quotient(a, s);
      Quotient(b, s);
      Multiple(a / s + b / s, s);
      assert a + b == (a / s + b / s) * s;
    }
  }

  /**
    * Whatever the chunking, the streamed outputs are one convolution of the carried state
    * followed by the whole input.
    */
  lemma {:induction false} StreamIsConv(l: Layer, previous: Signal, chunks: seq<Signal>)
    requires l.Valid() && l.Span() >= l.stride && |previous| == l.Width() && IsSignal(previous, l.inputs)
    requires Chunked(chunks, l.inputs, l.stride)
    ensures IsSignal(Concat(chunks), l.inputs)
    ensures Stream(l, previous, chunks) == Conv(l, previous + Concat(chunks))
    decreases |chunks|
  {
    hide Conv, Steps;
    var s := l.stride;
    ConcatLength(chunks, l.inputs, s);
    if chunks == [] {
      assert previous + [] == previous;
      assert 0 * s == 0;
      StepsOf(l, |previous|, 0);
    } else {
      var c, rest := chunks[0], Concat(chunks[1..]);
      var x := previous + c;
      ConcatLength(chunks[1..], l.inputs, s);
      StreamIsConv(l, Tail(x, l.Width()), chunks[1..]);
      Quotient(|c|, s);
      Quotient(|rest|, s);
      ConvSplits(l, x, rest, |c| / s, |rest| / s);
      assert previous + (c + rest) == x + rest;
    }
  }

  // ----- functional_conv -----

  datatype PadMode = Constant | Replicate

  datatype Outcome<T> = Ok(value: T) | ValueError

  /** The branch of `functional_conv` without a state. */
  function Stateless(l: Layer, mode: PadMode, x: Signal): Signal
    requires l.Valid() && l.Span() >= l.stride && IsSignal(x, l.inputs) && x != []
  {
    var padding := if mode == Constant then Zeros(l.inputs, l.Width()) else seq(l.Width(), _ => x[0]);
    Conv(l, padding + x)
  }

  class StreamingConv {
    const layer: Layer
    const mode: PadMode
    var previous: Signal

    ghost predicate Valid()
      reads this
    {
      layer.Valid() && layer.Span() >= layer.stride && |previous| == layer.Width() && IsSignal(previous, layer.inputs)
    }

    constructor (l: Layer, m: PadMode)
      requires l.Valid() && l.Span() >= l.stride
      ensures Valid() && layer == l && mode == m && previous == Zeros(l.inputs, l.Width())
    {
      layer, mode, previous := l, m, Zeros(l.inputs, l.Width());
    }

    /** `functional_conv` with a state. */
    method Forward(x: Signal) returns (r: Outcome<Signal>)
      requires Valid() && IsSignal(x, layer.inputs)
      modifies this`previous
      ensures Valid()
      ensures mode != Constant ==> r == ValueError && previous == old(previous)
      ensures mode == Constant ==>
        r == Ok(Conv(layer, old(previous) + x)) && previous == Tail(old(previous) + x, layer.Width())
    {
      if mode != Constant {
        return ValueError;
      }
      var width := layer.Width();
      var full := if width != 0 then previous + x else x;
      assert full == previous + x;
      var y := Conv(layer, full);
      if width != 0 {
        previous := full[|full| - width..];
      } else {
        assert Tail(full, 0) == [];
      }
      return Ok(y);
    }

    /** A run of calls from the initial state answers what one stateless call on the whole input answers. */
    method Run(chunks: seq<Signal>) returns (y: Signal)
      requires Valid() && mode == Constant && previous == Zeros(layer.inputs, layer.Width())
      requires Chunked(chunks, layer.inputs, layer.stride) && chunks != []
      modifies this`previous
      ensures Valid() && IsSignal(Concat(chunks), layer.inputs) && Concat(chunks) != []
      ensures y == Stateless(layer, Constant, Concat(chunks))
    {
      hide Conv, Steps;
      y := [];
      ghost var start := previous;
      assert chunks[0..] == chunks;
      for i := 0 to |chunks|
        invariant Valid()
        invariant y + Stream(layer, previous, chunks[i..]) == Stream(layer, start, chunks)
      {
        assert chunks[i..][0] == chunks[i] && chunks[i..][1..] == chunks[i + 1..];
        ghost var before := y;
        var r := Forward(chunks[i]);
        y := y + r.value;
        assert before + (r.value + Stream(layer, previous, chunks[i + 1..])) == y + Stream(layer, previous, chunks[i + 1..]);
      }
      assert chunks[|chunks|..] == [];
      assert y + [] == y;
      StreamIsConv(layer, start, chunks);
    }
  }
}
