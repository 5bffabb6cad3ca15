/**
  * The impulse responses of the two convolutions: which weight a single input value meets at which
  * output. The sums are linear in the input, so these are all their coefficients.
  */
module Impulse {
  import opened Streaming
  import opened Transposed

  /** All is zero but the value `v` of channel `c` of the column at `t`. */
  predicate IsImpulse(x: Signal, t: nat, c: nat, v: real) {
    && t < |x| && c < |x[t]| && x[t][c] == v
    && forall s, i :: 0 <= s < |x| && 0 <= i < |x[s]| && !(s == t && i == c) ==> x[s][i] == 0.0
  }

  /** One column of an impulse meets its tap. */
  lemma {:induction false} TapImpulse(w: seq<seq<real>>, column: Column, k: nat, n: nat, c: nat, v: real)
    requires n <= |w| && n <= |column| && (forall i :: 0 <= i < |w| ==> k < |w[i]|) && c < |column|
    requires column[c] == v && forall i :: 0 <= i < |column| && i != c ==> column[i] == 0.0
    ensures TapSum(w, column, k, n) == if c < n then w[c][k] * v else 0.0
    decreases n
  {
    if n > 0 {
      TapImpulse(w, column, k, n - 1, c, v);
    }
  }

  lemma {:induction false} TapSilent(w: seq<seq<real>>, column: Column, k: nat, n: nat)
    requires n <= |w| && n <= |column| && (forall i :: 0 <= i < |w| ==> k < |w[i]|)
    requires forall i :: 0 <= i < |column| ==> column[i] == 0.0
    ensures TapSum(w, column, k, n) == 0.0
    decreases n
  {
    if n > 0 {
      TapSilent(w, column, k, n - 1);
    }
  }

  lemma SameTap(a: int, b: int, d: nat)
    requires d > 0 && a * d == b * d
    ensures a == b
  {
    assert (a - b) * d == 0;
  }

  /** The tap `m` stands over the place `at` of a window; -1 is no tap. */
  ghost predicate Meets(l: Layer, at: int, m: int)
  {
    || (0 <= m < l.kernel && m * l.dilation == at)
    || (m == -1 && forall k :: 0 <= k < l.kernel ==> k * l.dilation != at)
  }

  lemma {:induction false} WindowImpulse(l: Layer, window: Signal, o: nat, k: nat, at: nat, c: nat, v: real, m: int)
    requires l.Valid() && o < l.outputs && k <= l.kernel && |window| == l.Span() && IsSignal(window, l.inputs)
    requires IsImpulse(window, at, c, v) && Meets(l, at, m)
    ensures WindowSum(l, window, o, k) == if 0 <= m < k then l.weight[o][c][m] * v else 0.0
    decreases k
  {
    hide TapSum;
    if k > 0 {
      WindowImpulse(l, window, o, k - 1, at, c, v, m);
      TapInside(k - 1, l.kernel, l.dilation);
      var column := window[(k - 1) * l.dilation];
      if (k - 1) * l.dilation == at {
        assert m == k - 1 by { if m >= 0 { SameTap(m, k - 1, l.dilation); } }
        TapImpulse(l.weight[o], column, k - 1, l.inputs, c, v);
      } else {
        TapSilent(l.weight[o], column, k - 1, l.inputs);
      }
    }
  }

  lemma {:induction false} WindowSilent(l: Layer, window: Signal, o: nat, k: nat)
    requires l.Valid() && o < l.outputs && k <= l.kernel && |window| == l.Span() && IsSignal(window, l.inputs)
    requires forall s, i :: 0 <= s < |window| && 0 <= i < |window[s]| ==> window[s][i] == 0.0
    ensures WindowSum(l, window, o, k) == 0.0
    decreases k
  {
    hide TapSum;
    if k > 0 {
      WindowSilent(l, window, o, k - 1);
      TapInside(k - 1, l.kernel, l.dilation);
      TapSilent(l.weight[o], window[(k - 1) * l.dilation], k - 1, l.inputs);
    }
  }

  lemma {:induction false} ConvAt(l: Layer, x: Signal, t: nat, j: nat)
    requires l.Valid() && IsSignal(x, l.inputs) && t <= j < Steps(l, |x|)
    ensures 0 <= j * l.stride && j * l.stride + l.Span() <= |x|
    ensures ConvFrom(l, x, t)[j - t] == ConvColumn(l, x[j * l.stride..j * l.stride + l.Span()])
    decreases j - t
  {
    hide ConvColumn, Steps;
    WindowFits(l, |x|, j);
    if t < j {
      ConvAt(l, x, t + 1, j);
    }
  }

  /** There is an output wherever the taps of the kernel all stand over the input. */
  lemma {:induction false} OutputsFit(l: Layer, x: Signal, j: nat)
    requires l.Valid() && IsSignal(x, l.inputs)
    ensures j < |Conv(l, x)| <==> j * l.stride + (l.kernel - 1) * l.dilation < |x|
  {
    if j < Steps(l, |x|) {
      WindowFits(l, |x|, j);
    } else if |x| >= l.Span() {
      var q := (|x| - l.Span()) / l.stride;
      StepsBeyond(|x| - l.Span(), q, j, l.stride);
    } else {
      DilatedNonNegative(j, l.stride);
    }
  }

  lemma StepsBeyond(a: nat, q: nat, j: nat, s: nat)
    requires s > 0 && q == a / s && j > q
    ensures j * s > a
  {
    assert (q + 1) * s > a;
    DilatedNonNegative(j - q - 1, s);
    assert j * s == (q + 1) * s + (j - q - 1) * s;
  }

  /** Past the bias, tap `k` of output `j` meets the input at `j * stride + k * dilation`. */
  lemma {:induction false} ConvImpulse(l: Layer, x: Signal, j: nat, o: nat, t: nat, c: nat, v: real, m: int)
    requires l.Valid() && IsSignal(x, l.inputs) && j < Steps(l, |x|) && o < l.outputs && IsImpulse(x, t, c, v)
    requires Meets(l, t - j * l.stride, m)
    ensures |Conv(l, x)[j]| == l.outputs && Conv(l, x)[j][o] == l.bias[o] + (if m >= 0 then l.weight[o][c][m] * v else 0.0)
  {
    hide Steps, WindowSum, Meets, IsImpulse;
    ConvAt(l, x, 0, j);
    var a := j * l.stride;
    var window := x[a..a + l.Span()];
    assert |Conv(l, x)[j]| == l.outputs;
    PartImpulse(x, t, c, v, a, a + l.Span());
    if a <= t < a + l.Span() {
      WindowImpulse(l, window, o, l.kernel, t - a, c, v, m);
      assert m < l.kernel by { MeetsInside(l, t - a, m); }
    } else {
      MeetsInside(l, t - a, m);
      WindowSilent(l, window, o, l.kernel);
    }
  }

  /** A part of an impulse is an impulse or silent. */
  lemma {:induction false} PartImpulse(x: Signal, t: nat, c: nat, v: real, a: nat, b: nat)
    requires IsImpulse(x, t, c, v) && a <= b <= |x|
    ensures a <= t < b ==> IsImpulse(x[a..b], t - a, c, v)
    ensures !(a <= t < b) ==> forall s, i :: 0 <= s < b - a && 0 <= i < |x[a..b][s]| ==> x[a..b][s][i] == 0.0
  {
    var part := x[a..b];
    assert forall s :: 0 <= s < |part| ==> part[s] == x[a + s];
  }

  lemma MeetsInside(l: Layer, at: int, m: int)
    requires l.Valid() && Meets(l, at, m)
    ensures -1 <= m < l.kernel && (m >= 0 ==> 0 <= at < l.Span())
  {
    if m >= 0 {
      TapInside(m, l.kernel, l.dilation);
    }
  }

  // ----- the transposed convolution -----

  lemma {:induction false} SampleImpulse(u: Upsample, x: Signal, p: int, o: nat, t: nat, c: nat, v: real)
    requires u.Valid() && o < u.outputs && IsSignal(x, u.inputs) && IsImpulse(x, t, c, v)
    ensures
      var k := p - t * u.stride;
      Sample(u, x, p, o) == if 0 <= k < u.kernel then u.weight[o][c][k] * v else 0.0
    decreases |x|
  {
    hide TapSum;
    var n := |x| - 1;
    if t == n {
      SampleSilent(u, x[..n], p, o);
      if 0 <= p - n * u.stride < u.kernel {
        TapImpulse(u.weight[o], x[n], p - n * u.stride, u.inputs, c, v);
      }
    } else {
      SampleImpulse(u, x[..n], p, o, t, c, v);
      if 0 <= p - n * u.stride < u.kernel {
        TapSilent(u.weight[o], x[n], p - n * u.stride, u.inputs);
      }
    }
  }

  lemma {:induction false} SampleSilent(u: Upsample, x: Signal, p: int, o: nat)
    requires u.Valid() && o < u.outputs && IsSignal(x, u.inputs)
    requires forall s, i :: 0 <= s < |x| && 0 <= i < |x[s]| ==> x[s][i] == 0.0
    ensures Sample(u, x, p, o) == 0.0
    decreases |x|
  {
    hide TapSum;
    if x != [] {
      var n := |x| - 1;
      SampleSilent(u, x[..n], p, o);
      if 0 <= p - n * u.stride < u.kernel {
        TapSilent(u.weight[o], x[n], p - n * u.stride, u.inputs);
      }
    }
  }

  /** An input value reaches the `kernel` outputs from its own position on, one weight each. */
  lemma {:induction false} OneShotImpulse(u: Upsample, x: Signal, p: nat, o: nat, t: nat, c: nat, v: real)
    requires u.Valid() && IsSignal(x, u.inputs) && p < |OneShot(u, x)| && o < u.outputs && IsImpulse(x, t, c, v)
    ensures
      var k := p - t * u.stride;
      OneShot(u, x)[p][o] == u.bias[o] + (if 0 <= k < u.kernel then u.weight[o][c][k] * v else 0.0)
    ensures |OneShot(u, x)| == (|x| - 1) * u.stride + u.kernel
  {
    hide Sample;
    SampleImpulse(u, x, p, o, t, c, v);
  }

  // ----- linearity -----

  /** Two signals added value by value. */
  ghost predicate IsSum(x: Signal, y: Signal, z: Signal) {
    && |x| == |y| == |z|
    && forall s :: 0 <= s < |x| ==>
         |x[s]| == |y[s]| == |z[s]| && forall i :: 0 <= i < |x[s]| ==> z[s][i] == x[s][i] + y[s][i]
  }

  lemma {:induction false} TapAdds(w: seq<seq<real>>, a: Column, b: Column, s: Column, k: nat, n: nat)
    requires n <= |w| && n <= |a| == |b| == |s| && forall i :: 0 <= i < |w| ==> k < |w[i]|
    requires forall i :: 0 <= i < |a| ==> s[i] == a[i] + b[i]
    ensures TapSum(w, s, k, n) == TapSum(w, a, k, n) + TapSum(w, b, k, n)
    decreases n
  {
    if n > 0 {
      TapAdds(w, a, b, s, k, n - 1);
      assert w[n - 1][k] * s[n - 1] == w[n - 1][k] * a[n - 1] + w[n - 1][k] * b[n - 1];
    }
  }

  lemma {:induction false} WindowAdds(l: Layer, x: Signal, y: Signal, z: Signal, o: nat, k: nat)
    requires l.Valid() && o < l.outputs && k <= l.kernel && |x| == l.Span() && IsSum(x, y, z)
    requires IsSignal(x, l.inputs) && IsSignal(y, l.inputs) && IsSignal(z, l.inputs)
    ensures WindowSum(l, z, o, k) == WindowSum(l, x, o, k) + WindowSum(l, y, o, k)
    decreases k
  {
    hide TapSum;
    if k > 0 {
      WindowAdds(l, x, y, z, o, k - 1);
      TapInside(k - 1, l.kernel, l.dilation);
      var i := (k - 1) * l.dilation;
      TapAdds(l.weight[o], x[i], y[i], z[i], k - 1, l.inputs);
    }
  }

  /** Past the bias, the convolution of a sum is the sum of the convolutions. */
  lemma {:induction false} ConvAdds(l: Layer, x: Signal, y: Signal, z: Signal, j: nat, o: nat)
    requires l.Valid() && IsSignal(x, l.inputs) && IsSignal(y, l.inputs) && IsSignal(z, l.inputs) && IsSum(x, y, z)
    requires j < Steps(l, |x|) && o < l.outputs
    ensures |Conv(l, x)[j]| == |Conv(l, y)[j]| == |Conv(l, z)[j]| == l.outputs
    ensures Conv(l, z)[j][o] + l.bias[o] == Conv(l, x)[j][o] + Conv(l, y)[j][o]
  {
    hide Steps, WindowSum;
    ConvAt(l, x, 0, j);
    ConvAt(l, y, 0, j);
    ConvAt(l, z, 0, j);
    var a, b := j * l.stride, j * l.stride + l.Span();
    WindowAdds(l, x[a..b], y[a..b], z[a..b], o, l.kernel);
  }

  lemma {:induction false} SampleSums(u: Upsample, x: Signal, y: Signal, z: Signal, p: int, o: nat)
    requires u.Valid() && o < u.outputs && IsSum(x, y, z)
    requires IsSignal(x, u.inputs) && IsSignal(y, u.inputs) && IsSignal(z, u.inputs)
    ensures Sample(u, z, p, o) == Sample(u, x, p, o) + Sample(u, y, p, o)
    decreases |x|
  {
    hide TapSum;
    if x != [] {
      var n := |x| - 1;
      SampleSums(u, x[..n], y[..n], z[..n], p, o);
      if 0 <= p - n * u.stride < u.kernel {
        TapAdds(u.weight[o], x[n], y[n], z[n], p - n * u.stride, u.inputs);
      }
    }
  }

  /** So is the transposed convolution. */
  lemma {:induction false} OneShotAdds(u: Upsample, x: Signal, y: Signal, z: Signal, p: nat, o: nat)
    requires u.Valid() && IsSignal(x, u.inputs) && IsSignal(y, u.inputs) && IsSignal(z, u.inputs) && IsSum(x, y, z)
    requires p < |OneShot(u, x)| && o < u.outputs
    ensures OneShot(u, z)[p][o] + u.bias[o] == OneShot(u, x)[p][o] + OneShot(u, y)[p][o]
  {
    hide Sample;
    SampleSums(u, x, y, z, p, o);
  }
}
