/**
 Pooling over planes of a tensor: average pooling backward is the adjoint of forward, and max pooling
 backward hands every window's gradient to one element.
 */
module Pooling {
  import opened Sums
  import Powers

  datatype Pool = Pool(kernelH: nat, kernelW: nat, padH: nat, padW: nat, strideH: nat, strideW: nat)
  {
    predicate Valid() { kernelH > 0 && kernelW > 0 && strideH > 0 && strideW > 0 }
  }

  // ----- one axis -----

  /** Output `p` of an axis looks at input `y`. */
  predicate Covers(p: int, y: int, kernel: nat, pad: nat, stride: nat)
  {
    0 <= y + pad - p * stride < kernel
  }

  /** The range of outputs that the backward pass visits for input `y`. */
  function PooledStart(y: nat, kernel: nat, pad: nat, stride: nat): (r: nat)
    requires stride > 0
  {
    if y + pad < kernel then 0
    else
      Powers.DivMod(y + pad - kernel, stride);
      (y + pad - kernel) / stride + 1
  }

  function PooledEnd(y: nat, pad: nat, stride: nat): (r: nat)
    requires stride > 0
  {
    Powers.DivMod(y + pad, stride);
    (y + pad) / stride + 1
  }

  lemma BelowQuotient(p: nat, n: nat, d: nat)
    requires d > 0
    ensures 0 <= n / d && (p <= n / d <==> p * d <= n)
  {
    Powers.DivMod(n, d);
    var q := n / d;
    Powers.MulNat(p, d);
    Ordered(p, q, d);
    Ordered(q + 1, p, d);
    assert (q + 1) * d == q * d + d;
  }

  lemma Ordered(a: nat, b: nat, d: nat)
    ensures a <= b ==> a * d <= b * d
  {
    if a <= b {
      Powers.MulNat(b - a, d);
      assert b * d == a * d + (b - a) * d;
    }
  }

  /** The two passes agree on which outputs look at which inputs. */
  lemma RangeIsCover(p: nat, y: nat, kernel: nat, pad: nat, stride: nat)
    requires stride > 0 && kernel > 0
    ensures PooledStart(y, kernel, pad, stride) <= PooledEnd(y, pad, stride)
    ensures PooledStart(y, kernel, pad, stride) <= p < PooledEnd(y, pad, stride) <==> Covers(p, y, kernel, pad, stride)
  {
    BelowQuotient(p, y + pad, stride);
    Powers.MulNat(p, stride);
    if y + pad >= kernel {
      BelowQuotient(p, y + pad - kernel, stride);
      BelowQuotient(PooledStart(y, kernel, pad, stride) - 1, y + pad - kernel, stride);
      BelowQuotient(PooledStart(y, kernel, pad, stride) - 1, y + pad, stride);
    }
  }

  // ----- windows on a plane -----

  ghost function InPlane(y: int, x: int, h: nat, w: nat, f: Plane): real
  {
    if 0 <= y < h && 0 <= x < w then f(y, x) else 0.0
  }

  ghost function Taps(c: int, d: int, h: nat, w: nat, f: Plane): (r: Plane)
    ensures forall i, j :: r(i, j) == InPlane(c + i, d + j, h, w, f)
  {
    (i, j) => InPlane(c + i, d + j, h, w, f)
  }

  /** The nested loops over a window of `k` by `l` from (`c`, `d`). */
  ghost function Window(c: int, d: int, k: nat, l: nat, h: nat, w: nat, f: Plane): real
  {
    Sum2(k, l, Taps(c, d, h, w, f))
  }

  ghost predicate InWindow(y: int, x: int, c: int, d: int, k: nat, l: nat)
  {
    c <= y < c + k && d <= x < d + l
  }

  ghost function Picked(c: int, d: int, k: nat, l: nat, f: Plane): (r: Plane)
    ensures forall y, x :: r(y, x) == if InWindow(y, x, c, d, k, l) then f(y, x) else 0.0
  {
    (y, x) => if InWindow(y, x, c, d, k, l) then f(y, x) else 0.0
  }

  /** One row of the plane, as far as the window reaches over it. */
  ghost function Stretch(d: int, l: nat, f: Plane, y: int): (r: int -> real)
    ensures forall x :: r(x) == if d <= x < d + l then f(y, x) else 0.0
  {
    x => if d <= x < d + l then f(y, x) else 0.0
  }

  ghost function Stretches(d: int, l: nat, w: nat, f: Plane): (r: int -> real)
    ensures forall y :: r(y) == Sum(w, Stretch(d, l, f, y))
  {
    y => Sum(w, Stretch(d, l, f, y))
  }

  lemma WindowRow(c: int, d: int, k: nat, l: nat, h: nat, w: nat, f: Plane, i: int)
    ensures Sum(l, Row(Taps(c, d, h, w, f), i)) == Inside(c + i, h, Stretches(d, l, w, f))
  {
    var taps := Row(Taps(c, d, h, w, f), i);
    if 0 <= c + i < h {
      WindowSum(d, l, w, Row(f, c + i), taps, Stretch(d, l, f, c + i));
    } else {
      SumZero(l, taps);
    }
  }

  /** A window's sum is the sum over the plane of the elements in the window. */
  lemma WindowPicks(c: int, d: int, k: nat, l: nat, h: nat, w: nat, f: Plane)
    ensures Window(c, d, k, l, h, w, f) == Sum2(h, w, Picked(c, d, k, l, f))
  {
    var walk := RowSums(Taps(c, d, h, w, f), l);
    var inWindow := RowSums(Picked(c, d, k, l, f), w);
    Sum2IsSum(k, l, Taps(c, d, h, w, f));
    Sum2IsSum(h, w, Picked(c, d, k, l, f));
    forall i | 0 <= i < k
      ensures walk(i) == Inside(c + i, h, Stretches(d, l, w, f))
    {
      WindowRow(c, d, k, l, h, w, f, i);
    }
    forall y | 0 <= y < h
      ensures inWindow(y) == if c <= y < c + k then Stretches(d, l, w, f)(y) else 0.0
    {
      if c <= y < c + k {
        SumSame(w, Row(Picked(c, d, k, l, f), y), Stretch(d, l, f, y));
      } else {
        SumZero(w, Row(Picked(c, d, k, l, f), y));
      }
    }
    WindowSum(c, k, h, Stretches(d, l, w, f), walk, inWindow);
  }

  // ----- both passes over one plane -----

  ghost function ForwardSum(p: int, q: int, h: nat, w: nat, k: Pool, f: Plane): real
  {
    Window(p * k.strideH - k.padH, q * k.strideW - k.padW, k.kernelH, k.kernelW, h, w, f)
  }

  ghost function BackwardSum(y: nat, x: nat, ph: nat, pw: nat, k: Pool, g: Plane): real
    requires k.Valid()
  {
    RangeLooks(0, 0, y, x, k);
    var startY, startX := PooledStart(y, k.kernelH, k.padH, k.strideH), PooledStart(x, k.kernelW, k.padW, k.strideW);
    Window(startY, startX, PooledEnd(y, k.padH, k.strideH) - startY, PooledEnd(x, k.padW, k.strideW) - startX, ph, pw, g)
  }

  /** Output (`p`, `q`) looks at input (`y`, `x`). */
  predicate Looks(p: int, q: int, y: int, x: int, k: Pool)
  {
    Covers(p, y, k.kernelH, k.padH, k.strideH) && Covers(q, x, k.kernelW, k.padW, k.strideW)
  }

  /** A kernel where the output looks at the input. */
  ghost function Weighed(k: Pool, t: Kernel): (r: Kernel)
    ensures forall p, q, y, x :: r(p, q, y, x) == if Looks(p, q, y, x, k) then t(p, q, y, x) else 0.0
  {
    (p, q, y, x) => if Looks(p, q, y, x, k) then t(p, q, y, x) else 0.0
  }

  /** The backward pass visits exactly the outputs that look at the input. */
  lemma RangeLooks(p: nat, q: nat, y: nat, x: nat, k: Pool)
    requires k.Valid()
    ensures var c, d := PooledStart(y, k.kernelH, k.padH, k.strideH), PooledStart(x, k.kernelW, k.padW, k.strideW);
      var m, n := PooledEnd(y, k.padH, k.strideH) - c, PooledEnd(x, k.padW, k.strideW) - d;
      m >= 0 && n >= 0 && (InWindow(p, q, c, d, m, n) <==> Looks(p, q, y, x, k))
  {
    RangeIsCover(p, y, k.kernelH, k.padH, k.strideH);
    RangeIsCover(q, x, k.kernelW, k.padW, k.strideW);
  }

  /** A forward window sums the inputs that the output looks at. */
  lemma ForwardLooks(p: nat, q: nat, h: nat, w: nat, k: Pool, f: Plane, t: Kernel)
    requires forall y, x :: 0 <= y < h && 0 <= x < w ==> t(p, q, y, x) == f(y, x)
    ensures ForwardSum(p, q, h, w, k, f) == Sum2(h, w, Slice(Weighed(k, t), p, q))
  {
    var c, d := p * k.strideH - k.padH, q * k.strideW - k.padW;
    WindowPicks(c, d, k.kernelH, k.kernelW, h, w, f);
    Sum2Same(h, w, Picked(c, d, k.kernelH, k.kernelW, f), Slice(Weighed(k, t), p, q));
  }

  /** The backward pass sums, for one input, the outputs that look at it. */
  lemma BackwardLooks(y: nat, x: nat, ph: nat, pw: nat, k: Pool, g: Plane, t: Kernel)
    requires k.Valid() && forall p, q :: 0 <= p < ph && 0 <= q < pw ==> t(p, q, y, x) == g(p, q)
    ensures BackwardSum(y, x, ph, pw, k, g) == Sum2(ph, pw, Coslice(Weighed(k, t), y, x))
  {
    hide PooledStart, PooledEnd, Looks, InWindow;
    var c, d := PooledStart(y, k.kernelH, k.padH, k.strideH), PooledStart(x, k.kernelW, k.padW, k.strideW);
    RangeLooks(0, 0, y, x, k);
    var m, n := PooledEnd(y, k.padH, k.strideH) - c, PooledEnd(x, k.padW, k.strideW) - d;
    WindowPicks(c, d, m, n, ph, pw, g);
    forall p, q | 0 <= p < ph && 0 <= q < pw
      ensures Picked(c, d, m, n, g)(p, q) == Coslice(Weighed(k, t), y, x)(p, q)
    {
      RangeLooks(p, q, y, x, k);
    }
    Sum2Same(ph, pw, Picked(c, d, m, n, g), Coslice(Weighed(k, t), y, x));
  }

  // ----- the adjoint on one plane -----

  ghost function Products(f: Plane, g: Plane): (r: Kernel)
    ensures forall p, q, y, x :: r(p, q, y, x) == f(y, x) * g(p, q)
  {
    (p, q, y, x) => f(y, x) * g(p, q)
  }

  ghost function InputOnly(f: Plane): (r: Kernel)
    ensures forall p, q, y, x :: r(p, q, y, x) == f(y, x)
  {
    (p, q, y, x) => f(y, x)
  }

  ghost function OutputOnly(g: Plane): (r: Kernel)
    ensures forall p, q, y, x :: r(p, q, y, x) == g(p, q)
  {
    (p, q, y, x) => g(p, q)
  }

  /** For every kernel, stride and padding: pairing the windows' sums with `g` is pairing `f` with the
      sums of `g` over the outputs that look at each element. */
  lemma PlaneAdjoint(ph: nat, pw: nat, h: nat, w: nat, k: Pool, f: Plane, g: Plane, outs: Plane, ins: Plane)
    requires k.Valid()
    requires forall p, q :: 0 <= p < ph && 0 <= q < pw ==> outs(p, q) == g(p, q) * ForwardSum(p, q, h, w, k, f)
    requires forall y, x :: 0 <= y < h && 0 <= x < w ==> ins(y, x) == f(y, x) * BackwardSum(y, x, ph, pw, k, g)
    ensures Sum2(ph, pw, outs) == Sum2(h, w, ins)
  {
    hide ForwardSum, BackwardSum, Looks;
    var t := Weighed(k, Products(f, g));
    forall p, q | 0 <= p < ph && 0 <= q < pw
      ensures outs(p, q) == Inner(t, h, w)(p, q)
    {
      ForwardLooks(p, q, h, w, k, f, InputOnly(f));
      Sum2Scale(h, w, g(p, q), Slice(Weighed(k, InputOnly(f)), p, q), Slice(t, p, q));
    }
    forall y, x | 0 <= y < h && 0 <= x < w
      ensures ins(y, x) == Outer(t, ph, pw)(y, x)
    {
      BackwardLooks(y, x, ph, pw, k, g, OutputOnly(g));
      Sum2Scale(ph, pw, f(y, x), Coslice(Weighed(k, OutputOnly(g)), y, x), Coslice(t, y, x));
    }
    Sum2Same(ph, pw, outs, Inner(t, h, w));
    Sum2Same(h, w, ins, Outer(t, ph, pw));
    Exchange(ph, pw, h, w, t);
  }

  // ----- flat data -----

  /** The place of an element in data of planes of `h` by `w`. */
  function Place(m: nat, y: nat, x: nat, h: nat, w: nat): nat
  {
    Powers.MulNat(h, w);
    Powers.MulNat(m, h * w);
    Powers.MulNat(y, w);
    m * (h * w) + (y * w + x)
  }

  ghost function PlaneOf(data: seq<real>, m: nat, h: nat, w: nat): (r: Plane)
    ensures forall y, x :: r(y, x) == if 0 <= y < h && 0 <= x < w && Place(m, y, x, h, w) < |data| then data[Place(m, y, x, h, w)] else 0.0
  {
    (y, x) => if 0 <= y < h && 0 <= x < w && Place(m, y, x, h, w) < |data| then data[Place(m, y, x, h, w)] else 0.0
  }

  ghost function Elements(data: seq<real>): (r: int -> real)
    ensures forall i :: r(i) == if 0 <= i < |data| then data[i] else 0.0
  {
    i => if 0 <= i < |data| then data[i] else 0.0
  }

  ghost function PlaneTotals(data: seq<real>, h: nat, w: nat): (r: int -> real)
    ensures forall m :: r(m) == if m >= 0 then Sum2(h, w, PlaneOf(data, m, h, w)) else 0.0
  {
    m => if m >= 0 then Sum2(h, w, PlaneOf(data, m, h, w)) else 0.0
  }

  ghost function PlaceRows(data: seq<real>, n: nat): (r: Plane)
    ensures forall m, z :: r(m, z) == Elements(data)(m * n + z)
  {
    (m, z) => Elements(data)(m * n + z)
  }

  lemma PlaceBound(planes: nat, m: nat, y: nat, x: nat, h: nat, w: nat)
    requires m < planes && y < h && x < w
    ensures h * w >= 0 && planes * (h * w) >= 0 && y * w >= 0
    ensures y * w + x < h * w && Place(m, y, x, h, w) < planes * (h * w)
  {
    Powers.MulNat(h, w);
    Powers.MulNat(planes, h * w);
    Powers.MulNat(y, w);
    Ordered(y + 1, h, w);
    assert (y + 1) * w == y * w + w;
    Ordered(m + 1, planes, h * w);
    assert (m + 1) * (h * w) == m * (h * w) + h * w;
  }

  /** The sum of flat data is the sum over its planes. */
  lemma TotalByPlanes(data: seq<real>, planes: nat, h: nat, w: nat)
    requires h > 0 && w > 0 && |data| == planes * (h * w)
    ensures Sum(|data|, Elements(data)) == Sum(planes, PlaneTotals(data, h, w))
  {
    Powers.MulAtLeast(h, w);
    var n := h * w;
    SumProduct(planes, n, PlaceRows(data, n), Elements(data));
    Sum2IsSum(planes, n, PlaceRows(data, n));
    forall m | 0 <= m < planes
      ensures RowSums(PlaceRows(data, n), n)(m) == PlaneTotals(data, h, w)(m)
    {
      PlaneTotal(data, planes, m, h, w);
    }
    SumSame(planes, RowSums(PlaceRows(data, n), n), PlaneTotals(data, h, w));
  }

  lemma PlaneTotal(data: seq<real>, planes: nat, m: nat, h: nat, w: nat)
    requires h > 0 && w > 0 && |data| == planes * (h * w) && m < planes && h * w > 0
    ensures Sum(h * w, Row(PlaceRows(data, h * w), m)) == Sum2(h, w, PlaneOf(data, m, h, w))
  {
    forall y, x | 0 <= y < h && 0 <= x < w
      ensures PlaneOf(data, m, h, w)(y, x) == Row(PlaceRows(data, h * w), m)(y * w + x)
    {
      PlaceBound(planes, m, y, x, h, w);
    }
    SumProduct(h, w, PlaneOf(data, m, h, w), Row(PlaceRows(data, h * w), m));
  }

  // ----- average pooling -----

  /** Sizes of both sides: `planes` of `h` by `w` are pooled to planes of `ph` by `pw`. */
  datatype Sizes = Sizes(planes: nat, h: nat, w: nat, ph: nat, pw: nat)
  {
    predicate Valid() { h > 0 && w > 0 && ph > 0 && pw > 0 }

    function Inputs(): nat { Powers.MulNat(h, w); Powers.MulNat(planes, h * w); planes * (h * w) }

    function Outputs(): nat { Powers.MulNat(ph, pw); Powers.MulNat(planes, ph * pw); planes * (ph * pw) }
  }

  function Area(k: Pool): real
    requires k.Valid()
    ensures Area(k) > 0.0
  {
    Powers.MulAtLeast(k.kernelH, k.kernelW);
    (k.kernelH * k.kernelW) as real
  }

  function Scaled(g: seq<real>, area: real): (r: seq<real>)
    requires area > 0.0
    ensures |r| == |g| && forall i :: 0 <= i < |g| ==> r[i] == g[i] / area
  {
    seq(|g|, i requires 0 <= i < |g| => g[i] / area)
  }

  ghost predicate IsAvgForward(input: seq<real>, out: seq<real>, z: Sizes, k: Pool)
    requires k.Valid()
  {
    && |input| == z.Inputs() && |out| == z.Outputs()
    && forall m: nat, p: nat, q: nat {:trigger Place(m, p, q, z.ph, z.pw)} :: m < z.planes && p < z.ph && q < z.pw ==>
         Place(m, p, q, z.ph, z.pw) < |out|
         && out[Place(m, p, q, z.ph, z.pw)] == ForwardSum(p, q, z.h, z.w, k, PlaneOf(input, m, z.h, z.w)) / Area(k)
  }

  ghost predicate IsAvgBackward(gradient: seq<real>, out: seq<real>, z: Sizes, k: Pool)
    requires k.Valid()
  {
    && |gradient| == z.Outputs() && |out| == z.Inputs()
    && forall m: nat, y: nat, x: nat {:trigger Place(m, y, x, z.h, z.w)} :: m < z.planes && y < z.h && x < z.w ==>
         Place(m, y, x, z.h, z.w) < |out|
         && out[Place(m, y, x, z.h, z.w)] == BackwardSum(y, x, z.ph, z.pw, k, PlaneOf(Scaled(gradient, Area(k)), m, z.ph, z.pw))
  }

  function Times(a: seq<real>, b: seq<real>): (r: seq<real>)
    requires |a| == |b|
    ensures |r| == |a| && forall i :: 0 <= i < |a| ==> r[i] == a[i] * b[i]
  {
    seq(|a|, i requires 0 <= i < |a| => a[i] * b[i])
  }

  ghost function InnerProduct(a: seq<real>, b: seq<real>): real
    requires |a| == |b|
  {
    Sum(|a|, Elements(Times(a, b)))
  }

  lemma DivideEither(f: real, g: real, a: real)
    requires a > 0.0
    ensures f / a * g == g / a * f
  {
  }

  lemma AvgOutput(input: seq<real>, out: seq<real>, gradient: seq<real>, z: Sizes, k: Pool, m: nat, p: nat, q: nat)
    requires k.Valid() && m < z.planes && p < z.ph && q < z.pw
    requires IsAvgForward(input, out, z, k) && |gradient| == |out|
    ensures PlaneOf(Times(out, gradient), m, z.ph, z.pw)(p, q)
      == PlaneOf(Scaled(gradient, Area(k)), m, z.ph, z.pw)(p, q) * ForwardSum(p, q, z.h, z.w, k, PlaneOf(input, m, z.h, z.w))
  {
    hide ForwardSum, Area, Place;
    DivideEither(ForwardSum(p, q, z.h, z.w, k, PlaneOf(input, m, z.h, z.w)), gradient[Place(m, p, q, z.ph, z.pw)], Area(k));
  }

  lemma AvgInput(input: seq<real>, gradient: seq<real>, back: seq<real>, z: Sizes, k: Pool, m: nat, y: nat, x: nat)
    requires k.Valid() && m < z.planes && y < z.h && x < z.w
    requires IsAvgBackward(gradient, back, z, k) && |input| == |back|
    ensures PlaneOf(Times(input, back), m, z.h, z.w)(y, x)
      == PlaneOf(input, m, z.h, z.w)(y, x) * BackwardSum(y, x, z.ph, z.pw, k, PlaneOf(Scaled(gradient, Area(k)), m, z.ph, z.pw))
  {
    hide BackwardSum, Area, Place;
    assert Place(m, y, x, z.h, z.w) < |back|;
  }

  lemma AvgPlane(input: seq<real>, out: seq<real>, gradient: seq<real>, back: seq<real>, z: Sizes, k: Pool, m: nat)
    requires k.Valid() && z.Valid() && m < z.planes
    requires IsAvgForward(input, out, z, k) && IsAvgBackward(gradient, back, z, k)
    ensures Sum2(z.ph, z.pw, PlaneOf(Times(out, gradient), m, z.ph, z.pw)) == Sum2(z.h, z.w, PlaneOf(Times(input, back), m, z.h, z.w))
  {
    hide ForwardSum, BackwardSum, Area, Place, PlaneOf;
    var f, g := PlaneOf(input, m, z.h, z.w), PlaneOf(Scaled(gradient, Area(k)), m, z.ph, z.pw);
    var outs, ins := PlaneOf(Times(out, gradient), m, z.ph, z.pw), PlaneOf(Times(input, back), m, z.h, z.w);
    forall p, q | 0 <= p < z.ph && 0 <= q < z.pw
      ensures outs(p, q) == g(p, q) * ForwardSum(p, q, z.h, z.w, k, f)
    {
      AvgOutput(input, out, gradient, z, k, m, p, q);
    }
    forall y, x | 0 <= y < z.h && 0 <= x < z.w
      ensures ins(y, x) == f(y, x) * BackwardSum(y, x, z.ph, z.pw, k, g)
    {
      AvgInput(input, gradient, back, z, k, m, y, x);
    }
    PlaneAdjoint(z.ph, z.pw, z.h, z.w, k, f, g, outs, ins);
  }

  /** Average pooling backward is the adjoint of forward: pairing the pooled tensor with a gradient is
      pairing the input with the gradient handed back. */
  lemma AveragePoolingAdjoint(input: seq<real>, out: seq<real>, gradient: seq<real>, back: seq<real>, z: Sizes, k: Pool)
    requires k.Valid() && z.Valid()
    requires IsAvgForward(input, out, z, k) && IsAvgBackward(gradient, back, z, k)
    ensures |out| == |gradient| && |input| == |back| && InnerProduct(out, gradient) == InnerProduct(input, back)
  {
    TotalByPlanes(Times(out, gradient), z.planes, z.ph, z.pw);
    TotalByPlanes(Times(input, back), z.planes, z.h, z.w);
    var outs, ins := PlaneTotals(Times(out, gradient), z.ph, z.pw), PlaneTotals(Times(input, back), z.h, z.w);
    forall m | 0 <= m < z.planes
      ensures outs(m) == ins(m)
    {
      AvgPlane(input, out, gradient, back, z, k, m);
    }
    SumSame(z.planes, outs, ins);
  }

  lemma PlaceApart(planes: nat, m: nat, y: nat, x: nat, n: nat, v: nat, u: nat, h: nat, w: nat)
    requires m < planes && n < planes && y < h && v < h && x < w && u < w && Place(m, y, x, h, w) == Place(n, v, u, h, w)
    ensures m == n && y == v && x == u
  {
    PlaceBound(planes, m, y, x, h, w);
    PlaceBound(planes, n, v, u, h, w);
    Powers.QuotientUnique(h * w, m, y * w + x, n, v * w + u);
    Powers.QuotientUnique(w, y, x, v, u);
  }

  /** Planes of two inputs that differ in one element differ there alone. */
  lemma OneElementOfPlanes(data: seq<real>, v: real, planes: nat, h: nat, w: nat, m: nat, y: nat, x: nat, n: nat, b: nat, a: nat)
    requires m < planes && y < h && x < w && n < planes && b < h && a < w && Place(m, y, x, h, w) < |data|
    ensures PlaneOf(data[Place(m, y, x, h, w) := v], n, h, w)(b, a) - PlaneOf(data, n, h, w)(b, a)
      == if (n, b, a) == (m, y, x) then v - data[Place(m, y, x, h, w)] else 0.0
  {
    hide Place;
    if Place(n, b, a, h, w) == Place(m, y, x, h, w) {
      PlaceApart(planes, n, b, a, m, y, x, h, w);
    }
  }

  /** A window's sum moves with an element that it looks at. */
  lemma OneElementMovesSum(p: nat, q: nat, h: nat, w: nat, k: Pool, f: Plane, f': Plane, y: nat, x: nat, change: real)
    requires y < h && x < w
    requires forall b, a :: 0 <= b < h && 0 <= a < w ==> f'(b, a) - f(b, a) == if (b, a) == (y, x) then change else 0.0
    ensures ForwardSum(p, q, h, w, k, f') - ForwardSum(p, q, h, w, k, f) == if Looks(p, q, y, x, k) then change else 0.0
  {
    var c, d := p * k.strideH - k.padH, q * k.strideW - k.padW;
    WindowPicks(c, d, k.kernelH, k.kernelW, h, w, f);
    WindowPicks(c, d, k.kernelH, k.kernelW, h, w, f');
    Sum2Changed(h, w, y, x, Picked(c, d, k.kernelH, k.kernelW, f), Picked(c, d, k.kernelH, k.kernelW, f'));
  }

  lemma LooksIs(p: nat, q: nat, y: nat, x: nat, k: Pool)
    ensures Looks(p, q, y, x, k)
      <==> p * k.strideH <= y + k.padH < p * k.strideH + k.kernelH && q * k.strideW <= x + k.padW < q * k.strideW + k.kernelW
  {
  }

  /** One element moves the average of every window that it lies in by its share of the whole window,
      padding included, and no other average. */
  lemma OneElementMovesAverages(input: seq<real>, out: seq<real>, out': seq<real>, z: Sizes, k: Pool,
                                m: nat, y: nat, x: nat, v: real, n: nat, p: nat, q: nat)
    requires k.Valid() && m < z.planes && y < z.h && x < z.w && n < z.planes && p < z.ph && q < z.pw
    requires Place(m, y, x, z.h, z.w) < |input|
    requires IsAvgForward(input, out, z, k) && IsAvgForward(input[Place(m, y, x, z.h, z.w) := v], out', z, k)
    ensures Place(n, p, q, z.ph, z.pw) < |out| == |out'| && k.kernelH * k.kernelW > 0
    ensures out'[Place(n, p, q, z.ph, z.pw)] - out[Place(n, p, q, z.ph, z.pw)]
      == if n == m && p * k.strideH <= y + k.padH < p * k.strideH + k.kernelH && q * k.strideW <= x + k.padW < q * k.strideW + k.kernelW
         then (v - input[Place(m, y, x, z.h, z.w)]) / (k.kernelH * k.kernelW) as real
         else 0.0
  {
    hide ForwardSum, Looks, Place;
    Powers.MulAtLeast(k.kernelH, k.kernelW);
    var i, j := Place(n, p, q, z.ph, z.pw), Place(m, y, x, z.h, z.w);
    var f, f' := PlaneOf(input, n, z.h, z.w), PlaneOf(input[j := v], n, z.h, z.w);
    forall b, a | 0 <= b < z.h && 0 <= a < z.w
      ensures f'(b, a) - f(b, a) == if n == m && (b, a) == (y, x) then v - input[j] else 0.0
    {
      OneElementOfPlanes(input, v, z.planes, z.h, z.w, m, y, x, n, b, a);
    }
    OneElementMovesSum(p, q, z.h, z.w, k, f, f', y, x, if n == m then v - input[j] else 0.0);
    LooksIs(p, q, y, x, k);
    assert i < |out| && i < |out'|;
    DivideDifference(ForwardSum(p, q, z.h, z.w, k, f'), ForwardSum(p, q, z.h, z.w, k, f), Area(k));
  }

  lemma DivideDifference(f: real, g: real, a: real)
    requires a > 0.0
    ensures f / a - g / a == (f - g) / a
  {
  }

  /** Averages of nothing but zeros are zero. */
  lemma ZerosAverageToZero(input: seq<real>, out: seq<real>, z: Sizes, k: Pool, n: nat, p: nat, q: nat)
    requires k.Valid() && n < z.planes && p < z.ph && q < z.pw && IsAvgForward(input, out, z, k)
    requires forall i :: 0 <= i < |input| ==> input[i] == 0.0
    ensures Place(n, p, q, z.ph, z.pw) < |out| && out[Place(n, p, q, z.ph, z.pw)] == 0.0
  {
    hide Area, Place;
    Sum2Zero(k.kernelH, k.kernelW, Taps(p * k.strideH - k.padH, q * k.strideW - k.padW, z.h, z.w, PlaneOf(input, n, z.h, z.w)));
    assert Place(n, p, q, z.ph, z.pw) < |out|;
  }

  /** What an element is handed back moves with an output that looks at it. */
  lemma OneOutputMovesSum(y: nat, x: nat, ph: nat, pw: nat, k: Pool, g: Plane, g': Plane, p: nat, q: nat, change: real)
    requires k.Valid() && p < ph && q < pw
    requires forall b, a :: 0 <= b < ph && 0 <= a < pw ==> g'(b, a) - g(b, a) == if (b, a) == (p, q) then change else 0.0
    ensures BackwardSum(y, x, ph, pw, k, g') - BackwardSum(y, x, ph, pw, k, g) == if Looks(p, q, y, x, k) then change else 0.0
  {
    hide BackwardSum, Looks;
    BackwardLooks(y, x, ph, pw, k, g, OutputOnly(g));
    BackwardLooks(y, x, ph, pw, k, g', OutputOnly(g'));
    Sum2Changed(ph, pw, p, q, Coslice(Weighed(k, OutputOnly(g)), y, x), Coslice(Weighed(k, OutputOnly(g')), y, x));
  }

  // ----- max pooling -----

  /** The window of an output reaches some input. */
  ghost predicate Meets(p: nat, q: nat, h: nat, w: nat, k: Pool)
  {
    exists y: nat, x: nat {:trigger Looks(p, q, y, x, k)} :: y < h && x < w && Looks(p, q, y, x, k)
  }

  /** The mask names a greatest element of the window, and element 0 when the window meets nothing. */
  ghost predicate IsMaxForward(input: seq<real>, out: seq<real>, mask: seq<nat>, z: Sizes, k: Pool)
    requires k.Valid()
  {
    && |input| == z.Inputs() && |out| == |mask| == z.Outputs()
    && forall m: nat, p: nat, q: nat {:trigger Place(m, p, q, z.ph, z.pw)} :: m < z.planes && p < z.ph && q < z.pw ==>
         var i := Place(m, p, q, z.ph, z.pw);
         && i < |out|
         && if Meets(p, q, z.h, z.w, k)
            then IsGreatest(input, z, k, m, p, q, mask[i]) && mask[i] < |input| && out[i] == input[mask[i]]
            else mask[i] == 0
  }

  ghost predicate IsGreatest(input: seq<real>, z: Sizes, k: Pool, m: nat, p: nat, q: nat, i: nat)
  {
    && (exists y: nat, x: nat {:trigger Looks(p, q, y, x, k)} :: y < z.h && x < z.w && Looks(p, q, y, x, k) && i == Place(m, y, x, z.h, z.w))
    && i < |input|
    && (forall y: nat, x: nat {:trigger Looks(p, q, y, x, k)} :: y < z.h && x < z.w && Looks(p, q, y, x, k) && Place(m, y, x, z.h, z.w) < |input| ==>
          input[Place(m, y, x, z.h, z.w)] <= input[i])
  }

  /** What a window's output is, by positions: it is attained in the window and no element of the window
      is greater. */
  lemma MaximumOfWindow(input: seq<real>, out: seq<real>, mask: seq<nat>, z: Sizes, k: Pool, m: nat, p: nat, q: nat, y: nat, x: nat)
    requires k.Valid() && m < z.planes && p < z.ph && q < z.pw && y < z.h && x < z.w
    requires p * k.strideH <= y + k.padH < p * k.strideH + k.kernelH && q * k.strideW <= x + k.padW < q * k.strideW + k.kernelW
    requires IsMaxForward(input, out, mask, z, k)
    ensures Place(m, y, x, z.h, z.w) < |input| && Place(m, p, q, z.ph, z.pw) < |out| == |mask|
    ensures input[Place(m, y, x, z.h, z.w)] <= out[Place(m, p, q, z.ph, z.pw)]
    ensures exists b: nat, a: nat {:trigger Place(m, b, a, z.h, z.w)} ::
              && b < z.h && a < z.w
              && p * k.strideH <= b + k.padH < p * k.strideH + k.kernelH && q * k.strideW <= a + k.padW < q * k.strideW + k.kernelW
              && mask[Place(m, p, q, z.ph, z.pw)] == Place(m, b, a, z.h, z.w) < |input|
              && out[Place(m, p, q, z.ph, z.pw)] == input[Place(m, b, a, z.h, z.w)]
  {
    hide Looks, Place;
    LooksIs(p, q, y, x, k);
    PlaceBound(z.planes, m, y, x, z.h, z.w);
    var i := Place(m, p, q, z.ph, z.pw);
    assert i < |out|;
    var b: nat, a: nat :| b < z.h && a < z.w && Looks(p, q, b, a, k) && mask[i] == Place(m, b, a, z.h, z.w);
    LooksIs(p, q, b, a, k);
  }

  /** The gradients of the outputs whose mask names element `i`. */
  function Selected(gradient: seq<real>, mask: seq<nat>, i: nat): (r: seq<real>)
    requires |gradient| == |mask|
    ensures |r| == |gradient| && forall j :: 0 <= j < |r| ==> r[j] == if mask[j] == i then gradient[j] else 0.0
  {
    seq(|gradient|, j requires 0 <= j < |gradient| => if mask[j] == i then gradient[j] else 0.0)
  }

  ghost predicate IsMaxBackward(gradient: seq<real>, mask: seq<nat>, out: seq<real>, z: Sizes, k: Pool)
    requires k.Valid()
  {
    && |gradient| == |mask| == z.Outputs() && |out| == z.Inputs()
    && forall m: nat, y: nat, x: nat {:trigger Place(m, y, x, z.h, z.w)} :: m < z.planes && y < z.h && x < z.w ==>
         var i := Place(m, y, x, z.h, z.w);
         i < |out| && out[i] == BackwardSum(y, x, z.ph, z.pw, k, PlaneOf(Selected(gradient, mask, i), m, z.ph, z.pw))
  }

  /** The gradients of the outputs whose window meets the input. */
  ghost predicate KeepsMet(gradient: seq<real>, kept: seq<real>, z: Sizes, k: Pool)
  {
    && |gradient| == |kept| == z.Outputs()
    && forall m: nat, p: nat, q: nat {:trigger Place(m, p, q, z.ph, z.pw)} :: m < z.planes && p < z.ph && q < z.pw ==>
         Place(m, p, q, z.ph, z.pw) < |kept|
         && kept[Place(m, p, q, z.ph, z.pw)] == if Meets(p, q, z.h, z.w, k) then gradient[Place(m, p, q, z.ph, z.pw)] else 0.0
  }

  ghost function MaskKernel(gradient: seq<real>, mask: seq<nat>, m: nat, z: Sizes): (r: Kernel)
    requires |gradient| == |mask|
    ensures forall p, q, y, x {:trigger r(p, q, y, x)} ::
              r(p, q, y, x) == if y >= 0 && x >= 0 then PlaneOf(Selected(gradient, mask, Place(m, y, x, z.h, z.w)), m, z.ph, z.pw)(p, q) else 0.0
  {
    (p, q, y, x) => if y >= 0 && x >= 0 then PlaneOf(Selected(gradient, mask, Place(m, y, x, z.h, z.w)), m, z.ph, z.pw)(p, q) else 0.0
  }

  lemma PlaceInjective(m: nat, y: nat, x: nat, v: nat, u: nat, h: nat, w: nat)
    requires x < w && u < w && Place(m, y, x, h, w) == Place(m, v, u, h, w)
    ensures y == v && x == u
  {
    Powers.QuotientUnique(w, y, x, v, u);
  }

  /** What one window hands back in all: its gradient, to the element that its mask names. */
  lemma WindowHandsBack(input: seq<real>, out: seq<real>, gradient: seq<real>, mask: seq<nat>, z: Sizes, k: Pool, m: nat, p: nat, q: nat)
    requires k.Valid() && z.Valid() && m < z.planes && p < z.ph && q < z.pw && |gradient| == z.Outputs()
    requires IsMaxForward(input, out, mask, z, k)
    ensures Place(m, p, q, z.ph, z.pw) < |gradient|
    ensures Sum2(z.h, z.w, Slice(Weighed(k, MaskKernel(gradient, mask, m, z)), p, q))
      == if Meets(p, q, z.h, z.w, k) then gradient[Place(m, p, q, z.ph, z.pw)] else 0.0
  {
    hide Looks, Place;
    var i := Place(m, p, q, z.ph, z.pw);
    var f := Slice(Weighed(k, MaskKernel(gradient, mask, m, z)), p, q);
    assert i < |out|;
    if Meets(p, q, z.h, z.w, k) {
      var cy: nat, cx: nat :| cy < z.h && cx < z.w && Looks(p, q, cy, cx, k) && mask[i] == Place(m, cy, cx, z.h, z.w);
      forall y, x | 0 <= y < z.h && 0 <= x < z.w && (y, x) != (cy, cx)
        ensures f(y, x) == 0.0
      {
        if Place(m, y, x, z.h, z.w) == Place(m, cy, cx, z.h, z.w) {
          PlaceInjective(m, y, x, cy, cx, z.h, z.w);
        }
      }
      Sum2Only(z.h, z.w, cy, cx, f);
    } else {
      Sum2Zero(z.h, z.w, f);
    }
  }

  lemma MaxPlane(input: seq<real>, out: seq<real>, mask: seq<nat>, gradient: seq<real>, back: seq<real>, kept: seq<real>, z: Sizes, k: Pool, m: nat)
    requires k.Valid() && z.Valid() && m < z.planes
    requires IsMaxForward(input, out, mask, z, k) && IsMaxBackward(gradient, mask, back, z, k) && KeepsMet(gradient, kept, z, k)
    ensures Sum2(z.h, z.w, PlaneOf(back, m, z.h, z.w)) == Sum2(z.ph, z.pw, PlaneOf(kept, m, z.ph, z.pw))
  {
    hide BackwardSum, Looks, Place, Meets;
    var s := MaskKernel(gradient, mask, m, z);
    var t := Weighed(k, s);
    forall p, q | 0 <= p < z.ph && 0 <= q < z.pw
      ensures PlaneOf(kept, m, z.ph, z.pw)(p, q) == Inner(t, z.h, z.w)(p, q)
    {
      WindowHandsBack(input, out, gradient, mask, z, k, m, p, q);
    }
    forall y, x | 0 <= y < z.h && 0 <= x < z.w
      ensures PlaneOf(back, m, z.h, z.w)(y, x) == Outer(t, z.ph, z.pw)(y, x)
    {
      assert Place(m, y, x, z.h, z.w) < |back|;
      BackwardLooks(y, x, z.ph, z.pw, k, PlaneOf(Selected(gradient, mask, Place(m, y, x, z.h, z.w)), m, z.ph, z.pw), s);
    }
    Sum2Same(z.ph, z.pw, PlaneOf(kept, m, z.ph, z.pw), Inner(t, z.h, z.w));
    Sum2Same(z.h, z.w, PlaneOf(back, m, z.h, z.w), Outer(t, z.ph, z.pw));
    Exchange(z.ph, z.pw, z.h, z.w, t);
  }

  /** Max pooling backward conserves the gradient of the windows that meet the input. */
  lemma MaxPoolingConserves(input: seq<real>, out: seq<real>, mask: seq<nat>, gradient: seq<real>, back: seq<real>, kept: seq<real>, z: Sizes, k: Pool)
    requires k.Valid() && z.Valid()
    requires IsMaxForward(input, out, mask, z, k) && IsMaxBackward(gradient, mask, back, z, k) && KeepsMet(gradient, kept, z, k)
    ensures Sum(|back|, Elements(back)) == Sum(|kept|, Elements(kept))
  {
    TotalByPlanes(back, z.planes, z.h, z.w);
    TotalByPlanes(kept, z.planes, z.ph, z.pw);
    var ins, outs := PlaneTotals(back, z.h, z.w), PlaneTotals(kept, z.ph, z.pw);
    forall m | 0 <= m < z.planes
      ensures ins(m) == outs(m)
    {
      MaxPlane(input, out, mask, gradient, back, kept, z, k, m);
    }
    SumSame(z.planes, ins, outs);
  }

  /** The gradient of one output moves the element that its mask names, if its window contains that
      element, and no other. */
  lemma OneGradientMovesNamed(gradient: seq<real>, mask: seq<nat>, back: seq<real>, back': seq<real>, z: Sizes, k: Pool,
                              n: nat, p: nat, q: nat, v: real, m: nat, y: nat, x: nat)
    requires k.Valid() && n < z.planes && p < z.ph && q < z.pw && m < z.planes && y < z.h && x < z.w
    requires Place(n, p, q, z.ph, z.pw) < |gradient|
    requires IsMaxBackward(gradient, mask, back, z, k) && IsMaxBackward(gradient[Place(n, p, q, z.ph, z.pw) := v], mask, back', z, k)
    ensures Place(m, y, x, z.h, z.w) < |back| == |back'| && |mask| == |gradient|
    ensures back'[Place(m, y, x, z.h, z.w)] - back[Place(m, y, x, z.h, z.w)]
      == if && m == n && mask[Place(n, p, q, z.ph, z.pw)] == Place(m, y, x, z.h, z.w)
            && p * k.strideH <= y + k.padH < p * k.strideH + k.kernelH && q * k.strideW <= x + k.padW < q * k.strideW + k.kernelW
         then v - gradient[Place(n, p, q, z.ph, z.pw)]
         else 0.0
  {
    hide BackwardSum, Looks, Place;
    var i, j := Place(m, y, x, z.h, z.w), Place(n, p, q, z.ph, z.pw);
    var s, s' := Selected(gradient, mask, i), Selected(gradient[j := v], mask, i);
    assert s' == s[j := if mask[j] == i then v else 0.0];
    var g, g' := PlaneOf(s, m, z.ph, z.pw), PlaneOf(s', m, z.ph, z.pw);
    forall b, a | 0 <= b < z.ph && 0 <= a < z.pw
      ensures g'(b, a) - g(b, a) == if m == n && (b, a) == (p, q) then s'[j] - s[j] else 0.0
    {
      OneElementOfPlanes(s, s'[j], z.planes, z.ph, z.pw, n, p, q, m, b, a);
    }
    OneOutputMovesSum(y, x, z.ph, z.pw, k, g, g', p, q, if m == n then s'[j] - s[j] else 0.0);
    LooksIs(p, q, y, x, k);
    assert i < |back| && i < |back'|;
  }

  lemma AllKept(gradient: seq<real>, z: Sizes, k: Pool)
    requires z.Valid() && |gradient| == z.Outputs()
    requires forall p: nat, q: nat :: p < z.ph && q < z.pw ==> Meets(p, q, z.h, z.w, k)
    ensures KeepsMet(gradient, gradient, z, k)
  {
    forall m: nat, p: nat, q: nat | m < z.planes && p < z.ph && q < z.pw
      ensures Place(m, p, q, z.ph, z.pw) < |gradient|
    {
      PlaceBound(z.planes, m, p, q, z.ph, z.pw);
    }
  }

  /** When every window meets the input, the whole gradient comes back. */
  lemma WholeGradientComesBack(input: seq<real>, out: seq<real>, mask: seq<nat>, gradient: seq<real>, back: seq<real>, z: Sizes, k: Pool)
    requires k.Valid() && z.Valid()
    requires IsMaxForward(input, out, mask, z, k) && IsMaxBackward(gradient, mask, back, z, k) && |gradient| == z.Outputs()
    requires forall p: nat, q: nat :: p < z.ph && q < z.pw ==> Meets(p, q, z.h, z.w, k)
    ensures Sum(|back|, Elements(back)) == Sum(|gradient|, Elements(gradient))
  {
    AllKept(gradient, z, k);
    MaxPoolingConserves(input, out, mask, gradient, back, gradient, z, k);
  }
}
