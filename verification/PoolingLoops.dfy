/** The pooling operators' loops over flat data, proved to be the passes of `Pooling`. */
module PoolingLoops {
  import opened Pooling
  import opened Sums
  import opened TensorIndex
  import Powers

  /** Batches and channels of a 4-dimensional tensor; the other sizes are the planes'. */
  datatype Dims = Dims(batch: nat, channel: nat, z: Sizes)
  {
    predicate Valid()
    {
      batch > 0 && channel > 0 && z.Valid() && z.planes == batch * channel
    }

    function Input(): Shape { [batch, channel, z.h, z.w] }

    function Output(): Shape { [batch, channel, z.ph, z.pw] }
  }

  function PlaneNumber(n: nat, c: nat, channel: nat): nat
  {
    Powers.MulNat(n, channel);
    n * channel + c
  }

  lemma Elements4(a: nat, b: nat, h: nat, w: nat)
    ensures h * w >= 0 && a * b >= 0 && NumElement([a, b, h, w]) == a * b * (h * w)
  {
    Powers.MulNat(h, w);
    Powers.MulNat(a, b);
    assert [a, b, h, w][1..] == [b, h, w] && [b, h, w][1..] == [h, w] && [h, w][1..] == [w] && [w][1..] == [];
    assert NumElement([w]) == w;
    assert NumElement([h, w]) == h * w;
    assert NumElement([b, h, w]) == b * (h * w);
    assert a * (b * (h * w)) == a * b * (h * w);
  }

  lemma FlatIsPlace(n: nat, c: nat, y: nat, x: nat, a: nat, b: nat, h: nat, w: nat)
    ensures Flat([n, c, y, x], [a, b, h, w]) == Place(PlaneNumber(n, c, b), y, x, h, w)
  {
    Powers.MulNat(h, w);
    assert [a, b, h, w][1..] == [b, h, w] && [b, h, w][1..] == [h, w] && [h, w][1..] == [w] && [w][1..] == [];
    assert [n, c, y, x][1..] == [c, y, x] && [c, y, x][1..] == [y, x] && [y, x][1..] == [x] && [x][1..] == [];
    assert NumElement([w]) == w;
    assert NumElement([h, w]) == h * w;
    assert NumElement([b, h, w]) == b * (h * w);
    assert Flat([x], [w]) == x;
    assert Flat([y, x], [h, w]) == y * w + x;
    assert Flat([c, y, x], [b, h, w]) == c * (h * w) + (y * w + x);
    assert n * (b * (h * w)) + c * (h * w) == (n * b + c) * (h * w);
  }

  /** The position of a place, by plane. */
  lemma PositionOf(m: nat, y: nat, x: nat, a: nat, b: nat, h: nat, w: nat)
    requires a > 0 && b > 0 && h > 0 && w > 0 && m < a * b && y < h && x < w
    ensures 0 <= m / b < a && 0 <= m % b < b && Positive([a, b, h, w])
    ensures Place(m, y, x, h, w) < NumElement([a, b, h, w]) && Unflat(Place(m, y, x, h, w), [a, b, h, w]) == [m / b, m % b, y, x]
  {
    Powers.DivMod(m, b);
    QuotientBelow(m, a, b);
    FlatIsPlace(m / b, m % b, y, x, a, b, h, w);
    var pos: seq<nat> := [m / b, m % b, y, x];
    assert InShape(pos, [a, b, h, w]);
    UnflatOfFlat(pos, [a, b, h, w]);
    FlatBounded(pos, [a, b, h, w]);
  }

  lemma ShapePositive(a: nat, b: nat, h: nat, w: nat)
    requires a > 0 && b > 0 && h > 0 && w > 0
    ensures Positive([a, b, h, w])
  {
  }

  /** The loops over a window: elements outside the tensor are skipped. */
  method SumWindow(data: seq<real>, n: nat, c: nat, a: nat, b: nat, h: nat, w: nat, top: int, left: int, k: nat, l: nat) returns (sum: real)
    requires n < a && c < b && |data| == NumElement([a, b, h, w])
    ensures sum == Window(top, left, k, l, h, w, PlaneOf(data, PlaneNumber(n, c, b), h, w))
  {
    ghost var f := PlaneOf(data, PlaneNumber(n, c, b), h, w);
    ghost var taps := Taps(top, left, h, w, f);
    sum := 0.0;
    var i: nat := 0;
    while i < k
      invariant i <= k && sum == Sum2(i, l, taps)
    {
      var j: nat := 0;
      while j < l
        invariant j <= l && sum == Sum2(i, l, taps) + Sum(j, Row(taps, i))
      {
        var tap := ReadTap(data, n, c, a, b, h, w, top + i, left + j);
        sum := sum + tap;
        j := j + 1;
      }
      i := i + 1;
    }
  }

  method ReadTap(data: seq<real>, n: nat, c: nat, a: nat, b: nat, h: nat, w: nat, y: int, x: int) returns (v: real)
    requires n < a && c < b && |data| == NumElement([a, b, h, w])
    ensures v == InPlane(y, x, h, w, PlaneOf(data, PlaneNumber(n, c, b), h, w))
  {
    if y < 0 || x < 0 || y >= h || x >= w {
      return 0.0;
    }
    var inPos: seq<nat> := [n, c, y, x];
    var inIndex := FlatIndex(inPos, [a, b, h, w]);
    FlatBounded(inPos, [a, b, h, w]);
    FlatIsPlace(n, c, y, x, a, b, h, w);
    v := data[inIndex];
  }

  method AvgPoolingForward(data: seq<real>, d: Dims, k: Pool) returns (out: seq<real>)
    requires d.Valid() && k.Valid() && |data| == NumElement(d.Input())
    ensures IsAvgForward(data, out, d.z, k)
  {
    var n := NumElement(d.Output());
    var area := (k.kernelH * k.kernelW) as real;
    ShapePositive(d.batch, d.channel, d.z.ph, d.z.pw);
    out := [];
    var i: nat := 0;
    while i < n
      invariant i <= n && |out| == i
      invariant forall j :: 0 <= j < i ==> out[j] == AverageAt(data, d, k, Unflat(j, d.Output()))
    {
      var outPos := UnflatIndex(i, d.Output());
      FlatOfUnflat(i, d.Output());
      var sum := SumWindow(data, outPos[0], outPos[1], d.batch, d.channel, d.z.h, d.z.w,
                           outPos[2] * k.strideH - k.padH, outPos[3] * k.strideW - k.padW, k.kernelH, k.kernelW);
      out := out + [sum / area];
      i := i + 1;
    }
    AllAverages(data, out, d, k);
  }

  ghost function AverageAt(data: seq<real>, d: Dims, k: Pool, pos: seq<nat>): real
    requires k.Valid() && |pos| == 4
  {
    ForwardSum(pos[2], pos[3], d.z.h, d.z.w, k, PlaneOf(data, PlaneNumber(pos[0], pos[1], d.channel), d.z.h, d.z.w)) / Area(k)
  }

  lemma SizesAgree(d: Dims)
    requires d.Valid()
    ensures NumElement(d.Input()) == d.z.Inputs() && NumElement(d.Output()) == d.z.Outputs()
  {
    Elements4(d.batch, d.channel, d.z.h, d.z.w);
    Elements4(d.batch, d.channel, d.z.ph, d.z.pw);
  }

  lemma PlaneBack(m: nat, b: nat)
    requires b > 0
    ensures 0 <= m / b && 0 <= m % b && PlaneNumber(m / b, m % b, b) == m
  {
    Powers.DivMod(m, b);
  }

  lemma AllAverages(data: seq<real>, out: seq<real>, d: Dims, k: Pool)
    requires d.Valid() && k.Valid() && |data| == NumElement(d.Input()) && |out| == NumElement(d.Output()) && Positive(d.Output())
    requires forall j :: 0 <= j < |out| ==> out[j] == AverageAt(data, d, k, Unflat(j, d.Output()))
    ensures IsAvgForward(data, out, d.z, k)
  {
    hide ForwardSum, Place, Unflat, NumElement;
    SizesAgree(d);
    forall m: nat, p: nat, q: nat | m < d.z.planes && p < d.z.ph && q < d.z.pw
      ensures Place(m, p, q, d.z.ph, d.z.pw) < |out|
      ensures out[Place(m, p, q, d.z.ph, d.z.pw)] == ForwardSum(p, q, d.z.h, d.z.w, k, PlaneOf(data, m, d.z.h, d.z.w)) / Area(k)
    {
      PositionOf(m, p, q, d.batch, d.channel, d.z.ph, d.z.pw);
      PlaneBack(m, d.channel);
    }
  }

  // ----- average pooling, backward -----

  ghost function HandedBackAt(g: seq<real>, d: Dims, k: Pool, pos: seq<nat>): real
    requires k.Valid() && |pos| == 4
  {
    BackwardSum(pos[2], pos[3], d.z.ph, d.z.pw, k, PlaneOf(g, PlaneNumber(pos[0], pos[1], d.channel), d.z.ph, d.z.pw))
  }

  /** The loops over the outputs that look at one input. */
  method SumOutputs(g: seq<real>, d: Dims, k: Pool, pos: seq<nat>) returns (sum: real)
    requires d.Valid() && k.Valid() && |g| == NumElement(d.Output()) && InShape(pos, d.Input())
    ensures sum == HandedBackAt(g, d, k, pos)
  {
    RangeIsCover(0, pos[2], k.kernelH, k.padH, k.strideH);
    RangeIsCover(0, pos[3], k.kernelW, k.padW, k.strideW);
    var startY, endY := PooledStart(pos[2], k.kernelH, k.padH, k.strideH), PooledEnd(pos[2], k.padH, k.strideH);
    var startX, endX := PooledStart(pos[3], k.kernelW, k.padW, k.strideW), PooledEnd(pos[3], k.padW, k.strideW);
    sum := SumWindow(g, pos[0], pos[1], d.batch, d.channel, d.z.ph, d.z.pw, startY, startX, endY - startY, endX - startX);
  }

  method AvgPoolingBackward(gradient: seq<real>, d: Dims, k: Pool) returns (out: seq<real>)
    requires d.Valid() && k.Valid() && |gradient| == NumElement(d.Output())
    ensures IsAvgBackward(gradient, out, d.z, k)
  {
    var n := NumElement(d.Input());
    var area := Area(k);
    var shares := Scaled(gradient, area);
    ShapePositive(d.batch, d.channel, d.z.h, d.z.w);
    out := [];
    var i: nat := 0;
    while i < n
      invariant i <= n && |out| == i
      invariant forall j :: 0 <= j < i ==> out[j] == HandedBackAt(shares, d, k, Unflat(j, d.Input()))
    {
      var outPos := UnflatIndex(i, d.Input());
      FlatOfUnflat(i, d.Input());
      var sum := SumOutputs(shares, d, k, outPos);
      out := out + [sum];
      i := i + 1;
    }
    AllHandedBack(gradient, out, d, k);
  }

  lemma AllHandedBack(gradient: seq<real>, out: seq<real>, d: Dims, k: Pool)
    requires d.Valid() && k.Valid() && |gradient| == NumElement(d.Output()) && |out| == NumElement(d.Input()) && Positive(d.Input())
    requires forall j :: 0 <= j < |out| ==> out[j] == HandedBackAt(Scaled(gradient, Area(k)), d, k, Unflat(j, d.Input()))
    ensures IsAvgBackward(gradient, out, d.z, k)
  {
    hide BackwardSum, Place, Unflat, NumElement, Scaled;
    SizesAgree(d);
    forall m: nat, y: nat, x: nat | m < d.z.planes && y < d.z.h && x < d.z.w
      ensures Place(m, y, x, d.z.h, d.z.w) < |out|
      ensures out[Place(m, y, x, d.z.h, d.z.w)] == BackwardSum(y, x, d.z.ph, d.z.pw, k, PlaneOf(Scaled(gradient, Area(k)), m, d.z.ph, d.z.pw))
    {
      PositionOf(m, y, x, d.batch, d.channel, d.z.h, d.z.w);
      PlaneBack(m, d.channel);
    }
  }

  // ----- max pooling -----

  /** The part of a window scanned after `i` whole rows and `j` elements of the next. */
  predicate Seen(y: int, x: int, top: int, left: int, i: nat, j: nat, l: nat)
  {
    left <= x < left + l && (top <= y < top + i || (y == top + i && x < left + j))
  }

  /** The running maximum over what was seen of the plane. */
  ghost predicate Best(data: seq<real>, m: nat, h: nat, w: nat, top: int, left: int, i: nat, j: nat, l: nat, lowest: real, max: real, maxIndex: nat)
  {
    && (|| (maxIndex == 0 && max == lowest && forall y: nat, x: nat {:trigger Seen(y, x, top, left, i, j, l)} :: y < h && x < w ==> !Seen(y, x, top, left, i, j, l))
        || (maxIndex < |data| && max == data[maxIndex]
            && exists y: nat, x: nat {:trigger Seen(y, x, top, left, i, j, l)} :: y < h && x < w && Seen(y, x, top, left, i, j, l) && maxIndex == Place(m, y, x, h, w)))
    && (forall y: nat, x: nat {:trigger Seen(y, x, top, left, i, j, l)} :: y < h && x < w && Seen(y, x, top, left, i, j, l) && Place(m, y, x, h, w) < |data| ==>
          data[Place(m, y, x, h, w)] <= max)
  }

  /** What was seen of the plane may be described in two ways. */
  lemma BestSame(data: seq<real>, m: nat, h: nat, w: nat, top: int, left: int, i: nat, j: nat, i': nat, j': nat, l: nat, lowest: real, max: real, maxIndex: nat)
    requires Best(data, m, h, w, top, left, i, j, l, lowest, max, maxIndex)
    requires forall y: nat, x: nat {:trigger Seen(y, x, top, left, i, j, l)} {:trigger Seen(y, x, top, left, i', j', l)} ::
               y < h && x < w ==> (Seen(y, x, top, left, i', j', l) <==> Seen(y, x, top, left, i, j, l))
    ensures Best(data, m, h, w, top, left, i', j', l, lowest, max, maxIndex)
  {
    hide Place, Seen;
  }

  lemma SeeOutside(data: seq<real>, m: nat, h: nat, w: nat, top: int, left: int, i: nat, j: nat, l: nat, lowest: real, max: real, maxIndex: nat)
    requires Best(data, m, h, w, top, left, i, j, l, lowest, max, maxIndex)
    requires j < l && !(0 <= top + i < h && 0 <= left + j < w)
    ensures Best(data, m, h, w, top, left, i, j + 1, l, lowest, max, maxIndex)
  {
    hide Best;
    BestSame(data, m, h, w, top, left, i, j, i, j + 1, l, lowest, max, maxIndex);
  }

  lemma SeeInside(data: seq<real>, m: nat, h: nat, w: nat, top: int, left: int, i: nat, j: nat, l: nat, lowest: real, max: real, maxIndex: nat)
    requires Best(data, m, h, w, top, left, i, j, l, lowest, max, maxIndex)
    requires j < l && 0 <= top + i < h && 0 <= left + j < w
    requires Place(m, top + i, left + j, h, w) < |data| && data[Place(m, top + i, left + j, h, w)] > lowest
    ensures var at := Place(m, top + i, left + j, h, w);
      Best(data, m, h, w, top, left, i, j + 1, l, lowest, if data[at] > max then data[at] else max, if data[at] > max then at else maxIndex)
  {
    hide Place, Seen;
    var at := Place(m, top + i, left + j, h, w);
    forall y: nat, x: nat | y < h && x < w
      ensures Seen(y, x, top, left, i, j, l) ==> Seen(y, x, top, left, i, j + 1, l)
      ensures Seen(y, x, top, left, i, j + 1, l) ==> Seen(y, x, top, left, i, j, l) || (y == top + i && x == left + j)
    {
      OneMoreSeen(y, x, top, left, i, j, l);
    }
    OneMoreSeen(top + i, left + j, top, left, i, j, l);
    var max' := if data[at] > max then data[at] else max;
    var maxIndex' := if data[at] > max then at else maxIndex;
    assert maxIndex' < |data| && max' == data[maxIndex'];
    assert exists y: nat, x: nat {:trigger Seen(y, x, top, left, i, j + 1, l)} ::
        y < h && x < w && Seen(y, x, top, left, i, j + 1, l) && maxIndex' == Place(m, y, x, h, w) by {
      if data[at] <= max {
        var y: nat, x: nat :| y < h && x < w && Seen(y, x, top, left, i, j, l) && maxIndex == Place(m, y, x, h, w);
        assert Seen(y, x, top, left, i, j + 1, l);
      } else {
        var y: nat, x: nat := top + i, left + j;
        assert Seen(y, x, top, left, i, j + 1, l);
      }
    }
    forall y: nat, x: nat | y < h && x < w && Seen(y, x, top, left, i, j + 1, l) && Place(m, y, x, h, w) < |data|
      ensures data[Place(m, y, x, h, w)] <= max'
    {
      assert Seen(y, x, top, left, i, j, l) || (y == top + i && x == left + j);
    }
  }

  lemma OneMoreSeen(y: int, x: int, top: int, left: int, i: nat, j: nat, l: nat)
    requires j < l
    ensures Seen(y, x, top, left, i, j + 1, l) <==> Seen(y, x, top, left, i, j, l) || (y == top + i && x == left + j)
  {
  }

  lemma NextRow(data: seq<real>, m: nat, h: nat, w: nat, top: int, left: int, i: nat, l: nat, lowest: real, max: real, maxIndex: nat)
    requires Best(data, m, h, w, top, left, i, l, l, lowest, max, maxIndex)
    ensures Best(data, m, h, w, top, left, i + 1, 0, l, lowest, max, maxIndex)
  {
    hide Best;
    BestSame(data, m, h, w, top, left, i, l, i + 1, 0, l, lowest, max, maxIndex);
  }

  /** The loops over a window for its greatest element; `lowest` is below every element. */
  method MaxWindow(data: seq<real>, n: nat, c: nat, a: nat, b: nat, h: nat, w: nat, top: int, left: int, k: nat, l: nat, lowest: real) returns (max: real, maxIndex: nat)
    requires n < a && c < b && |data| == NumElement([a, b, h, w]) && forall v :: v in data ==> v > lowest
    ensures Best(data, PlaneNumber(n, c, b), h, w, top, left, k, 0, l, lowest, max, maxIndex)
  {
    hide Best, Place, NumElement, Flat, PlaneNumber;
    ghost var m := PlaneNumber(n, c, b);
    max, maxIndex := lowest, 0;
    NothingSeen(data, m, h, w, top, left, l, lowest);
    var i: nat := 0;
    while i < k
      invariant i <= k && Best(data, m, h, w, top, left, i, 0, l, lowest, max, maxIndex)
    {
      var j: nat := 0;
      while j < l
        invariant j <= l && Best(data, m, h, w, top, left, i, j, l, lowest, max, maxIndex)
      {
        var y, x := top + i, left + j;
        if y < 0 || x < 0 || y >= h || x >= w {
          SeeOutside(data, m, h, w, top, left, i, j, l, lowest, max, maxIndex);
        } else {
          var inPos: seq<nat> := [n, c, y, x];
          var inIndex := FlatIndex(inPos, [a, b, h, w]);
          FlatBounded(inPos, [a, b, h, w]);
          FlatIsPlace(n, c, y, x, a, b, h, w);
          assert data[inIndex] in data;
          SeeInside(data, m, h, w, top, left, i, j, l, lowest, max, maxIndex);
          if data[inIndex] > max {
            max, maxIndex := data[inIndex], inIndex;
          }
        }
        j := j + 1;
      }
      NextRow(data, m, h, w, top, left, i, l, lowest, max, maxIndex);
      i := i + 1;
    }
  }

  lemma NothingSeen(data: seq<real>, m: nat, h: nat, w: nat, top: int, left: int, l: nat, lowest: real)
    ensures Best(data, m, h, w, top, left, 0, 0, l, lowest, lowest, 0)
  {
  }

  ghost predicate BestAt(data: seq<real>, d: Dims, k: Pool, pos: seq<nat>, lowest: real, max: real, maxIndex: nat)
    requires |pos| == 4
  {
    Best(data, PlaneNumber(pos[0], pos[1], d.channel), d.z.h, d.z.w,
         pos[2] * k.strideH - k.padH, pos[3] * k.strideW - k.padW, k.kernelH, 0, k.kernelW, lowest, max, maxIndex)
  }

  method MaxPoolingForward(data: seq<real>, d: Dims, k: Pool, lowest: real) returns (out: seq<real>, mask: seq<nat>)
    requires d.Valid() && k.Valid() && |data| == NumElement(d.Input()) && forall v :: v in data ==> v > lowest
    ensures IsMaxForward(data, out, mask, d.z, k)
  {
    hide BestAt;
    var n := NumElement(d.Output());
    ShapePositive(d.batch, d.channel, d.z.ph, d.z.pw);
    out, mask := [], [];
    var i: nat := 0;
    while i < n
      invariant i <= n && |out| == |mask| == i
      invariant forall j :: 0 <= j < i ==> BestAt(data, d, k, Unflat(j, d.Output()), lowest, out[j], mask[j])
    {
      var outPos := UnflatIndex(i, d.Output());
      FlatOfUnflat(i, d.Output());
      var max, maxIndex := WindowAt(data, d, k, outPos, lowest);
      out, mask := out + [max], mask + [maxIndex];
      i := i + 1;
    }
    AllBest(data, out, mask, d, k, lowest);
  }

  method WindowAt(data: seq<real>, d: Dims, k: Pool, pos: seq<nat>, lowest: real) returns (max: real, maxIndex: nat)
    requires d.Valid() && k.Valid() && |data| == NumElement(d.Input()) && InShape(pos, d.Output()) && forall v :: v in data ==> v > lowest
    ensures BestAt(data, d, k, pos, lowest, max, maxIndex)
  {
    max, maxIndex := MaxWindow(data, pos[0], pos[1], d.batch, d.channel, d.z.h, d.z.w,
                               pos[2] * k.strideH - k.padH, pos[3] * k.strideW - k.padW, k.kernelH, k.kernelW, lowest);
  }

  /** A whole window has been seen exactly where the output looks. */
  lemma SeenIsLooks(p: nat, q: nat, y: nat, x: nat, k: Pool)
    ensures Seen(y, x, p * k.strideH - k.padH, q * k.strideW - k.padW, k.kernelH, 0, k.kernelW) <==> Looks(p, q, y, x, k)
  {
  }

  lemma BestIsGreatest(data: seq<real>, z: Sizes, k: Pool, m: nat, p: nat, q: nat, lowest: real, max: real, maxIndex: nat)
    requires k.Valid() && m < z.planes && p < z.ph && q < z.pw && |data| == z.Inputs()
    requires Best(data, m, z.h, z.w, p * k.strideH - k.padH, q * k.strideW - k.padW, k.kernelH, 0, k.kernelW, lowest, max, maxIndex)
    ensures if Meets(p, q, z.h, z.w, k) then IsGreatest(data, z, k, m, p, q, maxIndex) && maxIndex < |data| && max == data[maxIndex] else maxIndex == 0
  {
    hide Place, Looks, Seen;
    var top, left := p * k.strideH - k.padH, q * k.strideW - k.padW;
    forall y: nat, x: nat | y < z.h && x < z.w
      ensures Seen(y, x, top, left, k.kernelH, 0, k.kernelW) <==> Looks(p, q, y, x, k)
    {
      SeenIsLooks(p, q, y, x, k);
    }
  }

  lemma AllBest(data: seq<real>, out: seq<real>, mask: seq<nat>, d: Dims, k: Pool, lowest: real)
    requires d.Valid() && k.Valid() && |data| == NumElement(d.Input()) && |out| == |mask| == NumElement(d.Output()) && Positive(d.Output())
    requires forall j :: 0 <= j < |out| ==> BestAt(data, d, k, Unflat(j, d.Output()), lowest, out[j], mask[j])
    ensures IsMaxForward(data, out, mask, d.z, k)
  {
    hide Place, Unflat, NumElement, Best, Meets, IsGreatest;
    SizesAgree(d);
    forall m: nat, p: nat, q: nat | m < d.z.planes && p < d.z.ph && q < d.z.pw
      ensures Place(m, p, q, d.z.ph, d.z.pw) < |out|
      ensures var i := Place(m, p, q, d.z.ph, d.z.pw);
        if Meets(p, q, d.z.h, d.z.w, k) then IsGreatest(data, d.z, k, m, p, q, mask[i]) && mask[i] < |data| && out[i] == data[mask[i]] else mask[i] == 0
    {
      var i := Place(m, p, q, d.z.ph, d.z.pw);
      PositionOf(m, p, q, d.batch, d.channel, d.z.ph, d.z.pw);
      PlaneBack(m, d.channel);
      BestIsGreatest(data, d.z, k, m, p, q, lowest, out[i], mask[i]);
    }
  }

  method MaxPoolingBackward(gradient: seq<real>, mask: seq<nat>, d: Dims, k: Pool) returns (out: seq<real>)
    requires d.Valid() && k.Valid() && |gradient| == |mask| == NumElement(d.Output())
    ensures IsMaxBackward(gradient, mask, out, d.z, k)
  {
    var n := NumElement(d.Input());
    ShapePositive(d.batch, d.channel, d.z.h, d.z.w);
    out := [];
    var i: nat := 0;
    while i < n
      invariant i <= n && |out| == i
      invariant forall j :: 0 <= j < i ==> out[j] == HandedBackAt(Selected(gradient, mask, j), d, k, Unflat(j, d.Input()))
    {
      var outPos := UnflatIndex(i, d.Input());
      FlatOfUnflat(i, d.Input());
      var sum := SumOutputs(Selected(gradient, mask, i), d, k, outPos);
      out := out + [sum];
      i := i + 1;
    }
    AllSelected(gradient, mask, out, d, k);
  }

  lemma AllSelected(gradient: seq<real>, mask: seq<nat>, out: seq<real>, d: Dims, k: Pool)
    requires d.Valid() && k.Valid() && |gradient| == |mask| == NumElement(d.Output()) && |out| == NumElement(d.Input()) && Positive(d.Input())
    requires forall j :: 0 <= j < |out| ==> out[j] == HandedBackAt(Selected(gradient, mask, j), d, k, Unflat(j, d.Input()))
    ensures IsMaxBackward(gradient, mask, out, d.z, k)
  {
    hide BackwardSum, Place, Unflat, NumElement, Selected;
    SizesAgree(d);
    forall m: nat, y: nat, x: nat | m < d.z.planes && y < d.z.h && x < d.z.w
      ensures Place(m, y, x, d.z.h, d.z.w) < |out|
      ensures var i := Place(m, y, x, d.z.h, d.z.w);
        out[i] == BackwardSum(y, x, d.z.ph, d.z.pw, k, PlaneOf(Selected(gradient, mask, i), m, d.z.ph, d.z.pw))
    {
      PositionOf(m, y, x, d.batch, d.channel, d.z.h, d.z.w);
      PlaneBack(m, d.channel);
    }
  }
}
