/** Positions in a tensor and in its flat data, and the operators that only move elements. */
module TensorIndex {
  import Powers

  type Shape = seq<nat>

  function NumElement(size: Shape): nat
  {
    if size == [] then 1
    else
      Powers.MulNat(size[0], NumElement(size[1..]));
      size[0] * NumElement(size[1..])
  }

  ghost predicate Positive(size: Shape)
  {
    forall k :: 0 <= k < |size| ==> size[k] > 0
  }

  ghost predicate InShape(index: seq<nat>, size: Shape)
  {
    |index| == |size| && forall k :: 0 <= k < |size| ==> index[k] < size[k]
  }

  /** Row-major place of a position. */
  function Flat(index: seq<nat>, size: Shape): nat
    requires |index| == |size|
  {
    if size == [] then 0
    else
      Powers.MulNat(index[0], NumElement(size[1..]));
      index[0] * NumElement(size[1..]) + Flat(index[1..], size[1..])
  }

  lemma {:induction false} NumElementPositive(size: Shape)
    requires Positive(size)
    ensures NumElement(size) > 0
  {
    if size != [] {
      NumElementPositive(size[1..]);
      Powers.MulAtLeast(size[0], NumElement(size[1..]));
    }
  }

  /** The position at a place. */
  function Unflat(i: nat, size: Shape): (r: seq<nat>)
    requires Positive(size)
    ensures |r| == |size|
  {
    if size == [] then []
    else
      NumElementPositive(size[1..]);
      Powers.DivMod(i, NumElement(size[1..]));
      [i / NumElement(size[1..])] + Unflat(i % NumElement(size[1..]), size[1..])
  }

  lemma {:induction false} FlatBounded(index: seq<nat>, size: Shape)
    requires InShape(index, size)
    ensures Flat(index, size) < NumElement(size)
  {
    if size != [] {
      FlatBounded(index[1..], size[1..]);
      var n := NumElement(size[1..]);
      assert (index[0] + 1) * n <= size[0] * n by {
        Powers.MulNat(size[0] - index[0] - 1, n);
        assert size[0] * n == (index[0] + 1) * n + (size[0] - index[0] - 1) * n;
      }
      assert (index[0] + 1) * n == index[0] * n + n;
    }
  }

  lemma QuotientBelow(i: nat, a: nat, n: nat)
    requires n > 0 && i < a * n
    ensures 0 <= i / n < a
  {
    Powers.DivMod(i, n);
    NotAbove(i / n, a, n);
  }

  lemma NotAbove(q: nat, a: nat, n: nat)
    ensures q >= a ==> q * n >= a * n
  {
    if q >= a {
      Powers.MulNat(q - a, n);
      assert q * n == a * n + (q - a) * n;
    }
  }

  /** From place to position and back. */
  lemma {:induction false} FlatOfUnflat(i: nat, size: Shape)
    requires Positive(size) && i < NumElement(size)
    ensures InShape(Unflat(i, size), size) && Flat(Unflat(i, size), size) == i
  {
    if size != [] {
      var n := NumElement(size[1..]);
      NumElementPositive(size[1..]);
      Powers.DivMod(i, n);
      QuotientBelow(i, size[0], n);
      FlatOfUnflat(i % n, size[1..]);
      assert Unflat(i, size)[1..] == Unflat(i % n, size[1..]);
    }
  }

  /** From position to place and back. */
  lemma {:induction false} UnflatOfFlat(index: seq<nat>, size: Shape)
    requires InShape(index, size)
    ensures Positive(size) && Unflat(Flat(index, size), size) == index
  {
    if size != [] {
      var n := NumElement(size[1..]);
      UnflatOfFlat(index[1..], size[1..]);
      FlatBounded(index[1..], size[1..]);
      Powers.DivModUnique(Flat(index, size), n, index[0], Flat(index[1..], size[1..]));
      assert index == [index[0]] + index[1..];
    }
  }

  /** Row-major: a step along an axis passes over all the elements of the later axes. */
  lemma {:induction false} FlatStep(index: seq<nat>, size: Shape, k: nat)
    requires |index| == |size| && k < |size|
    ensures Flat(index[k := index[k] + 1], size) == Flat(index, size) + NumElement(size[k + 1..])
  {
    var next := index[k := index[k] + 1];
    if k == 0 {
      assert next[1..] == index[1..];
      assert (index[0] + 1) * NumElement(size[1..]) == index[0] * NumElement(size[1..]) + NumElement(size[1..]);
    } else {
      FlatStep(index[1..], size[1..], k - 1);
      assert next[1..] == index[1..][k - 1 := index[1..][k - 1] + 1];
      assert size[1..][k..] == size[k + 1..];
    }
  }

  lemma {:induction false} FlatOrigin(index: seq<nat>, size: Shape)
    requires |index| == |size| && forall k :: 0 <= k < |index| ==> index[k] == 0
    ensures Flat(index, size) == 0
  {
    if size != [] {
      FlatOrigin(index[1..], size[1..]);
    }
  }

  // ----- the loops -----

  /** `flatIndex`: from the last axis to the first. */
  method FlatIndex(index: seq<nat>, size: Shape) returns (out: nat)
    requires |index| == |size|
    ensures out == Flat(index, size)
  {
    out := 0;
    var accumulatedSize: nat := 1;
    var i: nat := |size|;
    while i > 0
      invariant i <= |size| && accumulatedSize == NumElement(size[i..]) && out == Flat(index[i..], size[i..])
    {
      i := i - 1;
      assert size[i..][1..] == size[i + 1..] && index[i..][1..] == index[i + 1..];
      Powers.MulNat(index[i], accumulatedSize);
      Powers.MulNat(size[i], accumulatedSize);
      out := out + index[i] * accumulatedSize;
      accumulatedSize := accumulatedSize * size[i];
    }
    assert size[0..] == size && index[0..] == index;
  }

  /** `unflatIndex`: from the first axis to the last. */
  method UnflatIndex(flatIndex: nat, size: Shape) returns (out: seq<nat>)
    requires Positive(size)
    ensures out == Unflat(flatIndex, size)
  {
    var accumulatedSize := NumElement(size);
    var rest: nat := flatIndex;
    out := [];
    var i: nat := 0;
    assert size[0..] == size;
    while i < |size|
      invariant i <= |size| && Positive(size[i..]) && accumulatedSize == NumElement(size[i..])
      invariant out + Unflat(rest, size[i..]) == Unflat(flatIndex, size)
    {
      assert size[i..][1..] == size[i + 1..];
      NumElementPositive(size[i + 1..]);
      ExactQuotient(size[i], NumElement(size[i + 1..]));
      accumulatedSize := accumulatedSize / size[i];
      Powers.DivMod(rest, accumulatedSize);
      out := out + [rest / accumulatedSize];
      rest := rest - rest / accumulatedSize * accumulatedSize;
      i := i + 1;
    }
  }

  lemma ExactQuotient(a: nat, n: nat)
    requires a > 0
    ensures a * n / a == n
  {
    Powers.DivModUnique(a * n, a, n, 0);
  }

  // ----- reordering axes -----

  ghost predicate Inverse(order: seq<nat>, inv: seq<nat>)
  {
    && |inv| == |order|
    && (forall j :: 0 <= j < |order| ==> order[j] < |order| && inv[order[j]] == j)
    && (forall k :: 0 <= k < |inv| ==> inv[k] < |inv| && order[inv[k]] == k)
  }

  function Permuted(s: seq<nat>, order: seq<nat>): (r: seq<nat>)
    requires forall j :: 0 <= j < |order| ==> order[j] < |s|
    ensures |r| == |order| && forall j :: 0 <= j < |order| ==> r[j] == s[order[j]]
  {
    seq(|order|, j requires 0 <= j < |order| => s[order[j]])
  }

  lemma PermutedBack(s: seq<nat>, order: seq<nat>, inv: seq<nat>)
    requires Inverse(order, inv) && |s| == |order|
    ensures Permuted(Permuted(s, order), inv) == s
  {
  }

  lemma PermutedInShape(index: seq<nat>, size: Shape, order: seq<nat>, inv: seq<nat>)
    requires Inverse(order, inv) && |size| == |order| && InShape(index, Permuted(size, order))
    ensures InShape(Permuted(index, inv), size)
  {
    forall k | 0 <= k < |size|
      ensures Permuted(index, inv)[k] < size[k]
    {
      assert order[inv[k]] == k;
    }
  }

  /** The input place that a place of the transposed tensor is filled from. */
  function Source(i: nat, size: Shape, order: seq<nat>, inv: seq<nat>): (r: nat)
    requires Inverse(order, inv) && |size| == |order| && Positive(size) && i < NumElement(Permuted(size, order))
    ensures r < NumElement(size)
  {
    var outSize := Permuted(size, order);
    FlatOfUnflat(i, outSize);
    PermutedInShape(Unflat(i, outSize), size, order, inv);
    FlatBounded(Permuted(Unflat(i, outSize), inv), size);
    Flat(Permuted(Unflat(i, outSize), inv), size)
  }

  ghost predicate IsTransposed<T>(data: seq<T>, out: seq<T>, size: Shape, order: seq<nat>, inv: seq<nat>)
    requires Inverse(order, inv) && |size| == |order| && Positive(size) && |data| == NumElement(size)
  {
    |out| == NumElement(Permuted(size, order)) && forall i :: 0 <= i < |out| ==> out[i] == data[Source(i, size, order, inv)]
  }

  lemma InverseSymmetric(order: seq<nat>, inv: seq<nat>)
    requires Inverse(order, inv)
    ensures Inverse(inv, order)
  {
  }

  /** Going there and back through the two orders reaches the same place. */
  lemma SourceBack(i: nat, size: Shape, order: seq<nat>, inv: seq<nat>)
    requires Inverse(order, inv) && |size| == |order| && Positive(size) && i < NumElement(size)
    ensures Inverse(inv, order) && Positive(Permuted(size, order)) && Permuted(Permuted(size, order), inv) == size
    ensures Source(i, Permuted(size, order), inv, order) < NumElement(Permuted(size, order))
    ensures Source(Source(i, Permuted(size, order), inv, order), size, order, inv) == i
  {
    InverseSymmetric(order, inv);
    PermutedBack(size, order, inv);
    var mid := Permuted(size, order);
    var pos := Unflat(i, size);
    FlatOfUnflat(i, size);
    PermutedInShape(pos, mid, inv, order);
    UnflatOfFlat(Permuted(pos, order), mid);
    PermutedBack(pos, order, inv);
  }

  /** Transposing by an order and then by its inverse restores the shape and the data. */
  lemma TransposeTwice<T>(data: seq<T>, mid: seq<T>, out: seq<T>, size: Shape, order: seq<nat>, inv: seq<nat>)
    requires Inverse(order, inv) && |size| == |order| && Positive(size) && |data| == NumElement(size)
    requires IsTransposed(data, mid, size, order, inv)
    requires Inverse(inv, order) && Positive(Permuted(size, order)) && IsTransposed(mid, out, Permuted(size, order), inv, order)
    ensures Permuted(Permuted(size, order), inv) == size && out == data
  {
    PermutedBack(size, order, inv);
    forall i | 0 <= i < |out|
      ensures out[i] == data[i]
    {
      SourceBack(i, size, order, inv);
    }
  }

  /** `Transpose`: every place of the output is filled from the position whose axes are put back. */
  method Transpose<T(0)>(data: seq<T>, size: Shape, order: seq<nat>, ghost inv: seq<nat>) returns (out: seq<T>, outSize: Shape)
    requires Inverse(order, inv) && |size| == |order| && Positive(size) && |data| == NumElement(size)
    ensures outSize == Permuted(size, order) && IsTransposed(data, out, size, order, inv)
    ensures forall p, q {:trigger Flat(p, size), Flat(q, outSize)} ::
      InShape(p, size) && |q| == |p| && (forall j :: 0 <= j < |order| ==> q[j] == p[order[j]]) ==>
        Flat(q, outSize) < |out| && Flat(p, size) < |data| && out[Flat(q, outSize)] == data[Flat(p, size)]
  {
    outSize := Permuted(size, order);
    out := [];
    var n := NumElement(outSize);
    var i: nat := 0;
    while i < n
      invariant i <= n && |out| == i && forall k :: 0 <= k < i ==> out[k] == data[Source(k, size, order, inv)]
    {
      var outputIndex := UnflatIndex(i, outSize);
      FlatOfUnflat(i, outSize);
      PermutedInShape(outputIndex, size, order, inv);
      var inputIndex := PutBack(outputIndex, order, inv);
      var place := FlatIndex(inputIndex, size);
      FlatBounded(inputIndex, size);
      out := out + [data[place]];
      i := i + 1;
    }
    forall p, q |
      InShape(p, size) && |q| == |p| && (forall j :: 0 <= j < |order| ==> q[j] == p[order[j]])
      ensures Flat(q, outSize) < |out| && Flat(p, size) < |data| && out[Flat(q, outSize)] == data[Flat(p, size)]
    {
      TransposedAt(data, out, size, order, inv, p, q);
    }
  }

  /** By positions: the element at `p` goes to the position whose axis `j` is axis `order[j]` of `p`. */
  lemma TransposedAt<T>(data: seq<T>, out: seq<T>, size: Shape, order: seq<nat>, inv: seq<nat>, p: seq<nat>, q: seq<nat>)
    requires Inverse(order, inv) && |size| == |order| && Positive(size) && |data| == NumElement(size)
    requires IsTransposed(data, out, size, order, inv)
    requires InShape(p, size) && |q| == |p| && forall j :: 0 <= j < |order| ==> q[j] == p[order[j]]
    ensures var outSize := Permuted(size, order);
      Flat(q, outSize) < |out| && Flat(p, size) < |data| && out[Flat(q, outSize)] == data[Flat(p, size)]
  {
    hide Flat, Unflat, NumElement;
    var outSize := Permuted(size, order);
    assert q == Permuted(p, order);
    FlatBounded(p, size);
    FlatBounded(q, outSize);
    UnflatOfFlat(q, outSize);
    PermutedBack(p, order, inv);
    assert Source(Flat(q, outSize), size, order, inv) == Flat(p, size);
  }

  /** The inner loop: each axis of the output position is written to its place in the input position. */
  method PutBack(outputIndex: seq<nat>, order: seq<nat>, ghost inv: seq<nat>) returns (inputIndex: seq<nat>)
    requires Inverse(order, inv) && |outputIndex| == |order|
    ensures inputIndex == Permuted(outputIndex, inv)
  {
    inputIndex := seq(|outputIndex|, _ => 0);
    var j: nat := 0;
    while j < |order|
      invariant j <= |order| && |inputIndex| == |order|
      invariant forall k :: 0 <= k < |inputIndex| && inv[k] < j ==> inputIndex[k] == outputIndex[inv[k]]
    {
      inputIndex := inputIndex[order[j] := outputIndex[j]];
      j := j + 1;
    }
  }

  // ----- rotating -----

  /** The position half a turn away in the last two axes. */
  function HalfTurn(pos: seq<nat>, size: Shape): (r: seq<nat>)
    requires |pos| == |size| >= 2 && pos[|pos| - 1] < size[|pos| - 1] && pos[|pos| - 2] < size[|pos| - 2]
    ensures |r| == |pos|
  {
    var n := |pos|;
    pos[n - 1 := size[n - 1] - pos[n - 1] - 1][n - 2 := size[n - 2] - pos[n - 2] - 1]
  }

  /** The place half a turn away. */
  function Turned(i: nat, size: Shape): (r: nat)
    requires |size| >= 2 && Positive(size) && i < NumElement(size)
    ensures r < NumElement(size)
  {
    FlatOfUnflat(i, size);
    FlatBounded(HalfTurn(Unflat(i, size), size), size);
    Flat(HalfTurn(Unflat(i, size), size), size)
  }

  function Rotated180<T>(data: seq<T>, size: Shape): (r: seq<T>)
    requires |size| >= 2 && Positive(size) && |data| == NumElement(size)
    ensures |r| == |data|
  {
    seq(|data|, i requires 0 <= i < |data| => data[Turned(i, size)])
  }

  lemma TurnedBack(i: nat, size: Shape)
    requires |size| >= 2 && Positive(size) && i < NumElement(size)
    ensures Turned(Turned(i, size), size) == i
  {
    hide Flat, Unflat, NumElement;
    FlatOfUnflat(i, size);
    var pos := Unflat(i, size);
    var there := HalfTurn(pos, size);
    FlatBounded(there, size);
    UnflatOfFlat(there, size);
    assert HalfTurn(there, size) == pos;
  }

  /** Two half turns are none. */
  lemma RotateTwice<T>(data: seq<T>, size: Shape)
    requires |size| >= 2 && Positive(size) && |data| == NumElement(size)
    ensures Rotated180(Rotated180(data, size), size) == data
  {
    hide Turned;
    forall i | 0 <= i < |data|
      ensures Rotated180(Rotated180(data, size), size)[i] == data[i]
    {
      TurnedBack(i, size);
    }
  }

  /** Half a turn apart: the same position before the last two axes, mirrored on both of them. */
  ghost predicate Opposite(p: seq<nat>, q: seq<nat>, size: Shape)
    requires |size| >= 2
  {
    && InShape(p, size) && InShape(q, size)
    && (forall k :: 0 <= k < |size| - 2 ==> p[k] == q[k])
    && (forall k :: |size| - 2 <= k < |size| ==> p[k] + q[k] + 1 == size[k])
  }

  lemma OppositePlace(p: seq<nat>, q: seq<nat>, size: Shape)
    requires |size| >= 2 && Opposite(p, q, size)
    ensures Positive(size) && Flat(p, size) < NumElement(size) && Flat(q, size) < NumElement(size)
    ensures Turned(Flat(p, size), size) == Flat(q, size)
  {
    hide Flat, Unflat, NumElement;
    FlatBounded(p, size);
    FlatBounded(q, size);
    UnflatOfFlat(p, size);
    assert HalfTurn(p, size) == q;
  }

  /** The element at each position comes from the position half a turn away. */
  method Rotate180<T>(data: seq<T>, size: Shape) returns (out: seq<T>)
    requires |size| >= 2 && Positive(size) && |data| == NumElement(size)
    ensures out == Rotated180(data, size)
    ensures forall p, q {:trigger Flat(p, size), Flat(q, size)} :: Opposite(p, q, size) ==>
      Flat(p, size) < |out| && Flat(q, size) < |data| && out[Flat(p, size)] == data[Flat(q, size)]
  {
    out := [];
    var i: nat := 0;
    while i < |data|
      invariant i <= |data| && |out| == i && forall k :: 0 <= k < i ==> out[k] == Rotated180(data, size)[k]
    {
      var outPos := UnflatIndex(i, size);
      FlatOfUnflat(i, size);
      var n := |outPos|;
      var inPos := outPos[n - 1 := size[n - 1] - outPos[n - 1] - 1];
      inPos := inPos[n - 2 := size[n - 2] - outPos[n - 2] - 1];
      FlatBounded(inPos, size);
      var place := FlatIndex(inPos, size);
      out := out + [data[place]];
      i := i + 1;
    }
    forall p, q | Opposite(p, q, size)
      ensures Flat(p, size) < |out| && Flat(q, size) < |data| && out[Flat(p, size)] == data[Flat(q, size)]
    {
      OppositePlace(p, q, size);
    }
  }
}
