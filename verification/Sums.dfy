/** Finite sums of reals. */
module Sums {
  import Powers

  ghost function Sum(n: nat, f: int -> real): real
  {
    if n == 0 then 0.0 else Sum(n - 1, f) + f(n - 1)
  }

  lemma {:induction false} SumSame(n: nat, f: int -> real, g: int -> real)
    requires forall i :: 0 <= i < n ==> f(i) == g(i)
    ensures Sum(n, f) == Sum(n, g)
  {
    if n > 0 {
      SumSame(n - 1, f, g);
    }
  }

  lemma {:induction false} SumZero(n: nat, f: int -> real)
    requires forall i :: 0 <= i < n ==> f(i) == 0.0
    ensures Sum(n, f) == 0.0
  {
    if n > 0 {
      SumZero(n - 1, f);
    }
  }

  lemma {:induction false} SumAdd(n: nat, f: int -> real, g: int -> real, h: int -> real)
    requires forall i :: 0 <= i < n ==> h(i) == f(i) + g(i)
    ensures Sum(n, h) == Sum(n, f) + Sum(n, g)
  {
    if n > 0 {
      SumAdd(n - 1, f, g, h);
    }
  }

  lemma {:induction false} SumScale(n: nat, c: real, f: int -> real, h: int -> real)
    requires forall i :: 0 <= i < n ==> h(i) == c * f(i)
    ensures Sum(n, h) == c * Sum(n, f)
  {
    if n > 0 {
      SumScale(n - 1, c, f, h);
    }
  }

  lemma {:induction false} SumOnly(n: nat, k: nat, f: int -> real)
    requires forall i :: 0 <= i < n && i != k ==> f(i) == 0.0
    ensures Sum(n, f) == if k < n then f(k) else 0.0
  {
    if n > 0 {
      if k == n - 1 {
        SumZero(n - 1, f);
      } else {
        SumOnly(n - 1, k, f);
      }
    }
  }

  lemma {:induction false} SumSplit(a: nat, b: nat, f: int -> real)
    ensures Sum(a + b, f) == Sum(a, f) + Sum(b, i => f(a + i))
    decreases b
  {
    if b > 0 {
      SumSplit(a, b - 1, f);
    }
  }

  // ----- two axes -----

  type Plane = (int, int) -> real

  ghost function Row(f: Plane, i: int): (r: int -> real)
    ensures forall j :: r(j) == f(i, j)
  {
    j => f(i, j)
  }

  ghost function Sum2(n: nat, m: nat, f: Plane): real
  {
    if n == 0 then 0.0 else Sum2(n - 1, m, f) + Sum(m, Row(f, n - 1))
  }

  ghost function RowSums(f: Plane, m: nat): (r: int -> real)
    ensures forall i :: r(i) == Sum(m, Row(f, i))
  {
    i => Sum(m, Row(f, i))
  }

  lemma {:induction false} Sum2IsSum(n: nat, m: nat, f: Plane)
    ensures Sum2(n, m, f) == Sum(n, RowSums(f, m))
  {
    if n > 0 {
      Sum2IsSum(n - 1, m, f);
    }
  }

  lemma {:induction false} Sum2Same(n: nat, m: nat, f: Plane, g: Plane)
    requires forall i, j :: 0 <= i < n && 0 <= j < m ==> f(i, j) == g(i, j)
    ensures Sum2(n, m, f) == Sum2(n, m, g)
  {
    if n > 0 {
      Sum2Same(n - 1, m, f, g);
      SumSame(m, Row(f, n - 1), Row(g, n - 1));
    }
  }

  lemma {:induction false} Sum2Zero(n: nat, m: nat, f: Plane)
    requires forall i, j :: 0 <= i < n && 0 <= j < m ==> f(i, j) == 0.0
    ensures Sum2(n, m, f) == 0.0
  {
    if n > 0 {
      Sum2Zero(n - 1, m, f);
      SumZero(m, Row(f, n - 1));
    }
  }

  lemma {:induction false} Sum2Add(n: nat, m: nat, f: Plane, g: Plane, h: Plane)
    requires forall i, j :: 0 <= i < n && 0 <= j < m ==> h(i, j) == f(i, j) + g(i, j)
    ensures Sum2(n, m, h) == Sum2(n, m, f) + Sum2(n, m, g)
  {
    if n > 0 {
      Sum2Add(n - 1, m, f, g, h);
      SumAdd(m, Row(f, n - 1), Row(g, n - 1), Row(h, n - 1));
    }
  }

  lemma {:induction false} Sum2Scale(n: nat, m: nat, c: real, f: Plane, h: Plane)
    requires forall i, j :: 0 <= i < n && 0 <= j < m ==> h(i, j) == c * f(i, j)
    ensures Sum2(n, m, h) == c * Sum2(n, m, f)
  {
    if n > 0 {
      Sum2Scale(n - 1, m, c, f, h);
      SumScale(m, c, Row(f, n - 1), Row(h, n - 1));
    }
  }

  /** A sum with one element that is not zero. */
  lemma {:induction false} Sum2Only(n: nat, m: nat, k: nat, l: nat, f: Plane)
    requires forall i, j :: 0 <= i < n && 0 <= j < m && (i, j) != (k, l) ==> f(i, j) == 0.0
    ensures Sum2(n, m, f) == if k < n && l < m then f(k, l) else 0.0
  {
    if n > 0 {
      Sum2Only(n - 1, m, k, l, f);
      if k == n - 1 {
        Sum2Zero(n - 1, m, f);
        SumOnly(m, l, Row(f, n - 1));
      } else {
        SumZero(m, Row(f, n - 1));
      }
    }
  }

  /** Two sums that differ in one element. */
  lemma Sum2Changed(n: nat, m: nat, k: nat, l: nat, f: Plane, g: Plane)
    requires k < n && l < m
    requires forall i, j :: 0 <= i < n && 0 <= j < m && (i, j) != (k, l) ==> f(i, j) == g(i, j)
    ensures Sum2(n, m, g) - Sum2(n, m, f) == g(k, l) - f(k, l)
  {
    var change: Plane := (i, j) => g(i, j) - f(i, j);
    Sum2Only(n, m, k, l, change);
    Sum2Add(n, m, f, change, g);
  }

  /** A sum over places is a sum over rows and columns. */
  lemma {:induction false} SumProduct(a: nat, b: nat, u: Plane, f: int -> real)
    requires b > 0 && forall x, y :: 0 <= x < a && 0 <= y < b ==> u(x, y) == f(x * b + y)
    ensures a * b >= 0
    ensures Sum(a * b, f) == Sum2(a, b, u)
  {
    Powers.MulNat(a, b);
    if a > 0 {
      Powers.MulNat(a - 1, b);
      assert a * b == (a - 1) * b + b;
      SumProduct(a - 1, b, u, f);
      SumSplit((a - 1) * b, b, f);
      SumSame(b, i => f((a - 1) * b + i), Row(u, a - 1));
    }
  }

  // ----- exchanging sums over two planes -----

  type Kernel = (int, int, int, int) -> real

  ghost function Slice(t: Kernel, p: int, q: int): (r: Plane)
    ensures forall y, x :: r(y, x) == t(p, q, y, x)
  {
    (y, x) => t(p, q, y, x)
  }

  ghost function Coslice(t: Kernel, y: int, x: int): (r: Plane)
    ensures forall p, q :: r(p, q) == t(p, q, y, x)
  {
    (p, q) => t(p, q, y, x)
  }

  ghost function Inner(t: Kernel, h: nat, w: nat): Plane { (p, q) => Sum2(h, w, Slice(t, p, q)) }

  ghost function Outer(t: Kernel, n: nat, m: nat): Plane { (y, x) => Sum2(n, m, Coslice(t, y, x)) }

  ghost function RowTotal(t: Kernel, p: int, m: nat): Plane { (y, x) => Sum(m, Row(Coslice(t, y, x), p)) }

  lemma {:induction false} ExchangeRow(p: int, m: nat, h: nat, w: nat, t: Kernel)
    ensures Sum(m, Row(Inner(t, h, w), p)) == Sum2(h, w, RowTotal(t, p, m))
    decreases m
  {
    if m == 0 {
      Sum2Zero(h, w, RowTotal(t, p, 0));
    } else {
      ExchangeRow(p, m - 1, h, w, t);
      Sum2Add(h, w, RowTotal(t, p, m - 1), Slice(t, p, m - 1), RowTotal(t, p, m));
    }
  }

  /** Summing a kernel over one plane and then the other does not depend on which comes first. */
  lemma {:induction false} Exchange(n: nat, m: nat, h: nat, w: nat, t: Kernel)
    ensures Sum2(n, m, Inner(t, h, w)) == Sum2(h, w, Outer(t, n, m))
    decreases n
  {
    if n == 0 {
      Sum2Zero(h, w, Outer(t, 0, m));
    } else {
      Exchange(n - 1, m, h, w, t);
      ExchangeRow(n - 1, m, h, w, t);
      Sum2Add(h, w, Outer(t, n - 1, m), RowTotal(t, n - 1, m), Outer(t, n, m));
    }
  }

  // ----- windows -----

  /** A guarded element of a row. */
  ghost function Inside(y: int, len: nat, f: int -> real): real
  {
    if 0 <= y < len then f(y) else 0.0
  }

  lemma OneElement(t: int, len: nat, f: int -> real, g: int -> real)
    requires forall y :: 0 <= y < len ==> g(y) == if y == t then f(y) else 0.0
    ensures Sum(len, g) == Inside(t, len, f)
  {
    if t >= 0 {
      SumOnly(len, t, g);
    } else {
      SumZero(len, g);
    }
  }

  /** Walking a window over a row sums the elements of the row that lie in the window. */
  lemma {:induction false} WindowSum(c: int, k: nat, len: nat, f: int -> real, walk: int -> real, inWindow: int -> real)
    requires forall h :: 0 <= h < k ==> walk(h) == Inside(c + h, len, f)
    requires forall y :: 0 <= y < len ==> inWindow(y) == if c <= y < c + k then f(y) else 0.0
    ensures Sum(k, walk) == Sum(len, inWindow)
  {
    if k == 0 {
      SumZero(len, inWindow);
    } else {
      var before := (y: int) => if c <= y < c + (k - 1) then f(y) else 0.0;
      var last := (y: int) => if y == c + (k - 1) then f(y) else 0.0;
      WindowSum(c, k - 1, len, f, walk, before);
      SumAdd(len, before, last, inWindow);
      OneElement(c + (k - 1), len, f, last);
    }
  }
}
