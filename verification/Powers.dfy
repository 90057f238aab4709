/** Powers of two and the division facts the address arithmetic rests on. */
module Powers {
  function Pow2(n: nat): (r: nat)
    ensures r >= 1
  {
    if n == 0 then 1 else 2 * Pow2(n - 1)
  }

  lemma {:induction false} Pow2Add(a: nat, b: nat)
    ensures Pow2(a + b) == Pow2(a) * Pow2(b)
  {
    if a == 0 {
    } else {
      Pow2Add(a - 1, b);
      assert Pow2(a + b) == 2 * Pow2(a - 1 + b);
      assert 2 * (Pow2(a - 1) * Pow2(b)) == Pow2(a) * Pow2(b);
    }
  }

  lemma {:induction false} Pow2Monotone(a: nat, b: nat)
    requires a <= b
    ensures Pow2(a) <= Pow2(b)
  {
    if a < b {
      Pow2Monotone(a, b - 1);
    }
  }

  lemma QuotientUnique(d: nat, q: nat, r: nat, q': nat, r': nat)
    requires r < d && r' < d && q * d + r == q' * d + r'
    ensures q == q' && r == r'
  {
    if q < q' {
      MulAtLeast(q' - q, d);
    } else if q > q' {
      MulAtLeast(q - q', d);
    }
  }

  lemma MulAtLeast(k: nat, d: nat)
    requires k > 0
    ensures k * d >= d
  {
    assert k * d == d + (k - 1) * d;
  }

  lemma MulNat(a: nat, b: nat)
    ensures a * b >= 0
  {
  }

  lemma DivMod(x: nat, d: nat)
    requires d > 0
    ensures 0 <= x / d && 0 <= x % d < d && x == (x / d) * d + x % d
  {
  }

  /** A quotient and a remainder that fit determine the number's `/` and `%`. */
  lemma DivModUnique(x: nat, d: nat, q: nat, r: nat)
    requires d > 0 && r < d && x == q * d + r
    ensures x / d == q && x % d == r
  {
    DivMod(x, d);
    QuotientUnique(d, q, r, x / d, x % d);
  }

  /** Dividing twice is dividing by the product. */
  lemma DivDiv(x: nat, a: nat, b: nat)
    requires a > 0 && b > 0
    ensures a * b > 0 && x / a >= 0 && (x / a) / b == x / (a * b)
  {
    DivMod(x, a);
    var q, r := x / a, x % a;
    DivMod(q, b);
    var q', r' := q / b, q % b;
    NestedRemainder(a, b, q', r', r);
    DivModUnique(x, a * b, q', r' * a + r);
  }

  lemma NestedRemainder(a: nat, b: nat, q': nat, r': nat, r: nat)
    requires r < a && r' < b
    ensures a * b > 0 && r' * a + r < a * b
    ensures (q' * b + r') * a + r == q' * (a * b) + (r' * a + r)
  {
    assert (r' + 1) * a <= b * a by {
      assert b * a == (r' + 1) * a + (b - (r' + 1)) * a;
    }
    assert (q' * b + r') * a == q' * (a * b) + r' * a;
  }
}
