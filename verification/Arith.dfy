/** The few facts about products that the solver needs help with. */
module Arith {
  lemma MulMono(a: nat, b: int, c: int)
    requires b <= c
    ensures a * b <= a * c
  {
    assert a * (c - b) >= 0;
  }

  lemma MulMono2(a: nat, b: nat, c: nat, d: nat)
    requires a <= c && b <= d
    ensures a * b <= c * d
  {
    MulMono(a, b, d);
    MulMono(d, a, c);
  }

  /** A quotient is exceeded exactly when the product is. */
  lemma AboveQuotient(a: int, k: int, b: int)
    requires b > 0
    ensures a > k / b <==> a * b > k
  {
    var q := k / b;
    assert k == q * b + k % b;
    if a > q {
      MulMono(b, q + 1, a);
    } else {
      MulMono(b, a, q);
    }
  }

  lemma QuotientFits(k: int, b: int)
    requires b > 0
    ensures b * (k / b) <= k
  {
    assert k == (k / b) * b + k % b;
  }

  /** A number and its two digits in base `b` determine each other. */
  lemma DigitsOf(q: nat, r: nat, b: nat)
    requires r < b
    ensures (q * b + r) / b == q && (q * b + r) % b == r
  {
    var n := q * b + r;
    AboveQuotient(q + 1, n, b);
    AboveQuotient(q, n, b);
    if q > n / b {
      assert false;
    }
    assert n == (n / b) * b + n % b;
  }

  lemma DigitsInRange(q: nat, r: nat, b: nat, h: nat)
    requires r < b && q < h
    ensures 0 <= q * b + r < h * b
  {
    MulMono(b, q + 1, h);
  }

  /** Where a row starts, in an array of rows. */
  function RowStart(width: nat, row: nat): nat {
    row * width
  }

  lemma FirstRow(width: nat, rows: nat)
    ensures RowStart(width, 0) == 0 <= RowStart(width, rows)
  {
  }

  lemma NextRow(width: nat, row: nat, rows: nat)
    requires row < rows
    ensures RowStart(width, row + 1) == RowStart(width, row) + width <= RowStart(width, rows)
  {
    MulMono(width, row + 1, rows);
  }

  lemma RowOf(width: nat, row: nat, i: nat)
    requires i < width
    ensures (RowStart(width, row) + i) / width == row && (RowStart(width, row) + i) % width == i
  {
    DigitsOf(row, i, width);
  }

  /** The integer part of a square root. */
  function FloorSqrt(n: nat): (r: nat)
    ensures r * r <= n < (r + 1) * (r + 1)
  {
    if n == 0 then 0
    else
      var r := FloorSqrt(n - 1);
      if (r + 1) * (r + 1) <= n then r + 1 else r
  }

  lemma RootOf(n: nat, r: nat)
    requires r * r <= n < (r + 1) * (r + 1)
    ensures FloorSqrt(n) == r
  {
    var q := FloorSqrt(n);
    if q < r { MulMono2(q + 1, q + 1, r, r); }
    if r < q { MulMono2(r + 1, r + 1, q, q); }
  }

  lemma FitsQuotient(a: int, n: int, d: int)
    requires d > 0
    ensures a <= n / d <==> a * d <= n
  {
    if a <= n / d {
      MulMono(d, a, n / d);
      QuotientFits(n, d);
    } else {
      AboveQuotient(a, n, d);
    }
  }

  /** The largest number whose square, taken `d` times, fits into `n`. */
  lemma RootOfQuotient(n: nat, d: nat, r: nat)
    requires d > 0
    ensures FloorSqrt(n / d) == r <==> r * r * d <= n < (r + 1) * (r + 1) * d
  {
    AboveQuotient((r + 1) * (r + 1), n, d);
    AboveQuotient(r * r, n, d);
    FitsQuotient(r * r, n, d);
    if r * r * d <= n < (r + 1) * (r + 1) * d {
      RootOf(n / d, r);
    }
  }
}
