/** Two's-complement 64-bit arithmetic on mathematical integers. */
module Int64 {
  const MAX: int := 0x7FFF_FFFF_FFFF_FFFF
  const MODULUS: int := 0x1_0000_0000_0000_0000

  predicate Fits(x: int) {
    -MAX - 1 <= x <= MAX
  }

  function Wrap(x: int): (r: int)
    ensures Fits(r) && (Fits(x) ==> r == x)
  {
    (x + MAX + 1) % MODULUS - MAX - 1
  }

  /** The result is off by a whole number of turns. */
  lemma WrapTurns(x: int) returns (turns: int)
    ensures x == Wrap(x) + turns * MODULUS
    ensures !Fits(x) && x > 0 ==> turns >= 1
  {
    turns := (x + MAX + 1) / MODULUS;
  }

  /** Adding two non-negative words goes negative exactly when the sum does not fit. */
  lemma SumOverflow(a: int, b: int)
    requires 0 <= a <= MAX && 0 <= b <= MAX
    ensures Wrap(a + b) < 0 <==> a + b > MAX
  {
  }

  /**
   The product test of parsePromStyleDuration: the wrapped product is negative, or dividing it by
   the unit does not give the number back, exactly when the true product does not fit.
   */
  lemma {:induction false} ProductOverflow(num: int, unit: int)
    requires 0 <= num <= MAX && 0 < unit <= MAX
    ensures var term := Wrap(num * unit);
            (term < 0 || (num != 0 && term / unit != num)) <==> num * unit > MAX
    ensures num * unit <= MAX ==> Wrap(num * unit) == num * unit
  {
    hide Wrap;
    var product := num * unit;
    assert product >= 0;
    if product <= MAX {
      QuotientOfProduct(num, unit);
    } else {
      OverflowIsSeen(num, unit, product);
    }
  }

  lemma OverflowIsSeen(num: int, unit: int, product: int)
    requires 0 <= num && 0 < unit <= MAX && product == num * unit > MAX
    ensures Wrap(product) < 0 || (num != 0 && Wrap(product) / unit != num)
  {
    hide Wrap;
    var turns := WrapTurns(product);
    if Wrap(product) >= 0 {
      assert Wrap(product) <= product - MODULUS;
      SmallerQuotient(num, unit, Wrap(product));
    }
  }

  /** The product test of sumSelectorBytes, made before multiplying. */
  lemma {:induction false} DivisionTest(x: int, count: int)
    requires 0 <= x && 0 < count
    ensures x > MAX / count <==> x * count > MAX
  {
    var q := MAX / count;
    assert q * count <= MAX < (q + 1) * count;
    if x > q {
      ProductMonotone(q + 1, x, count);
    } else {
      ProductMonotone(x, q, count);
    }
  }

  lemma {:induction false} QuotientOfProduct(num: int, unit: int)
    requires 0 <= num && 0 < unit
    ensures num * unit / unit == num
  {
    QuotientIs(num * unit, unit, num);
  }

  lemma {:induction false} QuotientIs(x: int, unit: int, q: int)
    requires 0 < unit && q * unit <= x < q * unit + unit
    ensures x / unit == q
  {
    var r := x / unit;
    assert r * unit <= x < (r + 1) * unit && (q + 1) * unit == q * unit + unit;
    LessFactor(r, q + 1, unit);
    LessFactor(q, r + 1, unit);
  }

  lemma SmallerQuotient(num: int, unit: int, term: int)
    requires 0 <= num && 0 < unit <= MAX && 0 <= term <= num * unit - MODULUS
    ensures term / unit < num
  {
    var q := term / unit;
    assert q * unit <= term < num * unit;
    LessFactor(q, num, unit);
  }

  lemma LessFactor(a: int, b: int, unit: int)
    requires 0 < unit && a * unit < b * unit
    ensures a < b
  {
    if b <= a {
      ProductMonotone(b, a, unit);
    }
  }

  lemma ProductMonotone(a: int, b: int, unit: int)
    requires a <= b && 0 <= unit
    ensures a * unit <= b * unit
  {
    assert (b - a) * unit >= 0;
  }
}
