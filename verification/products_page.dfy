/**
 * The page-count arithmetic of the product list
 * (frontend/src/components/layout/Product/Products.js): the defaults for a
 * missing product count and page size, the number of pages, and when the
 * page control is shown.
 */
module ProductsPage {
  import opened JsNumber

  /** What the store holds for `productsCount` or `resultPerPage` before `Number()` reads it. */
  datatype JsValue = Undefined | Null | NumberValue(n: Num) | StringValue(s: string)

  /** `Number(v)`. */
  function ToNumber(v: JsValue): Num {
    match v
    case Undefined => NaN
    case Null => Finite(0.0)
    case NumberValue(n) => n
    case StringValue(s) => StringToNumber(s)
  }

  /** `Number(productsCount) || 0`: a missing, zero or non-numeric count reads as 0. */
  function SafeCount(count: JsValue): (r: Num)
    ensures r != NaN
    ensures Truthy(ToNumber(count)) ==> r == ToNumber(count)
    ensures !Truthy(ToNumber(count)) ==> r == Finite(0.0)
  {
    OrDefault(ToNumber(count), Finite(0.0))
  }

  /** `Number(resultPerPage) || 1`: a missing, zero or non-numeric page size reads as 1. */
  function SafePerPage(perPage: JsValue): (r: Num)
    ensures r != NaN && r != Finite(0.0)
    ensures Truthy(ToNumber(perPage)) ==> r == ToNumber(perPage)
    ensures !Truthy(ToNumber(perPage)) ==> r == Finite(1.0)
  {
    OrDefault(ToNumber(perPage), Finite(1.0))
  }

  /** `Math.ceil(safeProductsCount / safeResultPerPage)`; the divisor is never zero. */
  function TotalPages(count: JsValue, perPage: JsValue): Num {
    Ceil(Divide(SafeCount(count), SafePerPage(perPage)))
  }

  /** `safeResultPerPage < safeProductsCount`: whether the page control is rendered. */
  predicate ShowsPagination(count: JsValue, perPage: JsValue) {
    Less(SafePerPage(perPage), SafeCount(count))
  }

  // ---------------------------------------------------------------------
  // Lemmas
  // ---------------------------------------------------------------------

  /** `CeilReal` is at or above its argument... */
  lemma CeilRealAbove(x: real)
    ensures CeilReal(x) as real >= x
  {
  }

  /** ...and no integer at or above the argument is below it. */
  lemma CeilRealLeast(x: real, m: int)
    requires m as real >= x
    ensures m >= CeilReal(x)
  {
    assert (-m) as real <= -x;
  }

  /** With `n` pages of `perPage` products, `n * perPage` covers the count. */
  predicate Covers(n: int, perPage: real, count: real) {
    n as real * perPage >= count
  }

  /**
   * For a finite count and a positive finite page size, the number of pages
   * is the least `n` for which `n` pages hold every product.
   */
  lemma TotalPagesIsLeastCover(count: JsValue, perPage: JsValue)
    requires SafeCount(count).Finite?
    requires SafePerPage(perPage).Finite? && SafePerPage(perPage).value > 0.0
    ensures TotalPages(count, perPage).Finite?
    ensures var n := TotalPages(count, perPage).value.Floor;
      TotalPages(count, perPage).value == n as real
      && Covers(n, SafePerPage(perPage).value, SafeCount(count).value)
      && forall m: int :: Covers(m, SafePerPage(perPage).value, SafeCount(count).value) ==> m >= n
  {
    var c := SafeCount(count).value;
    var p := SafePerPage(perPage).value;
    var n := CeilReal(c / p);
    CeilRealAbove(c / p);
    assert TotalPages(count, perPage) == Finite(n as real);
    assert (n as real).Floor == n;
    CoverIffAtLeast(n, p, c);
    forall m: int | Covers(m, p, c)
      ensures m >= n
    {
      CoverIffAtLeast(m, p, c);
      CeilRealLeast(c / p, m);
    }
  }

  /** For a positive page size, `m` pages cover the count exactly when `m` is at least count / size. */
  lemma CoverIffAtLeast(m: int, p: real, c: real)
    requires p > 0.0
    ensures Covers(m, p, c) <==> m as real >= c / p
  {
    assert (m as real * p) / p == m as real;
    if m as real >= c / p {
      assert m as real * p >= (c / p) * p;
    }
    if Covers(m, p, c) {
      assert (m as real * p) / p >= c / p;
    }
  }

  /**
   * No products (or a count that reads as none) means no pages, whatever the
   * page size; the control is then shown only for a negative page size.
   */
  lemma NoProductsNoPages(count: JsValue, perPage: JsValue)
    requires !Truthy(ToNumber(count))
    ensures TotalPages(count, perPage) == Finite(0.0)
    ensures ShowsPagination(count, perPage) <==> Less(SafePerPage(perPage), Finite(0.0))
  {
    var p := SafePerPage(perPage);
    assert SafeCount(count) == Finite(0.0);
    if p.Finite? {
      assert 0.0 / p.value == 0.0;
    }
    assert CeilReal(0.0) == 0;
  }

  /** A missing page size reads as 1, so the number of pages is the count rounded up. */
  lemma MissingPageSizeIsOne(count: JsValue, perPage: JsValue)
    requires !Truthy(ToNumber(perPage))
    requires SafeCount(count).Finite?
    ensures TotalPages(count, perPage) == Finite(CeilReal(SafeCount(count).value) as real)
  {
    assert SafeCount(count).value / 1.0 == SafeCount(count).value;
  }

  lemma QuotientAboveOne(c: real, p: real)
    requires 0.0 < p < c
    ensures c / p > 1.0
  {
    assert (c / p) * p == c;
  }

  /**
   * When the control is shown and the page size is a positive number, there
   * are at least two pages (or infinitely many, for an infinite count).
   */
  lemma ShownMeansTwoPages(count: JsValue, perPage: JsValue)
    requires SafePerPage(perPage).Finite? && SafePerPage(perPage).value > 0.0
    requires ShowsPagination(count, perPage)
    ensures TotalPages(count, perPage) == PosInf
         || (TotalPages(count, perPage).Finite? && TotalPages(count, perPage).value >= 2.0)
  {
    var p := SafePerPage(perPage).value;
    var c := SafeCount(count);
    if c.Finite? {
      assert c.value > p;
      QuotientAboveOne(c.value, p);
      CeilRealAbove(c.value / p);
      var n := CeilReal(c.value / p);
      assert n >= 2;
    }
  }
}
