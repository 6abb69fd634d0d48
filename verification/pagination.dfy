/**
 * Properties of `pagination` in backend/utils/apifeatures.js: the window it
 * sets, how `page` is read, and how it chains after `search` and `filter`.
 */
module PaginationProperties {
  import opened Results
  import opened JsNumber
  import opened ApiFeatures

  /** An absent, zero or non-numeric `page` acts as page 1: nothing is skipped. */
  lemma FirstPageByDefault(f: Features, resultPerPage: int)
    requires Get(f.queryStr, "page").None? || !Truthy(StringToNumber(Get(f.queryStr, "page").value))
    ensures Pagination(f, resultPerPage).query.skip == Some(Finite(0.0))
    ensures Pagination(f, resultPerPage).query.limit == Some(resultPerPage)
  {
    assert CurrentPage(f.queryStr) == Finite(1.0);
    FirstPageSkip(f, resultPerPage);
  }

  /**
   * A page that reads as a non-zero finite number `x` skips
   * `resultPerPage * (x - 1)` documents; one that reads as an infinity skips
   * an infinity whose sign follows `resultPerPage`, or NaN for page size 0.
   */
  lemma SkipOfPage(f: Features, resultPerPage: int, page: string, x: Num)
    requires Get(f.queryStr, "page") == Some(page) && StringToNumber(page) == x
    requires Truthy(x)
    ensures x.Finite? ==> Pagination(f, resultPerPage).query.skip == Some(Finite(resultPerPage as real * (x.value - 1.0)))
    ensures x.PosInf? && resultPerPage > 0 ==> Pagination(f, resultPerPage).query.skip == Some(PosInf)
    ensures x.NegInf? && resultPerPage > 0 ==> Pagination(f, resultPerPage).query.skip == Some(NegInf)
    ensures !x.Finite? && resultPerPage == 0 ==> Pagination(f, resultPerPage).query.skip == Some(NaN)
  {
    assert CurrentPage(f.queryStr) == x;
    SkipOfCurrentPage(f, resultPerPage, x);
  }

  lemma SkipOfCurrentPage(f: Features, resultPerPage: int, x: Num)
    requires CurrentPage(f.queryStr) == x
    ensures x.Finite? ==> Pagination(f, resultPerPage).query.skip == Some(Finite(resultPerPage as real * (x.value - 1.0)))
    ensures x.PosInf? && resultPerPage > 0 ==> Pagination(f, resultPerPage).query.skip == Some(PosInf)
    ensures x.NegInf? && resultPerPage > 0 ==> Pagination(f, resultPerPage).query.skip == Some(NegInf)
    ensures (x.PosInf? || x.NegInf?) && resultPerPage == 0 ==> Pagination(f, resultPerPage).query.skip == Some(NaN)
  {
    PageWindow(f, resultPerPage, x);
    TimesPage(resultPerPage, x);
  }

  /** The skip arithmetic for a page that reads as `x`. */
  lemma TimesPage(k: int, x: Num)
    ensures x.Finite? ==> Times(k, MinusOne(x)) == Finite(k as real * (x.value - 1.0))
    ensures x.PosInf? && k > 0 ==> Times(k, MinusOne(x)) == PosInf
    ensures x.NegInf? && k > 0 ==> Times(k, MinusOne(x)) == NegInf
    ensures (x.PosInf? || x.NegInf?) && k == 0 ==> Times(k, MinusOne(x)) == NaN
  {
    if x.Finite? {
      FiniteTimes(k, x);
    }
  }

  lemma FiniteTimes(k: int, x: Num)
    requires x.Finite?
    ensures Times(k, MinusOne(x)) == Finite(k as real * (x.value - 1.0))
  {
  }

  /**
   * A page written as a decimal integer `p`: page `p` skips
   * `resultPerPage * (p - 1)` documents, page 0 acts as page 1, and a
   * negative page is not clamped, so with a positive page size the skip is
   * negative.
   */
  lemma SkipOfIntegerPage(f: Features, resultPerPage: int, p: int)
    requires Get(f.queryStr, "page") == Some(IntToString(p))
    ensures p != 0 ==> Pagination(f, resultPerPage).query.skip == Some(Finite(resultPerPage as real * (p as real - 1.0)))
    ensures p == 0 ==> Pagination(f, resultPerPage).query.skip == Some(Finite(0.0))
    ensures p < 0 && resultPerPage > 0 ==>
      Pagination(f, resultPerPage).query.skip.value.Finite? && Pagination(f, resultPerPage).query.skip.value.value < 0.0
  {
    IntegerCurrentPage(f.queryStr, p);
    if p == 0 {
      FirstPageSkip(f, resultPerPage);
    } else {
      IntegerPageSkip(f, resultPerPage, p);
      if p < 0 && resultPerPage > 0 {
        NegativeSkip(resultPerPage, p as real);
      }
    }
  }

  lemma IntegerPageSkip(f: Features, resultPerPage: int, p: int)
    requires CurrentPage(f.queryStr) == Finite(p as real)
    ensures Pagination(f, resultPerPage).query.skip == Some(Finite(resultPerPage as real * (p as real - 1.0)))
  {
    PageWindow(f, resultPerPage, Finite(p as real));
    IntegerTimes(resultPerPage, p);
  }

  lemma IntegerTimes(k: int, p: int)
    ensures Times(k, MinusOne(Finite(p as real))) == Finite(k as real * (p as real - 1.0))
  {
    FiniteTimes(k, Finite(p as real));
  }

  lemma PageWindow(f: Features, resultPerPage: int, x: Num)
    requires CurrentPage(f.queryStr) == x
    ensures Pagination(f, resultPerPage).query.skip == Some(Times(resultPerPage, MinusOne(x)))
  {
  }

  lemma FirstPageSkip(f: Features, resultPerPage: int)
    requires CurrentPage(f.queryStr) == Finite(1.0)
    ensures Pagination(f, resultPerPage).query.skip == Some(Finite(0.0))
  {
    PageWindow(f, resultPerPage, Finite(1.0));
    IntegerTimes(resultPerPage, 1);
  }

  lemma IntegerCurrentPage(ps: Params, p: int)
    requires Get(ps, "page") == Some(IntToString(p))
    ensures CurrentPage(ps) == Finite(if p == 0 then 1.0 else p as real)
  {
    StringToNumberOfInt(p);
  }

  lemma NegativeSkip(k: int, x: real)
    requires x < 0.0 && k > 0
    ensures k as real * (x - 1.0) < 0.0
  {
  }

  /**
   * `filter` works on a copy, so after `search().filter()` the page is still
   * read from the same parameters: the window is the one `pagination` would
   * set on its own, and the two conditions come before it.
   */
  lemma StagesChain(f: Features, resultPerPage: int)
    requires FilterCondition(f.queryStr).Success?
    ensures Filter(Search(f)).Success?
    ensures Pagination(Filter(Search(f)).value, resultPerPage).query.skip == Pagination(f, resultPerPage).query.skip
    ensures Pagination(Filter(Search(f)).value, resultPerPage).query.finds
         == f.query.finds + [SearchCondition(f.queryStr), FilterCondition(f.queryStr).value]
  {
  }

  /** `?page=abc` is read as page 1. */
  lemma NonNumericPage(resultPerPage: int)
    ensures Pagination(Features(ProductFind, [("page", "abc")]), resultPerPage).query.skip == Some(Finite(0.0))
  {
    var ps := [("page", "abc")];
    assert Get(ps, "page") == Some("abc");
    assert Trim("abc") == "abc";
    assert StringToNumber("abc") == NaN;
  }
}
