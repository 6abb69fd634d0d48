/**
 * The producer and the consumer of the product-listing query together: the
 * link built by `getProduct` in frontend/src/actions/productAction.js, read by
 * the server and passed through `filter` of backend/utils/apifeatures.js.
 */
module ProductQuery {
  import opened Results
  import opened JsNumber
  import opened OperatorRewrite
  import opened ApiFeatures
  import opened FilterProperties
  import opened ProductAction

  /** The filter a `getProduct` link is meant to produce. */
  function ExpectedFilter(a: Args): Condition {
    map[
      "price" := Ops(map["$gte" := Finite(Price(a).0 as real), "$lte" := Finite(Price(a).1 as real)]),
      "rating" := Ops(map["$gte" := Finite(Rating(a) as real)])]
    + (if HasCategory(a) then map["category" := Eq(RewriteString(a.category.value))] else map[])
  }

  /** A number written into the link comes back out of `filter` as that number. */
  lemma NumberThroughFilter(n: int)
    ensures StringToNumber(RewriteString(IntToString(n))) == Finite(n as real)
  {
    IntToStringChars(n);
    RewriteWithoutOperatorLetters(IntToString(n), true);
    StringToNumberOfInt(n);
  }

  lemma OperatorGte()
    ensures RewriteString("gte") == "$gte"
  {
    assert AllWordChars("gte");
    RewriteOperatorWord("gte");
  }

  lemma OperatorLte()
    ensures RewriteString("lte") == "$lte"
  {
    assert AllWordChars("lte");
    RewriteOperatorWord("lte");
  }

  /*
   * Step lemmas: the link's field names and operators pass the `$` rewrite as
   * expected (FieldNames, PriceName, RatingName, CategoryName), one literal
   * per lemma.
   * They exist for the solver's sake: facts about string literals and about
   * regrouping long concatenations are cheap to prove in a lemma of their own
   * and expensive inside a larger proof, so each is stated once, here, and
   * called where it is needed.
   */
  lemma FieldNames()
    ensures RewriteString("price") == "price" && RewriteString("rating") == "rating"
    ensures RewriteString("category") == "category"
  {
    PriceName();
    RatingName();
    CategoryName();
  }

  lemma PriceName()
    ensures RewriteString("price") == "price"
  {
    PlainWord("price");
  }

  lemma RatingName()
    ensures RewriteString("rating") == "rating"
  {
    PlainWord("rating");
  }

  lemma CategoryName()
    ensures RewriteString("category") == "category"
  {
    PlainWord("category");
  }

  lemma PlainWord(w: string)
    requires w != [] && AllWordChars(w) && w !in Operators
    ensures RewriteString(w) == w
  {
    RewriteOperatorWord(w);
  }

  lemma CategoryKey()
    ensures !IsBracketKey("category")
  {
    assert forall i :: 0 <= i < |"category"| ==> "category"[i] != '[';
  }

  lemma PriceGteKey()
    ensures SplitKey("price[gte]") == ("price", "gte") && IsBracketKey("price[gte]")
  {
    assert BracketFree("price") && BracketFree("gte");
    assert "price" + "[" + "gte" + "]" == "price[gte]";
    SplitFieldOperator("price", "gte");
  }

  lemma PriceLteKey()
    ensures SplitKey("price[lte]") == ("price", "lte") && IsBracketKey("price[lte]")
  {
    assert BracketFree("price") && BracketFree("lte");
    assert "price" + "[" + "lte" + "]" == "price[lte]";
    SplitFieldOperator("price", "lte");
  }

  lemma RatingGteKey()
    ensures SplitKey("rating[gte]") == ("rating", "gte") && IsBracketKey("rating[gte]")
  {
    assert BracketFree("rating") && BracketFree("gte");
    assert "rating" + "[" + "gte" + "]" == "rating[gte]";
    SplitFieldOperator("rating", "gte");
  }

  /** The parameters left once `keyword` and `page` are deleted. */
  function FilterParameters(a: Args): Params {
    Remaining(IntToString(Price(a).0), IntToString(Price(a).1),
              if HasCategory(a) then Some(a.category.value) else None, IntToString(Rating(a)))
  }

  /** The price bounds, the category when there is one, and the rating, as the link orders them. */
  function Remaining(lo: string, hi: string, category: Option<string>, rating: string): Params {
    [("price[gte]", lo), ("price[lte]", hi)]
    + (if category.Some? then [("category", category.value)] else [])
    + [("rating[gte]", rating)]
  }

  lemma StripLinkParameters(a: Args)
    ensures StripControl(Parameters(a)) == FilterParameters(a)
  {
    var ps := Parameters(a);
    var rest := FilterParameters(a);
    assert ps == [ps[0], ps[1]] + rest;
    assert ps[1..] == [ps[1]] + rest;
    assert ps[1..][1..] == rest;
    StripNothing(rest);
  }

  lemma {:induction false} StripNothing(ps: Params)
    requires forall i :: 0 <= i < |ps| ==> ps[i].0 !in ControlKeys
    ensures StripControl(ps) == ps
    decreases |ps|
  {
    if ps != [] {
      StripNothing(ps[1..]);
    }
  }

  /** The working copy once the bracket loop is done. */
  function LoopResult(lo: string, hi: string, category: Option<string>, rating: string): Copy {
    map[
      "price" := Nested(map["gte" := lo, "lte" := hi]),
      "rating" := Nested(map["gte" := rating])]
    + (if category.Some? then map["category" := Plain(category.value)] else map[])
  }

  /** One pass of the loop over a bracketed key whose field is absent or already an object. */
  lemma BracketStep(c: Copy, ps: Params, field: string, op: string)
    requires ps != [] && IsBracketKey(ps[0].0) && SplitKey(ps[0].0) == (field, op)
    requires field !in c || c[field].Nested?
    ensures Brackets(c, ps)
         == Brackets(c[field := Nested((if field in c then c[field].ops else map[])[op := ps[0].1])] - {ps[0].0}, ps[1..])
  {
  }

  lemma PlainStep(c: Copy, ps: Params)
    requires ps != [] && !IsBracketKey(ps[0].0)
    ensures Brackets(c, ps) == Brackets(c, ps[1..])
  {
  }

  lemma CopyOfRemaining(lo: string, hi: string, category: Option<string>, rating: string)
    ensures CopyOf(Remaining(lo, hi, category, rating)).Keys
         == {"price[gte]", "price[lte]", "rating[gte]"} + (if category.Some? then {"category"} else {})
    ensures category.Some? ==> CopyOf(Remaining(lo, hi, category, rating))["category"] == Plain(category.value)
  {
    CopyOfFour("price[gte]", "price[lte]", "category", "rating[gte]", lo, hi, category, rating);
  }

  /** `CopyOf` of two pairs, an optional third and a last one, under four distinct keys. */
  lemma CopyOfFour(a: string, b: string, c: string, d: string, va: string, vb: string, vc: Option<string>, vd: string)
    requires a != b && a != c && a != d && b != c && b != d && c != d
    ensures var ps := [(a, va), (b, vb)] + (if vc.Some? then [(c, vc.value)] else []) + [(d, vd)];
      && CopyOf(ps).Keys == {a, b, d} + (if vc.Some? then {c} else {})
      && (vc.Some? ==> CopyOf(ps)[c] == Plain(vc.value))
  {
    CopyOfFourMap(a, b, c, d, va, vb, vc, vd);
  }

  lemma CopyOfFourMap(a: string, b: string, c: string, d: string, va: string, vb: string, vc: Option<string>, vd: string)
    ensures CopyOf([(a, va), (b, vb)] + (if vc.Some? then [(c, vc.value)] else []) + [(d, vd)])
         == (if vc.Some? then map[d := Plain(vd)][c := Plain(vc.value)] else map[d := Plain(vd)])
              [b := Plain(vb)][a := Plain(va)]
  {
    var last: Params := [(d, vd)];
    var mid: Params := (if vc.Some? then [(c, vc.value)] else []) + last;
    CopyOfCons((d, vd), []);
    assert [(d, vd)] + [] == last;
    if vc.Some? {
      CopyOfCons((c, vc.value), last);
    } else {
      assert mid == last;
    }
    CopyOfCons((b, vb), mid);
    CopyOfCons((a, va), [(b, vb)] + mid);
    FourRegroup(a, b, c, d, va, vb, vc, vd);
  }

  /*
   * Step lemmas on the shape of the four-pair list (FourRegroup, CopyOfCons).
   * They exist for the solver's sake: facts about string literals and about
   * regrouping long concatenations are cheap to prove in a lemma of their own
   * and expensive inside a larger proof, so each is stated once, here, and
   * called where it is needed.
   */
  lemma FourRegroup(a: string, b: string, c: string, d: string, va: string, vb: string, vc: Option<string>, vd: string)
    ensures [(a, va), (b, vb)] + (if vc.Some? then [(c, vc.value)] else []) + [(d, vd)]
         == [(a, va)] + ([(b, vb)] + ((if vc.Some? then [(c, vc.value)] else []) + [(d, vd)]))
  {
  }

  lemma CopyOfCons(p: (string, string), ps: Params)
    ensures CopyOf([p] + ps) == CopyOf(ps)[p.0 := Plain(p.1)]
  {
    assert ([p] + ps)[1..] == ps;
  }

  lemma RemainingLoop(lo: string, hi: string, category: Option<string>, rating: string)
    ensures Brackets(CopyOf(Remaining(lo, hi, category, rating)), Remaining(lo, hi, category, rating))
         == Success(LoopResult(lo, hi, category, rating))
  {
    var mid: Params := if category.Some? then [("category", category.value)] else [];
    var rest := Remaining(lo, hi, category, rating);
    assert rest == [("price[gte]", lo), ("price[lte]", hi)] + mid + [("rating[gte]", rating)];
    CopyOfRemaining(lo, hi, category, rating);
    CopiedLoop(CopyOf(rest), lo, hi, mid, category, rating);
  }

  lemma CopiedLoop(c0: Copy, lo: string, hi: string, mid: Params, category: Option<string>, rating: string)
    requires c0.Keys == {"price[gte]", "price[lte]", "rating[gte]"} + (if category.Some? then {"category"} else {})
    requires category.Some? ==> c0["category"] == Plain(category.value)
    requires mid == if category.Some? then [("category", category.value)] else []
    ensures Brackets(c0, [("price[gte]", lo), ("price[lte]", hi)] + mid + [("rating[gte]", rating)])
         == Success(LoopResult(lo, hi, category, rating))
  {
    LinkShapeLoop(c0, lo, hi, mid, rating);
    LoopResultIs(c0, lo, hi, category, rating);
  }

  lemma LinkShapeLoop(c0: Copy, lo: string, hi: string, mid: Params, rating: string)
    requires "price" !in c0 && "rating" !in c0
    requires |mid| <= 1 && (mid != [] ==> mid[0].0 == "category")
    ensures Brackets(c0, [("price[gte]", lo), ("price[lte]", hi)] + mid + [("rating[gte]", rating)])
         == Success(((((c0["price" := Nested(map["gte" := lo])] - {"price[gte]"})
                        ["price" := Nested(map["gte" := lo]["lte" := hi])]) - {"price[lte]"})
                        ["rating" := Nested(map["gte" := rating])]) - {"rating[gte]"})
  {
    PriceGteKey();
    PriceLteKey();
    RatingGteKey();
    CategoryKey();
    ShapeLoop(c0, ("price[gte]", lo), ("price[lte]", hi), mid, ("rating[gte]", rating), "price", "rating", "gte", "lte", "gte");
  }

  /**
   * The loop over two bracketed keys of one field, at most one plain key,
   * and a bracketed key of a second field, none of the fields present before.
   */
  lemma ShapeLoop(c0: Copy, p1: (string, string), p2: (string, string), mid: Params, p3: (string, string),
                  f: string, g: string, o1: string, o2: string, o3: string)
    requires f !in c0 && g !in c0 && f != g
    requires IsBracketKey(p1.0) && SplitKey(p1.0) == (f, o1)
    requires IsBracketKey(p2.0) && SplitKey(p2.0) == (f, o2)
    requires IsBracketKey(p3.0) && SplitKey(p3.0) == (g, o3)
    requires |mid| <= 1 && (mid != [] ==> !IsBracketKey(mid[0].0))
    ensures Brackets(c0, [p1, p2] + mid + [p3])
         == Success(((((c0[f := Nested(map[o1 := p1.1])] - {p1.0})
                        [f := Nested(map[o1 := p1.1][o2 := p2.1])]) - {p2.0})
                        [g := Nested(map[o3 := p3.1])]) - {p3.0})
  {
    var rest := [p1, p2] + mid + [p3];
    TwoSteps(c0, rest, f, o1, o2);
    var c2 := ((c0[f := Nested(map[o1 := p1.1])] - {p1.0})[f := Nested(map[o1 := p1.1][o2 := p2.1])]) - {p2.0};
    assert g !in c2;
    if mid != [] {
      PlainStep(c2, rest[2..]);
      assert rest[2..][1..] == [p3];
    } else {
      assert rest[2..] == [p3];
    }
    BracketStep(c2, [p3], g, o3);
  }

  /** Two passes over bracketed keys naming the same, initially absent, field. */
  lemma TwoSteps(c0: Copy, rest: Params, field: string, op1: string, op2: string)
    requires |rest| >= 2 && field !in c0
    requires IsBracketKey(rest[0].0) && SplitKey(rest[0].0) == (field, op1)
    requires IsBracketKey(rest[1].0) && SplitKey(rest[1].0) == (field, op2)
    ensures Brackets(c0, rest)
         == Brackets(((c0[field := Nested(map[op1 := rest[0].1])] - {rest[0].0})
                        [field := Nested(map[op1 := rest[0].1][op2 := rest[1].1])]) - {rest[1].0}, rest[2..])
  {
    var c1 := c0[field := Nested(map[op1 := rest[0].1])] - {rest[0].0};
    BracketStep(c0, rest, field, op1);
    BracketStep(c1, rest[1..], field, op2);
    assert rest[1..][1..] == rest[2..];
  }

  lemma LoopResultIs(c0: Copy, lo: string, hi: string, category: Option<string>, rating: string)
    requires c0.Keys == {"price[gte]", "price[lte]", "rating[gte]"} + (if category.Some? then {"category"} else {})
    requires category.Some? ==> c0["category"] == Plain(category.value)
    ensures ((((c0["price" := Nested(map["gte" := lo])] - {"price[gte]"})
              ["price" := Nested(map["gte" := lo][ "lte" := hi])]) - {"price[lte]"})
              ["rating" := Nested(map["gte" := rating])]) - {"rating[gte]"}
         == LoopResult(lo, hi, category, rating)
  {
    assert map["gte" := lo]["lte" := hi] == map["gte" := lo, "lte" := hi];
  }

  /** The loop's result after the rewrite and the number coercion. */
  lemma ReparseLoop(lo: string, hi: string, category: Option<string>, rating: string)
    ensures Reparse(LoopResult(lo, hi, category, rating))
         == map[
              "price" := Ops(map["$gte" := StringToNumber(RewriteString(lo)), "$lte" := StringToNumber(RewriteString(hi))]),
              "rating" := Ops(map["$gte" := StringToNumber(RewriteString(rating))])]
            + (if category.Some? then map["category" := Eq(RewriteString(category.value))] else map[])
  {
    OperatorGte();
    OperatorLte();
    FieldNames();
    ReparseShape("price", "rating", "category", "gte", "lte", lo, hi, rating, category);
  }

  /** `Reparse` of a copy shaped like the loop's result. */
  lemma ReparseShape(f: string, g: string, h: string, o1: string, o2: string,
                     lo: string, hi: string, rating: string, category: Option<string>)
    requires RewriteString(f) == f && RewriteString(g) == g && RewriteString(h) == h
    requires o1 != o2
    ensures Reparse(map[f := Nested(map[o1 := lo, o2 := hi]), g := Nested(map[o1 := rating])]
                    + (if category.Some? then map[h := Plain(category.value)] else map[]))
         == map[
              f := Ops(map[RewriteString(o1) := StringToNumber(RewriteString(lo)),
                           RewriteString(o2) := StringToNumber(RewriteString(hi))]),
              g := Ops(map[RewriteString(o1) := StringToNumber(RewriteString(rating))])]
            + (if category.Some? then map[h := Eq(RewriteString(category.value))] else map[])
  {
    CoerceTwo(o1, o2, lo, hi);
    CoerceOne(o1, rating);
    ReparseEntries(f, g, h, Nested(map[o1 := lo, o2 := hi]), Nested(map[o1 := rating]),
                   if category.Some? then Some(Plain(category.value)) else None);
  }

  lemma CoerceTwo(o1: string, o2: string, v1: string, v2: string)
    requires o1 != o2
    ensures CoerceOps(map[o1 := v1, o2 := v2])
         == map[RewriteString(o1) := StringToNumber(RewriteString(v1)),
                RewriteString(o2) := StringToNumber(RewriteString(v2))]
  {
    var m := map[o1 := v1, o2 := v2];
    CoerceOpsAt(m, o1);
    CoerceOpsAt(m, o2);
    RewriteInjective(o1, o2);
    assert CoerceOps(m).Keys == {RewriteString(o1), RewriteString(o2)};
  }

  lemma CoerceOne(o: string, v: string)
    ensures CoerceOps(map[o := v]) == map[RewriteString(o) := StringToNumber(RewriteString(v))]
  {
    CoerceOpsAt(map[o := v], o);
  }

  /** `Reparse` of two or three entries whose keys the rewrite leaves alone. */
  lemma ReparseEntries(f: string, g: string, h: string, ef: Entry, eg: Entry, eh: Option<Entry>)
    requires RewriteString(f) == f && RewriteString(g) == g && RewriteString(h) == h
    ensures Reparse(map[f := ef, g := eg] + (if eh.Some? then map[h := eh.value] else map[]))
         == map[f := Coerce(ef), g := Coerce(eg)] + (if eh.Some? then map[h := Coerce(eh.value)] else map[])
  {
    if eh.Some? {
      ReparseEntriesThree(f, g, h, ef, eg, eh.value);
    } else {
      ReparseEntriesTwo(f, g, ef, eg);
    }
  }

  lemma ReparseEntriesThree(f: string, g: string, h: string, ef: Entry, eg: Entry, eh: Entry)
    requires RewriteString(f) == f && RewriteString(g) == g && RewriteString(h) == h
    ensures Reparse(map[f := ef, g := eg] + map[h := eh]) == map[f := Coerce(ef), g := Coerce(eg)] + map[h := Coerce(eh)]
  {
    ReparseThree(f, g, h, ef, eg, eh);
    UnionSingleton(map[f := ef, g := eg], h, eh);
    UnionSingleton(map[f := Coerce(ef), g := Coerce(eg)], h, Coerce(eh));
  }

  lemma ReparseEntriesTwo(f: string, g: string, ef: Entry, eg: Entry)
    requires RewriteString(f) == f && RewriteString(g) == g
    ensures Reparse(map[f := ef, g := eg] + map[]) == map[f := Coerce(ef), g := Coerce(eg)] + map[]
  {
    ReparseTwo(f, g, ef, eg);
    UnionEmpty(map[f := ef, g := eg]);
    UnionEmpty(map[f := Coerce(ef), g := Coerce(eg)]);
  }

  lemma UnionSingleton<K, V>(m: map<K, V>, k: K, v: V)
    ensures m + map[k := v] == m[k := v]
  {
  }

  lemma UnionEmpty<K, V>(m: map<K, V>)
    ensures m + map[] == m
  {
  }

  lemma ReparseThree(f: string, g: string, h: string, ef: Entry, eg: Entry, eh: Entry)
    requires RewriteString(f) == f && RewriteString(g) == g && RewriteString(h) == h
    ensures Reparse(map[f := ef, g := eg][h := eh]) == map[f := Coerce(ef), g := Coerce(eg)][h := Coerce(eh)]
  {
    ReparseTwo(f, g, ef, eg);
    ReparseUpdate(map[f := ef, g := eg], h, eh);
  }

  lemma ReparseTwo(f: string, g: string, ef: Entry, eg: Entry)
    requires RewriteString(f) == f && RewriteString(g) == g
    ensures Reparse(map[f := ef, g := eg]) == map[f := Coerce(ef), g := Coerce(eg)]
  {
    var empty: Copy := map[];
    ReparseEmpty();
    ReparseUpdate(empty, f, ef);
    ReparseUpdate(empty[f := ef], g, eg);
    assert map[f := ef, g := eg] == empty[f := ef][g := eg];
  }

  lemma ReparseEmpty()
    ensures Reparse(map[]) == map[]
  {
    var empty: Copy := map[];
    forall key ensures key !in Reparse(empty) {
      ReparseKeys(empty, key);
    }
  }

  /** Adding an entry whose key the rewrite leaves alone adds its coerced value. */
  lemma ReparseUpdate(c: Copy, k: string, e: Entry)
    requires RewriteString(k) == k
    ensures Reparse(c[k := e]) == Reparse(c)[k := Coerce(e)]
  {
    var x, y := Reparse(c[k := e]), Reparse(c)[k := Coerce(e)];
    forall key | key in x
      ensures key in y && x[key] == y[key]
    {
      ReparseUpdateAt(c, k, e, key);
    }
    forall key | key in y
      ensures key in x
    {
      ReparseUpdateBack(c, k, e, key);
    }
    MapExtensional(x, y);
  }

  lemma ReparseUpdateAt(c: Copy, k: string, e: Entry, key: string)
    requires RewriteString(k) == k
    requires key in Reparse(c[k := e])
    ensures key in Reparse(c)[k := Coerce(e)]
    ensures Reparse(c[k := e])[key] == Reparse(c)[k := Coerce(e)][key]
  {
    var c' := c[k := e];
    ReparseAt(c', k);
    ReparseKeys(c', key);
    var k' :| k' in c' && RewriteString(k') == key;
    ReparseAt(c', k');
    if k' != k {
      RewriteInjective(k', k);
      ReparseAt(c, k');
    }
  }

  lemma ReparseUpdateBack(c: Copy, k: string, e: Entry, key: string)
    requires RewriteString(k) == k
    requires key in Reparse(c)[k := Coerce(e)]
    ensures key in Reparse(c[k := e])
  {
    var c' := c[k := e];
    ReparseAt(c', k);
    if key != k {
      ReparseKeys(c, key);
      var k' :| k' in c && RewriteString(k') == key;
      ReparseAt(c', k');
    }
  }

  lemma MapExtensional<K, V>(x: map<K, V>, y: map<K, V>)
    requires forall key | key in x :: key in y && x[key] == y[key]
    requires forall key | key in y :: key in x
    ensures x == y
  {
  }

  /**
   * Feeding `getProduct`'s link through `filter`: when neither keyword nor
   * category holds `&` or `#`, the filter is exactly the two price bounds
   * under `$gte`/`$lte`, the rating under `$gte`, and the category as an
   * equality when one was chosen. Neither `keyword` nor `page` is a field.
   */
  lemma LinkFilter(a: Args)
    requires SafeValue(Keyword(a)) && (HasCategory(a) ==> SafeValue(a.category.value))
    ensures FilterCondition(ParseLink(Link(a))) == Success(ExpectedFilter(a))
  {
    LinkRoundTrip(a);
    StripLinkParameters(a);
    var lo := IntToString(Price(a).0);
    var hi := IntToString(Price(a).1);
    var r := IntToString(Rating(a));
    var cat := if HasCategory(a) then Some(a.category.value) else None;
    RemainingLoop(lo, hi, cat, r);
    ReparseLoop(lo, hi, cat, r);
    NumberThroughFilter(Price(a).0);
    NumberThroughFilter(Price(a).1);
    NumberThroughFilter(Rating(a));
  }
}
