/**
 * The link `getProduct` builds in frontend/src/actions/productAction.js, and
 * how the server splits it back into query parameters.
 *
 * Values are interpolated into the link as they are, without
 * percent-encoding. The server side is a plain split: the fragment from the
 * first `#` on is not sent, the query starts after the first `?`, parameters
 * are separated by `&`, and a key ends at its first `=`. A key such as
 * `price[gte]` stays one flat key, as Express's "simple" query parser leaves
 * it; the nesting done by the "extended" parser is not modelled.
 */
module ProductAction {
  import opened Results
  import opened JsNumber
  import opened ApiFeatures

  const ProductsUrl: string := "http://localhost:4000/api/v1/pro/products"

  /** The arguments of `getProduct`; `None` is `undefined`, for which the default applies. */
  datatype Args = Args(
    keyword: Option<string>,
    currentPage: Option<int>,
    price: Option<(int, int)>,
    category: Option<string>,
    rating: Option<int>)

  /** `if (category)`: a category is used when it is a non-empty string. */
  predicate HasCategory(a: Args) {
    a.category.Some? && a.category.value != ""
  }

  function Keyword(a: Args): string { a.keyword.GetOr("") }
  function Page(a: Args): int { a.currentPage.GetOr(1) }
  function Price(a: Args): (int, int) { a.price.GetOr((0, 25000)) }
  function Rating(a: Args): int { a.rating.GetOr(0) }

  /**
   * The parameters of the link, in order: keyword, page, the two price bounds,
   * the category when there is one, and the rating (`Number(rating)` of an
   * integer rating is the rating itself).
   */
  function Parameters(a: Args): Params {
    [ ("keyword", Keyword(a)),
      ("page", IntToString(Page(a))),
      ("price[gte]", IntToString(Price(a).0)),
      ("price[lte]", IntToString(Price(a).1)) ]
    + (if HasCategory(a) then [("category", a.category.value)] else [])
    + [("rating[gte]", IntToString(Rating(a)))]
  }

  /** The link `getProduct` fetches: each template literal of the source is this rendering. */
  function Link(a: Args): string {
    ProductsUrl + "?" + Render(Parameters(a))
  }

  // ---------------------------------------------------------------------
  // Rendering and splitting query strings
  // ---------------------------------------------------------------------

  /** Index of the first `c` in `s`, or `|s|`. */
  function IndexOf(s: string, c: char): (r: nat)
    ensures r <= |s|
    ensures c !in s[..r]
    ensures r < |s| ==> s[r] == c
    ensures c !in s ==> r == |s|
  {
    if s == [] || s[0] == c then 0 else 1 + IndexOf(s[1..], c)
  }

  /** `key=value` for every parameter, joined with `&`. */
  function Render(ps: Params): string {
    if ps == [] then ""
    else if |ps| == 1 then ps[0].0 + "=" + ps[0].1
    else ps[0].0 + "=" + ps[0].1 + "&" + Render(ps[1..])
  }

  /** The pieces of `s` between `sep` characters. */
  function Split(s: string, sep: char): (r: seq<string>)
    ensures |r| > 0
    ensures forall i :: 0 <= i < |r| ==> sep !in r[i]
    decreases |s|
  {
    var i := IndexOf(s, sep);
    if i == |s| then [s] else [s[..i]] + Split(s[i + 1..], sep)
  }

  /** A piece `key=value`, split at its first `=`; a piece without `=` has the empty value. */
  function ParsePair(piece: string): (string, string) {
    var i := IndexOf(piece, '=');
    if i < |piece| then (piece[..i], piece[i + 1..]) else (piece, "")
  }

  /** The non-empty pieces of a query string, each split into key and value. */
  function ParsePieces(pieces: seq<string>): Params {
    if pieces == [] then []
    else if pieces[0] == "" then ParsePieces(pieces[1..])
    else [ParsePair(pieces[0])] + ParsePieces(pieces[1..])
  }

  /** The query string of a URL: after the first `?`, before the fragment. */
  function QueryString(url: string): (q: string)
    ensures '#' !in q
  {
    var beforeFragment := url[..IndexOf(url, '#')];
    var i := IndexOf(beforeFragment, '?');
    if i < |beforeFragment| then beforeFragment[i + 1..] else ""
  }

  /** The parameters the server reads from a URL. */
  function ParseLink(url: string): Params {
    ParsePieces(Split(QueryString(url), '&'))
  }

  /** A value survives the trip through the link when it holds no `&` and no `#`. */
  predicate SafeValue(s: string) {
    '&' !in s && '#' !in s
  }

  /** A key the link uses: non-empty, and free of `&`, `=` and `#`. */
  predicate SafeKey(s: string) {
    s != "" && '&' !in s && '=' !in s && '#' !in s
  }

  predicate SafeParams(ps: Params) {
    forall i :: 0 <= i < |ps| ==> SafeKey(ps[i].0) && SafeValue(ps[i].1)
  }

  // ---------------------------------------------------------------------
  // Lemmas
  // ---------------------------------------------------------------------

  function Encoded(ps: Params): seq<string> {
    if ps == [] then [] else [ps[0].0 + "=" + ps[0].1] + Encoded(ps[1..])
  }

  lemma {:induction false} SplitRender(ps: Params)
    requires |ps| > 0 && SafeParams(ps)
    ensures Split(Render(ps), '&') == Encoded(ps)
    decreases |ps|
  {
    var piece := ps[0].0 + "=" + ps[0].1;
    assert '&' !in piece;
    if |ps| == 1 {
      assert Encoded(ps) == [piece];
    } else {
      var s := Render(ps);
      assert s == piece + "&" + Render(ps[1..]);
      var i := IndexOf(s, '&');
      assert s[|piece|] == '&';
      assert s[..|piece|] == piece;
      assert i == |piece|;
      assert s[..i] == piece;
      assert s[i + 1..] == Render(ps[1..]);
      SplitRender(ps[1..]);
    }
  }

  lemma ParsePairOfSafe(k: string, v: string)
    requires SafeKey(k)
    ensures ParsePair(k + "=" + v) == (k, v)
  {
    var piece := k + "=" + v;
    var i := IndexOf(piece, '=');
    assert piece[|k|] == '=';
    assert piece[..|k|] == k;
    assert i == |k|;
    assert piece[..i] == k;
    assert piece[i + 1..] == v;
  }

  lemma {:induction false} ParseEncoded(ps: Params)
    requires SafeParams(ps)
    ensures ParsePieces(Encoded(ps)) == ps
    decreases |ps|
  {
    if ps != [] {
      ParsePairOfSafe(ps[0].0, ps[0].1);
      assert (ps[0].0 + "=" + ps[0].1) != "";
      ParseEncoded(ps[1..]);
    }
  }

  /** Everything the server reads is free of `&` and `#`. */
  lemma {:induction false} ParsedValuesSafe(pieces: seq<string>)
    requires forall i :: 0 <= i < |pieces| ==> '&' !in pieces[i] && '#' !in pieces[i]
    ensures forall i :: 0 <= i < |ParsePieces(pieces)| ==> SafeValue(ParsePieces(pieces)[i].1)
    decreases |pieces|
  {
    if pieces != [] {
      ParsedValuesSafe(pieces[1..]);
      var p := pieces[0];
      var i := IndexOf(p, '=');
      if i < |p| {
        assert forall c :: c in p[i + 1..] ==> c in p;
      }
    }
  }

  lemma SplitNoHash(s: string)
    requires '#' !in s
    ensures forall i :: 0 <= i < |Split(s, '&')| ==> '&' !in Split(s, '&')[i] && '#' !in Split(s, '&')[i]
    decreases |s|
  {
    var i := IndexOf(s, '&');
    if i < |s| {
      assert forall c :: c in s[..i] ==> c in s;
      assert forall c :: c in s[i + 1..] ==> c in s;
      SplitNoHash(s[i + 1..]);
    }
  }

  /** The parameters read from any URL carry no `&` and no `#` in their values. */
  lemma ParseLinkValuesSafe(url: string)
    ensures forall i :: 0 <= i < |ParseLink(url)| ==> SafeValue(ParseLink(url)[i].1)
  {
    SplitNoHash(QueryString(url));
    ParsedValuesSafe(Split(QueryString(url), '&'));
  }

  /** A number written by `String()` is a safe value. */
  lemma IntToStringSafe(n: int)
    ensures SafeValue(IntToString(n))
  {
    IntToStringChars(n);
  }

  /** The parameters use safe keys, and their values are safe when the keyword and category are. */
  lemma ParametersSafe(a: Args)
    requires SafeValue(Keyword(a))
    requires HasCategory(a) ==> SafeValue(a.category.value)
    ensures SafeParams(Parameters(a))
  {
    IntToStringSafe(Page(a));
    IntToStringSafe(Price(a).0);
    IntToStringSafe(Price(a).1);
    IntToStringSafe(Rating(a));
    LinkKeysSafe();
    var head := [("keyword", Keyword(a)), ("page", IntToString(Page(a))),
                 ("price[gte]", IntToString(Price(a).0)), ("price[lte]", IntToString(Price(a).1))];
    var mid := if HasCategory(a) then [("category", a.category.value)] else [];
    var last := [("rating[gte]", IntToString(Rating(a)))];
    SafeFour(head);
    SafeConcat(head, mid);
    SafeConcat(head + mid, last);
  }

  /*
   * Step lemmas: the link's literal keys are safe, and safety of parameter lists
   * composes (LinkKeysSafe, PlainKeysSafe, PriceKeysSafe, RatingKeySafe,
   * SafeFour, SafeConcat).
   * They exist for the solver's sake: facts about string literals and about
   * regrouping long concatenations are cheap to prove in a lemma of their own
   * and expensive inside a larger proof, so each is stated once, here, and
   * called where it is needed.
   */
  lemma LinkKeysSafe()
    ensures SafeKey("keyword") && SafeKey("page") && SafeKey("category")
    ensures SafeKey("price[gte]") && SafeKey("price[lte]") && SafeKey("rating[gte]")
  {
    PlainKeysSafe();
    PriceKeysSafe();
    RatingKeySafe();
  }

  lemma PlainKeysSafe()
    ensures SafeKey("keyword") && SafeKey("page") && SafeKey("category")
  {
  }

  lemma PriceKeysSafe()
    ensures SafeKey("price[gte]") && SafeKey("price[lte]")
  {
  }

  lemma RatingKeySafe()
    ensures SafeKey("rating[gte]")
  {
  }

  lemma SafeFour(ps: Params)
    requires |ps| == 4
    requires SafeKey(ps[0].0) && SafeValue(ps[0].1) && SafeKey(ps[1].0) && SafeValue(ps[1].1)
    requires SafeKey(ps[2].0) && SafeValue(ps[2].1) && SafeKey(ps[3].0) && SafeValue(ps[3].1)
    ensures SafeParams(ps)
  {
  }

  lemma SafeConcat(xs: Params, ys: Params)
    requires SafeParams(xs) && SafeParams(ys)
    ensures SafeParams(xs + ys)
  {
    forall i | 0 <= i < |xs + ys| ensures SafeKey((xs + ys)[i].0) && SafeValue((xs + ys)[i].1) {
      if i >= |xs| {
        assert (xs + ys)[i] == ys[i - |xs|];
      }
    }
  }

  /** Text without `#` or `?` after the endpoint: the query string is everything after the `?`. */
  lemma QueryStringOfLink(q: string)
    requires '#' !in q
    ensures QueryString(ProductsUrl + "?" + q) == q
  {
    assert '#' !in ProductsUrl && '?' !in ProductsUrl;
    QueryStringAfter(ProductsUrl, q);
  }

  /** Behind a base with no `?` and no `#`, the query string is all that follows the `?`. */
  lemma QueryStringAfter(base: string, q: string)
    requires '#' !in base && '?' !in base && '#' !in q
    ensures QueryString(base + "?" + q) == q
  {
    var url := base + "?" + q;
    assert '#' !in url by {
      assert forall c :: c in url ==> c in base || c == '?' || c in q;
    }
    assert url[..|url|] == url;
    assert url[..|base|] == base;
    assert url[|base|] == '?';
    assert IndexOf(url, '?') == |base|;
    assert url[|base| + 1..] == q;
  }

  lemma RenderNoHash(ps: Params)
    requires SafeParams(ps)
    ensures '#' !in Render(ps)
    decreases |ps|
  {
    if |ps| > 1 {
      RenderNoHash(ps[1..]);
    }
  }

  /**
   * Splitting the link on `&` and `=` gives back exactly the parameters
   * `getProduct` meant to send if and only if neither the keyword nor a used
   * category contains `&` or `#` (nothing is percent-encoded).
   */
  lemma LinkRoundTrip(a: Args)
    ensures ParseLink(Link(a)) == Parameters(a) <==>
      SafeValue(Keyword(a)) && (HasCategory(a) ==> SafeValue(a.category.value))
  {
    if SafeValue(Keyword(a)) && (HasCategory(a) ==> SafeValue(a.category.value)) {
      SafeLinkParses(a);
    }
    if ParseLink(Link(a)) == Parameters(a) {
      ParsedLinkIsSafe(a);
    }
  }

  lemma SafeLinkParses(a: Args)
    requires SafeValue(Keyword(a)) && (HasCategory(a) ==> SafeValue(a.category.value))
    ensures ParseLink(Link(a)) == Parameters(a)
  {
    var ps := Parameters(a);
    ParametersSafe(a);
    RenderNoHash(ps);
    QueryStringOfLink(Render(ps));
    SplitRender(ps);
    ParseEncoded(ps);
  }

  lemma ParsedLinkIsSafe(a: Args)
    requires ParseLink(Link(a)) == Parameters(a)
    ensures SafeValue(Keyword(a)) && (HasCategory(a) ==> SafeValue(a.category.value))
  {
    var ps := Parameters(a);
    ParseLinkValuesSafe(Link(a));
    assert ps[0].1 == Keyword(a);
    if HasCategory(a) {
      assert ps[4].1 == a.category.value;
    }
  }

  lemma RenderCons(p: (string, string), ps: Params)
    requires ps != []
    ensures Render([p] + ps) == p.0 + "=" + p.1 + "&" + Render(ps)
  {
    assert ([p] + ps)[1..] == ps;
  }

  /*
   * Step lemmas: the rendering of five and six parameters written out, and the
   * regrouping of the template's literal pieces (RenderFive,
   * RenderSix, GlueFive, GlueSix, Regroup, TailRegroup, and the *Piece(s)
   * lemmas for the literal separators).
   * They exist for the solver's sake: facts about string literals and about
   * regrouping long concatenations are cheap to prove in a lemma of their own
   * and expensive inside a larger proof, so each is stated once, here, and
   * called where it is needed.
   */

  /** The rendering of five parameters, written out as one concatenation. */
  lemma RenderFive(ps: Params)
    requires |ps| == 5
    ensures Render(ps)
         == ps[0].0 + "=" + ps[0].1 + "&" + (ps[1].0 + "=" + ps[1].1 + "&" + (ps[2].0 + "=" + ps[2].1
            + "&" + (ps[3].0 + "=" + ps[3].1 + "&" + (ps[4].0 + "=" + ps[4].1))))
  {
    RenderCons(ps[3], ps[4..]);
    assert ps[3..] == [ps[3]] + ps[4..];
    RenderCons(ps[2], ps[3..]);
    assert ps[2..] == [ps[2]] + ps[3..];
    RenderCons(ps[1], ps[2..]);
    assert ps[1..] == [ps[1]] + ps[2..];
  }

  lemma RenderSix(ps: Params)
    requires |ps| == 6
    ensures Render(ps)
         == ps[0].0 + "=" + ps[0].1 + "&" + (ps[1].0 + "=" + ps[1].1 + "&" + (ps[2].0 + "=" + ps[2].1
            + "&" + (ps[3].0 + "=" + ps[3].1 + "&" + (ps[4].0 + "=" + ps[4].1 + "&" + (ps[5].0 + "=" + ps[5].1)))))
  {
    RenderFive(ps[1..]);
    RenderCons(ps[0], ps[1..]);
    assert ps == [ps[0]] + ps[1..];
  }

  /**
   * `Link` is the template literal of `getProduct`: the one without a
   * category when the category is falsy, the one with `&category=` between
   * the upper price bound and the rating otherwise.
   */
  lemma LinkTemplate(a: Args)
    ensures !HasCategory(a) ==> (Link(a)
      == ProductsUrl + "?keyword=" + Keyword(a) + "&page=" + IntToString(Page(a))
         + "&price[gte]=" + IntToString(Price(a).0) + "&price[lte]=" + IntToString(Price(a).1)
         + "&rating[gte]=" + IntToString(Rating(a)))
    ensures HasCategory(a) ==> (Link(a)
      == ProductsUrl + "?keyword=" + Keyword(a) + "&page=" + IntToString(Page(a))
         + "&price[gte]=" + IntToString(Price(a).0) + "&price[lte]=" + IntToString(Price(a).1)
         + "&category=" + a.category.value + "&rating[gte]=" + IntToString(Rating(a)))
  {
    var ps := Parameters(a);
    var k, p, lo, hi, r := Keyword(a), IntToString(Page(a)), IntToString(Price(a).0), IntToString(Price(a).1), IntToString(Rating(a));
    if HasCategory(a) {
      RenderSix(ps);
      GlueSix(ProductsUrl, k, p, lo, hi, a.category.value, r);
    } else {
      RenderFive(ps);
      GlueFive(ProductsUrl, k, p, lo, hi, r);
    }
  }

  /** Regrouping the literal pieces of the template without a category. */
  lemma GlueFive(u: string, k: string, p: string, lo: string, hi: string, r: string)
    ensures u + "?" + ("keyword" + "=" + k + "&" + ("page" + "=" + p + "&" + ("price[gte]" + "=" + lo
                 + "&" + ("price[lte]" + "=" + hi + "&" + ("rating[gte]" + "=" + r)))))
         == u + "?keyword=" + k + "&page=" + p + "&price[gte]=" + lo + "&price[lte]=" + hi + "&rating[gte]=" + r
  {
    var x := u + "?keyword=" + k + "&page=" + p + "&price[gte]=" + lo + "&price[lte]=" + hi;
    Regroup(u, "?", "=", "&", "keyword", "page", "price[gte]", "price[lte]", k, p, lo, hi, "rating[gte]" + "=" + r);
    TailRegroup(x, "&", "rating[gte]", "=", r);
    HeadPieces();
    PricePieces();
    RatingPiece();
  }

  /** Regrouping the literal pieces of the template with a category. */
  lemma GlueSix(u: string, k: string, p: string, lo: string, hi: string, c: string, r: string)
    ensures u + "?" + ("keyword" + "=" + k + "&" + ("page" + "=" + p + "&" + ("price[gte]" + "=" + lo
                 + "&" + ("price[lte]" + "=" + hi + "&" + ("category" + "=" + c + "&" + ("rating[gte]" + "=" + r))))))
         == u + "?keyword=" + k + "&page=" + p + "&price[gte]=" + lo + "&price[lte]=" + hi
            + "&category=" + c + "&rating[gte]=" + r
  {
    var x := u + "?keyword=" + k + "&page=" + p + "&price[gte]=" + lo + "&price[lte]=" + hi;
    var tail := "category" + "=" + c + "&" + ("rating[gte]" + "=" + r);
    Regroup(u, "?", "=", "&", "keyword", "page", "price[gte]", "price[lte]", k, p, lo, hi, tail);
    TailRegroup(x, "&", "category", "=", c + "&" + ("rating[gte]" + "=" + r));
    TailRegroup(x + "&category=" + c, "&", "rating[gte]", "=", r);
    HeadPieces();
    PricePieces();
    CategoryPiece();
    RatingPiece();
  }

  /** The first four parameters of the template, with the separators grouped with the names. */
  lemma Regroup(u: string, q: string, eq: string, amp: string, n1: string, n2: string, n3: string, n4: string,
                v1: string, v2: string, v3: string, v4: string, t: string)
    ensures u + q + (n1 + eq + v1 + amp + (n2 + eq + v2 + amp + (n3 + eq + v3 + amp + (n4 + eq + v4 + amp + t))))
         == u + (q + n1 + eq) + v1 + (amp + n2 + eq) + v2 + (amp + n3 + eq) + v3 + (amp + n4 + eq) + v4 + amp + t
  {
  }

  lemma TailRegroup(x: string, amp: string, n: string, eq: string, v: string)
    ensures x + amp + (n + eq + v) == x + (amp + n + eq) + v
  {
  }

  lemma HeadPieces()
    ensures "?" + "keyword" + "=" == "?keyword=" && "&" + "page" + "=" == "&page="
  {
  }

  lemma PricePieces()
    ensures "&" + "price[gte]" + "=" == "&price[gte]=" && "&" + "price[lte]" + "=" == "&price[lte]="
  {
  }

  lemma CategoryPiece()
    ensures "&" + "category" + "=" == "&category="
  {
  }

  lemma RatingPiece()
    ensures "&" + "rating[gte]" + "=" == "&rating[gte]="
  {
  }

  /** With every argument left `undefined`, the link carries the defaults of `getProduct`. */
  lemma DefaultParameters()
    ensures Parameters(Args(None, None, None, None, None))
         == [("keyword", ""), ("page", "1"), ("price[gte]", "0"), ("price[lte]", "25000"), ("rating[gte]", "0")]
  {
    assert IntToString(1) == "1" && IntToString(0) == "0";
    assert NatToString(25000) == NatToString(2500) + "0";
    assert NatToString(2500) == NatToString(250) + "0";
    assert NatToString(250) == NatToString(25) + "0";
    assert NatToString(25) == "25";
    assert IntToString(25000) == "25000";
  }

  /**
   * A `category` parameter is sent exactly when the category is a non-empty
   * string; an empty category gives the same link as none at all.
   */
  lemma CategoryParameter(a: Args)
    ensures (exists i :: 0 <= i < |Parameters(a)| && Parameters(a)[i].0 == "category") <==> HasCategory(a)
    ensures !HasCategory(a) ==> Link(a) == Link(a.(category := None))
  {
    var ps := Parameters(a);
    if HasCategory(a) {
      assert ps[4].0 == "category";
    } else {
      forall i | 0 <= i < |ps| ensures ps[i].0 != "category" {
        assert ps[i].0 in ["keyword", "page", "price[gte]", "price[lte]", "rating[gte]"];
      }
    }
  }
}
