/**
 * The product-listing query builder of backend/utils/apifeatures.js.
 *
 * `ApiFeatures` holds a Mongoose query and the request's query object. Each
 * stage adds to the query and returns the builder: `search` adds a name
 * condition for the keyword, `filter` turns the remaining parameters into a
 * field filter (bracketed `field[op]` keys become operator maps, comparison
 * words get a `$`, operator values go through `Number()`), and `pagination`
 * sets a limit and a skip.
 *
 * The Mongoose query is a record of what was asked of it: the condition of
 * every `find` call in order, and the last `limit` and `skip`.
 */
module ApiFeatures {
  import opened Results
  import opened JsNumber
  import opened OperatorRewrite

  /** The request's query object: (key, value) pairs in insertion order. */
  type Params = seq<(string, string)>

  /** A JavaScript object never holds the same key twice. */
  predicate DistinctKeys(ps: Params) {
    forall i, j :: 0 <= i < j < |ps| ==> ps[i].0 != ps[j].0
  }

  predicate HasKey(ps: Params, k: string) {
    exists i :: 0 <= i < |ps| && ps[i].0 == k
  }

  /** `ps[k]`, or `None` for `undefined`. */
  function Get(ps: Params, k: string): (r: Option<string>)
    ensures r.Some? <==> HasKey(ps, k)
    ensures r.Some? ==> (k, r.value) in ps
    ensures DistinctKeys(ps) ==> forall i :: 0 <= i < |ps| && ps[i].0 == k ==> r == Some(ps[i].1)
  {
    if ps == [] then None
    else if ps[0].0 == k then Some(ps[0].1)
    else
      var r := Get(ps[1..], k);
      assert HasKey(ps, k) ==> HasKey(ps[1..], k) by {
        if HasKey(ps, k) {
          var i :| 0 <= i < |ps| && ps[i].0 == k;
          assert ps[1..][i - 1] == ps[i];
        }
      }
      r
  }

  /** One value of a `find` condition object. */
  datatype Cond =
    | Eq(text: string)                        // an equality match on a string
    | Ops(ops: map<string, Num>)              // an operator object such as {$gte: 10}
    | Regex(pattern: string, options: string) // {$regex: pattern, $options: options}

  /** A `find` condition: field name to condition. */
  type Condition = map<string, Cond>

  /** What a Mongoose query has been asked to do. */
  datatype Query = Query(finds: seq<Condition>, limit: Option<int>, skip: Option<Num>) {

    /** `query.find(cond)`. */
    function Find(cond: Condition): (q: Query)
      ensures q.finds == finds + [cond] && q.limit == limit && q.skip == skip
    {
      this.(finds := finds + [cond])
    }
  }

  /** `Product.find()`: one empty condition, no window. */
  const ProductFind: Query := Query([map[]], None, None)

  /** An `ApiFeatures` instance. */
  datatype Features = Features(query: Query, queryStr: Params)

  // ---------------------------------------------------------------------
  // search
  // ---------------------------------------------------------------------

  /** The condition `search` passes to `find`. */
  function SearchCondition(ps: Params): Condition {
    var kw := Get(ps, "keyword");
    if kw.Some? && kw.value != "" then map["name" := Regex(kw.value, "i")] else map[]
  }

  /** The `search` stage. */
  function Search(f: Features): (r: Features)
    ensures r.queryStr == f.queryStr
    ensures r.query == f.query.Find(SearchCondition(f.queryStr))
  {
    f.(query := f.query.Find(SearchCondition(f.queryStr)))
  }

  /**
   * The search condition holds exactly one entry, a case-insensitive match of
   * `name` against the keyword as given (not trimmed), when the keyword is a
   * non-empty string, and is empty otherwise.
   */
  lemma SearchConditionMeaning(ps: Params)
    ensures var c := SearchCondition(ps);
      && c.Keys <= {"name"}
      && ("name" in c <==> Get(ps, "keyword").Some? && Get(ps, "keyword").value != "")
      && ("name" in c ==> c["name"] == Regex(Get(ps, "keyword").value, "i"))
  {
  }

  /** An empty keyword and a missing keyword search alike. */
  lemma SearchEmptyKeywordIsAbsent(ps: Params)
    requires Get(ps, "keyword") == Some("")
    ensures SearchCondition(ps) == SearchCondition([])
  {
  }

  // ---------------------------------------------------------------------
  // filter: control keys and the working copy
  // ---------------------------------------------------------------------

  /** Keys that drive the query rather than name a field. */
  const ControlKeys: set<string> := {"keyword", "page", "limit"}

  /** The copy with `keyword`, `page` and `limit` deleted, in the original order. */
  function StripControl(ps: Params): (r: Params)
    ensures forall p :: p in r <==> p in ps && p.0 !in ControlKeys
    ensures DistinctKeys(ps) ==> DistinctKeys(r)
  {
    if ps == [] then []
    else
      var rest := StripControl(ps[1..]);
      assert forall p :: p in ps <==> p == ps[0] || p in ps[1..];
      if ps[0].0 in ControlKeys then rest
      else
        assert DistinctKeys(ps) ==> forall p :: p in rest ==> p.0 != ps[0].0 by {
          if DistinctKeys(ps) {
            forall p | p in rest ensures p.0 != ps[0].0 {
              var i :| 0 <= i < |ps[1..]| && ps[1..][i] == p;
              assert ps[i + 1] == p;
            }
          }
        }
        [ps[0]] + rest
  }

  /** A value of the working copy while the bracket loop runs. */
  datatype Entry = Plain(text: string) | Nested(ops: map<string, string>)

  /** The working copy `querycopy`. */
  type Copy = map<string, Entry>

  /** `{...queryStr}`: every pair as a plain string entry. */
  function CopyOf(ps: Params): (r: Copy)
    ensures forall k :: k in r ==> r[k].Plain? && HasKey(ps, k)
    ensures forall i :: 0 <= i < |ps| ==> ps[i].0 in r
    ensures DistinctKeys(ps) ==> forall i :: 0 <= i < |ps| ==> r[ps[i].0] == Plain(ps[i].1)
  {
    if ps == [] then map[]
    else
      var r' := CopyOf(ps[1..]);
      CopyStepKeys(ps, r');
      CopyStepValues(ps, r');
      r'[ps[0].0 := Plain(ps[0].1)]
  }

  /** The keys of one more step of the copy. */
  lemma CopyStepKeys(ps: Params, r': Copy)
    requires ps != []
    requires forall k :: k in r' ==> r'[k].Plain? && HasKey(ps[1..], k)
    requires forall i :: 0 <= i < |ps| - 1 ==> ps[1..][i].0 in r'
    ensures var r := r'[ps[0].0 := Plain(ps[0].1)];
      && (forall k :: k in r ==> r[k].Plain? && HasKey(ps, k))
      && (forall i :: 0 <= i < |ps| ==> ps[i].0 in r)
  {
    var tail := ps[1..];
    var r := r'[ps[0].0 := Plain(ps[0].1)];
    forall k | k in r ensures HasKey(ps, k) {
      if k != ps[0].0 {
        var i :| 0 <= i < |tail| && tail[i].0 == k;
        assert ps[i + 1] == tail[i];
      }
    }
    forall i | 0 < i < |ps| ensures ps[i].0 in r {
      assert ps[i] == tail[i - 1];
    }
  }

  /** The values of one more step of the copy, when no key repeats. */
  lemma CopyStepValues(ps: Params, r': Copy)
    requires ps != []
    requires forall i :: 0 <= i < |ps| - 1 ==> ps[1..][i].0 in r'
    requires DistinctKeys(ps[1..]) ==> forall i :: 0 <= i < |ps| - 1 ==> r'[ps[1..][i].0] == Plain(ps[1..][i].1)
    ensures var r := r'[ps[0].0 := Plain(ps[0].1)];
      DistinctKeys(ps) ==> forall i :: 0 <= i < |ps| ==> r[ps[i].0] == Plain(ps[i].1)
  {
    var tail := ps[1..];
    var r := r'[ps[0].0 := Plain(ps[0].1)];
    if DistinctKeys(ps) {
      assert DistinctKeys(tail) by {
        forall i, j | 0 <= i < j < |tail| ensures tail[i].0 != tail[j].0 {
          assert tail[i] == ps[i + 1] && tail[j] == ps[j + 1];
        }
      }
      forall i | 0 < i < |ps| ensures r[ps[i].0] == Plain(ps[i].1) {
        assert ps[i] == tail[i - 1];
      }
    }
  }

  // ---------------------------------------------------------------------
  // filter: bracketed keys
  // ---------------------------------------------------------------------

  predicate IsBracketKey(k: string) {
    '[' in k
  }

  predicate IsBracket(c: char) {
    c == '[' || c == ']'
  }

  predicate BracketFree(s: string) {
    forall i :: 0 <= i < |s| ==> !IsBracket(s[i])
  }

  /** Length of the bracket-free run at the start of `s`. */
  function SegmentLength(s: string): (n: nat)
    ensures n <= |s|
    ensures BracketFree(s[..n])
    ensures n < |s| ==> IsBracket(s[n])
  {
    if s == [] || IsBracket(s[0]) then 0 else 1 + SegmentLength(s[1..])
  }

  /** `k.split(/\[|\]/).filter(Boolean)`: the non-empty pieces between brackets. */
  function Pieces(k: string): (r: seq<string>)
    ensures forall i :: 0 <= i < |r| ==> r[i] != [] && BracketFree(r[i])
    decreases |k|
  {
    if k == [] then []
    else if IsBracket(k[0]) then Pieces(k[1..])
    else
      var n := SegmentLength(k);
      [k[..n]] + Pieces(k[n..])
  }

  /** `const [field, operator] = ...`: a missing piece is `undefined`, which becomes the key "undefined". */
  function SplitKey(k: string): (r: (string, string))
    ensures BracketFree(r.0) && !IsBracketKey(r.0)
  {
    var p := Pieces(k);
    var field := if |p| > 0 then p[0] else "undefined";
    var op := if |p| > 1 then p[1] else "undefined";
    assert BracketFree(field);
    assert '[' !in field;
    (field, op)
  }

  /** `field[op]` splits back into `field` and `op`. */
  lemma SplitFieldOperator(field: string, op: string)
    requires field != [] && BracketFree(field)
    requires op != [] && BracketFree(op)
    ensures SplitKey(field + "[" + op + "]") == (field, op)
    ensures IsBracketKey(field + "[" + op + "]")
  {
    var k := field + "[" + op + "]";
    assert k[|field|] == '[';
    assert SegmentLength(k) == |field| by {
      SegmentOfPrefix(field, "[" + op + "]");
      assert k == field + ("[" + op + "]");
    }
    assert k[..|field|] == field;
    var k1 := k[|field|..];
    assert k1 == "[" + op + "]";
    assert Pieces(k1) == Pieces(op + "]") by {
      assert k1[1..] == op + "]";
    }
    SegmentOfPrefix(op, "]");
    var k2 := op + "]";
    assert k2[..|op|] == op;
    assert k2[|op|..] == "]";
    assert Pieces("]") == [] by {
      assert "]"[1..] == [];
    }
    assert Pieces(k2) == [op];
    assert Pieces(k) == [field, op];
  }

  lemma {:induction false} SegmentOfPrefix(w: string, y: string)
    requires BracketFree(w)
    requires y != [] && IsBracket(y[0])
    ensures SegmentLength(w + y) == |w|
  {
    if w != [] {
      assert (w + y)[1..] == w[1..] + y;
      SegmentOfPrefix(w[1..], y);
    } else {
      assert w + y == y;
    }
  }

  /** The TypeError of strict-mode code assigning a property to a non-empty string. */
  datatype FilterError = CannotCreateProperty(field: string, op: string)

  /**
   * `querycopy[field] = querycopy[field] || {}; querycopy[field][op] = v`.
   * An empty string is falsy and gives way to a new object; a non-empty one
   * stays, and the assignment to it throws.
   */
  function Accumulate(c: Copy, field: string, op: string, v: string): Result<Copy, FilterError> {
    if field in c && c[field].Plain? && c[field].text != "" then Failure(CannotCreateProperty(field, op))
    else
      var ops := if field in c && c[field].Nested? then c[field].ops else map[];
      Success(c[field := Nested(ops[op := v])])
  }

  /** The `for (let key in querycopy)` loop over the keys in order. */
  function Brackets(c: Copy, ps: Params): Result<Copy, FilterError>
    decreases |ps|
  {
    if ps == [] then Success(c)
    else
      var k := ps[0].0;
      if IsBracketKey(k) then
        var c' :- Accumulate(c, SplitKey(k).0, SplitKey(k).1, ps[0].1);
        Brackets(c' - {k}, ps[1..])
      else Brackets(c, ps[1..])
  }

  // ---------------------------------------------------------------------
  // filter: serialise, rewrite, parse, coerce
  // ---------------------------------------------------------------------

  lemma RewriteStringInjective()
    ensures forall a, b :: RewriteString(a) == RewriteString(b) ==> a == b
  {
    forall a, b ensures RewriteString(a) == RewriteString(b) ==> a == b {
      RewriteInjective(a, b);
    }
  }

  /** An operator object after the rewrite, with every value passed through `Number()`. */
  function CoerceOps(m: map<string, string>): map<string, Num> {
    RewriteStringInjective();
    map o | o in m :: RewriteString(o) := StringToNumber(RewriteString(m[o]))
  }

  /** One entry after the rewrite: strings stay strings, objects are coerced. */
  function Coerce(e: Entry): Cond {
    match e
    case Plain(s) => Eq(RewriteString(s))
    case Nested(m) => Ops(CoerceOps(m))
  }

  /** `JSON.parse(JSON.stringify(querycopy).replace(...))` followed by the `Number()` loop. */
  function Reparse(c: Copy): Condition {
    RewriteStringInjective();
    map k | k in c :: RewriteString(k) := Coerce(c[k])
  }

  lemma ReparseAt(c: Copy, k: string)
    requires k in c
    ensures RewriteString(k) in Reparse(c) && Reparse(c)[RewriteString(k)] == Coerce(c[k])
  {
    RewriteStringInjective();
  }

  lemma ReparseKeys(c: Copy, key: string)
    ensures key in Reparse(c) <==> exists k :: k in c && RewriteString(k) == key
  {
  }

  lemma CoerceOpsAt(m: map<string, string>, o: string)
    requires o in m
    ensures RewriteString(o) in CoerceOps(m)
    ensures CoerceOps(m)[RewriteString(o)] == StringToNumber(RewriteString(m[o]))
  {
    RewriteStringInjective();
  }

  /** The condition `filter` passes to `find`. */
  function FilterCondition(ps: Params): Result<Condition, FilterError> {
    var rest := StripControl(ps);
    var c :- Brackets(CopyOf(rest), rest);
    Success(Reparse(c))
  }

  /** The `filter` stage. It works on a copy: the builder's query object is left as it was. */
  function Filter(f: Features): (r: Result<Features, FilterError>)
    ensures r.Success? <==> FilterCondition(f.queryStr).Success?
    ensures r.Success? ==> r.value.queryStr == f.queryStr
    ensures r.Success? ==> r.value.query == f.query.Find(FilterCondition(f.queryStr).value)
  {
    var c :- FilterCondition(f.queryStr);
    Success(f.(query := f.query.Find(c)))
  }

  // ---------------------------------------------------------------------
  // pagination
  // ---------------------------------------------------------------------

  /** `Number(this.queryStr.page) || 1`. */
  function CurrentPage(ps: Params): (r: Num)
    ensures Truthy(r)
  {
    var raw := Get(ps, "page");
    OrDefault(if raw.Some? then StringToNumber(raw.value) else NaN, Finite(1.0))
  }

  /** The `pagination` stage: `limit(n)` and `skip(n * (page - 1))`. */
  function Pagination(f: Features, resultPerPage: int): (r: Features)
    ensures r.queryStr == f.queryStr
    ensures r.query.finds == f.query.finds
    ensures r.query.limit == Some(resultPerPage)
    ensures r.query.skip.Some?
  {
    var skip := Times(resultPerPage, MinusOne(CurrentPage(f.queryStr)));
    f.(query := f.query.(limit := Some(resultPerPage), skip := Some(skip)))
  }

  /** `getAllProducts`: search then filter, never paginated. */
  function GetAllProducts(ps: Params): (r: Result<Query, FilterError>)
    ensures r.Success? <==> FilterCondition(ps).Success?
    ensures r.Success? ==> r.value.finds == [map[], SearchCondition(ps), FilterCondition(ps).value]
    ensures r.Success? ==> r.value.limit == None && r.value.skip == None
  {
    var f :- Filter(Search(Features(ProductFind, ps)));
    Success(f.query)
  }
}
