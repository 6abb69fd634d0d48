/**
 * What `filter` promises about the condition it builds: when it throws, which
 * fields it emits, where each bracketed value ends up, and that plain values
 * stay strings.
 */
module FilterProperties {
  import opened Results
  import opened JsNumber
  import opened OperatorRewrite
  import opened ApiFeatures

  /** The fields that bracketed keys name. */
  function Fields(ps: Params): set<string> {
    set p | p in ps && IsBracketKey(p.0) :: SplitKey(p.0).0
  }

  /** The keys of the working copy that are not bracketed. */
  function PlainKeys(ps: Params): set<string> {
    set p | p in ps && !IsBracketKey(p.0) :: p.0
  }

  /** The bracketed keys themselves, which the loop deletes. */
  function BracketKeys(ps: Params): set<string> {
    set p | p in ps && IsBracketKey(p.0) :: p.0
  }

  /** A bracketed key whose field holds a non-empty string in `c`. */
  predicate Clashes(c: Copy, p: (string, string)) {
    var f := SplitKey(p.0).0;
    IsBracketKey(p.0) && f in c && c[f].Plain? && c[f].text != ""
  }

  /** A bracketed key names the same field as a plain key with a non-empty value. */
  predicate Collision(ps: Params) {
    exists i, j :: 0 <= i < |ps| && 0 <= j < |ps| && IsBracketKey(ps[i].0)
      && ps[j].0 == SplitKey(ps[i].0).0 && ps[j].1 != ""
  }

  lemma {:induction false} BracketsFailure(c: Copy, ps: Params)
    ensures Brackets(c, ps).Failure? <==> exists i :: 0 <= i < |ps| && Clashes(c, ps[i])
    decreases |ps|
  {
    if ps != [] {
      var k := ps[0].0;
      var tail := ps[1..];
      assert forall i :: 0 < i < |ps| ==> ps[i] == tail[i - 1];
      if IsBracketKey(k) {
        var f := SplitKey(k).0;
        var op := SplitKey(k).1;
        if !Clashes(c, ps[0]) {
          var c' := Accumulate(c, f, op, ps[0].1).value - {k};
          assert Brackets(c, ps) == Brackets(c', tail);
          BracketsFailure(c', tail);
          forall p ensures Clashes(c', p) <==> Clashes(c, p) {
            var g := SplitKey(p.0).0;
            if g != f {
              assert g != k;
            }
          }
        }
      } else {
        BracketsFailure(c, tail);
      }
    }
  }

  /** `filter` is the bracket loop over the copy without control keys, then the rewrite. */
  lemma FilterLoop(ps: Params)
    ensures FilterCondition(ps).Failure? <==> Brackets(CopyOf(StripControl(ps)), StripControl(ps)).Failure?
    ensures FilterCondition(ps).Success? ==>
      FilterCondition(ps).value == Reparse(Brackets(CopyOf(StripControl(ps)), StripControl(ps)).value)
  {
  }

  /**
   * `filter` throws exactly when a bracketed key names a field that a plain key
   * of the same query already holds as a non-empty string (an empty string is
   * falsy and is replaced by an object).
   */
  lemma FilterFailsIffCollision(ps: Params)
    requires DistinctKeys(ps)
    ensures FilterCondition(ps).Failure? <==> Collision(StripControl(ps))
  {
    FilterLoop(ps);
    LoopFailsIffCollision(StripControl(ps));
  }

  lemma LoopFailsIffCollision(rest: Params)
    requires DistinctKeys(rest)
    ensures Brackets(CopyOf(rest), rest).Failure? <==> Collision(rest)
  {
    BracketsFailure(CopyOf(rest), rest);
    CollisionClashes(rest);
    ClashesCollision(rest);
  }

  /** A collision shows up as a clash with the copy. */
  lemma CollisionClashes(rest: Params)
    requires DistinctKeys(rest)
    ensures Collision(rest) ==> exists i :: 0 <= i < |rest| && Clashes(CopyOf(rest), rest[i])
  {
    if Collision(rest) {
      var i, j :| 0 <= i < |rest| && 0 <= j < |rest| && IsBracketKey(rest[i].0)
        && rest[j].0 == SplitKey(rest[i].0).0 && rest[j].1 != "";
      assert Clashes(CopyOf(rest), rest[i]);
    }
  }

  /** A clash with the copy comes from a collision. */
  lemma ClashesCollision(rest: Params)
    requires DistinctKeys(rest)
    ensures (exists i :: 0 <= i < |rest| && Clashes(CopyOf(rest), rest[i])) ==> Collision(rest)
  {
    var c := CopyOf(rest);
    if exists i :: 0 <= i < |rest| && Clashes(c, rest[i]) {
      var i :| 0 <= i < |rest| && Clashes(c, rest[i]);
      var f := SplitKey(rest[i].0).0;
      var j :| 0 <= j < |rest| && rest[j].0 == f;
      assert c[f] == Plain(rest[j].1);
    }
  }

  lemma {:induction false} BracketsKeys(c: Copy, ps: Params)
    requires Brackets(c, ps).Success?
    ensures Brackets(c, ps).value.Keys == c.Keys - BracketKeys(ps) + Fields(ps)
    decreases |ps|
  {
    if ps != [] {
      var k := ps[0].0;
      var tail := ps[1..];
      assert forall p :: p in ps <==> p == ps[0] || p in tail;
      if IsBracketKey(k) {
        var f := SplitKey(k).0;
        var c' := Accumulate(c, f, SplitKey(k).1, ps[0].1).value - {k};
        BracketsKeys(c', tail);
        assert BracketKeys(ps) == {k} + BracketKeys(tail);
        assert Fields(ps) == {f} + Fields(tail);
        assert f !in BracketKeys(ps);
      } else {
        BracketsKeys(c, tail);
        assert BracketKeys(ps) == BracketKeys(tail);
        assert Fields(ps) == Fields(tail);
      }
    }
  }

  /**
   * The filter's fields are the rewritten names of the plain keys and of the
   * fields of the bracketed keys, after `keyword`, `page` and `limit` are gone.
   */
  lemma FilterFields(ps: Params, key: string)
    requires FilterCondition(ps).Success?
    ensures var rest := StripControl(ps);
      key in FilterCondition(ps).value <==>
        exists k :: RewriteString(k) == key && (k in PlainKeys(rest) || k in Fields(rest))
  {
    var rest := StripControl(ps);
    FilterLoop(ps);
    LoopKeys(rest);
    ReparseKeys(Brackets(CopyOf(rest), rest).value, key);
  }

  /** The keys after the loop: the plain keys and the fields of the bracketed keys. */
  lemma LoopKeys(rest: Params)
    requires Brackets(CopyOf(rest), rest).Success?
    ensures forall k :: k in Brackets(CopyOf(rest), rest).value <==> k in PlainKeys(rest) || k in Fields(rest)
  {
    var c := CopyOf(rest);
    BracketsKeys(c, rest);
    var c' := Brackets(c, rest).value;
    forall k ensures k in c' <==> k in PlainKeys(rest) || k in Fields(rest) {
      if k in c && k !in BracketKeys(rest) {
        var i :| 0 <= i < |rest| && rest[i].0 == k;
        assert rest[i] in rest;
      }
      if k in PlainKeys(rest) {
        var p :| p in rest && !IsBracketKey(p.0) && p.0 == k;
        var i :| 0 <= i < |rest| && rest[i] == p;
        assert k in c;
      }
    }
  }

  /** No control key is a bracketed key. */
  lemma ControlKeysArePlain(k: string)
    requires k in ControlKeys
    ensures !IsBracketKey(k)
  {
    assert k == "keyword" || k == "page" || k == "limit";
    forall i | 0 <= i < |k| ensures k[i] != '[' {
      if k == "keyword" {
        assert k[i] in {'k', 'e', 'y', 'w', 'o', 'r', 'd'};
      } else if k == "page" {
        assert k[i] in {'p', 'a', 'g', 'e'};
      } else {
        assert k[i] in {'l', 'i', 'm', 't'};
      }
    }
  }

  /** Deleting the control keys leaves every bracketed key in place. */
  lemma FieldsIgnoreControl(ps: Params)
    ensures Fields(StripControl(ps)) == Fields(ps)
  {
    var rest := StripControl(ps);
    forall f | f in Fields(ps) ensures f in Fields(rest) {
      var p :| p in ps && IsBracketKey(p.0) && SplitKey(p.0).0 == f;
      if p.0 in ControlKeys {
        ControlKeysArePlain(p.0);
      }
      assert p in rest;
    }
    forall f | f in Fields(rest) ensures f in Fields(ps) {
      var p :| p in rest && IsBracketKey(p.0) && SplitKey(p.0).0 == f;
      assert p in ps;
    }
  }

  /** The rewrite leaves the control key names alone. */
  lemma ControlKeysNotRewritten(k: string)
    requires k in ControlKeys
    ensures RewriteString(k) == k
  {
    assert k == "keyword" || k == "page" || k == "limit";
    assert AllWordChars(k) by {
      forall i | 0 <= i < |k| ensures IsWordChar(k[i]) {
        if k == "keyword" {
          assert k[i] in {'k', 'e', 'y', 'w', 'o', 'r', 'd'};
        } else if k == "page" {
          assert k[i] in {'p', 'a', 'g', 'e'};
        } else {
          assert k[i] in {'l', 'i', 'm', 't'};
        }
      }
    }
    assert k !in Operators;
    RewriteOperatorWord(k);
  }

  /**
   * `keyword`, `page` and `limit` reach the filter only through a bracketed
   * key naming them (such as `page[gte]`): the plain control keys never do.
   */
  lemma FilterControlFields(ps: Params, control: string)
    requires control in ControlKeys
    requires FilterCondition(ps).Success?
    ensures control in FilterCondition(ps).value <==> control in Fields(ps)
  {
    var rest := StripControl(ps);
    FilterFields(ps, control);
    FieldsIgnoreControl(ps);
    ControlKeysNotRewritten(control);
    RewriteStringInjective();
    assert control !in PlainKeys(rest);
    if control in FilterCondition(ps).value {
      var k :| RewriteString(k) == control && (k in PlainKeys(rest) || k in Fields(rest));
      assert k == control;
    }
  }

  lemma {:induction false} BracketsKeepOperator(c: Copy, ps: Params, f: string, op: string, v: string)
    requires !IsBracketKey(f)
    requires f in c && c[f].Nested? && op in c[f].ops && c[f].ops[op] == v
    requires forall p :: p in ps && IsBracketKey(p.0) ==> SplitKey(p.0) != (f, op)
    ensures Brackets(c, ps).Success? ==>
      var r := Brackets(c, ps).value; f in r && r[f].Nested? && op in r[f].ops && r[f].ops[op] == v
    decreases |ps|
  {
    if ps != [] {
      var k := ps[0].0;
      var tail := ps[1..];
      assert forall p :: p in tail ==> p in ps;
      if IsBracketKey(k) {
        var a := Accumulate(c, SplitKey(k).0, SplitKey(k).1, ps[0].1);
        if a.Success? {
          BracketsKeepOperator(a.value - {k}, tail, f, op, v);
        }
      } else {
        BracketsKeepOperator(c, tail, f, op, v);
      }
    }
  }

  lemma {:induction false} BracketsOperator(c: Copy, ps: Params, k: string, v: string)
    requires (k, v) in ps && IsBracketKey(k)
    requires forall p :: p in ps && IsBracketKey(p.0) && SplitKey(p.0) == SplitKey(k) ==> p == (k, v)
    ensures Brackets(c, ps).Success? ==>
      var r := Brackets(c, ps).value; var (f, op) := SplitKey(k);
      f in r && r[f].Nested? && op in r[f].ops && r[f].ops[op] == v
    decreases |ps|
  {
    var tail := ps[1..];
    assert forall p :: p in ps <==> p == ps[0] || p in tail;
    var k0 := ps[0].0;
    if IsBracketKey(k0) {
      var a := Accumulate(c, SplitKey(k0).0, SplitKey(k0).1, ps[0].1);
      if a.Success? {
        var c' := a.value - {k0};
        if ps[0] == (k, v) && (k, v) !in tail {
          BracketsKeepOperator(c', tail, SplitKey(k).0, SplitKey(k).1, v);
        } else if ps[0] != (k, v) {
          BracketsOperator(c', tail, k, v);
        } else {
          BracketsOperator(c', tail, k, v);
        }
      }
    } else {
      BracketsOperator(c, tail, k, v);
    }
  }

  /**
   * A bracketed key `field[op]` (the only one with that field and operator)
   * lands in the filter at `field` as operator `op`, both rewritten, with its
   * value passed through `Number()` — a non-numeric value stays as NaN.
   */
  lemma FilterOperatorValue(ps: Params, k: string, v: string)
    requires (k, v) in ps && IsBracketKey(k)
    requires forall p :: p in ps && IsBracketKey(p.0) && SplitKey(p.0) == SplitKey(k) ==> p == (k, v)
    requires FilterCondition(ps).Success?
    ensures var cond := FilterCondition(ps).value;
      var f := RewriteString(SplitKey(k).0);
      var op := RewriteString(SplitKey(k).1);
      f in cond && cond[f].Ops? && op in cond[f].ops
      && cond[f].ops[op] == StringToNumber(RewriteString(v))
  {
    var rest := StripControl(ps);
    if k in ControlKeys {
      ControlKeysArePlain(k);
    }
    assert (k, v) in rest;
    assert forall p :: p in rest ==> p in ps;
    var c := CopyOf(rest);
    BracketsOperator(c, rest, k, v);
    var c' := Brackets(c, rest).value;
    ReparseAt(c', SplitKey(k).0);
    CoerceOpsAt(c'[SplitKey(k).0].ops, SplitKey(k).1);
  }

  lemma {:induction false} BracketsKeepPlain(c: Copy, ps: Params, k: string)
    requires k in c && c[k].Plain? && !IsBracketKey(k)
    requires c[k].text != "" || forall p :: p in ps && IsBracketKey(p.0) ==> SplitKey(p.0).0 != k
    ensures Brackets(c, ps).Success? ==> k in Brackets(c, ps).value && Brackets(c, ps).value[k] == c[k]
    decreases |ps|
  {
    if ps != [] {
      var k0 := ps[0].0;
      var tail := ps[1..];
      assert forall p :: p in tail ==> p in ps;
      if IsBracketKey(k0) {
        var a := Accumulate(c, SplitKey(k0).0, SplitKey(k0).1, ps[0].1);
        if a.Success? {
          BracketsKeepPlain(a.value - {k0}, tail, k);
        }
      } else {
        BracketsKeepPlain(c, tail, k);
      }
    }
  }

  /**
   * A plain key other than `keyword`, `page` and `limit` stays an equality
   * filter on its string value, which is never passed through `Number()`.
   * Only an empty value gives way to a bracketed key naming the same field.
   */
  lemma FilterPlainValue(ps: Params, k: string, v: string)
    requires DistinctKeys(ps)
    requires (k, v) in ps && !IsBracketKey(k) && k !in ControlKeys
    requires v != "" || k !in Fields(ps)
    requires FilterCondition(ps).Success?
    ensures var cond := FilterCondition(ps).value;
      RewriteString(k) in cond && cond[RewriteString(k)] == Eq(RewriteString(v))
  {
    var rest := StripControl(ps);
    var c := CopyOf(rest);
    var i :| 0 <= i < |rest| && rest[i] == (k, v);
    assert c[k] == Plain(v);
    FieldsIgnoreControl(ps);
    forall p | p in rest && IsBracketKey(p.0) && v == "" ensures SplitKey(p.0).0 != k {
      assert SplitKey(p.0).0 in Fields(rest);
    }
    BracketsKeepPlain(c, rest, k);
    ReparseAt(Brackets(c, rest).value, k);
  }
}
