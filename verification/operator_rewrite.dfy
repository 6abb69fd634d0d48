/**
 * The operator rewrite of backend/utils/apifeatures.js: the filter object is
 * serialised with JSON.stringify, every `gt`, `gte`, `lt` or `lte` that stands
 * between two regular-expression word boundaries gets a `$` in front, and the
 * text is parsed back.
 *
 * JSON punctuation (`{`, `}`, `"`, `:`, `,`) is never a word character, so the
 * rewrite of the whole serialised object is the rewrite of every serialised
 * string (key or value) on its own. Inside a string, JSON.stringify writes a
 * control character (below U+0020) as an escape that ends in a word character
 * (`\n`, `\t`, `\u001f`, ...): such a character therefore hides a word boundary
 * on its right. The model rewrites the raw string and accounts for that.
 */
module OperatorRewrite {

  /** The `\w` class of a JavaScript regular expression without the `u` flag. */
  predicate IsWordChar(c: char) {
    'a' <= c <= 'z' || 'A' <= c <= 'Z' || '0' <= c <= '9' || c == '_'
  }

  /** Characters JSON.stringify escapes into text that ends with a word character. */
  predicate EscapesToWord(c: char) {
    (c as int) < 0x20
  }

  /** The comparison words the rewrite prefixes with `$`. */
  const Operators: set<string> := {"gt", "gte", "lt", "lte"}

  predicate AllWordChars(s: string) {
    forall i :: 0 <= i < |s| ==> IsWordChar(s[i])
  }

  /** Length of the run of word characters at the start of `s`. */
  function WordLength(s: string): (n: nat)
    ensures n <= |s|
    ensures AllWordChars(s[..n])
    ensures n < |s| ==> !IsWordChar(s[n])
  {
    if s == [] || !IsWordChar(s[0]) then 0 else 1 + WordLength(s[1..])
  }

  /**
   * The rewrite of one serialised string. `boundary` says whether the text
   * before `s` ends in a way that leaves a word boundary in front of `s`.
   * Word runs are taken whole, so a run is rewritten exactly when it is one of
   * the operators and both of its ends are word boundaries.
   */
  function Rewrite(s: string, boundary: bool): string
    decreases |s|
  {
    if s == [] then []
    else if IsWordChar(s[0]) then
      var n := WordLength(s);
      var w := s[..n];
      if boundary && w in Operators then "$" + w + Rewrite(s[n..], false)
      else w + Rewrite(s[n..], false)
    else [s[0]] + Rewrite(s[1..], !EscapesToWord(s[0]))
  }

  /** The rewrite applied to a whole JSON string: its opening quote is a boundary. */
  function RewriteString(s: string): string {
    Rewrite(s, true)
  }

  /** Removes the `$` that the rewrite put in front of each operator word. */
  function Unrewrite(o: string): string
    decreases |o|
  {
    if o == [] then []
    else if o[0] == '$' && o[1..][..WordLength(o[1..])] in Operators then
      var n := WordLength(o[1..]);
      o[1..1 + n] + Unrewrite(o[1 + n..])
    else [o[0]] + Unrewrite(o[1..])
  }

  lemma {:induction false} WordLengthOfConcat(w: string, y: string)
    requires AllWordChars(w)
    requires y == [] || !IsWordChar(y[0])
    ensures WordLength(w + y) == |w|
  {
    if w != [] {
      assert (w + y)[1..] == w[1..] + y;
      WordLengthOfConcat(w[1..], y);
    }
  }

  lemma {:induction false} UnrewriteWordPrefix(w: string, y: string)
    requires AllWordChars(w)
    ensures Unrewrite(w + y) == w + Unrewrite(y)
  {
    if w != [] {
      var t := w[1..];
      assert w[0] != '$';
      assert AllWordChars(t) by {
        forall i | 0 <= i < |t| ensures IsWordChar(t[i]) {
          assert t[i] == w[i + 1];
        }
      }
      UnrewriteWordPrefix(t, y);
      UnrewriteHead(w[0], t + y);
      ConsAppend(w, y);
    } else {
      assert w + y == y;
    }
  }

  lemma ConsAppend(w: string, y: string)
    requires w != []
    ensures w + y == [w[0]] + (w[1..] + y)
    ensures w == [w[0]] + w[1..]
  {
  }

  /** A string that starts with a non-word character keeps it in front. */
  lemma RewriteKeepsHead(s: string, b: bool)
    requires s != [] && !IsWordChar(s[0])
    ensures Rewrite(s, b) != [] && Rewrite(s, b)[0] == s[0]
  {
  }

  /** After a `$` that was already in the input, no operator word follows in the output. */
  lemma NoOperatorAfterDollar(t: string)
    ensures var r := Rewrite(t, true); r[..WordLength(r)] !in Operators
  {
    var r := Rewrite(t, true);
    if t == [] {
    } else if !IsWordChar(t[0]) {
      RewriteKeepsHead(t, true);
    } else {
      var n := WordLength(t);
      var w := t[..n];
      if w !in Operators {
        var rest := Rewrite(t[n..], false);
        if t[n..] != [] {
          RewriteKeepsHead(t[n..], false);
        }
        WordLengthOfConcat(w, rest);
        assert r == w + rest;
        assert r[..WordLength(r)] == w;
      }
    }
  }

  /** The rewrite only inserts `$` signs that `Unrewrite` removes again. */
  lemma {:induction false} UnrewriteRewrite(s: string, b: bool)
    ensures Unrewrite(Rewrite(s, b)) == s
    decreases |s|
  {
    if s == [] {
    } else if IsWordChar(s[0]) {
      var n := WordLength(s);
      var w := s[..n];
      var rest := s[n..];
      var r := Rewrite(rest, false);
      UnrewriteRewrite(rest, false);
      if rest != [] {
        RewriteKeepsHead(rest, false);
      }
      if b && w in Operators {
        UnrewriteOperator(w, r);
      } else {
        UnrewriteWordPrefix(w, r);
      }
      TakeDrop(s, n);
    } else {
      var c := s[0];
      var r := Rewrite(s[1..], !EscapesToWord(c));
      UnrewriteRewrite(s[1..], !EscapesToWord(c));
      if c == '$' {
        NoOperatorAfterDollar(s[1..]);
      }
      UnrewriteHead(c, r);
      TakeDrop(s, 1);
      assert s[..1] == [c];
    }
  }

  lemma TakeDrop(s: string, n: nat)
    requires n <= |s|
    ensures s[..n] + s[n..] == s
  {
  }

  /** `Unrewrite` drops the `$` in front of an operator word that ends at a boundary. */
  lemma UnrewriteOperator(w: string, r: string)
    requires AllWordChars(w) && w in Operators
    requires r == [] || !IsWordChar(r[0])
    ensures Unrewrite("$" + w + r) == w + Unrewrite(r)
  {
    var o := "$" + w + r;
    assert o[1..] == w + r;
    WordLengthOfConcat(w, r);
    assert o[1..][..WordLength(o[1..])] == w;
    assert o[1..1 + |w|] == w && o[1 + |w|..] == r;
  }

  /** `Unrewrite` keeps a character that does not start a `$`-prefixed operator. */
  lemma UnrewriteHead(c: char, t: string)
    requires c == '$' ==> t[..WordLength(t)] !in Operators
    ensures Unrewrite([c] + t) == [c] + Unrewrite(t)
  {
    assert ([c] + t)[1..] == t;
  }

  /** Distinct strings stay distinct, so re-parsing the rewritten JSON never merges two keys. */
  lemma RewriteInjective(a: string, b: string)
    ensures RewriteString(a) == RewriteString(b) ==> a == b
  {
    UnrewriteRewrite(a, true);
    UnrewriteRewrite(b, true);
  }

  /** A bracket operator (a single word) gains `$` exactly when it is one of the four comparison words. */
  lemma RewriteOperatorWord(op: string)
    requires op != [] && AllWordChars(op)
    ensures op in Operators ==> RewriteString(op) == "$" + op
    ensures op !in Operators ==> RewriteString(op) == op
  {
    WordLengthOfConcat(op, []);
    assert op + [] == op;
    assert op[..|op|] == op && op[|op|..] == [];
  }

  /** Text without the letters `g` and `l` (numbers, for instance) is never rewritten. */
  lemma {:induction false} RewriteWithoutOperatorLetters(s: string, b: bool)
    requires forall i :: 0 <= i < |s| ==> s[i] != 'g' && s[i] != 'l'
    ensures Rewrite(s, b) == s
    decreases |s|
  {
    if s == [] {
    } else if IsWordChar(s[0]) {
      var n := WordLength(s);
      assert s[..n][0] == s[0];
      RewriteWithoutOperatorLetters(s[n..], false);
      assert s == s[..n] + s[n..];
    } else {
      RewriteWithoutOperatorLetters(s[1..], !EscapesToWord(s[0]));
      assert s == [s[0]] + s[1..];
    }
  }
}
