/** The label query of the dashboard (`evaluateCondition` in
    public/js/dashboard.js). A query is split on white space and its tokens
    are folded left to right into one boolean accumulator that starts out
    true: `&&` does nothing, `||` ORs in a case-sensitive test of the token
    after it and skips that token, `!tok` ANDs in "does not contain tok", and
    any other token ANDs in a case-insensitive test, substring or whole word.
    There is no operator precedence. */
module Query {
  import opened Text

  // ---------------------------------------------------------------------
  // The test of a plain token

  /** The regular-expression assertion `\b` at position `p` of `s`: the
      characters on its two sides differ in being word characters. */
  predicate WordBoundary(s: string, p: int)
    requires 0 <= p <= |s|
  {
    (p > 0 && IsWordChar(s[p - 1])) != (p < |s| && IsWordChar(s[p]))
  }

  predicate WholeWordAt(value: string, token: string, p: int) {
    && 0 <= p && p + |token| <= |value|
    && Lower(value[p..p + |token|]) == Lower(token)
    && WordBoundary(value, p)
    && WordBoundary(value, p + |token|)
  }

  /** `new RegExp("\\b" + token + "\\b", "i").test(value)`, reading the token
      literally. */
  predicate WholeWord(value: string, token: string) {
    exists p | 0 <= p <= |value| :: WholeWordAt(value, token, p)
  }

  /** What a plain token ANDs into the accumulator: a whole-word match in
      strict mode, case-insensitive containment otherwise. */
  predicate TermHolds(value: string, token: string, strict: bool) {
    if strict then WholeWord(value, token) else Contains(Lower(value), Lower(token))
  }

  /** The operand `conditions[i + 1]` of a `||` at index `i`. Past the end it
      is `undefined`, which `includes` reads as the text "undefined". */
  function OrOperand(tokens: seq<string>, i: nat): string {
    if i + 1 < |tokens| then tokens[i + 1] else "undefined"
  }

  // ---------------------------------------------------------------------
  // The fold and the loop that computes it

  /** The accumulator after folding the tokens from index `i` on into `acc`.
      Only an or-operator can turn a false accumulator true: every other
      token either keeps it or conjoins a test to it. */
  function FoldFrom(value: string, tokens: seq<string>, i: nat, acc: bool, strict: bool): (r: bool)
    ensures r ==> acc || exists k | i <= k < |tokens| :: Trim(JsSpace, tokens[k]) == "||"
    decreases |tokens| - i
  {
    if i >= |tokens| then acc
    else
      var cond := Trim(JsSpace, tokens[i]);
      if cond == "&&" then
        FoldFrom(value, tokens, i + 1, acc, strict)
      else if cond == "||" then
        FoldFrom(value, tokens, i + 2, acc || Contains(value, OrOperand(tokens, i)), strict)
      else if |cond| > 0 && cond[0] == '!' then
        FoldFrom(value, tokens, i + 1, acc && !Contains(value, cond[1..]), strict)
      else
        FoldFrom(value, tokens, i + 1, acc && TermHolds(value, cond, strict), strict)
  }

  /** Whether `value` satisfies the query `condition`. */
  function Evaluate(value: string, condition: string, strict: bool): (r: bool)
    ensures condition == "" ==> r
  {
    condition == "" || FoldFrom(value, SplitWhitespace(condition), 0, true, strict)
  }

  /** Unfolds one token of the fold (the accumulator and the next index); a proof helper. */
  lemma FoldStep(value: string, tokens: seq<string>, i: nat, acc: bool, strict: bool)
    requires i < |tokens|
    ensures var cond := Trim(JsSpace, tokens[i]);
      FoldFrom(value, tokens, i, acc, strict)
      == if cond == "&&" then FoldFrom(value, tokens, i + 1, acc, strict)
         else if cond == "||" then FoldFrom(value, tokens, i + 2, acc || Contains(value, OrOperand(tokens, i)), strict)
         else if |cond| > 0 && cond[0] == '!' then FoldFrom(value, tokens, i + 1, acc && !Contains(value, cond[1..]), strict)
         else FoldFrom(value, tokens, i + 1, acc && TermHolds(value, cond, strict), strict)
  {
  }

  /** The loop of `evaluateCondition`, which steps over the operand of `||`. */
  method EvaluateCondition(value: string, condition: string, isStrictSearch: bool) returns (result: bool)
    ensures result == Evaluate(value, condition, isStrictSearch)
  {
    if condition == "" {
      return true;
    }
    var conditions := SplitWhitespace(condition);
    result := true;
    var i := 0;
    while i < |conditions|
      invariant 0 <= i <= |conditions| + 1
      invariant FoldFrom(value, conditions, i, result, isStrictSearch)
             == FoldFrom(value, conditions, 0, true, isStrictSearch)
      decreases |conditions| - i
    {
      i, result := ConditionStep(value, conditions, i, result, isStrictSearch);
    }
  }

  /** One pass of the loop body: it reads the token at `i` (and the operand
      of a `||`), updates the result and moves past what it read, leaving
      the fold of the rest unchanged. */
  method ConditionStep(value: string, conditions: seq<string>, i: nat, result: bool, isStrictSearch: bool)
    returns (next: nat, result': bool)
    requires i < |conditions|
    ensures i < next <= i + 2
    ensures FoldFrom(value, conditions, next, result', isStrictSearch)
         == FoldFrom(value, conditions, i, result, isStrictSearch)
  {
    var cond := Trim(JsSpace, conditions[i]);
    FoldStep(value, conditions, i, result, isStrictSearch);
    if cond == "&&" {
      return i + 1, result;
    }
    if cond == "||" {
      var operand := if i + 1 < |conditions| then conditions[i + 1] else "undefined";
      assert operand == OrOperand(conditions, i);
      result' := result || Contains(value, operand);
      next := i + 2;
    } else if |cond| > 0 && cond[0] == '!' {
      result' := result && !Contains(value, cond[1..]);
      next := i + 1;
    } else if isStrictSearch {
      result' := result && WholeWord(value, cond);
      assert result' == (result && TermHolds(value, cond, isStrictSearch));
      next := i + 1;
    } else {
      result' := result && Contains(Lower(value), Lower(cond));
      assert result' == (result && TermHolds(value, cond, isStrictSearch));
      next := i + 1;
    }
  }

  // ---------------------------------------------------------------------
  // Single tokens

  /** A query of one plain token is that token's test. */
  lemma PlainToken(value: string, token: string, strict: bool)
    requires PlainWord(token)
    ensures Evaluate(value, token, strict) <==> TermHolds(value, token, strict)
  {
    SplitWhitespaceOfWord(token);
    TrimUnpadded(JsSpace, token);
    assert FoldFrom(value, [token], 0, true, strict)
        == FoldFrom(value, [token], 1, TermHolds(value, token, strict), strict);
  }

  /** `!tok` holds exactly when the value does not contain `tok`, with case
      and in either mode. */
  lemma NegatedToken(value: string, token: string, strict: bool)
    requires NoSpace(JsSpace, token)
    ensures Evaluate(value, "!" + token, strict) <==> !Contains(value, token)
  {
    var q := "!" + token;
    assert NoSpace(JsSpace, q) by {
      forall i | 0 <= i < |q| ensures !IsSpace(JsSpace, q[i]) {
        if i > 0 { assert q[i] == token[i - 1]; }
      }
    }
    SplitWhitespaceOfWord(q);
    TrimUnpadded(JsSpace, q);
    assert q[1..] == token;
    assert FoldFrom(value, [q], 0, true, strict)
        == FoldFrom(value, [q], 1, !Contains(value, token), strict);
  }

  /** A whole-word match is also a case-insensitive substring match. */
  lemma WholeWordIsContained(value: string, token: string)
    requires WholeWord(value, token)
    ensures Contains(Lower(value), Lower(token))
  {
    var p :| 0 <= p <= |value| && WholeWordAt(value, token, p);
    var q := p + |token|;
    var lv, lt := Lower(value), Lower(token);
    assert Lower(value[p..q]) == lt;
    LowerSlice(value, p, q);
    assert |lt| == |token| && lv[p..q] == lt;
    assert OccursAt(lv, lt, p);
  }

  /** For one plain token, strict mode accepts no more than the default mode. */
  lemma StrictTokenImpliesLoose(value: string, token: string)
    requires PlainWord(token)
    ensures Evaluate(value, token, true) ==> Evaluate(value, token, false)
  {
    PlainToken(value, token, true);
    PlainToken(value, token, false);
    if WholeWord(value, token) {
      WholeWordIsContained(value, token);
    }
  }

  // ---------------------------------------------------------------------
  // The fold as a whole

  /** What a token other than `||` contributes: `&&` nothing, `!tok`
      non-containment, any other token its test. */
  predicate Literal(value: string, cond: string, strict: bool) {
    if cond == "&&" then true
    else if |cond| > 0 && cond[0] == '!' then !Contains(value, cond[1..])
    else TermHolds(value, cond, strict)
  }

  predicate NoOrFrom(tokens: seq<string>, i: nat) {
    forall k | i <= k < |tokens| :: Trim(JsSpace, tokens[k]) != "||"
  }

  /** Without `||` the fold is the conjunction of the tokens' literals, so
      `&&` changes nothing and the order of the tokens does not matter. */
  lemma {:induction false} FoldWithoutOr(value: string, tokens: seq<string>, i: nat, acc: bool, strict: bool)
    requires NoOrFrom(tokens, i)
    ensures FoldFrom(value, tokens, i, acc, strict)
        <==> acc && forall k | i <= k < |tokens| :: Literal(value, Trim(JsSpace, tokens[k]), strict)
    decreases |tokens| - i
  {
    if i < |tokens| {
      var cond := Trim(JsSpace, tokens[i]);
      var acc' := acc && Literal(value, cond, strict);
      assert cond != "||";
      assert FoldFrom(value, tokens, i, acc, strict) == FoldFrom(value, tokens, i + 1, acc', strict) by {
        if cond == "&&" {
        } else if |cond| > 0 && cond[0] == '!' {
        } else {
        }
      }
      FoldWithoutOr(value, tokens, i + 1, acc', strict);
      assert (forall k | i <= k < |tokens| :: Literal(value, Trim(JsSpace, tokens[k]), strict))
        <==> Literal(value, cond, strict)
             && forall k | i + 1 <= k < |tokens| :: Literal(value, Trim(JsSpace, tokens[k]), strict);
    }
  }

  /** A larger accumulator never gives a smaller result. */
  lemma {:induction false} FoldMonotone(value: string, tokens: seq<string>, i: nat, acc: bool, acc': bool, strict: bool)
    requires acc ==> acc'
    ensures FoldFrom(value, tokens, i, acc, strict) ==> FoldFrom(value, tokens, i, acc', strict)
    decreases |tokens| - i
  {
    if i < |tokens| {
      var cond := Trim(JsSpace, tokens[i]);
      if cond == "&&" {
        FoldMonotone(value, tokens, i + 1, acc, acc', strict);
      } else if cond == "||" {
        var o := Contains(value, OrOperand(tokens, i));
        FoldMonotone(value, tokens, i + 2, acc || o, acc' || o, strict);
      } else if |cond| > 0 && cond[0] == '!' {
        var o := !Contains(value, cond[1..]);
        FoldMonotone(value, tokens, i + 1, acc && o, acc' && o, strict);
      } else {
        var o := TermHolds(value, cond, strict);
        FoldMonotone(value, tokens, i + 1, acc && o, acc' && o, strict);
      }
    }
  }

  // ---------------------------------------------------------------------
  // Queries with `||`

  /** A token that is tested on its own: not empty, no white space, not an
      operator and not negated. */
  predicate PlainWord(t: string) {
    t != "" && NoSpace(JsSpace, t) && t != "&&" && t != "||" && t[0] != '!'
  }

  /** The words of a query, each free of white space and not empty. */
  predicate Words(tokens: seq<string>) {
    forall k | 0 <= k < |tokens| :: tokens[k] != "" && NoSpace(JsSpace, tokens[k])
  }

  /** A query written as words joined by single spaces is the fold over
      those words. */
  lemma EvaluateWords(value: string, words: seq<string>, strict: bool)
    requires |words| >= 1 && Words(words)
    ensures Evaluate(value, Join(words, " "), strict) == FoldFrom(value, words, 0, true, strict)
  {
    var q := Join(words, " ");
    assert words[0] <= q && words[0] != "";
    SplitWhitespaceJoin(words);
  }

  /** The fold over `a || b`. */
  lemma FoldOrOfTwo(value: string, tokens: seq<string>, strict: bool)
    requires |tokens| == 3 && PlainWord(tokens[0]) && tokens[1] == "||"
    ensures FoldFrom(value, tokens, 0, true, strict)
        <==> TermHolds(value, tokens[0], strict) || Contains(value, tokens[2])
  {
    TrimUnpadded(JsSpace, tokens[0]);
    TrimUnpadded(JsSpace, "||");
    var first := TermHolds(value, tokens[0], strict);
    FoldStep(value, tokens, 0, true, strict);
    FoldStep(value, tokens, 1, first, strict);
  }

  /** `a || b` is `a`'s test or-ed with a case-sensitive containment of `b`,
      whatever the mode. */
  lemma OrOfTwo(value: string, a: string, b: string, strict: bool)
    requires PlainWord(a) && NoSpace(JsSpace, b) && b != ""
    ensures Evaluate(value, Join([a, "||", b], " "), strict)
        <==> TermHolds(value, a, strict) || Contains(value, b)
  {
    var tokens := [a, "||", b];
    assert Words(tokens);
    EvaluateWords(value, tokens, strict);
    FoldOrOfTwo(value, tokens, strict);
  }

  /** The fold over `a || b && c`. */
  lemma FoldOrThenAnd(value: string, tokens: seq<string>, strict: bool)
    requires |tokens| == 5 && PlainWord(tokens[0]) && tokens[1] == "||"
    requires tokens[3] == "&&" && PlainWord(tokens[4])
    ensures FoldFrom(value, tokens, 0, true, strict)
        <==> (TermHolds(value, tokens[0], strict) || Contains(value, tokens[2]))
             && TermHolds(value, tokens[4], strict)
  {
    TrimUnpadded(JsSpace, tokens[0]);
    TrimUnpadded(JsSpace, "||");
    TrimUnpadded(JsSpace, "&&");
    TrimUnpadded(JsSpace, tokens[4]);
    var first := TermHolds(value, tokens[0], strict);
    var acc := first || Contains(value, tokens[2]);
    FoldStep(value, tokens, 0, true, strict);
    FoldStep(value, tokens, 1, first, strict);
    FoldStep(value, tokens, 3, acc, strict);
    FoldStep(value, tokens, 4, acc, strict);
  }

  /** `a || b && c` is folded as `(a || b) && c`, not as `a || (b && c)`. */
  lemma OrThenAnd(value: string, a: string, b: string, c: string, strict: bool)
    requires PlainWord(a) && PlainWord(c) && NoSpace(JsSpace, b) && b != ""
    ensures Evaluate(value, Join([a, "||", b, "&&", c], " "), strict)
        <==> (TermHolds(value, a, strict) || Contains(value, b)) && TermHolds(value, c, strict)
  {
    var tokens := [a, "||", b, "&&", c];
    assert tokens[0] == a && tokens[1] == "||" && tokens[2] == b && tokens[3] == "&&" && tokens[4] == c;
    assert Words(tokens) by {
      forall k | 0 <= k < 5
        ensures tokens[k] != "" && NoSpace(JsSpace, tokens[k])
      {
      }
    }
    EvaluateWords(value, tokens, strict);
    FoldOrThenAnd(value, tokens, strict);
  }

  /** The fold over `a ||` with nothing after the `||`. */
  lemma FoldTrailingOr(value: string, tokens: seq<string>, strict: bool)
    requires |tokens| == 2 && PlainWord(tokens[0]) && tokens[1] == "||"
    ensures FoldFrom(value, tokens, 0, true, strict)
        <==> TermHolds(value, tokens[0], strict) || Contains(value, "undefined")
  {
    TrimUnpadded(JsSpace, tokens[0]);
    TrimUnpadded(JsSpace, "||");
    var first := TermHolds(value, tokens[0], strict);
    assert OrOperand(tokens, 1) == "undefined";
    FoldStep(value, tokens, 0, true, strict);
    FoldStep(value, tokens, 1, first, strict);
  }

  /** A trailing `||` reads past the end of the tokens and tests for the text
      "undefined". */
  lemma TrailingOr(value: string, a: string, strict: bool)
    requires PlainWord(a)
    ensures Evaluate(value, Join([a, "||"], " "), strict)
        <==> TermHolds(value, a, strict) || Contains(value, "undefined")
  {
    var tokens := [a, "||"];
    assert Words(tokens);
    EvaluateWords(value, tokens, strict);
    FoldTrailingOr(value, tokens, strict);
  }
}
