/**
 * The LaTeX token counting of python_scripts/top_latex_by_keyword.py.
 * `remove_latex_symbols` strips the math delimiters from each expression.
 * `tokenize_latex` splits the stripped expressions on whitespace, drops `\`
 * and `/` from each token, and counts how often each resulting token occurs.
 */
module LatexTokens {
  import opened PyStr

  /**
   * `remove_expressions`, in order. In Python 2 the literals "\\(" and "\("
   * are the same two characters, so `\(` and `\)` each appear twice.
   */
  const RemoveExpressions: seq<string> := ["\\(", "\\)", "\\(", "\\)", "\\[", "\\]"]

  lemma RemoveExpressionsNonEmpty()
    ensures |RemoveExpressions| == 6
    ensures forall k :: 0 <= k < |RemoveExpressions| ==> |RemoveExpressions[k]| == 2
  {
  }

  /** The expression after the inner loop has handled the first `k` entries of `RemoveExpressions`. */
  function StripFirst(latex: string, k: nat): string
    requires k <= |RemoveExpressions|
  {
    if k == 0 then latex
    else
      var prev := StripFirst(latex, k - 1);
      var removeExp := RemoveExpressions[k - 1];
      RemoveExpressionsNonEmpty();
      if Contains(prev, removeExp) then Replace(prev, removeExp, "") else prev
  }

  /** One expression with every delimiter entry handled. */
  function StripDelimiters(latex: string): string
  {
    StripFirst(latex, |RemoveExpressions|)
  }

  /** The same `k` steps without the `in` test: each entry's occurrences are removed in turn. */
  function RemoveFirst(latex: string, k: nat): string
    requires k <= |RemoveExpressions|
  {
    if k == 0 then latex
    else
      RemoveExpressionsNonEmpty();
      Replace(RemoveFirst(latex, k - 1), RemoveExpressions[k - 1], "")
  }

  /** The `in` test only skips a `replace` that would change nothing. */
  lemma {:induction false} GuardRedundant(latex: string, k: nat)
    requires k <= |RemoveExpressions|
    ensures StripFirst(latex, k) == RemoveFirst(latex, k)
  {
    if k > 0 {
      GuardRedundant(latex, k - 1);
      RemoveExpressionsNonEmpty();
      var prev := StripFirst(latex, k - 1);
      if !Contains(prev, RemoveExpressions[k - 1]) {
        ReplaceAbsent(prev, RemoveExpressions[k - 1], "");
      }
    }
  }

  /**
   * Stripping removes every occurrence of each delimiter entry, one entry
   * after the other in list order, and never makes an expression longer.
   */
  lemma StripDelimitersSequential(latex: string)
    ensures StripDelimiters(latex) ==
      Replace(Replace(Replace(Replace(Replace(Replace(latex, "\\(", ""), "\\)", ""), "\\(", ""), "\\)", ""), "\\[", ""), "\\]", "")
    ensures |StripDelimiters(latex)| <= |latex|
  {
    GuardRedundant(latex, 6);
    RemoveFirstShrinks(latex, 6);
    var r := RemoveExpressions;
    assert RemoveFirst(latex, 1) == Replace(latex, r[0], "");
    assert RemoveFirst(latex, 2) == Replace(RemoveFirst(latex, 1), r[1], "");
    assert RemoveFirst(latex, 3) == Replace(RemoveFirst(latex, 2), r[2], "");
    assert RemoveFirst(latex, 4) == Replace(RemoveFirst(latex, 3), r[3], "");
    assert RemoveFirst(latex, 5) == Replace(RemoveFirst(latex, 4), r[4], "");
    assert RemoveFirst(latex, 6) == Replace(RemoveFirst(latex, 5), r[5], "");
  }

  lemma {:induction false} RemoveFirstShrinks(latex: string, k: nat)
    requires k <= |RemoveExpressions|
    ensures |RemoveFirst(latex, k)| <= |latex|
  {
    if k > 0 {
      RemoveFirstShrinks(latex, k - 1);
      RemoveExpressionsNonEmpty();
      ReplaceShrinks(RemoveFirst(latex, k - 1), RemoveExpressions[k - 1]);
    }
  }

  /** `remove_latex_symbols`: each expression stripped, the list kept in length and order. */
  method RemoveLatexSymbols(listOfLatex: seq<string>) returns (latexExpressions: seq<string>)
    ensures |latexExpressions| == |listOfLatex|
    ensures forall i :: 0 <= i < |listOfLatex| ==> latexExpressions[i] == StripDelimiters(listOfLatex[i])
  {
    var removeExpressions := RemoveExpressions;
    RemoveExpressionsNonEmpty();
    latexExpressions := [];
    for n := 0 to |listOfLatex|
      invariant |latexExpressions| == n
      invariant forall i :: 0 <= i < n ==> latexExpressions[i] == StripDelimiters(listOfLatex[i])
    {
      var latex := listOfLatex[n];
      for k := 0 to |removeExpressions|
        invariant latex == StripFirst(listOfLatex[n], k)
      {
        var removeExp := removeExpressions[k];
        if Contains(latex, removeExp) {
          latex := Replace(latex, removeExp, "");
        }
      }
      latexExpressions := latexExpressions + [latex];
    }
  }

  /** `val.replace('\\', '').replace('/', '')`: the token with every backslash and slash removed. */
  function CleanToken(val: string): string
  {
    Replace(Replace(val, "\\", ""), "/", "")
  }

  /** A cleaned token holds no backslash and no slash, and is no longer than the raw one. */
  lemma CleanTokenFree(val: string)
    ensures '\\' !in CleanToken(val) && '/' !in CleanToken(val)
    ensures |CleanToken(val)| <= |val|
  {
    RemoveCharGone(val, "\\");
    RemoveCharGone(Replace(val, "\\", ""), "/");
    ReplaceKeepsOut(Replace(val, "\\", ""), "/", "", '\\');
  }

  /** The whitespace tokens of the stripped expressions joined by spaces. */
  function Tokens(listOfLatex: seq<string>): seq<string>
  {
    Words(Join(" ", seq(|listOfLatex|, i requires 0 <= i < |listOfLatex| => StripDelimiters(listOfLatex[i]))))
  }

  /** `latex_count` after the loop has read `tokens`. */
  function Counts(tokens: seq<string>): map<string, nat>
  {
    if tokens == [] then map[]
    else
      var m := Counts(tokens[..|tokens| - 1]);
      var token := CleanToken(tokens[|tokens| - 1]);
      if token in m then m[token := m[token] + 1] else m[token := 1]
  }

  /** Every key is a cleaned token, free of `\` and `/`, and every count is at least one. */
  lemma {:induction false} CountsKeys(tokens: seq<string>)
    ensures forall k :: k in Counts(tokens) ==> '\\' !in k && '/' !in k && Counts(tokens)[k] >= 1
  {
    if tokens != [] {
      CountsKeys(tokens[..|tokens| - 1]);
      CleanTokenFree(tokens[|tokens| - 1]);
    }
  }

  /** How many of `tokens` clean to `k`. */
  function Mult(tokens: seq<string>, k: string): nat
  {
    if tokens == [] then 0
    else Mult(tokens[..|tokens| - 1], k) + (if CleanToken(tokens[|tokens| - 1]) == k then 1 else 0)
  }

  /** `k` is a key exactly when some token cleans to it, and its count is the number of such tokens. */
  lemma {:induction false} CountsMult(tokens: seq<string>, k: string)
    ensures k in Counts(tokens) <==> Mult(tokens, k) > 0
    ensures k in Counts(tokens) ==> Counts(tokens)[k] == Mult(tokens, k)
  {
    if tokens != [] {
      CountsMult(tokens[..|tokens| - 1], k);
    }
  }

  /** The sum of the counts of a map. */
  ghost function Total(m: map<string, nat>): nat
    decreases |m.Keys|
  {
    if m.Keys == {} then 0
    else
      var k :| k in m.Keys;
      assert (m - {k}).Keys < m.Keys;
      m[k] + Total(m - {k})
  }

  /** The sum may be taken starting from any key. */
  lemma {:induction false} TotalRemove(m: map<string, nat>, k: string)
    requires k in m
    ensures Total(m) == m[k] + Total(m - {k})
    decreases |m.Keys|
  {
    var j :| j in m.Keys && Total(m) == m[j] + Total(m - {j});
    if j != k {
      assert (m - {j}).Keys < m.Keys;
      assert (m - {k}).Keys < m.Keys;
      TotalRemove(m - {j}, k);
      TotalRemove(m - {k}, j);
      assert m - {j} - {k} == m - {k} - {j};
    }
  }

  /** The counts add up to the number of tokens read. */
  lemma {:induction false} CountsTotal(tokens: seq<string>)
    ensures Total(Counts(tokens)) == |tokens|
  {
    if tokens != [] {
      var n := |tokens| - 1;
      var m := Counts(tokens[..n]);
      var token := CleanToken(tokens[n]);
      var m' := Counts(tokens);
      CountsTotal(tokens[..n]);
      TotalRemove(m', token);
      assert m' - {token} == m - {token};
      if token in m {
        TotalRemove(m, token);
      } else {
        assert m - {token} == m;
      }
    }
  }

  /** With no expressions there are no tokens, so the map is empty. */
  lemma TokenizeEmpty()
    ensures Counts(Tokens([])) == map[]
  {
    assert Tokens([]) == [];
  }

  /** A token made only of `\` and `/` is counted under the empty string. */
  lemma SlashOnlyTokenCountsAsEmpty()
    ensures Counts(["\\/"]) == map["" := 1]
  {
    assert Counts(["\\/"][..0]) == map[];
    assert Replace("\\/", "\\", "") == "/";
    assert Replace("/", "/", "") == "";
  }

  /** `tokenize_latex`. */
  method TokenizeLatex(listOfLatex: seq<string>) returns (latexCount: map<string, nat>)
    ensures latexCount == Counts(Tokens(listOfLatex))
    ensures forall k :: k in latexCount ==> '\\' !in k && '/' !in k && latexCount[k] >= 1
    ensures Total(latexCount) == |Tokens(listOfLatex)|
    ensures forall k :: k in latexCount <==> Mult(Tokens(listOfLatex), k) > 0
    ensures forall k :: k in latexCount ==> latexCount[k] == Mult(Tokens(listOfLatex), k)
  {
    latexCount := map[];
    var latex := RemoveLatexSymbols(listOfLatex);
    var latexTokens := Words(Join(" ", latex));
    assert latexTokens == Tokens(listOfLatex) by {
      assert latex == seq(|listOfLatex|, i requires 0 <= i < |listOfLatex| => StripDelimiters(listOfLatex[i]));
    }
    for i := 0 to |latexTokens|
      invariant latexCount == Counts(latexTokens[..i])
    {
      var val := latexTokens[i];
      var token := CleanToken(val);
      assert latexTokens[..i + 1][..i] == latexTokens[..i];
      if token in latexCount {
        latexCount := latexCount[token := latexCount[token] + 1];
      } else {
        latexCount := latexCount[token := 1];
      }
    }
    assert latexTokens[..|latexTokens|] == latexTokens;
    CountsKeys(latexTokens);
    CountsTotal(latexTokens);
    forall k
      ensures k in latexCount <==> Mult(latexTokens, k) > 0
      ensures k in latexCount ==> latexCount[k] == Mult(latexTokens, k)
    {
      CountsMult(latexTokens, k);
    }
  }
}
