/**
 * The keyword search of python_scripts/find_keywords_in_text.py. For every
 * question text, it reports the tags whose whitespace tokens all appear among
 * the question's whitespace tokens.
 */
module KeywordsInText {
  import opened PyStr

  /** Every token of `keyword` is a token of `question`; tokens are compared whole. */
  predicate KeywordInText(question: string, keyword: string)
  {
    forall token :: token in Words(keyword) ==> token in Words(question)
  }

  /** `keywords_found_in_text` for one question: the matching tags, in tag-list order. */
  function Found(question: string, tags: seq<string>): seq<string>
  {
    if tags == [] then []
    else
      var prev := Found(question, tags[..|tags| - 1]);
      var keyword := tags[|tags| - 1];
      if KeywordInText(question, keyword) then prev + [keyword] else prev
  }

  /** The positions in `tags` of the tags that match, in increasing order. */
  function FoundIndices(question: string, tags: seq<string>): seq<nat>
  {
    if tags == [] then []
    else
      var prev := FoundIndices(question, tags[..|tags| - 1]);
      if KeywordInText(question, tags[|tags| - 1]) then prev + [|tags| - 1] else prev
  }

  /** A tag is reported exactly when it is in the tag list and all its tokens occur in the question. */
  lemma {:induction false} FoundMembers(question: string, tags: seq<string>)
    ensures forall k :: k in Found(question, tags) <==> k in tags && KeywordInText(question, k)
  {
    if tags != [] {
      FoundMembers(question, tags[..|tags| - 1]);
      assert tags == tags[..|tags| - 1] + [tags[|tags| - 1]];
    }
  }

  /** The found list is a subsequence of the tag list: it takes the tags at strictly increasing positions. */
  lemma {:induction false} FoundSubsequence(question: string, tags: seq<string>)
    ensures |FoundIndices(question, tags)| == |Found(question, tags)|
    ensures forall i :: 0 <= i < |FoundIndices(question, tags)| ==>
      FoundIndices(question, tags)[i] < |tags| && Found(question, tags)[i] == tags[FoundIndices(question, tags)[i]]
    ensures forall i, j :: 0 <= i < j < |FoundIndices(question, tags)| ==>
      FoundIndices(question, tags)[i] < FoundIndices(question, tags)[j]
  {
    if tags != [] {
      FoundSubsequence(question, tags[..|tags| - 1]);
    }
  }

  /** The positions taken are exactly those of the matching tags. */
  lemma {:induction false} FoundIndicesMatch(question: string, tags: seq<string>)
    ensures forall p :: 0 <= p < |tags| ==> (p in FoundIndices(question, tags) <==> KeywordInText(question, tags[p]))
  {
    if tags != [] {
      var n := |tags| - 1;
      var prev := FoundIndices(question, tags[..n]);
      FoundIndicesMatch(question, tags[..n]);
      assert n !in prev by {
        FoundSubsequence(question, tags[..n]);
      }
      forall p | 0 <= p < n ensures tags[..n][p] == tags[p] {
      }
    }
  }

  /** A tag with no tokens (empty or all whitespace) is reported for every question. */
  lemma BlankKeywordAlwaysFound(question: string, tags: seq<string>, keyword: string)
    requires keyword in tags
    requires forall i :: 0 <= i < |keyword| ==> IsSpace(keyword[i])
    ensures keyword in Found(question, tags)
  {
    BlankHasNoWords(keyword);
    FoundMembers(question, tags);
  }

  lemma {:induction false} BlankHasNoWords(s: string)
    requires forall i :: 0 <= i < |s| ==> IsSpace(s[i])
    ensures Words(s) == []
    decreases |s|
  {
    if |s| > 0 {
      BlankHasNoWords(s[1..]);
    }
  }

  lemma {:induction false} WordEndNoSpace(s: string, i: nat)
    requires i <= |s| && NoSpace(s)
    ensures WordEnd(s, i) == |s|
    decreases |s| - i
  {
    if i < |s| {
      WordEndNoSpace(s, i + 1);
    }
  }

  /** A non-empty string without whitespace is a single token. */
  lemma OneWord(s: string)
    requires |s| > 0 && NoSpace(s)
    ensures Words(s) == [s]
  {
    WordEndNoSpace(s, 0);
    assert !IsSpace(s[0]);
    assert s[..|s|] == s;
    assert Words(s[|s|..]) == [];
  }

  /** Matching is by whole token: "alg" is a substring of the question "algebra" but is not reported for it. */
  lemma WholeTokenMatch()
    ensures !KeywordInText("algebra", "alg")
    ensures KeywordInText("algebra", "algebra")
  {
    assert NoSpace("algebra") by {
      forall i | 0 <= i < 7 ensures !IsSpace("algebra"[i]) {
        assert "algebra"[i] in "algebr";
      }
    }
    assert NoSpace("alg") by {
      forall i | 0 <= i < 3 ensures !IsSpace("alg"[i]) {
        assert "alg"[i] in "alg";
      }
    }
    OneWord("algebra");
    OneWord("alg");
    assert "alg" in Words("alg") && "alg" !in Words("algebra");
  }

  /**
   * The body of the question loop in `main`: tokenise the question once,
   * then test each tag's tokens against that token set.
   */
  method KeywordsFoundInText(question: string, tags: seq<string>) returns (keywordsFoundInText: seq<string>)
    ensures keywordsFoundInText == Found(question, tags)
  {
    keywordsFoundInText := [];
    var questionTokens := map token | token in Words(question) :: 0;
    for t := 0 to |tags|
      invariant keywordsFoundInText == Found(question, tags[..t])
    {
      var keyword := tags[t];
      var keywordTokens := Words(keyword);
      var questionContainsTokens := [];
      for j := 0 to |keywordTokens|
        invariant |questionContainsTokens| == j
        invariant forall i :: 0 <= i < j ==> (questionContainsTokens[i] <==> keywordTokens[i] in Words(question))
      {
        if keywordTokens[j] in questionTokens {
          questionContainsTokens := questionContainsTokens + [true];
        } else {
          questionContainsTokens := questionContainsTokens + [false];
        }
      }
      var allTrue := forall i :: 0 <= i < |questionContainsTokens| ==> questionContainsTokens[i];
      assert allTrue == KeywordInText(question, keyword) by {
        if allTrue {
          forall token | token in keywordTokens ensures token in Words(question) {
            var i :| 0 <= i < |keywordTokens| && keywordTokens[i] == token;
          }
        }
      }
      assert tags[..t + 1][..t] == tags[..t];
      if allTrue {
        keywordsFoundInText := keywordsFoundInText + [keyword];
      }
    }
    assert tags[..|tags|] == tags;
  }

  /**
   * The loop of `main` over the questions, lifted out: one list of found
   * tags per question, in question order.
   */
  method FindKeywordsInText(questions: seq<string>, tags: seq<string>) returns (totalKeywordsFoundInText: seq<seq<string>>)
    ensures |totalKeywordsFoundInText| == |questions|
    ensures forall n :: 0 <= n < |questions| ==> totalKeywordsFoundInText[n] == Found(questions[n], tags)
  {
    totalKeywordsFoundInText := [];
    for n := 0 to |questions|
      invariant |totalKeywordsFoundInText| == n
      invariant forall m :: 0 <= m < n ==> totalKeywordsFoundInText[m] == Found(questions[m], tags)
    {
      var keywordsFoundInText := KeywordsFoundInText(questions[n], tags);
      totalKeywordsFoundInText := totalKeywordsFoundInText + [keywordsFoundInText];
    }
  }
}
