/**
 * The parsers of python_scripts/extract_question_tag_info.py. They read the
 * lines of one tagged question file and produce its keywords, its question
 * text and the LaTeX expressions embedded in that text. A final loop gathers,
 * per keyword, how many questions carry it and the paths of those questions.
 * Reading the files, the pandas tables and the CSV output are left out: the
 * model starts from the lines of a file and from (path, keywords) pairs.
 */
module QuestionTagInfo {
  import opened PyStr
  import opened Optional

  // ---------------------------------------------------------------------------
  // get_keywords

  /** A line `get_keywords` reads keywords from: it starts with `##` and contains `KEYWORDS`. */
  predicate IsKeywordLine(line: string)
  {
    StartsWith(line, "##") && Contains(line, "KEYWORDS")
  }

  /** The text between the first `(` and the first `)`, sliced as Python slices it. */
  function KeywordField(line: string): string
  {
    Slice(line, Find(line, "(", 0) + 1, Find(line, ")", 0))
  }

  /** A normalised keyword: no `'`, no whitespace at either end, no capital letter. */
  predicate Normalized(k: string)
  {
    && '\'' !in k
    && (k == [] || (!IsSpace(k[0]) && !IsSpace(k[|k| - 1])))
    && forall i :: 0 <= i < |k| ==> !IsUpper(k[i])
  }

  /** Stripping keeps a character out when it was out. */
  lemma StripKeepsOut(s: string, c: char)
    requires c !in s
    ensures c !in Strip(s)
  {
    var left := StripLeft(s);
    assert left == s[|s| - |left|..];
    assert Strip(s) == left[..|Strip(s)|];
  }

  /** Lower-casing changes only capital letters, into small letters, so it adds no `'` and no whitespace. */
  lemma LowerKeepsShape(s: string)
    requires '\'' !in s
    requires s == [] || (!IsSpace(s[0]) && !IsSpace(s[|s| - 1]))
    ensures Normalized(Lower(s))
  {
    var r := Lower(s);
    forall i | 0 <= i < |s| ensures r[i] != '\'' && (IsSpace(r[i]) ==> IsSpace(s[i])) {
      assert r[i] == LowerChar(s[i]);
    }
  }

  /** One comma-separated tag with `'` removed, then trimmed, then lower-cased. */
  function NormalizeTag(tag: string): (r: string)
    ensures Normalized(r)
  {
    RemoveCharGone(tag, "'");
    StripKeepsOut(Replace(tag, "'", ""), '\'');
    LowerKeepsShape(Strip(Replace(tag, "'", "")));
    Lower(Strip(Replace(tag, "'", "")))
  }

  /** The keywords one KEYWORDS line gives, before duplicates are removed. */
  function LineKeywords(line: string): (r: seq<string>)
    ensures |r| >= 1
  {
    var pieces := SplitOn(KeywordField(line), ',');
    seq(|pieces|, i requires 0 <= i < |pieces| => NormalizeTag(pieces[i]))
  }

  /** Every keyword a KEYWORDS line gives is normalised. */
  lemma LineKeywordsNormalized(line: string)
    ensures forall i :: 0 <= i < |LineKeywords(line)| ==> Normalized(LineKeywords(line)[i])
  {
    var pieces := SplitOn(KeywordField(line), ',');
    forall i | 0 <= i < |pieces| ensures Normalized(LineKeywords(line)[i]) {
      assert LineKeywords(line)[i] == NormalizeTag(pieces[i]);
    }
  }

  /** The body of `get_keywords` for one KEYWORDS line: the field split on commas, then each tag rewritten in place. */
  method ParseKeywordLine(line: string) returns (keywordList: seq<string>)
    ensures keywordList == LineKeywords(line)
  {
    var start := Find(line, "(", 0) + 1;
    var end := Find(line, ")", 0);
    keywordList := SplitOn(Slice(line, start, end), ',');
    ghost var pieces := keywordList;
    for i := 0 to |keywordList|
      invariant |keywordList| == |pieces|
      invariant forall j :: 0 <= j < i ==> keywordList[j] == NormalizeTag(pieces[j])
      invariant forall j :: i <= j < |keywordList| ==> keywordList[j] == pieces[j]
    {
      keywordList := keywordList[i := Replace(keywordList[i], "'", "")];
      keywordList := keywordList[i := Strip(keywordList[i])];
      keywordList := keywordList[i := Lower(keywordList[i])];
    }
  }

  /** None of the first `n` lines is a KEYWORDS line. */
  predicate NoKeywordLineBefore(lines: seq<string>, n: nat)
  {
    forall i :: 0 <= i < n && i < |lines| ==> !IsKeywordLine(lines[i])
  }

  /** Line `i` is the last KEYWORDS line among the first `n` lines. */
  predicate LastKeywordLineBefore(lines: seq<string>, i: nat, n: nat)
  {
    i < n <= |lines| && IsKeywordLine(lines[i]) && forall j :: i < j < n ==> !IsKeywordLine(lines[j])
  }

  /** The index of the last KEYWORDS line among the first `n` lines, or -1 when there is none. */
  function LastKeywordLine(lines: seq<string>, n: nat): (i: int)
    requires n <= |lines|
    ensures -1 <= i < n
    ensures i == -1 <==> NoKeywordLineBefore(lines, n)
    ensures i != -1 ==> LastKeywordLineBefore(lines, i, n)
  {
    if n == 0 then -1
    else if IsKeywordLine(lines[n - 1]) then n - 1
    else LastKeywordLine(lines, n - 1)
  }

  /**
   * `get_keywords`. `None` is the UnboundLocalError raised when no line is a
   * KEYWORDS line. Python's `list(set(...))` has no fixed order; the model
   * keeps first occurrences, and the contract promises only the set of
   * keywords and that none is repeated.
   */
  method GetKeywords(questionFileLines: seq<string>) returns (r: Option<seq<string>>)
    ensures r.None? <==> LastKeywordLine(questionFileLines, |questionFileLines|) == -1
    ensures r.Some? ==> NoDuplicates(r.value)
    ensures r.Some? ==> forall k :: k in r.value <==>
      k in LineKeywords(questionFileLines[LastKeywordLine(questionFileLines, |questionFileLines|)])
  {
    var keywordList: Option<seq<string>> := None;
    ghost var last := -1;
    for n := 0 to |questionFileLines|
      invariant last == LastKeywordLine(questionFileLines, n)
      invariant keywordList.None? <==> last == -1
      invariant keywordList.Some? ==> keywordList.value == LineKeywords(questionFileLines[last])
    {
      var line := questionFileLines[n];
      if StartsWith(line, "##") {
        if Contains(line, "KEYWORDS") {
          var tags := ParseKeywordLine(line);
          keywordList := Some(tags);
          last := n;
        }
      }
    }
    if keywordList.None? {
      return None;
    }
    r := Some(Distinct(keywordList.value));
  }

  // ---------------------------------------------------------------------------
  // get_question_text

  /** A line that marks where the question text starts or ends. */
  predicate IsMarkerLine(line: string)
  {
    Contains(line, "EOT") || Contains(line, "$BR") || Contains(line, "BEGIN_TEXT") || Contains(line, "END_TEXT")
  }

  /** `indices` after the loop of `get_question_text`: the marker lines, in increasing order. */
  function MarkerIndices(lines: seq<string>): seq<nat>
  {
    if lines == [] then []
    else
      var n := |lines| - 1;
      var prev := MarkerIndices(lines[..n]);
      if IsMarkerLine(lines[n]) then prev + [n] else prev
  }

  /** Each entry is below the next. */
  predicate Increasing(r: seq<nat>)
  {
    forall j1, j2 :: 0 <= j1 < j2 < |r| ==> r[j1] < r[j2]
  }

  /** In an increasing sequence every element lies between the first and the last. */
  lemma IncreasingBounds(r: seq<nat>, x: nat)
    requires Increasing(r) && x in r
    ensures r[0] <= x <= r[|r| - 1]
  {
    var k :| 0 <= k < |r| && r[k] == x;
  }

  /** The indices lie within the lines and increase. */
  lemma {:induction false} MarkerIndicesSorted(lines: seq<string>)
    ensures forall p :: p in MarkerIndices(lines) ==> p < |lines|
    ensures Increasing(MarkerIndices(lines))
  {
    if lines != [] {
      var n := |lines| - 1;
      var prev := MarkerIndices(lines[..n]);
      MarkerIndicesSorted(lines[..n]);
      if IsMarkerLine(lines[n]) {
        var r := prev + [n];
        forall j1, j2 | 0 <= j1 < j2 < |r| ensures r[j1] < r[j2] {
          assert r[j1] in prev;
        }
      }
    }
  }

  /** An index is listed exactly when its line is a marker line. */
  lemma {:induction false} MarkerIndicesMembers(lines: seq<string>)
    ensures forall i :: 0 <= i < |lines| ==> (i in MarkerIndices(lines) <==> IsMarkerLine(lines[i]))
  {
    if lines != [] {
      var n := |lines| - 1;
      MarkerIndicesSorted(lines[..n]);
      MarkerIndicesMembers(lines[..n]);
      assert forall i :: 0 <= i < n ==> lines[..n][i] == lines[i];
    }
  }

  /** Removes `$BR`, then newlines. */
  function CleanText(s: string): (r: string)
    ensures '\n' !in r
  {
    RemoveCharGone(Replace(s, "$BR", ""), "\n");
    Replace(Replace(s, "$BR", ""), "\n", "")
  }

  /** The question text of a file's lines. */
  function QuestionText(lines: seq<string>): (r: string)
    ensures '\n' !in r
  {
    var indices := MarkerIndices(lines);
    if indices == [] then ""
    else CleanText(Join(" ", Slice(lines, indices[0] + 1, indices[|indices| - 1])))
  }

  /** With marker lines `a < b`, none before `a` and none after `b`, the text is what lies strictly between. */
  lemma QuestionTextBetween(lines: seq<string>, a: nat, b: nat)
    requires a < b < |lines| && IsMarkerLine(lines[a]) && IsMarkerLine(lines[b])
    requires forall i :: 0 <= i < a ==> !IsMarkerLine(lines[i])
    requires forall i :: b < i < |lines| ==> !IsMarkerLine(lines[i])
    ensures QuestionText(lines) == CleanText(Join(" ", lines[a + 1..b]))
  {
    var indices := MarkerIndices(lines);
    MarkerIndicesSorted(lines);
    assert a in indices && b in indices by {
      MarkerIndicesMembers(lines);
    }
    var first, last := indices[0], indices[|indices| - 1];
    assert first in indices && last in indices;
    assert IsMarkerLine(lines[first]) && IsMarkerLine(lines[last]) by {
      MarkerIndicesMembers(lines);
    }
    IncreasingBounds(indices, a);
    IncreasingBounds(indices, b);
    assert first == a && last == b;
    assert Slice(lines, a + 1, b) == lines[a + 1..b];
  }

  /** With at most one marker line the question text is empty. */
  lemma QuestionTextEmpty(lines: seq<string>)
    requires forall i, j :: 0 <= i < |lines| && 0 <= j < |lines| && IsMarkerLine(lines[i]) && IsMarkerLine(lines[j]) ==> i == j
    ensures QuestionText(lines) == ""
  {
    var indices := MarkerIndices(lines);
    MarkerIndicesSorted(lines);
    if indices != [] {
      var first, last := indices[0], indices[|indices| - 1];
      assert first in indices && last in indices;
      assert IsMarkerLine(lines[first]) && IsMarkerLine(lines[last]) by {
        MarkerIndicesMembers(lines);
      }
      assert first == last;
      assert Slice(lines, first + 1, last) == [];
      assert Join(" ", []) == "";
      assert Replace("", "$BR", "") == "";
      assert Replace("", "\n", "") == "";
    }
  }

  /** `get_question_text`. */
  method GetQuestionText(questionFileLines: seq<string>) returns (questionText: string)
    ensures questionText == QuestionText(questionFileLines)
    ensures '\n' !in questionText
  {
    questionText := "";
    var indices: seq<nat> := [];
    for i := 0 to |questionFileLines|
      invariant indices == MarkerIndices(questionFileLines[..i])
    {
      assert questionFileLines[..i + 1][..i] == questionFileLines[..i];
      var line := questionFileLines[i];
      if Contains(line, "EOT") || Contains(line, "$BR") || Contains(line, "BEGIN_TEXT") || Contains(line, "END_TEXT") {
        indices := indices + [i];
      }
    }
    assert questionFileLines[..|questionFileLines|] == questionFileLines;
    if indices != [] {
      // `indices` increases, so its minimum is its first entry and its maximum its last.
      var startLine := indices[0];
      var endLine := indices[|indices| - 1];
      var text := Join(" ", Slice(questionFileLines, startLine + 1, endLine));
      text := Replace(text, "$BR", "");
      text := Replace(text, "\n", "");
      questionText := text;
    }
  }

  // ---------------------------------------------------------------------------
  // find_all

  /** The positions `find_all(s, sub)` yields when resumed from `start`. */
  function Occurrences(s: string, sub: string, start: nat): (r: seq<nat>)
    requires |sub| > 0
    decreases if start <= |s| then |s| - start else 0
  {
    var p := Find(s, sub, start);
    if p == -1 then [] else [p] + Occurrences(s, sub, p + |sub|)
  }

  /** Every position yielded is an occurrence of `sub` at or after `start`. */
  lemma {:induction false} OccurrencesSound(s: string, sub: string, start: nat)
    requires |sub| > 0
    ensures forall p :: p in Occurrences(s, sub, start) ==> start <= p && OccursAt(s, sub, p)
    decreases if start <= |s| then |s| - start else 0
  {
    var p := Find(s, sub, start);
    FindLeast(s, sub, start);
    if p != -1 {
      OccurrencesSound(s, sub, p + |sub|);
    }
  }

  /** Each position is at least `gap` past every earlier one. */
  predicate Spaced(r: seq<nat>, gap: nat)
  {
    forall j1, j2 :: 0 <= j1 < j2 < |r| ==> r[j1] + gap <= r[j2]
  }

  /** The positions increase, each at least `|sub|` past the one before: occurrences never overlap. */
  lemma {:induction false} OccurrencesSpaced(s: string, sub: string, start: nat)
    requires |sub| > 0
    ensures Spaced(Occurrences(s, sub, start), |sub|)
    decreases if start <= |s| then |s| - start else 0
  {
    var p := Find(s, sub, start);
    if p != -1 {
      var rest := Occurrences(s, sub, p + |sub|);
      OccurrencesSpaced(s, sub, p + |sub|);
      OccurrencesSound(s, sub, p + |sub|);
      var r := Occurrences(s, sub, start);
      assert r == [p] + rest;
      forall j1, j2 | 0 <= j1 < j2 < |r| ensures r[j1] + |sub| <= r[j2] {
        assert r[j2] == rest[j2 - 1];
        if j1 == 0 {
          assert rest[j2 - 1] in rest;
          assert p + |sub| <= rest[j2 - 1];
        } else {
          assert r[j1] == rest[j1 - 1];
          assert Spaced(rest, |sub|);
        }
      }
    }
  }

  /** No occurrence is missed: each one is found or overlaps one that is found earlier. */
  lemma {:induction false} OccurrencesCover(s: string, sub: string, start: nat, i: nat)
    requires |sub| > 0 && start <= i && OccursAt(s, sub, i)
    ensures exists p :: p in Occurrences(s, sub, start) && p <= i < p + |sub|
    decreases if start <= |s| then |s| - start else 0
  {
    var p := Find(s, sub, start);
    var r := Occurrences(s, sub, start);
    FindLeast(s, sub, start);
    assert p != -1 && p <= i;
    assert r[0] == p;
    if i >= p + |sub| {
      OccurrencesCover(s, sub, p + |sub|, i);
      var rest := Occurrences(s, sub, p + |sub|);
      var q :| q in rest && q <= i < q + |sub|;
      assert q in r;
    } else {
      assert p in r;
    }
  }

  /** `find_all`: the generator run to the end. An empty `sub` would make it loop forever. */
  method FindAll(aStr: string, sub: string) returns (positions: seq<nat>)
    requires |sub| > 0
    ensures positions == Occurrences(aStr, sub, 0)
  {
    positions := [];
    var start := 0;
    while true
      invariant start <= |aStr|
      invariant positions + Occurrences(aStr, sub, start) == Occurrences(aStr, sub, 0)
      decreases |aStr| - start
    {
      var found := Find(aStr, sub, start);
      ghost var todo := Occurrences(aStr, sub, start);
      if found == -1 {
        assert todo == [];
        assert positions + todo == positions;
        return;
      }
      ghost var rest := Occurrences(aStr, sub, found + |sub|);
      assert todo == [found] + rest;
      assert positions + todo == (positions + [found]) + rest;
      positions := positions + [found];
      start := found + |sub|;
    }
  }

  // ---------------------------------------------------------------------------
  // get_latex

  /** Where each expression begins: every `\(`, then every `\[`. */
  function Openings(text: string): seq<nat>
  {
    Occurrences(text, "\\(", 0) + Occurrences(text, "\\[", 0)
  }

  /** The candidate ends: every `\)`, then every `\]`. */
  function Closings(text: string): seq<nat>
  {
    Occurrences(text, "\\)", 0) + Occurrences(text, "\\]", 0)
  }

  /** The `i`-th cut: from `starts[i]` through `ends[i]` and its delimiter, or to the end of the text without one. */
  function Cut(text: string, starts: seq<nat>, ends: seq<nat>, i: nat): string
    requires i < |starts|
  {
    if i < |ends| then Slice(text, starts[i], ends[i] + 2) else Slice(text, starts[i], |text|)
  }

  /** Expression `i`: up to the `i`-th closing delimiter when there is one, else to the end of the text. */
  function Expression(text: string, i: nat): string
    requires i < |Openings(text)|
  {
    Cut(text, Openings(text), Closings(text), i)
  }

  predicate IsOpening(d: string) { d == "\\(" || d == "\\[" }
  predicate IsClosing(d: string) { d == "\\)" || d == "\\]" }

  /** Every opening position holds `\(` or `\[`. */
  lemma OpeningAt(text: string, i: nat)
    requires i < |Openings(text)|
    ensures Openings(text)[i] + 2 <= |text|
    ensures IsOpening(text[Openings(text)[i]..Openings(text)[i] + 2])
  {
    var a := Openings(text)[i];
    OccurrencesSound(text, "\\(", 0);
    OccurrencesSound(text, "\\[", 0);
    assert a in Occurrences(text, "\\(", 0) || a in Occurrences(text, "\\[", 0);
  }

  /** Every closing position holds `\)` or `\]`. */
  lemma ClosingAt(text: string, i: nat)
    requires i < |Closings(text)|
    ensures Closings(text)[i] + 2 <= |text|
    ensures IsClosing(text[Closings(text)[i]..Closings(text)[i] + 2])
  {
    var b := Closings(text)[i];
    OccurrencesSound(text, "\\)", 0);
    OccurrencesSound(text, "\\]", 0);
    assert b in Occurrences(text, "\\)", 0) || b in Occurrences(text, "\\]", 0);
  }

  /** A cut from an opening delimiter at `a` through a closing one at `b` is empty or spans both delimiters. */
  lemma CutShape(text: string, a: nat, b: nat)
    requires a + 2 <= |text| && IsOpening(text[a..a + 2])
    requires b + 2 <= |text| && IsClosing(text[b..b + 2])
    ensures var e := Slice(text, a, b + 2);
      e == [] || (|e| >= 2 && IsOpening(e[..2]) && IsClosing(e[|e| - 2..]))
  {
    assert text[a] == text[a..a + 2][0] == '\\';
    assert text[b + 1] == text[b..b + 2][1] != '\\';
    if a <= b {
      var e := text[a..b + 2];
      assert e[..2] == text[a..a + 2] by {
        assert forall k :: 0 <= k < 2 ==> e[k] == text[a + k];
      }
      assert e[|e| - 2..] == text[b..b + 2];
    }
  }

  /** The rest of the text from an opening delimiter starts with that delimiter. */
  lemma TailShape(text: string, a: nat)
    requires a + 2 <= |text| && IsOpening(text[a..a + 2])
    ensures var e := Slice(text, a, |text|);
      |e| >= 2 && IsOpening(e[..2])
  {
    assert text[a..][..2] == text[a..a + 2];
  }

  /**
   * Each expression is empty (its closing delimiter comes before it) or starts
   * with an opening delimiter; when it is cut at a closing delimiter it also
   * ends with one.
   */
  lemma ExpressionShape(text: string, i: nat)
    requires i < |Openings(text)|
    ensures var e := Expression(text, i);
      && (e == [] || (|e| >= 2 && IsOpening(e[..2])))
      && (i < |Closings(text)| && e != [] ==> IsClosing(e[|e| - 2..]))
  {
    OpeningAt(text, i);
    if i < |Closings(text)| {
      ClosingAt(text, i);
      CutShape(text, Openings(text)[i], Closings(text)[i]);
    } else {
      TailShape(text, Openings(text)[i]);
    }
  }

  /** `get_latex`: one expression per opening delimiter, `\(` ones first. */
  method GetLatex(questionText: string) returns (latex: seq<string>)
    ensures |latex| == |Openings(questionText)|
    ensures forall i :: 0 <= i < |latex| ==> latex[i] == Expression(questionText, i)
  {
    latex := [];
    var inlineStarts := FindAll(questionText, "\\(");
    var displayStarts := FindAll(questionText, "\\[");
    var starts := inlineStarts + displayStarts;
    var inlineEnds := FindAll(questionText, "\\)");
    var displayEnds := FindAll(questionText, "\\]");
    var ends := inlineEnds + displayEnds;
    for i := 0 to |starts|
      invariant |latex| == i
      invariant forall j :: 0 <= j < i ==> latex[j] == Cut(questionText, starts, ends, j)
    {
      if i < |ends| {
        latex := latex + [Slice(questionText, starts[i], ends[i] + 2)];
      } else {
        // `ends[i]` raises IndexError; the handler keeps the rest of the text.
        latex := latex + [Slice(questionText, starts[i], |questionText|)];
      }
    }
    assert starts == Openings(questionText) && ends == Closings(questionText);
  }

  // ---------------------------------------------------------------------------
  // The keyword_info accumulation loop of main

  /** `keyword_info[keyword]`: the number of questions that carry the keyword and their paths. */
  datatype KeywordStats = KeywordStats(count: nat, paths: seq<string>)

  /** A scanned question file: its path and the keywords `get_keywords` found in it. */
  datatype Question = Question(path: string, keywords: seq<string>)

  /** The keyword entries agree with themselves: each count is the number of paths, at least one. */
  predicate Consistent(info: map<string, KeywordStats>)
  {
    forall k :: k in info ==> info[k].count == |info[k].paths| && info[k].count >= 1
  }

  /** One pass of the inner loop body: count the keyword and record the path. */
  function AddKeyword(info: map<string, KeywordStats>, keyword: string, path: string): map<string, KeywordStats>
  {
    if keyword in info then info[keyword := KeywordStats(info[keyword].count + 1, info[keyword].paths + [path])]
    else info[keyword := KeywordStats(1, [path])]
  }

  /** The inner loop over one question's keywords. */
  function AddQuestion(info: map<string, KeywordStats>, path: string, keywords: seq<string>): map<string, KeywordStats>
  {
    if keywords == [] then info
    else AddKeyword(AddQuestion(info, path, keywords[..|keywords| - 1]), keywords[|keywords| - 1], path)
  }

  /** `keyword_info` after the questions have been scanned in order. */
  function KeywordInfo(questions: seq<Question>): map<string, KeywordStats>
  {
    if questions == [] then map[]
    else
      var q := questions[|questions| - 1];
      AddQuestion(KeywordInfo(questions[..|questions| - 1]), q.path, q.keywords)
  }

  /** The paths recorded for `k`, none when it has no entry. */
  function PathsOf(info: map<string, KeywordStats>, k: string): seq<string>
  {
    if k in info then info[k].paths else []
  }

  /** The paths of the questions that carry `k`, in scan order. */
  function PathsWith(questions: seq<Question>, k: string): seq<string>
  {
    if questions == [] then []
    else
      var q := questions[|questions| - 1];
      PathsWith(questions[..|questions| - 1], k) + (if k in q.keywords then [q.path] else [])
  }

  /** Adding one question with distinct keywords appends its path to exactly the entries of its keywords. */
  lemma {:induction false} AddQuestionEffect(info: map<string, KeywordStats>, path: string, keywords: seq<string>, k: string)
    requires NoDuplicates(keywords)
    ensures k in AddQuestion(info, path, keywords) <==> k in info || k in keywords
    ensures PathsOf(AddQuestion(info, path, keywords), k) == PathsOf(info, k) + (if k in keywords then [path] else [])
  {
    if keywords != [] {
      var n := |keywords| - 1;
      assert forall x :: x in keywords <==> x in keywords[..n] || x == keywords[n];
      assert keywords[n] !in keywords[..n];
      AddQuestionEffect(info, path, keywords[..n], k);
    }
  }

  /**
   * When no question repeats a keyword, `keyword_info` has an entry for
   * exactly the keywords that occur, and its path list for a keyword lists the
   * questions carrying it, in scan order.
   */
  lemma {:induction false} KeywordInfoPaths(questions: seq<Question>, k: string)
    requires forall i :: 0 <= i < |questions| ==> NoDuplicates(questions[i].keywords)
    ensures k in KeywordInfo(questions) <==> PathsWith(questions, k) != []
    ensures PathsOf(KeywordInfo(questions), k) == PathsWith(questions, k)
  {
    if questions != [] {
      var n := |questions| - 1;
      KeywordInfoPaths(questions[..n], k);
      AddQuestionEffect(KeywordInfo(questions[..n]), questions[n].path, questions[n].keywords, k);
    }
  }

  /** Every step of the loop keeps each count equal to the length of its path list. */
  lemma {:induction false} AddQuestionConsistent(info: map<string, KeywordStats>, path: string, keywords: seq<string>)
    requires Consistent(info)
    ensures Consistent(AddQuestion(info, path, keywords))
  {
    if keywords != [] {
      AddQuestionConsistent(info, path, keywords[..|keywords| - 1]);
    }
  }

  /** After any number of questions, each count is the number of recorded paths. */
  lemma {:induction false} KeywordInfoConsistent(questions: seq<Question>)
    ensures Consistent(KeywordInfo(questions))
  {
    if questions != [] {
      var n := |questions| - 1;
      KeywordInfoConsistent(questions[..n]);
      AddQuestionConsistent(KeywordInfo(questions[..n]), questions[n].path, questions[n].keywords);
    }
  }

  /** The accumulation loop of `main`, over the questions' paths and keyword lists. */
  method AccumulateKeywords(questions: seq<Question>) returns (keywordInfo: map<string, KeywordStats>)
    ensures keywordInfo == KeywordInfo(questions)
    ensures Consistent(keywordInfo)
  {
    keywordInfo := map[];
    for q := 0 to |questions|
      invariant keywordInfo == KeywordInfo(questions[..q])
    {
      assert questions[..q + 1][..q] == questions[..q];
      var path, keywords := questions[q].path, questions[q].keywords;
      ghost var before := keywordInfo;
      for i := 0 to |keywords|
        invariant keywordInfo == AddQuestion(before, path, keywords[..i])
      {
        assert keywords[..i + 1][..i] == keywords[..i];
        var keyword := keywords[i];
        if keyword in keywordInfo {
          keywordInfo := keywordInfo[keyword := KeywordStats(keywordInfo[keyword].count + 1, keywordInfo[keyword].paths + [path])];
        } else {
          keywordInfo := keywordInfo[keyword := KeywordStats(1, [path])];
        }
      }
      assert keywords[..|keywords|] == keywords;
    }
    assert questions[..|questions|] == questions;
    KeywordInfoConsistent(questions);
  }
}
