# MathQuestionTagging core, modelled in Dafny

MathQuestionTagging tags WeBWorK math questions with keywords. A set of
Python 2 scripts walks the Open Problem Library, reads each question file,
and extracts three things: the `## KEYWORDS(...)` tags, the question text
between the text markers, and the LaTeX expressions inside that text. It
builds keyword statistics and counts LaTeX tokens per keyword. It then turns
keyword lists into 0/1 feature vectors for a multi-label classifier.

This project models the logic of those scripts, with the I/O stripped away:

- `PyStr.dfy`: the Python 2 `str` operations the scripts use (`find`, `in`,
  `startswith`, slicing, `split(',')`, `split()`, `join`, `replace`, `strip`,
  `lower`, `list(set(...))`), over `string`.
- `FeatureExtractor.dfy`: the class `BaselineFeatureExtractor` of
  `python_scripts/baseline_feature_extractor.py`. Its fields are set in the
  constructor. Its methods are loops proved against specification functions:
  the recursions `Labels`, `Training` and `Targets`, and the comprehension
  `Binarized`.
- `LegacyFeatureExtractor.dfy`: the second copy of that class,
  `python_scripts/BaselineFeatureExtractor.py`. Its lines 1-37 are the same
  code as the working copy, so `FeatureExtractor` models them. Its
  `x_y_train` and `y_true` differ: the file has no imports, so both raise
  NameError (see Findings).
- `QuestionTagInfo.dfy`: `get_keywords`, `get_question_text`, `find_all` and
  `get_latex` of `python_scripts/extract_question_tag_info.py`, and the
  `keyword_info` accumulation loop of its `main`.
- `LatexTokens.dfy`: `remove_latex_symbols` and `tokenize_latex` of
  `python_scripts/top_latex_by_keyword.py`.
- `KeywordsInText.dfy`: the per-question keyword search of
  `python_scripts/find_keywords_in_text.py`, lifted out of `main`.
- `TaggedUntagged.dfy`: `get_tagged_untagged_files` of
  `separate_tagged_untagged_content.py`. It is a recursive walk over a
  directory tree given as a value. Its per-file line loop is a method with
  the source's early `break`s.

Three behaviours of the code are worth noting:

- The vocabulary maps a duplicated keyword to its first position in the
  ranked list (`keywords.index(k)`).
- A length mismatch in `x_y_train` returns `None`. It raises no error.
- With duplicates, indices are therefore not a dense permutation.

## Model

| member | source | states |
|---|---|---|
| `PyStr.FindLeast` | python_scripts/extract_question_tag_info.py:80 | `find` returns the least position at or after `start` where `sub` occurs, and -1 only when there is none |
| `PyStr.ContainsOccurs` | python_scripts/extract_question_tag_info.py:28 | `sub in s` holds exactly when `sub` occurs at some position of `s` |
| `PyStr.SplitJoin` | python_scripts/extract_question_tag_info.py:31 | joining the pieces of `split(',')` with `','` gives back the string |
| `PyStr.WordsAreTokens` | python_scripts/top_latex_by_keyword.py:38 | every token of `split()` is non-empty and holds no whitespace |
| `PyStr.WordsConcat` | python_scripts/top_latex_by_keyword.py:38 | the tokens of `split()`, written one after another, are the characters of the string other than whitespace, in order |
| `PyStr.ReplaceAbsent` | python_scripts/top_latex_by_keyword.py:23-24 | `replace` of a pattern that does not occur leaves the string unchanged |
| `PyStr.RemoveCharGone` | python_scripts/extract_question_tag_info.py:34 | replacing a one-character pattern by nothing leaves no copy of that character and never lengthens the string |
| `PyStr.RemoveCharKeepsRest` | python_scripts/extract_question_tag_info.py:34 | replacing a one-character pattern by nothing gives the string with that character dropped and every other character kept, in order |
| `PyStr.Distinct` | python_scripts/extract_question_tag_info.py:38 | `list(set(s))` has no duplicates and holds exactly the elements of `s` |
| `FeatureExtractor.IndexMap` | python_scripts/baseline_feature_extractor.py:31-32 | the keys are exactly the ranked keywords; each maps to its first position in the list, below the number of keywords |
| `FeatureExtractor.IndexMapInjective` | python_scripts/baseline_feature_extractor.py:32 | two keywords with the same index are the same keyword |
| `FeatureExtractor.Labels` | python_scripts/baseline_feature_extractor.py:40-47 | every label is an index of the vocabulary |
| `FeatureExtractor.LabelsMembers` | python_scripts/baseline_feature_extractor.py:42-45 | `j` is a label exactly when some input keyword is in the vocabulary with index `j` |
| `FeatureExtractor.LabelsCount` | python_scripts/baseline_feature_extractor.py:42-45 | the number of labels is the number of input entries found in the vocabulary |
| `FeatureExtractor.LabelsEmpty` | python_scripts/baseline_feature_extractor.py:43-45 | no labels exactly when no input keyword is in the vocabulary |
| `FeatureExtractor.Binarized` | python_scripts/baseline_feature_extractor.py:54-57 | the vector has length `num_keywords` and only 0/1 entries |
| `FeatureExtractor.BinarizedOrderFree` | python_scripts/baseline_feature_extractor.py:56-57 | index lists with the same members give the same vector, whatever their order or repetitions |
| `FeatureExtractor.OnesOfBinarized` | python_scripts/baseline_feature_extractor.py:54-59 | the number of 1s is the number of distinct in-range indices |
| `FeatureExtractor.OnesCountKnownKeywords` | python_scripts/baseline_feature_extractor.py:40-59 | the 1s of a binarized keyword list count its distinct vocabulary keywords |
| `FeatureExtractor.Kept` | python_scripts/baseline_feature_extractor.py:79-87 | the kept record positions increase, and a position is kept exactly when both of its sides have a vocabulary match |
| `FeatureExtractor.TrainingRows` | python_scripts/baseline_feature_extractor.py:75-87 | `zero_count` is the number of dropped pairs, and row `j` of each side is the binarized labels of the `j`-th kept pair, in order |
| `FeatureExtractor.KeptRowsHaveOne` | python_scripts/baseline_feature_extractor.py:83-85 | every training row on either side holds a 1 |
| `FeatureExtractor.TargetsAreSelfTraining` | python_scripts/baseline_feature_extractor.py:103-112 | `y_true` is the output side of training on the records paired with themselves |
| `FeatureExtractor.TargetRows` | python_scripts/baseline_feature_extractor.py:106-112 | rows plus drops equal the records; a record is kept exactly when it has a vocabulary match; rows are its binarized labels in order, each with a 1 |
| `FeatureExtractor.BaselineFeatureExtractor.constructor` | python_scripts/baseline_feature_extractor.py:29-32 | `num_keywords` is the number of ranked keywords, and the map sends each of them to a position holding it |
| `FeatureExtractor.BaselineFeatureExtractor.LabelFeatures` | python_scripts/baseline_feature_extractor.py:34-47 | the loop returns `Labels` of the keywords, all below `num_keywords` |
| `FeatureExtractor.BaselineFeatureExtractor.Binarize` | python_scripts/baseline_feature_extractor.py:49-59 | the in-place writes give a length-`num_keywords` vector whose entry `j` is 1 exactly when `j` is hit by an index (negative indices count from the end) |
| `FeatureExtractor.BaselineFeatureExtractor.XYTrain` | python_scripts/baseline_feature_extractor.py:61-94 | None exactly on a length mismatch; otherwise the training set, with `len(x_train) == len(y_train) == len(x_data) - zero_count` |
| `FeatureExtractor.BaselineFeatureExtractor.YTrue` | python_scripts/baseline_feature_extractor.py:96-118 | the target set, with rows plus drops equal to the records and a 1 in every row |
| `LegacyFeatureExtractor.XYTrain` | python_scripts/BaselineFeatureExtractor.py:39-72 | returns None exactly on a length mismatch, and otherwise raises NameError for `time` |
| `LegacyFeatureExtractor.YTrue` | python_scripts/BaselineFeatureExtractor.py:74-96 | raises NameError for `time` on every input |
| `LegacyFeatureExtractor.CopyRaisesWhereIntendedBuilds` | python_scripts/BaselineFeatureExtractor.py:50-79 | on one matching record the working copy builds [[1]] and [[1]], while this copy raises in both methods |
| `LegacyFeatureExtractor.CopyNeverTrains` | python_scripts/BaselineFeatureExtractor.py:45-72 | on equal-length inputs this copy always raises where the working copy returns its row-aligned matrices |
| `QuestionTagInfo.NormalizeTag` | python_scripts/extract_question_tag_info.py:34-36 | a cleaned tag has no `'`, no whitespace at either end and no capital letter |
| `QuestionTagInfo.LineKeywords` | python_scripts/extract_question_tag_info.py:29-36 | a keyword line always yields at least one (possibly empty) keyword |
| `QuestionTagInfo.LineKeywordsNormalized` | python_scripts/extract_question_tag_info.py:31-36 | every keyword of a line is cleaned |
| `QuestionTagInfo.ParseKeywordLine` | python_scripts/extract_question_tag_info.py:29-36 | the in-place rewrite of `keyword_list[i]` gives the cleaned comma pieces between the first `(` and the first `)` |
| `QuestionTagInfo.LastKeywordLine` | python_scripts/extract_question_tag_info.py:24-31 | -1 exactly when no line starts with `##` and contains `KEYWORDS`; otherwise the last such line |
| `QuestionTagInfo.GetKeywords` | python_scripts/extract_question_tag_info.py:14-38 | no result (UnboundLocalError) exactly when there is no keyword line; otherwise a duplicate-free list with exactly the keywords of the last keyword line |
| `QuestionTagInfo.IncreasingBounds` | python_scripts/extract_question_tag_info.py:62-64 | in an increasing index list, `min` and `max` are the first and last entries |
| `QuestionTagInfo.MarkerIndicesSorted` | python_scripts/extract_question_tag_info.py:58-60 | the collected marker indices are in range and strictly increasing |
| `QuestionTagInfo.MarkerIndicesMembers` | python_scripts/extract_question_tag_info.py:58-60 | an index is collected exactly when its line contains EOT, $BR, BEGIN_TEXT or END_TEXT |
| `QuestionTagInfo.CleanText` | python_scripts/extract_question_tag_info.py:67-69 | after removing `$BR` and then newlines, no newline is left |
| `QuestionTagInfo.QuestionText` | python_scripts/extract_question_tag_info.py:55-71 | the question text never contains a newline |
| `QuestionTagInfo.QuestionTextBetween` | python_scripts/extract_question_tag_info.py:62-69 | with first marker line `a` and last `b`, the text is the cleaned `' '`-join of the lines strictly between them |
| `QuestionTagInfo.QuestionTextEmpty` | python_scripts/extract_question_tag_info.py:55-71 | with no marker line, or just one, the text is empty |
| `QuestionTagInfo.GetQuestionText` | python_scripts/extract_question_tag_info.py:41-71 | the loop and slice compute `QuestionText`, which has no newline |
| `QuestionTagInfo.OccurrencesSound` | python_scripts/extract_question_tag_info.py:78-83 | every position yielded is an occurrence of `sub` at or after the start |
| `QuestionTagInfo.OccurrencesSpaced` | python_scripts/extract_question_tag_info.py:80-83 | consecutive positions are at least `len(sub)` apart, so strictly increasing and non-overlapping |
| `QuestionTagInfo.OccurrencesCover` | python_scripts/extract_question_tag_info.py:80-83 | every occurrence of `sub` overlaps some yielded position: none is skipped except by overlap |
| `QuestionTagInfo.FindAll` | python_scripts/extract_question_tag_info.py:74-83 | the `while` loop yields exactly `Occurrences(a_str, sub, 0)` |
| `QuestionTagInfo.OpeningAt` | python_scripts/extract_question_tag_info.py:98-101 | every start position holds `\(` or `\[` |
| `QuestionTagInfo.ClosingAt` | python_scripts/extract_question_tag_info.py:99-102 | every end position holds `\)` or `\]` |
| `QuestionTagInfo.CutShape` | python_scripts/extract_question_tag_info.py:106 | a slice from an opening through a closing delimiter is empty or begins and ends with a delimiter |
| `QuestionTagInfo.TailShape` | python_scripts/extract_question_tag_info.py:108 | the slice from an opening delimiter to the end begins with that delimiter |
| `QuestionTagInfo.ExpressionShape` | python_scripts/extract_question_tag_info.py:104-108 | each expression is empty or starts with an opening delimiter, and ends with a closing one when an `i`-th end exists |
| `QuestionTagInfo.GetLatex` | python_scripts/extract_question_tag_info.py:86-110 | one expression per opening delimiter (`\(` ones first); expression `i` is cut at the `i`-th end, or runs to the end of the text on IndexError |
| `QuestionTagInfo.AddQuestionEffect` | python_scripts/extract_question_tag_info.py:152-157 | one question adds its path to the entry of each of its keywords and changes no other entry |
| `QuestionTagInfo.KeywordInfoPaths` | python_scripts/extract_question_tag_info.py:152-157 | a keyword has an entry exactly when some question carries it; its paths are those questions' paths, in scan order |
| `QuestionTagInfo.AddQuestionConsistent` | python_scripts/extract_question_tag_info.py:153-157 | the loop keeps each count equal to the length of its path list, and at least 1 |
| `QuestionTagInfo.KeywordInfoConsistent` | python_scripts/extract_question_tag_info.py:152-157 | after any scan, every count equals the number of its paths |
| `QuestionTagInfo.AccumulateKeywords` | python_scripts/extract_question_tag_info.py:152-157 | the dict updates compute `KeywordInfo`, whose counts equal the lengths of their path lists |
| `LatexTokens.GuardRedundant` | python_scripts/top_latex_by_keyword.py:21-24 | the `if remove_exp in latex` test only skips a `replace` that would change nothing |
| `LatexTokens.StripDelimitersSequential` | python_scripts/top_latex_by_keyword.py:18-24 | each expression loses every occurrence of each entry of `remove_expressions`, in list order, and never grows |
| `LatexTokens.RemoveLatexSymbols` | python_scripts/top_latex_by_keyword.py:13-27 | the output keeps the length and order of the input, each element stripped |
| `LatexTokens.CleanTokenFree` | python_scripts/top_latex_by_keyword.py:41-42 | a cleaned token holds no `\` and no `/` |
| `LatexTokens.CountsKeys` | python_scripts/top_latex_by_keyword.py:40-46 | no key holds `\` or `/`, and every count is at least 1 |
| `LatexTokens.CountsMult` | python_scripts/top_latex_by_keyword.py:40-46 | a string is a key exactly when some token cleans to it, and its count is the number of tokens that clean to it |
| `LatexTokens.CountsTotal` | python_scripts/top_latex_by_keyword.py:38-46 | the counts add up to the number of tokens read |
| `LatexTokens.TokenizeEmpty` | python_scripts/top_latex_by_keyword.py:35-48 | an empty list of expressions gives the empty map |
| `LatexTokens.SlashOnlyTokenCountsAsEmpty` | python_scripts/top_latex_by_keyword.py:41-46 | a token made only of `\` and `/` is counted under the empty string |
| `LatexTokens.TokenizeLatex` | python_scripts/top_latex_by_keyword.py:29-48 | the keys are exactly the cleaned whitespace tokens of the stripped, space-joined expressions, and each count is the number of tokens that clean to that key; keys hold no `\` or `/`, counts are at least 1 and sum to the number of tokens |
| `KeywordsInText.FoundMembers` | python_scripts/find_keywords_in_text.py:45-58 | a tag is reported exactly when it is in the tag list and each of its tokens is a token of the question |
| `KeywordsInText.FoundSubsequence` | python_scripts/find_keywords_in_text.py:45-58 | the found list picks tags at strictly increasing positions of the tag list |
| `KeywordsInText.FoundIndicesMatch` | python_scripts/find_keywords_in_text.py:51-58 | the positions picked are exactly those of the matching tags |
| `KeywordsInText.BlankKeywordAlwaysFound` | python_scripts/find_keywords_in_text.py:47-58 | a tag with no tokens is reported for every question, since `all` of nothing is true |
| `KeywordsInText.WholeTokenMatch` | python_scripts/find_keywords_in_text.py:43-52 | tokens match whole: "alg" is not found in the question "algebra", while "algebra" is |
| `KeywordsInText.KeywordsFoundInText` | python_scripts/find_keywords_in_text.py:37-58 | the nested loops over tags and keyword tokens compute `Found` for one question |
| `KeywordsInText.FindKeywordsInText` | python_scripts/find_keywords_in_text.py:34-60 | one result list per question, in question order, each the found tags of that question |
| `TaggedUntagged.FirstMarkerDecides` | separate_tagged_untagged_content.py:43-51 | the first line with the pointer marker or KEYWORD decides; the pointer marker wins when a line holds both |
| `TaggedUntagged.UntaggedIffNoMarker` | separate_tagged_untagged_content.py:43-56 | a file is untagged exactly when none of its lines holds either marker |
| `TaggedUntagged.LaterLinesIgnored` | separate_tagged_untagged_content.py:43-51 | lines after the first marker line do not change the decision |
| `TaggedUntagged.ClassifyLines` | separate_tagged_untagged_content.py:34-51 | the flag loop with its `break`s sets `pointer_to_file` exactly for pointers and `tagged_question` exactly for tagged files |
| `TaggedUntagged.GetTaggedUntaggedFiles` | separate_tagged_untagged_content.py:26-59 | the walk, recursing into sub-directories, computes `Separate` |
| `TaggedUntagged.PathsOfKindAppend` | separate_tagged_untagged_content.py:53-56 | the paths of one kind in a concatenation are those of each part, in order |
| `TaggedUntagged.SeparateFails` | separate_tagged_untagged_content.py:28-40 | the walk fails exactly when it reaches a directory whose path contains ".pg" |
| `TaggedUntagged.SeparateAppends` | separate_tagged_untagged_content.py:26-59 | otherwise the given lists stay at the front, and the tagged and untagged question paths are appended in visiting order |
| `TaggedUntagged.DirAppends` | separate_tagged_untagged_content.py:30-31 | a sub-directory's questions are appended where the recursion visits it |
| `TaggedUntagged.PathsOfKindAmong` | separate_tagged_untagged_content.py:53-56 | only question paths are ever appended |
| `TaggedUntagged.ListedIffKind` | separate_tagged_untagged_content.py:53-56 | with distinct paths, a question is in a list exactly when it has that list's kind: in no list twice, and pointers in neither |
| `TaggedUntagged.PostfixIsSubstring` | separate_tagged_untagged_content.py:28 | ".pg" may occur anywhere in a path: "a.pgx/b" is a question path, "a.p" is not |

## Left out

- File, directory and CSV input and output are not modelled. This covers `open`/`readlines`, `pd.read_csv`/`to_csv`, DataFrame construction, `ast.literal_eval` of CSV cells, and `print`. Question files appear as sequences of lines, and tables as sequences.
- The `time()` values that `x_y_train` and `y_true` return are left out: they are wall-clock diagnostics.
- The numpy array conversion is left out. The matrices are `seq<seq<int>>`.
- `glob.glob(base + '/*')` and `os.path.isdir` are not modelled. The directory tree is a `Node` value: its listing order is taken as given, and files that glob hides (names starting with a dot) are assumed already absent.
- An IOError from opening an unreadable file is not modelled. Opening a directory whose path contains ".pg" is modelled, as the `IsADirectory` outcome.
- The two result lists of `get_tagged_untagged_files` are threaded as values. The source appends to the caller's lists in place, but `main` only uses the returned lists, so the values are the same.
- The per-keyword token merge in `main` of top_latex_by_keyword.py (lines 78-93) is not modelled. It stores one dict object under several keywords and mutates it later, so its result depends on reference aliasing.
- Everything else in the `main` functions is not modelled: reading files, calling the parsers, building DataFrames, and the duplicated CSV write at extract_question_tag_info.py:198-199.
- The accumulation loop is modelled over (path, keywords) pairs.
- The commented-out NaN clean-up in find_keywords_in_text.py is not modelled. Tags are taken as strings.
- python_scripts/split_train_test_data.py is not part of this model. It makes a random split through sklearn.
- python_scripts/baseline_model.py is not part of this model. It only prints, and its classifier fit and metrics are sklearn calls over floats.
- Python 2 byte strings are modelled as `string`. `strip`, `split()` and `lower` follow the C locale: whitespace is space, `\t`, `\n`, `\v`, `\f` and `\r`, and case folding is ASCII only.
- `QuestionTagInfo.GetKeywords`: the contract promises only that the result has no duplicates and holds exactly the keywords of the last keyword line. It does not promise the order of `list(set(...))`, which CPython's string hashing decides. The model keeps first occurrences.
- `QuestionTagInfo.GetKeywords`: with no keyword line, the source raises UnboundLocalError at line 38. The model returns `None`.
- `QuestionTagInfo.FindAll` requires a non-empty `sub`. With an empty one, the generator yields 0 forever, because `start` never advances.
- `FeatureExtractor.BaselineFeatureExtractor.Binarize` requires every index to be a valid Python list index (`-num_keywords <= i < num_keywords`). An out-of-range index raises IndexError in the source, and the model does not represent that error. Its callers only pass `label_features` indices, which are in range.
- `FeatureExtractor.BaselineFeatureExtractor.constructor`: `top_keywords` is taken as the list of the DataFrame's `keyword` column, so `shape[0]` is its length.

## Findings

| source | as written | input that shows it | evidently intended | confidence | as-written member | corrected member |
|---|---|---|---|---|---|---|
| python_scripts/BaselineFeatureExtractor.py:50 | `x_y_train` calls `time()`, but the file has no `import` line, so every call with equal-length inputs raises NameError | one record `["algebra"]` on both sides, vocabulary `["algebra"]` | return `[[1]]`, `[[1]]` and zero drops, as the copy with imports does | high, not executed | `LegacyFeatureExtractor.CopyRaisesWhereIntendedBuilds` | `FeatureExtractor.BaselineFeatureExtractor.XYTrain` |
| python_scripts/BaselineFeatureExtractor.py:79 | `y_true` calls `time()` on its first line, so it raises NameError on every input | the record `["algebra"]`, vocabulary `["algebra"]` | return `[[1]]` and zero drops | high, not executed | `LegacyFeatureExtractor.CopyRaisesWhereIntendedBuilds` | `FeatureExtractor.BaselineFeatureExtractor.YTrue` |
