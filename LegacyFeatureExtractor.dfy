/**
 * python_scripts/BaselineFeatureExtractor.py, an older copy of the keyword
 * feature extractor. Its `__init__`, `label_features` and `binarize` are the
 * same code as in python_scripts/baseline_feature_extractor.py, so
 * FeatureExtractor.BaselineFeatureExtractor models them. This copy has no
 * import lines, so `time` and `np` are unbound names in it. As a result,
 * `x_y_train` raises NameError once its length check passes, and `y_true`
 * raises it on its first statement. This module models those two methods as
 * written.
 */
module LegacyFeatureExtractor {
  import FE = FeatureExtractor
  import opened Optional

  /** How a call ends: it returns a value, or it raises NameError for an unbound name. */
  datatype Outcome<T> = Returned(value: T) | NameError(name: string)

  /**
   * `x_y_train` of this copy: on a length mismatch it returns None, as the
   * other copy does; otherwise the call of `time()` raises.
   */
  function XYTrain(xData: seq<seq<string>>, yData: seq<seq<string>>): (r: Outcome<Option<FE.TrainingSet>>)
    ensures r.Returned? <==> |xData| != |yData|
    ensures r.Returned? ==> r.value.None?
    ensures r.NameError? ==> r.name == "time"
  {
    if |xData| != |yData| then Returned(None) else NameError("time")
  }

  /** `y_true` of this copy: the call of `time()` on its first line raises, whatever the records. */
  function YTrue(yData: seq<seq<string>>): (r: Outcome<FE.TargetSet>)
    ensures r == NameError("time")
  {
    NameError("time")
  }

  /**
   * On one record whose keyword is the whole vocabulary, the working copy
   * builds the 1x1 matrices [[1]] and [[1]]. This copy raises NameError for
   * both `x_y_train` and `y_true` on the same record.
   */
  lemma CopyRaisesWhereIntendedBuilds()
    ensures var vocab, data := FE.IndexMap(["algebra"]), [["algebra"]];
      && FE.Training(vocab, 1, data, data) == FE.TrainingSet([[1]], [[1]], 0)
      && FE.Targets(vocab, 1, data) == FE.TargetSet([[1]], 0)
      && XYTrain(data, data).NameError?
      && YTrue(data).NameError?
  {
    var vocab, data := FE.IndexMap(["algebra"]), [["algebra"]];
    assert "algebra" in vocab && vocab["algebra"] == 0;
    assert data[..0] == [] && data[0][..0] == [];
    assert FE.Labels(vocab, data[0]) == [0];
    assert FE.Binarized(1, [0]) == [1];
  }

  /**
   * Whenever the record lists have equal lengths, this copy raises instead of
   * returning the training set that the working copy computes.
   */
  lemma {:induction false} CopyNeverTrains(ks: seq<string>, xData: seq<seq<string>>, yData: seq<seq<string>>)
    requires |xData| == |yData|
    ensures XYTrain(xData, yData).NameError?
    ensures var t := FE.Training(FE.IndexMap(ks), |ks|, xData, yData);
      |t.x| == |t.y| == |xData| - t.zeroCount
  {
    FE.TrainingRows(FE.IndexMap(ks), |ks|, xData, yData);
  }
}
