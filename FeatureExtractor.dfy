/**
 * `BaselineFeatureExtractor` of python_scripts/baseline_feature_extractor.py.
 * It holds a vocabulary built from a ranked keyword list. It labels keyword
 * lists with vocabulary indices, turns index lists into fixed-width 0/1
 * vectors, and builds training and target matrices from which records with
 * no vocabulary match are dropped and counted.
 *
 * The ranked table is modelled by its `keyword` column; matrices are
 * `seq<seq<int>>`.
 */
module FeatureExtractor {
  import opened Optional

  /** `ks.index(k)`: the first position of `k` in `ks`. */
  function FirstIndex(ks: seq<string>, k: string): (i: nat)
    requires k in ks
    ensures i < |ks| && ks[i] == k
    ensures forall j :: 0 <= j < i ==> ks[j] != k
  {
    if ks[0] == k then 0 else 1 + FirstIndex(ks[1..], k)
  }

  /** The vocabulary `{k: keywords.index(k) for k in keywords}`. */
  function IndexMap(ks: seq<string>): (m: map<string, nat>)
    ensures forall k :: k in m <==> k in ks
    ensures forall k :: k in m ==> m[k] < |ks| && ks[m[k]] == k
    ensures forall k :: k in m ==> forall j :: 0 <= j < m[k] ==> ks[j] != k
  {
    map k | k in ks :: FirstIndex(ks, k)
  }

  /** Distinct vocabulary keywords have distinct indices. */
  lemma IndexMapInjective(ks: seq<string>, a: string, b: string)
    requires a in IndexMap(ks) && b in IndexMap(ks)
    requires IndexMap(ks)[a] == IndexMap(ks)[b]
    ensures a == b
  {
  }

  /** What `label_features` returns: the indices of the vocabulary keywords of `kws`, in input order. */
  function Labels(vocab: map<string, nat>, kws: seq<string>): (r: seq<nat>)
    ensures forall j :: j in r ==> j in vocab.Values
  {
    if kws == [] then []
    else
      var last := kws[|kws| - 1];
      var prev := Labels(vocab, kws[..|kws| - 1]);
      if last in vocab then prev + [vocab[last]] else prev
  }

  /** An index is labelled exactly when some input keyword in the vocabulary maps to it. */
  lemma {:induction false} LabelsMembers(vocab: map<string, nat>, kws: seq<string>, j: nat)
    ensures j in Labels(vocab, kws) <==> exists k :: k in kws && k in vocab && vocab[k] == j
  {
    if kws != [] {
      var n := |kws| - 1;
      LabelsMembers(vocab, kws[..n], j);
      assert forall k :: k in kws <==> k in kws[..n] || k == kws[n];
    }
  }

  /** `label_features` has one entry per input entry found in the vocabulary. */
  lemma {:induction false} LabelsCount(vocab: map<string, nat>, kws: seq<string>)
    ensures |Labels(vocab, kws)| == |set i | 0 <= i < |kws| && kws[i] in vocab|
  {
    if kws != [] {
      var n := |kws| - 1;
      LabelsCount(vocab, kws[..n]);
      var prev := set i | 0 <= i < n && kws[..n][i] in vocab;
      var all := set i | 0 <= i < |kws| && kws[i] in vocab;
      assert prev == set i | 0 <= i < n && kws[i] in vocab;
      if kws[n] in vocab {
        assert all == prev + {n};
      } else {
        assert all == prev;
      }
    }
  }

  /** The labelling is empty exactly when no input keyword is in the vocabulary. */
  lemma LabelsEmpty(vocab: map<string, nat>, kws: seq<string>)
    ensures Labels(vocab, kws) == [] <==> forall k :: k in kws ==> k !in vocab
  {
    var r := Labels(vocab, kws);
    if r != [] {
      LabelsMembers(vocab, kws, r[0]);
    } else {
      forall k | k in kws && k in vocab ensures false {
        LabelsMembers(vocab, kws, vocab[k]);
      }
    }
  }

  /**
   * Slot `j` of a width-`n` list is written by `binarized[i] = 1` for some `i` in
   * `indices`: Python indexes from the end for negative `i`, so `j - n` hits it too.
   */
  predicate Hit(n: nat, indices: seq<int>, j: int)
  {
    j in indices || j - n in indices
  }

  /** The 0/1 vector of `binarize`: slot `j` is 1 iff some index hits it. */
  function Binarized(n: nat, indices: seq<int>): (r: seq<int>)
    ensures |r| == n
    ensures forall j :: 0 <= j < n ==> r[j] == 0 || r[j] == 1
  {
    seq(n, j => if Hit(n, indices, j) then 1 else 0)
  }

  /** The vector depends only on the set of indices: not on their order nor on repeats. */
  lemma BinarizedOrderFree(n: nat, a: seq<int>, b: seq<int>)
    requires forall i :: i in a <==> i in b
    ensures Binarized(n, a) == Binarized(n, b)
  {
  }

  /** The number of 1 entries of a vector. */
  function Ones(v: seq<int>): nat
  {
    if v == [] then 0 else Ones(v[..|v| - 1]) + (if v[|v| - 1] == 1 then 1 else 0)
  }

  lemma {:induction false} OnesPrefix(n: nat, indices: seq<int>, m: nat)
    requires m <= n
    ensures Ones(Binarized(n, indices)[..m]) == |set j | 0 <= j < m && Hit(n, indices, j)|
  {
    var v := Binarized(n, indices);
    if m > 0 {
      OnesPrefix(n, indices, m - 1);
      assert v[..m][..m - 1] == v[..m - 1];
      var prev := set j | 0 <= j < m - 1 && Hit(n, indices, j);
      var all := set j | 0 <= j < m && Hit(n, indices, j);
      if v[m - 1] == 1 {
        assert all == prev + {m - 1};
      } else {
        assert all == prev;
      }
    }
  }

  /** For non-negative in-range indices the vector has one 1 per distinct index. */
  lemma OnesOfBinarized(n: nat, indices: seq<nat>)
    requires forall i :: i in indices ==> i < n
    ensures Ones(Binarized(n, indices)) == |set i | i in indices|
  {
    OnesPrefix(n, indices, n);
    assert Binarized(n, indices)[..n] == Binarized(n, indices);
    assert (set j | 0 <= j < n && Hit(n, indices, j)) == set i | i in indices;
  }

  /** An injective map sends a set of keys onto a set of the same size. */
  lemma {:induction false} InjectiveImageSize(m: map<string, nat>, keys: set<string>)
    requires keys <= m.Keys
    requires forall a, b :: a in keys && b in keys && m[a] == m[b] ==> a == b
    ensures |set k | k in keys :: m[k]| == |keys|
    decreases |keys|
  {
    if keys != {} {
      var a :| a in keys;
      InjectiveImageSize(m, keys - {a});
      assert (set k | k in keys :: m[k]) == (set k | k in keys - {a} :: m[k]) + {m[a]};
    }
  }

  /**
   * A record's binarized labels have exactly one 1 per distinct record keyword
   * that is in the vocabulary.
   */
  lemma OnesCountKnownKeywords(ks: seq<string>, kws: seq<string>)
    ensures Ones(Binarized(|ks|, Labels(IndexMap(ks), kws))) == |set k | k in kws && k in IndexMap(ks)|
  {
    var m := IndexMap(ks);
    var labels := Labels(m, kws);
    var known := set k | k in kws && k in m;
    forall i | i in labels ensures i < |ks| {
      LabelsMembers(m, kws, i);
    }
    OnesOfBinarized(|ks|, labels);
    forall i ensures i in labels <==> i in (set k | k in known :: m[k]) {
      if i >= 0 {
        LabelsMembers(m, kws, i);
      }
    }
    assert (set i | i in labels) == set k | k in known :: m[k];
    InjectiveImageSize(m, known);
  }

  /** The result of `x_y_train` without its timing value. */
  datatype TrainingSet = TrainingSet(x: seq<seq<int>>, y: seq<seq<int>>, zeroCount: nat)

  /** The result of `y_true` without its timing value. */
  datatype TargetSet = TargetSet(y: seq<seq<int>>, zeroCount: nat)

  /** A training pair is kept when both sides have a vocabulary match. */
  predicate Keeps(vocab: map<string, nat>, x: seq<string>, y: seq<string>)
  {
    Labels(vocab, x) != [] && Labels(vocab, y) != []
  }

  /** The state of the `x_y_train` loop after the pairs of `xs` and `ys`. */
  function Training(vocab: map<string, nat>, n: nat, xs: seq<seq<string>>, ys: seq<seq<string>>): TrainingSet
    requires |xs| == |ys|
  {
    if xs == [] then TrainingSet([], [], 0)
    else
      var i := |xs| - 1;
      var prev := Training(vocab, n, xs[..i], ys[..i]);
      if Keeps(vocab, xs[i], ys[i]) then
        TrainingSet(prev.x + [Binarized(n, Labels(vocab, xs[i]))],
                    prev.y + [Binarized(n, Labels(vocab, ys[i]))],
                    prev.zeroCount)
      else prev.(zeroCount := prev.zeroCount + 1)
  }

  /** The positions of the pairs that `x_y_train` keeps, in increasing order. */
  function Kept(vocab: map<string, nat>, xs: seq<seq<string>>, ys: seq<seq<string>>): (r: seq<nat>)
    requires |xs| == |ys|
    ensures forall j :: 0 <= j < |r| ==> r[j] < |xs|
    ensures forall j1, j2 :: 0 <= j1 < j2 < |r| ==> r[j1] < r[j2]
    ensures forall i :: 0 <= i < |xs| ==> (i in r <==> Keeps(vocab, xs[i], ys[i]))
  {
    if xs == [] then []
    else
      var i := |xs| - 1;
      var prev := Kept(vocab, xs[..i], ys[..i]);
      assert forall p :: 0 <= p < i ==> xs[..i][p] == xs[p] && ys[..i][p] == ys[p];
      if Keeps(vocab, xs[i], ys[i]) then prev + [i] else prev
  }

  /**
   * The rows of `x_y_train` are the kept pairs, binarized, in their original
   * order and still paired; the dropped ones are counted.
   */
  lemma {:induction false} TrainingRows(vocab: map<string, nat>, n: nat, xs: seq<seq<string>>, ys: seq<seq<string>>)
    requires |xs| == |ys|
    ensures Training(vocab, n, xs, ys).zeroCount == |xs| - |Kept(vocab, xs, ys)|
    ensures PairedRows(vocab, n, Training(vocab, n, xs, ys), Kept(vocab, xs, ys), xs, ys)
  {
    if xs != [] {
      var i := |xs| - 1;
      var xs', ys' := xs[..i], ys[..i];
      TrainingRows(vocab, n, xs', ys');
      var prev, prevKept := Training(vocab, n, xs', ys'), Kept(vocab, xs', ys');
      var t, kept := Training(vocab, n, xs, ys), Kept(vocab, xs, ys);
      forall j | 0 <= j < |prevKept|
        ensures prevKept[j] < i && xs'[prevKept[j]] == xs[prevKept[j]] && ys'[prevKept[j]] == ys[prevKept[j]]
      {
      }
      if Keeps(vocab, xs[i], ys[i]) {
        assert kept == prevKept + [i];
        assert t.x == prev.x + [Binarized(n, Labels(vocab, xs[i]))];
        assert t.y == prev.y + [Binarized(n, Labels(vocab, ys[i]))];
      } else {
        assert kept == prevKept && t.x == prev.x && t.y == prev.y;
      }
    }
  }

  /** Row `j` of each side is the binarized labels of the `j`-th kept pair. */
  ghost predicate PairedRows(vocab: map<string, nat>, n: nat, t: TrainingSet, kept: seq<nat>,
                             xs: seq<seq<string>>, ys: seq<seq<string>>)
  {
    && |t.x| == |kept| && |t.y| == |kept|
    && (forall j :: 0 <= j < |kept| ==> kept[j] < |xs| && kept[j] < |ys|)
    && forall j :: 0 <= j < |kept| ==>
         t.x[j] == Binarized(n, Labels(vocab, xs[kept[j]])) &&
         t.y[j] == Binarized(n, Labels(vocab, ys[kept[j]]))
  }

  /** Every kept row, on either side, has at least one 1. */
  lemma KeptRowsHaveOne(ks: seq<string>, xs: seq<seq<string>>, ys: seq<seq<string>>)
    requires |xs| == |ys|
    ensures var t := Training(IndexMap(ks), |ks|, xs, ys);
      (forall j :: 0 <= j < |t.x| ==> 1 in t.x[j]) && (forall j :: 0 <= j < |t.y| ==> 1 in t.y[j])
  {
    var m := IndexMap(ks);
    var t, kept := Training(m, |ks|, xs, ys), Kept(m, xs, ys);
    TrainingRows(m, |ks|, xs, ys);
    forall j | 0 <= j < |kept|
      ensures 1 in t.x[j] && 1 in t.y[j]
    {
      var lx, ly := Labels(m, xs[kept[j]]), Labels(m, ys[kept[j]]);
      assert kept[j] in kept;
      assert lx[0] in lx && ly[0] in ly;
      assert t.x[j][lx[0]] == 1;
      assert t.y[j][ly[0]] == 1;
    }
  }

  /** The state of the `y_true` loop after the records of `ys`. */
  function Targets(vocab: map<string, nat>, n: nat, ys: seq<seq<string>>): TargetSet
  {
    if ys == [] then TargetSet([], 0)
    else
      var i := |ys| - 1;
      var prev := Targets(vocab, n, ys[..i]);
      var labels := Labels(vocab, ys[i]);
      if labels != [] then prev.(y := prev.y + [Binarized(n, labels)])
      else prev.(zeroCount := prev.zeroCount + 1)
  }

  /**
   * `y_true` applies the filter of `x_y_train` to one side: it is the output
   * side of training on the records paired with themselves.
   */
  lemma {:induction false} TargetsAreSelfTraining(vocab: map<string, nat>, n: nat, ys: seq<seq<string>>)
    ensures var t := Training(vocab, n, ys, ys);
      Targets(vocab, n, ys) == TargetSet(t.y, t.zeroCount) && t.x == t.y
  {
    if ys != [] {
      TargetsAreSelfTraining(vocab, n, ys[..|ys| - 1]);
    }
  }

  /**
   * The rows of `y_true` are the records with a vocabulary match, binarized,
   * in order; the others are counted, and every row has a 1.
   */
  lemma TargetRows(ks: seq<string>, ys: seq<seq<string>>)
    ensures var vocab := IndexMap(ks);
      var t, kept := Targets(vocab, |ks|, ys), Kept(vocab, ys, ys);
      && |t.y| + t.zeroCount == |ys|
      && |t.y| == |kept|
      && (forall i :: 0 <= i < |ys| ==> (i in kept <==> Labels(vocab, ys[i]) != []))
      && (forall j :: 0 <= j < |kept| ==> t.y[j] == Binarized(|ks|, Labels(vocab, ys[kept[j]])))
      && (forall j :: 0 <= j < |t.y| ==> 1 in t.y[j])
  {
    var vocab := IndexMap(ks);
    TargetsAreSelfTraining(vocab, |ks|, ys);
    TrainingRows(vocab, |ks|, ys, ys);
    KeptRowsHaveOne(ks, ys, ys);
  }

  class BaselineFeatureExtractor {
    /** The `keyword` column of the ranked table. */
    const topKeywords: seq<string>
    const numKeywords: nat
    /** The vocabulary: keyword to index. */
    const keywords: map<string, nat>

    ghost predicate Valid()
    {
      numKeywords == |topKeywords| && keywords == IndexMap(topKeywords)
    }

    /** `__init__`: the vocabulary sends each keyword to its first position in the ranked list. */
    constructor (topKeywords: seq<string>)
      ensures Valid()
      ensures this.topKeywords == topKeywords
      ensures numKeywords == |topKeywords|
      ensures forall k :: k in keywords <==> k in topKeywords
      ensures forall k :: k in keywords ==> keywords[k] < numKeywords && topKeywords[keywords[k]] == k
    {
      this.topKeywords := topKeywords;
      numKeywords := |topKeywords|;
      keywords := IndexMap(topKeywords);
    }

    /** `label_features`. */
    method LabelFeatures(kws: seq<string>) returns (features: seq<nat>)
      requires Valid()
      ensures features == Labels(keywords, kws)
      ensures forall j :: j in features ==> j < numKeywords
    {
      features := [];
      for i := 0 to |kws|
        invariant features == Labels(keywords, kws[..i])
      {
        assert kws[..i + 1][..i] == kws[..i];
        var keyword := kws[i];
        if keyword in keywords {
          var index := keywords[keyword];
          features := features + [index];
        }
      }
      assert kws[..|kws|] == kws;
    }

    /** `binarize`: a zero list of width `numKeywords`, then a 1 written at each index. */
    method Binarize(indices: seq<int>) returns (binarized: seq<int>)
      requires forall i :: i in indices ==> 0 <= i + numKeywords && i < numKeywords
      ensures binarized == Binarized(numKeywords, indices)
      ensures |binarized| == numKeywords
      ensures forall j :: 0 <= j < numKeywords ==> (binarized[j] == 1 <==> Hit(numKeywords, indices, j))
    {
      var a := new int[numKeywords](_ => 0);
      for k := 0 to |indices|
        invariant forall j :: 0 <= j < a.Length ==>
          a[j] == (if Hit(numKeywords, indices[..k], j) then 1 else 0)
      {
        assert forall i :: i in indices[..k + 1] <==> i in indices[..k] || i == indices[k];
        var i := indices[k];
        assert i in indices;
        a[if i < 0 then i + numKeywords else i] := 1;
      }
      assert indices[..|indices|] == indices;
      binarized := a[..];
    }

    /** `x_y_train`: `None` on a length mismatch, otherwise the kept pairs and the drop count. */
    method XYTrain(xData: seq<seq<string>>, yData: seq<seq<string>>) returns (r: Option<TrainingSet>)
      requires Valid()
      ensures r.None? <==> |xData| != |yData|
      ensures r.Some? ==> r.value == Training(keywords, numKeywords, xData, yData)
      ensures r.Some? ==> |r.value.x| == |r.value.y| == |xData| - r.value.zeroCount
    {
      if |xData| != |yData| {
        return None;
      }
      var xTrain, yTrain, zeroCount := [], [], 0;
      for i := 0 to |xData|
        invariant TrainingSet(xTrain, yTrain, zeroCount) == Training(keywords, numKeywords, xData[..i], yData[..i])
      {
        assert xData[..i + 1][..i] == xData[..i] && yData[..i + 1][..i] == yData[..i];
        var xFeats := LabelFeatures(xData[i]);
        var yFeats := LabelFeatures(yData[i]);
        if xFeats != [] && yFeats != [] {
          var xRow := Binarize(xFeats);
          var yRow := Binarize(yFeats);
          xTrain := xTrain + [xRow];
          yTrain := yTrain + [yRow];
        } else {
          zeroCount := zeroCount + 1;
        }
      }
      assert xData[..|xData|] == xData && yData[..|yData|] == yData;
      TrainingRows(keywords, numKeywords, xData, yData);
      return Some(TrainingSet(xTrain, yTrain, zeroCount));
    }

    /** `y_true`: the records with a vocabulary match, binarized, and the drop count. */
    method YTrue(yData: seq<seq<string>>) returns (r: TargetSet)
      requires Valid()
      ensures r == Targets(keywords, numKeywords, yData)
      ensures |r.y| + r.zeroCount == |yData|
      ensures forall j :: 0 <= j < |r.y| ==> 1 in r.y[j]
    {
      var yTrue, zeroCount := [], 0;
      for i := 0 to |yData|
        invariant TargetSet(yTrue, zeroCount) == Targets(keywords, numKeywords, yData[..i])
      {
        assert yData[..i + 1][..i] == yData[..i];
        var yFeats := LabelFeatures(yData[i]);
        if yFeats != [] {
          var yRow := Binarize(yFeats);
          yTrue := yTrue + [yRow];
        } else {
          zeroCount := zeroCount + 1;
        }
      }
      assert yData[..|yData|] == yData;
      TargetRows(topKeywords, yData);
      return TargetSet(yTrue, zeroCount);
    }
  }
}
