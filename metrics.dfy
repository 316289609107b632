/**
 * The accuracy helper of PACIFIC (`accuracy` in scripts/PACIFIC.py):
 * the share of positions where a label equals its prediction.
 *
 * Labels and predictions are one-dimensional, so their shapes are their
 * lengths. The helper's three outcomes are kept apart: a shape mismatch
 * (the source prints a message and returns False), an empty input (the
 * source divides by zero outside its try block) and a ratio.
 */
module Metrics {

  datatype Outcome = ShapeMismatch | DivisionByZero | Ratio(correct: nat, total: nat)
  {
    /** The ratio as a real number. */
    function Value(): real
      requires Ratio? && total > 0
    {
      correct as real / total as real
    }
  }

  /** Number of positions below n where the label equals the prediction. */
  function MatchCount<T(==)>(labels: seq<T>, predictions: seq<T>, n: nat): (c: nat)
    requires n <= |labels| && n <= |predictions|
    ensures c <= n
  {
    if n == 0 then 0
    else MatchCount(labels, predictions, n - 1) + (if labels[n - 1] == predictions[n - 1] then 1 else 0)
  }

  /** The count is the size of the set of matching positions. */
  lemma {:induction false} MatchCountIsCardinality<T>(labels: seq<T>, predictions: seq<T>, n: nat)
    requires n <= |labels| && n <= |predictions|
    ensures MatchCount(labels, predictions, n) == |set i | 0 <= i < n && labels[i] == predictions[i]|
  {
    if n > 0 {
      MatchCountIsCardinality(labels, predictions, n - 1);
      var before := set i | 0 <= i < n - 1 && labels[i] == predictions[i];
      var after := set i | 0 <= i < n && labels[i] == predictions[i];
      if labels[n - 1] == predictions[n - 1] {
        assert after == before + {n - 1};
      } else {
        assert after == before;
      }
    }
  }

  /** Every position matches exactly when the count reaches n; none matches exactly when it is 0. */
  lemma {:induction false} MatchCountExtremes<T>(labels: seq<T>, predictions: seq<T>, n: nat)
    requires n <= |labels| && n <= |predictions|
    ensures MatchCount(labels, predictions, n) == n <==> forall i | 0 <= i < n :: labels[i] == predictions[i]
    ensures MatchCount(labels, predictions, n) == 0 <==> forall i | 0 <= i < n :: labels[i] != predictions[i]
  {
    if n > 0 {
      MatchCountExtremes(labels, predictions, n - 1);
    }
  }

  /** `accuracy` (lines 159-175). */
  method Accuracy<T(==)>(labels: seq<T>, predictions: seq<T>) returns (r: Outcome)
    ensures r == ShapeMismatch <==> |labels| != |predictions|
    ensures r == DivisionByZero <==> |labels| == |predictions| == 0
    ensures r.Ratio? ==> r.total == |labels| > 0 && r.correct == MatchCount(labels, predictions, |labels|)
    ensures r.Ratio? ==> 0.0 <= r.Value() <= 1.0
    ensures r.Ratio? ==> (r.Value() == 1.0 <==> labels == predictions)
  {
    if |labels| != |predictions| {
      return ShapeMismatch;
    }
    var correct := 0;
    var i := 0;
    while i < |labels|
      invariant 0 <= i <= |labels|
      invariant correct == MatchCount(labels, predictions, i)
    {
      if labels[i] == predictions[i] {
        correct := correct + 1;
      }
      i := i + 1;
    }
    if |labels| == 0 {
      return DivisionByZero;
    }
    MatchCountExtremes(labels, predictions, |labels|);
    r := Ratio(correct, |labels|);
    assert r.Value() == 1.0 <==> correct == |labels|;
  }
}
