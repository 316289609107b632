/**
 * The summary that PACIFIC reports once every chunk is classified
 * (lines 298-362 of scripts/PACIFIC.py): per class, the number of reads,
 * their share of all classified reads, the number above the prediction
 * threshold and their share of all reads above it. Shares are real
 * numbers, not floating point.
 */
module Summary {
  import opened Aggregate

  /** `len(numpy_class[numpy_class > THRESHOLD_PREDICTION])` (lines 343-344). */
  function CountAbove(probs: seq<real>, threshold: real): (n: nat)
    ensures n <= |probs|
  {
    if |probs| == 0 then 0
    else CountAbove(probs[..|probs| - 1], threshold) + (if probs[|probs| - 1] > threshold then 1 else 0)
  }

  /** No entry is counted exactly when none is above the threshold; all are counted exactly when all are. */
  lemma {:induction false} CountAboveExtremes(probs: seq<real>, threshold: real)
    ensures CountAbove(probs, threshold) == 0 <==> forall i | 0 <= i < |probs| :: probs[i] <= threshold
    ensures CountAbove(probs, threshold) == |probs| <==> forall i | 0 <= i < |probs| :: probs[i] > threshold
  {
    if |probs| > 0 {
      var init := probs[..|probs| - 1];
      CountAboveExtremes(init, threshold);
      assert forall i | 0 <= i < |init| :: init[i] == probs[i];
    }
  }

  /** The count is the size of the set of positions whose entry is above the threshold. */
  lemma {:induction false} CountAboveIsCardinality(probs: seq<real>, threshold: real)
    ensures CountAbove(probs, threshold) == |set i | 0 <= i < |probs| && probs[i] > threshold|
  {
    if |probs| > 0 {
      var init := probs[..|probs| - 1];
      CountAboveIsCardinality(init, threshold);
      var before := set i | 0 <= i < |init| && init[i] > threshold;
      var after := set i | 0 <= i < |probs| && probs[i] > threshold;
      if probs[|probs| - 1] > threshold {
        assert after == before + {|probs| - 1};
      } else {
        assert after == before;
      }
    }
  }

  /** The above-threshold counts of the first n classes in dictionary order. */
  function AboveSum(results: Results, threshold: real, n: nat): nat
    requires Complete(results) && n <= |Classes|
  {
    if n == 0 then 0 else AboveSum(results, threshold, n - 1) + CountAbove(results[Classes[n - 1]], threshold)
  }

  /** Summed in dictionary order, the six counts give the table's total. */
  lemma AboveSumOfCounts(results: Results, threshold: real, counts: map<ViralClass, nat>)
    requires Complete(results) && Complete(counts)
    requires forall c :: counts[c] == CountAbove(results[c], threshold)
    ensures AboveSum(results, threshold, |Classes|) == SumNat(counts) <= ProcessedReads(results)
  {
    assert AboveSum(results, threshold, 6) == AboveSum(results, threshold, 5) + counts[Human];
    assert AboveSum(results, threshold, 5) == AboveSum(results, threshold, 4) + counts[Rhinovirus];
    assert AboveSum(results, threshold, 4) == AboveSum(results, threshold, 3) + counts[Metapneumovirus];
    assert AboveSum(results, threshold, 3) == AboveSum(results, threshold, 2) + counts[Influenza];
    assert AboveSum(results, threshold, 2) == AboveSum(results, threshold, 1) + counts[Coronaviridae];
    assert AboveSum(results, threshold, 1) == counts[SarsCov2];
  }

  /** No read is above the threshold overall exactly when no class has one. */
  lemma AboveSumZero(results: Results, threshold: real)
    requires Complete(results)
    ensures AboveSum(results, threshold, |Classes|) == 0 <==> forall c :: CountAbove(results[c], threshold) == 0
  {
    var counts := map c | c in results :: CountAbove(results[c], threshold);
    AboveSumOfCounts(results, threshold, counts);
    if SumNat(counts) == 0 {
      forall c ensures CountAbove(results[c], threshold) == 0 {
        EntryAtMostSum(counts, c);
      }
    }
  }

  /** Sum of a per-class count table. */
  function SumNat(m: map<ViralClass, nat>): nat
    requires Complete(m)
  {
    m[SarsCov2] + m[Coronaviridae] + m[Influenza] + m[Metapneumovirus] + m[Rhinovirus] + m[Human]
  }

  /** Sum of a per-class percentage table. */
  function SumReal(m: map<ViralClass, real>): real
    requires Complete(m)
  {
    m[SarsCov2] + m[Coronaviridae] + m[Influenza] + m[Metapneumovirus] + m[Rhinovirus] + m[Human]
  }

  /** No entry of a count table exceeds its sum. */
  lemma EntryAtMostSum(m: map<ViralClass, nat>, c: ViralClass)
    requires Complete(m)
    ensures m[c] <= SumNat(m)
  {
  }

  /** `n / total * 100` over the reals. */
  function Share(n: nat, total: nat): (p: real)
    requires total > 0
    ensures 0.0 <= p
    ensures n <= total ==> p <= 100.0
  {
    n as real / total as real * 100.0
  }

  /** A share is its count times the fixed factor 100 / total. */
  lemma ShareScaled(n: nat, total: nat)
    requires total > 0
    ensures Share(n, total) == n as real * (100.0 / total as real)
  {
  }

  /** A share is the percentage that n makes of the total: share * total == n * 100. */
  lemma ShareIsPercentage(n: nat, total: nat)
    requires total > 0
    ensures Share(n, total) * total as real == n as real * 100.0
  {
  }

  /** Six shares of a total that their counts add up to make 100. */
  lemma SharesSum(a: nat, b: nat, c: nat, d: nat, e: nat, f: nat)
    requires a + b + c + d + e + f > 0
    ensures var t := a + b + c + d + e + f;
      Share(a, t) + Share(b, t) + Share(c, t) + Share(d, t) + Share(e, t) + Share(f, t) == 100.0
  {
    var t := a + b + c + d + e + f;
    var u := 100.0 / t as real;
    ShareScaled(a, t);
    ShareScaled(b, t);
    ShareScaled(c, t);
    ShareScaled(d, t);
    ShareScaled(e, t);
    ShareScaled(f, t);
    assert t as real * u == 100.0;
    assert a as real * u + b as real * u + c as real * u + d as real * u + e as real * u + f as real * u
        == (a as real + b as real + c as real + d as real + e as real + f as real) * u;
  }

  /** The six shares of the processed reads make 100 percent. */
  lemma PercentagesSum(results: Results, percentage: map<ViralClass, real>)
    requires Complete(results) && ProcessedReads(results) > 0 && Complete(percentage)
    requires forall c :: percentage[c] == Share(|results[c]|, ProcessedReads(results))
    ensures SumReal(percentage) == 100.0
  {
    SharesSum(|results[SarsCov2]|, |results[Coronaviridae]|, |results[Influenza]|,
              |results[Metapneumovirus]|, |results[Rhinovirus]|, |results[Human]|);
  }

  /**
   * The `percentage` loop (lines 328-331): each class's share, in percent,
   * of all processed reads. Line 305 is meant to stop the run before this
   * point when nothing was processed, so the divisor is positive.
   */
  method Percentages(results: Results) returns (percentage: map<ViralClass, real>)
    requires Complete(results) && ProcessedReads(results) > 0
    ensures Complete(percentage)
    ensures forall c :: percentage[c] == Share(|results[c]|, ProcessedReads(results))
    ensures SumReal(percentage) == 100.0
  {
    var processed := ProcessedReads(results);
    percentage := map[];
    for i := 0 to |Classes|
      invariant forall c :: c in percentage <==> Position(c) < i
      invariant forall c | c in percentage :: percentage[c] == Share(|results[c]|, processed)
    {
      var classes := Classes[i];
      PositionOfClass(i);
      var numberClass := |results[classes]|;
      percentage := percentage[classes := Share(numberClass, processed)];
    }
    PercentagesSum(results, percentage);
  }

  /**
   * The `threshold_reads` loop (lines 340-345): per class, the entries
   * strictly above the threshold, and their total.
   */
  method ThresholdCounts(results: Results, threshold: real)
    returns (thresholdReads: map<ViralClass, nat>, totalThresholdReads: nat)
    requires Complete(results)
    ensures Complete(thresholdReads)
    ensures forall c :: thresholdReads[c] == CountAbove(results[c], threshold) <= |results[c]|
    ensures totalThresholdReads == SumNat(thresholdReads) == AboveSum(results, threshold, |Classes|)
    ensures totalThresholdReads <= ProcessedReads(results)
  {
    thresholdReads := map[];
    totalThresholdReads := 0;
    for i := 0 to |Classes|
      invariant forall c :: c in thresholdReads <==> Position(c) < i
      invariant forall c | c in thresholdReads :: thresholdReads[c] == CountAbove(results[c], threshold)
      invariant totalThresholdReads == AboveSum(results, threshold, i)
    {
      var classes := Classes[i];
      PositionOfClass(i);
      thresholdReads := thresholdReads[classes := CountAbove(results[classes], threshold)];
      totalThresholdReads := totalThresholdReads + thresholdReads[classes];
      assert AboveSum(results, threshold, i + 1) == AboveSum(results, threshold, i) + CountAbove(results[classes], threshold);
    }
    AboveSumOfCounts(results, threshold, thresholdReads);
  }

  /**
   * The last column (lines 355-362): each class's share of the reads above
   * the threshold. The source divides without a guard, so it needs at
   * least one such read.
   */
  function ThresholdPercentages(thresholdReads: map<ViralClass, nat>): (p: map<ViralClass, real>)
    requires Complete(thresholdReads) && SumNat(thresholdReads) > 0
    ensures Complete(p)
    ensures forall c :: p[c] == Share(thresholdReads[c], SumNat(thresholdReads))
    ensures forall c :: 0.0 <= p[c] <= 100.0
    ensures SumReal(p) == 100.0
  {
    var total := SumNat(thresholdReads);
    var p := map c | c in thresholdReads :: Share(thresholdReads[c], total);
    forall c ensures 0.0 <= p[c] <= 100.0 {
      EntryAtMostSum(thresholdReads, c);
    }
    SharesSum(thresholdReads[SarsCov2], thresholdReads[Coronaviridae], thresholdReads[Influenza],
              thresholdReads[Metapneumovirus], thresholdReads[Rhinovirus], thresholdReads[Human]);
    p
  }

  /** What the check at line 305 leads to. */
  datatype Guard = TypeErrorRaised | StopNoReads | Proceed

  /** Line 305 as written: `len` of an integer raises a TypeError, whatever the count. */
  function GuardAsWritten(processedReads: nat): Guard
  {
    TypeErrorRaised
  }

  /** Line 305 as meant: stop with "None processed reads" exactly when nothing was classified. */
  function ReportGuard(processedReads: nat): (g: Guard)
    ensures g == StopNoReads <==> processedReads == 0
    ensures g == Proceed <==> processedReads > 0
  {
    if processedReads == 0 then StopNoReads else Proceed
  }

  /** With five classified reads the check as written still fails, while the intended one lets the report through. */
  lemma GuardAsWrittenBlocksReport()
    ensures GuardAsWritten(5) == TypeErrorRaised && ReportGuard(5) == Proceed
  {
  }

  /** The `# predicted reads` column (lines 320-326): each class's list length. */
  function Counts(results: Results): (counts: map<ViralClass, nat>)
    requires Complete(results)
    ensures Complete(counts)
    ensures forall c :: counts[c] == |results[c]|
    ensures SumNat(counts) == ProcessedReads(results)
  {
    map c | c in results :: |results[c]|
  }

  datatype Report =
    | NoProcessedReads
    | NothingAboveThreshold
    | Table(totalReads: nat, discarded: int,
            counts: map<ViralClass, nat>, percentage: map<ViralClass, real>,
            thresholdReads: map<ViralClass, nat>, thresholdPercentage: map<ViralClass, real>)

  /**
   * Lines 298-362 without printing and the CSV file: stop when nothing was
   * processed, end in the division by zero of line 356 when no read is
   * above the threshold, and otherwise build the table.
   */
  method Summarize(totalResults: Results, totalSequences: nat, threshold: real) returns (report: Report)
    requires Complete(totalResults)
    ensures report == NoProcessedReads <==> ProcessedReads(totalResults) == 0
    ensures report == NothingAboveThreshold <==>
      ProcessedReads(totalResults) > 0 && AboveSum(totalResults, threshold, |Classes|) == 0
    ensures report.Table? ==>
      && report.totalReads == totalSequences
      && report.discarded == totalSequences - ProcessedReads(totalResults)
    ensures report.Table? ==>
      && Complete(report.counts)
      && (forall c :: report.counts[c] == |totalResults[c]|)
      && SumNat(report.counts) == ProcessedReads(totalResults)
    ensures report.Table? ==>
      && Complete(report.percentage)
      && (forall c :: report.percentage[c] == Share(|totalResults[c]|, ProcessedReads(totalResults)))
      && SumReal(report.percentage) == 100.0
    ensures report.Table? ==>
      && Complete(report.thresholdReads)
      && (forall c :: report.thresholdReads[c] == CountAbove(totalResults[c], threshold) <= |totalResults[c]|)
      && 0 < SumNat(report.thresholdReads) == AboveSum(totalResults, threshold, |Classes|)
    ensures report.Table? ==>
      && Complete(report.thresholdPercentage)
      && (forall c :: report.thresholdPercentage[c] == Share(report.thresholdReads[c], SumNat(report.thresholdReads)))
      && SumReal(report.thresholdPercentage) == 100.0
  {
    var processedReads := ProcessedReads(totalResults);
    if ReportGuard(processedReads) == StopNoReads {
      return NoProcessedReads;
    }
    var counts := Counts(totalResults);
    var percentage := Percentages(totalResults);
    var thresholdReads, totalThresholdReads := ThresholdCounts(totalResults, threshold);
    if totalThresholdReads == 0 {
      return NothingAboveThreshold;
    }
    report := Table(totalSequences, totalSequences - processedReads, counts, percentage,
                    thresholdReads, ThresholdPercentages(thresholdReads));
  }
}
