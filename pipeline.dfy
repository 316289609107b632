/**
 * The chunked run of PACIFIC (the `__main__` block of scripts/PACIFIC.py):
 * records are buffered, every `CHUNK_SIZE`-th record flushes the buffer
 * to `predict_chunk`, and one last call takes whatever remains, possibly
 * nothing. The input file is given as its parsed sequence of records.
 */
module Pipeline {
  import opened Reads
  import opened Aggregate
  import opened Summary

  /** A parsed FASTA/FASTQ record: `fasta.id` and `str(fasta.seq)`. */
  datatype Record = Record(id: string, sequence: string)

  /** `K_MERS` (line 226). */
  const KMers: nat := 9

  function SequencesOf(records: seq<Record>): (s: seq<string>)
    ensures |s| == |records|
  {
    seq(|records|, j requires 0 <= j < |records| => records[j].sequence)
  }

  /** The records that two parallel buffers of names and sequences stand for. */
  function Pair(names: seq<string>, sequences: seq<string>): (r: seq<Record>)
    requires |names| == |sequences|
    ensures |r| == |sequences|
  {
    seq(|sequences|, j requires 0 <= j < |sequences| => Record(names[j], sequences[j]))
  }

  /** The chunks, concatenated in call order. */
  function Flatten(chunks: seq<seq<Record>>): seq<Record>
  {
    if |chunks| == 0 then [] else Flatten(chunks[..|chunks| - 1]) + chunks[|chunks| - 1]
  }

  /**
   * The calls a tally's history records: call j received the names
   * `chunkNames[j]` and the reads `chunks[j]`, which together are the
   * records `calls[j]`.
   */
  ghost predicate Received(calls: seq<seq<Record>>, chunkNames: seq<seq<string>>, chunks: seq<seq<string>>)
  {
    && |calls| == |chunkNames| == |chunks|
    && forall j | 0 <= j < |calls| :: |chunkNames[j]| == |chunks[j]| && Pair(chunkNames[j], chunks[j]) == calls[j]
  }

  /** One more call extends the history by its buffers. */
  lemma ReceivedSnoc(calls: seq<seq<Record>>, chunkNames: seq<seq<string>>, chunks: seq<seq<string>>,
                     names: seq<string>, sequences: seq<string>)
    requires Received(calls, chunkNames, chunks) && |names| == |sequences|
    ensures Received(calls + [Pair(names, sequences)], chunkNames + [names], chunks + [sequences])
  {
    var calls', chunkNames', chunks' := calls + [Pair(names, sequences)], chunkNames + [names], chunks + [sequences];
    forall j | 0 <= j < |calls'|
      ensures |chunkNames'[j]| == |chunks'[j]| && Pair(chunkNames'[j], chunks'[j]) == calls'[j]
    {
      if j < |calls| {
        assert chunkNames'[j] == chunkNames[j] && chunks'[j] == chunks[j] && calls'[j] == calls[j];
      }
    }
  }

  lemma FlattenSnoc(chunks: seq<seq<Record>>, chunk: seq<Record>)
    ensures Flatten(chunks + [chunk]) == Flatten(chunks) + chunk
  {
    assert (chunks + [chunk])[..|chunks|] == chunks;
  }

  /** Appending one record to both buffers appends it to the records they stand for. */
  lemma PairSnoc(names: seq<string>, sequences: seq<string>, r: Record)
    requires |names| == |sequences|
    ensures Pair(names + [r.id], sequences + [r.sequence]) == Pair(names, sequences) + [r]
  {
  }

  /** Buffering the next record extends the buffered slice by one. */
  lemma BufferSnoc(records: seq<Record>, start: nat, i: nat, names: seq<string>, sequences: seq<string>)
    requires start <= i < |records| && |names| == |sequences|
    requires Pair(names, sequences) == records[start..i]
    ensures Pair(names + [records[i].id], sequences + [records[i].sequence]) == records[start..i + 1]
  {
    PairSnoc(names, sequences, records[i]);
    assert records[start..i + 1] == records[start..i] + [records[i]];
  }

  lemma PairSequences(names: seq<string>, sequences: seq<string>)
    requires |names| == |sequences|
    ensures SequencesOf(Pair(names, sequences)) == sequences
  {
  }

  lemma MulOutside(s: nat, d: int)
    ensures d >= 1 ==> s * d >= s
    ensures d <= -1 ==> s * d + s <= 0
  {
  }

  /**
   * After the counter moves to q * s + r, with 0 < r <= s records
   * buffered, the flush test holds exactly when the buffer is full.
   */
  lemma FlushTest(q: nat, s: nat, r: nat)
    requires 0 < r <= s
    ensures (q * s + r) % s == 0 <==> r == s
    ensures r == s ==> q * s + r == (q + 1) * s
  {
    if r < s {
      DivModOf(q, s, r);
    } else {
      DivModOf(q + 1, s, 0);
    }
  }

  /** Euclidean division of q * s + r by s, for 0 <= r < s. */
  lemma DivModOf(q: nat, s: nat, r: nat)
    requires r < s
    ensures (q * s + r) / s == q && (q * s + r) % s == r
  {
    var n := q * s + r;
    var d := n / s - q;
    assert s * d == r - n % s;
    MulOutside(s, d);
  }

  /** What the accumulator holds after the records before `end` were classified. */
  ghost function ResultsUpTo(records: seq<Record>, end: nat, kmer: nat, predict: string -> Prediction, outputFasta: bool): (r: Results)
    requires end <= |records|
    ensures Complete(r)
  {
    EmptyResultsProcessNothing();
    if outputFasta then AddAll(EmptyResults, ChunkPredictions(SequencesOf(records[..end]), kmer, predict))
    else EmptyResults
  }

  /** The sequences of the records before `end`: those before `start`, then those of [start, end). */
  lemma SequencesOfSplit(records: seq<Record>, start: nat, end: nat)
    requires start <= end <= |records|
    ensures SequencesOf(records[..start]) + SequencesOf(records[start..end]) == SequencesOf(records[..end])
  {
    var a, b, whole := SequencesOf(records[..start]), SequencesOf(records[start..end]), SequencesOf(records[..end]);
    forall j | 0 <= j < |whole| ensures (a + b)[j] == whole[j] {
      if j < start {
        assert a[j] == records[j].sequence;
      } else {
        assert b[j - start] == records[j].sequence;
      }
    }
  }

  /** Classifying records [start, end) after those before `start` gives the results up to `end`. */
  lemma ResultsAfterFlush(records: seq<Record>, start: nat, end: nat, kmer: nat, predict: string -> Prediction, outputFasta: bool,
                           before: Results, chunk: seq<string>)
    requires start <= end <= |records|
    requires before == ResultsUpTo(records, start, kmer, predict, outputFasta)
    requires chunk == SequencesOf(records[start..end])
    ensures (if outputFasta then AddAll(before, ChunkPredictions(chunk, kmer, predict)) else before)
      == ResultsUpTo(records, end, kmer, predict, outputFasta)
  {
    if outputFasta {
      var a, b := SequencesOf(records[..start]), chunk;
      SequencesOfSplit(records, start, end);
      EmptyResultsProcessNothing();
      ChunkPredictionsAppend(a, b, kmer, predict);
      AddAllAppend(EmptyResults, ChunkPredictions(a, kmer, predict), ChunkPredictions(b, kmer, predict));
    }
  }

  /**
   * One call of `predict_chunk` on the buffered records [start, end), as at
   * lines 262-267 and 273-278; its FASTA records are not kept.
   */
  method Flush(tally: Tally, ghost records: seq<Record>, ghost start: nat, ghost end: nat,
               sequences: seq<string>, names: seq<string>,
               kmer: nat, predict: string -> Prediction, outputFasta: bool)
    requires start <= end <= |records| && |names| == |sequences|
    requires Pair(names, sequences) == records[start..end]
    requires tally.Valid() && tally.totalSequences == start
    requires tally.results == ResultsUpTo(records, start, kmer, predict, outputFasta)
    modifies tally
    ensures tally.Valid() && tally.totalSequences == end
    ensures tally.received == old(tally.received) + [sequences]
    ensures tally.receivedNames == old(tally.receivedNames) + [names]
    ensures tally.results == ResultsUpTo(records, end, kmer, predict, outputFasta)
  {
    PairSequences(names, sequences);
    ResultsAfterFlush(records, start, end, kmer, predict, outputFasta, tally.results, sequences);
    var _ := tally.PredictChunk(sequences, names, kmer, predict, outputFasta);
  }

  /**
   * The loop state after the records before i were read: the buffers hold
   * records [start, i), fewer than a chunk, and the earlier calls received
   * full chunks that together are the records before start.
   */
  ghost predicate Buffered(records: seq<Record>, i: nat, chunkSize: nat, sequences: seq<string>, names: seq<string>,
                           counter: nat, calls: seq<seq<Record>>, start: nat)
  {
    && i <= |records|
    && counter == i == start + |sequences| && start == |calls| * chunkSize
    && |sequences| == |names| < chunkSize
    && Pair(names, sequences) == records[start..i]
    && Flatten(calls) == records[..start]
    && (forall j | 0 <= j < |calls| :: |calls[j]| == chunkSize)
  }

  /**
   * One pass of the loop body (lines 256-270): buffer record i, and on
   * every `CHUNK_SIZE`-th record hand the buffer to `predict_chunk` and
   * empty it.
   */
  method Step(tally: Tally, records: seq<Record>, i: nat, chunkSize: nat, kmer: nat,
              predict: string -> Prediction, outputFasta: bool,
              sequences: seq<string>, names: seq<string>, counter: nat, ghost calls: seq<seq<Record>>, ghost start: nat)
    returns (sequences': seq<string>, names': seq<string>, counter': nat, ghost calls': seq<seq<Record>>, ghost start': nat)
    requires chunkSize > 0 && i < |records|
    requires Buffered(records, i, chunkSize, sequences, names, counter, calls, start)
    requires tally.Valid() && tally.totalSequences == start
    requires tally.results == ResultsUpTo(records, start, kmer, predict, outputFasta)
    requires Received(calls, tally.receivedNames, tally.received)
    modifies tally
    ensures Buffered(records, i + 1, chunkSize, sequences', names', counter', calls', start')
    ensures tally.Valid() && tally.totalSequences == start'
    ensures Received(calls', tally.receivedNames, tally.received)
    ensures tally.results == ResultsUpTo(records, start', kmer, predict, outputFasta)
  {
    var name, sequence := records[i].id, records[i].sequence;
    BufferSnoc(records, start, i, names, sequences);
    sequences', names' := sequences + [sequence], names + [name];
    counter' := counter + 1;
    FlushTest(|calls|, chunkSize, |sequences'|);
    if counter' % chunkSize == 0 {
      ReceivedSnoc(calls, tally.receivedNames, tally.received, names', sequences');
      Flush(tally, records, start, i + 1, sequences', names', kmer, predict, outputFasta);
      FlattenSnoc(calls, Pair(names', sequences'));
      calls' := calls + [Pair(names', sequences')];
      sequences', names' := [], [];
      start' := i + 1;
    } else {
      calls', start' := calls, start;
    }
  }

  /**
   * The loop of lines 250-278. `calls` lists, in order, the records each
   * call of `predict_chunk` received, as the tally's history of calls
   * records them: all but the last hold exactly
   * `CHUNK_SIZE` records, the last holds the remainder (possibly none),
   * and together they are the input. `total_sequences` ends at the number
   * of input records.
   */
  method Run(records: seq<Record>, chunkSize: nat, kmer: nat, predict: string -> Prediction, outputFasta: bool)
    returns (tally: Tally, ghost calls: seq<seq<Record>>)
    requires chunkSize > 0
    ensures fresh(tally) && tally.Valid()
    ensures Received(calls, tally.receivedNames, tally.received)
    ensures Flatten(calls) == records
    ensures |calls| == |records| / chunkSize + 1
    ensures forall j | 0 <= j < |calls| - 1 :: |calls[j]| == chunkSize
    ensures |calls[|calls| - 1]| == |records| % chunkSize
    ensures tally.totalSequences == |records|
    ensures tally.results == ResultsUpTo(records, |records|, kmer, predict, outputFasta)
  {
    tally := new Tally();
    var sequences: seq<string> := [];
    var names: seq<string> := [];
    var counter := 0;
    calls := [];
    ghost var start := 0;
    for i := 0 to |records|
      invariant Buffered(records, i, chunkSize, sequences, names, counter, calls, start)
      invariant tally.Valid() && tally.totalSequences == start
      invariant Received(calls, tally.receivedNames, tally.received)
      invariant tally.results == ResultsUpTo(records, start, kmer, predict, outputFasta)
    {
      sequences, names, counter, calls, start :=
        Step(tally, records, i, chunkSize, kmer, predict, outputFasta, sequences, names, counter, calls, start);
    }
    ReceivedSnoc(calls, tally.receivedNames, tally.received, names, sequences);
    Flush(tally, records, start, |records|, sequences, names, kmer, predict, outputFasta);
    FlattenSnoc(calls, Pair(names, sequences));
    DivModOf(|calls|, chunkSize, |sequences|);
    calls := calls + [Pair(names, sequences)];
    assert records[..|records|] == records;
  }

  /**
   * After the whole input, each class's list holds, in input order, the
   * winning probabilities of the kept reads predicted as that class, and
   * the processed count is the number of kept reads; without the FASTA
   * output every list stays empty.
   */
  lemma ResultsOfRun(records: seq<Record>, kmer: nat, predict: string -> Prediction, outputFasta: bool)
    ensures var r := ResultsUpTo(records, |records|, kmer, predict, outputFasta);
            var ps := ChunkPredictions(SequencesOf(records), kmer, predict);
      && ProcessedReads(r) == (if outputFasta then |AcceptedIndices(SequencesOf(records))| else 0)
      && forall c :: r[c] == (if outputFasta then ProbsOf(ps, c) else [])
  {
    EmptyResultsProcessNothing();
    if outputFasta {
      assert records[..|records|] == records;
      var ps := ChunkPredictions(SequencesOf(records), kmer, predict);
      assert ResultsUpTo(records, |records|, kmer, predict, outputFasta) == AddAll(EmptyResults, ps);
      ProcessedReadsAddAll(EmptyResults, ps);
      forall c ensures AddAll(EmptyResults, ps)[c] == ProbsOf(ps, c) {
        AddAllPerClass(EmptyResults, ps, c);
      }
    }
  }

  /**
   * The whole run without file I/O: classify every record in chunks, then
   * summarise. Because line 207 only runs with the FASTA output on, a run
   * without it classifies nothing into the accumulator and always stops
   * with "None processed reads". With it, every kept read is counted once,
   * under the class it was predicted as, and the discarded count is the
   * number of reads the filter rejected.
   */
  method RunPacific(records: seq<Record>, chunkSize: nat, threshold: real,
                    predict: string -> Prediction, outputFasta: bool)
    returns (report: Report)
    requires chunkSize > 0
    ensures !outputFasta ==> report == NoProcessedReads
    ensures outputFasta ==> (report == NoProcessedReads <==> AcceptedIndices(SequencesOf(records)) == [])
    ensures report.Table? ==>
      var ps := ChunkPredictions(SequencesOf(records), KMers, predict);
      && report.totalReads == |records|
      && report.discarded == |records| - |AcceptedIndices(SequencesOf(records))| >= 0
      && Complete(report.counts) && Complete(report.thresholdReads)
      && (forall c :: report.counts[c] == |ProbsOf(ps, c)|)
      && (forall c :: report.thresholdReads[c] == CountAbove(ProbsOf(ps, c), threshold))
    ensures report.Table? ==>
      && Complete(report.percentage) && SumReal(report.percentage) == 100.0
      && Complete(report.thresholdPercentage) && SumReal(report.thresholdPercentage) == 100.0
    ensures report == NothingAboveThreshold <==>
      var ps := ChunkPredictions(SequencesOf(records), KMers, predict);
      && outputFasta && AcceptedIndices(SequencesOf(records)) != []
      && forall c :: CountAbove(ProbsOf(ps, c), threshold) == 0
  {
    var tally, calls := Run(records, chunkSize, KMers, predict, outputFasta);
    ResultsOfRun(records, KMers, predict, outputFasta);
    report := Summarize(tally.results, tally.totalSequences, threshold);
    AboveSumZero(tally.results, threshold);
  }
}
