/**
 * Per-class aggregation of PACIFIC (`predict_chunk` and the `total_results`
 * dictionary in scripts/PACIFIC.py).
 *
 * The accumulator maps each of the six classes to the list of winning
 * probabilities of the reads assigned to it; it is only ever appended to.
 * The tokenizer, the neural model and the label maker are one function
 * parameter `predict` from a k-mer string to a taxon and its winning
 * probability.
 */
module Aggregate {
  import opened Reads

  datatype ViralClass = SarsCov2 | Coronaviridae | Influenza | Metapneumovirus | Rhinovirus | Human

  /** The keys of `total_results` in insertion order, which is the order of every loop over it. */
  const Classes: seq<ViralClass> := [SarsCov2, Coronaviridae, Influenza, Metapneumovirus, Rhinovirus, Human]

  /** Where a class stands in `Classes`. */
  function Position(c: ViralClass): (p: nat)
    ensures p < |Classes| && Classes[p] == c
  {
    match c
    case SarsCov2 => 0
    case Coronaviridae => 1
    case Influenza => 2
    case Metapneumovirus => 3
    case Rhinovirus => 4
    case Human => 5
  }

  /** `Position` inverts indexing into `Classes`. */
  lemma PositionOfClass(i: nat)
    requires i < |Classes|
    ensures Position(Classes[i]) == i
  {
  }

  /** A dictionary keyed by class that has every class as a key. */
  predicate Complete<V>(m: map<ViralClass, V>)
  {
    forall c: ViralClass :: c in m
  }

  type Results = map<ViralClass, seq<real>>

  /** `total_results` as initialised at lines 242-248. */
  const EmptyResults: Results :=
    map[SarsCov2 := [], Coronaviridae := [], Influenza := [], Metapneumovirus := [], Rhinovirus := [], Human := []]

  /** What the model and the label maker give for one read: its taxon and `max(predictions[i])`. */
  datatype Prediction = Prediction(taxon: ViralClass, prob: real)

  /** Line 207: `total_results[taxon] += [prob]`. */
  function Add(m: Results, p: Prediction): (r: Results)
    requires Complete(m)
    ensures Complete(r)
  {
    m[p.taxon := m[p.taxon] + [p.prob]]
  }

  /** Line 207 repeated over a chunk's predictions, in order. */
  function AddAll(m: Results, ps: seq<Prediction>): (r: Results)
    requires Complete(m)
    ensures Complete(r)
  {
    if |ps| == 0 then m else Add(AddAll(m, ps[..|ps| - 1]), ps[|ps| - 1])
  }

  /** The winning probabilities, in order, of the predictions labelled c. */
  function ProbsOf(ps: seq<Prediction>, c: ViralClass): seq<real>
  {
    if |ps| == 0 then []
    else ProbsOf(ps[..|ps| - 1], c) + (if ps[|ps| - 1].taxon == c then [ps[|ps| - 1].prob] else [])
  }

  /**
   * The accumulator only appends: each class's list grows by exactly the
   * probabilities of the predictions with that taxon, in order, and a
   * class no prediction names keeps its list.
   */
  lemma {:induction false} AddAllPerClass(m: Results, ps: seq<Prediction>, c: ViralClass)
    requires Complete(m)
    ensures AddAll(m, ps)[c] == m[c] + ProbsOf(ps, c)
    ensures (forall j | 0 <= j < |ps| :: ps[j].taxon != c) ==> AddAll(m, ps)[c] == m[c]
  {
    if |ps| > 0 {
      var init := ps[..|ps| - 1];
      AddAllPerClass(m, init, c);
      assert forall j | 0 <= j < |init| :: init[j] == ps[j];
    }
  }

  lemma {:induction false} AddAllAppend(m: Results, a: seq<Prediction>, b: seq<Prediction>)
    requires Complete(m)
    ensures AddAll(m, a + b) == AddAll(AddAll(m, a), b)
  {
    if |b| == 0 {
      assert a + b == a;
    } else {
      AddAllAppend(m, a, b[..|b| - 1]);
      assert (a + b)[..|a + b| - 1] == a + b[..|b| - 1];
    }
  }

  /** One more prediction of a sequence is one more `Add`. */
  lemma AddAllStep(m: Results, ps: seq<Prediction>, j: nat)
    requires Complete(m) && j < |ps|
    ensures AddAll(m, ps[..j + 1]) == Add(AddAll(m, ps[..j]), ps[j])
  {
    assert ps[..j + 1][..j] == ps[..j];
  }

  /** `processed_reads` (lines 298-303): the sum of the six list lengths. */
  function ProcessedReads(m: Results): nat
    requires Complete(m)
  {
    |m[Influenza]| + |m[Coronaviridae]| + |m[Metapneumovirus]| + |m[Rhinovirus]| + |m[SarsCov2]| + |m[Human]|
  }

  /** Every prediction is in exactly one class's list. */
  lemma {:induction false} ProbsOfPartition(ps: seq<Prediction>)
    ensures |ProbsOf(ps, Influenza)| + |ProbsOf(ps, Coronaviridae)| + |ProbsOf(ps, Metapneumovirus)|
          + |ProbsOf(ps, Rhinovirus)| + |ProbsOf(ps, SarsCov2)| + |ProbsOf(ps, Human)| == |ps|
  {
    if |ps| > 0 {
      ProbsOfPartition(ps[..|ps| - 1]);
    }
  }

  /** Adding n predictions raises the processed count by exactly n. */
  lemma ProcessedReadsAddAll(m: Results, ps: seq<Prediction>)
    requires Complete(m)
    ensures ProcessedReads(AddAll(m, ps)) == ProcessedReads(m) + |ps|
  {
    forall c | true ensures AddAll(m, ps)[c] == m[c] + ProbsOf(ps, c) {
      AddAllPerClass(m, ps, c);
    }
    ProbsOfPartition(ps);
  }

  lemma EmptyResultsProcessNothing()
    ensures Complete(EmptyResults) && ProcessedReads(EmptyResults) == 0
  {
    forall c: ViralClass ensures c in EmptyResults {
      match c
      case SarsCov2 =>
      case Coronaviridae =>
      case Influenza =>
      case Metapneumovirus =>
      case Rhinovirus =>
      case Human =>
    }
  }

  /** Lines 189-197: the prediction of each kept read of a chunk, in order. */
  function ChunkPredictions(sequences: seq<string>, kmer: nat, predict: string -> Prediction): (ps: seq<Prediction>)
    ensures |ps| == |AcceptedIndices(sequences)|
  {
    var kept := KeptReads(sequences, kmer);
    seq(|kept|, j requires 0 <= j < |kept| => predict(kept[j]))
  }

  lemma ChunkPredictionsAppend(a: seq<string>, b: seq<string>, kmer: nat, predict: string -> Prediction)
    ensures ChunkPredictions(a + b, kmer, predict) == ChunkPredictions(a, kmer, predict) + ChunkPredictions(b, kmer, predict)
  {
    KeptReadsAppend(a, b, kmer);
  }

  /** One record of the per-chunk FASTA file (lines 205-206): header fields and the sequence line. */
  datatype FastaRecord = FastaRecord(name: string, prob: real, taxon: ViralClass, sequence: string)

  /** The records that lines 204-206 write from parallel lists of names, predictions and sequences. */
  function Records(names: seq<string>, ps: seq<Prediction>, sequences: seq<string>): (r: seq<FastaRecord>)
    requires |names| == |ps| == |sequences|
    ensures |r| == |names|
  {
    seq(|names|, j requires 0 <= j < |names| => FastaRecord(names[j], ps[j].prob, ps[j].taxon, sequences[j]))
  }

  lemma RecordsStep(names: seq<string>, ps: seq<Prediction>, sequences: seq<string>, j: nat)
    requires |names| == |ps| == |sequences| && j < |names|
    ensures Records(names[..j + 1], ps[..j + 1], sequences[..j + 1])
         == Records(names[..j], ps[..j], sequences[..j]) + [FastaRecord(names[j], ps[j].prob, ps[j].taxon, sequences[j])]
  {
  }

  /**
   * The records as lines 204-206 write them: the j-th kept name with the
   * j-th of the transcripts that `main` returns, which are the chunk's
   * unfiltered input rather than its kept reads.
   */
  function RecordsAsWritten(transcripts: seq<string>, keptNames: seq<string>, ps: seq<Prediction>): (r: seq<FastaRecord>)
    requires |keptNames| == |ps| <= |transcripts|
    ensures |r| == |keptNames|
  {
    Records(keptNames, ps, transcripts[..|keptNames|])
  }

  /** The kept reads themselves, in input order. */
  function KeptSequences(sequences: seq<string>): (r: seq<string>)
    ensures |r| == |AcceptedIndices(sequences)|
  {
    var idx := AcceptedIndices(sequences);
    seq(|idx|, j requires 0 <= j < |idx| => sequences[idx[j]])
  }

  /** The records as intended: each kept read's name, its prediction and the read itself. */
  function ChunkRecords(sequences: seq<string>, names: seq<string>, kmer: nat, predict: string -> Prediction): (r: seq<FastaRecord>)
    requires |sequences| <= |names|
    ensures |r| == |AcceptedIndices(sequences)|
  {
    Records(KeptNames(sequences, names), ChunkPredictions(sequences, kmer, predict), KeptSequences(sequences))
  }

  /** When the first read is rejected, the written record puts the second read's name on the first read's sequence. */
  lemma RecordsAsWrittenMispair(predict: string -> Prediction)
    ensures var sequences := ["A", seq(ReadLength, _ => 'A')];
            var names := ["short", "long"];
            var r := RecordsAsWritten(sequences, KeptNames(sequences, names), ChunkPredictions(sequences, 9, predict));
      && |r| == 1
      && r[0].name == names[1]
      && r[0].sequence == sequences[0] != sequences[1]
      && ChunkRecords(sequences, names, 9, predict)[0].sequence == sequences[1]
  {
    var sequences := ["A", seq(ReadLength, _ => 'A')];
    AcceptsIff(sequences[1]);
    assert !Accepts(sequences[0]);
    assert sequences[..1] == ["A"];
    assert AcceptedIndices(sequences) == [1];
  }

  /**
   * Each intended record describes one kept read: its name is the kept
   * name, its sequence is an accepted input read carrying that name, and
   * that sequence encodes to what was classified.
   */
  lemma ChunkRecordsFaithful(sequences: seq<string>, names: seq<string>, kmer: nat, predict: string -> Prediction)
    requires |sequences| <= |names|
    ensures var r := ChunkRecords(sequences, names, kmer, predict);
            var ps := ChunkPredictions(sequences, kmer, predict);
      forall j | 0 <= j < |r| ::
        && r[j].name == KeptNames(sequences, names)[j]
        && (exists i | 0 <= i < |sequences| :: Accepts(sequences[i]) && names[i] == r[j].name && r[j].sequence == sequences[i])
        && EncodeRead(r[j].sequence, kmer) == KeptReads(sequences, kmer)[j]
        && r[j].taxon == ps[j].taxon && r[j].prob == ps[j].prob
  {
    var idx := AcceptedIndices(sequences);
    AcceptedIndicesExact(sequences);
    forall j | 0 <= j < |idx| ensures Accepts(sequences[idx[j]]) {
      assert idx[j] in idx;
    }
  }

  /** The dictionary `total_results` and the counter `total_sequences` that `predict_chunk` threads through the run. */
  class Tally {
    var results: Results
    var totalSequences: nat
    /** The chunks `predict_chunk` was called with, in call order: their reads and their names. */
    ghost var received: seq<seq<string>>
    ghost var receivedNames: seq<seq<string>>

    ghost predicate Valid()
      reads this
    {
      Complete(results)
    }

    constructor ()
      ensures Valid() && results == EmptyResults && totalSequences == 0
      ensures received == [] && receivedNames == []
    {
      EmptyResultsProcessNothing();
      results := EmptyResults;
      totalSequences := 0;
      received, receivedNames := [], [];
    }

    /**
     * The loop of lines 204-207 over a chunk's kept reads: one record per
     * read, and its winning probability appended to its taxon's list.
     */
    method WriteRecords(keptNames: seq<string>, predictions: seq<Prediction>, keptSequences: seq<string>)
      returns (written: seq<FastaRecord>)
      requires Valid() && |keptNames| == |predictions| == |keptSequences|
      modifies this
      ensures Valid() && totalSequences == old(totalSequences)
      ensures received == old(received) && receivedNames == old(receivedNames)
      ensures results == AddAll(old(results), predictions)
      ensures written == Records(keptNames, predictions, keptSequences)
    {
      ghost var start, counted, chunks, chunkNames := results, totalSequences, received, receivedNames;
      written := [];
      var j := 0;
      while j < |keptNames|
        invariant 0 <= j <= |keptNames|
        invariant Valid() && totalSequences == counted
        invariant received == chunks && receivedNames == chunkNames
        invariant results == AddAll(start, predictions[..j])
        invariant written == Records(keptNames[..j], predictions[..j], keptSequences[..j])
      {
        written := written + [FastaRecord(keptNames[j], predictions[j].prob, predictions[j].taxon, keptSequences[j])];
        results := results[predictions[j].taxon := results[predictions[j].taxon] + [predictions[j].prob]];
        RecordsStep(keptNames, predictions, keptSequences, j);
        AddAllStep(start, predictions, j);
        j := j + 1;
      }
      assert keptNames[..j] == keptNames && predictions[..j] == predictions && keptSequences[..j] == keptSequences;
    }

    /**
     * `predict_chunk` (lines 177-209) without its file writes: counts the
     * chunk, classifies its kept reads and, only when the FASTA output is
     * on, appends each winning probability to its taxon's list and returns
     * the intended records of the chunk; `RecordsAsWritten` is what line
     * 206 writes.
     */
    method PredictChunk(sequences: seq<string>, names: seq<string>, kmer: nat,
                        predict: string -> Prediction, outputFasta: bool)
      returns (written: seq<FastaRecord>)
      requires Valid() && |sequences| == |names|
      modifies this
      ensures Valid()
      ensures totalSequences == old(totalSequences) + |sequences|
      ensures received == old(received) + [sequences] && receivedNames == old(receivedNames) + [names]
      ensures results == if outputFasta then AddAll(old(results), ChunkPredictions(sequences, kmer, predict)) else old(results)
      ensures written == if outputFasta then ChunkRecords(sequences, names, kmer, predict) else []
    {
      totalSequences := totalSequences + |sequences|;
      received, receivedNames := received + [sequences], receivedNames + [names];
      var transcripts, kmerSequences, keptNames := PrepareChunk(sequences, names, kmer);
      var predictions := seq(|kmerSequences|, j requires 0 <= j < |kmerSequences| => predict(kmerSequences[j]));
      assert predictions == ChunkPredictions(sequences, kmer, predict);
      written := [];
      if outputFasta {
        written := WriteRecords(keptNames, predictions, KeptSequences(transcripts));
      }
    }
  }
}
