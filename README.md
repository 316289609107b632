# PACIFIC core, modelled in Dafny

PACIFIC classifies short sequencing reads into six classes: SARS-CoV-2,
Coronaviridae, Influenza, Metapneumovirus, Rhinovirus and Human. It uses a
neural network over 9-mer tokens. This project models the part of
`scripts/PACIFIC.py` around that network:

- **The read filter and k-mer encoder** (`process_reads`, `main`). A read is
  kept when it has at least 150 characters and every character of its
  upper-case form is one of A, G, C, T. A kept read is cut to 150 bases.
  It is encoded as the upper-cased windows of length k, joined by single
  spaces.
- **`accuracy`.** The three outcomes are kept apart: shape mismatch,
  division by zero on empty input, and a ratio.
- **`predict_chunk`** without its file writes. It counts the chunk and
  classifies its kept reads. Only when the FASTA output flag is on does it
  append each winning probability to the list of the predicted class.
- **The chunk loop of the main block.** Every `CHUNK_SIZE`-th record flushes
  the buffer. One last call takes the rest, possibly nothing.
- **The summary.** It covers:
  - the processed count;
  - the check that stops a run with nothing processed;
  - per class: the read count and its percentage, the count above the
    prediction threshold and that count's percentage.

The tokenizer, `model.predict` and the label maker are one function
parameter, `predict : string -> Prediction`. It gives a taxon and its
winning probability for one encoded read, and it is applied row by row.
Probabilities and percentages are `real`. The FASTA records of a chunk are
returned as values and are not written to files. Command-line options
become parameters:

- `CHUNK_SIZE` is `chunkSize` and must be positive;
- `THRESHOLD_PREDICTION` is `threshold`;
- `OUTPUT_FASTA` is `outputFasta`;
- `K_MERS` is the constant `KMers = 9`.

Modules:

- `Reads` (reads.dfy)
- `Metrics` (metrics.dfy)
- `Aggregate` (aggregate.dfy): the classes, the accumulator `total_results`,
  and the class `Tally`, which holds `total_results` and `total_sequences`
  and is updated in place.
- `Summary` (summary.dfy)
- `Pipeline` (pipeline.dfy)

Line 207 appends to the accumulator only inside `if OUTPUT_FASTA is True`.
The model keeps this as written. `Pipeline.RunPacific` proves what follows
from it: a run without the FASTA flag classifies nothing into the
accumulator. With the corrected guard of line 305, such a run always ends
in "None processed reads".

When some reads were processed but none is above the threshold, the
percentage column at line 356 divides by zero. `Summary.Summarize` reports
this case as the outcome `NothingAboveThreshold`.

## Model

| member | source | states |
|---|---|---|
| Reads.AcceptsIff | scripts/PACIFIC.py:143 | A read passes the filter exactly when it has at least 150 characters and each character is one of `AGCTagct`. |
| Reads.ShortReadRejected | scripts/PACIFIC.py:143 | A read of 149 characters is rejected, whatever it holds. |
| Reads.AmbiguousBaseRejected | scripts/PACIFIC.py:143 | A read holding `N` or `n` anywhere is rejected, whatever its length. |
| Reads.Truncate | scripts/PACIFIC.py:144 | `read[:150]` is the prefix of the read of length min(len(read), 150). |
| Reads.SplitJoin | scripts/PACIFIC.py:145 | Splitting on single spaces recovers every nonempty list of space-free tokens from their `' '.join`. |
| Reads.KeptWindows | scripts/PACIFIC.py:144-145 | A kept read has 151 - k windows for 1 <= k <= 150. Window x is read[x..x+k] upper-cased, has length k, holds only bases and no space. |
| Reads.EncodeTokens | scripts/PACIFIC.py:144-145 | A kept read's encoding splits into exactly 151 - k tokens and is their join. Token x is read[x..x+k] upper-cased, has length k and holds only bases. The encoding neither starts nor ends with a space. |
| Reads.PolyAExample | scripts/PACIFIC.py:143-145 | 150 `A`s with k = 9 encode to 142 tokens, each `AAAAAAAAA`. |
| Reads.AcceptedIndices | scripts/PACIFIC.py:141-143 | The kept positions are valid indices, and there are no more of them than reads. |
| Reads.AcceptedIndicesExact | scripts/PACIFIC.py:141-146 | The kept positions ascend strictly. Position i is among them exactly when read i passes the filter. |
| Reads.AcceptedIndicesAppend | scripts/PACIFIC.py:141-146 | Filtering a concatenation filters each part. The second part's positions move up by the first part's length. |
| Reads.KeptStep | scripts/PACIFIC.py:141-146 | One more read extends the kept encodings and names by its own exactly when it passes the filter, and leaves them unchanged otherwise. |
| Reads.KeptReadsAppend | scripts/PACIFIC.py:136-147 | The encodings of a concatenation are the encodings of the first part followed by those of the second. |
| Reads.ProcessReads | scripts/PACIFIC.py:136-147 | Returns, in input order, the encoding and the name of every read that passes the filter, and nothing else. |
| Reads.PrepareChunk | scripts/PACIFIC.py:150-157 | Returns the chunk's reads untouched, with the kept encodings and kept names of `process_reads`. |
| Metrics.MatchCountIsCardinality | scripts/PACIFIC.py:166-169 | The count of `correct` is the number of positions where label and prediction agree. |
| Metrics.MatchCountExtremes | scripts/PACIFIC.py:166-169 | The count reaches n exactly when every position agrees, and is 0 exactly when none does. |
| Metrics.Accuracy | scripts/PACIFIC.py:159-175 | Shape mismatch exactly when the lengths differ. Division by zero exactly when both are empty. Otherwise the ratio is correct/len, lies in [0, 1], and is 1 exactly when the sequences are equal. |
| Aggregate.EmptyResultsProcessNothing | scripts/PACIFIC.py:242-248 | The initial accumulator has all six classes, and every list is empty. |
| Aggregate.AddAllPerClass | scripts/PACIFIC.py:207 | Appending a chunk's predictions grows each class's list by exactly the probabilities predicted for that class, in order. A class that no prediction names keeps its list. |
| Aggregate.AddAllAppend | scripts/PACIFIC.py:207 | Appending two batches one after the other is the same as appending their concatenation. |
| Aggregate.ProbsOfPartition | scripts/PACIFIC.py:204-207 | Every prediction lands in exactly one class's list. |
| Aggregate.ProcessedReadsAddAll | scripts/PACIFIC.py:298-303 | Appending n predictions raises `processed_reads` by exactly n. |
| Aggregate.ChunkPredictionsAppend | scripts/PACIFIC.py:189-197 | The predictions of two chunks together are the first chunk's followed by the second's. |
| Aggregate.RecordsAsWrittenMispair | scripts/PACIFIC.py:189-206 | As written, a chunk whose first read is rejected writes the second read's name over the first read's sequence. The intended record carries the kept read. |
| Aggregate.ChunkRecordsFaithful | scripts/PACIFIC.py:204-206 | Each intended record carries a kept name and an accepted input read of that name. That read encodes to what was classified, and the record's taxon and probability are its prediction. |
| Aggregate.Tally.WriteRecords | scripts/PACIFIC.py:204-207 | The loop over the kept reads writes one record per read, in order. It appends every winning probability to its taxon's list and leaves `total_sequences` alone. |
| Aggregate.Tally.PredictChunk | scripts/PACIFIC.py:177-209 | `total_sequences` grows by the chunk size, and the tally's history records this call's reads and names. With the FASTA flag on, the accumulator gains the chunk's predictions and the intended records are returned. With it off, the accumulator is unchanged and nothing is written. |
| Summary.CountAboveExtremes | scripts/PACIFIC.py:343-344 | No entry is counted exactly when none is above the threshold. All are counted exactly when all are. |
| Summary.CountAboveIsCardinality | scripts/PACIFIC.py:343-344 | The count is the number of entries strictly above the threshold. |
| Summary.AboveSumOfCounts | scripts/PACIFIC.py:340-345 | The running `total_threshold_reads` equals the sum of the six per-class counts and is at most `processed_reads`. |
| Summary.AboveSumZero | scripts/PACIFIC.py:340-345 | The total above the threshold is 0 exactly when every class's count above it is 0. |
| Summary.Share | scripts/PACIFIC.py:331 | A share is non-negative, and at most 100 when the count does not exceed the total. |
| Summary.ShareIsPercentage | scripts/PACIFIC.py:331 | A share times the total is the count times 100. |
| Summary.SharesSum | scripts/PACIFIC.py:328-331 | The shares of six counts of their own total add up to 100. |
| Summary.PercentagesSum | scripts/PACIFIC.py:328-331 | The six class percentages of the processed reads add up to 100. |
| Summary.Percentages | scripts/PACIFIC.py:328-331 | Every class gets its share of `processed_reads`, and the shares add up to 100. |
| Summary.ThresholdCounts | scripts/PACIFIC.py:340-345 | Each class gets the number of its probabilities strictly above the threshold, at most its list length. The total is their sum and at most `processed_reads`. |
| Summary.ThresholdPercentages | scripts/PACIFIC.py:355-362 | With at least one read above the threshold, each class gets `threshold_reads[c] / total_threshold_reads * 100`. Every share lies in [0, 100], and the six add up to 100. |
| Summary.Counts | scripts/PACIFIC.py:320-326 | Each class's count is its list length, and the counts add up to `processed_reads`. |
| Summary.GuardAsWrittenBlocksReport | scripts/PACIFIC.py:305 | With five processed reads, the check as written raises a TypeError, while the intended check lets the report proceed. |
| Summary.Summarize | scripts/PACIFIC.py:298-362 | Stops exactly when nothing was processed, and fails at line 356 exactly when no read is above the threshold. Otherwise it reports the total, the discarded count, per-class counts summing to `processed_reads`, percentages summing to 100, threshold counts with a positive total, and each class's threshold percentage as its share of that total, summing to 100. |
| Pipeline.FlushTest | scripts/PACIFIC.py:260 | After the counter moves to q * s + r with 0 < r <= s buffered records, `counter % CHUNK_SIZE == 0` holds exactly when the buffer is full. |
| Pipeline.ResultsAfterFlush | scripts/PACIFIC.py:262-278 | Classifying records [start, end) after the records before start gives the accumulator for the records before end. |
| Pipeline.Flush | scripts/PACIFIC.py:262-267 | One `predict_chunk` call on the buffered records [start, end) brings `total_sequences` to end and the accumulator to the records before end. |
| Pipeline.Step | scripts/PACIFIC.py:255-270 | One pass of the loop body keeps the buffering invariant. The buffers hold the records since the last flush, always fewer than a chunk, and the calls so far, as the tally's history records them, received full chunks that together are the earlier records. |
| Pipeline.Run | scripts/PACIFIC.py:250-278 | The tally's history of `predict_chunk` calls matches `calls`, call by call. The calls, concatenated, are the input. There are n / CHUNK_SIZE + 1 of them; all but the last hold CHUNK_SIZE records, and the last holds n % CHUNK_SIZE. `total_sequences` ends at n, and the accumulator holds the predictions of every kept read. |
| Pipeline.ResultsOfRun | scripts/PACIFIC.py:250-303 | After the whole input, each class's list holds, in input order, the probabilities of the kept reads predicted as that class, and `processed_reads` is the number of kept reads. Without the FASTA flag every list is empty. |
| Pipeline.RunPacific | scripts/PACIFIC.py:250-362 | Without the FASTA flag the run always stops with "None processed reads". With it, the run stops that way exactly when no read passes the filter. A table reports the input size, the number of rejected reads as discarded, and per class the number of kept reads predicted as that class and how many of them are above the threshold. Both percentage columns sum to 100. The run fails at line 356 exactly when the flag is on, some read passes, and no class has a probability above the threshold. |

## Findings

| source | as written | input that shows it | evidently intended | confidence | as-written member | corrected member |
|---|---|---|---|---|---|---|
| scripts/PACIFIC.py:189-206 | The record for the j-th kept name prints `reads[j]`. `main` returns as `reads` the chunk's unfiltered input, so after a rejected read, names and sequences are out of step. | A chunk `["A", 150 × "A"]` named `["short", "long"]`: the only record carries the name `long` and the sequence `A`. | Each record carries the kept read that its name and prediction belong to, as it appears in the input: its full sequence, not the 150-base prefix that was encoded. Line 206 prints untruncated input reads, so only the pairing is corrected. | not executed | Aggregate.RecordsAsWritten, Aggregate.RecordsAsWrittenMispair | Aggregate.ChunkRecords, Aggregate.ChunkRecordsFaithful |
| scripts/PACIFIC.py:305 | `len(processed_reads)` is applied to an integer and raises a TypeError, so the check never runs and no report is printed. | Any run that reaches line 305, for example with five processed reads. | Stop with "None processed reads" exactly when `processed_reads == 0`. | not executed | Summary.GuardAsWritten, Summary.GuardAsWrittenBlocksReport | Summary.Summarize |

## Left out

- Argument parsing (lines 17-116), the imports, TensorFlow and NumPy set-up, seeding, and loading the model, tokenizer and label maker: they are configuration and foreign code. The options they set are parameters here.
- The tokenizer, `model.predict` and the label maker: foreign numerical code, replaced by the parameter `predict`. The model assumes each read's prediction depends only on that read, and that the label is always one of the six classes.
- Aggregate.ChunkPredictions: the calls at lines 194-197 are assumed to accept an empty batch and return no predictions. A chunk with no kept read reaches them with zero rows: the last call whenever the input size is a multiple of `CHUNK_SIZE` (including an empty input), and any chunk whose reads all fail the filter. Keras's `Model.predict` may raise on zero samples instead. `Pipeline.Run`'s possibly empty last call and `Pipeline.RunPacific`'s stop exactly when no read passes rest on this assumption.
- Floating point: probabilities and percentages are real numbers, with no rounding.
- File I/O:
  - parsing the FASTA/FASTQ input (it is given as a sequence of records);
  - writing the temporary files of `predict_chunk` (lines 199-206);
  - merging them into one output file in the order of `os.listdir`, which is unspecified (lines 280-290);
  - deleting temporary files (lines 291-295);
  - the printed messages (lines 200-202, 238-240, 270-271, 306, 310-312, 365-369);
  - writing the CSV (line 367).
- Reads.Upper: models ASCII upper-casing only. Python's `str.upper` also maps non-ASCII letters, but none of them maps to A, G, C or T, so the filter decides the same.
- Reads.ProcessReads: requires at least as many names as reads. The source fails with an IndexError only when a kept read has no name, and every call site (lines 257-258) builds the two lists in step. A shorter `names` list whose missing entries belong only to rejected reads is not modelled.
- Reads.Windows: k is a natural number. A negative `K_MERS` is not modelled; the source uses 9.
- Metrics.Accuracy: the `except: return 0` path (inputs without a `shape` attribute) is not modelled. Labels and predictions are one-dimensional sequences whose shape is their length.
- Aggregate.Tally.PredictChunk: returns the corrected records `ChunkRecords`, which pair each kept name with its own read. Line 206 writes `RecordsAsWritten` instead, the mispairing recorded under "## Findings".
- Pipeline.Run: `CHUNK_SIZE` must be positive. The source fails with a ZeroDivisionError on the first record when it is 0, and a negative chunk size is not modelled.
- Pipeline.Run: the global `counter` that `predict_chunk` uses only to name its temporary file is not read.
- Summary.Summarize: the text of the messages and of the table headers is not modelled, only the numbers that go into them.
