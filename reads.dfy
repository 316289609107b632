/**
 * The read filter and the k-mer encoder of PACIFIC (`process_reads` and its
 * wrapper `main` in scripts/PACIFIC.py).
 *
 * A read is kept when it has at least 150 bases and every character of its
 * upper-case form is one of A, G, C, T. A kept read is cut to its first 150
 * bases and turned into the overlapping upper-case windows of length k,
 * joined by single spaces.
 */
module Reads {

  /** Number of bases of a read that the classifier sees. */
  const ReadLength: nat := 150

  /** The accepted alphabet, upper case. */
  const Bases: string := "AGCT"

  /** ASCII upper-casing of one character; every other character is kept. */
  function Upper(c: char): char
  {
    if 'a' <= c <= 'z' then (c as int - 32) as char else c
  }

  /** `s.upper()`, character by character. */
  function UpperStr(s: string): (u: string)
    ensures |u| == |s|
  {
    seq(|s|, i requires 0 <= i < |s| => Upper(s[i]))
  }

  /** The filter of line 143: every upper-cased character is a base, and the read is long enough. */
  predicate Accepts(read: string)
  {
    (forall c | c in UpperStr(read) :: c in Bases) && |read| >= ReadLength
  }

  /** `read[:150]` */
  function Truncate(read: string): (t: string)
    ensures |t| <= ReadLength && t <= read
    ensures |t| == if |read| <= ReadLength then |read| else ReadLength
  {
    if |read| <= ReadLength then read else read[..ReadLength]
  }

  /**
   * The generator of line 145: the upper-cased windows `read[x:x+k]` for
   * `x in range(len(read) - k + 1)`; that range is empty once k exceeds the read.
   */
  function Windows(read: string, k: nat): seq<string>
  {
    var n := if k <= |read| then |read| - k + 1 else 0;
    seq(n, x requires 0 <= x < n => UpperStr(read[x..x + k]))
  }

  /** `' '.join(tokens)` */
  function Join(tokens: seq<string>): string
  {
    if |tokens| == 0 then ""
    else if |tokens| == 1 then tokens[0]
    else tokens[0] + " " + Join(tokens[1..])
  }

  /** `s.split(' ')`: the fields between single spaces; the empty string has one empty field. */
  function Split(s: string): (fields: seq<string>)
    ensures |fields| >= 1
  {
    if |s| == 0 then [""]
    else
      var rest := Split(s[1..]);
      if s[0] == ' ' then [""] + rest
      else [[s[0]] + rest[0]] + rest[1..]
  }

  /** The encoding that line 145 appends for one kept read. */
  function EncodeRead(read: string, k: nat): string
  {
    Join(Windows(Truncate(read), k))
  }

  ghost predicate SpaceFree(tokens: seq<string>)
  {
    forall j | 0 <= j < |tokens| :: ' ' !in tokens[j]
  }

  lemma {:induction false} SplitSpaceFree(t: string)
    requires ' ' !in t
    ensures Split(t) == [t]
  {
    if |t| > 0 {
      assert ' ' !in t[1..] by { assert forall i | 0 <= i < |t| - 1 :: t[1..][i] == t[i + 1]; }
      SplitSpaceFree(t[1..]);
      assert [t[0]] + t[1..] == t;
    }
  }

  lemma {:induction false} SplitAfterField(t: string, s: string)
    requires ' ' !in t
    ensures Split(t + " " + s) == [t] + Split(s)
  {
    if |t| == 0 {
      assert t + " " + s == [' '] + s;
      assert (t + " " + s)[1..] == s;
    } else {
      assert ' ' !in t[1..] by { assert forall i | 0 <= i < |t| - 1 :: t[1..][i] == t[i + 1]; }
      SplitAfterField(t[1..], s);
      assert (t + " " + s)[1..] == t[1..] + " " + s;
      assert [t[0]] + t[1..] == t;
    }
  }

  /** Splitting on single spaces undoes the join of a nonempty list of space-free tokens. */
  lemma {:induction false} SplitJoin(tokens: seq<string>)
    requires |tokens| >= 1 && SpaceFree(tokens)
    ensures Split(Join(tokens)) == tokens
  {
    if |tokens| == 1 {
      SplitSpaceFree(tokens[0]);
    } else {
      SplitJoin(tokens[1..]);
      SplitAfterField(tokens[0], Join(tokens[1..]));
      assert [tokens[0]] + tokens[1..] == tokens;
    }
  }

  /** A join of tokens that start and end with a non-space neither starts nor ends with a space. */
  lemma {:induction false} JoinEnds(tokens: seq<string>)
    requires |tokens| >= 1 && forall j | 0 <= j < |tokens| :: |tokens[j]| >= 1
    ensures var e := Join(tokens);
      && |e| >= 1
      && e[0] == tokens[0][0]
      && e[|e| - 1] == tokens[|tokens| - 1][|tokens[|tokens| - 1]| - 1]
  {
    if |tokens| > 1 {
      JoinEnds(tokens[1..]);
    }
  }

  /** Line 143 in terms of the raw read: long enough, and only a, g, c, t in either case. */
  lemma AcceptsIff(read: string)
    ensures Accepts(read) <==>
      |read| >= ReadLength && forall i | 0 <= i < |read| :: read[i] in "AGCTagct"
  {
    var u := UpperStr(read);
    if forall i | 0 <= i < |read| :: read[i] in "AGCTagct" {
      forall c | c in u ensures c in Bases {
        var i :| 0 <= i < |u| && u[i] == c;
        assert read[i] in "AGCTagct";
      }
    }
    if forall c | c in u :: c in Bases {
      forall i | 0 <= i < |read| ensures read[i] in "AGCTagct" {
        assert u[i] in u;
      }
    }
  }

  /** A window of a kept read holds only bases. */
  lemma WindowBases(read: string, x: nat, k: nat, w: string)
    requires Accepts(read) && x + k <= |read| && w == UpperStr(read[x..x + k])
    ensures forall i | 0 <= i < |w| :: w[i] in Bases
  {
    forall i | 0 <= i < |w| ensures w[i] in Bases {
      assert w[i] == UpperStr(read)[x + i];
      assert UpperStr(read)[x + i] in UpperStr(read);
    }
  }

  /**
   * The encoding of a kept read, for 1 <= k <= 150, is exactly 151 - k
   * tokens separated by single spaces: token x is the upper-case form of
   * read[x..x+k], every token has length k and holds only bases, and the
   * encoding neither starts nor ends with a space.
   */
  lemma EncodeTokens(read: string, k: nat)
    requires Accepts(read) && 1 <= k <= ReadLength
    ensures var e := EncodeRead(read, k);
            var tokens := Split(e);
      && |tokens| == ReadLength - k + 1
      && e == Join(tokens)
      && (forall x | 0 <= x < |tokens| :: |tokens[x]| == k && tokens[x] == UpperStr(read[x..x + k]))
      && (forall x, i | 0 <= x < |tokens| && 0 <= i < k :: tokens[x][i] in Bases)
      && e[0] != ' ' && e[|e| - 1] != ' '
  {
    var w := Windows(Truncate(read), k);
    KeptWindows(read, k, w);
    SplitJoin(w);
    JoinEnds(w);
  }

  /** The windows of a kept read's first 150 bases: 151 - k of them, each k bases of the read, upper-cased. */
  lemma KeptWindows(read: string, k: nat, w: seq<string>)
    requires Accepts(read) && 1 <= k <= ReadLength && w == Windows(Truncate(read), k)
    ensures |w| == ReadLength - k + 1
    ensures forall x | 0 <= x < |w| :: |w[x]| == k && w[x] == UpperStr(read[x..x + k])
    ensures forall x | 0 <= x < |w| :: ' ' !in w[x] && forall i | 0 <= i < k :: w[x][i] in Bases
  {
    var t := Truncate(read);
    assert |t| == ReadLength;
    forall x | 0 <= x < |w| ensures w[x] == UpperStr(read[x..x + k]) {
      assert t[x..x + k] == read[x..x + k];
    }
    forall x | 0 <= x < |w| ensures ' ' !in w[x] && forall i | 0 <= i < k :: w[x][i] in Bases {
      WindowBases(read, x, k, w[x]);
    }
  }

  /** A read of 149 bases is rejected, whatever its bases. */
  lemma ShortReadRejected(read: string)
    requires |read| == ReadLength - 1
    ensures !Accepts(read)
  {
  }

  /** A read holding an N, in either case, is rejected, whatever its length. */
  lemma AmbiguousBaseRejected(read: string, i: nat)
    requires i < |read| && read[i] in "Nn"
    ensures !Accepts(read)
  {
    AcceptsIff(read);
  }

  /** 150 A's with k = 9 give 142 tokens, each AAAAAAAAA. */
  lemma PolyAExample()
    ensures Split(EncodeRead(seq(ReadLength, _ => 'A'), 9)) == seq(142, _ => "AAAAAAAAA")
  {
    var read := seq(ReadLength, _ => 'A');
    var nine := "AAAAAAAAA";
    assert UpperStr(nine) == nine;
    AcceptsIff(read);
    EncodeTokens(read, 9);
    var tokens := Split(EncodeRead(read, 9));
    forall x | 0 <= x < 142 ensures tokens[x] == nine {
      assert read[x..x + 9] == nine;
    }
  }

  /** Indices, ascending, of the reads that pass the filter. */
  function AcceptedIndices(sequences: seq<string>): (idx: seq<nat>)
    ensures |idx| <= |sequences|
    ensures forall j | 0 <= j < |idx| :: idx[j] < |sequences|
  {
    if |sequences| == 0 then []
    else
      var n := |sequences| - 1;
      AcceptedIndices(sequences[..n]) + (if Accepts(sequences[n]) then [n] else [])
  }

  /**
   * The accepted indices are exactly the indices of the reads that pass the
   * filter, in ascending order.
   */
  lemma {:induction false} AcceptedIndicesExact(sequences: seq<string>)
    ensures var idx := AcceptedIndices(sequences);
      && (forall j, j' | 0 <= j < j' < |idx| :: idx[j] < idx[j'])
      && (forall i | 0 <= i < |sequences| :: i in idx <==> Accepts(sequences[i]))
  {
    if |sequences| > 0 {
      var n := |sequences| - 1;
      var prefix := sequences[..n];
      AcceptedIndicesExact(prefix);
      forall i | 0 <= i < n ensures prefix[i] == sequences[i] { }
    }
  }

  /** `[i + d for i in idx]` */
  function Shift(idx: seq<nat>, d: nat): (r: seq<nat>)
    ensures |r| == |idx|
  {
    seq(|idx|, j requires 0 <= j < |idx| => idx[j] + d)
  }

  lemma ShiftAppend(x: seq<nat>, y: seq<nat>, d: nat)
    ensures Shift(x + y, d) == Shift(x, d) + Shift(y, d)
  {
  }

  /** Filtering a concatenation filters each part; the second part's indices move up. */
  lemma {:induction false} AcceptedIndicesAppend(a: seq<string>, b: seq<string>)
    ensures AcceptedIndices(a + b) == AcceptedIndices(a) + Shift(AcceptedIndices(b), |a|)
  {
    if |b| == 0 {
      assert a + b == a;
    } else {
      var n := |b| - 1;
      AcceptedIndicesAppend(a, b[..n]);
      assert (a + b)[..|a| + n] == a + b[..n];
      assert (a + b)[|a| + n] == b[n];
      var last: seq<nat> := if Accepts(b[n]) then [n] else [];
      ShiftAppend(AcceptedIndices(b[..n]), last, |a|);
    }
  }

  /** The encodings of the kept reads, in input order. */
  function KeptReads(sequences: seq<string>, k: nat): (r: seq<string>)
    ensures |r| == |AcceptedIndices(sequences)|
  {
    var idx := AcceptedIndices(sequences);
    seq(|idx|, j requires 0 <= j < |idx| => EncodeRead(sequences[idx[j]], k))
  }

  /** The names of the kept reads, in input order. */
  function KeptNames(sequences: seq<string>, names: seq<string>): (r: seq<string>)
    requires |sequences| <= |names|
    ensures |r| == |AcceptedIndices(sequences)|
  {
    var idx := AcceptedIndices(sequences);
    seq(|idx|, j requires 0 <= j < |idx| => names[idx[j]])
  }

  /** Entry j of a concatenation's encodings, read off the parts' encodings. */
  lemma KeptReadsAppendAt(a: seq<string>, b: seq<string>, k: nat, j: nat)
    requires AcceptedIndices(a + b) == AcceptedIndices(a) + Shift(AcceptedIndices(b), |a|)
    requires j < |AcceptedIndices(a + b)|
    ensures KeptReads(a + b, k)[j] == (KeptReads(a, k) + KeptReads(b, k))[j]
  {
    var idx, ia, ib := AcceptedIndices(a + b), AcceptedIndices(a), AcceptedIndices(b);
    var read := (a + b)[idx[j]];
    assert KeptReads(a + b, k)[j] == EncodeRead(read, k);
    if j < |ia| {
      assert idx[j] == ia[j] && read == a[ia[j]];
      assert KeptReads(a, k)[j] == EncodeRead(a[ia[j]], k);
    } else {
      var jb := j - |ia|;
      assert idx[j] == ib[jb] + |a| && read == b[ib[jb]];
      assert KeptReads(b, k)[jb] == EncodeRead(b[ib[jb]], k);
    }
  }

  lemma KeptReadsAppend(a: seq<string>, b: seq<string>, k: nat)
    ensures KeptReads(a + b, k) == KeptReads(a, k) + KeptReads(b, k)
  {
    AcceptedIndicesAppend(a, b);
    var whole, parts := KeptReads(a + b, k), KeptReads(a, k) + KeptReads(b, k);
    forall j | 0 <= j < |whole| ensures whole[j] == parts[j] {
      KeptReadsAppendAt(a, b, k, j);
    }
  }

  /** One more read extends the kept encodings and names by that read's, when it passes the filter. */
  lemma KeptStep(sequences: seq<string>, names: seq<string>, k: nat, i: nat)
    requires i < |sequences| <= |names|
    ensures KeptReads(sequences[..i + 1], k)
         == KeptReads(sequences[..i], k) + (if Accepts(sequences[i]) then [EncodeRead(sequences[i], k)] else [])
    ensures KeptNames(sequences[..i + 1], names)
         == KeptNames(sequences[..i], names) + (if Accepts(sequences[i]) then [names[i]] else [])
  {
    var prefix, next := sequences[..i], sequences[..i + 1];
    assert next[..i] == prefix;
    var idx := AcceptedIndices(prefix);
    assert forall j | 0 <= j < |idx| :: next[idx[j]] == prefix[idx[j]];
    if Accepts(sequences[i]) {
      assert AcceptedIndices(next) == idx + [i];
    } else {
      assert AcceptedIndices(next) == idx;
    }
  }

  /**
   * `process_reads` (lines 136-147): walks the reads in order and, for each
   * one that passes the filter, appends its encoding and its name.
   */
  method ProcessReads(sequences: seq<string>, kmer: nat, names: seq<string>)
    returns (rReads: seq<string>, newNames: seq<string>)
    requires |sequences| <= |names|
    ensures rReads == KeptReads(sequences, kmer)
    ensures newNames == KeptNames(sequences, names)
  {
    rReads, newNames := [], [];
    var i := 0;
    while i < |sequences|
      invariant 0 <= i <= |sequences|
      invariant rReads == KeptReads(sequences[..i], kmer)
      invariant newNames == KeptNames(sequences[..i], names)
    {
      KeptStep(sequences, names, kmer, i);
      if Accepts(sequences[i]) {
        var read := sequences[i][..ReadLength];
        assert Truncate(sequences[i]) == read;
        rReads := rReads + [Join(Windows(read, kmer))];
        newNames := newNames + [names[i]];
      }
      i := i + 1;
    }
    assert sequences[..i] == sequences;
  }

  /**
   * `main` (lines 150-157): returns the chunk's reads untouched together
   * with the encodings and names of the kept reads.
   */
  method PrepareChunk(allTranscripts: seq<string>, names: seq<string>, kmerSize: nat)
    returns (transcripts: seq<string>, encoded: seq<string>, namesP: seq<string>)
    requires |allTranscripts| <= |names|
    ensures transcripts == allTranscripts
    ensures encoded == KeptReads(allTranscripts, kmerSize)
    ensures namesP == KeptNames(allTranscripts, names)
  {
    encoded, namesP := ProcessReads(allTranscripts, kmerSize, names);
    transcripts := allTranscripts;
  }
}
