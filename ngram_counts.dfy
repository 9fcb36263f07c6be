/**
 * N-gram count tables. An n-gram is a contiguous run of `n` tokens; a count
 * table maps each n-gram seen so far to how often it was seen, in order of
 * first sighting (a Python dict). Both n-gram programs keep one table per
 * order and feed it sentence by sentence; they differ only in how a
 * sentence's windows reach the table (see ImprovedNgram and Hw03Ngram).
 */
module NgramCounts {
  import opened Assoc

  type Token = string
  type NGram = seq<Token>
  type CountDict = Dict<NGram, nat>

  /** `max(0, len - n + 1)`, the length of `range(len(tokens) - n + 1)`. */
  function WindowCount(len: nat, n: nat): nat
  {
    if len + 1 >= n then len + 1 - n else 0
  }

  /** `[tuple(tokens[i:i+n]) for i in range(len(tokens) - n + 1)]`. */
  function Windows(tokens: seq<Token>, n: nat): seq<NGram>
  {
    seq(WindowCount(|tokens|, n), i requires 0 <= i < WindowCount(|tokens|, n) => tokens[i..i + n])
  }

  /** The invariant of a count table: distinct keys, every count at least one. */
  predicate WellFormed(d: CountDict)
  {
    DistinctKeys(d) && Positive(d)
  }

  /** The windows of every sentence of a corpus, sentence after sentence. */
  function CorpusWindows(corpus: seq<seq<Token>>, n: nat): seq<NGram>
  {
    if corpus == [] then []
    else CorpusWindows(corpus[..|corpus| - 1], n) + Windows(corpus[|corpus| - 1], n)
  }

  /** Counting the windows of `tokens` into `d`: each n-gram's count grows by
      its number of occurrences in `tokens`, the total grows by the number of
      windows, and the keys added are exactly the windows not already present. */
  lemma CountWindows(d: CountDict, tokens: seq<Token>, n: nat)
    requires WellFormed(d)
    ensures WellFormed(AddEach(d, Windows(tokens, n)))
    ensures Total(AddEach(d, Windows(tokens, n))) == Total(d) + WindowCount(|tokens|, n)
    ensures forall g :: g in Keys(AddEach(d, Windows(tokens, n))) <==> g in Keys(d) || g in Windows(tokens, n)
  {
    AddEachShape(d, Windows(tokens, n));
  }

  /** A sentence shorter than `n` has no window. */
  lemma ShortSentence(tokens: seq<Token>, n: nat)
    requires |tokens| < n
    ensures Windows(tokens, n) == []
  {
  }

  /** The corpus table holds, for every n-gram, the sum of its per-sentence
      counts; a sentence shorter than `n` contributes nothing. */
  lemma CorpusCount(corpus: seq<seq<Token>>, s: seq<Token>, n: nat, g: NGram)
    ensures Count(Tally(CorpusWindows(corpus + [s], n)), g) ==
              Count(Tally(CorpusWindows(corpus, n)), g)
              + if |s| >= n then Count(Tally(Windows(s, n)), g) else 0
  {
    var c := corpus + [s];
    assert c[..|c| - 1] == corpus;
    var a, w := CorpusWindows(corpus, n), Windows(s, n);
    AddEachCount([], a + w, g);
    AddEachCount([], a, g);
    AddEachCount([], w, g);
    assert multiset(a + w) == multiset(a) + multiset(w);
    if |s| < n {
      ShortSentence(s, n);
    }
  }

  /** Feeding one more sentence adds its windows to the corpus table. */
  lemma CorpusStep(corpus: seq<seq<Token>>, s: seq<Token>, n: nat)
    ensures Tally(CorpusWindows(corpus + [s], n)) == AddEach(Tally(CorpusWindows(corpus, n)), Windows(s, n))
  {
    var c := corpus + [s];
    assert c[..|c| - 1] == corpus;
    AddEachAppend([], CorpusWindows(corpus, n), Windows(s, n));
  }

  /** The same step, for a prefix of a corpus. */
  lemma CorpusPrefixStep(corpus: seq<seq<Token>>, i: nat, n: nat)
    requires i < |corpus|
    ensures Tally(CorpusWindows(corpus[..i + 1], n)) == AddEach(Tally(CorpusWindows(corpus[..i], n)), Windows(corpus[i], n))
  {
    assert corpus[..i + 1] == corpus[..i] + [corpus[i]];
    CorpusStep(corpus[..i], corpus[i], n);
  }

  /** The number of n-grams a corpus table counts. */
  lemma CorpusTotal(corpus: seq<seq<Token>>, s: seq<Token>, n: nat)
    ensures Total(Tally(CorpusWindows(corpus + [s], n))) ==
              Total(Tally(CorpusWindows(corpus, n))) + WindowCount(|s|, n)
  {
    var c := corpus + [s];
    assert c[..|c| - 1] == corpus;
    AddEachShape([], CorpusWindows(c, n));
    AddEachShape([], CorpusWindows(corpus, n));
  }
}
