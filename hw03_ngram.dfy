/**
 * The first n-gram program (hw03_mam230009.py). Each sentence's windows are
 * added straight into the table of their order; a sentence is generated by
 * the shared sampling walk and joined with single spaces, with no clean-up.
 */
module Hw03Ngram {
  import opened Wrappers
  import opened Assoc
  import opened Text
  import opened NgramCounts
  import opened NgramModel

  /** One of the four dicts of `main` (hw03:107), which `update_ngram_dict`
      changes in place. */
  class CountTable {
    var counts: CountDict

    ghost predicate Valid()
      reads this
    {
      WellFormed(counts)
    }

    constructor ()
      ensures Valid() && counts == []
    {
      counts := [];
    }

    /** hw03:34-40, `update_ngram_dict(ngram_dict, tokens, n)`: adds one for
        every window of `tokens`, straight into the table; every other key
        keeps its count, and a list shorter than `n` changes nothing. */
    method Update(tokens: seq<Token>, n: nat)
      requires Valid()
      modifies this
      ensures Valid()
      ensures counts == AddEach(old(counts), Windows(tokens, n))
      ensures Total(counts) == old(Total(counts)) + WindowCount(|tokens|, n)
    {
      ghost var ws := Windows(tokens, n);
      var i := 0;
      while i < |tokens| - n + 1
        invariant 0 <= i <= |ws|
        invariant counts == AddEach(old(counts), ws[..i])
      {
        var ngram := tokens[i..i + n];
        ghost var before := counts;
        assert ws[i] == ngram;
        AddIsPut(before, ngram, 1);
        if ngram in Keys(counts) {
          counts := Put<NGram, nat>(counts, ngram, Count(counts, ngram) + 1);
        } else {
          counts := Put<NGram, nat>(counts, ngram, 1);
        }
        assert counts == Add(before, ws[i], 1);
        AddEachSnoc(old(counts), ws, i);
        i := i + 1;
      }
      assert ws[..i] == ws;
      CountWindows(old(counts), tokens, n);
    }
  }

  /** Four different tables. */
  predicate Apart(a: CountTable, b: CountTable, c: CountTable, d: CountTable)
  {
    a != b && a != c && a != d && b != c && b != d && c != d
  }

  /** hw03:107-120: the four tables after reading the sentences (each a
      token list) in turn; each holds exactly the counts of all windows of
      its order, in order of first appearance. */
  method CountCorpus(corpus: seq<seq<Token>>) returns (bigram: CountTable, trigram: CountTable, fourgram: CountTable, fivegram: CountTable)
    ensures fresh(bigram) && fresh(trigram) && fresh(fourgram) && fresh(fivegram)
    ensures bigram.Valid() && bigram.counts == Tally(CorpusWindows(corpus, 2))
    ensures trigram.Valid() && trigram.counts == Tally(CorpusWindows(corpus, 3))
    ensures fourgram.Valid() && fourgram.counts == Tally(CorpusWindows(corpus, 4))
    ensures fivegram.Valid() && fivegram.counts == Tally(CorpusWindows(corpus, 5))
  {
    bigram := new CountTable();
    trigram := new CountTable();
    fourgram := new CountTable();
    fivegram := new CountTable();
    for s := 0 to |corpus|
      invariant Apart(bigram, trigram, fourgram, fivegram)
      invariant bigram.Valid() && bigram.counts == Tally(CorpusWindows(corpus[..s], 2))
      invariant trigram.Valid() && trigram.counts == Tally(CorpusWindows(corpus[..s], 3))
      invariant fourgram.Valid() && fourgram.counts == Tally(CorpusWindows(corpus[..s], 4))
      invariant fivegram.Valid() && fivegram.counts == Tally(CorpusWindows(corpus[..s], 5))
    {
      var tokens := corpus[s];
      CorpusPrefixStep(corpus, s, 2);
      CorpusPrefixStep(corpus, s, 3);
      CorpusPrefixStep(corpus, s, 4);
      CorpusPrefixStep(corpus, s, 5);
      bigram.Update(tokens, 2);
      trigram.Update(tokens, 3);
      fourgram.Update(tokens, 4);
      fivegram.Update(tokens, 5);
    }
    assert corpus[..|corpus|] == corpus;
  }

  /** hw03:54-92. `choose` and `draw` stand for `random.choice` and
      `random.randint(1, total)`; `sampled` is the token list the loop built,
      before the closing ".". The sentence is those tokens, ended by "."
      unless the last one already ends a sentence, joined by single spaces. */
  method GenerateSentence(counts: CountDict, n: nat, seed: Option<NGram>, maxLength: int,
                          choose: nat -> nat, draw: (nat, nat) -> nat)
    returns (res: Result<string, GenError>, ghost sampled: seq<Token>)
    requires n >= 2 && WellFormed(counts) && KeysOfLength(counts, n)
    requires ValidChoice(choose) && ValidDraws(draw)
    ensures counts == [] ==> res == Success("")
    ensures counts != [] && seed.Some? && |seed.value| != n - 1 ==> res == Failure(SeedLengthMismatch(n - 1, n))
    ensures counts != [] && (seed.None? || |seed.value| == n - 1) ==>
              && res.Success? && |sampled| >= n - 1
              && SampledFrom(counts, n, seed, maxLength, choose, draw, sampled)
              && res.value == Join(ForceTerminal(sampled))
              && EndsWith(res.value, ClosingToken(sampled))
  {
    var sampling := SampleSentence(counts, n, seed, maxLength, choose, draw);
    if sampling.Failure? {
      return Failure(sampling.error), [];
    }
    if sampling.value.None? {
      return Success(""), [];
    }
    var sentenceTokens := sampling.value.value;
    sampled := sentenceTokens;
    if !IsSentenceEnd(sentenceTokens[|sentenceTokens| - 1]) {
      sentenceTokens := sentenceTokens + ["."];
    }
    JoinEnds(sentenceTokens);
    res := Success(Join(sentenceTokens));
  }
}
