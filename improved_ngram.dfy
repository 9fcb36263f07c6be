/**
 * The improved n-gram program (a.py). Each sentence is counted into a
 * fresh dict per order, which is then added into that order's table; a
 * sentence is generated by the shared sampling walk, cleaned of raw quote
 * tokens and formatted.
 */
module ImprovedNgram {
  import opened Wrappers
  import opened Assoc
  import opened Text
  import opened NgramCounts
  import opened NgramModel
  import opened SentenceFormat

  /** The orders kept by `process_text_file`, in the key order of `ngram_dicts`. */
  const Orders: seq<nat> := [2, 3, 4, 5]

  /** a.py:66-81: the n-gram counts of one token list. */
  method BuildNgramDict(tokens: seq<Token>, n: nat) returns (d: CountDict)
    ensures d == Tally(Windows(tokens, n))
    ensures WellFormed(d) && Total(d) == WindowCount(|tokens|, n)
    ensures forall g :: g in Keys(d) <==> g in Windows(tokens, n)
    ensures forall g :: Count(d, g) == multiset(Windows(tokens, n))[g]
  {
    ghost var ws := Windows(tokens, n);
    d := [];
    var i := 0;
    while i < |tokens| - n + 1
      invariant 0 <= i <= |ws|
      invariant d == AddEach([], ws[..i])
    {
      var ngram := tokens[i..i + n];
      assert ngram == ws[i];
      AddEachSnoc([], ws, i);
      AddIsPut(d, ngram, 1);
      d := Put<NGram, nat>(d, ngram, Count(d, ngram) + 1);
      i := i + 1;
    }
    assert ws[..i] == ws;
    CountWindows([], tokens, n);
    forall g ensures Count(d, g) == multiset(ws)[g] {
      AddEachCount([], ws, g);
    }
  }

  /** a.py:250-253 for one order `n`: a sentence of at least `n` tokens has
      its n-gram dict added into table `n`; a shorter one changes nothing
      (its window list is empty); no other table changes. */
  method UpdateOrder(dicts: map<nat, CountDict>, n: nat, tokens: seq<Token>) returns (updated: map<nat, CountDict>)
    requires n in dicts
    ensures updated == dicts[n := AddEach(dicts[n], Windows(tokens, n))]
  {
    updated := dicts;
    if |tokens| >= n {
      var sentenceNgrams := BuildNgramDict(tokens, n);
      for j := 0 to |sentenceNgrams|
        invariant updated == dicts[n := Merge(dicts[n], sentenceNgrams[..j])]
      {
        var (ngram, count) := sentenceNgrams[j];
        MergeSnoc(dicts[n], sentenceNgrams, j);
        AddIsPut(updated[n], ngram, count);
        updated := updated[n := Put<NGram, nat>(updated[n], ngram, Count(updated[n], ngram) + count)];
      }
      assert sentenceNgrams[..|sentenceNgrams|] == sentenceNgrams;
      MergeTally(dicts[n], Windows(tokens, n));
    } else {
      ShortSentence(tokens, n);
      assert dicts[n := dicts[n]] == dicts;
    }
  }

  /** The tables after the sentence has been added at the first `o` orders. */
  function FedOrders(dicts: map<nat, CountDict>, tokens: seq<Token>, o: nat): (r: map<nat, CountDict>)
    requires o <= |Orders| && dicts.Keys == {2, 3, 4, 5}
    ensures r.Keys == dicts.Keys
  {
    if o == 0 then dicts
    else
      var prev := FedOrders(dicts, tokens, o - 1);
      var n := Orders[o - 1];
      prev[n := AddEach(prev[n], Windows(tokens, n))]
  }

  /** After the first `o` orders, exactly the tables of those orders have the
      sentence's windows added. */
  lemma {:induction false} FedOrdersSpec(dicts: map<nat, CountDict>, tokens: seq<Token>, o: nat)
    requires o <= |Orders| && dicts.Keys == {2, 3, 4, 5}
    ensures forall n :: n in dicts ==>
              FedOrders(dicts, tokens, o)[n] == if n < o + 2 then AddEach(dicts[n], Windows(tokens, n)) else dicts[n]
  {
    if o > 0 {
      FedOrdersSpec(dicts, tokens, o - 1);
      assert Orders[o - 1] == o + 1;
    }
  }

  /** a.py:249-253: one sentence updates the table of every order. */
  method AddSentence(dicts: map<nat, CountDict>, tokens: seq<Token>) returns (updated: map<nat, CountDict>)
    requires dicts.Keys == {2, 3, 4, 5}
    ensures updated == FedOrders(dicts, tokens, |Orders|)
  {
    updated := dicts;
    for o := 0 to |Orders|
      invariant updated == FedOrders(dicts, tokens, o)
    {
      updated := UpdateOrder(updated, Orders[o], tokens);
    }
  }

  /** Adding sentence `s` at every order turns the tables of the first `s`
      sentences into those of the first `s + 1`. */
  lemma CorpusFed(dicts: map<nat, CountDict>, corpus: seq<seq<Token>>, s: nat)
    requires s < |corpus| && dicts.Keys == {2, 3, 4, 5}
    requires forall n :: n in dicts ==> dicts[n] == Tally(CorpusWindows(corpus[..s], n))
    ensures forall n :: n in dicts ==> FedOrders(dicts, corpus[s], |Orders|)[n] == Tally(CorpusWindows(corpus[..s + 1], n))
  {
    var fed := FedOrders(dicts, corpus[s], |Orders|);
    FedOrdersSpec(dicts, corpus[s], |Orders|);
    forall n | n in dicts ensures fed[n] == Tally(CorpusWindows(corpus[..s + 1], n)) {
      assert n < |Orders| + 2;
      assert fed[n] == AddEach(dicts[n], Windows(corpus[s], n));
      CorpusPrefixStep(corpus, s, n);
    }
  }

  /** a.py:241-253: the table of every order after reading the sentences
      (each a token list) in turn. Each holds exactly the counts of all
      windows of all sentences, in order of first appearance. */
  method CountCorpus(corpus: seq<seq<Token>>) returns (dicts: map<nat, CountDict>)
    ensures dicts.Keys == {2, 3, 4, 5}
    ensures forall n :: n in dicts ==> dicts[n] == Tally(CorpusWindows(corpus, n))
  {
    dicts := map[2 := [], 3 := [], 4 := [], 5 := []];
    for s := 0 to |corpus|
      invariant dicts.Keys == {2, 3, 4, 5}
      invariant forall n :: n in dicts ==> dicts[n] == Tally(CorpusWindows(corpus[..s], n))
    {
      ghost var before := dicts;
      dicts := AddSentence(dicts, corpus[s]);
      CorpusFed(before, corpus, s);
    }
    assert corpus[..|corpus|] == corpus;
  }

  // ---------------------------------------------------------------------
  // Quote tokens (a.py:105-129).

  /** The tokens the tokenizer writes for opening and closing double quotes. */
  predicate IsRawQuote(t: Token)
  {
    t == "``" || t == "''"
  }

  /** a.py:115: `[t for t in tokens if t != '``' and t != "''"]`. */
  function DropRawQuotes(tokens: seq<Token>): seq<Token>
  {
    if tokens == [] then []
    else (if IsRawQuote(tokens[0]) then [] else [tokens[0]]) + DropRawQuotes(tokens[1..])
  }

  /** What the loop at a.py:119-127 appends for one token. */
  function QuoteMark(t: Token): Token
  {
    if t == "\"" || t == "``" || t == "''" then "\"" else t
  }

  /** a.py:116-127: the loop over the filtered tokens. On any input it maps
      each token to its quote mark; `in_quote` never affects what is appended. */
  method NormaliseQuotes(cleaned: seq<Token>) returns (result: seq<Token>)
    ensures |result| == |cleaned|
    ensures forall i :: 0 <= i < |cleaned| ==> result[i] == QuoteMark(cleaned[i])
  {
    result := [];
    var inQuote := false;
    for i := 0 to |cleaned|
      invariant |result| == i
      invariant forall k :: 0 <= k < i ==> result[k] == QuoteMark(cleaned[k])
    {
      var token := cleaned[i];
      if token == "\"" || token == "``" {
        inQuote := true;
        result := result + ["\""];
      } else if token == "\"" || token == "''" {
        inQuote := false;
        result := result + ["\""];
      } else {
        result := result + [token];
      }
    }
  }

  /** No raw quote survives the filter. */
  lemma {:induction false} DropRawQuotesClean(tokens: seq<Token>)
    ensures forall i :: 0 <= i < |DropRawQuotes(tokens)| ==> !IsRawQuote(DropRawQuotes(tokens)[i])
  {
    if tokens != [] {
      DropRawQuotesClean(tokens[1..]);
    }
  }

  /** Every other token keeps its number of occurrences. */
  lemma {:induction false} DropRawQuotesCount(tokens: seq<Token>, t: Token)
    ensures multiset(DropRawQuotes(tokens))[t] == if IsRawQuote(t) then 0 else multiset(tokens)[t]
  {
    if tokens != [] {
      DropRawQuotesCount(tokens[1..], t);
      assert tokens == [tokens[0]] + tokens[1..];
    }
  }

  /** A list without raw quotes is left as it is. */
  lemma {:induction false} DropRawQuotesNone(tokens: seq<Token>)
    requires forall i :: 0 <= i < |tokens| ==> !IsRawQuote(tokens[i])
    ensures DropRawQuotes(tokens) == tokens
  {
    if tokens != [] {
      DropRawQuotesNone(tokens[1..]);
    }
  }

  lemma {:induction false} DropRawQuotesAppend(a: seq<Token>, b: seq<Token>)
    ensures DropRawQuotes(a + b) == DropRawQuotes(a) + DropRawQuotes(b)
  {
    if a == [] {
      assert a + b == b;
    } else {
      assert (a + b)[1..] == a[1..] + b;
      DropRawQuotesAppend(a[1..], b);
    }
  }

  /** a.py:105-129: the cleaned sequence is the input without its raw quote
      tokens. The filter leaves no `` `` `` or `''` for the loop, so the
      loop only turns `"` into `"` and keeps every other token. */
  method CleanTokenSequence(tokens: seq<Token>) returns (result: seq<Token>)
    ensures result == DropRawQuotes(tokens)
  {
    var cleaned := DropRawQuotes(tokens);
    result := NormaliseQuotes(cleaned);
    DropRawQuotesClean(tokens);
  }

  // ---------------------------------------------------------------------
  // Generation (a.py:132-213).

  /** a.py:185-211: the sampled tokens, ended by "." unless the last one
      already ends a sentence, cleaned of raw quotes, joined by single spaces
      and polished; the result has no whitespace before closing punctuation,
      no two whitespace characters in a row, and does not start with a
      lower-case letter. */
  method FormatSentence(sampled: seq<Token>) returns (generated: string)
    requires sampled != []
    ensures generated == Polish(Join(DropRawQuotes(ForceTerminal(sampled))))
    ensures NoWsBefore(generated, ClosingPunct) && NoDoubleWs(generated)
    ensures generated != [] ==> !IsLower(generated[0])
    ensures EndsWith(generated, PolishedEnd(ClosingToken(sampled)))
  {
    var sentenceTokens := sampled;
    if !IsSentenceEnd(sentenceTokens[|sentenceTokens| - 1]) {
      sentenceTokens := sentenceTokens + ["."];
    }
    var cleanTokens := CleanTokenSequence(sentenceTokens);
    generated := Join(cleanTokens);
    ghost var joined := generated;
    generated := DropWsBefore(generated, ClosingPunct);
    generated := DropWsAfterQuote(generated, false);
    generated := DropWsBefore(generated, Quote);
    generated := ReplaceQuotePairs(generated);
    generated := CollapseWs(generated);
    generated := Capitalize(generated);
    PolishShape(joined);
    FormattedEnding(sampled);
  }

  /** a.py:185-211: a generated sentence ends with the closing token's mark,
      then its closing quote if it has one, then its final newline unless
      that followed a `"`. */
  lemma FormattedEnding(sampled: seq<Token>)
    requires sampled != []
    ensures EndsWith(Polish(Join(DropRawQuotes(ForceTerminal(sampled)))), PolishedEnd(ClosingToken(sampled)))
  {
    var r := ForceTerminal(sampled);
    var t := ClosingToken(sampled);
    var init := r[..|r| - 1];
    assert r == init + [t];
    DropRawQuotesAppend(init, [t]);
    SentenceEndShape(t);
    assert !IsRawQuote(t) && DropRawQuotes([t]) == [t] + DropRawQuotes([]);
    var kept := DropRawQuotes(init);
    assert DropRawQuotes(r) == kept + [t];
    JoinSnoc(kept, t);
    var a := if kept == [] then "" else Join(kept) + " ";
    assert Join(DropRawQuotes(r)) == a + t;
    PolishEnding(a, t);
  }

  /** a.py:132-213. `choose` and `draw` stand for `random.choice` and
      `random.randint(1, total)`; `sampled` is the token list the loop built,
      before the closing ".". */
  method GenerateSentence(counts: CountDict, n: nat, seed: Option<NGram>, maxLength: int,
                          choose: nat -> nat, draw: (nat, nat) -> nat)
    returns (res: Result<string, GenError>, ghost sampled: seq<Token>)
    requires n >= 2 && WellFormed(counts) && KeysOfLength(counts, n)
    requires ValidChoice(choose) && ValidDraws(draw)
    ensures counts == [] ==> res == Success("")
    ensures counts != [] && seed.Some? && |seed.value| != n - 1 ==> res == Failure(SeedLengthMismatch(n - 1, n))
    ensures counts != [] && (seed.None? || |seed.value| == n - 1) ==>
              && res.Success? && |sampled| >= n - 1
              && SampledFrom(counts, n, seed, maxLength, choose, draw, sampled)
              && res.value == Polish(Join(DropRawQuotes(ForceTerminal(sampled))))
              && NoWsBefore(res.value, ClosingPunct) && NoDoubleWs(res.value)
              && (res.value != [] ==> !IsLower(res.value[0]))
              && EndsWith(res.value, PolishedEnd(ClosingToken(sampled)))
  {
    var sampling := SampleSentence(counts, n, seed, maxLength, choose, draw);
    if sampling.Failure? {
      return Failure(sampling.error), [];
    }
    if sampling.value.None? {
      return Success(""), [];
    }
    var sentenceTokens := sampling.value.value;
    sampled := sentenceTokens;
    var generated := FormatSentence(sentenceTokens);
    res := Success(generated);
  }
}
