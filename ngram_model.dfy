/**
 * The generation model: n-gram counts regrouped by context, and the sampling
 * walk over it. For an n-gram `(w1, ..., wn)` the context is `(w1, ..., wn-1)`
 * and the successor is `wn`. Both n-gram programs share this algorithm
 * (`build_model_for_generation` and the loop of `generate_sentence`).
 */
module NgramModel {
  import opened Wrappers
  import opened Assoc
  import opened Text
  import opened NgramCounts

  type NextCounts = Dict<Token, nat>
  type Model = Dict<NGram, NextCounts>

  // ---------------------------------------------------------------------
  // Regrouping counts by context.

  /** Every n-gram has a last token to predict. */
  predicate NonEmptyKeys(counts: CountDict)
  {
    forall i :: 0 <= i < |counts| ==> |counts[i].0| >= 1
  }

  /** `ngram[:-1]` */
  function Context(g: NGram): NGram
    requires |g| >= 1
  {
    g[..|g| - 1]
  }

  /** `ngram[-1]` */
  function Successor(g: NGram): Token
    requires |g| >= 1
  {
    g[|g| - 1]
  }

  /** The successor counts of context `p`; empty when `p` is not a context. */
  function NextOf(m: Model, p: NGram): NextCounts
  {
    match Lookup(m, p)
    case Some(e) => e
    case None => []
  }

  /** One pass of the regrouping loop: the count of `g` goes under its context. */
  function AddNext(m: Model, g: NGram, c: nat): Model
    requires |g| >= 1
  {
    Put(m, Context(g), Add(NextOf(m, Context(g)), Successor(g), c))
  }

  /** The model built from `counts`, entry by entry in insertion order. */
  function Regroup(counts: CountDict): Model
    requires NonEmptyKeys(counts)
  {
    if counts == [] then []
    else AddNext(Regroup(counts[..|counts| - 1]), counts[|counts| - 1].0, counts[|counts| - 1].1)
  }

  /** The contexts of the n-grams of `counts`, in insertion order. */
  function Contexts(counts: CountDict): seq<NGram>
    requires NonEmptyKeys(counts)
  {
    seq(|counts|, i requires 0 <= i < |counts| => Context(counts[i].0))
  }

  /** The number of observed n-grams whose context is `p`. */
  function ContextTotal(counts: CountDict, p: NGram): nat
    requires NonEmptyKeys(counts)
  {
    if counts == [] then 0
    else
      var last := counts[|counts| - 1];
      ContextTotal(counts[..|counts| - 1], p) + if Context(last.0) == p then last.1 else 0
  }

  /** A successor table the sampling walk can draw from. */
  predicate Drawable(e: NextCounts)
  {
    e != [] && DistinctKeys(e) && Positive(e)
  }

  /** The shape `build_model_for_generation` guarantees. */
  predicate ModelWellFormed(m: Model)
  {
    DistinctKeys(m) && forall e :: e in m ==> Drawable(e.1)
  }

  /** a.py:95-102 and hw03:44-52. */
  method BuildModelForGeneration(counts: CountDict) returns (model: Model)
    requires NonEmptyKeys(counts)
    ensures model == Regroup(counts)
  {
    model := [];
    for i := 0 to |counts|
      invariant model == Regroup(counts[..i])
    {
      var (ngram, count) := counts[i];
      RegroupPrefixStep(counts, i);
      model := CountSuccessor(model, ngram, count);
    }
    assert counts[..|counts|] == counts;
  }

  /** The loop body of a.py:99-102: the dict of the n-gram's context
      (created empty if the context is new) gains `count` occurrences of the
      n-gram's last token. */
  method CountSuccessor(model: Model, ngram: NGram, count: nat) returns (updated: Model)
    requires |ngram| >= 1
    ensures updated == AddNext(model, ngram, count)
  {
    var prefix := ngram[..|ngram| - 1];
    var nextTok := ngram[|ngram| - 1];
    updated := model;
    if prefix !in Keys(updated) {
      updated := Put(updated, prefix, []);
      PutLookup(model, prefix, [], prefix);
    }
    ghost var withContext := updated;
    var inner := Lookup(updated, prefix).value;
    updated := Put(updated, prefix, Put<Token, nat>(inner, nextTok, Count(inner, nextTok) + count));
    AddNextInPlace(model, ngram, prefix, nextTok, count, withContext);
  }

  /** Regrouping one more entry of `counts` adds it to the model. */
  lemma RegroupPrefixStep(counts: CountDict, i: nat)
    requires NonEmptyKeys(counts) && i < |counts|
    ensures NonEmptyKeys(counts[..i]) && NonEmptyKeys(counts[..i + 1]) && |counts[i].0| >= 1
    ensures Regroup(counts[..i + 1]) == AddNext(Regroup(counts[..i]), counts[i].0, counts[i].1)
  {
    assert counts[..i + 1][..i] == counts[..i];
  }

  /** The two steps of `CountSuccessor` perform `AddNext`. */
  lemma AddNextInPlace(m: Model, g: NGram, p: NGram, t: Token, c: nat, m1: Model)
    requires |g| >= 1 && p == g[..|g| - 1] && t == g[|g| - 1]
    requires m1 == if p in Keys(m) then m else Put(m, p, [])
    ensures Lookup(m1, p).Some?
    ensures Put(m1, p, Add(Lookup(m1, p).value, t, c)) == AddNext(m, g, c)
  {
    if p !in Keys(m) {
      PutLookup(m, p, [], p);
      PutPut(m, p, [], Add(NextOf(m, p), t, c));
    }
  }

  /** The model is empty exactly when there are no counts. */
  lemma RegroupEmpty(counts: CountDict)
    requires NonEmptyKeys(counts)
    ensures Regroup(counts) == [] <==> counts == []
  {
  }

  /** `p + (t,)` is `g` exactly when `p` is its context and `t` its successor. */
  lemma ContextSplit(g: NGram, p: NGram, t: Token)
    requires |g| >= 1
    ensures p + [t] == g <==> p == Context(g) && t == Successor(g)
  {
    assert g == Context(g) + [Successor(g)];
    if p + [t] == g {
      assert (p + [t])[..|p|] == p;
    }
  }

  /** Regrouping one more n-gram changes only the successors of its context. */
  lemma NextOfAddNext(m: Model, g: NGram, c: nat, p: NGram)
    requires |g| >= 1
    ensures NextOf(AddNext(m, g, c), p) ==
              if p == Context(g) then Add(NextOf(m, p), Successor(g), c) else NextOf(m, p)
  {
    PutLookup(m, Context(g), Add(NextOf(m, Context(g)), Successor(g), c), p);
  }

  /** Regrouping is lossless: `model[p][t] == ngram_counts[p + (t,)]`. */
  lemma {:induction false} RegroupCount(counts: CountDict, p: NGram, t: Token)
    requires DistinctKeys(counts) && NonEmptyKeys(counts)
    ensures Count(NextOf(Regroup(counts), p), t) == Count(counts, p + [t])
  {
    if counts != [] {
      var init, g, c := counts[..|counts| - 1], counts[|counts| - 1].0, counts[|counts| - 1].1;
      DistinctPrefix(counts);
      RegroupCount(init, p, t);
      var m := Regroup(init);
      NextOfAddNext(m, g, c, p);
      AddCount(NextOf(m, p), Successor(g), c, t);
      CountLast(counts, p + [t]);
      ContextSplit(g, p, t);
    }
  }

  /** For each context, the successor counts add up to the number of
      observed n-grams with that context. */
  lemma {:induction false} RegroupTotal(counts: CountDict, p: NGram)
    requires NonEmptyKeys(counts)
    ensures Total(NextOf(Regroup(counts), p)) == ContextTotal(counts, p)
  {
    if counts != [] {
      var init, g, c := counts[..|counts| - 1], counts[|counts| - 1].0, counts[|counts| - 1].1;
      RegroupTotal(init, p);
      var m := Regroup(init);
      NextOfAddNext(m, g, c, p);
      AddTotal(NextOf(m, p), Successor(g), c);
    }
  }

  /** The model's contexts are those of the n-grams, each once, in order of
      first appearance. */
  lemma {:induction false} RegroupKeys(counts: CountDict)
    requires NonEmptyKeys(counts)
    ensures Keys(Regroup(counts)) == Dedup(Contexts(counts))
  {
    if counts != [] {
      var init, g, c := counts[..|counts| - 1], counts[|counts| - 1].0, counts[|counts| - 1].1;
      RegroupKeys(init);
      AddNextKeys(Regroup(init), g, c);
      ContextsSnoc(counts);
    }
  }

  /** Regrouping one more n-gram appends its context if that is new. */
  lemma AddNextKeys(m: Model, g: NGram, c: nat)
    requires |g| >= 1
    ensures Keys(AddNext(m, g, c)) == if Context(g) in Keys(m) then Keys(m) else Keys(m) + [Context(g)]
  {
    PutKeys(m, Context(g), Add(NextOf(m, Context(g)), Successor(g), c));
  }

  lemma ContextsSnoc(counts: CountDict)
    requires NonEmptyKeys(counts) && counts != []
    ensures Contexts(counts)[..|counts| - 1] == Contexts(counts[..|counts| - 1])
    ensures Contexts(counts)[|counts| - 1] == Context(counts[|counts| - 1].0)
  {
  }

  /** The last tokens of the n-grams of `counts` whose context is `p`, in
      insertion order. */
  function Successors(counts: CountDict, p: NGram): seq<Token>
    requires NonEmptyKeys(counts)
  {
    if counts == [] then []
    else
      var g := counts[|counts| - 1].0;
      Successors(counts[..|counts| - 1], p) + if Context(g) == p then [Successor(g)] else []
  }

  /** The successors of a context are stored in the order their n-grams first
      appear in the counts, each once; this order decides which token a draw
      of the cumulative walk selects. */
  lemma {:induction false} RegroupSuccessors(counts: CountDict, p: NGram)
    requires NonEmptyKeys(counts)
    ensures Keys(NextOf(Regroup(counts), p)) == Dedup(Successors(counts, p))
  {
    if counts != [] {
      var init, g, c := counts[..|counts| - 1], counts[|counts| - 1].0, counts[|counts| - 1].1;
      RegroupSuccessors(init, p);
      var m := Regroup(init);
      NextOfAddNext(m, g, c, p);
      AddKeys(NextOf(m, p), Successor(g), c);
      var ss := Successors(counts, p);
      if Context(g) == p {
        assert ss[..|ss| - 1] == Successors(init, p) && ss[|ss| - 1] == Successor(g);
      } else {
        assert ss == Successors(init, p);
      }
    }
  }

  /** With distinct n-grams no successor repeats, so the successors of a
      context are stored exactly in the order of their n-grams. */
  lemma RegroupSuccessorsDistinct(counts: CountDict, p: NGram)
    requires DistinctKeys(counts) && NonEmptyKeys(counts)
    ensures Keys(NextOf(Regroup(counts), p)) == Successors(counts, p)
  {
    RegroupSuccessors(counts, p);
    SuccessorsDistinct(counts, p);
  }

  /** The successor table of context `p` in full: its tokens in the order
      their n-grams appear in `counts`, each with that n-gram's count. The
      cumulative walk over it is therefore fixed by `counts` alone. */
  lemma RegroupTable(counts: CountDict, p: NGram)
    requires WellFormed(counts) && NonEmptyKeys(counts)
    ensures NextOf(Regroup(counts), p) ==
              seq(|Successors(counts, p)|, i requires 0 <= i < |Successors(counts, p)| =>
                (Successors(counts, p)[i], Count(counts, p + [Successors(counts, p)[i]])))
  {
    var e := NextOf(Regroup(counts), p);
    RegroupSuccessorsDistinct(counts, p);
    KeysAt(e);
    forall i | 0 <= i < |e|
      ensures e[i] == (Successors(counts, p)[i], Count(counts, p + [Successors(counts, p)[i]]))
    {
      RegroupEntry(counts, p, i);
    }
  }

  /** One row of `RegroupTable`. */
  lemma RegroupEntry(counts: CountDict, p: NGram, i: nat)
    requires WellFormed(counts) && NonEmptyKeys(counts)
    requires i < |NextOf(Regroup(counts), p)|
    ensures i < |Successors(counts, p)|
    ensures NextOf(Regroup(counts), p)[i] ==
              (Successors(counts, p)[i], Count(counts, p + [Successors(counts, p)[i]]))
  {
    var e := NextOf(Regroup(counts), p);
    RegroupSuccessorsDistinct(counts, p);
    RegroupWellFormed(counts);
    NextOfDrawable(Regroup(counts), p);
    KeysAt(e);
    LookupAt(e, i);
    RegroupCount(counts, p, e[i].0);
  }

  /** Distinct n-grams give distinct successors of each context. */
  lemma {:induction false} SuccessorsDistinct(counts: CountDict, p: NGram)
    requires DistinctKeys(counts) && NonEmptyKeys(counts)
    ensures Dedup(Successors(counts, p)) == Successors(counts, p)
  {
    if counts != [] {
      var init, g := counts[..|counts| - 1], counts[|counts| - 1].0;
      DistinctPrefix(counts);
      SuccessorsDistinct(init, p);
      var ss := Successors(counts, p);
      if Context(g) != p {
        assert ss == Successors(init, p);
      } else {
        assert ss[..|ss| - 1] == Successors(init, p) && ss[|ss| - 1] == Successor(g);
        if Successor(g) in Successors(init, p) {
          SuccessorsSourced(init, p, Successor(g));
          ContextSplit(g, p, Successor(g));
          KeysAt(init);
          var i :| 0 <= i < |init| && Keys(init)[i] == g;
          DistinctLast(counts, i);
          assert false;
        }
      }
    }
  }

  /** Every listed successor `t` of `p` comes from the n-gram `p + [t]`. */
  lemma {:induction false} SuccessorsSourced(counts: CountDict, p: NGram, t: Token)
    requires NonEmptyKeys(counts) && t in Successors(counts, p)
    ensures p + [t] in Keys(counts)
  {
    var init, g := counts[..|counts| - 1], counts[|counts| - 1].0;
    KeysAppend(init, counts[|counts| - 1]);
    assert init + [counts[|counts| - 1]] == counts;
    if t in Successors(init, p) {
      SuccessorsSourced(init, p, t);
    } else {
      ContextSplit(g, p, t);
    }
  }

  /** Every context of a model built from length-`n` n-grams has `n - 1` tokens. */
  lemma {:induction false} RegroupContextLength(counts: CountDict, n: nat)
    requires n >= 1 && KeysOfLength(counts, n)
    ensures forall p :: p in Keys(Regroup(counts)) ==> |p| == n - 1
  {
    if counts != [] {
      var init, g, c := counts[..|counts| - 1], counts[|counts| - 1].0, counts[|counts| - 1].1;
      RegroupContextLength(init, n);
      var m := Regroup(init);
      PutKeys(m, Context(g), Add(NextOf(m, Context(g)), Successor(g), c));
    }
  }

  /** The successor table of any context of a well-formed model. */
  lemma NextOfDrawable(m: Model, p: NGram)
    requires ModelWellFormed(m)
    ensures DistinctKeys(NextOf(m, p)) && Positive(NextOf(m, p))
    ensures p in Keys(m) ==> Drawable(NextOf(m, p))
  {
    if Lookup(m, p).Some? {
      LookupIn(m, p);
    }
  }

  /** Regrouping a well-formed count table gives a well-formed model. */
  lemma {:induction false} RegroupWellFormed(counts: CountDict)
    requires WellFormed(counts) && NonEmptyKeys(counts)
    ensures ModelWellFormed(Regroup(counts))
  {
    if counts != [] {
      var init, g, c := counts[..|counts| - 1], counts[|counts| - 1].0, counts[|counts| - 1].1;
      DistinctPrefix(counts);
      RegroupWellFormed(init);
      var m := Regroup(init);
      var x := Add(NextOf(m, Context(g)), Successor(g), c);
      NextOfDrawable(m, Context(g));
      AddKeys(NextOf(m, Context(g)), Successor(g), c);
      AddDistinct(NextOf(m, Context(g)), Successor(g), c);
      AddPositive(NextOf(m, Context(g)), Successor(g), c);
      PutDistinct(m, Context(g), x);
      PutEntries(m, Context(g), x);
    }
  }

  /** No successor exists without an observed n-gram, and every observed
      n-gram appears as a successor of its context. */
  lemma RegroupSourced(counts: CountDict, p: NGram, t: Token)
    requires WellFormed(counts) && NonEmptyKeys(counts)
    ensures t in Keys(NextOf(Regroup(counts), p)) <==> p + [t] in Keys(counts)
  {
    RegroupWellFormed(counts);
    NextOfDrawable(Regroup(counts), p);
    RegroupCount(counts, p, t);
    PositiveCount(NextOf(Regroup(counts), p), t);
    PositiveCount(counts, p + [t]);
  }

  // ---------------------------------------------------------------------
  // The cumulative walk (a.py:166-175, hw03:73-83).

  /** The first successor whose running count reaches `r`; `None` when the
      counts run out first. */
  function Pick(e: NextCounts, r: int): Option<Token>
  {
    if e == [] then None
    else if r <= e[0].1 then Some(e[0].0)
    else Pick(e[1..], r - e[0].1)
  }

  /** The walk: `cumulative += count; if rand_val <= cumulative: break`. */
  method ChooseNext(e: NextCounts, r: int) returns (next: Option<Token>)
    ensures next == Pick(e, r)
  {
    var cumulative := 0;
    next := None;
    for i := 0 to |e|
      invariant next == None
      invariant Pick(e, r) == Pick(e[i..], r - cumulative)
    {
      var (token, count) := e[i];
      assert e[i..][1..] == e[i + 1..];
      cumulative := cumulative + count;
      if r <= cumulative {
        next := Some(token);
        break;
      }
    }
  }

  /** Pick selects entry `i` when `r` lies in that entry's band of running
      counts. */
  lemma {:induction false} PickBand(e: NextCounts, r: int, i: nat)
    requires i < |e| && Total(e[..i]) < r <= Total(e[..i + 1])
    ensures Pick(e, r) == Some(e[i].0)
  {
    TotalAppend(e[..i], e[i]);
    assert e[..i + 1] == e[..i] + [e[i]];
    if i > 0 {
      assert e[..i] == [e[0]] + e[1..][..i - 1];
      assert e[..i + 1] == [e[0]] + e[1..][..i];
      PickBand(e[1..], r - e[0].1, i - 1);
    }
  }

  /** A draw in `[1, total]` always selects a token, and it is a key of `e`. */
  lemma {:induction false} PickInRange(e: NextCounts, r: int)
    requires 1 <= r <= Total(e)
    ensures Pick(e, r).Some? && Pick(e, r).value in Keys(e)
  {
    if r > e[0].1 {
      PickInRange(e[1..], r - e[0].1);
    }
  }

  /** A draw beyond the total selects nothing. */
  lemma {:induction false} PickBeyond(e: NextCounts, r: int)
    requires r > Total(e)
    ensures Pick(e, r) == None
  {
    if e != [] {
      PickBeyond(e[1..], r - e[0].1);
    }
  }

  // ---------------------------------------------------------------------
  // Sentence ends.

  /** a.py:186-188 and hw03:88-90: append "." unless the last token ends a sentence. */
  function ForceTerminal(ts: seq<Token>): (r: seq<Token>)
    requires ts != []
    ensures r != [] && IsSentenceEnd(r[|r| - 1])
    ensures ts <= r && |r| <= |ts| + 1
    ensures IsSentenceEnd(ts[|ts| - 1]) <==> r == ts
  {
    if IsSentenceEnd(ts[|ts| - 1]) then ts else ts + ["."]
  }

  /** The token a generated sentence closes with: the last sampled token when
      it ends a sentence, the appended "." otherwise. */
  function ClosingToken(ts: seq<Token>): (t: Token)
    requires ts != []
    ensures IsSentenceEnd(t)
    ensures t == if IsSentenceEnd(ts[|ts| - 1]) then ts[|ts| - 1] else "."
  {
    var r := ForceTerminal(ts);
    r[|r| - 1]
  }

  // ---------------------------------------------------------------------
  // Sampling.

  /** The `ValueError` raised for a seed of the wrong length. */
  datatype GenError = SeedLengthMismatch(prefixSize: int, n: int)

  /** Every n-gram of the table has `n` tokens. */
  predicate KeysOfLength(counts: CountDict, n: nat)
  {
    forall i :: 0 <= i < |counts| ==> |counts[i].0| == n
  }

  /** `choose(len)` stands for the index `random.choice` takes from a list of `len` items. */
  ghost predicate ValidChoice(choose: nat -> nat)
  {
    forall len: nat :: len >= 1 ==> choose(len) < len
  }

  /** The context sampling starts from: the supplied seed, or
      `random.choice(all_prefixes)`. */
  function StartContext(m: Model, seed: Option<NGram>, choose: nat -> nat): NGram
    requires m != [] && ValidChoice(choose)
  {
    match seed
    case Some(s) => s
    case None => KeysAt(m); Keys(m)[choose(|m|)]
  }

  /** `draw(k, total)` stands for the `k`-th call of `random.randint(1, total)`. */
  ghost predicate ValidDraws(draw: (nat, nat) -> nat)
  {
    forall k: nat, total: nat :: total >= 1 ==> 1 <= draw(k, total) <= total
  }

  /** `len(range(max_length))` */
  function Steps(maxLength: int): nat
  {
    if maxLength > 0 then maxLength else 0
  }

  /** The token drawn from context `p` by draw number `k`; `None` at a dead end. */
  function NextToken(m: Model, p: NGram, k: nat, draw: (nat, nat) -> nat): Option<Token>
  {
    match Lookup(m, p)
    case None => None
    case Some(e) => Pick(e, draw(k, Total(e)))
  }

  /** Every token after the seed was drawn from the `|seed|` tokens before it,
      token `k` with draw number `k - |seed|`. */
  predicate Drawn(m: Model, seed: NGram, draw: (nat, nat) -> nat, ts: seq<Token>)
  {
    |seed| <= |ts| && forall k :: |seed| <= k < |ts| ==> DrawnAt(m, seed, draw, ts, k)
  }

  /** Token `k` was drawn from the `|seed|` tokens before it, with draw number `k - |seed|`. */
  predicate DrawnAt(m: Model, seed: NGram, draw: (nat, nat) -> nat, ts: seq<Token>, k: int)
    requires |seed| <= k < |ts|
  {
    NextToken(m, ts[k - |seed|..k], k - |seed|, draw) == Some(ts[k])
  }

  /** No token from position `|seed|` up to (not including) `upTo` ends a sentence. */
  predicate NoEndBefore(seed: NGram, ts: seq<Token>, upTo: int)
  {
    forall k :: |seed| <= k < upTo && k < |ts| ==> !IsSentenceEnd(ts[k])
  }

  /** `ts` is what the sampling loop leaves in `sentence_tokens` when started
      from `seed`, whose length is the context size: the seed, then one drawn
      token per step, none of them a sentence end except possibly the last,
      and the loop stopped because the steps ran out, a sentence end was
      drawn, or the current context is not in the model. */
  predicate SampledRun(m: Model, seed: NGram, maxLength: int, draw: (nat, nat) -> nat, ts: seq<Token>)
  {
    && |seed| <= |ts| <= |seed| + Steps(maxLength)
    && ts[..|seed|] == seed
    && Drawn(m, seed, draw, ts)
    && NoEndBefore(seed, ts, |ts| - 1)
    && (|| |ts| == |seed| + Steps(maxLength)
        || (|ts| > |seed| && IsSentenceEnd(ts[|ts| - 1]))
        || ts[|ts| - |seed|..] !in Keys(m))
  }

  /** Appending the token drawn from the current context keeps a run drawn. */
  lemma DrawnExtend(m: Model, seed: NGram, draw: (nat, nat) -> nat, ts: seq<Token>, x: Token)
    requires Drawn(m, seed, draw, ts)
    requires NextToken(m, ts[|ts| - |seed|..], |ts| - |seed|, draw) == Some(x)
    ensures Drawn(m, seed, draw, ts + [x])
  {
    var ts' := ts + [x];
    forall k | |seed| <= k < |ts'|
      ensures DrawnAt(m, seed, draw, ts', k)
    {
      assert ts'[k - |seed|..k] == ts[k - |seed|..k];
      if k < |ts| {
        assert DrawnAt(m, seed, draw, ts, k);
      }
    }
  }

  /** a.py:161-183 and hw03:70-87: the sampling loop. */
  method SampleTokens(m: Model, seed: NGram, maxLength: int, draw: (nat, nat) -> nat) returns (ts: seq<Token>)
    requires |seed| >= 1 && ModelWellFormed(m) && ValidDraws(draw)
    ensures SampledRun(m, seed, maxLength, draw, ts)
  {
    var prefixSize := |seed|;
    var currentPrefix := seed;
    ts := seed;
    var step := 0;
    while step < maxLength
      invariant 0 <= step <= Steps(maxLength)
      invariant |ts| == |seed| + step && ts[..|seed|] == seed
      invariant currentPrefix == ts[|ts| - prefixSize..]
      invariant Drawn(m, seed, draw, ts)
      invariant NoEndBefore(seed, ts, |ts|)
    {
      if currentPrefix !in Keys(m) {
        break;
      }
      var possibleNext := Lookup(m, currentPrefix).value;
      NextOfDrawable(m, currentPrefix);
      TotalPositive(possibleNext);
      var totalCounts := Total(possibleNext);
      var randVal := draw(step, totalCounts);
      PickInRange(possibleNext, randVal);
      var nextToken := ChooseNext(possibleNext, randVal);
      DrawnExtend(m, seed, draw, ts, nextToken.value);
      ts := ts + [nextToken.value];
      if nextToken.value in [".", "!", "?"] || IsSentenceEnd(nextToken.value) {
        break;
      }
      currentPrefix := ts[|ts| - prefixSize..];
      step := step + 1;
    }
  }

  /** A slice grows by the element after it. */
  lemma SliceSnoc<T>(s: seq<T>, a: nat, k: nat)
    requires a <= k < |s|
    ensures s[a..k + 1] == s[a..k] + [s[k]]
  {
  }

  /** A drawn token is a successor of the context it was drawn from. */
  lemma NextTokenIsSuccessor(m: Model, p: NGram, i: nat, draw: (nat, nat) -> nat, t: Token)
    requires NextToken(m, p, i, draw) == Some(t)
    ensures t in Keys(NextOf(m, p))
  {
    var e := Lookup(m, p).value;
    PickKey(e, draw(i, Total(e)));
  }

  /** The window ending at position `k` is an observed n-gram when token `k`
      is a successor of the tokens from `a` up to it. */
  lemma SuccessorWindowObserved(counts: CountDict, ts: seq<Token>, a: nat, k: nat)
    requires WellFormed(counts) && NonEmptyKeys(counts) && a <= k < |ts|
    requires ts[k] in Keys(NextOf(Regroup(counts), ts[a..k]))
    ensures ts[a..k + 1] in Keys(counts)
  {
    RegroupSourced(counts, ts[a..k], ts[k]);
    SliceSnoc(ts, a, k);
  }

  /** Every length-`n` window of `ts` is a key of the count table. */
  predicate WindowsObserved(counts: CountDict, ts: seq<Token>, n: nat)
  {
    forall g :: g in Windows(ts, n) ==> g in Keys(counts)
  }

  /** Every length-`n` window of a sampled token list (seed included) is an
      observed n-gram, when the model was built from the counts; this holds
      of every run, as `SampledRun` includes `Drawn`. */
  lemma SampledWindowsObserved(counts: CountDict, seed: NGram, draw: (nat, nat) -> nat, ts: seq<Token>)
    requires WellFormed(counts) && NonEmptyKeys(counts)
    requires Drawn(Regroup(counts), seed, draw, ts)
    ensures WindowsObserved(counts, ts, |seed| + 1)
  {
    var n := |seed| + 1;
    var ws := Windows(ts, n);
    forall g | g in ws ensures g in Keys(counts) {
      var j :| 0 <= j < |ws| && ws[j] == g;
      var k := j + |seed|;
      assert g == ts[j..k + 1];
      assert DrawnAt(Regroup(counts), seed, draw, ts, k);
      NextTokenIsSuccessor(Regroup(counts), ts[j..k], j, draw, ts[k]);
      SuccessorWindowObserved(counts, ts, j, k);
    }
  }

  /** Whatever Pick selects is a key of the table. */
  lemma {:induction false} PickKey(e: NextCounts, r: int)
    requires Pick(e, r).Some?
    ensures Pick(e, r).value in Keys(e)
  {
    if r > e[0].1 {
      PickKey(e[1..], r - e[0].1);
    }
  }

  // ---------------------------------------------------------------------
  // The part of generation both programs share (a.py:144-183, hw03:55-87).

  /** A token list generation may produce before its closing punctuation:
      a run of the sampling walk on the model regrouped from `counts`, from
      the start context, whose every n-token window is an observed n-gram. */
  ghost predicate SampledFrom(counts: CountDict, n: nat, seed: Option<NGram>, maxLength: int,
                              choose: nat -> nat, draw: (nat, nat) -> nat, ts: seq<Token>)
  {
    && NonEmptyKeys(counts) && Regroup(counts) != [] && ValidChoice(choose)
    && SampledRun(Regroup(counts), StartContext(Regroup(counts), seed, choose), maxLength, draw, ts)
    && WindowsObserved(counts, ts, n)
  }

  /** A run sampled from the start context of the model of `counts` is
      sampled from `counts`. */
  lemma SampledFromRun(counts: CountDict, n: nat, seed: Option<NGram>, maxLength: int,
                       choose: nat -> nat, draw: (nat, nat) -> nat, start: NGram, ts: seq<Token>)
    requires WellFormed(counts) && NonEmptyKeys(counts) && Regroup(counts) != [] && ValidChoice(choose)
    requires start == StartContext(Regroup(counts), seed, choose) && |start| + 1 == n
    requires SampledRun(Regroup(counts), start, maxLength, draw, ts)
    ensures |ts| >= n - 1 && SampledFrom(counts, n, seed, maxLength, choose, draw, ts)
  {
    SampledWindowsObserved(counts, start, draw, ts);
  }

  /** a.py:144-183 and hw03:55-87: build the model; an empty one yields
      `None` (the source returns ""), a seed of the wrong length is an error
      (the source raises `ValueError`); otherwise the sampled token list. */
  method SampleSentence(counts: CountDict, n: nat, seed: Option<NGram>, maxLength: int,
                        choose: nat -> nat, draw: (nat, nat) -> nat)
    returns (r: Result<Option<seq<Token>>, GenError>)
    requires n >= 2 && WellFormed(counts) && KeysOfLength(counts, n)
    requires ValidChoice(choose) && ValidDraws(draw)
    ensures counts == [] ==> r == Success(None)
    ensures counts != [] && seed.Some? && |seed.value| != n - 1 ==> r == Failure(SeedLengthMismatch(n - 1, n))
    ensures counts != [] && (seed.None? || |seed.value| == n - 1) ==>
              && r.Success? && r.value.Some? && |r.value.value| >= n - 1
              && SampledFrom(counts, n, seed, maxLength, choose, draw, r.value.value)
  {
    var model := BuildModelForGeneration(counts);
    var prefixSize := n - 1;
    var allPrefixes := Keys(model);
    KeysAt(model);
    if allPrefixes == [] {
      RegroupEmpty(counts);
      return Success(None);
    }
    var seedTokens: NGram;
    if seed.None? {
      seedTokens := allPrefixes[choose(|allPrefixes|)];
      RegroupContextLength(counts, n);
      assert seedTokens in Keys(model);
    } else {
      if |seed.value| != prefixSize {
        return Failure(SeedLengthMismatch(prefixSize, n));
      }
      seedTokens := seed.value;
    }
    assert seedTokens == StartContext(model, seed, choose);
    RegroupWellFormed(counts);
    var sentenceTokens := SampleTokens(model, seedTokens, maxLength, draw);
    SampledFromRun(counts, n, seed, maxLength, choose, draw, seedTokens, sentenceTokens);
    r := Success(Some(sentenceTokens));
  }
}
