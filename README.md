# Word n-gram models and a word counter, in Dafny

This project models three small Python programs and proves properties of them.

- **`a.py`, the improved n-gram generator.** It counts the length-`n` windows of
  every sentence for `n` = 2, 3, 4 and 5. It regroups each table into a model from
  an (n-1)-token context to successor counts. It samples a sentence by a
  cumulative walk over those counts. It then strips raw quote tokens and polishes
  the spacing and capitalisation of the joined sentence.
- **`hw03_mam230009.py`, the first generator.** It has the same counting,
  regrouping and sampling. The counting goes into four dicts that are updated in
  place. The output is the sampled tokens joined by single spaces.
- **`hw01_mam230009.py`, the word counter.** It tokenizes a text by spacing out
  punctuation and splitting on whitespace. It counts tokens case-insensitively,
  totals the non-punctuation counts and lists the ten most frequent words.

## How the model is built

Python dicts become insertion-ordered association lists `seq<(K, V)>` (module
`Assoc`). `Put` replaces a value in place or appends a new key, like dict
assignment, so iteration order is preserved. That order matters here: the
cumulative walk picks the first successor in iteration order whose running count
reaches the draw.

The loops of the source are methods with loop invariants. Each method is proved
against a recursive specification function:

| function | meaning |
|---|---|
| `Tally` / `AddEach` | counting a list into a table |
| `Merge` | adding one table into another |
| `Regroup` | the generation model |
| `Pick` | the cumulative walk |
| `SampledRun` | the sampling loop |
| `Polish` | the rewrite chain |
| `SortByCount` | the stable descending sort |
| `NonPunct` / `Take` | the top-ten listing |

The lemmas state the source's promises about those functions.

Randomness is a parameter:

- `choose(len)` is the index `random.choice` takes from a list of `len` items.
- `draw(k, total)` is the `k`-th call of `random.randint(1, total)`.
- `ValidChoice` and `ValidDraws` state the ranges these take.

`hw03`'s four dicts are objects of class `CountTable`, whose method `Update`
changes them in place. `a.py`'s `ngram_dicts` is a `map<nat, CountDict>` that the
counting methods reassign.

### Where the model follows the code

`clean_token_sequence` (a.py:105-129) first deletes every `` `` `` and `''`
token. Its quote branches therefore never meet those tokens, and `in_quote`
never changes what is appended. The model filters exactly as the code does and
proves that the loop leaves the filtered list unchanged. It does not convert
raw quotes to `"`.

The formatting chain (a.py:196-211) is not idempotent. The quote-spacing
rewrites run before the `` `` ``/`''` replacement, so a pair that becomes `"`
keeps the whitespace before it. A space followed by `''` formats to a space
followed by `"`, and that formats to `"` alone. `SentenceFormat.PolishTwiceDiffers` states this, and
`SentenceFormat.PolishIdempotent` proves idempotence for text without such
pairs.

## Model

| member | source | states |
|---|---|---|
| `NgramCounts.CountWindows` | a.py:77-81 | Counting a sentence's windows into a well-formed table keeps it well formed (distinct keys, counts at least one). The total rises by max(0, len - n + 1). The new keys are exactly the windows not already present. |
| `NgramCounts.CorpusCount` | a.py:249-253 | After one more sentence, every n-gram's corpus count is its old count plus its count in that sentence. A sentence shorter than `n` adds nothing. |
| `NgramCounts.CorpusTotal` | a.py:249-253 | After one more sentence, the corpus table's total grows by that sentence's number of windows. |
| `ImprovedNgram.BuildNgramDict` | a.py:66-81 | The result is the tally of the token list's length-`n` windows. It is well formed, and its counts sum to max(0, len - n + 1). Its keys are exactly the windows. Each key's count is that window's number of occurrences. |
| `ImprovedNgram.UpdateOrder` | a.py:250-253 | Table `n` gains the sentence's windows: its per-sentence dict is merged in entry by entry. A sentence shorter than `n` changes nothing, and no other table changes. |
| `ImprovedNgram.FedOrdersSpec` | a.py:249-253 | After the first `o` orders of `{2, 3, 4, 5}`, exactly those orders' tables have the sentence's windows added. The other tables are unchanged. |
| `ImprovedNgram.AddSentence` | a.py:249-253 | One sentence is fed to the tables of all four orders in key order. |
| `ImprovedNgram.CorpusFed` | a.py:241-253 | Feeding sentence `s` to the tables of the first `s` sentences gives the tables of the first `s + 1`. |
| `ImprovedNgram.CountCorpus` | a.py:238-253 | After all sentences, the dict has keys 2, 3, 4 and 5. Table `n` is the tally of every window of order `n` of every sentence, in order of first appearance. |
| `ImprovedNgram.NormaliseQuotes` | a.py:116-127 | On any input, the loop maps each token to its quote mark. The length is kept and `in_quote` has no effect. |
| `ImprovedNgram.DropRawQuotesClean` | a.py:115 | No `` `` `` or `''` token survives the filter. |
| `ImprovedNgram.DropRawQuotesCount` | a.py:115 | Raw quote tokens occur zero times after the filter. Every other token keeps its number of occurrences. |
| `ImprovedNgram.DropRawQuotesNone` | a.py:115 | A list without raw quote tokens passes the filter unchanged. |
| `ImprovedNgram.CleanTokenSequence` | a.py:105-129 | The result is the input with its raw quote tokens removed, in order, and nothing else changed. |
| `ImprovedNgram.FormatSentence` | a.py:185-211 | The sampled tokens are ended by "." when needed, stripped of raw quotes, joined by spaces and polished. The result has no whitespace before `, . ; : ? !`, no two adjacent whitespace characters, and no lower-case first letter. It ends with the closing token, as `PolishedEnd` gives it. |
| `ImprovedNgram.FormattedEnding` | a.py:185-211 | Whatever the sampled tokens, the formatted sentence ends with its closing token: the last token when it matches `[.?!]["']?$`, else ".". Only a newline after a closing `"` is lost. |
| `ImprovedNgram.GenerateSentence` | a.py:132-213 | No counts gives `""`. A seed of the wrong length gives the `ValueError` case. Otherwise the result is the formatted version of a run sampled from the counts, has the three formatting properties, and ends with the run's closing token. |
| `NgramModel.BuildModelForGeneration` | a.py:95-102 | The loop builds `Regroup(counts)`: each n-gram's count goes under its context, entry by entry. It is the same code as hw03:44-52. |
| `NgramModel.CountSuccessor` | a.py:97-101 | One pass of the loop adds the n-gram's count to its last token under its context. A new context first gets an empty dict. |
| `NgramModel.RegroupCount` | a.py:95-102 | Regrouping is lossless: `model[p][t]` equals `ngram_counts[p + (t,)]`. |
| `NgramModel.RegroupTotal` | a.py:95-102 | For every context, the successor counts sum to the total count of the n-grams with that context. |
| `NgramModel.RegroupSourced` | a.py:95-102 | `t` is a successor of `p` exactly when `p + (t,)` is an observed n-gram. No entry exists without a source n-gram. |
| `NgramModel.RegroupSuccessors` | a.py:95-102 | A context's successors are stored in order of first appearance of their n-grams, each once. |
| `NgramModel.RegroupSuccessorsDistinct` | a.py:95-102 | With distinct n-gram keys, a context's successors are stored exactly in the order of their n-grams. |
| `NgramModel.RegroupTable` | a.py:95-102 | A context's successor table is, entry by entry in that order, each successor with the count of its n-gram. This is the order the cumulative walk of a.py:169-175 goes through. |
| `NgramModel.SuccessorsSourced` | a.py:97-101 | Every listed successor `t` of `p` comes from an n-gram `p + (t,)` of the counts. |
| `NgramModel.RegroupKeys` | a.py:95-102 | The model's contexts are those of the n-grams, each once, in order of first appearance. |
| `NgramModel.RegroupContextLength` | a.py:97 | From length-`n` n-grams, every context has `n - 1` tokens. |
| `NgramModel.RegroupWellFormed` | a.py:95-102 | The model has distinct contexts. Every successor table is non-empty, with distinct tokens and positive counts. |
| `NgramModel.ChooseNext` | a.py:169-175 | The cumulative walk returns `Pick(e, r)`: the first token whose running count reaches the draw, or `None`. |
| `NgramModel.PickBand` | a.py:169-175 | The walk selects entry `i` when the draw lies above the counts before `i` and at most the counts up to and including `i`. |
| `NgramModel.PickInRange` | a.py:166-175 | A draw in `[1, total]` always selects a token, never `None`, and that token is a successor in the table. |
| `NgramModel.PickBeyond` | a.py:169-175 | A draw above the total selects nothing. |
| `NgramModel.ForceTerminal` | a.py:186-188 | The result ends with a token matching `[.?!]["']?`. It extends the input by at most one token, and equals the input exactly when the input already ended a sentence. |
| `NgramModel.ClosingToken` | a.py:186-188 | The closing token matches `[.?!]["']?$`. It is the last token when that one matches, and "." otherwise. |
| `NgramModel.SampleTokens` | a.py:158-183 | The loop's tokens are a sampled run: the seed, then at most `max_length` drawn tokens. Each is drawn from the `n - 1` tokens before it with its own draw. None ends a sentence except possibly the last. It stops on running out of steps, on a sentence end, or on an unknown context. |
| `NgramModel.SampledWindowsObserved` | a.py:161-183 | Every length-`n` window of a sampled run, seed included, is a key of the counts. |
| `NgramModel.SampleSentence` | a.py:145-183 | An empty model gives no tokens. A seed whose length is not `n - 1` is an error. Otherwise it gives a run sampled from the start context (the seed, or the chosen context), at least `n - 1` tokens long, whose every window was observed. |
| `Hw03Ngram.CountTable.constructor` | hw03_mam230009.py:31-32 | A new table is empty and well formed. |
| `Hw03Ngram.CountTable.Update` | hw03_mam230009.py:34-40 | The table gains one count per window of the token list, in place. It stays well formed and its total grows by max(0, len - n + 1). A list shorter than `n` changes nothing. |
| `Assoc.AddEachCount` | hw03_mam230009.py:34-40 | Each key's count grows by its number of occurrences in the added list; every other key keeps its count. |
| `Hw03Ngram.CountCorpus` | hw03_mam230009.py:107-120 | The four tables end up holding exactly the tallies of all windows of orders 2, 3, 4 and 5 of all sentences. |
| `Hw03Ngram.GenerateSentence` | hw03_mam230009.py:54-92 | No counts gives `""`. A seed of the wrong length gives the `ValueError` case. Otherwise the result is a sampled run, ended by "." when needed, joined by single spaces, and it ends with the run's closing token. |
| `Text.JoinEnds` | hw03_mam230009.py:91 | A space-joined list of tokens ends with its last token. |
| `Assoc.PutLookup` | a.py:80 | Dict assignment makes the key map to the new value and leaves every other key alone. |
| `Assoc.PutKeys` | a.py:80 | Dict assignment appends a new key and keeps a present key in place. |
| `Assoc.MergeCount` | a.py:252-253 | Merging adds the counts key by key. |
| `Assoc.MergeTally` | a.py:251-253 | Merging a list's tally into a table equals counting the list into it. |
| `SentenceFormat.DropWsBeforeClears` | a.py:197 | After the substitution, no whitespace is directly followed by `, . ; : ? !`. |
| `SentenceFormat.DropWsBeforeSolid` | a.py:197 | The substitution deletes only whitespace. |
| `SentenceFormat.DropWsAfterQuoteSolid` | a.py:200 | Deleting whitespace after `"` deletes only whitespace. |
| `SentenceFormat.DropWsAfterQuoteKeeps` | a.py:200 | Deleting whitespace after `"` keeps "no whitespace before closing punctuation". |
| `SentenceFormat.DropWsBeforeKeeps` | a.py:201 | Deleting whitespace before `"` keeps "no whitespace before closing punctuation". |
| `SentenceFormat.ReplaceQuotePairsClears` | a.py:204 | After replacing the pairs of backquotes and of apostrophes, none is left. |
| `SentenceFormat.ReplaceQuotePairsKeeps` | a.py:204 | Replacing quote pairs keeps "no whitespace before closing punctuation". |
| `SentenceFormat.CollapseWsClears` | a.py:207 | After collapsing whitespace runs, no two whitespace characters are adjacent. |
| `SentenceFormat.CollapseWsKeeps` | a.py:207 | Collapsing whitespace runs keeps "no whitespace before closing punctuation". |
| `SentenceFormat.CollapseWsSolid` | a.py:207 | Collapsing changes only whitespace. |
| `SentenceFormat.PolishShape` | a.py:196-211 | The whole chain leaves no whitespace before closing punctuation, no two adjacent whitespace characters, and no lower-case first letter. |
| `SentenceFormat.PolishedEnd` | a.py:200-201 | A sentence-ending token keeps its mark after formatting. Only a newline after a closing `"` can be lost. |
| `SentenceFormat.PolishEnding` | a.py:196-211 | Text that ends with a sentence-ending token still ends with that token after formatting, up to a newline after a closing `"`. |
| `SentenceFormat.PolishIdempotent` | a.py:196-211 | On text without `` `` `` or `''` pairs, formatting twice gives the same result as formatting once. |
| `SentenceFormat.PolishTwiceDiffers` | a.py:200-204 | Whitespace followed by `''` formats to the whitespace and `"`. Formatting that again drops the whitespace, so formatting is not idempotent. |
| `WordCounts.TokenizeTextSolid` | hw01_mam230009.py:29-44 | No token is empty or contains whitespace. The tokens concatenated give the text with its whitespace removed. |
| `WordCounts.TokenizeTextPunctuation` | hw01_mam230009.py:36-43 | A token holding an ASCII punctuation character other than `'` is that character alone. |
| `WordCounts.TokenizeWord` | hw01_mam230009.py:36-43 | A word without whitespace and without separated punctuation, apostrophes included, is one token. |
| `WordCounts.TokenizeTextAt` | hw01_mam230009.py:36-43 | Tokenizing splits independently on both sides of any whitespace character. |
| `WordCounts.TokenizeWordInside` | hw01_mam230009.py:36-43 | Such a word, with whitespace on both sides inside a longer text, is one token there, between the tokens of the text before and after it. |
| `WordCounts.SplitJoin` | hw01_mam230009.py:43 | Splitting on whitespace undoes joining non-empty, whitespace-free tokens with spaces. |
| `WordCounts.CountWords` | hw01_mam230009.py:46-55 | The loop builds the tally of the lower-cased tokens. |
| `WordCounts.CountWordsShape` | hw01_mam230009.py:51-55 | The counts are distinct and positive and sum to the number of tokens. Every key has no upper-case letter. `counts[k]` is the number of tokens whose lower-case form is `k`. |
| `WordCounts.WordTotalOfTokens` | hw01_mam230009.py:76 | The total over non-punctuation keys equals the number of lower-cased tokens that are not punctuation. |
| `WordCounts.SortByCountSpec` | hw01_mam230009.py:80 | The sort is in non-increasing count order and is a permutation. It is stable: the entries of each count keep their insertion order. |
| `WordCounts.SelectTop` | hw01_mam230009.py:86-97 | The loop keeps the first ten non-punctuation entries, skipping punctuation and stopping at ten. |
| `WordCounts.NonPunctClean` | hw01_mam230009.py:88-89 | The skipped entries are exactly the punctuation keys: none remains. |
| `WordCounts.NonPunctSorted` | hw01_mam230009.py:87-89 | Skipping entries keeps a sorted list sorted. |
| `WordCounts.NonPunctPerm` | hw01_mam230009.py:87-89 | Permuted inputs give permuted non-punctuation entries of the same number. |
| `WordCounts.TopListing` | hw01_mam230009.py:80-97 | The listing has min(10, number of non-punctuation entries) entries, no punctuation key, non-increasing counts, and only entries of the dict. |
| `WordCounts.TopListingIsTop` | hw01_mam230009.py:80-97 | The listing holds the most frequent words: every non-punctuation entry of the dict left out of it has a count no larger than that of any listed entry. |
| `WordCounts.TopWords` | hw01_mam230009.py:46-97 | For a token list, a non-punctuation word not listed occurs no more often than any listed word. |
| `WordCounts.WordReport` | hw01_mam230009.py:65-97 | For a text, the total is the number of non-punctuation tokens. The listing is the top ten of the stable sort without punctuation. Each entry is a lower-case non-punctuation word whose count is its number of occurrences. Every non-punctuation word left out occurs no more often than any listed word. |

## Left out

- The NLTK sentence and word tokenizers (`tokenize_into_sentences`, `tokenize_into_words`) and the resource check and download: token lists are inputs.
- `random.choice` and `random.randint` become the parameters `choose` and `draw`; the claim that tokens are drawn in proportion to their counts is statistical and not stated.
- File reading, printing, `sys.exit`, `colored_print` and the console formatting of both `main` functions and of `process_text_file`.
- The demonstration loops that generate one sentence per order, with their choice of `max_length` (a.py:255-260, hw03_mam230009.py:122-136).
- The floating-point relative frequency of the listing (hw01_mam230009.py:91).
- `str.lower`, `str.upper`, `str.isspace` and `\s` are modelled on ASCII only; whitespace is code points 9-13 and 28-32.
- The typographic quotes of the punctuation set are compared as whole keys; no other Unicode punctuation is modelled.
- `hw02_mam230009.py` is not part of this model.
- A raised `ValueError` becomes the `Failure(SeedLengthMismatch(...))` result; an empty model's `""` becomes `Success("")`.
- NgramModel.SampleSentence: requires `n >= 2`, every key of length `n` and a well-formed table (distinct keys, every count at least one), which both programs guarantee for the tables they build; `n = 1` (where `sentence_tokens[-0:]` is the whole list), tables of mixed key lengths and tables holding zero counts are not modelled.
- ImprovedNgram.GenerateSentence: same requirements as `SampleSentence`.
- Hw03Ngram.GenerateSentence: same requirements as `SampleSentence`.
- Seeds are token sequences; the difference between a tuple and a list seed in Python is not modelled.
- SentenceFormat.PolishIdempotent: idempotence is proved only for text without `` `` `` or `''` pairs, because it fails with them.
- Hw03Ngram.CountTable.Update: states the new table as `AddEach` of the windows; the per-key count is stated by `Assoc.AddEachCount` rather than in its own contract.
