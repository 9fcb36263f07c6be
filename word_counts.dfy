/**
 * The word-frequency program (hw01_mam230009.py): punctuation is spaced
 * out, the text is split on whitespace, tokens are counted ignoring case,
 * and the ten most frequent non-punctuation words are listed.
 */
module WordCounts {
  import opened Assoc
  import opened Text

  type WordDict = Dict<string, nat>

  // ---------------------------------------------------------------------
  // Tokenizing (hw01:29-44).

  /** A character of Python's `string.punctuation`, the printable ASCII
      characters that are neither letters, digits nor space:
      !"#$%&'()*+,-./ :;<=>?@ [\]^_` {|}~ */
  predicate IsAsciiPunct(c: char)
  {
    (33 <= c as int <= 47) || (58 <= c as int <= 64) || (91 <= c as int <= 96) || (123 <= c as int <= 126)
  }

  /** The characters spaced out by `tokenize_text`: every ASCII punctuation
      character except the apostrophe. */
  predicate IsSeparated(c: char)
  {
    IsAsciiPunct(c) && c != '\''
  }

  /** `re.sub(pattern, r" \1 ", text)`: a space on both sides of every
      separated character. */
  function Spaced(text: string): string
  {
    if text == [] then []
    else (if IsSeparated(text[0]) then [' ', text[0], ' '] else [text[0]]) + Spaced(text[1..])
  }

  /** The longest prefix of `s` without whitespace. */
  function TakeWord(s: string): (w: string)
    ensures |w| <= |s|
    ensures s != [] && !IsWs(s[0]) ==> |w| >= 1
  {
    if s == [] || IsWs(s[0]) then [] else [s[0]] + TakeWord(s[1..])
  }

  lemma {:induction false} TakeWordNoWs(s: string)
    ensures NoWs(TakeWord(s))
  {
    if s != [] && !IsWs(s[0]) {
      TakeWordNoWs(s[1..]);
    }
  }

  /** The word is a prefix of `s` that stops at whitespace or at the end. */
  lemma {:induction false} TakeWordStops(s: string)
    ensures TakeWord(s) == s[..|TakeWord(s)|]
    ensures |TakeWord(s)| == |s| || IsWs(s[|TakeWord(s)|])
  {
    if s != [] && !IsWs(s[0]) {
      TakeWordStops(s[1..]);
    }
  }

  /** `str.split()` with no separator: the maximal runs of non-whitespace. */
  function SplitWs(s: string): seq<string>
    decreases |s|
  {
    if s == [] then []
    else if IsWs(s[0]) then SplitWs(s[1..])
    else
      var w := TakeWord(s);
      [w] + SplitWs(s[|w|..])
  }

  /** hw01:29-44. */
  function TokenizeText(text: string): seq<string>
  {
    SplitWs(Spaced(text))
  }

  /** The tokens written one after the other. */
  function Concat(ts: seq<string>): string
  {
    if ts == [] then [] else ts[0] + Concat(ts[1..])
  }

  /** Every separated character sits between two whitespace characters. */
  predicate Enclosed(s: string)
  {
    forall i :: 0 <= i < |s| && IsSeparated(s[i]) ==> 0 < i < |s| - 1 && IsWs(s[i - 1]) && IsWs(s[i + 1])
  }

  /** Every separated character is at an end of `s` or next to whitespace on
      each side that has a neighbour (this survives taking suffixes). */
  predicate Isolated(s: string)
  {
    forall i :: 0 <= i < |s| && IsSeparated(s[i]) ==>
      (i == 0 || IsWs(s[i - 1])) && (i == |s| - 1 || IsWs(s[i + 1]))
  }

  /** Every token is non-empty and free of whitespace. */
  predicate Solids(ts: seq<string>)
  {
    forall i :: 0 <= i < |ts| ==> ts[i] != [] && NoWs(ts[i])
  }

  lemma {:induction false} SplitWsTokens(s: string)
    ensures Solids(SplitWs(s))
    decreases |s|
  {
    if s != [] && IsWs(s[0]) {
      SplitWsTokens(s[1..]);
    } else if s != [] {
      var w := TakeWord(s);
      TakeWordNoWs(s);
      SplitWsTokens(s[|w|..]);
    }
  }

  /** Splitting keeps every non-whitespace character, in order. */
  lemma {:induction false} SplitWsSolid(s: string)
    ensures Concat(SplitWs(s)) == Solid(s)
    decreases |s|
  {
    if s != [] && IsWs(s[0]) {
      SplitWsSolid(s[1..]);
    } else if s != [] {
      var w := TakeWord(s);
      var rest := s[|w|..];
      SplitWsSolid(rest);
      TakeWordNoWs(s);
      TakeWordStops(s);
      assert s == w + rest;
      SolidAppend(w, rest);
      SolidOfNoWs(w);
      var ts := SplitWs(s);
      assert ts[0] == w && ts[1..] == SplitWs(rest);
    }
  }

  /** Spacing out adds only whitespace. */
  lemma {:induction false} SpacedSolid(text: string)
    ensures Solid(Spaced(text)) == Solid(text)
  {
    if text != [] {
      var c := text[0];
      var chunk := if IsSeparated(c) then [' ', c, ' '] else [c];
      SpacedSolid(text[1..]);
      SolidAppend(chunk, Spaced(text[1..]));
      SolidAppend([c], text[1..]);
      assert text == [c] + text[1..];
      if IsSeparated(c) {
        assert !IsWs(c);
        assert chunk == [' '] + ([c] + [' ']);
        SolidAppend([' '], [c] + [' ']);
        SolidAppend([c], [' ']);
      }
    }
  }

  lemma EnclosedAppend(a: string, b: string)
    requires Enclosed(a) && Enclosed(b)
    ensures Enclosed(a + b)
  {
    var s := a + b;
    forall i | 0 <= i < |s| && IsSeparated(s[i])
      ensures 0 < i < |s| - 1 && IsWs(s[i - 1]) && IsWs(s[i + 1])
    {
      if i < |a| {
        assert s[i] == a[i] && s[i - 1] == a[i - 1] && s[i + 1] == a[i + 1];
      } else {
        var j := i - |a|;
        assert s[i] == b[j] && s[i - 1] == b[j - 1] && s[i + 1] == b[j + 1];
      }
    }
  }

  lemma {:induction false} SpacedEnclosed(text: string)
    ensures Enclosed(Spaced(text))
  {
    if text != [] {
      var c := text[0];
      var chunk := if IsSeparated(c) then [' ', c, ' '] else [c];
      SpacedEnclosed(text[1..]);
      EnclosedAppend(chunk, Spaced(text[1..]));
    }
  }

  lemma IsolatedSuffix(s: string, k: nat)
    requires k <= |s| && Isolated(s)
    ensures Isolated(s[k..])
  {
    var t := s[k..];
    forall i | 0 <= i < |t| && IsSeparated(t[i])
      ensures (i == 0 || IsWs(t[i - 1])) && (i == |t| - 1 || IsWs(t[i + 1]))
    {
      assert t[i] == s[k + i];
      if i > 0 {
        assert t[i - 1] == s[k + i - 1];
      }
      if i < |t| - 1 {
        assert t[i + 1] == s[k + i + 1];
      }
    }
  }

  /** In an isolated text, a token holding a separated character is that
      character alone. */
  lemma {:induction false} SplitWsIsolated(s: string)
    requires Isolated(s)
    ensures forall i, j :: 0 <= i < |SplitWs(s)| && 0 <= j < |SplitWs(s)[i]| && IsSeparated(SplitWs(s)[i][j]) ==>
              |SplitWs(s)[i]| == 1
    decreases |s|
  {
    if s != [] && IsWs(s[0]) {
      IsolatedSuffix(s, 1);
      SplitWsIsolated(s[1..]);
    } else if s != [] {
      var w := TakeWord(s);
      IsolatedSuffix(s, |w|);
      SplitWsIsolated(s[|w|..]);
      TakeWordNoWs(s);
      TakeWordStops(s);
      assert forall k :: 0 <= k < |w| ==> s[k] == w[k] && !IsWs(s[k]);
      forall j | 0 < j < |w| ensures !IsSeparated(s[j]) {
        assert !IsWs(s[j - 1]);
      }
      forall j | 0 <= j < |w| - 1 ensures !IsSeparated(s[j]) {
        assert !IsWs(s[j + 1]);
      }
      assert forall j :: 0 <= j < |w| && IsSeparated(w[j]) ==> |w| == 1;
      var ts := SplitWs(s);
      assert ts[0] == w && ts[1..] == SplitWs(s[|w|..]);
      assert forall i :: 1 <= i < |ts| ==> ts[i] == SplitWs(s[|w|..])[i - 1];
    }
  }

  /** hw01:41-43: no token is empty or holds whitespace, and the tokens
      written one after the other are the text without its whitespace. */
  lemma TokenizeTextSolid(text: string)
    ensures Solids(TokenizeText(text))
    ensures Concat(TokenizeText(text)) == Solid(text)
  {
    SplitWsTokens(Spaced(text));
    SplitWsSolid(Spaced(text));
    SpacedSolid(text);
  }

  /** hw01:36-41: a separated punctuation character is always a token of its
      own. */
  lemma TokenizeTextPunctuation(text: string)
    ensures forall i, j ::
              (0 <= i < |TokenizeText(text)| && 0 <= j < |TokenizeText(text)[i]| && IsSeparated(TokenizeText(text)[i][j])) ==>
              TokenizeText(text)[i] == [TokenizeText(text)[i][j]]
  {
    var s := Spaced(text);
    SpacedEnclosed(text);
    assert Isolated(s);
    SplitWsIsolated(s);
  }

  /** A word with no whitespace and no separated character, such as one
      holding an apostrophe, stays one token. */
  lemma TokenizeWord(w: string)
    requires w != [] && NoWs(w) && forall i :: 0 <= i < |w| ==> !IsSeparated(w[i])
    ensures TokenizeText(w) == [w]
  {
    SpacedPlain(w);
    TakeWordAll(w);
    assert !IsWs(w[0]);
    assert w[|w|..] == [];
    assert SplitWs(w) == [w] + SplitWs([]);
  }

  /** Spacing out works character by character. */
  lemma {:induction false} SpacedAppend(a: string, b: string)
    ensures Spaced(a + b) == Spaced(a) + Spaced(b)
  {
    if a == [] {
      assert a + b == b;
    } else {
      assert (a + b)[0] == a[0] && (a + b)[1..] == a[1..] + b;
      SpacedAppend(a[1..], b);
    }
  }

  /** A word never runs past a whitespace character. */
  lemma {:induction false} TakeWordWs(a: string, c: char, b: string)
    requires IsWs(c)
    ensures TakeWord(a + [c] + b) == TakeWord(a)
  {
    if a == [] {
      assert a + [c] + b == [c] + b;
    } else {
      assert (a + [c] + b)[0] == a[0] && (a + [c] + b)[1..] == a[1..] + [c] + b;
      if !IsWs(a[0]) {
        TakeWordWs(a[1..], c, b);
      }
    }
  }

  /** `str.split()` splits independently on both sides of a whitespace
      character. */
  lemma {:induction false} SplitWsAt(a: string, c: char, b: string)
    requires IsWs(c)
    ensures SplitWs(a + [c] + b) == SplitWs(a) + SplitWs(b)
    decreases |a|
  {
    if a == [] {
      assert a + [c] + b == [c] + b && ([c] + b)[1..] == b;
    } else if IsWs(a[0]) {
      SplitWsSkipAt(a, c, b);
      SplitWsAt(a[1..], c, b);
    } else {
      var w := TakeWord(a);
      SplitWsWordAt(a, c, b);
      SplitWsAt(a[|w|..], c, b);
    }
  }

  /** One whitespace step of `SplitWsAt`. */
  lemma SplitWsSkipAt(a: string, c: char, b: string)
    requires IsWs(c) && a != [] && IsWs(a[0])
    ensures SplitWs(a + [c] + b) == SplitWs(a[1..] + [c] + b)
  {
    var s := a + [c] + b;
    assert s[0] == a[0] && s[1..] == a[1..] + [c] + b;
  }

  /** One word step of `SplitWsAt`. */
  lemma SplitWsWordAt(a: string, c: char, b: string)
    requires IsWs(c) && a != [] && !IsWs(a[0])
    ensures SplitWs(a + [c] + b) == [TakeWord(a)] + SplitWs(a[|TakeWord(a)|..] + [c] + b)
  {
    var s := a + [c] + b;
    var w := TakeWord(a);
    TakeWordWs(a, c, b);
    assert s[0] == a[0] && s[|w|..] == a[|w|..] + [c] + b;
  }

  /** Tokenizing splits independently on both sides of a whitespace
      character: what a token is never depends on text beyond the
      whitespace around it. */
  lemma TokenizeTextAt(a: string, c: char, b: string)
    requires IsWs(c)
    ensures TokenizeText(a + [c] + b) == TokenizeText(a) + TokenizeText(b)
  {
    assert !IsSeparated(c);
    assert Spaced([c]) == [c] + Spaced([]) == [c];
    SpacedAppend(a + [c], b);
    SpacedAppend(a, [c]);
    assert Spaced(a + [c] + b) == Spaced(a) + [c] + Spaced(b);
    SplitWsAt(Spaced(a), c, Spaced(b));
  }

  /** hw01:36-43: a word with no whitespace and no separated character, such
      as one holding an apostrophe, is one token wherever it stands between
      whitespace: "don't" inside "I don't know" is not split. */
  lemma TokenizeWordInside(a: string, c1: char, w: string, c2: char, b: string)
    requires IsWs(c1) && IsWs(c2)
    requires w != [] && NoWs(w) && forall i :: 0 <= i < |w| ==> !IsSeparated(w[i])
    ensures TokenizeText(a + [c1] + w + [c2] + b) == TokenizeText(a) + [w] + TokenizeText(b)
  {
    assert a + [c1] + w + [c2] + b == a + [c1] + (w + [c2] + b);
    TokenizeTextAt(a, c1, w + [c2] + b);
    TokenizeTextAt(w, c2, b);
    TokenizeWord(w);
  }

  lemma {:induction false} SpacedPlain(w: string)
    requires forall i :: 0 <= i < |w| ==> !IsSeparated(w[i])
    ensures Spaced(w) == w
  {
    if w != [] {
      SpacedPlain(w[1..]);
    }
  }

  lemma {:induction false} TakeWordAll(w: string)
    requires NoWs(w)
    ensures TakeWord(w) == w
  {
    if w != [] {
      TakeWordAll(w[1..]);
    }
  }

  /** A word followed by whitespace or nothing is taken whole. */
  lemma {:induction false} TakeWordPrefix(w: string, s: string)
    requires NoWs(w) && (s == [] || IsWs(s[0]))
    ensures TakeWord(w + s) == w
  {
    if w == [] {
      assert w + s == s;
    } else {
      assert (w + s)[1..] == w[1..] + s;
      TakeWordPrefix(w[1..], s);
    }
  }

  /** Splitting undoes joining: `" ".join(ts).split() == ts` for tokens that
      are non-empty and free of whitespace. */
  lemma {:induction false} SplitJoin(ts: seq<string>)
    requires Solids(ts)
    ensures SplitWs(Join(ts)) == ts
  {
    if ts == [] {
    } else if |ts| == 1 {
      var w := ts[0];
      assert Join(ts) == w;
      TakeWordAll(w);
      assert w[|w|..] == [];
    } else {
      var w := ts[0];
      var rest := " " + Join(ts[1..]);
      assert Join(ts) == w + rest;
      TakeWordPrefix(w, rest);
      assert (w + rest)[|w|..] == rest;
      assert rest[1..] == Join(ts[1..]);
      SplitJoin(ts[1..]);
    }
  }

  // ---------------------------------------------------------------------
  // Counting (hw01:46-55).

  /** Every token in lower case. */
  function LowerAll(tokens: seq<string>): seq<string>
  {
    seq(|tokens|, i requires 0 <= i < |tokens| => Lower(tokens[i]))
  }

  predicate NoUpper(s: string)
  {
    forall i :: 0 <= i < |s| ==> !IsUpper(s[i])
  }

  /** hw01:46-55. */
  method CountWords(tokens: seq<string>) returns (counts: WordDict)
    ensures counts == Tally(LowerAll(tokens))
  {
    counts := [];
    for i := 0 to |tokens|
      invariant counts == Tally(LowerAll(tokens[..i]))
    {
      var tokenLower := Lower(tokens[i]);
      counts := Put<string, nat>(counts, tokenLower, Count(counts, tokenLower) + 1);
      assert LowerAll(tokens[..i + 1]) == LowerAll(tokens[..i]) + [tokenLower];
      assert LowerAll(tokens[..i + 1])[..i] == LowerAll(tokens[..i]);
    }
    assert tokens[..|tokens|] == tokens;
  }

  /** The word counts of a token list: distinct keys, all in lower case, each
      counting the tokens whose lower-case form it is, summing to the number
      of tokens. */
  lemma CountWordsShape(tokens: seq<string>)
    ensures DistinctKeys(Tally(LowerAll(tokens))) && Positive(Tally(LowerAll(tokens)))
    ensures Total(Tally(LowerAll(tokens))) == |tokens|
    ensures forall k :: k in Keys(Tally(LowerAll(tokens))) ==> NoUpper(k)
    ensures forall k :: Count(Tally(LowerAll(tokens)), k) == multiset(LowerAll(tokens))[k]
  {
    var ws := LowerAll(tokens);
    AddEachShape([], ws);
    forall k ensures Count(Tally(ws), k) == multiset(ws)[k] {
      AddEachCount([], ws, k);
    }
    forall k | k in Keys(Tally(ws)) ensures NoUpper(k) {
      var i :| 0 <= i < |ws| && ws[i] == k;
      assert k == Lower(tokens[i]);
    }
  }

  // ---------------------------------------------------------------------
  // The listing (hw01:72-97).

  /** `punctuation_set`: one ASCII punctuation character, or a curly quote. */
  predicate IsPunctKey(k: string)
  {
    (|k| == 1 && IsAsciiPunct(k[0])) || k == "\U{201C}" || k == "\U{201D}" || k == "\U{2018}" || k == "\U{2019}"
  }

  /** hw01:76: the counts summed over the keys that are not punctuation. */
  function WordTotal(d: WordDict): nat
  {
    if d == [] then 0
    else (if IsPunctKey(d[0].0) then 0 else d[0].1) + WordTotal(d[1..])
  }

  /** The tokens that are not punctuation. */
  function Words(ws: seq<string>): seq<string>
  {
    if ws == [] then []
    else Words(ws[..|ws| - 1]) + if IsPunctKey(ws[|ws| - 1]) then [] else [ws[|ws| - 1]]
  }

  lemma {:induction false} WordTotalPut(d: WordDict, k: string, v: nat)
    ensures WordTotal(Put(d, k, v)) + (if IsPunctKey(k) then 0 else Count(d, k)) ==
            WordTotal(d) + if IsPunctKey(k) then 0 else v
  {
    if d != [] && d[0].0 != k {
      WordTotalPut(d[1..], k, v);
    }
  }

  /** Counting more tokens adds the number of non-punctuation ones. */
  lemma {:induction false} WordTotalAddEach(d: WordDict, ws: seq<string>)
    ensures WordTotal(AddEach(d, ws)) == WordTotal(d) + |Words(ws)|
  {
    if ws != [] {
      var init, k := ws[..|ws| - 1], ws[|ws| - 1];
      WordTotalAddEach(d, init);
      WordTotalPut(AddEach(d, init), k, Count(AddEach(d, init), k) + 1);
    }
  }

  /** `total_word_count` is the number of tokens whose lower-case form is
      not punctuation. */
  lemma WordTotalOfTokens(tokens: seq<string>)
    ensures WordTotal(Tally(LowerAll(tokens))) == |Words(LowerAll(tokens))|
  {
    WordTotalAddEach([], LowerAll(tokens));
  }

  /** Counts never increase from one entry to the next. */
  predicate SortedByCount(s: WordDict)
  {
    forall i :: 0 <= i < |s| - 1 ==> s[i].1 >= s[i + 1].1
  }

  /** `x` placed after every entry whose count is at least its own. */
  function Insert(s: WordDict, x: (string, nat)): WordDict
  {
    if s == [] then [x]
    else if s[0].1 >= x.1 then [s[0]] + Insert(s[1..], x)
    else [x] + s
  }

  /** hw01:80, `sorted(word_counts.items(), key=lambda item: item[1],
      reverse=True)`: Python's sort is stable, also when reversed. */
  function SortByCount(d: WordDict): WordDict
  {
    if d == [] then [] else Insert(SortByCount(d[..|d| - 1]), d[|d| - 1])
  }

  /** The entries with count `c`, in order. */
  function WithCount(c: nat, s: WordDict): WordDict
  {
    if s == [] then [] else (if s[0].1 == c then [s[0]] else []) + WithCount(c, s[1..])
  }

  lemma {:induction false} WithCountAppend(c: nat, a: WordDict, b: WordDict)
    ensures WithCount(c, a + b) == WithCount(c, a) + WithCount(c, b)
  {
    if a == [] {
      assert a + b == b;
    } else {
      var head := if a[0].1 == c then [a[0]] else [];
      assert (a + b)[0] == a[0];
      assert (a + b)[1..] == a[1..] + b;
      WithCountAppend(c, a[1..], b);
      assert WithCount(c, a + b) == head + WithCount(c, a[1..] + b);
      assert WithCount(c, a) == head + WithCount(c, a[1..]);
    }
  }

  lemma ConsSorted(e: (string, nat), t: WordDict)
    requires SortedByCount(t) && (t == [] || e.1 >= t[0].1)
    ensures SortedByCount([e] + t)
  {
    var r := [e] + t;
    forall i | 0 <= i < |r| - 1 ensures r[i].1 >= r[i + 1].1 {
      if i > 0 {
        assert r[i] == t[i - 1] && r[i + 1] == t[i];
      }
    }
  }

  lemma {:induction false} InsertSorted(s: WordDict, x: (string, nat))
    requires SortedByCount(s)
    ensures SortedByCount(Insert(s, x))
    ensures Insert(s, x)[0] == x || (s != [] && Insert(s, x)[0] == s[0])
  {
    if s == [] {
    } else if s[0].1 >= x.1 {
      var t := Insert(s[1..], x);
      assert SortedByCount(s[1..]);
      InsertSorted(s[1..], x);
      if |s| > 1 {
        assert s[0].1 >= s[1].1;
      }
      ConsSorted(s[0], t);
    } else {
      ConsSorted(x, s);
    }
  }

  lemma {:induction false} InsertPerm(s: WordDict, x: (string, nat))
    ensures multiset(Insert(s, x)) == multiset(s) + multiset{x}
  {
    if s != [] && s[0].1 >= x.1 {
      InsertPerm(s[1..], x);
      assert s == [s[0]] + s[1..];
    }
  }

  lemma {:induction false} SortedBelow(c: nat, s: WordDict)
    requires SortedByCount(s) && s != [] && s[0].1 < c
    ensures WithCount(c, s) == []
  {
    if |s| > 1 {
      assert SortedByCount(s[1..]);
      SortedBelow(c, s[1..]);
    }
  }

  lemma {:induction false} InsertStable(c: nat, s: WordDict, x: (string, nat))
    requires SortedByCount(s)
    ensures WithCount(c, Insert(s, x)) == WithCount(c, s) + if x.1 == c then [x] else []
  {
    if s == [] {
      assert WithCount(c, [x]) == (if x.1 == c then [x] else []) + WithCount(c, []);
    } else if s[0].1 >= x.1 {
      var t := Insert(s[1..], x);
      assert SortedByCount(s[1..]);
      InsertStable(c, s[1..], x);
      assert ([s[0]] + t)[1..] == t;
    } else {
      assert ([x] + s)[1..] == s;
      if x.1 == c {
        SortedBelow(c, s);
      }
    }
  }

  lemma {:induction false} SortByCountSorted(d: WordDict)
    ensures SortedByCount(SortByCount(d))
  {
    if d != [] {
      SortByCountSorted(d[..|d| - 1]);
      InsertSorted(SortByCount(d[..|d| - 1]), d[|d| - 1]);
    }
  }

  lemma {:induction false} SortByCountPerm(d: WordDict)
    ensures multiset(SortByCount(d)) == multiset(d)
  {
    if d != [] {
      var init, x := d[..|d| - 1], d[|d| - 1];
      SortByCountPerm(init);
      InsertPerm(SortByCount(init), x);
      assert d == init + [x];
    }
  }

  lemma {:induction false} SortByCountStable(d: WordDict, c: nat)
    ensures WithCount(c, SortByCount(d)) == WithCount(c, d)
  {
    if d != [] {
      var init, x := d[..|d| - 1], d[|d| - 1];
      SortByCountStable(init, c);
      SortByCountSorted(init);
      assert d == init + [x];
      InsertStableStep(c, init, SortByCount(init), x);
    }
  }

  /** The step of `SortByCountStable`: inserting the last entry into a sorted
      listing that already agrees with `init`. */
  lemma InsertStableStep(c: nat, init: WordDict, sorted: WordDict, x: (string, nat))
    requires SortedByCount(sorted) && WithCount(c, sorted) == WithCount(c, init)
    ensures WithCount(c, Insert(sorted, x)) == WithCount(c, init + [x])
  {
    InsertStable(c, sorted, x);
    WithCountAppend(c, init, [x]);
    WithCountOne(c, x);
  }

  lemma WithCountOne(c: nat, x: (string, nat))
    ensures WithCount(c, [x]) == if x.1 == c then [x] else []
  {
    assert [x][1..] == [];
  }

  /** The sorted listing is in non-increasing count order, holds exactly the
      entries of `d`, and keeps entries of equal count in their order in `d`. */
  lemma SortByCountSpec(d: WordDict)
    ensures SortedByCount(SortByCount(d))
    ensures multiset(SortByCount(d)) == multiset(d)
    ensures forall c :: WithCount(c, SortByCount(d)) == WithCount(c, d)
  {
    SortByCountSorted(d);
    SortByCountPerm(d);
    forall c ensures WithCount(c, SortByCount(d)) == WithCount(c, d) {
      SortByCountStable(d, c);
    }
  }

  /** The entries whose key is not punctuation, in order. */
  function NonPunct(s: WordDict): WordDict
  {
    if s == [] then []
    else NonPunct(s[..|s| - 1]) + if IsPunctKey(s[|s| - 1].0) then [] else [s[|s| - 1]]
  }

  /** The first `k` entries, or all of them when there are fewer. */
  function Take(s: WordDict, k: nat): WordDict
  {
    if |s| <= k then s else s[..k]
  }

  /** hw01:86-97: the entries printed, in order. */
  method SelectTop(sortedWords: WordDict) returns (listing: WordDict)
    ensures listing == Take(NonPunct(sortedWords), 10)
  {
    listing := [];
    var printedEntries := 0;
    for i := 0 to |sortedWords|
      invariant printedEntries == |listing| < 10
      invariant listing == NonPunct(sortedWords[..i])
    {
      var (token, count) := sortedWords[i];
      assert sortedWords[..i + 1][..i] == sortedWords[..i];
      if IsPunctKey(token) {
        continue;
      }
      listing := listing + [(token, count)];
      printedEntries := printedEntries + 1;
      if printedEntries >= 10 {
        NonPunctPrefix(sortedWords, i + 1);
        return;
      }
    }
    assert sortedWords[..|sortedWords|] == sortedWords;
  }

  lemma {:induction false} NonPunctPrefix(s: WordDict, i: nat)
    requires i <= |s|
    ensures NonPunct(s[..i]) <= NonPunct(s)
    decreases |s| - i
  {
    if i < |s| {
      NonPunctPrefix(s, i + 1);
      assert s[..i + 1][..i] == s[..i];
    } else {
      assert s[..i] == s;
    }
  }

  lemma {:induction false} NonPunctClean(s: WordDict)
    ensures forall i :: 0 <= i < |NonPunct(s)| ==> !IsPunctKey(NonPunct(s)[i].0)
  {
    if s != [] {
      NonPunctClean(s[..|s| - 1]);
    }
  }

  lemma {:induction false} NonPunctSorted(s: WordDict)
    requires SortedByCount(s)
    ensures SortedByCount(NonPunct(s))
  {
    if s != [] {
      var init := s[..|s| - 1];
      assert SortedByCount(init);
      NonPunctSorted(init);
      if NonPunct(init) != [] && !IsPunctKey(s[|s| - 1].0) {
        var e := NonPunct(init)[|NonPunct(init)| - 1];
        assert e in multiset(NonPunct(init));
        NonPunctCount(init, e);
        assert e in init;
        SortedTail(s, e);
      }
    }
  }

  /** In a sorted list, every entry before the last has at least its count. */
  lemma SortedTail(s: WordDict, e: (string, nat))
    requires SortedByCount(s) && s != [] && e in s[..|s| - 1]
    ensures e.1 >= s[|s| - 1].1
  {
    var j :| 0 <= j < |s| - 1 && s[j] == e;
    SortedFrom(s, j);
  }

  lemma {:induction false} SortedFrom(s: WordDict, j: nat)
    requires SortedByCount(s) && j < |s|
    ensures s[j].1 >= s[|s| - 1].1
    decreases |s| - j
  {
    if j < |s| - 1 {
      SortedFrom(s, j + 1);
    }
  }

  /** hw01:80-97: the listing has at most ten entries, no punctuation key,
      counts in non-increasing order, only entries of the word counts, and as
      many entries as there are non-punctuation words, up to ten. */
  lemma TopListing(d: WordDict)
    ensures |Take(NonPunct(SortByCount(d)), 10)| <= 10
    ensures forall i :: 0 <= i < |Take(NonPunct(SortByCount(d)), 10)| ==> !IsPunctKey(Take(NonPunct(SortByCount(d)), 10)[i].0)
    ensures SortedByCount(Take(NonPunct(SortByCount(d)), 10))
    ensures forall e :: e in Take(NonPunct(SortByCount(d)), 10) ==> e in d
    ensures |Take(NonPunct(SortByCount(d)), 10)| == if |NonPunct(d)| <= 10 then |NonPunct(d)| else 10
  {
    var s := SortByCount(d);
    SortByCountSpec(d);
    NonPunctClean(s);
    NonPunctSorted(s);
    NonPunctPerm(s, d);
    var np := NonPunct(s);
    var t := Take(np, 10);
    forall e | e in t ensures e in d {
      assert e in multiset(np);
      NonPunctCount(s, e);
      assert e in multiset(d);
    }
  }

  /** A sorted list is in non-increasing count order between any two positions. */
  lemma {:induction false} SortedAt(s: WordDict, i: nat, j: nat)
    requires SortedByCount(s) && i <= j < |s|
    ensures s[i].1 >= s[j].1
    decreases j - i
  {
    if i < j {
      SortedAt(s, i + 1, j);
    }
  }

  /** hw01:18, 82: the listing holds the most frequent words. A
      non-punctuation entry of `d` left out of the listing has a count no
      larger than that of any listed entry. */
  lemma TopListingIsTop(d: WordDict)
    ensures forall e, l ::
              (e in d && !IsPunctKey(e.0) && e !in Take(NonPunct(SortByCount(d)), 10)
               && l in Take(NonPunct(SortByCount(d)), 10)) ==> e.1 <= l.1
  {
    forall e, l | e in d && !IsPunctKey(e.0) && e !in Take(NonPunct(SortByCount(d)), 10)
                  && l in Take(NonPunct(SortByCount(d)), 10)
      ensures e.1 <= l.1
    {
      LeftOutBelow(d, e, l);
    }
  }

  lemma LeftOutBelow(d: WordDict, e: (string, nat), l: (string, nat))
    requires e in d && !IsPunctKey(e.0) && e !in Take(NonPunct(SortByCount(d)), 10)
    requires l in Take(NonPunct(SortByCount(d)), 10)
    ensures e.1 <= l.1
  {
    var s := SortByCount(d);
    SortByCountSpec(d);
    NonPunctSorted(s);
    var np := NonPunct(s);
    NonPunctCount(s, e);
    assert e in multiset(d);
    assert e in multiset(np);
    var j :| 0 <= j < |np| && np[j] == e;
    var i :| 0 <= i < |Take(np, 10)| && Take(np, 10)[i] == l;
    assert j >= 10;
    assert np[i] == l;
    SortedAt(np, i, j);
  }

  /** The non-punctuation part counts each entry as often as the list does,
      unless its key is punctuation. */
  lemma {:induction false} NonPunctCount(s: WordDict, e: (string, nat))
    ensures multiset(NonPunct(s))[e] == if IsPunctKey(e.0) then 0 else multiset(s)[e]
  {
    if s != [] {
      NonPunctCount(s[..|s| - 1], e);
      assert s == s[..|s| - 1] + [s[|s| - 1]];
    }
  }

  /** Permuted lists have permuted non-punctuation parts. */
  lemma NonPunctPerm(s: WordDict, d: WordDict)
    requires multiset(s) == multiset(d)
    ensures multiset(NonPunct(s)) == multiset(NonPunct(d))
    ensures |NonPunct(s)| == |NonPunct(d)|
  {
    var ms, md := multiset(NonPunct(s)), multiset(NonPunct(d));
    forall e ensures ms[e] == md[e] {
      NonPunctCount(s, e);
      NonPunctCount(d, e);
    }
    assert ms == md;
    assert |ms| == |NonPunct(s)| && |md| == |NonPunct(d)|;
  }

  /** hw01:58-97 without reading the file and printing: the total number of
      non-punctuation tokens, and the listed entries, each a lower-case word
      that is not punctuation together with the number of tokens that are
      that word once lower-cased. */
  method WordReport(text: string) returns (total: nat, listing: WordDict)
    ensures total == |Words(LowerAll(TokenizeText(text)))|
    ensures listing == Take(NonPunct(SortByCount(Tally(LowerAll(TokenizeText(text))))), 10)
    ensures |listing| <= 10 && SortedByCount(listing)
    ensures forall i :: 0 <= i < |listing| ==>
              && !IsPunctKey(listing[i].0) && NoUpper(listing[i].0)
              && listing[i].1 == multiset(LowerAll(TokenizeText(text)))[listing[i].0] >= 1
    ensures forall w, i ::
              (w in LowerAll(TokenizeText(text)) && !IsPunctKey(w) && w !in Keys(listing)
               && 0 <= i < |listing|) ==> multiset(LowerAll(TokenizeText(text)))[w] <= listing[i].1
  {
    var tokens := TokenizeText(text);
    var wordCounts := CountWords(tokens);
    total := WordTotal(wordCounts);
    WordTotalOfTokens(tokens);
    var sortedWords := SortByCount(wordCounts);
    listing := SelectTop(sortedWords);
    TopListing(wordCounts);
    CountWordsShape(tokens);
    forall i | 0 <= i < |listing|
      ensures NoUpper(listing[i].0)
      ensures listing[i].1 == multiset(LowerAll(tokens))[listing[i].0] >= 1
    {
      var e := listing[i];
      assert e in listing;
      var j :| 0 <= j < |wordCounts| && wordCounts[j] == e;
      LookupAt(wordCounts, j);
      KeysAt(wordCounts);
      assert e.0 == Keys(wordCounts)[j];
    }
    TopWords(tokens);
  }

  /** hw01:18, 82 for a token list: a non-punctuation word left out of the
      listing occurs no more often than any listed word. */
  lemma TopWords(tokens: seq<string>)
    ensures forall w, i ::
              (w in LowerAll(tokens) && !IsPunctKey(w)
               && w !in Keys(Take(NonPunct(SortByCount(Tally(LowerAll(tokens)))), 10))
               && 0 <= i < |Take(NonPunct(SortByCount(Tally(LowerAll(tokens)))), 10)|)
              ==> multiset(LowerAll(tokens))[w] <= Take(NonPunct(SortByCount(Tally(LowerAll(tokens)))), 10)[i].1
  {
    var d := Tally(LowerAll(tokens));
    var listing := Take(NonPunct(SortByCount(d)), 10);
    CountWordsShape(tokens);
    TopListingIsTop(d);
    forall w, i | w in LowerAll(tokens) && !IsPunctKey(w) && w !in Keys(listing) && 0 <= i < |listing|
      ensures multiset(LowerAll(tokens))[w] <= listing[i].1
    {
      UnlistedWord(d, listing, w);
      assert listing[i] in listing;
    }
  }

  /** A word counted in `d` but not listed has its entry in `d` and not in
      the listing. */
  lemma UnlistedWord(d: WordDict, listing: WordDict, w: string)
    requires DistinctKeys(d) && Count(d, w) >= 1 && w !in Keys(listing)
    ensures (w, Count(d, w)) in d && (w, Count(d, w)) !in listing
  {
    var j :| 0 <= j < |d| && d[j].0 == w by {
      KeysAt(d);
    }
    LookupAt(d, j);
    KeysAt(listing);
  }
}
