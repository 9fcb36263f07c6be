/**
 * The formatting chain the improved n-gram program applies to a generated
 * sentence after joining its tokens with spaces (a.py:196-211). Each regular
 * expression substitution is a function over the string; the chain as a
 * whole removes whitespace before closing punctuation, collapses runs of
 * whitespace and capitalises the first letter.
 */
module SentenceFormat {
  import opened Text

  /** The class `[,.;:?!]`. */
  const ClosingPunct: set<char> := {',', '.', ';', ':', '?', '!'}

  /** A double quotation mark, alone. */
  const Quote: set<char> := {'"'}

  /** A set of visible characters (one a whitespace run can precede). */
  predicate Visible(P: set<char>)
  {
    forall c :: c in P ==> !IsWs(c)
  }

  // ---------------------------------------------------------------------
  // The rewrites.

  /** The first non-whitespace character of `s` exists and belongs to `P`. */
  predicate LeadsInto(s: string, P: set<char>)
  {
    var r := DropLeadingWs(s);
    r != [] && r[0] in P
  }

  /** `re.sub(r'\s+([...])', r'\1', s)` for the characters `P`: every
      whitespace run directly followed by a character of `P` is deleted. */
  function DropWsBefore(s: string, P: set<char>): string
  {
    if s == [] then []
    else if IsWs(s[0]) && LeadsInto(s, P) then DropWsBefore(s[1..], P)
    else [s[0]] + DropWsBefore(s[1..], P)
  }

  /** `re.sub(r'"\s+', '"', s)`: every whitespace run directly after a `"`
      is deleted; `afterQuote` says that the text already consumed ends with
      a `"` and then whitespace only. */
  function DropWsAfterQuote(s: string, afterQuote: bool): string
  {
    if s == [] then []
    else if IsWs(s[0]) then
      (if afterQuote then [] else [s[0]]) + DropWsAfterQuote(s[1..], afterQuote)
    else [s[0]] + DropWsAfterQuote(s[1..], s[0] == '"')
  }

  /** The string starts with two backquotes or two apostrophes. */
  predicate StartsWithQuotePair(s: string)
  {
    |s| >= 2 && s[0] == s[1] && (s[0] == '`' || s[0] == '\'')
  }

  /** `re.sub(r'``|\'\'', '"', s)`: scanning left to right, each pair of
      backquotes or of apostrophes becomes one `"`. */
  function ReplaceQuotePairs(s: string): string
  {
    if s == [] then []
    else if StartsWithQuotePair(s) then "\"" + ReplaceQuotePairs(s[2..])
    else [s[0]] + ReplaceQuotePairs(s[1..])
  }

  /** `re.sub(r'\s{2,}', ' ', s)`: every run of two or more whitespace
      characters becomes one space; a lone whitespace character stays. */
  function CollapseWs(s: string): string
    decreases |s|
  {
    if s == [] then []
    else if IsWs(s[0]) then
      var rest := DropLeadingWs(s);
      (if |s| - |rest| >= 2 then " " else [s[0]]) + CollapseWs(rest)
    else [s[0]] + CollapseWs(s[1..])
  }

  /** `generated[0].upper() + generated[1:]` when `generated[0].islower()`. */
  function Capitalize(s: string): string
  {
    if s != [] && IsLower(s[0]) then [ToUpper(s[0])] + s[1..] else s
  }

  /** The whole chain, in the order of a.py:197-211. */
  function Polish(s: string): string
  {
    Capitalize(CollapseWs(ReplaceQuotePairs(DropWsBefore(DropWsAfterQuote(DropWsBefore(s, ClosingPunct), false), Quote))))
  }

  // ---------------------------------------------------------------------
  // What the rewrites guarantee.

  /** No whitespace character is directly followed by a character of `P`. */
  predicate NoWsBefore(s: string, P: set<char>)
  {
    forall i :: 0 <= i < |s| - 1 && IsWs(s[i]) ==> s[i + 1] !in P
  }

  /** No two whitespace characters are adjacent. */
  predicate NoDoubleWs(s: string)
  {
    forall i :: 0 <= i < |s| - 1 && IsWs(s[i]) ==> !IsWs(s[i + 1])
  }

  /** No two backquotes or two apostrophes are adjacent. */
  predicate NoQuotePairs(s: string)
  {
    forall i :: 0 <= i < |s| ==> !StartsWithQuotePair(s[i..])
  }

  lemma ConsNoWsBefore(c: char, t: string, P: set<char>)
    ensures NoWsBefore([c] + t, P) <==> NoWsBefore(t, P) && (t != [] && IsWs(c) ==> t[0] !in P)
  {
    var s := [c] + t;
    if NoWsBefore(t, P) && (t != [] && IsWs(c) ==> t[0] !in P) {
      forall i | 0 <= i < |s| - 1 && IsWs(s[i]) ensures s[i + 1] !in P {
        if i > 0 {
          assert s[i] == t[i - 1] && s[i + 1] == t[i];
        }
      }
    }
    if NoWsBefore(s, P) {
      forall i | 0 <= i < |t| - 1 && IsWs(t[i]) ensures t[i + 1] !in P {
        assert s[i + 1] == t[i] && s[i + 2] == t[i + 1];
      }
      if t != [] && IsWs(c) {
        assert s[0] == c && s[1] == t[0];
      }
    }
  }

  lemma ConsNoDoubleWs(c: char, t: string)
    ensures NoDoubleWs([c] + t) <==> NoDoubleWs(t) && (t != [] && IsWs(c) ==> !IsWs(t[0]))
  {
    var s := [c] + t;
    if NoDoubleWs(t) && (t != [] && IsWs(c) ==> !IsWs(t[0])) {
      forall i | 0 <= i < |s| - 1 && IsWs(s[i]) ensures !IsWs(s[i + 1]) {
        if i > 0 {
          assert s[i] == t[i - 1] && s[i + 1] == t[i];
        }
      }
    }
    if NoDoubleWs(s) {
      forall i | 0 <= i < |t| - 1 && IsWs(t[i]) ensures !IsWs(t[i + 1]) {
        assert s[i + 1] == t[i] && s[i + 2] == t[i + 1];
      }
      if t != [] && IsWs(c) {
        assert s[0] == c && s[1] == t[0];
      }
    }
  }

  lemma ConsNoQuotePairs(c: char, t: string)
    ensures NoQuotePairs([c] + t) <==> NoQuotePairs(t) && !StartsWithQuotePair([c] + t)
  {
    var s := [c] + t;
    assert s[0..] == s;
    if NoQuotePairs(t) && !StartsWithQuotePair(s) {
      forall i | 0 <= i < |s| ensures !StartsWithQuotePair(s[i..]) {
        if i > 0 {
          assert s[i..] == t[i - 1..];
        }
      }
    }
    if NoQuotePairs(s) {
      forall j | 0 <= j < |t| ensures !StartsWithQuotePair(t[j..]) {
        assert t[j..] == s[j + 1..];
      }
    }
  }

  lemma NoWsBeforeSuffix(s: string, k: nat, P: set<char>)
    requires k <= |s| && NoWsBefore(s, P)
    ensures NoWsBefore(s[k..], P)
  {
    assert forall i :: 0 <= i < |s| - k ==> s[k..][i] == s[k + i];
  }

  lemma SolidCons(c: char, t: string)
    ensures Solid([c] + t) == (if IsWs(c) then [] else [c]) + Solid(t)
  {
    assert ([c] + t)[1..] == t;
  }

  /** Skipping leading whitespace is the same from the second character on. */
  lemma LeadsIntoWs(s: string, P: set<char>)
    requires s != [] && IsWs(s[0])
    ensures LeadsInto(s, P) == LeadsInto(s[1..], P)
  {
  }

  /** The first deletion leaves no whitespace before a character of `P`. */
  lemma {:induction false} DropWsBeforeClears(s: string, P: set<char>)
    requires Visible(P)
    ensures NoWsBefore(DropWsBefore(s, P), P)
  {
    if s != [] {
      var t := s[1..];
      DropWsBeforeClears(t, P);
      if !(IsWs(s[0]) && LeadsInto(s, P)) {
        var o := DropWsBefore(t, P);
        ConsNoWsBefore(s[0], o, P);
        if IsWs(s[0]) && t != [] {
          LeadsIntoWs(s, P);
          assert o[0] == t[0];
        }
      }
    }
  }

  /** Deleting the whitespace before the characters of `P` keeps every other
      "no whitespace before" guarantee. */
  lemma {:induction false} DropWsBeforeKeeps(s: string, P: set<char>, R: set<char>)
    requires Visible(P) && Visible(R) && NoWsBefore(s, R)
    ensures NoWsBefore(DropWsBefore(s, P), R)
  {
    if s != [] {
      var t := s[1..];
      NoWsBeforeSuffix(s, 1, R);
      DropWsBeforeKeeps(t, P, R);
      if !(IsWs(s[0]) && LeadsInto(s, P)) {
        var o := DropWsBefore(t, P);
        ConsNoWsBefore(s[0], o, R);
        if IsWs(s[0]) && t != [] {
          LeadsIntoWs(s, P);
          assert o[0] == t[0];
        }
      }
    }
  }

  /** Only whitespace is deleted. */
  lemma {:induction false} DropWsBeforeSolid(s: string, P: set<char>)
    ensures Solid(DropWsBefore(s, P)) == Solid(s)
  {
    if s != [] {
      DropWsBeforeSolid(s[1..], P);
      SolidCons(s[0], s[1..]);
      assert s == [s[0]] + s[1..];
      if !(IsWs(s[0]) && LeadsInto(s, P)) {
        SolidCons(s[0], DropWsBefore(s[1..], P));
      }
    }
  }

  /** Deleting whitespace after quotes keeps "no whitespace before". */
  lemma {:induction false} DropWsAfterQuoteKeeps(s: string, afterQuote: bool, R: set<char>)
    requires Visible(R) && NoWsBefore(s, R)
    ensures NoWsBefore(DropWsAfterQuote(s, afterQuote), R)
  {
    if s != [] {
      var t := s[1..];
      NoWsBeforeSuffix(s, 1, R);
      var q := if IsWs(s[0]) then afterQuote else s[0] == '"';
      DropWsAfterQuoteKeeps(t, q, R);
      if !(IsWs(s[0]) && afterQuote) {
        ConsNoWsBefore(s[0], DropWsAfterQuote(t, q), R);
      }
    }
  }

  /** Only whitespace is deleted. */
  lemma {:induction false} DropWsAfterQuoteSolid(s: string, afterQuote: bool)
    ensures Solid(DropWsAfterQuote(s, afterQuote)) == Solid(s)
  {
    if s != [] {
      var q := if IsWs(s[0]) then afterQuote else s[0] == '"';
      DropWsAfterQuoteSolid(s[1..], q);
      SolidCons(s[0], s[1..]);
      assert s == [s[0]] + s[1..];
      if !(IsWs(s[0]) && afterQuote) {
        SolidCons(s[0], DropWsAfterQuote(s[1..], q));
      } else {
        assert DropWsAfterQuote(s, afterQuote) == DropWsAfterQuote(s[1..], q);
      }
    }
  }

  /** The result of replacing quote pairs starts with the input's first
      character or with the `"` that replaced a pair. */
  lemma ReplaceQuotePairsHead(s: string)
    requires s != []
    ensures ReplaceQuotePairs(s) != []
    ensures ReplaceQuotePairs(s)[0] == (if StartsWithQuotePair(s) then '"' else s[0])
  {
  }

  /** Replacing quote pairs by `"` keeps "no whitespace before". */
  lemma {:induction false} ReplaceQuotePairsKeeps(s: string, R: set<char>)
    requires Visible(R) && '"' !in R && NoWsBefore(s, R)
    ensures NoWsBefore(ReplaceQuotePairs(s), R)
  {
    if s != [] {
      if StartsWithQuotePair(s) {
        NoWsBeforeSuffix(s, 2, R);
        ReplaceQuotePairsKeeps(s[2..], R);
        ConsNoWsBefore('"', ReplaceQuotePairs(s[2..]), R);
      } else {
        var t := s[1..];
        NoWsBeforeSuffix(s, 1, R);
        ReplaceQuotePairsKeeps(t, R);
        ConsNoWsBefore(s[0], ReplaceQuotePairs(t), R);
        if t != [] {
          ReplaceQuotePairsHead(t);
        }
      }
    }
  }

  /** No pair of backquotes or apostrophes survives. */
  lemma {:induction false} ReplaceQuotePairsClears(s: string)
    ensures NoQuotePairs(ReplaceQuotePairs(s))
  {
    if s != [] {
      if StartsWithQuotePair(s) {
        ReplaceQuotePairsClears(s[2..]);
        ConsNoQuotePairs('"', ReplaceQuotePairs(s[2..]));
      } else {
        var t := s[1..];
        ReplaceQuotePairsClears(t);
        var o := ReplaceQuotePairs(t);
        ConsNoQuotePairs(s[0], o);
        if t != [] {
          ReplaceQuotePairsHead(t);
        }
      }
    }
  }

  /** Collapsing whitespace runs keeps "no whitespace before". */
  lemma {:induction false} CollapseWsKeeps(s: string, R: set<char>)
    requires Visible(R) && NoWsBefore(s, R)
    ensures NoWsBefore(CollapseWs(s), R)
    decreases |s|
  {
    if s != [] {
      if IsWs(s[0]) {
        var rest := DropLeadingWs(s);
        NoWsBeforeSuffix(s, |s| - |rest|, R);
        CollapseWsKeeps(rest, R);
        var c := if |s| - |rest| >= 2 then ' ' else s[0];
        assert (if |s| - |rest| >= 2 then " " else [s[0]]) == [c];
        ConsNoWsBefore(c, CollapseWs(rest), R);
        if rest != [] {
          DropLeadingWsSkipsWs(s);
          assert IsWs(s[|s| - |rest| - 1]);
        }
      } else {
        NoWsBeforeSuffix(s, 1, R);
        CollapseWsKeeps(s[1..], R);
        ConsNoWsBefore(s[0], CollapseWs(s[1..]), R);
      }
    }
  }

  /** After collapsing, no two whitespace characters are adjacent. */
  lemma {:induction false} CollapseWsClears(s: string)
    ensures NoDoubleWs(CollapseWs(s))
    decreases |s|
  {
    if s != [] {
      if IsWs(s[0]) {
        var rest := DropLeadingWs(s);
        CollapseWsClears(rest);
        var c := if |s| - |rest| >= 2 then ' ' else s[0];
        assert (if |s| - |rest| >= 2 then " " else [s[0]]) == [c];
        ConsNoDoubleWs(c, CollapseWs(rest));
      } else {
        CollapseWsClears(s[1..]);
        ConsNoDoubleWs(s[0], CollapseWs(s[1..]));
      }
    }
  }

  /** Only whitespace changes. */
  lemma {:induction false} CollapseWsSolid(s: string)
    ensures Solid(CollapseWs(s)) == Solid(s)
    decreases |s|
  {
    if s != [] {
      if IsWs(s[0]) {
        var rest := DropLeadingWs(s);
        CollapseWsSolid(rest);
        var c := if |s| - |rest| >= 2 then ' ' else s[0];
        assert (if |s| - |rest| >= 2 then " " else [s[0]]) == [c];
        SolidCons(c, CollapseWs(rest));
      } else {
        CollapseWsSolid(s[1..]);
        SolidCons(s[0], CollapseWs(s[1..]));
        SolidCons(s[0], s[1..]);
        assert s == [s[0]] + s[1..];
      }
    }
  }

  /** Capitalising changes at most the first character, from a lower-case
      to the matching upper-case letter. */
  lemma CapitalizeShape(s: string)
    ensures |Capitalize(s)| == |s| && (s != [] ==> Capitalize(s)[1..] == s[1..])
    ensures s != [] ==> !IsLower(Capitalize(s)[0])
    ensures s != [] && !IsLower(s[0]) ==> Capitalize(s) == s
  {
  }

  /** Capitalising keeps both spacing guarantees. */
  lemma CapitalizeKeeps(s: string, R: set<char>)
    requires NoWsBefore(s, R) && NoDoubleWs(s)
    ensures NoWsBefore(Capitalize(s), R) && NoDoubleWs(Capitalize(s))
  {
    if s != [] && IsLower(s[0]) {
      ConsNoWsBefore(s[0], s[1..], R);
      ConsNoWsBefore(ToUpper(s[0]), s[1..], R);
      ConsNoDoubleWs(s[0], s[1..]);
      ConsNoDoubleWs(ToUpper(s[0]), s[1..]);
      assert s == [s[0]] + s[1..];
    }
  }

  /** a.py:196-211: the formatted sentence has no whitespace directly before
      `, . ; : ? !`, no run of two or more whitespace characters, and does
      not start with a lower-case letter. */
  lemma PolishShape(s: string)
    ensures NoWsBefore(Polish(s), ClosingPunct)
    ensures NoDoubleWs(Polish(s))
    ensures Polish(s) != [] ==> !IsLower(Polish(s)[0])
  {
    var s1 := DropWsBefore(s, ClosingPunct);
    DropWsBeforeClears(s, ClosingPunct);
    var s2 := DropWsAfterQuote(s1, false);
    DropWsAfterQuoteKeeps(s1, false, ClosingPunct);
    var s3 := DropWsBefore(s2, Quote);
    DropWsBeforeKeeps(s2, Quote, ClosingPunct);
    var s4 := ReplaceQuotePairs(s3);
    ReplaceQuotePairsKeeps(s3, ClosingPunct);
    var s5 := CollapseWs(s4);
    CollapseWsKeeps(s4, ClosingPunct);
    CollapseWsClears(s4);
    CapitalizeKeeps(s5, ClosingPunct);
    CapitalizeShape(s5);
  }

  // ---------------------------------------------------------------------
  // How a sentence ends after formatting.

  /** The end a closing token `t` keeps once formatted: all of it, except
      that a newline after a closing `"` is deleted with the whitespace after
      quotes. */
  function PolishedEnd(t: string): (u: string)
    requires IsSentenceEnd(t)
    ensures IsSentenceEnd(u) && u[0] == t[0]
    ensures u == t || (u + "\n" == t && u[|u| - 1] == '"')
  {
    if |t| == 3 && t[1] == '"' then t[..2] else t
  }

  /** Every rewrite works from left to right, so the rewritten text ends with
      the rewritten end of the input. */
  lemma {:induction false} DropWsBeforeSuffix(a: string, u: string, P: set<char>)
    ensures EndsWith(DropWsBefore(a + u, P), DropWsBefore(u, P))
  {
    if a == [] {
      assert a + u == u;
    } else {
      var s := a + u;
      assert s[0] == a[0] && s[1..] == a[1..] + u;
      DropWsBeforeSuffix(a[1..], u, P);
      var chunk := if IsWs(s[0]) && LeadsInto(s, P) then [] else [s[0]];
      EndsWithPrepend(chunk, DropWsBefore(s[1..], P), DropWsBefore(u, P));
    }
  }

  lemma {:induction false} DropWsAfterQuoteSuffix(a: string, u: string, afterQuote: bool)
    requires u != [] && !IsWs(u[0])
    ensures EndsWith(DropWsAfterQuote(a + u, afterQuote), DropWsAfterQuote(u, false))
  {
    if a == [] {
      assert a + u == u;
    } else {
      var s := a + u;
      assert s[0] == a[0] && s[1..] == a[1..] + u;
      var q := if IsWs(s[0]) then afterQuote else s[0] == '"';
      DropWsAfterQuoteSuffix(a[1..], u, q);
      var chunk := if IsWs(s[0]) && afterQuote then [] else [s[0]];
      EndsWithPrepend(chunk, DropWsAfterQuote(s[1..], q), DropWsAfterQuote(u, false));
    }
  }

  lemma {:induction false} ReplaceQuotePairsSuffix(a: string, u: string)
    requires u != [] && u[0] != '`' && u[0] != '\''
    ensures EndsWith(ReplaceQuotePairs(a + u), ReplaceQuotePairs(u))
    decreases |a|
  {
    var s := a + u;
    if a == [] {
      assert s == u;
    } else if StartsWithQuotePair(s) {
      assert |a| >= 2 && s[2..] == a[2..] + u;
      ReplaceQuotePairsSuffix(a[2..], u);
      EndsWithPrepend("\"", ReplaceQuotePairs(s[2..]), ReplaceQuotePairs(u));
    } else {
      assert s[1..] == a[1..] + u;
      ReplaceQuotePairsSuffix(a[1..], u);
      EndsWithPrepend([s[0]], ReplaceQuotePairs(s[1..]), ReplaceQuotePairs(u));
    }
  }

  /** A whitespace run never reaches into text that starts visibly. */
  lemma {:induction false} DropLeadingWsAppend(a: string, u: string)
    requires u != [] && !IsWs(u[0])
    ensures DropLeadingWs(a + u) == DropLeadingWs(a) + u
  {
    if a == [] {
      assert a + u == u;
    } else {
      assert (a + u)[0] == a[0] && (a + u)[1..] == a[1..] + u;
      if IsWs(a[0]) {
        DropLeadingWsAppend(a[1..], u);
      }
    }
  }

  lemma {:induction false} CollapseWsSuffix(a: string, u: string)
    requires u != [] && !IsWs(u[0])
    ensures EndsWith(CollapseWs(a + u), CollapseWs(u))
    decreases |a|
  {
    var s := a + u;
    if a == [] {
      assert s == u;
    } else if IsWs(a[0]) {
      var rest := DropLeadingWs(s);
      DropLeadingWsAppend(a, u);
      var a' := DropLeadingWs(a);
      assert rest == a' + u;
      CollapseWsSuffix(a', u);
      var chunk := if |s| - |rest| >= 2 then " " else [s[0]];
      EndsWithPrepend(chunk, CollapseWs(rest), CollapseWs(u));
    } else {
      assert s[0] == a[0] && s[1..] == a[1..] + u;
      CollapseWsSuffix(a[1..], u);
      EndsWithPrepend([s[0]], CollapseWs(s[1..]), CollapseWs(u));
    }
  }

  lemma CapitalizeSuffix(a: string, u: string)
    requires u != [] && !IsLower(u[0])
    ensures EndsWith(Capitalize(a + u), u)
  {
    var s := a + u;
    if a == [] {
      assert s == u;
    } else {
      assert s[1..] == a[1..] + u;
      EndsWithPrepend(Capitalize(s)[..1], a[1..] + u, u);
      assert Capitalize(s) == Capitalize(s)[..1] + (a[1..] + u);
    }
  }

  /** Splits a string at a suffix it ends with. */
  lemma EndsWithSplit(s: string, u: string)
    requires EndsWith(s, u)
    ensures s == s[..|s| - |u|] + u
  {
  }

  // ---------------------------------------------------------------------
  // When a rewrite changes nothing.

  /** Whitespace is deleted only where it stands before a character of `P`. */
  lemma {:induction false} DropWsBeforeNone(s: string, P: set<char>)
    requires Visible(P) && NoWsBefore(s, P)
    ensures DropWsBefore(s, P) == s
  {
    if s != [] {
      NoWsBeforeSuffix(s, 1, P);
      DropWsBeforeNone(s[1..], P);
      if IsWs(s[0]) {
        NoLeadInto(s, P);
      }
    }
  }

  /** Without whitespace before a character of `P`, no whitespace run leads
      into one. */
  lemma NoLeadInto(s: string, P: set<char>)
    requires s != [] && IsWs(s[0]) && NoWsBefore(s, P)
    ensures !LeadsInto(s, P)
  {
    var r := DropLeadingWs(s);
    if r != [] {
      DropLeadingWsSkipsWs(s);
      var j := |s| - |r| - 1;
      assert IsWs(s[j]) && s[j + 1] == r[0];
    }
  }

  /** No `"` is directly followed by whitespace. */
  predicate NoWsAfterQuote(s: string)
  {
    forall i :: 0 <= i < |s| - 1 && s[i] == '"' ==> !IsWs(s[i + 1])
  }

  lemma ConsNoWsAfterQuote(c: char, t: string)
    ensures NoWsAfterQuote([c] + t) <==> NoWsAfterQuote(t) && (t != [] && c == '"' ==> !IsWs(t[0]))
  {
    var s := [c] + t;
    if NoWsAfterQuote(t) && (t != [] && c == '"' ==> !IsWs(t[0])) {
      forall i | 0 <= i < |s| - 1 && s[i] == '"' ensures !IsWs(s[i + 1]) {
        if i > 0 {
          assert s[i] == t[i - 1] && s[i + 1] == t[i];
        }
      }
    }
    if NoWsAfterQuote(s) {
      forall i | 0 <= i < |t| - 1 && t[i] == '"' ensures !IsWs(t[i + 1]) {
        assert s[i + 1] == t[i] && s[i + 2] == t[i + 1];
      }
      if t != [] && c == '"' {
        assert s[0] == c && s[1] == t[0];
      }
    }
  }

  /** Whitespace is deleted after quotes only where a quote precedes it. */
  lemma {:induction false} DropWsAfterQuoteNone(s: string, afterQuote: bool)
    requires NoWsAfterQuote(s) && (afterQuote && s != [] ==> !IsWs(s[0]))
    ensures DropWsAfterQuote(s, afterQuote) == s
  {
    if s != [] {
      ConsNoWsAfterQuote(s[0], s[1..]);
      assert s == [s[0]] + s[1..];
      if IsWs(s[0]) {
        DropWsAfterQuoteNone(s[1..], afterQuote);
      } else {
        DropWsAfterQuoteNone(s[1..], s[0] == '"');
      }
    }
  }

  /** Quote pairs are replaced only where they occur. */
  lemma {:induction false} ReplaceQuotePairsNone(s: string)
    requires NoQuotePairs(s)
    ensures ReplaceQuotePairs(s) == s
  {
    if s != [] {
      assert s[0..] == s;
      ConsNoQuotePairs(s[0], s[1..]);
      assert s == [s[0]] + s[1..];
      ReplaceQuotePairsNone(s[1..]);
    }
  }

  /** Whitespace is collapsed only where two characters of it meet. */
  lemma {:induction false} CollapseWsNone(s: string)
    requires NoDoubleWs(s)
    ensures CollapseWs(s) == s
  {
    if s != [] {
      ConsNoDoubleWs(s[0], s[1..]);
      assert s == [s[0]] + s[1..];
      CollapseWsNone(s[1..]);
      if IsWs(s[0]) {
        assert DropLeadingWs(s) == DropLeadingWs(s[1..]) == s[1..];
      }
    }
  }

  // ---------------------------------------------------------------------
  // The end of a sentence through the rewrites.

  /** A closing token has whitespace at most at its very end. */
  lemma SentenceEndShape(t: string)
    requires IsSentenceEnd(t)
    ensures 1 <= |t| <= 3 && !IsWs(t[0]) && t[0] !in "`'\"" && !IsLower(t[0])
    ensures forall i :: 0 <= i < |t| - 1 ==> !IsWs(t[i])
    ensures |t| == 3 ==> t[2] == '\n'
  {
    if |t| >= 2 && !AtEnd(t[1..]) {
      assert t[1] in "\"'";
    }
  }

  lemma SentenceEndQuiet(t: string, P: set<char>)
    requires IsSentenceEnd(t)
    ensures NoWsBefore(t, P) && NoDoubleWs(t) && NoQuotePairs(t)
  {
    SentenceEndShape(t);
    forall i | 0 <= i < |t| ensures !StartsWithQuotePair(t[i..]) {
      if |t[i..]| >= 2 {
        assert t[i..][0] == t[i] && t[i..][1] == t[i + 1];
      }
    }
  }

  /** Deleting whitespace after quotes turns a closing token into its
      polished end. */
  lemma DropWsAfterQuoteEnd(t: string)
    requires IsSentenceEnd(t)
    ensures DropWsAfterQuote(t, false) == PolishedEnd(t)
  {
    SentenceEndShape(t);
    var r := t[1..];
    assert t == [t[0]] + r;
    assert DropWsAfterQuote(t, false) == [t[0]] + DropWsAfterQuote(r, false);
    if |r| == 1 {
      assert DropWsAfterQuote(r, false) == [r[0]] + DropWsAfterQuote([], r[0] == '"') == r;
    } else if |r| == 2 {
      var nl := r[1..];
      assert nl == "\n" && nl[1..] == [];
      assert DropWsAfterQuote(nl, true) == [];
      assert DropWsAfterQuote(nl, false) == nl;
      assert DropWsAfterQuote(r, false) == [r[0]] + DropWsAfterQuote(nl, r[0] == '"');
      assert t[..2] == [t[0], r[0]];
    }
  }

  /** a.py:185-211: whatever precedes it, a closing token ends the formatted
      sentence: its mark, then its quote if any, then its final newline
      unless that followed a `"`. */
  lemma PolishEnding(a: string, t: string)
    requires IsSentenceEnd(t)
    ensures EndsWith(Polish(a + t), PolishedEnd(t))
  {
    var u := PolishedEnd(t);
    var s2 := DropWsAfterQuote(DropWsBefore(a + t, ClosingPunct), false);
    PolishEndingFront(a, t);
    EndsWithSplit(s2, u);
    PolishEndingBack(s2[..|s2| - |u|], u);
  }

  /** The first two rewrites leave the polished end of a closing token. */
  lemma PolishEndingFront(a: string, t: string)
    requires IsSentenceEnd(t)
    ensures EndsWith(DropWsAfterQuote(DropWsBefore(a + t, ClosingPunct), false), PolishedEnd(t))
  {
    SentenceEndShape(t);
    SentenceEndQuiet(t, ClosingPunct);
    DropWsBeforeNone(t, ClosingPunct);
    var s1 := DropWsBefore(a + t, ClosingPunct);
    DropWsBeforeSuffix(a, t, ClosingPunct);
    EndsWithSplit(s1, t);
    DropWsAfterQuoteSuffix(s1[..|s1| - |t|], t, false);
    DropWsAfterQuoteEnd(t);
  }

  /** The last four rewrites keep the polished end where it is. */
  lemma PolishEndingBack(a: string, u: string)
    requires IsSentenceEnd(u)
    ensures EndsWith(Capitalize(CollapseWs(ReplaceQuotePairs(DropWsBefore(a + u, Quote)))), u)
  {
    SentenceEndShape(u);
    SentenceEndQuiet(u, Quote);
    DropWsBeforeNone(u, Quote);
    ReplaceQuotePairsNone(u);
    CollapseWsNone(u);
    var s3 := DropWsBefore(a + u, Quote);
    DropWsBeforeSuffix(a, u, Quote);
    EndsWithSplit(s3, u);
    var s4 := ReplaceQuotePairs(s3);
    ReplaceQuotePairsSuffix(s3[..|s3| - |u|], u);
    EndsWithSplit(s4, u);
    var s5 := CollapseWs(s4);
    CollapseWsSuffix(s4[..|s4| - |u|], u);
    EndsWithSplit(s5, u);
    CapitalizeSuffix(s5[..|s5| - |u|], u);
  }

  // ---------------------------------------------------------------------
  // Formatting twice.

  lemma NoQuotePairsSuffix(s: string, k: nat)
    requires k <= |s| && NoQuotePairs(s)
    ensures NoQuotePairs(s[k..])
  {
    forall j | 0 <= j < |s| - k ensures !StartsWithQuotePair(s[k..][j..]) {
      assert s[k..][j..] == s[k + j..];
    }
  }

  lemma NoWsAfterQuoteSuffix(s: string, k: nat)
    requires k <= |s| && NoWsAfterQuote(s)
    ensures NoWsAfterQuote(s[k..])
  {
    assert forall i :: 0 <= i < |s| - k ==> s[k..][i] == s[k + i];
  }

  /** The deletion before `P` starts with the input's first character or
      with a character of `P`, and with one of `P` when a run leads into it. */
  lemma {:induction false} DropWsBeforeHead(s: string, P: set<char>)
    requires s != []
    ensures DropWsBefore(s, P) != []
    ensures DropWsBefore(s, P)[0] == s[0] || DropWsBefore(s, P)[0] in P
    ensures LeadsInto(s, P) ==> DropWsBefore(s, P)[0] in P
  {
    if IsWs(s[0]) && LeadsInto(s, P) {
      LeadsIntoWs(s, P);
      DropWsBeforeHead(s[1..], P);
    }
  }

  /** Deleting whitespace before characters other than quotes creates no
      quote pair. */
  lemma {:induction false} DropWsBeforePairs(s: string, P: set<char>)
    requires NoQuotePairs(s) && '`' !in P && '\'' !in P
    ensures NoQuotePairs(DropWsBefore(s, P))
  {
    if s != [] {
      var t := s[1..];
      ConsNoQuotePairs(s[0], t);
      assert s == [s[0]] + t;
      DropWsBeforePairs(t, P);
      if !(IsWs(s[0]) && LeadsInto(s, P)) {
        ConsNoQuotePairs(s[0], DropWsBefore(t, P));
        if t != [] {
          DropWsBeforeHead(t, P);
        }
      }
    }
  }

  /** Deleting whitespace before visible characters keeps every `"` followed
      by a visible character. */
  lemma {:induction false} DropWsBeforeAfterQuote(s: string, P: set<char>)
    requires Visible(P) && NoWsAfterQuote(s)
    ensures NoWsAfterQuote(DropWsBefore(s, P))
  {
    if s != [] {
      var t := s[1..];
      ConsNoWsAfterQuote(s[0], t);
      assert s == [s[0]] + t;
      DropWsBeforeAfterQuote(t, P);
      if !(IsWs(s[0]) && LeadsInto(s, P)) {
        ConsNoWsAfterQuote(s[0], DropWsBefore(t, P));
        if t != [] {
          DropWsBeforeHead(t, P);
        }
      }
    }
  }

  /** After the deletion no `"` is followed by whitespace, and after a quote
      the rest starts visibly. */
  lemma {:induction false} DropWsAfterQuoteClears(s: string, afterQuote: bool)
    ensures NoWsAfterQuote(DropWsAfterQuote(s, afterQuote))
    ensures afterQuote && DropWsAfterQuote(s, afterQuote) != [] ==> !IsWs(DropWsAfterQuote(s, afterQuote)[0])
  {
    if s != [] {
      var t := s[1..];
      if IsWs(s[0]) {
        DropWsAfterQuoteClears(t, afterQuote);
        ConsNoWsAfterQuote(s[0], DropWsAfterQuote(t, afterQuote));
      } else {
        DropWsAfterQuoteClears(t, s[0] == '"');
        ConsNoWsAfterQuote(s[0], DropWsAfterQuote(t, s[0] == '"'));
      }
    }
  }

  /** Deleting whitespace after quotes creates no quote pair. */
  lemma {:induction false} DropWsAfterQuotePairs(s: string, afterQuote: bool)
    requires NoQuotePairs(s)
    ensures NoQuotePairs(DropWsAfterQuote(s, afterQuote))
  {
    if s != [] {
      var t := s[1..];
      ConsNoQuotePairs(s[0], t);
      assert s == [s[0]] + t;
      var q := if IsWs(s[0]) then afterQuote else s[0] == '"';
      DropWsAfterQuotePairs(t, q);
      var o := DropWsAfterQuote(t, q);
      if !(IsWs(s[0]) && afterQuote) {
        assert DropWsAfterQuote(s, afterQuote) == [s[0]] + o;
        assert s[0..] == s;
        if t != [] && !q {
          assert o[0] == t[0];
        }
        assert !StartsWithQuotePair([s[0]] + o);
        ConsNoQuotePairs(s[0], o);
      } else {
        assert DropWsAfterQuote(s, afterQuote) == o;
      }
    }
  }

  /** Collapsing starts with the input's first character when that is
      visible, and with whitespace otherwise. */
  lemma CollapseWsHead(s: string)
    requires s != []
    ensures CollapseWs(s) != [] && (IsWs(CollapseWs(s)[0]) <==> IsWs(s[0]))
    ensures !IsWs(s[0]) ==> CollapseWs(s)[0] == s[0]
  {
  }

  /** Collapsing whitespace creates no quote pair. */
  lemma {:induction false} CollapseWsPairs(s: string)
    requires NoQuotePairs(s)
    ensures NoQuotePairs(CollapseWs(s))
    decreases |s|
  {
    if s != [] {
      if IsWs(s[0]) {
        var rest := DropLeadingWs(s);
        NoQuotePairsSuffix(s, |s| - |rest|);
        CollapseWsPairs(rest);
        var c := if |s| - |rest| >= 2 then ' ' else s[0];
        assert CollapseWs(s) == [c] + CollapseWs(rest);
        ConsNoQuotePairs(c, CollapseWs(rest));
      } else {
        var t := s[1..];
        ConsNoQuotePairs(s[0], t);
        assert s == [s[0]] + t;
        CollapseWsPairs(t);
        ConsNoQuotePairs(s[0], CollapseWs(t));
        if t != [] {
          CollapseWsHead(t);
        }
      }
    }
  }

  /** Collapsing whitespace creates no whitespace after a quote. */
  lemma {:induction false} CollapseWsAfterQuote(s: string)
    requires NoWsAfterQuote(s)
    ensures NoWsAfterQuote(CollapseWs(s))
    decreases |s|
  {
    if s != [] {
      if IsWs(s[0]) {
        var rest := DropLeadingWs(s);
        NoWsAfterQuoteSuffix(s, |s| - |rest|);
        CollapseWsAfterQuote(rest);
        var c := if |s| - |rest| >= 2 then ' ' else s[0];
        assert CollapseWs(s) == [c] + CollapseWs(rest);
        ConsNoWsAfterQuote(c, CollapseWs(rest));
      } else {
        var t := s[1..];
        ConsNoWsAfterQuote(s[0], t);
        assert s == [s[0]] + t;
        CollapseWsAfterQuote(t);
        ConsNoWsAfterQuote(s[0], CollapseWs(t));
        if t != [] {
          CollapseWsHead(t);
        }
      }
    }
  }

  /** Capitalising creates no quote pair and no whitespace after a quote. */
  lemma CapitalizeQuotes(s: string)
    requires NoQuotePairs(s) && NoWsAfterQuote(s)
    ensures NoQuotePairs(Capitalize(s)) && NoWsAfterQuote(Capitalize(s))
  {
    if s != [] && IsLower(s[0]) {
      assert s == [s[0]] + s[1..];
      ConsNoQuotePairs(s[0], s[1..]);
      ConsNoQuotePairs(ToUpper(s[0]), s[1..]);
      ConsNoWsAfterQuote(s[0], s[1..]);
      ConsNoWsAfterQuote(ToUpper(s[0]), s[1..]);
    }
  }

  /** What the whole chain leaves behind on text without quote pairs: besides
      the three properties of `PolishShape`, no quote pair, no whitespace
      after a `"` and none before one. */
  lemma PolishQuiet(s: string)
    requires NoQuotePairs(s)
    ensures ReplaceQuotePairs(DropWsBefore(DropWsAfterQuote(DropWsBefore(s, ClosingPunct), false), Quote))
              == DropWsBefore(DropWsAfterQuote(DropWsBefore(s, ClosingPunct), false), Quote)
    ensures NoQuotePairs(Polish(s)) && NoWsAfterQuote(Polish(s)) && NoWsBefore(Polish(s), Quote)
  {
    var s1 := DropWsBefore(s, ClosingPunct);
    DropWsBeforePairs(s, ClosingPunct);
    var s2 := DropWsAfterQuote(s1, false);
    DropWsAfterQuotePairs(s1, false);
    DropWsAfterQuoteClears(s1, false);
    var s3 := DropWsBefore(s2, Quote);
    DropWsBeforePairs(s2, Quote);
    DropWsBeforeAfterQuote(s2, Quote);
    DropWsBeforeClears(s2, Quote);
    ReplaceQuotePairsNone(s3);
    var s5 := CollapseWs(s3);
    CollapseWsPairs(s3);
    CollapseWsAfterQuote(s3);
    CollapseWsKeeps(s3, Quote);
    CollapseWsClears(s3);
    CapitalizeQuotes(s5);
    CapitalizeKeeps(s5, Quote);
  }

  /** Formatting text without quote pairs twice gives what formatting it once
      gave. */
  lemma PolishIdempotent(s: string)
    requires NoQuotePairs(s)
    ensures Polish(Polish(s)) == Polish(s)
  {
    var t := Polish(s);
    PolishShape(s);
    PolishQuiet(s);
    DropWsBeforeNone(t, ClosingPunct);
    DropWsAfterQuoteNone(t, false);
    DropWsBeforeNone(t, Quote);
    ReplaceQuotePairsNone(t);
    CollapseWsNone(t);
  }

  /** A quote pair turned into `"` after the quote spacing ran keeps the
      whitespace in front of it, which a second pass deletes: formatting is
      not idempotent in general. `" ''"` is such a text. */
  lemma PolishTwiceDiffers(s: string)
    requires |s| == 3 && IsWs(s[0]) && s[1] == '\'' && s[2] == '\''
    ensures Polish(s) == [s[0], '"'] && Polish(Polish(s)) == ['"']
    ensures Polish(Polish(s)) != Polish(s)
  {
    PolishSpacedPair(s);
    PolishSpacedQuote(Polish(s));
  }

  /** Whitespace and a quote pair: the pair becomes `"`, the whitespace stays. */
  lemma PolishSpacedPair(s: string)
    requires |s| == 3 && IsWs(s[0]) && s[1] == '\'' && s[2] == '\''
    ensures Polish(s) == [s[0], '"']
  {
    SpacedPairSpacing(s);
    SpacedPairReplaced(s);
    SpacedQuoteCollapsed([s[0], '"']);
    PolishThrough(s, [s[0], '"']);
  }

  /** `Polish` of a text the three spacing rewrites leave alone. */
  lemma PolishThrough(s: string, t: string)
    requires DropWsBefore(s, ClosingPunct) == s && DropWsAfterQuote(s, false) == s
    requires DropWsBefore(s, Quote) == s && ReplaceQuotePairs(s) == t
    requires CollapseWs(t) == t && (t == [] || !IsLower(t[0]))
    ensures Polish(s) == t
  {
  }

  lemma SpacedPairSpacing(s: string)
    requires |s| == 3 && IsWs(s[0]) && s[1] == '\'' && s[2] == '\''
    ensures DropWsBefore(s, ClosingPunct) == s && DropWsAfterQuote(s, false) == s
    ensures DropWsBefore(s, Quote) == s
  {
    assert NoWsBefore(s, ClosingPunct) && NoWsBefore(s, Quote);
    DropWsBeforeNone(s, ClosingPunct);
    DropWsBeforeNone(s, Quote);
    assert NoWsAfterQuote(s);
    DropWsAfterQuoteNone(s, false);
  }

  lemma SpacedPairReplaced(s: string)
    requires |s| == 3 && IsWs(s[0]) && s[1] == '\'' && s[2] == '\''
    ensures ReplaceQuotePairs(s) == [s[0], '"']
  {
    assert StartsWithQuotePair(s[1..]) && s[1..][2..] == [];
    assert ReplaceQuotePairs(s) == [s[0]] + ReplaceQuotePairs(s[1..]);
  }

  lemma SpacedQuoteCollapsed(t: string)
    requires |t| == 2 && IsWs(t[0]) && t[1] == '"'
    ensures CollapseWs(t) == t
  {
    assert NoDoubleWs(t);
    CollapseWsNone(t);
  }

  /** Whitespace and a `"`: the whitespace goes. */
  lemma PolishSpacedQuote(t: string)
    requires |t| == 2 && IsWs(t[0]) && t[1] == '"'
    ensures Polish(t) == ['"']
  {
    var q := t[1..];
    SpacedQuoteUntouched(t);
    SpacedQuoteNoQuote(t);
    SpacedQuoteLeads(t);
    LoneQuote(q);
    PolishSteps(t, t, t, q, q, q);
  }

  lemma SpacedQuoteUntouched(t: string)
    requires |t| == 2 && IsWs(t[0]) && t[1] == '"'
    ensures DropWsBefore(t, ClosingPunct) == t
  {
    assert NoWsBefore(t, ClosingPunct);
    DropWsBeforeNone(t, ClosingPunct);
  }

  lemma SpacedQuoteNoQuote(t: string)
    requires |t| == 2 && IsWs(t[0]) && t[1] == '"'
    ensures DropWsAfterQuote(t, false) == t
  {
    assert NoWsAfterQuote(t);
    DropWsAfterQuoteNone(t, false);
  }

  lemma SpacedQuoteLeads(t: string)
    requires |t| == 2 && IsWs(t[0]) && t[1] == '"'
    ensures DropWsBefore(t, Quote) == t[1..]
  {
    var q := t[1..];
    assert q[1..] == [] && !IsWs(q[0]);
    assert DropLeadingWs(t) == q;
    assert LeadsInto(t, Quote);
    assert DropWsBefore(q, Quote) == q;
  }

  /** A lone `"` passes the last three rewrites unchanged. */
  lemma LoneQuote(q: string)
    requires q == ['"']
    ensures DropWsBefore(q, Quote) == q && ReplaceQuotePairs(q) == q && CollapseWs(q) == q
  {
    assert q[1..] == [];
  }

  /** `Polish` one rewrite at a time. */
  lemma PolishSteps(s: string, s1: string, s2: string, s3: string, s4: string, s5: string)
    requires s1 == DropWsBefore(s, ClosingPunct) && s2 == DropWsAfterQuote(s1, false)
    requires s3 == DropWsBefore(s2, Quote) && s4 == ReplaceQuotePairs(s3) && s5 == CollapseWs(s4)
    ensures Polish(s) == Capitalize(s5)
  {
  }


}
