/**
 * Character classes and whole-string helpers shared by the tokenizer and
 * the sentence formatter. Only ASCII is modelled: whitespace is what
 * Python's `str.isspace` and the regular expression class `\s` accept
 * below code point 128, and case conversion touches only 'A'-'Z', 'a'-'z'.
 */
module Text {

  /** Python's ASCII whitespace: tab, newline, vertical tab, form feed,
      carriage return, the four separators 0x1C-0x1F, and space. */
  predicate IsWs(c: char) {
    (9 <= c as int <= 13) || (28 <= c as int <= 32)
  }

  predicate IsLower(c: char) { 'a' <= c <= 'z' }

  predicate IsUpper(c: char) { 'A' <= c <= 'Z' }

  function ToUpper(c: char): (u: char)
    ensures IsLower(c) ==> IsUpper(u)
    ensures !IsLower(c) ==> u == c
  {
    if IsLower(c) then (c as int - 32) as char else c
  }

  function ToLower(c: char): (l: char)
    ensures IsUpper(c) ==> IsLower(l)
    ensures !IsUpper(c) ==> l == c
  {
    if IsUpper(c) then (c as int + 32) as char else c
  }

  /** `str.lower()` on an ASCII string. */
  function Lower(s: string): (r: string)
    ensures |r| == |s|
    ensures forall i :: 0 <= i < |s| ==> r[i] == ToLower(s[i])
  {
    if s == [] then [] else [ToLower(s[0])] + Lower(s[1..])
  }

  /** The non-whitespace characters of `s`, in order. */
  function Solid(s: string): string
  {
    if s == [] then []
    else if IsWs(s[0]) then Solid(s[1..])
    else [s[0]] + Solid(s[1..])
  }

  predicate NoWs(s: string) {
    forall i :: 0 <= i < |s| ==> !IsWs(s[i])
  }

  lemma {:induction false} SolidAppend(a: string, b: string)
    ensures Solid(a + b) == Solid(a) + Solid(b)
  {
    if a == [] {
      assert a + b == b;
    } else {
      assert (a + b)[0] == a[0] && (a + b)[1..] == a[1..] + b;
      SolidAppend(a[1..], b);
    }
  }

  lemma {:induction false} SolidOfNoWs(s: string)
    requires NoWs(s)
    ensures Solid(s) == s
  {
    if s != [] {
      SolidOfNoWs(s[1..]);
    }
  }

  /** `s` with its leading whitespace removed (a suffix of `s`). */
  function DropLeadingWs(s: string): (r: string)
    ensures |r| <= |s| && r == s[|s| - |r|..]
    ensures r == [] || !IsWs(r[0])
    ensures s != [] && IsWs(s[0]) ==> |r| < |s|
    ensures Solid(r) == Solid(s)
  {
    if s != [] && IsWs(s[0]) then DropLeadingWs(s[1..]) else s
  }

  /** Everything `DropLeadingWs` removes is whitespace. */
  lemma {:induction false} DropLeadingWsSkipsWs(s: string)
    ensures forall i :: 0 <= i < |s| - |DropLeadingWs(s)| ==> IsWs(s[i])
  {
    if s != [] && IsWs(s[0]) {
      DropLeadingWsSkipsWs(s[1..]);
    }
  }

  /** `s` is what `$` accepts at the end of a match: nothing or one final newline. */
  predicate AtEnd(s: string)
  {
    s == "" || s == "\n"
  }

  /** `re.match(r'[.?!]["\']?$', t)`: a sentence mark, optionally a closing
      quote, then the end of the string (or a final newline). */
  predicate IsSentenceEnd(t: string)
  {
    |t| >= 1 && t[0] in ".?!" && (AtEnd(t[1..]) || (t[1] in "\"'" && AtEnd(t[2..])))
  }

  /** `s.endswith(u)` */
  predicate EndsWith(s: string, u: string)
  {
    |u| <= |s| && s[|s| - |u|..] == u
  }

  /** A string still ends with `u` after something is put in front of it. */
  lemma EndsWithPrepend(a: string, s: string, u: string)
    requires EndsWith(s, u)
    ensures EndsWith(a + s, u)
  {
    assert (a + s)[|a + s| - |u|..] == s[|s| - |u|..];
  }

  /** Python's `" ".join(ts)`. */
  function Join(ts: seq<string>): string
  {
    if ts == [] then ""
    else if |ts| == 1 then ts[0]
    else ts[0] + " " + Join(ts[1..])
  }

  /** Joining one more token puts a space and then that token at the end. */
  lemma {:induction false} JoinSnoc(ts: seq<string>, t: string)
    ensures Join(ts + [t]) == (if ts == [] then "" else Join(ts) + " ") + t
  {
    if ts == [] {
      assert ts + [t] == [t];
    } else {
      assert (ts + [t])[0] == ts[0] && (ts + [t])[1..] == ts[1..] + [t];
      JoinSnoc(ts[1..], t);
    }
  }

  /** `" ".join(ts)` ends with the last token. */
  lemma JoinEnds(ts: seq<string>)
    requires ts != []
    ensures EndsWith(Join(ts), ts[|ts| - 1])
  {
    var init := ts[..|ts| - 1];
    assert ts == init + [ts[|ts| - 1]];
    JoinSnoc(init, ts[|ts| - 1]);
  }
}
