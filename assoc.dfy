/**
 * Python's `dict`, which remembers insertion order, modelled as an
 * association list: a sequence of (key, value) entries. Assigning to a
 * present key updates its entry in place; assigning to an absent key
 * appends a new entry at the end. Iterating `d.items()` walks the entries
 * from first to last.
 */
module Assoc {
  import opened Wrappers

  type Dict<K, V> = seq<(K, V)>

  function Keys<K, V>(d: Dict<K, V>): seq<K>
  {
    if d == [] then [] else [d[0].0] + Keys(d[1..])
  }

  lemma {:induction false} KeysAt<K, V>(d: Dict<K, V>)
    ensures |Keys(d)| == |d|
    ensures forall i :: 0 <= i < |d| ==> Keys(d)[i] == d[i].0
  {
    if d != [] {
      KeysAt(d[1..]);
    }
  }

  lemma {:induction false} KeysAppend<K, V>(d: Dict<K, V>, e: (K, V))
    ensures Keys(d + [e]) == Keys(d) + [e.0]
  {
    if d == [] {
      assert d + [e] == [e];
    } else {
      assert (d + [e])[1..] == d[1..] + [e];
      KeysAppend(d[1..], e);
    }
  }

  /** The invariant every Python dict has: no key occurs twice. */
  predicate DistinctKeys<K(==), V>(d: Dict<K, V>) {
    d == [] || (d[0].0 !in Keys(d[1..]) && DistinctKeys(d[1..]))
  }

  /** `d[k]` if present, `None` otherwise. */
  function Lookup<K(==), V>(d: Dict<K, V>, k: K): (r: Option<V>)
    ensures r.None? <==> k !in Keys(d)
  {
    if d == [] then None
    else if d[0].0 == k then Some(d[0].1)
    else Lookup(d[1..], k)
  }

  lemma {:induction false} LookupIn<K, V>(d: Dict<K, V>, k: K)
    requires Lookup(d, k).Some?
    ensures (k, Lookup(d, k).value) in d
  {
    if d[0].0 != k {
      LookupIn(d[1..], k);
    }
  }

  lemma {:induction false} LookupAt<K, V>(d: Dict<K, V>, i: nat)
    requires DistinctKeys(d) && i < |d|
    ensures Lookup(d, d[i].0) == Some(d[i].1)
  {
    if i > 0 {
      KeysAt(d[1..]);
      assert d[i].0 == Keys(d[1..])[i - 1];
      LookupAt(d[1..], i - 1);
    }
  }

  lemma {:induction false} LookupAppend<K, V>(d: Dict<K, V>, k: K, v: V, k': K)
    ensures Lookup(d + [(k, v)], k') ==
      if k' in Keys(d) then Lookup(d, k') else if k' == k then Some(v) else None
  {
    if d == [] {
      assert d + [(k, v)] == [(k, v)];
    } else {
      assert (d + [(k, v)])[1..] == d[1..] + [(k, v)];
      LookupAppend(d[1..], k, v, k');
    }
  }

  /** `d[k] = v`: update in place, or append when `k` is new. */
  function Put<K(==), V>(d: Dict<K, V>, k: K, v: V): Dict<K, V>
  {
    if d == [] then [(k, v)]
    else if d[0].0 == k then [(k, v)] + d[1..]
    else [d[0]] + Put(d[1..], k, v)
  }

  /** Dict assignment makes `k` map to `v` and leaves every other key alone. */
  lemma {:induction false} PutLookup<K, V>(d: Dict<K, V>, k: K, v: V, k': K)
    ensures Lookup(Put(d, k, v), k') == if k' == k then Some(v) else Lookup(d, k')
  {
    if d != [] && d[0].0 != k {
      PutLookup(d[1..], k, v, k');
    }
  }

  /** A new key goes last; a present key keeps its place. */
  lemma {:induction false} PutKeys<K, V>(d: Dict<K, V>, k: K, v: V)
    ensures Keys(Put(d, k, v)) == if k in Keys(d) then Keys(d) else Keys(d) + [k]
  {
    if d != [] && d[0].0 != k {
      PutKeys(d[1..], k, v);
    }
  }

  lemma {:induction false} PutDistinct<K, V>(d: Dict<K, V>, k: K, v: V)
    requires DistinctKeys(d)
    ensures DistinctKeys(Put(d, k, v))
  {
    if d != [] && d[0].0 != k {
      PutDistinct(d[1..], k, v);
      PutKeys(d[1..], k, v);
    }
  }

  lemma {:induction false} PutEntries<K, V>(d: Dict<K, V>, k: K, v: V)
    ensures forall e :: e in Put(d, k, v) ==> e == (k, v) || e in d
  {
    if d != [] && d[0].0 != k {
      PutEntries(d[1..], k, v);
    }
  }

  lemma {:induction false} PutAbsent<K, V>(d: Dict<K, V>, k: K, v: V)
    requires k !in Keys(d)
    ensures Put(d, k, v) == d + [(k, v)]
  {
    if d != [] {
      PutAbsent(d[1..], k, v);
    }
  }

  lemma {:induction false} PutAt<K, V>(d: Dict<K, V>, i: nat, v: V)
    requires DistinctKeys(d) && i < |d|
    ensures Put(d, d[i].0, v) == d[i := (d[i].0, v)]
  {
    if i > 0 {
      KeysAt(d[1..]);
      assert d[i].0 == Keys(d[1..])[i - 1];
      PutAt(d[1..], i - 1, v);
    }
  }

  lemma {:induction false} PutPut<K, V>(d: Dict<K, V>, k: K, v1: V, v2: V)
    ensures Put(Put(d, k, v1), k, v2) == Put(d, k, v2)
  {
    if d != [] && d[0].0 != k {
      PutPut(d[1..], k, v1, v2);
    }
  }

  /** Assignments to two different keys commute once the first key is present. */
  lemma {:induction false} PutCommute<K, V>(d: Dict<K, V>, k1: K, v1: V, k2: K, v2: V)
    requires k1 != k2 && k1 in Keys(d)
    ensures Put(Put(d, k1, v1), k2, v2) == Put(Put(d, k2, v2), k1, v1)
  {
    if d[0].0 != k1 && d[0].0 != k2 {
      PutCommute(d[1..], k1, v1, k2, v2);
    }
  }

  // ---------------------------------------------------------------------
  // Counting dictionaries: `d.get(k, 0) + c`.

  function Count<K(==)>(d: Dict<K, nat>, k: K): nat
  {
    match Lookup(d, k)
    case Some(c) => c
    case None => 0
  }

  /** The sum of all counts, `sum(d.values())`. */
  function Total<K>(d: Dict<K, nat>): nat
  {
    if d == [] then 0 else d[0].1 + Total(d[1..])
  }

  /** Every stored count is at least one. */
  predicate Positive<K>(d: Dict<K, nat>) {
    forall i :: 0 <= i < |d| ==> d[i].1 >= 1
  }

  lemma {:induction false} TotalPut<K>(d: Dict<K, nat>, k: K, v: nat)
    ensures Total(Put(d, k, v)) + Count(d, k) == Total(d) + v
  {
    if d != [] && d[0].0 != k {
      TotalPut(d[1..], k, v);
    }
  }

  lemma {:induction false} TotalAppend<K>(d: Dict<K, nat>, e: (K, nat))
    ensures Total(d + [e]) == Total(d) + e.1
  {
    if d == [] {
      assert d + [e] == [e];
    } else {
      assert (d + [e])[1..] == d[1..] + [e];
      TotalAppend(d[1..], e);
    }
  }

  lemma {:induction false} PositiveCount<K>(d: Dict<K, nat>, k: K)
    requires Positive(d)
    ensures k in Keys(d) <==> Count(d, k) >= 1
  {
    if Lookup(d, k).Some? {
      LookupIn(d, k);
    }
  }

  /** `d[k] = d.get(k, 0) + c`. */
  function Add<K(==)>(d: Dict<K, nat>, k: K, c: nat): Dict<K, nat>
  {
    Put<K, nat>(d, k, Count(d, k) + c)
  }

  /** Adding `c` at `k` raises that count by `c` and leaves every other
      count alone. */
  lemma {:induction false} AddCount<K>(d: Dict<K, nat>, k: K, c: nat, k': K)
    ensures Count(Add(d, k, c), k') == Count(d, k') + if k' == k then c else 0
  {
    var v: nat := Count(d, k) + c;
    var r: Dict<K, nat> := Put(d, k, v);
    assert Add(d, k, c) == r;
    PutLookup(d, k, v, k');
    if k' == k {
      assert Lookup(r, k') == Some(v);
    } else {
      assert Lookup(r, k') == Lookup(d, k');
    }
  }

  /** Adding `c` anywhere raises the total by `c`. */
  lemma {:induction false} AddTotal<K>(d: Dict<K, nat>, k: K, c: nat)
    ensures Total(Add(d, k, c)) == Total(d) + c
  {
    TotalPut(d, k, Count(d, k) + c);
  }

  lemma AddIsPut<K>(d: Dict<K, nat>, k: K, c: nat)
    ensures Add(d, k, c) == Put<K, nat>(d, k, Count(d, k) + c)
  {
  }

  /** Adding at a new key appends it; adding at an old key keeps the order. */
  lemma AddKeys<K>(d: Dict<K, nat>, k: K, c: nat)
    ensures Keys(Add(d, k, c)) == if k in Keys(d) then Keys(d) else Keys(d) + [k]
  {
    AddIsPut(d, k, c);
    PutKeys<K, nat>(d, k, Count(d, k) + c);
  }

  lemma AddDistinct<K>(d: Dict<K, nat>, k: K, c: nat)
    requires DistinctKeys(d)
    ensures DistinctKeys(Add(d, k, c))
  {
    PutDistinct<K, nat>(d, k, Count(d, k) + c);
  }

  lemma AddPositive<K>(d: Dict<K, nat>, k: K, c: nat)
    requires Positive(d) && c >= 1
    ensures Positive(Add(d, k, c))
  {
    var r := Add(d, k, c);
    PutEntries<K, nat>(d, k, Count(d, k) + c);
    forall i | 0 <= i < |r| ensures r[i].1 >= 1 {
      assert r[i] in r;
    }
  }

  lemma {:induction false} AddAdd<K>(d: Dict<K, nat>, k: K, a: nat, b: nat)
    ensures Add(Add(d, k, a), k, b) == Add(d, k, a + b)
  {
    AddCount(d, k, a, k);
    PutPut<K, nat>(d, k, Count(d, k) + a, Count(d, k) + a + b);
  }

  lemma {:induction false} AddCommute<K>(d: Dict<K, nat>, k1: K, a: nat, k2: K, b: nat)
    requires k1 != k2 && k1 in Keys(d)
    ensures Add(Add(d, k1, a), k2, b) == Add(Add(d, k2, b), k1, a)
  {
    var v1: nat, v2: nat := Count(d, k1) + a, Count(d, k2) + b;
    AddThenAdd(d, k1, a, k2, b);
    AddThenAdd(d, k2, b, k1, a);
    PutCommute<K, nat>(d, k1, v1, k2, v2);
  }

  /** Two additions at different keys as two assignments. */
  lemma AddThenAdd<K>(d: Dict<K, nat>, k1: K, a: nat, k2: K, b: nat)
    requires k1 != k2
    ensures Add(Add(d, k1, a), k2, b) == Put<K, nat>(Put<K, nat>(d, k1, Count(d, k1) + a), k2, Count(d, k2) + b)
  {
    AddCount(d, k1, a, k2);
  }

  // ---------------------------------------------------------------------
  // The two ways the source fills a counting dictionary.

  /** Adds one to the count of each element of `ws`, first to last. */
  function AddEach<K(==)>(d: Dict<K, nat>, ws: seq<K>): Dict<K, nat>
  {
    if ws == [] then d else Add(AddEach(d, ws[..|ws| - 1]), ws[|ws| - 1], 1)
  }

  /** The counting dictionary of `ws`, built from empty. */
  function Tally<K(==)>(ws: seq<K>): Dict<K, nat>
  {
    AddEach([], ws)
  }

  /** Adds every entry of `e`, first to last, into `d`. */
  function Merge<K(==)>(d: Dict<K, nat>, e: Dict<K, nat>): Dict<K, nat>
  {
    if e == [] then d else Add(Merge(d, e[..|e| - 1]), e[|e| - 1].0, e[|e| - 1].1)
  }

  /** Counting one more element of `ws` adds one to its count. */
  lemma AddEachSnoc<K>(d: Dict<K, nat>, ws: seq<K>, i: nat)
    requires i < |ws|
    ensures AddEach(d, ws[..i + 1]) == Add(AddEach(d, ws[..i]), ws[i], 1)
  {
    assert ws[..i + 1][..i] == ws[..i];
  }

  /** Merging one more entry of `e` adds its count. */
  lemma MergeSnoc<K>(d: Dict<K, nat>, e: Dict<K, nat>, j: nat)
    requires j < |e|
    ensures Merge(d, e[..j + 1]) == Add(Merge(d, e[..j]), e[j].0, e[j].1)
  {
    assert e[..j + 1][..j] == e[..j];
  }

  /** The elements of `ws` in order of first occurrence, each once. */
  function Dedup<K(==)>(ws: seq<K>): seq<K>
  {
    if ws == [] then []
    else
      var p := Dedup(ws[..|ws| - 1]);
      if ws[|ws| - 1] in p then p else p + [ws[|ws| - 1]]
  }

  /** Counting one by one adds each element's multiplicity to its count. */
  lemma {:induction false} AddEachCount<K>(d: Dict<K, nat>, ws: seq<K>, k: K)
    ensures Count(AddEach(d, ws), k) == Count(d, k) + multiset(ws)[k]
  {
    if ws != [] {
      var init, x := ws[..|ws| - 1], ws[|ws| - 1];
      assert ws == init + [x];
      AddEachCount(d, init, k);
      AddCount(AddEach(d, init), x, 1, k);
    }
  }

  /** Counting one by one adds `|ws|` to the total, keeps the dictionary
      invariants, and adds exactly the elements of `ws` as keys. */
  lemma {:induction false} AddEachShape<K>(d: Dict<K, nat>, ws: seq<K>)
    ensures Total(AddEach(d, ws)) == Total(d) + |ws|
    ensures forall k :: k in Keys(AddEach(d, ws)) <==> k in Keys(d) || k in ws
    ensures DistinctKeys(d) ==> DistinctKeys(AddEach(d, ws))
    ensures Positive(d) ==> Positive(AddEach(d, ws))
  {
    if ws != [] {
      var init, x := ws[..|ws| - 1], ws[|ws| - 1];
      assert ws == init + [x];
      AddEachShape(d, init);
      AddTotal(AddEach(d, init), x, 1);
      AddKeys(AddEach(d, init), x, 1);
      if DistinctKeys(d) {
        AddDistinct(AddEach(d, init), x, 1);
      }
      if Positive(d) {
        AddPositive(AddEach(d, init), x, 1);
      }
    }
  }

  /** The keys of a tally come in order of first occurrence: this is the
      iteration order of a dict filled by counting. */
  lemma {:induction false} TallyKeys<K>(ws: seq<K>)
    ensures Keys(Tally(ws)) == Dedup(ws)
  {
    if ws != [] {
      TallyKeys(ws[..|ws| - 1]);
      AddKeys(Tally(ws[..|ws| - 1]), ws[|ws| - 1], 1);
    }
  }

  lemma {:induction false} AddEachAppend<K>(d: Dict<K, nat>, a: seq<K>, b: seq<K>)
    ensures AddEach(d, a + b) == AddEach(AddEach(d, a), b)
    decreases |b|
  {
    if b == [] {
      assert a + b == a;
    } else {
      assert (a + b)[..|a + b| - 1] == a + b[..|b| - 1];
      AddEachAppend(d, a, b[..|b| - 1]);
    }
  }

  lemma {:induction false} MergeKeeps<K>(d: Dict<K, nat>, e: Dict<K, nat>, k: K)
    requires k in Keys(e) || k in Keys(d)
    ensures k in Keys(Merge(d, e))
  {
    if e != [] {
      var init, last := e[..|e| - 1], e[|e| - 1];
      assert e == init + [last];
      KeysAppend(init, last);
      AddKeys(Merge(d, init), last.0, last.1);
      if k in Keys(init) || k in Keys(d) {
        MergeKeeps(d, init, k);
      }
    }
  }

  /** Merging a dict in which one count is one higher is the same as merging
      the original and then adding one. */
  lemma {:induction false} MergeBump<K>(d: Dict<K, nat>, a: Dict<K, nat>, x: K, c: nat, b: Dict<K, nat>)
    requires x !in Keys(b)
    ensures Merge(d, a + [(x, c + 1)] + b) == Add(Merge(d, a + [(x, c)] + b), x, 1)
    decreases |b|
  {
    var e1: Dict<K, nat> := a + [(x, c + 1)];
    var e0: Dict<K, nat> := a + [(x, c)];
    if b == [] {
      assert e1 + b == e1 && e0 + b == e0;
      assert e1[..|a|] == a && e0[..|a|] == a;
      AddAdd(Merge(d, a), x, c, 1);
    } else {
      var b0: Dict<K, nat> := b[..|b| - 1];
      var y: (K, nat) := b[|b| - 1];
      assert b == b0 + [y];
      KeysAppend(b0, y);
      assert e1 + b == (e1 + b0) + [y] && e0 + b == (e0 + b0) + [y];
      assert ((e1 + b0) + [y])[..|e1 + b0|] == e1 + b0;
      assert ((e0 + b0) + [y])[..|e0 + b0|] == e0 + b0;
      MergeBump(d, a, x, c, b0);
      KeysAt(e0 + b0);
      assert Keys(e0 + b0)[|a|] == x;
      MergeKeeps(d, e0 + b0, x);
      AddCommute(Merge(d, e0 + b0), x, 1, y.0, y.1);
    }
  }

  /** In a dict with distinct keys, the key at `i` does not occur after `i`. */
  lemma {:induction false} DistinctAfter<K, V>(e: Dict<K, V>, i: nat)
    requires DistinctKeys(e) && i < |e|
    ensures e[i].0 !in Keys(e[i + 1..])
  {
    if i > 0 {
      assert e[1..][i..] == e[i + 1..];
      DistinctAfter(e[1..], i - 1);
    }
  }

  lemma {:induction false} DistinctPrefix<K, V>(e: Dict<K, V>)
    requires DistinctKeys(e) && e != []
    ensures DistinctKeys(e[..|e| - 1])
  {
    if |e| > 1 {
      var t := e[1..];
      DistinctPrefix(t);
      assert e[..|e| - 1][1..] == t[..|t| - 1];
      assert t == t[..|t| - 1] + [t[|t| - 1]];
      KeysAppend(t[..|t| - 1], t[|t| - 1]);
    }
  }

  lemma {:induction false} DistinctLast<K, V>(e: Dict<K, V>, i: nat)
    requires DistinctKeys(e) && i < |e| - 1
    ensures e[i].0 != e[|e| - 1].0
  {
    if i == 0 {
      KeysAt(e[1..]);
      assert e[|e| - 1].0 == Keys(e[1..])[|e| - 2];
    } else {
      DistinctLast(e[1..], i - 1);
    }
  }

  /** Merging a tally into `d` entry by entry gives the same dictionary,
      entries and order alike, as counting the underlying elements into `d`
      one by one. */
  lemma {:induction false} MergeTally<K>(d: Dict<K, nat>, b: seq<K>)
    ensures Merge(d, Tally(b)) == AddEach(d, b)
  {
    if b != [] {
      var init, x := b[..|b| - 1], b[|b| - 1];
      var t: Dict<K, nat> := Tally(init);
      MergeTally(d, init);
      var empty: Dict<K, nat> := [];
      assert DistinctKeys(empty);
      AddEachShape(empty, init);
      assert t == AddEach(empty, init);
      MergeAdd(d, t, x);
    }
  }

  /** Merging a dict with one more occurrence of `x` is merging and then
      adding one at `x`. */
  lemma MergeAdd<K>(d: Dict<K, nat>, t: Dict<K, nat>, x: K)
    requires DistinctKeys(t)
    ensures Merge(d, Add(t, x, 1)) == Add(Merge(d, t), x, 1)
  {
    if x in Keys(t) {
      MergeAddPresent(d, t, x);
    } else {
      PutAbsent<K, nat>(t, x, 1);
      assert Add(t, x, 1) == t + [(x, 1)];
      assert (t + [(x, 1)])[..|t|] == t;
    }
  }

  lemma MergeAddPresent<K>(d: Dict<K, nat>, t: Dict<K, nat>, x: K)
    requires DistinctKeys(t) && x in Keys(t)
    ensures Merge(d, Add(t, x, 1)) == Add(Merge(d, t), x, 1)
  {
    KeysAt(t);
    var i :| 0 <= i < |t| && Keys(t)[i] == x;
    LookupAt(t, i);
    PutAt<K, nat>(t, i, t[i].1 + 1);
    var c := t[i].1;
    assert Add(t, x, 1) == t[..i] + [(x, c + 1)] + t[i + 1..];
    assert t == t[..i] + [(x, c)] + t[i + 1..];
    DistinctAfter(t, i);
    MergeBump(d, t[..i], x, c, t[i + 1..]);
  }

  /** Counts add up under merge. */
  lemma {:induction false} MergeCount<K>(d: Dict<K, nat>, e: Dict<K, nat>, k: K)
    requires DistinctKeys(e)
    ensures Count(Merge(d, e), k) == Count(d, k) + Count(e, k)
  {
    if e != [] {
      var init, last := e[..|e| - 1], e[|e| - 1];
      assert e == init + [last];
      DistinctPrefix(e);
      MergeCount(d, init, k);
      AddCount(Merge(d, init), last.0, last.1, k);
      LookupAppend(init, last.0, last.1, k);
      if k == last.0 {
        KeysAt(init);
        if k in Keys(init) {
          var i :| 0 <= i < |init| && Keys(init)[i] == k;
          DistinctLast(e, i);
        }
      }
    }
  }

  /** With distinct keys, the last entry alone accounts for its key. */
  lemma CountLast<K>(d: Dict<K, nat>, k: K)
    requires DistinctKeys(d) && d != []
    ensures Count(d, k) == Count(d[..|d| - 1], k) + if k == d[|d| - 1].0 then d[|d| - 1].1 else 0
  {
    var init, last := d[..|d| - 1], d[|d| - 1];
    assert d == init + [last];
    KeysAt(init);
    forall i | 0 <= i < |init| ensures Keys(init)[i] != last.0 {
      DistinctLast(d, i);
    }
    LookupAppend(init, last.0, last.1, k);
  }

  /** A non-empty table of positive counts has a positive total. */
  lemma TotalPositive<K>(d: Dict<K, nat>)
    requires Positive(d) && d != []
    ensures Total(d) >= d[0].1 >= 1
  {
  }
}
