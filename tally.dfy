/**
 * The analyzer's counting dictionaries (`counts[k] = (counts[k] || 0) + 1`
 * over a plain object, read back with `Object.entries`) as sequences of
 * entries in insertion order, the first-maximum reduction over bucket counts,
 * and the stable descending sort of `getHashtagStats`.
 */
module Tally {
  import opened Wrappers

  datatype Entry = Entry(key: string, count: nat)

  predicate Distinct(d: seq<string>) {
    forall i, j :: 0 <= i < j < |d| ==> d[i] != d[j]
  }

  function Occurrences(keys: seq<string>, k: string): nat {
    if keys == [] then 0
    else Occurrences(keys[..|keys| - 1], k) + (if keys[|keys| - 1] == k then 1 else 0)
  }

  /** The distinct keys in order of first appearance. */
  function Dedup(keys: seq<string>): (d: seq<string>)
    ensures forall k :: k in d <==> k in keys
    ensures Distinct(d)
  {
    if keys == [] then []
    else
      var d := Dedup(keys[..|keys| - 1]);
      var k := keys[|keys| - 1];
      if k in d then d else d + [k]
  }

  /**
   * The dictionary obtained by counting `keys` one by one, as `Object.entries`
   * lists it: one entry per distinct key, in first-insertion order, holding the
   * number of times that key occurs.
   */
  function Tallied(keys: seq<string>): (es: seq<Entry>)
    ensures |es| == |Dedup(keys)|
  {
    var d := Dedup(keys);
    seq(|d|, j requires 0 <= j < |d| => Entry(d[j], Occurrences(keys, d[j])))
  }

  function KeysOf(es: seq<Entry>): seq<string> {
    seq(|es|, j requires 0 <= j < |es| => es[j].key)
  }

  /** The sum of the counts of a dictionary. */
  function Total(es: seq<Entry>): nat {
    if es == [] then 0 else Total(es[..|es| - 1]) + es[|es| - 1].count
  }

  /** Property lookup `d[k]`: the position of the entry for `k`, if there is one. */
  function KeyIndex(es: seq<Entry>, k: string): (r: Option<nat>)
    ensures r.Some? ==> r.value < |es| && es[r.value].key == k
    ensures r.None? ==> forall j :: 0 <= j < |es| ==> es[j].key != k
  {
    if es == [] then None
    else if es[|es| - 1].key == k then Some(|es| - 1)
    else KeyIndex(es[..|es| - 1], k)
  }

  /** `d[k] = (d[k] || 0) + 1`: bump an existing entry in place, or append a new one. */
  function Bump(es: seq<Entry>, k: string): seq<Entry> {
    match KeyIndex(es, k)
    case Some(j) => es[j := Entry(k, es[j].count + 1)]
    case None => es + [Entry(k, 1)]
  }

  // ---------------------------------------------------------------------------
  // Counting lemmas

  lemma {:induction false} OccurrencesAbsent(keys: seq<string>, k: string)
    requires k !in keys
    ensures Occurrences(keys, k) == 0
    decreases |keys|
  {
    if keys != [] {
      assert keys[..|keys| - 1] <= keys;
      OccurrencesAbsent(keys[..|keys| - 1], k);
    }
  }

  /** Counting one more key is one `Bump` of the dictionary counted so far. */
  lemma BumpTallied(keys: seq<string>, k: string)
    ensures Bump(Tallied(keys), k) == Tallied(keys + [k])
  {
    var ks := keys + [k];
    assert ks[..|ks| - 1] == keys;
    var d := Dedup(keys);
    var es := Tallied(keys);
    match KeyIndex(es, k)
    case Some(j) =>
      assert Dedup(ks) == d;
      forall i | 0 <= i < |d| ensures Bump(es, k)[i] == Tallied(ks)[i] {
        if i != j {
          assert d[i] != k;
        }
      }
    case None =>
      assert forall i :: 0 <= i < |d| ==> es[i].key == d[i];
      assert k !in d;
      OccurrencesAbsent(keys, k);
      assert Dedup(ks) == d + [k];
      assert Bump(es, k) == es + [Entry(k, 1)];
  }

  lemma {:induction false} TotalUpdate(es: seq<Entry>, j: nat, e: Entry)
    requires j < |es|
    ensures Total(es[j := e]) + es[j].count == Total(es) + e.count
    decreases |es|
  {
    var last := |es| - 1;
    if j == last {
      assert es[j := e][..last] == es[..last];
    } else {
      assert es[j := e][..last] == es[..last][j := e];
      TotalUpdate(es[..last], j, e);
    }
  }

  /** Every counted key contributes exactly one to the dictionary's total. */
  lemma {:induction false} TalliedTotal(keys: seq<string>)
    ensures Total(Tallied(keys)) == |keys|
    decreases |keys|
  {
    if keys != [] {
      var prefix := keys[..|keys| - 1];
      var k := keys[|keys| - 1];
      assert prefix + [k] == keys;
      TalliedTotal(prefix);
      BumpTallied(prefix, k);
      var es := Tallied(prefix);
      match KeyIndex(es, k)
      case Some(j) =>
        TotalUpdate(es, j, Entry(k, es[j].count + 1));
      case None =>
        assert (es + [Entry(k, 1)])[..|es|] == es;
    }
  }

  /** The dictionary has one entry per distinct key, and nothing else. */
  lemma TalliedKeys(keys: seq<string>)
    ensures KeysOf(Tallied(keys)) == Dedup(keys)
    ensures Distinct(KeysOf(Tallied(keys)))
    ensures |Tallied(keys)| == |set k | k in keys|
  {
    var d := Dedup(keys);
    DistinctCard(d);
    assert (set k | k in d) == (set k | k in keys);
  }

  lemma {:induction false} DistinctCard(d: seq<string>)
    requires Distinct(d)
    ensures |set k | k in d| == |d|
    decreases |d|
  {
    if d != [] {
      var d' := d[..|d| - 1];
      var x := d[|d| - 1];
      DistinctCard(d');
      assert x !in d';
      assert (set k | k in d) == (set k | k in d') + {x};
    }
  }

  // ---------------------------------------------------------------------------
  // First maximum

  function Sum(s: seq<nat>): nat {
    if s == [] then 0 else Sum(s[..|s| - 1]) + s[|s| - 1]
  }

  /**
   * `counts.reduce((max, curr) => curr > max ? curr : max, -1)` as an index:
   * a maximum, and the first one (every earlier bucket is strictly smaller).
   */
  function FirstPeak(counts: seq<nat>): (i: nat)
    requires |counts| > 0
    ensures i < |counts|
    ensures forall j :: 0 <= j < |counts| ==> counts[j] <= counts[i]
    ensures forall j :: 0 <= j < i ==> counts[j] < counts[i]
  {
    if |counts| == 1 then 0
    else
      var i := FirstPeak(counts[..|counts| - 1]);
      if counts[|counts| - 1] > counts[i] then |counts| - 1 else i
  }

  // ---------------------------------------------------------------------------
  // Stable sort by descending count

  predicate SortedDesc(s: seq<Entry>) {
    forall i, j :: 0 <= i < j < |s| ==> s[i].count >= s[j].count
  }

  /** The entries with count `c`, in order. */
  function WithCount(s: seq<Entry>, c: nat): seq<Entry> {
    if s == [] then [] else (if s[0].count == c then [s[0]] else []) + WithCount(s[1..], c)
  }

  /** Insert `x` after every entry whose count is at least `x`'s. */
  function InsertByCount(sorted: seq<Entry>, x: Entry): seq<Entry>
    decreases |sorted|
  {
    if sorted == [] then [x]
    else if sorted[0].count >= x.count then [sorted[0]] + InsertByCount(sorted[1..], x)
    else [x] + sorted
  }

  /** Inserting adds exactly `x`. */
  lemma {:induction false} InsertAdds(sorted: seq<Entry>, x: Entry)
    ensures multiset(InsertByCount(sorted, x)) == multiset(sorted) + multiset{x}
    decreases |sorted|
  {
    if sorted != [] && sorted[0].count >= x.count {
      InsertAdds(sorted[1..], x);
      assert sorted == [sorted[0]] + sorted[1..];
    }
  }

  /** No entry counts more than `b`. */
  predicate AtMost(s: seq<Entry>, b: nat) {
    forall i :: 0 <= i < |s| ==> s[i].count <= b
  }

  lemma {:induction false} InsertAtMost(sorted: seq<Entry>, x: Entry, b: nat)
    requires AtMost(sorted, b) && x.count <= b
    ensures AtMost(InsertByCount(sorted, x), b)
    decreases |sorted|
  {
    if sorted != [] && sorted[0].count >= x.count {
      InsertAtMost(sorted[1..], x, b);
    }
  }

  lemma ConsSorted(h: Entry, rest: seq<Entry>)
    requires SortedDesc(rest) && AtMost(rest, h.count)
    ensures SortedDesc([h] + rest)
  {
    var r := [h] + rest;
    forall i, j | 0 <= i < j < |r| ensures r[i].count >= r[j].count {
      assert r[j] == rest[j - 1];
      if i > 0 {
        assert r[i] == rest[i - 1];
      }
    }
  }

  /** Inserting into a sorted list keeps it sorted. */
  lemma {:induction false} InsertSorted(sorted: seq<Entry>, x: Entry)
    requires SortedDesc(sorted)
    ensures SortedDesc(InsertByCount(sorted, x))
    decreases |sorted|
  {
    if sorted == [] {
    } else if sorted[0].count >= x.count {
      InsertSorted(sorted[1..], x);
      InsertAtMost(sorted[1..], x, sorted[0].count);
      ConsSorted(sorted[0], InsertByCount(sorted[1..], x));
    } else {
      ConsSorted(x, sorted);
    }
  }

  /** Inserting `x` puts it after every entry of equal count: the insertion is stable. */
  lemma {:induction false} InsertStable(sorted: seq<Entry>, x: Entry, c: nat)
    requires SortedDesc(sorted)
    ensures WithCount(InsertByCount(sorted, x), c) == WithCount(sorted, c) + (if x.count == c then [x] else [])
    decreases |sorted|
  {
    var tail := if x.count == c then [x] else [];
    if sorted == [] {
    } else if sorted[0].count >= x.count {
      var h, rest := sorted[0], InsertByCount(sorted[1..], x);
      var own := if h.count == c then [h] else [];
      SortedTail(sorted);
      InsertStable(sorted[1..], x, c);
      ConsWithCount(h, rest, c);
      assert own + (WithCount(sorted[1..], c) + tail) == (own + WithCount(sorted[1..], c)) + tail;
    } else {
      ConsWithCount(x, sorted, c);
      if x.count == c {
        NoneWithCount(sorted, c);
        assert tail + [] == [] + tail;
      } else {
        assert [] + WithCount(sorted, c) == WithCount(sorted, c) + [];
      }
    }
  }

  lemma ConsWithCount(h: Entry, rest: seq<Entry>, c: nat)
    ensures WithCount([h] + rest, c) == (if h.count == c then [h] else []) + WithCount(rest, c)
  {
    assert ([h] + rest)[0] == h && ([h] + rest)[1..] == rest;
  }

  lemma SortedTail(s: seq<Entry>)
    requires SortedDesc(s) && |s| > 0
    ensures SortedDesc(s[1..])
  {
    assert forall i :: 0 <= i < |s[1..]| ==> s[1..][i] == s[i + 1];
  }

  lemma {:induction false} NoneWithCount(s: seq<Entry>, c: nat)
    requires forall i :: 0 <= i < |s| ==> s[i].count < c
    ensures WithCount(s, c) == []
    decreases |s|
  {
    if s != [] {
      NoneWithCount(s[1..], c);
    }
  }

  lemma {:induction false} WithCountAppend(a: seq<Entry>, b: seq<Entry>, c: nat)
    ensures WithCount(a + b, c) == WithCount(a, c) + WithCount(b, c)
    decreases |a|
  {
    if a == [] {
      assert a + b == b;
    } else {
      var own := if a[0].count == c then [a[0]] else [];
      assert a + b == [a[0]] + (a[1..] + b);
      assert a == [a[0]] + a[1..];
      ConsWithCount(a[0], a[1..] + b, c);
      ConsWithCount(a[0], a[1..], c);
      WithCountAppend(a[1..], b, c);
      assert own + (WithCount(a[1..], c) + WithCount(b, c)) == (own + WithCount(a[1..], c)) + WithCount(b, c);
    }
  }

  /**
   * `entries.sort((a, b) => b.count - a.count)` with a stable sort:
   * non-increasing counts, a permutation of the input, and entries of equal
   * count keep their input order.
   */
  function SortByCountDesc(es: seq<Entry>): (r: seq<Entry>)
    ensures SortedDesc(r)
    ensures multiset(r) == multiset(es)
    ensures |r| == |es|
    ensures forall c :: WithCount(r, c) == WithCount(es, c)
    decreases |es|
  {
    if es == [] then []
    else
      var init := es[..|es| - 1];
      var x := es[|es| - 1];
      assert init + [x] == es;
      var sortedInit := SortByCountDesc(init);
      var r := InsertByCount(sortedInit, x);
      InsertSorted(sortedInit, x);
      InsertAdds(sortedInit, x);
      assert multiset(r) == multiset(es);
      assert |r| == |multiset(r)|;
      forall c ensures WithCount(r, c) == WithCount(es, c) {
        InsertStable(sortedInit, x, c);
        WithCountAppend(init, [x], c);
      }
      r
  }

  /** A dictionary with distinct keys holds each entry at most once. */
  lemma {:induction false} DistinctKeysOnce(es: seq<Entry>)
    requires Distinct(KeysOf(es))
    ensures forall e :: multiset(es)[e] <= 1
    decreases |es|
  {
    if es != [] {
      var init, x := es[..|es| - 1], es[|es| - 1];
      assert es == init + [x];
      assert Distinct(KeysOf(init)) by {
        assert forall i :: 0 <= i < |init| ==> KeysOf(init)[i] == KeysOf(es)[i];
      }
      DistinctKeysOnce(init);
      forall i | 0 <= i < |init| ensures init[i] != x {
        assert KeysOf(es)[i] != KeysOf(es)[|es| - 1];
      }
    }
  }

  /** An entry at two positions occurs at least twice. */
  lemma TwicePlaced(s: seq<Entry>, i: nat, j: nat)
    requires i < j < |s| && s[i] == s[j]
    ensures multiset(s)[s[i]] >= 2
  {
    assert s == s[..j] + [s[j]] + s[j + 1..];
    assert s[..j][i] == s[i];
    assert s[i] in multiset(s[..j]);
  }
}
