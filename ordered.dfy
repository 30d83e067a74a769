/**
 * java.util.TreeSet and java.util.TreeMap, as the services use them: a set
 * kept in the order of a comparator, where an element the comparator finds
 * equal to one already present is not added; and a map from strings to
 * values, kept in String.compareTo order of its keys, whose put replaces the
 * value of a present key and returns the one it replaced.
 */
module Ordered {
  import opened Strings

  /** Strictly ascending by String.compareTo, as a TreeSet<String> iterates. */
  ghost predicate Ascending(s: seq<string>) {
    forall i, j :: 0 <= i < j < |s| ==> Below(s[i], s[j])
  }

  /** TreeSet<String>.add: the set gains `x` (if it was absent) and stays in order. */
  function Insert(s: seq<string>, x: string): (r: seq<string>)
    requires Ascending(s)
    ensures Ascending(r)
    ensures forall y :: y in r <==> y in s || y == x
    ensures x in s ==> r == s
    ensures x !in s ==> |r| == |s| + 1
  {
    if s == [] then [x]
    else if x == s[0] then s
    else if Below(x, s[0]) then
      assert Ascending([x] + s) by {
        forall i, j | 0 <= i < j < |s| + 1 ensures Below(([x] + s)[i], ([x] + s)[j]) {
          if i == 0 && j > 1 { CompareTransitive(x, s[0], s[j - 1]); }
        }
      }
      assert x !in s by {
        if x in s {
          var k :| 0 <= k < |s| && s[k] == x;
          CompareTransitive(x, s[0], x);
          CompareZeroIffEqual(x, x);
        }
      }
      [x] + s
    else
      CompareTotal(x, s[0]);
      var t := Insert(s[1..], x);
      assert s == [s[0]] + s[1..];
      assert Ascending([s[0]] + t) by {
        forall i, j | 0 <= i < j < |t| + 1 ensures Below(([s[0]] + t)[i], ([s[0]] + t)[j]) {
          if i == 0 {
            assert t[j - 1] in t;
          }
        }
      }
      assert x in s <==> x in s[1..];
      [s[0]] + t
  }

  // ---------------------------------------------------------------------
  // TreeMap<String, V>
  // ---------------------------------------------------------------------

  /** The keys, in iteration order, strictly ascending by String.compareTo. */
  ghost predicate KeysSorted<V>(m: seq<(string, V)>) {
    forall i, j :: 0 <= i < j < |m| ==> Below(m[i].0, m[j].0)
  }

  function Keys<V>(m: seq<(string, V)>): (ks: seq<string>)
    ensures |ks| == |m| && forall i :: 0 <= i < |m| ==> ks[i] == m[i].0
  {
    if m == [] then [] else [m[0].0] + Keys(m[1..])
  }

  /** Map.get: the value stored under `k`, None when `k` is absent. */
  function Lookup<V>(m: seq<(string, V)>, k: string): (r: Option<V>)
    ensures r.None? <==> k !in Keys(m)
    ensures r.Some? ==> (k, r.value) in m
  {
    if m == [] then None
    else if m[0].0 == k then Some(m[0].1)
    else
      assert Keys(m) == [m[0].0] + Keys(m[1..]);
      Lookup(m[1..], k)
  }

  datatype Put<V> = Put(entries: seq<(string, V)>, previous: Option<V>)

  /** Map.put: store `v` under `k`, returning the value it replaced. */
  function PutEntry<V>(m: seq<(string, V)>, k: string, v: V): (r: Put<V>)
    requires KeysSorted(m)
    ensures KeysSorted(r.entries)
    ensures forall j :: j in Keys(r.entries) <==> j in Keys(m) || j == k
  {
    if m == [] then Put([(k, v)], None)
    else if m[0].0 == k then
      var e := [(k, v)] + m[1..];
      assert Keys(m) == [k] + Keys(m[1..]) && Keys(e) == [k] + Keys(m[1..]);
      Put(e, Some(m[0].1))
    else if Below(k, m[0].0) then
      var e := [(k, v)] + m;
      assert Keys(e) == [k] + Keys(m);
      assert KeysSorted(e) by {
        forall i, j | 0 <= i < j < |e| ensures Below(e[i].0, e[j].0) {
          if i == 0 && j > 1 { CompareTransitive(k, m[0].0, m[j - 1].0); }
        }
      }
      Put(e, None)
    else
      CompareTotal(k, m[0].0);
      var p := PutEntry(m[1..], k, v);
      var e := [m[0]] + p.entries;
      assert Keys(m) == [m[0].0] + Keys(m[1..]);
      assert Keys(e) == [m[0].0] + Keys(p.entries);
      assert KeysSorted(e) by {
        forall i, j | 0 <= i < j < |e| ensures Below(e[i].0, e[j].0) {
          if i == 0 {
            var y := e[j].0;
            assert y == Keys(p.entries)[j - 1];
            if y != k {
              assert y in Keys(m[1..]);
              var q :| 0 <= q < |m| - 1 && Keys(m[1..])[q] == y;
              assert m[q + 1].0 == y;
            }
          }
        }
      }
      Put(e, p.previous)
  }

  /** A key is below every later key, so it is not among them. */
  lemma HeadKeyUnique<V>(m: seq<(string, V)>)
    requires KeysSorted(m) && m != []
    ensures m[0].0 !in Keys(m[1..])
  {
    if m[0].0 in Keys(m[1..]) {
      var q :| 0 <= q < |m| - 1 && Keys(m[1..])[q] == m[0].0;
      assert Below(m[0].0, m[q + 1].0);
      CompareZeroIffEqual(m[0].0, m[0].0);
    }
  }

  /** put returns what get(k) gave before. */
  lemma {:induction false} PutPrevious<V>(m: seq<(string, V)>, k: string, v: V)
    requires KeysSorted(m)
    ensures PutEntry(m, k, v).previous == Lookup(m, k)
  {
    if m == [] {
    } else if m[0].0 == k {
    } else if Below(k, m[0].0) {
      assert k !in Keys(m) by {
        if k in Keys(m) {
          var q :| 0 <= q < |m| && Keys(m)[q] == k;
          CompareTransitive(k, m[0].0, k);
          CompareZeroIffEqual(k, k);
        }
      }
    } else {
      PutPrevious(m[1..], k, v);
    }
  }

  /** After put(k, v), get(k) is v and every other key keeps its value. */
  lemma {:induction false} PutThenLookup<V>(m: seq<(string, V)>, k: string, v: V, j: string)
    requires KeysSorted(m)
    ensures Lookup(PutEntry(m, k, v).entries, j) == if j == k then Some(v) else Lookup(m, j)
  {
    if m == [] {
    } else if m[0].0 == k {
      var e := [(k, v)] + m[1..];
      assert e[1..] == m[1..];
      if j != k {
        assert Lookup(e, j) == Lookup(m[1..], j);
      }
    } else if Below(k, m[0].0) {
      var e := [(k, v)] + m;
      assert e[1..] == m;
    } else {
      PutThenLookup(m[1..], k, v, j);
      var e := [m[0]] + PutEntry(m[1..], k, v).entries;
      assert e[1..] == PutEntry(m[1..], k, v).entries;
    }
  }
}
