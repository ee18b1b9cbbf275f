/**
 * `collections.Counter` built from an iterable of words: a mapping from word
 * to a positive count whose keys keep the order of first occurrence. A word
 * that is not a key reads as 0, and `total()` is the sum of the counts.
 */
module Tally {

  datatype Counter = Counter(keys: seq<string>, counts: map<string, nat>)

  /** `c[w]`: missing words count 0. */
  function Get(c: Counter, w: string): nat {
    if w in c.counts then c.counts[w] else 0
  }

  ghost predicate Distinct(s: seq<string>) {
    forall i, j :: 0 <= i < j < |s| ==> s[i] != s[j]
  }

  /** The keys list the mapping's domain once each, and every count is positive. */
  ghost predicate Valid(c: Counter) {
    && Distinct(c.keys)
    && (forall w :: w in c.counts <==> w in c.keys)
    && (forall w :: w in c.counts ==> c.counts[w] > 0)
  }

  /** One more occurrence of `w`; a new word goes to the end of the key order. */
  function Add(c: Counter, w: string): Counter {
    if w in c.counts then Counter(c.keys, c.counts[w := c.counts[w] + 1])
    else Counter(c.keys + [w], c.counts[w := 1])
  }

  /** `Counter(ws)`. */
  function Count(ws: seq<string>): (c: Counter)
    ensures Valid(c)
    ensures forall w :: Get(c, w) == multiset(ws)[w]
  {
    if ws == [] then Counter([], map[])
    else
      var p, x := ws[..|ws| - 1], ws[|ws| - 1];
      assert ws == p + [x];
      Add(Count(p), x)
  }

  /** Index of the first occurrence of `w` in `ws`. */
  function FirstIndex(ws: seq<string>, w: string): (i: nat)
    requires w in ws
    ensures i < |ws| && ws[i] == w && w !in ws[..i]
  {
    if ws[0] == w then 0 else 1 + FirstIndex(ws[1..], w)
  }

  lemma {:induction false} FirstIndexAppend(p: seq<string>, x: string, w: string)
    requires w in p + [x]
    ensures w in p ==> FirstIndex(p + [x], w) == FirstIndex(p, w)
    ensures w !in p ==> FirstIndex(p + [x], w) == |p|
  {
    if p != [] && p[0] != w {
      assert (p + [x])[1..] == p[1..] + [x];
      FirstIndexAppend(p[1..], x, w);
    }
  }

  /** The keys are the distinct words, in the order they first occur. */
  lemma {:induction false} CountKeyOrder(ws: seq<string>)
    ensures forall i :: 0 <= i < |Count(ws).keys| ==> Count(ws).keys[i] in ws
    ensures forall i, j :: 0 <= i < j < |Count(ws).keys| ==>
              FirstIndex(ws, Count(ws).keys[i]) < FirstIndex(ws, Count(ws).keys[j])
  {
    var c := Count(ws);
    forall i | 0 <= i < |c.keys| ensures c.keys[i] in ws {
      assert c.keys[i] in c.counts;
      assert multiset(ws)[c.keys[i]] == Get(c, c.keys[i]) > 0;
    }
    if ws != [] {
      var p, x := ws[..|ws| - 1], ws[|ws| - 1];
      assert ws == p + [x];
      CountKeyOrder(p);
      var cp := Count(p);
      forall i | 0 <= i < |cp.keys| ensures FirstIndex(ws, cp.keys[i]) == FirstIndex(p, cp.keys[i]) {
        FirstIndexAppend(p, x, cp.keys[i]);
      }
      if x !in cp.counts {
        assert x !in p by { assert multiset(p)[x] == 0; }
        FirstIndexAppend(p, x, x);
        forall i | 0 <= i < |cp.keys| ensures FirstIndex(ws, cp.keys[i]) < FirstIndex(ws, x) {
          assert cp.keys[i] in p;
        }
      }
    }
  }

  /** Sum of the counts of `keys` in `m`, accumulated from the last key back. */
  function Sum(keys: seq<string>, m: map<string, nat>): (r: nat)
    ensures forall i :: 0 <= i < |keys| && keys[i] in m ==> m[keys[i]] <= r
  {
    if keys == [] then 0
    else
      var k := keys[|keys| - 1];
      Sum(keys[..|keys| - 1], m) + (if k in m then m[k] else 0)
  }

  /** `Counter.total()`: no single count exceeds it, and it is 0 only for the empty Counter. */
  function Total(c: Counter): (r: nat)
    ensures forall w :: w in c.keys && w in c.counts ==> c.counts[w] <= r
    ensures Valid(c) ==> (r == 0 <==> c.keys == [])
  {
    assert Valid(c) && c.keys != [] ==> c.keys[|c.keys| - 1] in c.counts;
    Sum(c.keys, c.counts)
  }

  /** The `(word, count)` pairs of `c.items()`, in key order. */
  function Items(c: Counter): (r: seq<(string, nat)>)
    ensures |r| == |c.keys| && forall i :: 0 <= i < |r| ==> r[i].0 == c.keys[i]
    ensures Valid(c) ==> forall e :: e in r <==> e.0 in c.counts && e.1 == c.counts[e.0]
  {
    var r := seq(|c.keys|, i requires 0 <= i < |c.keys| => (c.keys[i], Get(c, c.keys[i])));
    assert Valid(c) ==> forall e :: e in r <==> e.0 in c.counts && e.1 == c.counts[e.0] by {
      if Valid(c) {
        forall e ensures e in r <==> e.0 in c.counts && e.1 == c.counts[e.0] {
          if e in r {
            var i :| 0 <= i < |r| && r[i] == e;
            assert c.keys[i] in c.keys;
          }
          if e.0 in c.counts && e.1 == c.counts[e.0] {
            var i :| 0 <= i < |c.keys| && c.keys[i] == e.0;
            assert r[i] == e;
          }
        }
      }
    }
    r
  }

  lemma {:induction false} SumFrame(keys: seq<string>, m1: map<string, nat>, m2: map<string, nat>)
    requires forall k :: k in keys ==> (k in m1 <==> k in m2) && (k in m1 ==> m1[k] == m2[k])
    ensures Sum(keys, m1) == Sum(keys, m2)
  {
    if keys != [] {
      SumFrame(keys[..|keys| - 1], m1, m2);
    }
  }

  lemma {:induction false} SumBump(keys: seq<string>, m: map<string, nat>, w: string)
    requires Distinct(keys) && w in keys && w in m
    ensures Sum(keys, m[w := m[w] + 1]) == Sum(keys, m) + 1
  {
    var p, k := keys[..|keys| - 1], keys[|keys| - 1];
    assert keys == p + [k];
    if k == w {
      assert w !in p;
      SumFrame(p, m, m[w := m[w] + 1]);
    } else {
      SumBump(p, m, w);
    }
  }

  lemma TotalAdd(c: Counter, w: string)
    requires Valid(c)
    ensures Total(Add(c, w)) == Total(c) + 1
  {
    if w in c.counts {
      SumBump(c.keys, c.counts, w);
    } else {
      var keys := c.keys + [w];
      assert keys[..|keys| - 1] == c.keys;
      SumFrame(c.keys, c.counts, c.counts[w := 1]);
    }
  }

  /** `Counter(ws).total() == len(ws)`. */
  lemma {:induction false} TotalCount(ws: seq<string>)
    ensures Total(Count(ws)) == |ws|
  {
    if ws != [] {
      var p := ws[..|ws| - 1];
      TotalCount(p);
      TotalAdd(Count(p), ws[|ws| - 1]);
    }
  }
}
