/**
 * What `print_result` and `print_counter` decide, without the console layout:
 * the two totals, the optional per-word breakdowns ordered by count with
 * Python's stable `sorted(..., reverse=True)`, and the verdict word chosen
 * by a strict comparison of the totals.
 */
module Reporter {
  import opened Wrappers
  import opened Strings
  import opened Tally

  type Entry = (string, nat)

  /** Counts never increase from left to right. */
  predicate SortedDesc(s: seq<Entry>) {
    forall i, j :: 0 <= i < j < |s| ==> s[i].1 >= s[j].1
  }

  /** The entries of `s` whose count is `k`, in their order in `s`. */
  function WithCount(s: seq<Entry>, k: nat): seq<Entry> {
    if s == [] then []
    else (if s[0].1 == k then [s[0]] else []) + WithCount(s[1..], k)
  }

  lemma {:induction false} WithCountAppend(a: seq<Entry>, b: seq<Entry>, k: nat)
    ensures WithCount(a + b, k) == WithCount(a, k) + WithCount(b, k)
  {
    if a == [] {
      assert a + b == b;
    } else {
      var h: seq<Entry> := if a[0].1 == k then [a[0]] else [];
      var x, y := WithCount(a[1..], k), WithCount(b, k);
      calc {
        WithCount(a + b, k);
        { assert (a + b)[0] == a[0]; assert (a + b)[1..] == a[1..] + b; }
        h + WithCount(a[1..] + b, k);
        { WithCountAppend(a[1..], b, k); }
        h + (x + y);
        { SeqAssoc(h, x, y); }
        (h + x) + y;
      }
    }
  }

  /** Place `x` before the first entry whose count is not larger than its own. */
  function Insert(x: Entry, s: seq<Entry>): (r: seq<Entry>)
    ensures multiset(r) == multiset(s) + multiset{x}
  {
    if s == [] || x.1 >= s[0].1 then [x] + s
    else
      assert s == [s[0]] + s[1..];
      [s[0]] + Insert(x, s[1..])
  }

  /** Every entry of `Insert(x, s)` is `x` or an entry of `s`. */
  lemma InsertMember(x: Entry, s: seq<Entry>, y: Entry)
    requires y in Insert(x, s)
    ensures y == x || y in s
  {
    assert y in multiset(Insert(x, s));
  }

  lemma SortedCons(e: Entry, t: seq<Entry>)
    requires SortedDesc(t)
    requires forall j :: 0 <= j < |t| ==> e.1 >= t[j].1
    ensures SortedDesc([e] + t)
  {
    var r := [e] + t;
    forall i, j | 0 <= i < j < |r| ensures r[i].1 >= r[j].1 {
      assert r[j] == t[j - 1];
      if i > 0 { assert r[i] == t[i - 1]; }
    }
  }

  lemma {:induction false} InsertSorted(x: Entry, s: seq<Entry>)
    requires SortedDesc(s)
    ensures SortedDesc(Insert(x, s))
  {
    if s == [] || x.1 >= s[0].1 {
      SortedCons(x, s);
    } else {
      var s1 := s[1..];
      var t := Insert(x, s1);
      InsertSorted(x, s1);
      forall j | 0 <= j < |t| ensures s[0].1 >= t[j].1 {
        InsertMember(x, s1, t[j]);
        if t[j] != x {
          var m :| 0 <= m < |s1| && s1[m] == t[j];
          assert s[1 + m] == t[j];
        }
      }
      SortedCons(s[0], t);
    }
  }

  /** Insertion only moves `x` past entries of a different count. */
  lemma WithCountCons(e: Entry, r: seq<Entry>, k: nat)
    ensures WithCount([e] + r, k) == (if e.1 == k then [e] else []) + WithCount(r, k)
  {
    assert ([e] + r)[0] == e;
    assert ([e] + r)[1..] == r;
  }

  lemma {:induction false} InsertStable(x: Entry, s: seq<Entry>, k: nat)
    ensures WithCount(Insert(x, s), k) == WithCount([x] + s, k)
  {
    if !(s == [] || x.1 >= s[0].1) {
      var s0, s1 := s[0], s[1..];
      var t := Insert(x, s1);
      assert s == [s0] + s1;
      assert Insert(x, s) == [s0] + t;
      WithCountCons(s0, t, k);
      InsertStable(x, s1, k);
      WithCountCons(x, s1, k);
      WithCountCons(s0, s1, k);
      WithCountCons(x, s, k);
      if x.1 == k {
        assert s0.1 != k;
        calc {
          WithCount([s0] + t, k);
          WithCount(t, k);
          [x] + WithCount(s1, k);
          [x] + WithCount(s, k);
        }
      } else {
        calc {
          WithCount([s0] + t, k);
          (if s0.1 == k then [s0] else []) + WithCount(s1, k);
          WithCount(s, k);
        }
      }
    }
  }

  /**
   * `sorted(items, key=count, reverse=True)`: counts descending, a permutation
   * of the input, and stable: the entries of any one count keep their order.
   */
  function SortByCount(s: seq<Entry>): (r: seq<Entry>)
    ensures SortedDesc(r)
    ensures multiset(r) == multiset(s)
    ensures forall k :: WithCount(r, k) == WithCount(s, k)
  {
    if s == [] then []
    else
      var t := SortByCount(s[1..]);
      assert s == [s[0]] + s[1..];
      InsertSorted(s[0], t);
      assert forall k :: WithCount(Insert(s[0], t), k) == WithCount(s, k) by {
        forall k ensures WithCount(Insert(s[0], t), k) == WithCount(s, k) {
          InsertStable(s[0], t, k);
          WithCountAppend([s[0]], t, k);
          WithCountAppend([s[0]], s[1..], k);
        }
      }
      Insert(s[0], t)
  }

  /** Sorted by count descending, ties broken by increasing `rank` of the word. */
  ghost predicate RankSorted(s: seq<Entry>, rank: string -> int) {
    forall i, j :: 0 <= i < j < |s| ==> RankBefore(s[i], s[j], rank)
  }

  /** `a` may stand before `b`: a larger count, or the same count and a smaller rank. */
  ghost predicate RankBefore(a: Entry, b: Entry, rank: string -> int) {
    a.1 > b.1 || (a.1 == b.1 && rank(a.0) < rank(b.0))
  }

  lemma RankSortedCons(e: Entry, t: seq<Entry>, rank: string -> int)
    requires RankSorted(t, rank)
    requires forall j :: 0 <= j < |t| ==> RankBefore(e, t[j], rank)
    ensures RankSorted([e] + t, rank)
  {
    var r := [e] + t;
    forall i, j | 0 <= i < j < |r| ensures RankBefore(r[i], r[j], rank) {
      assert r[j] == t[j - 1];
      if i > 0 { assert r[i] == t[i - 1]; }
    }
  }

  lemma {:induction false} InsertRankSorted(x: Entry, s: seq<Entry>, rank: string -> int)
    requires RankSorted(s, rank)
    requires forall i :: 0 <= i < |s| ==> rank(x.0) < rank(s[i].0)
    ensures RankSorted(Insert(x, s), rank)
  {
    if s == [] || x.1 >= s[0].1 {
      forall j | 0 <= j < |s| ensures RankBefore(x, s[j], rank) {
        if j > 0 { assert RankBefore(s[0], s[j], rank); }
      }
      RankSortedCons(x, s, rank);
    } else {
      var s1 := s[1..];
      var t := Insert(x, s1);
      assert RankSorted(s1, rank) by {
        forall i, j | 0 <= i < j < |s1| ensures RankBefore(s1[i], s1[j], rank) {
          assert RankBefore(s[i + 1], s[j + 1], rank);
        }
      }
      InsertRankSorted(x, s1, rank);
      forall j | 0 <= j < |t| ensures RankBefore(s[0], t[j], rank) {
        InsertMember(x, s1, t[j]);
        if t[j] != x {
          var m :| 0 <= m < |s1| && s1[m] == t[j];
          assert s[1 + m] == t[j];
          assert RankBefore(s[0], s[1 + m], rank);
        }
      }
      RankSortedCons(s[0], t, rank);
    }
  }

  /** When the input is in increasing rank, equal counts stay in rank order. */
  lemma {:induction false} SortRankSorted(s: seq<Entry>, rank: string -> int)
    requires forall i, j :: 0 <= i < j < |s| ==> rank(s[i].0) < rank(s[j].0)
    ensures RankSorted(SortByCount(s), rank)
  {
    if s != [] {
      var t := SortByCount(s[1..]);
      SortRankSorted(s[1..], rank);
      forall i | 0 <= i < |t| ensures rank(s[0].0) < rank(t[i].0) {
        assert t[i] in multiset(s[1..]);
        var m :| 0 <= m < |s[1..]| && s[1..][m] == t[i];
        assert s[1 + m] == t[i];
      }
      InsertRankSorted(s[0], t, rank);
    }
  }

  /**
   * The table `print_counter` prints for a Counter: counts descending, a
   * permutation of `items()`, and so each stored word once with its count.
   */
  function Breakdown(c: Counter): (r: seq<Entry>)
    ensures SortedDesc(r) && multiset(r) == multiset(Items(c))
    ensures Valid(c) ==> forall e :: e in r <==> e.0 in c.counts && e.1 == Get(c, e.0)
  {
    var r := SortByCount(Items(c));
    assert Valid(c) ==> forall e :: e in r <==> e.0 in c.counts && e.1 == Get(c, e.0) by {
      if Valid(c) {
        forall e ensures e in r <==> e.0 in c.counts && e.1 == Get(c, e.0) {
          assert e in r <==> e in multiset(r);
          assert e in Items(c) <==> e in multiset(Items(c));
        }
      }
    }
    r
  }

  /** Position of a word's first occurrence, or past the end for a word absent from `ws`. */
  function FirstPosition(ws: seq<string>, w: string): nat {
    if w in ws then FirstIndex(ws, w) else |ws|
  }

  /** The breakdown of `Counter(ws)` lists every distinct word once, with its number of occurrences. */
  lemma BreakdownEntries(ws: seq<string>)
    ensures forall e :: e in Breakdown(Count(ws)) <==> e.0 in ws && e.1 == multiset(ws)[e.0]
  {
    var c := Count(ws);
    forall e ensures e in Breakdown(c) <==> e.0 in ws && e.1 == multiset(ws)[e.0] {
      assert Get(c, e.0) == multiset(ws)[e.0];
    }
  }

  /** In the breakdown of `Counter(ws)`, words of equal count keep their order of first occurrence. */
  lemma BreakdownTieOrder(ws: seq<string>)
    ensures RankSorted(Breakdown(Count(ws)), w => FirstPosition(ws, w))
  {
    var c := Count(ws);
    CountKeyOrder(ws);
    SortRankSorted(Items(c), w => FirstPosition(ws, w));
  }

  datatype Verdict = More | Less

  /** The word of the final sentence. */
  function VerdictWord(v: Verdict): string {
    match v
    case More => "БОЛЬШЕ"
    case Less => "МЕНЬШЕ"
  }

  /**
   * `'БОЛЬШЕ' if f > o else 'МЕНЬШЕ'`: "БОЛЬШЕ" only for a strictly larger
   * first total; a tie, two zero totals included, reads "МЕНЬШЕ".
   */
  function Decide(f: nat, o: nat): (v: Verdict)
    ensures VerdictWord(v) == "БОЛЬШЕ" <==> f > o
    ensures f == o ==> VerdictWord(v) == "МЕНЬШЕ"
  {
    if f > o then More else Less
  }

  datatype Report = Report(
    firstTotal: nat,
    otherTotal: nat,
    firstStat: Option<seq<Entry>>,
    otherStat: Option<seq<Entry>>,
    verdict: Verdict)

  /** What `print_result(first, other, with_stat)` reports. */
  function PrintResult(first: Counter, other: Counter, withStat: bool): (r: Report)
    ensures r.verdict == More <==> Total(first) > Total(other)
    ensures r.firstTotal == Total(first) && r.otherTotal == Total(other)
    ensures r.firstStat.Some? == withStat && r.otherStat.Some? == withStat
    ensures r.firstStat.Some? ==>
              SortedDesc(r.firstStat.value) && multiset(r.firstStat.value) == multiset(Items(first))
    ensures r.otherStat.Some? ==>
              SortedDesc(r.otherStat.value) && multiset(r.otherStat.value) == multiset(Items(other))
  {
    var f, o := Total(first), Total(other);
    Report(f, o,
      if withStat then Some(Breakdown(first)) else None,
      if withStat then Some(Breakdown(other)) else None,
      Decide(f, o))
  }
}
