/**
 * The three Python string primitives the checker relies on: argument-less
 * `str.split()`, argument-less `str.strip()` and `" ".join(...)`.
 * Whitespace is the ASCII whitespace Python recognises.
 */
module Strings {

  /** Concatenation is associative (stated once, so that proofs need not rediscover it). */
  lemma SeqAssoc<T>(p: seq<T>, q: seq<T>, r: seq<T>)
    ensures p + (q + r) == (p + q) + r
  {
  }

  /** Python's `str.isspace` restricted to ASCII: \t \n \v \f \r, \x1c-\x1f and ' '. */
  predicate IsSpace(c: char) {
    c == ' ' || ('\t' <= c <= '\r') || ('\U{1c}' <= c <= '\U{1f}')
  }

  /** A token as `str.split()` produces it: non-empty, no whitespace inside. */
  predicate IsWord(w: string) {
    |w| > 0 && forall i :: 0 <= i < |w| ==> !IsSpace(w[i])
  }

  /** Length of the maximal whitespace-free prefix of `s`. */
  function TokenEnd(s: string): (n: nat)
    ensures n <= |s|
    ensures forall i :: 0 <= i < n ==> !IsSpace(s[i])
    ensures n < |s| ==> IsSpace(s[n])
  {
    if s == [] || IsSpace(s[0]) then 0 else 1 + TokenEnd(s[1..])
  }

  /** `s.split()`: the maximal whitespace-free runs of `s`, in order. */
  function Split(s: string): (r: seq<string>)
    ensures forall i :: 0 <= i < |r| ==> IsWord(r[i])
    decreases |s|
  {
    if s == [] then []
    else if IsSpace(s[0]) then Split(s[1..])
    else
      var n := TokenEnd(s);
      [s[..n]] + Split(s[n..])
  }

  /** The summed lengths of `xs`. */
  function TotalLength(xs: seq<string>): nat {
    if xs == [] then 0 else |xs[0]| + TotalLength(xs[1..])
  }

  /**
   * `sep.join(xs)`: the first item comes first, and the result is as long as
   * the items together plus one separator between each neighbouring pair.
   */
  function Join(sep: string, xs: seq<string>): (r: string)
    ensures xs != [] ==> |xs[0]| <= |r| && r[..|xs[0]|] == xs[0]
    ensures xs != [] ==> |r| == TotalLength(xs) + (|xs| - 1) * |sep|
  {
    if xs == [] then []
    else if |xs| == 1 then xs[0]
    else xs[0] + sep + Join(sep, xs[1..])
  }

  /** `s.lstrip()`. */
  function LStrip(s: string): (r: string)
    ensures |r| <= |s|
    ensures r == [] || !IsSpace(r[0])
  {
    if s != [] && IsSpace(s[0]) then LStrip(s[1..]) else s
  }

  /** `s.rstrip()`. */
  function RStrip(s: string): (r: string)
    ensures |r| <= |s|
    ensures r == [] || !IsSpace(r[|r| - 1])
    ensures r == s[..|r|]
  {
    if s != [] && IsSpace(s[|s| - 1]) then RStrip(s[..|s| - 1]) else s
  }

  /** `s.strip()`: neither end of the result is whitespace. */
  function Strip(s: string): (r: string)
    ensures |r| <= |s|
    ensures r == [] || (!IsSpace(r[0]) && !IsSpace(r[|r| - 1]))
  {
    var l := LStrip(s);
    var r := RStrip(l);
    assert r != [] ==> r[0] == l[0];
    r
  }

  /** The splits of a list of strings, concatenated. */
  function SplitAll(xs: seq<string>): seq<string> {
    if xs == [] then [] else Split(xs[0]) + SplitAll(xs[1..])
  }

  lemma {:induction false} TokenEndAppend(a: string, c: string)
    requires c == [] || IsSpace(c[0])
    ensures TokenEnd(a + c) == TokenEnd(a)
    decreases |a|
  {
    if a == [] {
      assert a + c == c;
    } else {
      assert (a + c)[0] == a[0];
      assert (a + c)[1..] == a[1..] + c;
      if !IsSpace(a[0]) {
        TokenEndAppend(a[1..], c);
      }
    }
  }

  /** Splitting does not fuse a token with what follows a whitespace character. */
  lemma {:induction false} SplitAppend(a: string, c: string)
    requires c == [] || IsSpace(c[0])
    ensures Split(a + c) == Split(a) + Split(c)
    decreases |a|
  {
    if a == [] {
      assert a + c == c;
    } else if IsSpace(a[0]) {
      assert (a + c)[1..] == a[1..] + c;
      SplitAppend(a[1..], c);
    } else {
      var n := TokenEnd(a);
      TokenEndAppend(a, c);
      assert (a + c)[..n] == a[..n];
      assert (a + c)[n..] == a[n..] + c;
      SplitAppend(a[n..], c);
    }
  }

  /** A single space between two strings separates their tokens. */
  lemma SplitSeparated(a: string, b: string)
    ensures Split(a + " " + b) == Split(a) + Split(b)
  {
    assert a + " " + b == a + (" " + b);
    SplitAppend(a, " " + b);
    assert (" " + b)[1..] == b;
  }

  /** Splitting a space-joined list is splitting each element. */
  lemma {:induction false} SplitJoin(xs: seq<string>)
    ensures Split(Join(" ", xs)) == SplitAll(xs)
  {
    if xs == [] {
    } else if |xs| == 1 {
      assert xs[1..] == [];
    } else {
      SplitSeparated(xs[0], Join(" ", xs[1..]));
      SplitJoin(xs[1..]);
    }
  }

  /** A word splits into itself. */
  lemma SplitWord(w: string)
    requires IsWord(w)
    ensures Split(w) == [w]
  {
    assert TokenEnd(w) == |w|;
    assert w[..|w|] == w;
  }

  /** `" ".join` of words is undone by `split()`. */
  lemma {:induction false} SplitJoinWords(ws: seq<string>)
    requires forall i :: 0 <= i < |ws| ==> IsWord(ws[i])
    ensures Split(Join(" ", ws)) == ws
  {
    SplitJoin(ws);
    SplitAllWords(ws);
  }

  lemma {:induction false} SplitAllWords(ws: seq<string>)
    requires forall i :: 0 <= i < |ws| ==> IsWord(ws[i])
    ensures SplitAll(ws) == ws
  {
    if ws != [] {
      SplitWord(ws[0]);
      SplitAllWords(ws[1..]);
    }
  }

  lemma {:induction false} SplitLStrip(s: string)
    ensures Split(LStrip(s)) == Split(s)
  {
    if s != [] && IsSpace(s[0]) {
      SplitLStrip(s[1..]);
    }
  }

  lemma {:induction false} SplitRStrip(s: string)
    ensures Split(RStrip(s)) == Split(s)
    decreases |s|
  {
    if s != [] && IsSpace(s[|s| - 1]) {
      var p, t := s[..|s| - 1], [s[|s| - 1]];
      assert s == p + t;
      SplitAppend(p, t);
      assert Split(t) == Split(t[1..]) == [];
      SplitRStrip(p);
    }
  }

  /** Stripping a text node never changes the tokens it splits into. */
  lemma SplitStrip(s: string)
    ensures Split(Strip(s)) == Split(s)
  {
    SplitLStrip(s);
    SplitRStrip(LStrip(s));
  }
}
