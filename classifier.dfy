/**
 * `calculate`: keep the words that are forms of each list of the lexicon and
 * count them, giving one Counter for first-person forms and one for the others.
 */
module Classifier {
  import opened Lexicon
  import opened Tally

  /** `filter(lambda w: w in forms, words)`. */
  function Select(words: seq<string>, forms: seq<string>): (r: seq<string>)
    ensures |r| <= |words|
    ensures forall i :: 0 <= i < |r| ==> r[i] in forms
  {
    if words == [] then []
    else (if words[0] in forms then [words[0]] else []) + Select(words[1..], forms)
  }

  /** The filter keeps every occurrence of a listed word and nothing else. */
  lemma {:induction false} SelectCounts(words: seq<string>, forms: seq<string>, w: string)
    ensures multiset(Select(words, forms))[w] == if w in forms then multiset(words)[w] else 0
  {
    if words != [] {
      assert words == [words[0]] + words[1..];
      SelectCounts(words[1..], forms, w);
    }
  }

  /**
   * `calculate(pronouns, words)`: the first-person Counter and the other
   * Counter. Each holds a word's number of occurrences iff the word is in its list.
   */
  function Calculate(p: Pronouns, words: seq<string>): (r: (Counter, Counter))
    ensures Valid(r.0) && Valid(r.1)
    ensures forall w :: Get(r.0, w) == if w in p.first then multiset(words)[w] else 0
    ensures forall w :: Get(r.1, w) == if w in p.other then multiset(words)[w] else 0
  {
    var a, b := Select(words, p.first), Select(words, p.other);
    assert forall w :: multiset(a)[w] == (if w in p.first then multiset(words)[w] else 0) &&
                       multiset(b)[w] == (if w in p.other then multiset(words)[w] else 0) by {
      forall w ensures multiset(a)[w] == (if w in p.first then multiset(words)[w] else 0) &&
                       multiset(b)[w] == (if w in p.other then multiset(words)[w] else 0) {
        SelectCounts(words, p.first, w);
        SelectCounts(words, p.other, w);
      }
    }
    (Count(a), Count(b))
  }

  /** Every word is a form of `a` or of `b`. */
  predicate AllForms(words: seq<string>, a: seq<string>, b: seq<string>) {
    forall i :: 0 <= i < |words| ==> words[i] in a || words[i] in b
  }

  lemma AllFormsCons(words: seq<string>, a: seq<string>, b: seq<string>)
    requires words != []
    ensures AllForms(words, a, b) <==> (words[0] in a || words[0] in b) && AllForms(words[1..], a, b)
  {
    if (words[0] in a || words[0] in b) && AllForms(words[1..], a, b) {
      forall i | 0 < i < |words| ensures words[i] in a || words[i] in b {
        assert words[i] == words[1..][i - 1];
      }
    }
  }

  /** Over disjoint lists, each word is selected at most once, and exactly once iff it matches a list. */
  lemma {:induction false} SelectDisjoint(words: seq<string>, a: seq<string>, b: seq<string>)
    requires forall w :: w in a ==> w !in b
    ensures |Select(words, a)| + |Select(words, b)| <= |words|
    ensures |Select(words, a)| + |Select(words, b)| == |words| <==> AllForms(words, a, b)
  {
    if words != [] {
      SelectDisjoint(words[1..], a, b);
      AllFormsCons(words, a, b);
    }
  }

  /**
   * With a disjoint lexicon the two totals together never exceed the number of
   * words, and reach it exactly when every word is a pronoun form.
   */
  lemma CalculateTotals(p: Pronouns, words: seq<string>)
    requires Disjoint(p)
    ensures Total(Calculate(p, words).0) + Total(Calculate(p, words).1) <= |words|
    ensures Total(Calculate(p, words).0) + Total(Calculate(p, words).1) == |words| <==>
              AllForms(words, p.first, p.other)
  {
    TotalCount(Select(words, p.first));
    TotalCount(Select(words, p.other));
    SelectDisjoint(words, p.first, p.other);
  }

  /** An empty list of forms selects nothing. */
  lemma {:induction false} SelectNothing(words: seq<string>)
    ensures Select(words, []) == []
  {
    if words != [] {
      SelectNothing(words[1..]);
    }
  }

  /** With the English lexicon both totals are 0. */
  lemma EnglishTotalsZero(words: seq<string>)
    ensures Total(Calculate(PRONOUNS[EN], words).0) == 0
    ensures Total(Calculate(PRONOUNS[EN], words).1) == 0
  {
    var p := PRONOUNS[EN];
    assert p.first == [] && p.other == [];
    SelectNothing(words);
    TotalCount([]);
  }
}
