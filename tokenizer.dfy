/**
 * `clean_text`: split a text on whitespace, lowercase each token, delete every
 * character outside the class [A-Za-zА-Яа-я] and drop the tokens left empty.
 * Lowercasing is modelled on the Latin letters A-Z and the Cyrillic block
 * U+0400-U+042F (Ѐ-Џ and А-Я); every other character is left as it is.
 */
module Tokenizer {
  import opened Strings

  /** A character the filter `[^A-Za-zА-Яа-я]` keeps. */
  predicate IsKept(c: char) {
    ('A' <= c <= 'Z') || ('a' <= c <= 'z') || ('А' <= c <= 'Я') || ('а' <= c <= 'я')
  }

  /** A lowercase letter of the kept class: a-z or а-я. */
  predicate IsLowerLetter(c: char) {
    ('a' <= c <= 'z') || ('а' <= c <= 'я')
  }

  /** `str.lower` on one character. Ё (U+0401) becomes ё (U+0451), outside а-я. */
  function Lower(c: char): (r: char)
    ensures ('A' <= c <= 'Z' || 'А' <= c <= 'Я') ==> r as int == c as int + 32
    ensures '\U{400}' <= c <= '\U{40F}' ==> r as int == c as int + 0x50
    ensures !('A' <= c <= 'Z' || '\U{400}' <= c <= 'Я') ==> r == c
    ensures IsKept(r) ==> IsLowerLetter(r)
    ensures IsLowerLetter(c) ==> r == c
  {
    if 'A' <= c <= 'Z' then (c as int + 32) as char
    else if 'А' <= c <= 'Я' then (c as int + 32) as char
    else if '\U{400}' <= c <= '\U{40F}' then (c as int + 0x50) as char
    else c
  }

  /** `str.lower` on a string, character by character. */
  function LowerStr(s: string): (r: string)
    ensures |r| == |s|
    ensures forall i :: 0 <= i < |s| ==> r[i] == Lower(s[i])
  {
    if s == [] then [] else [Lower(s[0])] + LowerStr(s[1..])
  }

  /** `reg.sub("", s)`: delete every character the class does not keep. */
  function RemoveNonLetters(s: string): (r: string)
    ensures |r| <= |s|
    ensures forall i :: 0 <= i < |r| ==> IsKept(r[i]) && r[i] in s
    ensures (forall i :: 0 <= i < |s| ==> IsKept(s[i])) ==> r == s
  {
    if s == [] then []
    else (if IsKept(s[0]) then [s[0]] else []) + RemoveNonLetters(s[1..])
  }

  /** Every kept character survives as often as it occurs; every other one is gone. */
  lemma {:induction false} RemoveNonLettersCounts(s: string, c: char)
    ensures multiset(RemoveNonLetters(s))[c] == if IsKept(c) then multiset(s)[c] else 0
  {
    if s != [] {
      assert s == [s[0]] + s[1..];
      RemoveNonLettersCounts(s[1..], c);
    }
  }

  /** The filter works character by character: deleting never reorders or merges. */
  lemma {:induction false} RemoveNonLettersAppend(a: string, b: string)
    ensures RemoveNonLetters(a + b) == RemoveNonLetters(a) + RemoveNonLetters(b)
  {
    if a == [] {
      assert a + b == b;
    } else {
      var h: string := if IsKept(a[0]) then [a[0]] else [];
      var x, y := RemoveNonLetters(a[1..]), RemoveNonLetters(b);
      calc {
        RemoveNonLetters(a + b);
        { assert (a + b)[0] == a[0]; assert (a + b)[1..] == a[1..] + b; }
        h + RemoveNonLetters(a[1..] + b);
        { RemoveNonLettersAppend(a[1..], b); }
        h + (x + y);
        { SeqAssoc(h, x, y); }
        (h + x) + y;
      }
    }
  }

  lemma LowerStrAppend(a: string, b: string)
    ensures LowerStr(a + b) == LowerStr(a) + LowerStr(b)
  {
    var l, r := LowerStr(a + b), LowerStr(a) + LowerStr(b);
    forall i | 0 <= i < |l| ensures l[i] == r[i] {
      if i < |a| { assert (a + b)[i] == a[i]; } else { assert (a + b)[i] == b[i - |a|]; }
    }
  }

  /**
   * A mark between two stretches of lowercase letters is deleted and the
   * letters on both sides are kept and joined: "don't" gives "dont".
   */
  lemma CleanTokenDropsMark(a: string, m: char, b: string)
    requires forall i :: 0 <= i < |a| ==> IsLowerLetter(a[i])
    requires forall i :: 0 <= i < |b| ==> IsLowerLetter(b[i])
    requires !IsKept(Lower(m))
    ensures CleanToken(a + [m] + b) == a + b
  {
    var lm := Lower(m);
    calc {
      LowerStr(a + [m] + b);
      { LowerStrAppend(a + [m], b); LowerStrAppend(a, [m]); }
      LowerStr(a) + LowerStr([m]) + LowerStr(b);
      { LowerLetters(a); LowerLetters(b); assert LowerStr([m]) == [lm]; }
      a + [lm] + b;
    }
    calc {
      RemoveNonLetters(a + [lm] + b);
      { RemoveNonLettersAppend(a + [lm], b); RemoveNonLettersAppend(a, [lm]); }
      RemoveNonLetters(a) + RemoveNonLetters([lm]) + RemoveNonLetters(b);
      { assert RemoveNonLetters([lm]) == []; }
      a + b;
    }
  }

  lemma LowerLetters(w: string)
    requires forall i :: 0 <= i < |w| ==> IsLowerLetter(w[i])
    ensures LowerStr(w) == w
  {
  }


  /** The image of one whitespace token. */
  function CleanToken(w: string): (r: string)
    ensures forall i :: 0 <= i < |r| ==> IsLowerLetter(r[i])
  {
    RemoveNonLetters(LowerStr(w))
  }

  /** A word `clean_text` can produce: non-empty, lowercase kept letters only. */
  predicate IsNormal(w: string) {
    |w| > 0 && forall i :: 0 <= i < |w| ==> IsLowerLetter(w[i])
  }

  /** map-then-filter over the tokens: the non-empty images, in order. */
  function CleanTokens(ts: seq<string>): (r: seq<string>)
    ensures |r| <= |ts|
    ensures forall i :: 0 <= i < |r| ==> IsNormal(r[i])
  {
    if ts == [] then []
    else
      var w := CleanToken(ts[0]);
      (if w != [] then [w] else []) + CleanTokens(ts[1..])
  }

  /**
   * `clean_text(text)`: only non-empty words of a-z and а-я, at most one per
   * whitespace token, and every non-empty token image kept, in token order,
   * as often as it occurs.
   */
  function CleanText(text: string): (r: seq<string>)
    ensures forall i :: 0 <= i < |r| ==> IsNormal(r[i])
    ensures |r| <= |Split(text)|
    ensures IsSubsequence(r, Images(Split(text)))
    ensures forall w :: w != [] ==> multiset(r)[w] == multiset(Images(Split(text)))[w]
  {
    var ts := Split(text);
    CleanTokensSubsequence(ts);
    assert forall w :: w != [] ==> multiset(CleanTokens(ts))[w] == multiset(Images(ts))[w] by {
      forall w | w != [] ensures multiset(CleanTokens(ts))[w] == multiset(Images(ts))[w] {
        CleanTokensCounts(ts, w);
      }
    }
    CleanTokens(ts)
  }

  /** The per-token images before empty ones are dropped. */
  function Images(ts: seq<string>): (r: seq<string>)
    ensures |r| == |ts|
    ensures forall i :: 0 <= i < |ts| ==> r[i] == CleanToken(ts[i])
  {
    if ts == [] then [] else [CleanToken(ts[0])] + Images(ts[1..])
  }

  /** `a` can be obtained from `b` by deleting elements. */
  predicate IsSubsequence(a: seq<string>, b: seq<string>)
    decreases |b|
  {
    if a == [] then true
    else if b == [] then false
    else (a[0] == b[0] && IsSubsequence(a[1..], b[1..])) || IsSubsequence(a, b[1..])
  }

  /** The output keeps the order of the tokens and every non-empty image (`CleanTokensCounts` gives the multiplicities). */
  lemma {:induction false} CleanTokensSubsequence(ts: seq<string>)
    ensures IsSubsequence(CleanTokens(ts), Images(ts))
    ensures forall i :: 0 <= i < |ts| && CleanToken(ts[i]) != [] ==> CleanToken(ts[i]) in CleanTokens(ts)
  {
    if ts != [] {
      CleanTokensSubsequence(ts[1..]);
      var w := CleanToken(ts[0]);
      assert Images(ts)[1..] == Images(ts[1..]);
      if w != [] {
        assert CleanTokens(ts)[1..] == CleanTokens(ts[1..]);
      } else {
        assert CleanTokens(ts) == CleanTokens(ts[1..]);
        SubsequenceOfTail(CleanTokens(ts[1..]), Images(ts));
      }
      forall i | 0 <= i < |ts| && CleanToken(ts[i]) != []
        ensures CleanToken(ts[i]) in CleanTokens(ts)
      {
        if i > 0 { assert ts[1..][i - 1] == ts[i]; }
      }
    }
  }

  /** Each non-empty image is kept as many times as it occurs. */
  lemma {:induction false} CleanTokensCounts(ts: seq<string>, w: string)
    requires w != []
    ensures multiset(CleanTokens(ts))[w] == multiset(Images(ts))[w]
  {
    if ts != [] {
      CleanTokensCounts(ts[1..], w);
      var h := CleanToken(ts[0]);
      assert Images(ts) == [h] + Images(ts[1..]);
      assert CleanTokens(ts) == (if h != [] then [h] else []) + CleanTokens(ts[1..]);
    }
  }

  lemma SubsequenceOfTail(a: seq<string>, b: seq<string>)
    requires b != [] && IsSubsequence(a, b[1..])
    ensures IsSubsequence(a, b)
  {
  }

  /** Ё and ё never survive: lowercasing sends Ё to ё, which the class removes. */
  lemma NoYo(text: string, i: nat, j: nat)
    requires i < |CleanText(text)| && j < |CleanText(text)[i]|
    ensures CleanText(text)[i][j] != 'ё' && CleanText(text)[i][j] != 'Ё'
    ensures Lower('Ё') == 'ё' && !IsKept('ё')
  {
  }

  /** The lexicon forms "нём" and "её" are never among the words. */
  lemma YoFormsNeverProduced(text: string)
    ensures "нём" !in CleanText(text) && "её" !in CleanText(text)
  {
    var ws := CleanText(text);
    forall i | 0 <= i < |ws| ensures ws[i] != "нём" && ws[i] != "её" {
      assert IsNormal(ws[i]);
      assert !IsNormal("нём") by { assert !IsLowerLetter("нём"[1]); }
      assert !IsNormal("её") by { assert !IsLowerLetter("её"[1]); }
    }
  }

  /** A normal word is its own image. */
  lemma CleanTokenNormal(w: string)
    requires IsNormal(w)
    ensures CleanToken(w) == w
  {
    assert LowerStr(w) == w;
  }

  lemma {:induction false} CleanTokensNormal(ws: seq<string>)
    requires forall i :: 0 <= i < |ws| ==> IsNormal(ws[i])
    ensures CleanTokens(ws) == ws
  {
    if ws != [] {
      CleanTokenNormal(ws[0]);
      CleanTokensNormal(ws[1..]);
    }
  }

  /** Cleaning distributes over concatenation of token lists. */
  lemma {:induction false} CleanTokensAppend(a: seq<string>, b: seq<string>)
    ensures CleanTokens(a + b) == CleanTokens(a) + CleanTokens(b)
  {
    if a == [] {
      assert a + b == b;
    } else {
      var w := CleanToken(a[0]);
      var h: seq<string> := if w != [] then [w] else [];
      var x, y := CleanTokens(a[1..]), CleanTokens(b);
      calc {
        CleanTokens(a + b);
        { assert (a + b)[0] == a[0]; assert (a + b)[1..] == a[1..] + b; }
        h + CleanTokens(a[1..] + b);
        { CleanTokensAppend(a[1..], b); }
        h + (x + y);
        { SeqAssoc(h, x, y); }
        (h + x) + y;
      }
    }
  }

  /** `clean_text(" ".join(clean_text(x))) == clean_text(x)`. */
  lemma CleanTextIdempotent(text: string)
    ensures CleanText(Join(" ", CleanText(text))) == CleanText(text)
  {
    var ws := CleanText(text);
    forall i | 0 <= i < |ws| ensures IsWord(ws[i]) {
      assert forall j :: 0 <= j < |ws[i]| ==> !IsSpace(ws[i][j]);
    }
    SplitJoinWords(ws);
    CleanTokensNormal(ws);
  }
}
