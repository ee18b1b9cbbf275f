/**
 * The static pronoun lexicon: for each supported language code, the list of
 * first-person pronoun forms and the list of the other personal pronoun forms.
 * Both lists keep the repetitions of the original table (case forms that
 * coincide in spelling); membership is all that is ever asked of them.
 */
module Lexicon {

  datatype Pronouns = Pronouns(first: seq<string>, other: seq<string>)

  const RU: string := "ru"
  const EN: string := "en"

  const RuFirst: seq<string> :=
    ["я", "меня", "мне", "меня", "мной", "мною", "мне", "мы", "нас", "нам", "нами", "нами"]

  const RuOther: seq<string> :=
    ["ты", "тебя", "тебе", "тобой", "вы", "вас", "вам", "вами", "он", "оно", "его", "ему", "им",
     "нем", "нём", "она", "ее", "её", "ей", "ею", "ней", "они", "их", "им", "ими", "них"]

  /** The table keyed by language code; English is a deliberate placeholder with no forms. */
  const PRONOUNS: map<string, Pronouns> :=
    map[RU := Pronouns(RuFirst, RuOther), EN := Pronouns([], [])]

  /** The two lists of a lexicon have no form in common. */
  predicate Disjoint(p: Pronouns) {
    forall w :: w in p.first ==> w !in p.other
  }

  /** Exactly the two codes are known. */
  lemma TableKeys()
    ensures PRONOUNS.Keys == {RU, EN}
  {
  }

  /** Russian first-person forms are "я", the "м" forms and the "на" forms. */
  predicate FirstPersonShape(w: string) {
    w == "я" || (|w| >= 2 && (w[0] == 'м' || (w[0] == 'н' && w[1] == 'а')))
  }

  /** The shape tells the two Russian lists apart. */
  lemma RuShapes()
    ensures forall w :: w in RuFirst ==> FirstPersonShape(w)
    ensures forall w :: w in RuOther ==> !FirstPersonShape(w)
  {
    assert forall i :: 0 <= i < |RuFirst| ==> FirstPersonShape(RuFirst[i]);
    assert forall i :: 0 <= i < |RuOther| ==> !FirstPersonShape(RuOther[i]);
  }

  /** Every configured lexicon is disjoint; in particular the Russian one. */
  lemma TableDisjoint()
    ensures forall code :: code in PRONOUNS ==> Disjoint(PRONOUNS[code])
  {
    RuShapes();
  }

  /** The English lexicon classifies nothing. */
  lemma EnglishEmpty()
    ensures PRONOUNS[EN].first == [] && PRONOUNS[EN].other == []
  {
  }
}
