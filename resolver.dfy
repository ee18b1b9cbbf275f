/**
 * `get_pronouns`: choose the lexicon from an optional command-line override and
 * the language declared by the page. The raised exceptions become `Err` values.
 */
module Resolver {
  import opened Wrappers
  import opened Lexicon

  datatype LangError =
    | NotRecognized(arg: string)  // the override is neither "ru" nor "en"
    | MissingKey(key: string)     // the code looked up is not in the table

  /** The codes an override may name. */
  const Overrides: seq<Option<string>> := [Some(RU), Some(EN), None]

  /**
   * The override is validated first, whatever the page declares; a valid one
   * wins; without one the declared language is looked up and may be missing.
   */
  function GetPronouns(argLang: Option<string>, lang: string): (r: Result<Pronouns, LangError>)
    ensures argLang.Some? && argLang.value != RU && argLang.value != EN ==>
              r == Err(NotRecognized(argLang.value))
    ensures argLang.Some? && (argLang.value == RU || argLang.value == EN) ==>
              r == Ok(PRONOUNS[argLang.value])
    ensures argLang.None? && lang in PRONOUNS ==> r == Ok(PRONOUNS[lang])
    ensures argLang.None? && lang !in PRONOUNS ==> r == Err(MissingKey(lang))
    ensures r.Ok? ==> r.value == PRONOUNS[RU] || r.value == PRONOUNS[EN]
  {
    if argLang !in Overrides then Err(NotRecognized(argLang.value))
    else
      var key := if argLang.Some? then argLang.value else lang;
      if key in PRONOUNS then Ok(PRONOUNS[key]) else Err(MissingKey(key))
  }

  /** A valid override makes the declared language irrelevant. */
  lemma OverrideWins(code: string, lang1: string, lang2: string)
    requires code == RU || code == EN
    ensures GetPronouns(Some(code), lang1) == GetPronouns(Some(code), lang2)
  {
  }

  /** An unrecognised override fails for every declared language, even a valid one. */
  lemma BadOverrideFails(code: string, lang: string)
    requires code != RU && code != EN
    ensures GetPronouns(Some(code), lang).Err?
  {
  }
}
