# Pronoun checker — a Dafny model

A model of the core of the pronoun checker (`pronouns_checker/main.py`). The
checker takes the visible text of a web page and splits it into normalised
words. It then counts the Russian first-person pronoun forms and the other
personal pronoun forms among them, and says whether the first-person forms
are more numerous ("БОЛЬШЕ") or not ("МЕНЬШЕ").

Modules, one per component of the script:

- `Wrappers` — `Option` and `Result`, used for Python's `None` and for raised exceptions.
- `Strings` — the Python string primitives the script relies on: argument-less `str.split()`, `str.strip()` and `" ".join`. Whitespace is ASCII whitespace.
- `Lexicon` — the `Pronouns` pair and the `PRONOUNS` table.
- `Tokenizer` — the character class `[A-Za-zА-Яа-я]` (`reg`), lowercasing, and `clean_text`.
- `Extractor` — `tag_visible`, and the strip-and-join and language choice of `parse_html`. Both work over an already-parsed page: the attributes of its `<html>` element and its text nodes in document order.
- `Resolver` — `get_pronouns`, with its two failures as `Err` values.
- `Tally` — `collections.Counter` built from a list of words. Its keys are kept in first-occurrence order, and `total()` is the sum of the counts.
- `Classifier` — `calculate`.
- `Reporter` — the decisions of `print_result` and `print_counter`: the totals, the breakdown sorted by count with Python's stable sort, and the verdict.
- `Pipeline` — `main` after the page has been fetched, plus end-to-end lemmas.
- `Scenarios` — lemmas that work through concrete pages.

Two behaviours of the code that a reader might not expect, modelled as written:

- A page with no `<html>` element makes `soup.html` `None`, so `.get("lang", EN)` raises. `Extractor.ParseHtml` returns `Err(NoHtmlElement)` for such a page, and `Pipeline.Run` states that the run then fails before the override is looked at.
- `Ё` lowercases to `ё` (U+0451), which lies outside `а-я` (U+0430–U+044F), so the filter deletes it. As a result, the lexicon entries "нём" and "её" can never be counted (`Tokenizer.YoFormsNeverProduced`, `Pipeline.YoFormsNeverCounted`).

## Model

| member | source | states |
|---|---|---|
| `Lexicon.TableKeys` | pronouns_checker/main.py:18-64 | the table knows exactly the codes "ru" and "en" |
| `Lexicon.TableDisjoint` | pronouns_checker/main.py:19-62 | in every lexicon of the table, and so in the Russian one, no form is both first-person and other |
| `Lexicon.EnglishEmpty` | pronouns_checker/main.py:63 | both English lists are empty |
| `Strings.Split` | pronouns_checker/main.py:120 | every token of `split()` is non-empty and contains no whitespace |
| `Strings.Join` | pronouns_checker/main.py:115 | `" ".join(xs)` begins with the first item and is as long as all items together plus one separator per neighbouring pair |
| `Strings.SplitAppend` | pronouns_checker/main.py:120 | splitting `a + c`, where `c` begins with whitespace, is splitting `a` and then `c`: no token spans the boundary |
| `Strings.SplitJoinWords` | pronouns_checker/main.py:120 | `split()` inverts `" ".join` on a list of whitespace-free non-empty words |
| `Strings.SplitStrip` | pronouns_checker/main.py:115 | `strip()` never changes the tokens a string splits into |
| `Strings.Strip` | pronouns_checker/main.py:115 | neither end of the stripped string is whitespace, and it is no longer than the input |
| `Tokenizer.Lower` | pronouns_checker/main.py:120 | `str.lower` on one character: A–Z and А–Я move up by 32 code points to a–z and а–я, Ѐ–Џ (Ё included) move up by 0x50 to ѐ–џ, and every other character is unchanged; so a kept result is always a lowercase letter |
| `Tokenizer.LowerStr` | pronouns_checker/main.py:120 | `w.lower()` keeps the length and lowercases each character by itself |
| `Tokenizer.RemoveNonLetters` | pronouns_checker/main.py:66 | `reg.sub("", s)` keeps only characters of `[A-Za-zА-Яа-я]`, each taken from `s`, and is the identity on a string made only of such characters |
| `Tokenizer.RemoveNonLettersCounts` | pronouns_checker/main.py:66 | every kept character survives `reg.sub` as often as it occurs in `s`, and every other character is gone |
| `Tokenizer.RemoveNonLettersAppend` | pronouns_checker/main.py:66 | the filter of a concatenation is the concatenation of the filters, so kept characters keep their order |
| `Tokenizer.CleanTokenDropsMark` | pronouns_checker/main.py:120 | a non-letter between two runs of lowercase letters is deleted and the two runs are joined ("don't" gives "dont"); the mark never splits the word |
| `Tokenizer.CleanToken` | pronouns_checker/main.py:120 | the image of a token consists of lowercase letters a-z and а-я only |
| `Tokenizer.CleanTokens` | pronouns_checker/main.py:119-121 | the filter over the token images returns only non-empty lowercase words and no more words than tokens |
| `Tokenizer.CleanText` | pronouns_checker/main.py:118-122 | `clean_text` returns only non-empty words of a-z and а-я, at most one per whitespace token, as an order-preserving subsequence of the token images that keeps every non-empty image exactly as often as it occurs |
| `Tokenizer.CleanTokensSubsequence` | pronouns_checker/main.py:119-121 | the output is an order-preserving subsequence of the token images, and every non-empty image appears in it |
| `Tokenizer.CleanTokensCounts` | pronouns_checker/main.py:119-121 | each non-empty image occurs in the output exactly as often as among the images: no repetition is dropped |
| `Tokenizer.NoYo` | pronouns_checker/main.py:66 | no character of any output word is `ё` or `Ё`, because `Ё` lowercases to `ё`, which the class does not keep |
| `Tokenizer.YoFormsNeverProduced` | pronouns_checker/main.py:49-52 | the lexicon forms "нём" and "её" are never among `clean_text`'s words |
| `Tokenizer.CleanTokenNormal` | pronouns_checker/main.py:120 | a word already made of lowercase class letters is its own image |
| `Tokenizer.CleanTokensAppend` | pronouns_checker/main.py:119-121 | cleaning a concatenation of token lists is the concatenation of the cleanings |
| `Tokenizer.CleanTextIdempotent` | pronouns_checker/main.py:118-122 | `clean_text(" ".join(clean_text(x))) == clean_text(x)` |
| `Extractor.TagVisible` | pronouns_checker/main.py:95-107 | a text node is invisible exactly when its parent is style, script, head, title, meta or [document], or it is a comment |
| `Extractor.VisibleTexts` | pronouns_checker/main.py:114-115 | at most one stripped text per node, none starting or ending with whitespace |
| `Extractor.PageText` | pronouns_checker/main.py:113-115 | the page text splits into the tokens of the visible nodes, node after node: the join never fuses and stripping never loses a token |
| `Extractor.ParseHtml` | pronouns_checker/main.py:110-115 | fails exactly when there is no `<html>` element; otherwise returns the visible text and the `lang` attribute, or "en" when it is absent |
| `Extractor.HiddenNodeIgnored` | pronouns_checker/main.py:114 | an invisible node anywhere in the document leaves the page text unchanged |
| `Resolver.GetPronouns` | pronouns_checker/main.py:125-128 | an override other than "ru"/"en" fails whatever the page declares; a valid override selects its own lexicon; with no override, the declared code is looked up and a missing code fails; any success is one of the two table entries |
| `Resolver.OverrideWins` | pronouns_checker/main.py:128 | with a valid override the declared language makes no difference |
| `Resolver.BadOverrideFails` | pronouns_checker/main.py:126-127 | an unrecognised override fails for every declared language |
| `Tally.Count` | pronouns_checker/main.py:157 | `Counter(ws)` has each distinct word once as a key, every count positive, and `c[w]` equal to the number of occurrences of `w` in `ws` (0 for absent words) |
| `Tally.CountKeyOrder` | pronouns_checker/main.py:157 | the Counter's keys are words of `ws`, in the order of their first occurrence |
| `Tally.Total` | pronouns_checker/main.py:140 | no single count exceeds `total()`, and for a well-formed Counter it is 0 exactly when the Counter is empty |
| `Tally.Items` | pronouns_checker/main.py:134 | `c.items()` pairs each key with its count, in key order; for a well-formed Counter its pairs are exactly the stored words with their counts |
| `Tally.TotalCount` | pronouns_checker/main.py:140 | `Counter(ws).total()` is the length of `ws` |
| `Classifier.Select` | pronouns_checker/main.py:157 | the filtered list is no longer than `words` and holds only forms of the list |
| `Classifier.SelectCounts` | pronouns_checker/main.py:157 | the filtered list holds each word as often as `words` does if it is a form of the list, and never otherwise |
| `Classifier.Calculate` | pronouns_checker/main.py:156-159 | both Counters are well formed; the first holds the number of occurrences of `w` if `w` is a first-person form and 0 otherwise, and the other does the same for the other forms |
| `Classifier.SelectDisjoint` | pronouns_checker/main.py:157-158 | over disjoint lists the two selections together are no longer than the words, and exactly as long iff every word is a form of one list |
| `Classifier.CalculateTotals` | pronouns_checker/main.py:140 | with a disjoint lexicon the two totals add up to at most the number of words, with equality iff every word is a pronoun form |
| `Classifier.EnglishTotalsZero` | pronouns_checker/main.py:63 | with the English lexicon both totals are 0 for any words |
| `Reporter.Insert` | pronouns_checker/main.py:134 | inserting an entry adds exactly that entry |
| `Reporter.InsertSorted` | pronouns_checker/main.py:134 | insertion keeps a list in descending count order |
| `Reporter.InsertStable` | pronouns_checker/main.py:134 | insertion does not reorder entries of equal count |
| `Reporter.SortByCount` | pronouns_checker/main.py:134 | the sorted breakdown is in descending count order and is a permutation of the items; for every count, the entries with that count keep their input order (stability) |
| `Reporter.SortRankSorted` | pronouns_checker/main.py:134 | if the input is in increasing rank, the output is sorted by count and then by rank |
| `Reporter.Breakdown` | pronouns_checker/main.py:131-136 | the printed table is in descending count order and permutes `items()`; for a well-formed counter an entry is in it exactly when it pairs a stored word with that word's count |
| `Reporter.BreakdownEntries` | pronouns_checker/main.py:131-136 | the breakdown of `Counter(ws)` lists exactly the pairs (word of `ws`, its number of occurrences) |
| `Reporter.BreakdownTieOrder` | pronouns_checker/main.py:134 | in that breakdown, counts descend and words of equal count appear in order of first occurrence |
| `Reporter.Decide` | pronouns_checker/main.py:152 | the verdict word is "БОЛЬШЕ" exactly when the first total is strictly larger; a tie, two zero totals included, gives "МЕНЬШЕ" |
| `Reporter.PrintResult` | pronouns_checker/main.py:139-153 | reports both totals, says "БОЛЬШЕ" exactly when the first total is strictly larger, and gives sorted breakdowns that permute the items exactly when `with_stat` is set |
| `Pipeline.PageWords` | pronouns_checker/main.py:113-122 | the words of the page text are the `clean_text` words of each visible node, node after node |
| `Pipeline.Run` | pronouns_checker/main.py:172-181 | a page without `<html>` fails in extraction whatever the override; a failed lexicon lookup fails the run with that error; otherwise the report is `print_result` of `calculate` on the words of the visible nodes, node after node |
| `Pipeline.BadOverrideFailsRun` | pronouns_checker/main.py:126-127 | a run with an unrecognised override fails with that error |
| `Pipeline.RunTotals` | pronouns_checker/main.py:172-181 | every successful run reports totals whose sum is at most the number of words on the page, and says "БОЛЬШЕ" exactly when the first total is strictly larger |
| `Pipeline.EnglishRun` | pronouns_checker/main.py:172-181 | a run resolved to English, by override or by declaration, succeeds with both totals 0 and verdict "МЕНЬШЕ" |
| `Pipeline.YoFormsNeverCounted` | pronouns_checker/main.py:157-158 | whatever the lexicon and text, the counts of "нём" and "её" are 0 |
| `Scenarios.GreetingText` | pronouns_checker/main.py:110-114 | the visible nodes of the example page, stripped and joined with one space, give "Привет мир" |
| `Scenarios.GreetingExtracted` | pronouns_checker/main.py:110-115 | style and script text is excluded: the example page gives ("Привет мир", "ru") |
| `Scenarios.EmptyPage` | pronouns_checker/main.py:172-181 | a page with no text gives totals 0 and "МЕНЬШЕ" |
| `Scenarios.CleanCapitalYa` | pronouns_checker/main.py:120 | the token "Я" cleans to "я" |
| `Scenarios.DropFinalDot` | pronouns_checker/main.py:120 | a trailing full stop is deleted from a word, not turned into a separator |
| `Scenarios.CleanSentence` | pronouns_checker/main.py:118-122 | the tokens of "Я люблю тебя. Ты любишь меня." clean to я, люблю, тебя, ты, любишь, меня: capitals lowercased, full stops deleted, no token dropped |
| `Scenarios.SentenceSelect` | pronouns_checker/main.py:156-158 | in those words the first-person forms are я and меня, and the other forms are тебя and ты |
| `Scenarios.SentenceText` | pronouns_checker/main.py:118-122 | `clean_text("Я люблю тебя. Ты любишь меня.")` is я, люблю, тебя, ты, любишь, меня: the string splits into its six tokens, which clean to those words |
| `Scenarios.SentenceReport` | pronouns_checker/main.py:139-159 | `clean_text` of "Я люблю тебя. Ты любишь меня." gives totals 2 and 2 and, by the strict comparison, the verdict "МЕНЬШЕ" |

## Left out

- Fetching the page (`requests.get`, the `response.ok` check and its error message, main.py:165-171) is network I/O. The model starts from the fetched page.
- The command line (`get_parser`, argparse, main.py:71-92) is CLI plumbing. Its two results, the override and the `--with-stat` flag, are parameters of `Pipeline.Run`.
- HTML parsing by BeautifulSoup is a foreign library. The parsed page is an input: the attributes of the first `<html>` element, if there is one, and the text nodes in document order, each with its parent's tag name and whether it is a comment.
- Console output: the `print` calls, their wording and their column widths. The model keeps the totals, the breakdown order and the verdict word.
- Unicode beyond what the filter distinguishes. `Tokenizer.Lower` is Python's `str.lower` on A–Z and on U+0400–U+042F (Ѐ–Џ, А–Я) and the identity elsewhere. Python also lowercases a few other characters into the kept class, for example the Kelvin sign K to `k` and `İ` to `i` followed by a combining dot. The model deletes these instead. `split()` and `strip()` are modelled on ASCII whitespace only, without Unicode spaces such as U+00A0.
- Strings.Strip: its contract states that the ends of the result are not whitespace and that the result is no longer than the input, but not that only leading and trailing whitespace was removed. `Strings.SplitStrip` states the consequence the pipeline needs.
- Running several pages concurrently: the script handles one page per process.
