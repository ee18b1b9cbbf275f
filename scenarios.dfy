/** Worked examples of the pipeline on concrete pages. */
module Scenarios {
  import opened Wrappers
  import opened Strings
  import opened Lexicon
  import opened Tokenizer
  import opened Extractor
  import opened Tally
  import opened Classifier
  import opened Reporter
  import opened Pipeline

  /** `<html lang="ru"><head><style>.a{}</style></head><body>Привет <script>x()</script>мир</body></html>` */
  const GreetingPage: Document := Document(
    Some(map["lang" := "ru"]),
    [TextNode("style", false, ".a{}"), TextNode("body", false, "Привет "),
     TextNode("script", false, "x()"), TextNode("body", false, "мир")])

  lemma StripGreetingWords()
    ensures Strip("Привет ") == "Привет" && Strip("мир") == "мир"
  {
    assert !IsSpace("Привет"[5]);
    assert "Привет "[..6] == "Привет";
    assert !IsSpace('П') && !IsSpace('м') && !IsSpace('р');
  }

  lemma GreetingVisible()
    ensures VisibleTexts(GreetingPage.texts) == ["Привет", "мир"]
  {
    var nodes := GreetingPage.texts;
    StripGreetingWords();
    assert !TagVisible(nodes[0]) && TagVisible(nodes[1]) && !TagVisible(nodes[2]) && TagVisible(nodes[3]);
    assert nodes[3..][1..] == [];
    assert VisibleTexts(nodes[3..]) == ["мир"];
    assert nodes[2..][1..] == nodes[3..];
    assert VisibleTexts(nodes[2..]) == ["мир"];
    assert nodes[1..][1..] == nodes[2..];
    assert VisibleTexts(nodes[1..]) == ["Привет", "мир"];
  }

  lemma JoinPair(a: string, b: string)
    ensures Join(" ", [a, b]) == a + " " + b
  {
    assert [a, b][1..] == [b];
  }

  lemma GreetingJoined()
    ensures Join(" ", ["Привет", "мир"]) == "Привет мир"
  {
    JoinPair("Привет", "мир");
    assert "Привет" + " " + "мир" == "Привет мир";
  }

  lemma GreetingText()
    ensures PageText(GreetingPage.texts) == "Привет мир"
  {
    GreetingVisible();
    GreetingJoined();
  }

  /** Style and script text is dropped; the declared language is read from <html>. */
  lemma GreetingExtracted()
    ensures ParseHtml(GreetingPage) == Ok(("Привет мир", "ru"))
  {
    GreetingText();
    var attrs := map["lang" := "ru"];
    assert GreetingPage.html == Some(attrs) && "lang" in attrs && attrs["lang"] == "ru";
  }

  /** A page with no text at all has no words, zero totals and reads "МЕНЬШЕ". */
  lemma EmptyPage(argLang: Option<string>)
    requires argLang == None || argLang == Some(RU)
    ensures Run(Document(Some(map[]), []), argLang, false) == Ok(Report(0, 0, None, None, Less))
  {
    assert PageText([]) == [];
    assert Split([]) == [];
    var p := if argLang == None then PRONOUNS[EN] else PRONOUNS[RU];
    assert Calculate(p, []) == (Count([]), Count([]));
    TotalCount([]);
  }

  /** Capitals are lowercased ... */
  lemma CleanCapitalYa()
    ensures CleanToken("Я") == "я"
  {
    assert Lower('Я') == 'я';
    assert LowerStr("Я") == "я";
  }

  lemma CleanCapitalTy()
    ensures CleanToken("Ты") == "ты"
  {
    assert Lower('Т') == 'т';
    assert LowerStr("Ты") == "ты";
    CleanTokenNormal("ты");
  }

  /** ... and a trailing full stop is deleted, not turned into a separator. */
  lemma DropFinalDot(w: string)
    requires IsNormal(w)
    ensures CleanToken(w + ".") == w
  {
    CleanTokenDropsMark(w, '.', []);
    assert w + ['.'] + [] == w + ".";
  }

  /** The tokens of "Я люблю тебя. Ты любишь меня.", punctuation still attached. */
  const SentenceTokens: seq<string> := ["Я", "люблю", "тебя.", "Ты", "любишь", "меня."]

  /** The words `clean_text` makes of them. */
  const SentenceWords: seq<string> := ["я", "люблю", "тебя", "ты", "любишь", "меня"]

  lemma CleanLyublyu()
    ensures CleanToken("люблю") == "люблю"
  {
    assert IsNormal("люблю");
    CleanTokenNormal("люблю");
  }

  lemma CleanLyubish()
    ensures CleanToken("любишь") == "любишь"
  {
    assert IsNormal("любишь");
    CleanTokenNormal("любишь");
  }

  lemma TebyaDot()
    ensures IsNormal("тебя") && "тебя" + "." == "тебя."
  {
  }

  lemma CleanTebya()
    ensures CleanToken("тебя.") == "тебя"
  {
    TebyaDot();
    DropFinalDot("тебя");
  }

  lemma MenyaDot()
    ensures IsNormal("меня") && "меня" + "." == "меня."
  {
  }

  lemma CleanMenya()
    ensures CleanToken("меня.") == "меня"
  {
    MenyaDot();
    DropFinalDot("меня");
  }

  lemma CleanThreeTokens(t0: string, t1: string, t2: string)
    requires CleanToken(t0) != [] && CleanToken(t1) != [] && CleanToken(t2) != []
    ensures CleanTokens([t0, t1, t2]) == [CleanToken(t0), CleanToken(t1), CleanToken(t2)]
  {
    CleanTokensCons(t2, []);
    CleanTokensCons(t1, [t2]);
    CleanTokensCons(t0, [t1, t2]);
  }

  lemma CleanSixTokens(t0: string, t1: string, t2: string, t3: string, t4: string, t5: string)
    requires CleanToken(t0) != [] && CleanToken(t1) != [] && CleanToken(t2) != []
    requires CleanToken(t3) != [] && CleanToken(t4) != [] && CleanToken(t5) != []
    ensures CleanTokens([t0, t1, t2, t3, t4, t5]) ==
      [CleanToken(t0), CleanToken(t1), CleanToken(t2), CleanToken(t3), CleanToken(t4), CleanToken(t5)]
  {
    CleanThreeTokens(t0, t1, t2);
    CleanThreeTokens(t3, t4, t5);
    CleanTokensAppend([t0, t1, t2], [t3, t4, t5]);
    assert [t0, t1, t2] + [t3, t4, t5] == [t0, t1, t2, t3, t4, t5];
  }

  lemma CleanTokensCons(t: string, ts: seq<string>)
    ensures CleanTokens([t] + ts) == (if CleanToken(t) != [] then [CleanToken(t)] else []) + CleanTokens(ts)
  {
    assert ([t] + ts)[0] == t && ([t] + ts)[1..] == ts;
  }

  /** Capitals are lowercased and the full stops go; no token is dropped. */
  lemma CleanSentence()
    ensures CleanTokens(SentenceTokens) == SentenceWords
  {
    CleanCapitalYa();
    CleanLyublyu();
    CleanTebya();
    CleanCapitalTy();
    CleanLyubish();
    CleanMenya();
    CleanSixTokens("Я", "люблю", "тебя.", "Ты", "любишь", "меня.");
  }

  lemma SelectKeep(w: string, ws: seq<string>, forms: seq<string>)
    requires w in forms
    ensures Select([w] + ws, forms) == [w] + Select(ws, forms)
  {
    assert ([w] + ws)[0] == w && ([w] + ws)[1..] == ws;
  }

  lemma SelectSkip(w: string, ws: seq<string>, forms: seq<string>)
    requires w !in forms
    ensures Select([w] + ws, forms) == Select(ws, forms)
  {
    assert ([w] + ws)[0] == w && ([w] + ws)[1..] == ws;
  }

  /** No other form starts with "л". */
  lemma OtherNotL(w: string)
    requires |w| > 0 && w[0] == 'л'
    ensures w !in RuOther
  {
    assert forall i :: 0 <= i < |RuOther| ==> RuOther[i][0] != 'л';
  }

  lemma FirstForms()
    ensures "я" in RuFirst && "меня" in RuFirst
    ensures "тебя" !in RuFirst && "ты" !in RuFirst && "люблю" !in RuFirst && "любишь" !in RuFirst
  {
    assert RuFirst[0] == "я" && RuFirst[1] == "меня";
    RuShapes();
    assert !FirstPersonShape("тебя") && !FirstPersonShape("ты");
    assert !FirstPersonShape("люблю") && !FirstPersonShape("любишь");
  }

  lemma OtherForms()
    ensures "тебя" in RuOther && "ты" in RuOther
    ensures "я" !in RuOther && "меня" !in RuOther && "люблю" !in RuOther && "любишь" !in RuOther
  {
    assert RuOther[0] == "ты" && RuOther[1] == "тебя";
    RuShapes();
    assert FirstPersonShape("я") && FirstPersonShape("меня");
    OtherNotL("люблю");
    OtherNotL("любишь");
  }

  /** Six words of which only the first and the last are forms. */
  lemma SelectEnds(w0: string, w1: string, w2: string, w3: string, w4: string, w5: string, f: seq<string>)
    requires w0 in f && w1 !in f && w2 !in f && w3 !in f && w4 !in f && w5 in f
    ensures Select([w0, w1, w2, w3, w4, w5], f) == [w0, w5]
  {
    var t5: seq<string> := [w5];
    SelectKeep(w5, [], f);
    assert [w5] + [] == t5;
    var t4 := [w4] + t5;
    SelectSkip(w4, t5, f);
    var t3 := [w3] + t4;
    SelectSkip(w3, t4, f);
    var t2 := [w2] + t3;
    SelectSkip(w2, t3, f);
    var t1 := [w1] + t2;
    SelectSkip(w1, t2, f);
    var t0 := [w0] + t1;
    SelectKeep(w0, t1, f);
    assert Select(t0, f) == [w0] + [w5];
    assert t0 == [w0, w1, w2, w3, w4, w5];
  }

  /** Six words of which only the middle two are forms. */
  lemma SelectMiddle(w0: string, w1: string, w2: string, w3: string, w4: string, w5: string, f: seq<string>)
    requires w0 !in f && w1 !in f && w2 in f && w3 in f && w4 !in f && w5 !in f
    ensures Select([w0, w1, w2, w3, w4, w5], f) == [w2, w3]
  {
    var t5: seq<string> := [w5];
    SelectSkip(w5, [], f);
    assert [w5] + [] == t5;
    var t4 := [w4] + t5;
    SelectSkip(w4, t5, f);
    var t3 := [w3] + t4;
    SelectKeep(w3, t4, f);
    var t2 := [w2] + t3;
    SelectKeep(w2, t3, f);
    var t1 := [w1] + t2;
    SelectSkip(w1, t2, f);
    var t0 := [w0] + t1;
    SelectSkip(w0, t1, f);
    assert Select(t0, f) == [w2] + [w3];
    assert t0 == [w0, w1, w2, w3, w4, w5];
  }

  /** "я" and "меня" are the first-person forms of the sentence; "тебя" and "ты" the others. */
  lemma SentenceSelect()
    ensures Select(SentenceWords, RuFirst) == ["я", "меня"]
    ensures Select(SentenceWords, RuOther) == ["тебя", "ты"]
  {
    FirstForms();
    OtherForms();
    SelectEnds("я", "люблю", "тебя", "ты", "любишь", "меня", RuFirst);
    SelectMiddle("я", "люблю", "тебя", "ты", "любишь", "меня", RuOther);
  }

  /** The sentence as a page would give it. */
  const Sentence: string := "Я люблю тебя. Ты любишь меня."

  lemma JoinCons(a: string, rest: seq<string>)
    requires rest != []
    ensures Join(" ", [a] + rest) == a + " " + Join(" ", rest)
  {
    assert ([a] + rest)[0] == a && ([a] + rest)[1..] == rest;
  }

  lemma JoinSix(t0: string, t1: string, t2: string, t3: string, t4: string, t5: string)
    ensures Join(" ", [t0, t1, t2, t3, t4, t5]) ==
      (t0 + " " + t1 + " " + t2) + " " + (t3 + " " + t4 + " " + t5)
  {
    assert Join(" ", [t5]) == t5;
    JoinCons(t4, [t5]);
    JoinCons(t3, [t4, t5]);
    JoinCons(t2, [t3, t4, t5]);
    JoinCons(t1, [t2, t3, t4, t5]);
    JoinCons(t0, [t1, t2, t3, t4, t5]);
  }

  lemma SentenceHalves()
    ensures "Я" + " " + "люблю" + " " + "тебя." == "Я люблю тебя."
    ensures "Ты" + " " + "любишь" + " " + "меня." == "Ты любишь меня."
  {
  }

  lemma SentenceConcat()
    ensures "Я люблю тебя." + " " + "Ты любишь меня." == Sentence
  {
  }

  lemma SentenceJoined()
    ensures Join(" ", SentenceTokens) == Sentence
  {
    JoinSix("Я", "люблю", "тебя.", "Ты", "любишь", "меня.");
    SentenceHalves();
    SentenceConcat();
  }

  lemma SentenceTokenWords()
    ensures forall i :: 0 <= i < |SentenceTokens| ==> IsWord(SentenceTokens[i])
  {
    assert IsWord("Я") && IsWord("люблю") && IsWord("тебя.");
    assert IsWord("Ты") && IsWord("любишь") && IsWord("меня.");
  }

  /** `clean_text` of the sentence: its six whitespace tokens, cleaned. */
  lemma SentenceText()
    ensures CleanText(Sentence) == SentenceWords
  {
    SentenceJoined();
    SentenceTokenWords();
    SplitJoinWords(SentenceTokens);
    CleanSentence();
  }

  /** Two first-person forms against two others: a tie, so the verdict is "МЕНЬШЕ". */
  lemma SentenceReport()
    ensures var r := Calculate(PRONOUNS[RU], CleanText(Sentence));
      PrintResult(r.0, r.1, false) == Report(2, 2, None, None, Less)
  {
    SentenceText();
    SentenceSelect();
    TotalCount(["я", "меня"]);
    TotalCount(["тебя", "ты"]);
  }
}
