/**
 * `main` after the page has been fetched: extract the visible text and the
 * declared language, clean the text into words, resolve the lexicon, count
 * and report. The fetch and the command line are inputs here.
 */
module Pipeline {
  import opened Wrappers
  import opened Strings
  import opened Lexicon
  import opened Tokenizer
  import opened Extractor
  import opened Resolver
  import opened Tally
  import opened Classifier
  import opened Reporter

  datatype Error = Parse(parseError: ParseError) | Lang(langError: LangError)

  /**
   * One run on a fetched page, with the `--lang` override and the `--with-stat`
   * flag. A page without <html> fails before the override is looked at; a
   * failed lexicon lookup fails the run with that error; otherwise the report
   * is that of the visible nodes' words, node after node.
   */
  function Run(doc: Document, argLang: Option<string>, withStat: bool): (r: Result<Report, Error>)
    ensures doc.html.None? ==> r == Err(Parse(NoHtmlElement))
    ensures doc.html.Some? && GetPronouns(argLang, ParseHtml(doc).value.1).Err? ==>
              r == Err(Lang(GetPronouns(argLang, ParseHtml(doc).value.1).error))
    ensures doc.html.Some? && GetPronouns(argLang, ParseHtml(doc).value.1).Ok? ==>
              var p := GetPronouns(argLang, ParseHtml(doc).value.1).value;
              r == Ok(PrintResult(Calculate(p, NodeWords(doc.texts)).0, Calculate(p, NodeWords(doc.texts)).1, withStat))
  {
    PageWords(doc.texts);
    match ParseHtml(doc)
    case Err(e) => Err(Parse(e))
    case Ok((text, lang)) =>
      var words := CleanText(text);
      match GetPronouns(argLang, lang)
      case Err(e) => Err(Lang(e))
      case Ok(p) =>
        var (first, other) := Calculate(p, words);
        Ok(PrintResult(first, other, withStat))
  }

  /** The words `clean_text` makes of each visible node, node after node. */
  function NodeWords(nodes: seq<TextNode>): seq<string> {
    if nodes == [] then []
    else (if TagVisible(nodes[0]) then CleanText(nodes[0].text) else []) + NodeWords(nodes[1..])
  }

  lemma {:induction false} CleanNodeTokens(nodes: seq<TextNode>)
    ensures CleanTokens(NodeTokens(nodes)) == NodeWords(nodes)
  {
    if nodes != [] {
      var head := if TagVisible(nodes[0]) then Split(nodes[0].text) else [];
      CleanTokensAppend(head, NodeTokens(nodes[1..]));
      CleanNodeTokens(nodes[1..]);
    }
  }

  /** The page's words are the words of its visible nodes: none is split or fused by the join. */
  lemma PageWords(nodes: seq<TextNode>)
    ensures CleanText(PageText(nodes)) == NodeWords(nodes)
  {
    CleanNodeTokens(nodes);
  }

  /** An unrecognised override fails whatever the page declares. */
  lemma BadOverrideFailsRun(doc: Document, code: string, withStat: bool)
    requires doc.html.Some? && code != RU && code != EN
    ensures Run(doc, Some(code), withStat) == Err(Lang(NotRecognized(code)))
  {
  }

  /**
   * Every successful run reports totals that together never exceed the number
   * of words on the page, and says "БОЛЬШЕ" exactly when the first total is
   * strictly the larger.
   */
  lemma RunTotals(doc: Document, argLang: Option<string>, withStat: bool)
    requires Run(doc, argLang, withStat).Ok?
    ensures var r := Run(doc, argLang, withStat).value;
      r.firstTotal + r.otherTotal <= |NodeWords(doc.texts)| &&
      (r.verdict == More <==> r.firstTotal > r.otherTotal)
  {
    var text := PageText(doc.texts);
    var lang := ParseHtml(doc).value.1;
    var p := GetPronouns(argLang, lang).value;
    TableDisjoint();
    CalculateTotals(p, CleanText(text));
    PageWords(doc.texts);
  }

  /** With the English lexicon, by override or by declaration, every page reads "МЕНЬШЕ". */
  lemma EnglishRun(doc: Document, argLang: Option<string>, withStat: bool)
    requires doc.html.Some?
    requires argLang == Some(EN) || (argLang.None? && ParseHtml(doc).value.1 == EN)
    ensures Run(doc, argLang, withStat).Ok?
    ensures var r := Run(doc, argLang, withStat).value;
      r.firstTotal == 0 && r.otherTotal == 0 && r.verdict == Less
  {
    EnglishTotalsZero(CleanText(PageText(doc.texts)));
  }

  /** The lexicon forms with ё are dead entries: no text ever yields a count for them. */
  lemma YoFormsNeverCounted(p: Pronouns, text: string)
    ensures Get(Calculate(p, CleanText(text)).0, "нём") == 0 && Get(Calculate(p, CleanText(text)).1, "нём") == 0
    ensures Get(Calculate(p, CleanText(text)).0, "её") == 0 && Get(Calculate(p, CleanText(text)).1, "её") == 0
  {
    YoFormsNeverProduced(text);
  }
}
