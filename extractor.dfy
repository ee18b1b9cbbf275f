/**
 * The part of `parse_html` that does not belong to the HTML parser: the
 * visibility rule for text nodes, the strip-and-join of the visible ones, and
 * the choice of the declared language. The parsed page is given as the
 * attributes of its first <html> element (if any) and its text nodes in
 * document order, each with its parent's tag name and whether it is a comment.
 */
module Extractor {
  import opened Wrappers
  import opened Strings
  import Lexicon

  datatype TextNode = TextNode(parent: string, isComment: bool, text: string)

  datatype Document = Document(html: Option<map<string, string>>, texts: seq<TextNode>)

  datatype ParseError = NoHtmlElement  // `soup.html` is None, so `.get` fails

  /** Parents whose text is never shown; "[document]" is the document root itself. */
  const HiddenParents: seq<string> := ["style", "script", "head", "title", "meta", "[document]"]

  /**
   * `tag_visible`: the parent test comes first, then the comment test. A node
   * is invisible exactly when its parent is hidden or it is a comment.
   */
  function TagVisible(n: TextNode): (r: bool)
    ensures !r <==> n.parent in {"style", "script", "head", "title", "meta", "[document]"} || n.isComment
  {
    if n.parent in HiddenParents then false
    else if n.isComment then false
    else true
  }

  /** `t.strip() for t in filter(tag_visible, texts)`. */
  function VisibleTexts(nodes: seq<TextNode>): (r: seq<string>)
    ensures |r| <= |nodes|
    ensures forall i :: 0 <= i < |r| ==> r[i] == [] || (!IsSpace(r[i][0]) && !IsSpace(r[i][|r[i]| - 1]))
  {
    if nodes == [] then []
    else (if TagVisible(nodes[0]) then [Strip(nodes[0].text)] else []) + VisibleTexts(nodes[1..])
  }

  /**
   * The visible text of the page. Joining with a space never fuses words of
   * neighbouring nodes, and stripping loses none: the page text splits into
   * the nodes' own tokens, in order.
   */
  function PageText(nodes: seq<TextNode>): (r: string)
    ensures Split(r) == NodeTokens(nodes)
  {
    SplitJoin(VisibleTexts(nodes));
    SplitAllVisible(nodes);
    Join(" ", VisibleTexts(nodes))
  }

  /** The whitespace tokens of the visible nodes, node after node. */
  function NodeTokens(nodes: seq<TextNode>): seq<string> {
    if nodes == [] then []
    else (if TagVisible(nodes[0]) then Split(nodes[0].text) else []) + NodeTokens(nodes[1..])
  }

  /** `parse_html`: the visible text and the `lang` attribute of <html>, "en" when absent. */
  function ParseHtml(doc: Document): (r: Result<(string, string), ParseError>)
    ensures r.Err? <==> doc.html.None?
    ensures r.Ok? ==> r.value.0 == PageText(doc.texts)
    ensures r.Ok? && "lang" in doc.html.value ==> r.value.1 == doc.html.value["lang"]
    ensures r.Ok? && "lang" !in doc.html.value ==> r.value.1 == Lexicon.EN
  {
    match doc.html
    case None => Err(NoHtmlElement)
    case Some(attrs) => Ok((PageText(doc.texts), if "lang" in attrs then attrs["lang"] else Lexicon.EN))
  }

  lemma {:induction false} VisibleTextsAppend(a: seq<TextNode>, b: seq<TextNode>)
    ensures VisibleTexts(a + b) == VisibleTexts(a) + VisibleTexts(b)
  {
    if a == [] {
      assert a + b == b;
    } else {
      var h: seq<string> := if TagVisible(a[0]) then [Strip(a[0].text)] else [];
      var x, y := VisibleTexts(a[1..]), VisibleTexts(b);
      calc {
        VisibleTexts(a + b);
        { assert (a + b)[0] == a[0]; assert (a + b)[1..] == a[1..] + b; }
        h + VisibleTexts(a[1..] + b);
        { VisibleTextsAppend(a[1..], b); }
        h + (x + y);
        { SeqAssoc(h, x, y); }
        (h + x) + y;
      }
    }
  }

  /** An invisible node, wherever it stands, does not change the page text. */
  lemma HiddenNodeIgnored(a: seq<TextNode>, n: TextNode, b: seq<TextNode>)
    requires !TagVisible(n)
    ensures PageText(a + [n] + b) == PageText(a + b)
  {
    VisibleTextsAppend(a + [n], b);
    VisibleTextsAppend(a, [n]);
    VisibleTextsAppend(a, b);
    assert [n][1..] == [];
    assert VisibleTexts([n]) == [];
    assert VisibleTexts(a + [n]) == VisibleTexts(a);
    assert VisibleTexts(a + [n] + b) == VisibleTexts(a + b);
  }

  lemma {:induction false} SplitAllVisible(nodes: seq<TextNode>)
    ensures SplitAll(VisibleTexts(nodes)) == NodeTokens(nodes)
  {
    if nodes != [] {
      SplitAllVisible(nodes[1..]);
      if TagVisible(nodes[0]) {
        SplitStrip(nodes[0].text);
        var vs := VisibleTexts(nodes);
        assert vs[0] == Strip(nodes[0].text) && vs[1..] == VisibleTexts(nodes[1..]);
      } else {
        assert VisibleTexts(nodes) == VisibleTexts(nodes[1..]);
      }
    }
  }
}
