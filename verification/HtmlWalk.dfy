/** Turning a parsed HTML document into plain text: the tree walk, then the clean-up. */
module HtmlWalk {
  import opened Text
  import opened HtmlTree
  import opened HiddenText
  import opened HtmlWords
  import PlainText

  class Builder {
    var text: string

    constructor ()
      ensures text == ""
    {
      text := "";
    }

    method WriteString(s: string)
      modifies this
      ensures text == old(text) + s
    {
      text := text + s;
    }
  }

  method ExtractLinkText(n: Node, b: Builder)
    modifies b
    ensures b.text == old(b.text) + LinkText(n)
    decreases n
  {
    if n.TextNode? {
      b.WriteString(n.data);
    } else {
      ghost var before := b.text;
      for i := 0 to |n.children|
        invariant b.text == before + LinkTexts(n.children[..i])
      {
        assert n.children[..i + 1][..i] == n.children[..i];
        ExtractLinkText(n.children[i], b);
      }
      assert n.children[..|n.children|] == n.children;
    }
  }

  method ExtractLink(n: Node, result: Builder)
    requires n.Element?
    modifies result
    ensures result.text == old(result.text) + LinkOutput(n)
  {
    var linkText := new Builder();
    ExtractLinkText(n, linkText);
    var text := TrimSpace(linkText.text);
    assert linkText.text == LinkTexts(n.children);
    if text != "" {
      result.WriteString(text);
    }
    assert result.text == old(result.text) + text;
    WriteTarget(n.href, text, result);
    assert result.text == old(result.text) + (text + LinkTarget(n.href, text));
    result.WriteString(" ");
  }

  method WriteTarget(href: string, text: string, result: Builder)
    modifies result
    ensures result.text == old(result.text) + LinkTarget(href, text)
  {
    if href != "" && href != text {
      result.WriteString(" (");
      result.WriteString(href);
      result.WriteString(")");
    }
  }

  method ExtractText(data: string, result: Builder)
    modifies result
    ensures result.text == old(result.text) + TextOutput(data)
  {
    var text := TrimSpace(data);
    if text != "" {
      result.WriteString(text);
      result.WriteString(" ");
    }
  }

  method Extract(n: Node, result: Builder)
    modifies result
    ensures result.text == old(result.text) + Output(n)
    decreases n, 1
  {
    var kind := if n.Element? then KindOf(n.tag) else Inline;
    if kind == Hidden {
      return;
    }
    if kind == Link {
      ExtractLink(n, result);
      return;
    }
    if n.TextNode? {
      ExtractText(n.data, result);
      return;
    }
    if kind == Block || kind == LineStart {
      result.WriteString("\n");
    }
    ExtractChildren(n, result);
    if kind == Block {
      result.WriteString("\n");
    }
    assert result.text == old(result.text) + (Opening(kind) + Outputs(n.children) + Closing(kind));
  }

  method ExtractChildren(n: Node, result: Builder)
    requires !n.TextNode?
    modifies result
    ensures result.text == old(result.text) + Outputs(n.children)
    decreases n, 0
  {
    ghost var before := result.text;
    for i := 0 to |n.children|
      invariant result.text == before + Outputs(n.children[..i])
    {
      Extract(n.children[i], result);
      OutputsStep(n.children, i, before);
    }
    assert n.children[..|n.children|] == n.children;
  }

  method HTMLToText(doc: Node) returns (text: string)
    ensures text == Rendered(doc)
    ensures Trimmed(text) && !PlainText.HasTriple(text)
    ensures Ink(text) == Ink(Carried(doc)) && Words(text) == WordsShown(doc)
    ensures CleanLinks(doc) ==> text == Rendered(Erase(doc)) && Ink(text) == Ink(Carried(Erase(doc)))
  {
    var result := new Builder();
    Extract(doc, result);
    assert result.text == "" + Output(doc) == Output(doc);
    text := PlainText.CollapseNewlines(result.text);
    RenderingKeepsInk(doc);
    RenderingKeepsWords(doc);
    if CleanLinks(doc) {
      CleanLinksHideAll(doc);
    }
  }
}
