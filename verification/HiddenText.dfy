/** When a document's plain text shows the text of its hidden elements. */
module HiddenText {
  import opened Text
  import opened HtmlTree

  /** The document with every hidden element emptied, wherever it stands. */
  function Erase(n: Node): Node {
    match n
    case TextNode(_) => n
    case Element(tag, href, children) =>
      Element(tag, href, if KindOf(tag) == Hidden then [] else EraseAll(children))
    case Other(children) => Other(EraseAll(children))
  }

  function EraseAll(nodes: seq<Node>): seq<Node> {
    if nodes == [] then [] else EraseAll(nodes[..|nodes| - 1]) + [Erase(nodes[|nodes| - 1])]
  }

  /** A link reads the same without the hidden elements below it. */
  predicate CleanLink(n: Node)
    requires n.Element?
  {
    TrimSpace(LinkTexts(n.children)) == TrimSpace(LinkTexts(EraseAll(n.children)))
  }

  /** So does every link the walk reaches. */
  predicate CleanLinks(n: Node) {
    match n
    case TextNode(_) => true
    case Element(tag, _, children) =>
      if KindOf(tag) == Hidden then true
      else if KindOf(tag) == Link then CleanLink(n)
      else AllCleanLinks(children)
    case Other(children) => AllCleanLinks(children)
  }

  predicate AllCleanLinks(nodes: seq<Node>) {
    nodes == [] || (AllCleanLinks(nodes[..|nodes| - 1]) && CleanLinks(nodes[|nodes| - 1]))
  }

  /** What each text and each link shows, in order. */
  function Shown(n: Node): seq<string> {
    match n
    case TextNode(data) => [TextOutput(data)]
    case Element(tag, _, children) =>
      if KindOf(tag) == Hidden then []
      else if KindOf(tag) == Link then [LinkOutput(n)]
      else AllShown(children)
    case Other(children) => AllShown(children)
  }

  function AllShown(nodes: seq<Node>): seq<string> {
    if nodes == [] then [] else AllShown(nodes[..|nodes| - 1]) + Shown(nodes[|nodes| - 1])
  }

  // ---------------------------------------------------------------- links

  /** The text in front of the target can be told from the whole. */
  lemma LinkOutputDetermines(a: string, b: string, href: string)
    ensures a + LinkTarget(href, a) + " " == b + LinkTarget(href, b) + " " <==> a == b
  {
    if LinkTarget(href, a) == LinkTarget(href, b) {
      SuffixCancels(a, b, LinkTarget(href, a) + " ");
      assert a + LinkTarget(href, a) + " " == a + (LinkTarget(href, a) + " ");
      assert b + LinkTarget(href, b) + " " == b + (LinkTarget(href, b) + " ");
    } else {
      assert |a + LinkTarget(href, a) + " "| != |b + LinkTarget(href, b) + " "|;
    }
  }

  lemma SuffixCancels(a: string, b: string, suffix: string)
    ensures a + suffix == b + suffix <==> a == b
  {
    if a + suffix == b + suffix {
      assert |a| == |a + suffix| - |suffix| == |b|;
      assert a == (a + suffix)[..|a|] && b == (b + suffix)[..|b|];
    }
  }

  /** For any target, a link's output depends on hidden text exactly if its trimmed text does. */
  lemma LinkShowsHiddenExactly(n: Node)
    requires n.Element? && KindOf(n.tag) == Link
    ensures Output(n) == Output(Erase(n)) <==> CleanLink(n)
  {
    LinkOutputDetermines(TrimSpace(LinkTexts(n.children)), TrimSpace(LinkTexts(EraseAll(n.children))), n.href);
  }

  /** The text of the hidden elements below a node. */
  function HiddenBelow(n: Node): string {
    match n
    case TextNode(_) => ""
    case Element(tag, _, children) => if KindOf(tag) == Hidden then LinkTexts(children) else AllHiddenBelow(children)
    case Other(children) => AllHiddenBelow(children)
  }

  function AllHiddenBelow(nodes: seq<Node>): string {
    if nodes == [] then "" else AllHiddenBelow(nodes[..|nodes| - 1]) + HiddenBelow(nodes[|nodes| - 1])
  }

  lemma EraseAllStep(nodes: seq<Node>)
    requires nodes != []
    ensures LinkTexts(EraseAll(nodes)) ==
            LinkTexts(EraseAll(nodes[..|nodes| - 1])) + LinkText(Erase(nodes[|nodes| - 1]))
    ensures AllShown(EraseAll(nodes)) ==
            AllShown(EraseAll(nodes[..|nodes| - 1])) + Shown(Erase(nodes[|nodes| - 1]))
    ensures Outputs(EraseAll(nodes)) ==
            Outputs(EraseAll(nodes[..|nodes| - 1])) + Output(Erase(nodes[|nodes| - 1]))
  {
    var init, last := EraseAll(nodes[..|nodes| - 1]), Erase(nodes[|nodes| - 1]);
    assert (init + [last])[..|init|] == init;
  }

  /** Erasing removes just the ink of the hidden elements. */
  lemma {:induction false} InkSplit(n: Node)
    ensures |Ink(LinkText(n))| == |Ink(LinkText(Erase(n)))| + |Ink(HiddenBelow(n))|
    decreases n, 0
  {
    match n
    case TextNode(_) =>
    case Element(tag, _, children) =>
      if KindOf(tag) != Hidden {
        AllInkSplit(n, children);
      }
    case Other(children) => AllInkSplit(n, children);
  }

  lemma {:induction false} AllInkSplit(parent: Node, nodes: seq<Node>)
    requires forall n :: n in nodes ==> n < parent
    ensures |Ink(LinkTexts(nodes))| == |Ink(LinkTexts(EraseAll(nodes)))| + |Ink(AllHiddenBelow(nodes))|
    decreases parent, 0, nodes
  {
    if nodes == [] {
    } else {
      var init, last := nodes[..|nodes| - 1], nodes[|nodes| - 1];
      assert last in nodes && forall n :: n in init ==> n in nodes;
      AllInkSplit(parent, init);
      InkSplit(last);
      EraseAllStep(nodes);
      InkConcat(LinkTexts(init), LinkText(last));
      InkConcat(LinkTexts(EraseAll(init)), LinkText(Erase(last)));
      InkConcat(AllHiddenBelow(init), HiddenBelow(last));
    }
  }

  /** Hidden elements that are not blank always show in a link, at any depth and for any target. */
  lemma HiddenInkShowsInLinks(n: Node)
    requires n.Element? && KindOf(n.tag) == Link && Ink(AllHiddenBelow(n.children)) != ""
    ensures !CleanLink(n) && Output(n) != Output(Erase(n))
  {
    AllInkSplit(n, n.children);
    InkTrim(LinkTexts(n.children));
    InkTrim(LinkTexts(EraseAll(n.children)));
    LinkShowsHiddenExactly(n);
  }

  // ---------------------------------------------------------------- documents

  /** The texts and links of a document show only what is not hidden exactly if all its links are clean. */
  lemma {:induction false} HiddenTextShowsExactly(n: Node)
    ensures |Shown(n)| == |Shown(Erase(n))|
    ensures Shown(n) == Shown(Erase(n)) <==> CleanLinks(n)
    decreases n, 0
  {
    match n
    case TextNode(_) =>
    case Element(tag, href, children) =>
      if KindOf(tag) == Link {
        LinkShowsHiddenExactly(n);
        assert Shown(n) == [Output(n)] && Shown(Erase(n)) == [Output(Erase(n))];
      } else if KindOf(tag) != Hidden {
        AllShownExactly(n, children);
      }
    case Other(children) => AllShownExactly(n, children);
  }

  lemma {:induction false} AllShownExactly(parent: Node, nodes: seq<Node>)
    requires forall n :: n in nodes ==> n < parent
    ensures |AllShown(nodes)| == |AllShown(EraseAll(nodes))|
    ensures AllShown(nodes) == AllShown(EraseAll(nodes)) <==> AllCleanLinks(nodes)
    decreases parent, 0, nodes
  {
    if nodes == [] {
    } else {
      var init, last := nodes[..|nodes| - 1], nodes[|nodes| - 1];
      assert last in nodes && forall n :: n in init ==> n in nodes;
      AllShownExactly(parent, init);
      HiddenTextShowsExactly(last);
      EraseAllStep(nodes);
      ConcatDetermines(AllShown(init), Shown(last), AllShown(EraseAll(init)), Shown(Erase(last)));
    }
  }

  lemma ConcatDetermines<T>(a: seq<T>, b: seq<T>, c: seq<T>, d: seq<T>)
    requires |a| == |c|
    ensures a + b == c + d <==> a == c && b == d
  {
    assert a == (a + b)[..|a|] && b == (a + b)[|a|..];
    assert c == (c + d)[..|c|] && d == (c + d)[|c|..];
  }

  lemma {:induction false} CleanOutput(n: Node)
    requires CleanLinks(n)
    ensures Output(n) == Output(Erase(n))
    decreases n, 0
  {
    match n
    case TextNode(_) =>
    case Element(tag, _, children) =>
      if KindOf(tag) == Link {
        LinkShowsHiddenExactly(n);
      } else if KindOf(tag) != Hidden {
        CleanOutputs(n, children);
      }
    case Other(children) => CleanOutputs(n, children);
  }

  lemma {:induction false} CleanOutputs(parent: Node, nodes: seq<Node>)
    requires AllCleanLinks(nodes) && forall n :: n in nodes ==> n < parent
    ensures Outputs(nodes) == Outputs(EraseAll(nodes))
    decreases parent, 0, nodes
  {
    if nodes == [] {
    } else {
      var init, last := nodes[..|nodes| - 1], nodes[|nodes| - 1];
      assert last in nodes && forall n :: n in init ==> n in nodes;
      CleanOutputs(parent, init);
      CleanOutput(last);
      EraseAllStep(nodes);
    }
  }

  /** With clean links hidden elements leave no trace, in the layout either; so links are the only leak. */
  lemma CleanLinksHideAll(doc: Node)
    requires CleanLinks(doc)
    ensures Rendered(doc) == Rendered(Erase(doc))
    ensures Ink(Rendered(doc)) == Ink(Carried(Erase(doc)))
  {
    CleanOutput(doc);
    RenderingKeepsInk(Erase(doc));
  }

  // ---------------------------------------------------------------- witnesses

  /** A style element shows inside a link, and not outside one. */
  lemma StyleShowsInLink(text: string)
    requires Trimmed(text)
    ensures Output(Style(text)) == "" && Output(Element("a", "", [Style(text)])) == text + " "
  {
    HiddenLink(text, "");
    assert KindOf("style") == Hidden && text + "" + " " == text + " ";
  }

  function Style(text: string): Node {
    Element("style", "", [TextNode(text)])
  }

  lemma OneNode(n: Node)
    ensures LinkTexts([n]) == LinkText(n) && EraseAll([n]) == [Erase(n)]
  {
    assert [n][..0] == [];
    assert LinkTexts([n]) == LinkTexts([]) + LinkText(n) && EraseAll([n]) == EraseAll([]) + [Erase(n)];
  }

  lemma StyleTexts(text: string)
    ensures LinkTexts([Style(text)]) == text && LinkTexts(EraseAll([Style(text)])) == ""
  {
    OneNode(TextNode(text));
    OneNode(Style(text));
    OneNode(Erase(Style(text)));
    assert KindOf("style") == Hidden;
  }

  lemma HiddenLink(text: string, href: string)
    requires Trimmed(text)
    ensures var link := Element("a", href, [Style(text)]);
            && Output(link) == text + LinkTarget(href, text) + " "
            && Output(Erase(link)) == LinkTarget(href, "") + " "
            && (CleanLink(link) <==> text == "")
  {
    StyleTexts(text);
    LinkFacts(Element("a", href, [Style(text)]), text);
  }

  /** A link all of whose text is hidden. */
  lemma LinkFacts(n: Node, text: string)
    requires n.Element? && KindOf(n.tag) == Link && Trimmed(text)
    requires LinkTexts(n.children) == text && LinkTexts(EraseAll(n.children)) == ""
    ensures Output(n) == text + LinkTarget(n.href, text) + " "
    ensures Output(Erase(n)) == LinkTarget(n.href, "") + " "
    ensures CleanLink(n) <==> text == ""
  {
    TrimSpaceFacts(text);
    assert Output(n) == LinkOutput(n);
    assert Erase(n) == Element(n.tag, n.href, EraseAll(n.children));
    assert Output(Erase(n)) == LinkOutput(Erase(n)) == "" + LinkTarget(n.href, "") + " ";
    assert "" + LinkTarget(n.href, "") == LinkTarget(n.href, "");
  }

  /** The text as a whole can agree by accident, which is why each text and link is compared. */
  lemma InkCanAgreeByAccident()
    ensures var first, second := Element("a", "", [Style("()")]), Element("a", ")", [Style(")")]);
            && Ink(Output(first) + Output(second)) == Ink(Output(Erase(first)) + Output(Erase(second)))
            && !CleanLinks(first) && !CleanLinks(second)
  {
    InkOfWords();
    InkPair("()", ")");
  }

  /** Two links with hidden text only, the second with its text as target. */
  lemma InkPair(a: string, b: string)
    requires Trimmed(a) && a != "" && Trimmed(b) && b != ""
    requires Ink((a + LinkTarget("", a) + " ") + (b + LinkTarget(b, b) + " ")) ==
             Ink((LinkTarget("", "") + " ") + (LinkTarget(b, "") + " "))
    ensures var first, second := Element("a", "", [Style(a)]), Element("a", b, [Style(b)]);
            && Ink(Output(first) + Output(second)) == Ink(Output(Erase(first)) + Output(Erase(second)))
            && !CleanLinks(first) && !CleanLinks(second)
  {
    HiddenLink(a, "");
    HiddenLink(b, b);
  }

  lemma InkOfWords()
    ensures Ink(("()" + LinkTarget("", "()") + " ") + (")" + LinkTarget(")", ")") + " ")) ==
            Ink((LinkTarget("", "") + " ") + (LinkTarget(")", "") + " "))
  {
    InkSpaced("()", ")");
    assert ("()" + LinkTarget("", "()") + " ") + (")" + LinkTarget(")", ")") + " ") == "()" + (" " + (")" + " "));
    assert (LinkTarget("", "") + " ") + (LinkTarget(")", "") + " ") == "  " + ("()" + (")" + " "));
  }

  /** Where the spaces stand does not matter. */
  lemma InkSpaced(a: string, b: string)
    ensures Ink(a + (" " + (b + " "))) == Ink("  " + (a + (b + " ")))
  {
    var rest := b + " ";
    InkGap(a, " ", rest);
    InkGap("", "  ", a + rest);
    InkOfSpace(" ");
    InkConcat(" ", " ");
    assert " " + " " == "  " && "" + ("  " + (a + rest)) == "  " + (a + rest) && "" + (a + rest) == a + rest;
  }

  lemma InkGap(a: string, gap: string, rest: string)
    ensures Ink(gap) == "" ==> Ink(a + (gap + rest)) == Ink(a + rest)
  {
    InkConcat(a, gap + rest);
    InkConcat(gap, rest);
    InkConcat(a, rest);
  }
}
