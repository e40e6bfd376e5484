/** Parsed HTML documents and the text they are turned into. */
module HtmlTree {
  import opened Text
  import PlainText

  datatype Node =
    | TextNode(data: string)
    | Element(tag: string, href: string, children: seq<Node>)
    | Other(children: seq<Node>)

  datatype Kind = Hidden | Link | Block | LineStart | Inline

  function KindOf(tag: string): Kind {
    if tag == "style" || tag == "script" || tag == "head" then Hidden
    else if tag == "a" then Link
    else if tag == "p" || tag == "div" || tag == "h1" || tag == "h2" || tag == "h3" || tag == "h4" || tag == "h5" ||
            tag == "h6" then Block
    else if tag == "br" || tag == "tr" || tag == "li" then LineStart
    else Inline
  }

  function Opening(k: Kind): string {
    if k == Block || k == LineStart then "\n" else ""
  }

  function Closing(k: Kind): string {
    if k == Block then "\n" else ""
  }

  /** All text below a node, as it stands. */
  function LinkText(n: Node): string {
    match n
    case TextNode(data) => data
    case Element(_, _, children) => LinkTexts(children)
    case Other(children) => LinkTexts(children)
  }

  function LinkTexts(nodes: seq<Node>): string {
    if nodes == [] then "" else LinkTexts(nodes[..|nodes| - 1]) + LinkText(nodes[|nodes| - 1])
  }

  function LinkOutput(n: Node): string
    requires n.Element?
  {
    var text := TrimSpace(LinkTexts(n.children));
    text + LinkTarget(n.href, text) + " "
  }

  function LinkTarget(href: string, text: string): string {
    if href != "" && href != text then " (" + href + ")" else ""
  }

  function TextOutput(data: string): string {
    if TrimSpace(data) == "" then "" else TrimSpace(data) + " "
  }

  function Output(n: Node): string {
    match n
    case TextNode(data) => TextOutput(data)
    case Element(tag, _, children) =>
      var kind := KindOf(tag);
      if kind == Hidden then ""
      else if kind == Link then LinkOutput(n)
      else Opening(kind) + Outputs(children) + Closing(kind)
    case Other(children) => Outputs(children)
  }

  function Outputs(nodes: seq<Node>): string {
    if nodes == [] then "" else Outputs(nodes[..|nodes| - 1]) + Output(nodes[|nodes| - 1])
  }

  /** The text of a document, trimmed and with blank lines collapsed. */
  function Rendered(doc: Node): string {
    PlainText.Clamp(TrimSpace(Output(doc)), 0)
  }

  lemma OutputsStep(nodes: seq<Node>, i: nat, before: string)
    requires i < |nodes|
    ensures before + Outputs(nodes[..i]) + Output(nodes[i]) == before + Outputs(nodes[..i + 1])
  {
    assert nodes[..i + 1][..i] == nodes[..i];
    assert before + Outputs(nodes[..i]) + Output(nodes[i]) == before + (Outputs(nodes[..i]) + Output(nodes[i]));
  }

  // ---------------------------------------------------------------- what is carried over

  /** The characters of a text that are not white space, in order. */
  function Ink(s: string): string {
    if s == "" then "" else InkOf(s[0]) + Ink(s[1..])
  }

  function InkOf(c: char): string {
    if IsSpace(c) then "" else [c]
  }

  /**
   What the walk carries over, without layout: text outside hidden elements, all
   text below links, and targets of links that differ from their text.
   */
  function Carried(n: Node): string {
    match n
    case TextNode(data) => data
    case Element(tag, href, children) =>
      if KindOf(tag) == Hidden then ""
      else if KindOf(tag) == Link then
        LinkTexts(children) + LinkMark(href, TrimSpace(LinkTexts(children)))
      else CarriedAll(children)
    case Other(children) => CarriedAll(children)
  }

  function LinkMark(href: string, text: string): string {
    if href != "" && href != text then "(" + href + ")" else ""
  }

  function CarriedAll(nodes: seq<Node>): string {
    if nodes == [] then "" else CarriedAll(nodes[..|nodes| - 1]) + Carried(nodes[|nodes| - 1])
  }

  lemma {:induction false} InkConcat(a: string, b: string)
    ensures Ink(a + b) == Ink(a) + Ink(b)
    decreases a
  {
    if a == "" {
      assert a + b == b;
    } else {
      InkConcat(a[1..], b);
      assert (a + b)[1..] == a[1..] + b && (a + b)[0] == a[0];
      var first := InkOf(a[0]);
      assert first + (Ink(a[1..]) + Ink(b)) == first + Ink(a[1..]) + Ink(b);
    }
  }

  lemma {:induction false} InkTrimLeft(s: string)
    ensures Ink(TrimLeft(s)) == Ink(s)
    decreases s
  {
    if s != "" && IsSpace(s[0]) {
      InkTrimLeft(s[1..]);
    }
  }

  lemma {:induction false} InkTrimRight(s: string)
    ensures Ink(TrimRight(s)) == Ink(s)
    decreases s
  {
    if s != "" && IsSpace(s[|s| - 1]) {
      InkTrimRight(s[..|s| - 1]);
      assert s == s[..|s| - 1] + [s[|s| - 1]];
      InkConcat(s[..|s| - 1], [s[|s| - 1]]);
    }
  }

  lemma InkTrim(s: string)
    ensures Ink(TrimSpace(s)) == Ink(s)
  {
    InkTrimLeft(s);
    InkTrimRight(TrimLeft(s));
  }

  lemma {:induction false} InkClamp(s: string, run: nat)
    ensures Ink(PlainText.Clamp(s, run)) == Ink(s)
    decreases s
  {
    if s != "" {
      if s[0] != '\n' {
        InkClamp(s[1..], 0);
        assert ([s[0]] + PlainText.Clamp(s[1..], 0))[1..] == PlainText.Clamp(s[1..], 0);
      } else if run < 2 {
        InkClamp(s[1..], run + 1);
        assert (['\n'] + PlainText.Clamp(s[1..], run + 1))[1..] == PlainText.Clamp(s[1..], run + 1);
      } else {
        InkClamp(s[1..], run);
      }
    }
  }

  lemma InkOfSpace(s: string)
    requires s == " " || s == "\n" || s == ""
    ensures Ink(s) == ""
  {
  }

  lemma InkTarget(href: string, text: string)
    ensures Ink(LinkTarget(href, text)) == Ink(LinkMark(href, text))
  {
    InkOfSpace(" ");
    InkConcat(" ", LinkMark(href, text));
    assert " (" + href + ")" == " " + ("(" + href + ")");
  }

  lemma InkLink(n: Node)
    requires n.Element? && KindOf(n.tag) == Link
    ensures Ink(Output(n)) == Ink(Carried(n))
  {
    var linked := LinkTexts(n.children);
    var text := TrimSpace(linked);
    var target, mark := LinkTarget(n.href, text), LinkMark(n.href, text);
    InkTrim(linked);
    InkOfSpace(" ");
    InkTarget(n.href, text);
    InkConcat(text + target, " ");
    InkConcat(text, target);
    InkConcat(linked, mark);
    assert Output(n) == text + target + " " && Carried(n) == linked + mark;
  }

  lemma {:induction false} InkOutput(n: Node)
    ensures Ink(Output(n)) == Ink(Carried(n))
    decreases n, 0
  {
    match n
    case TextNode(data) =>
      InkTrim(data);
      InkOfSpace(" ");
      InkConcat(TrimSpace(data), " ");
    case Element(tag, _, children) =>
      var kind := KindOf(tag);
      if kind == Hidden {
      } else if kind == Link {
        InkLink(n);
      } else {
        InkOutputs(n, children);
        InkFramed(Opening(kind), Outputs(children), Closing(kind));
      }
    case Other(children) =>
      InkOutputs(n, children);
  }

  lemma InkFramed(before: string, s: string, after: string)
    requires before in ["", "\n"] && after in ["", "\n"]
    ensures Ink(before + s + after) == Ink(s)
  {
    InkOfSpace(before);
    InkOfSpace(after);
    InkConcat(before + s, after);
    InkConcat(before, s);
  }

  lemma {:induction false} InkOutputs(parent: Node, nodes: seq<Node>)
    requires forall n :: n in nodes ==> n < parent
    ensures Ink(Outputs(nodes)) == Ink(CarriedAll(nodes))
    decreases parent, 0, nodes
  {
    if nodes == [] {
    } else {
      var init, last := nodes[..|nodes| - 1], nodes[|nodes| - 1];
      assert last in nodes && forall n :: n in init ==> n in nodes;
      InkOutputs(parent, init);
      InkOutput(last);
      InkConcat(Outputs(init), Output(last));
      InkConcat(CarriedAll(init), Carried(last));
    }
  }

  /** The walk, the trimming and the collapsing change nothing but white space. */
  lemma RenderingKeepsInk(doc: Node)
    ensures Ink(Rendered(doc)) == Ink(Carried(doc))
  {
    InkOutput(doc);
    InkTrim(Output(doc));
    InkClamp(TrimSpace(Output(doc)), 0);
  }
}
