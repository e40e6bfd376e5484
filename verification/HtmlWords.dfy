/** The words and the layout of a document's plain text. */
module HtmlWords {
  import opened Text
  import opened HtmlTree
  import PlainText

  // ---------------------------------------------------------------- words

  /** The words of a text that goes on with `word`. */
  function WordsFrom(word: string, s: string): seq<string>
    decreases s
  {
    if s == "" then One(word)
    else if IsSpace(s[0]) then One(word) + WordsFrom("", s[1..])
    else WordsFrom(word + [s[0]], s[1..])
  }

  function One(word: string): seq<string> {
    if word == "" then [] else [word]
  }

  /** The stretches of a text between white space, in order. */
  function Words(s: string): seq<string> {
    WordsFrom("", s)
  }

  lemma {:induction false} WordsAround(word: string, a: string, c: char, b: string)
    requires IsSpace(c)
    ensures WordsFrom(word, a + [c] + b) == WordsFrom(word, a) + Words(b)
    decreases a
  {
    var s := a + [c] + b;
    if a == "" {
      assert s[0] == c && s[1..] == b;
    } else {
      assert s[0] == a[0] && s[1..] == a[1..] + [c] + b;
      WordsAround(if IsSpace(a[0]) then "" else word + [a[0]], a[1..], c, b);
    }
  }

  /** Empty, or with white space at the end. */
  predicate EndsOpen(s: string) {
    s == "" || IsSpace(s[|s| - 1])
  }

  /** After white space a new word begins. */
  lemma WordsConcat(a: string, b: string)
    requires EndsOpen(a)
    ensures Words(a + b) == Words(a) + Words(b)
  {
    if a == "" {
      assert a + b == b;
    } else {
      var init, c := a[..|a| - 1], a[|a| - 1];
      assert a == init + [c] && a + b == init + [c] + b && init + [c] + "" == a;
      WordsAround("", init, c, b);
      WordsAround("", init, c, "");
    }
  }

  lemma WordsOfSpaced(a: string, c: char, b: string)
    requires IsSpace(c)
    ensures Words(a + ([c] + b)) == Words(a) + Words(b)
  {
    assert a + ([c] + b) == a + [c] + b;
    WordsAround("", a, c, b);
  }

  lemma {:induction false} WordsTrimLeft(s: string)
    ensures Words(TrimLeft(s)) == Words(s)
    decreases s
  {
    if s != "" && IsSpace(s[0]) {
      WordsTrimLeft(s[1..]);
    }
  }

  lemma {:induction false} WordsTrimRight(s: string)
    ensures Words(TrimRight(s)) == Words(s)
    decreases s
  {
    if s != "" && IsSpace(s[|s| - 1]) {
      var init, c := s[..|s| - 1], s[|s| - 1];
      WordsTrimRight(init);
      WordsAround("", init, c, "");
      assert init + [c] + "" == s;
    }
  }

  lemma WordsTrim(s: string)
    ensures Words(TrimSpace(s)) == Words(s)
  {
    WordsTrimLeft(s);
    WordsTrimRight(TrimLeft(s));
  }

  lemma {:induction false} WordsClamp(word: string, s: string, run: nat)
    requires run > 0 ==> word == ""
    ensures WordsFrom(word, PlainText.Clamp(s, run)) == WordsFrom(word, s)
    decreases s
  {
    if s != "" {
      PlainText.ClampStep(s[0], s[1..], run);
      assert s == [s[0]] + s[1..];
      if s[0] != '\n' {
        WordsClamp(if IsSpace(s[0]) then "" else word + [s[0]], s[1..], 0);
        assert ([s[0]] + PlainText.Clamp(s[1..], 0))[1..] == PlainText.Clamp(s[1..], 0);
      } else if run < 2 {
        WordsClamp("", s[1..], run + 1);
        assert (['\n'] + PlainText.Clamp(s[1..], run + 1))[1..] == PlainText.Clamp(s[1..], run + 1);
      } else {
        WordsClamp("", s[1..], run);
      }
    }
  }

  /** The words a document shows: its texts outside hidden elements, its link texts, and differing targets. */
  function WordsShown(n: Node): seq<string> {
    match n
    case TextNode(data) => Words(data)
    case Element(tag, href, children) =>
      if KindOf(tag) == Hidden then []
      else if KindOf(tag) == Link then
        Words(LinkTexts(children)) + Words(LinkMark(href, TrimSpace(LinkTexts(children))))
      else AllWordsShown(children)
    case Other(children) => AllWordsShown(children)
  }

  function AllWordsShown(nodes: seq<Node>): seq<string> {
    if nodes == [] then [] else AllWordsShown(nodes[..|nodes| - 1]) + WordsShown(nodes[|nodes| - 1])
  }

  lemma WordsOfText(data: string)
    ensures Words(TextOutput(data)) == Words(data) && EndsOpen(TextOutput(data))
  {
    WordsTrim(data);
    WordsOfSpaced(TrimSpace(data), ' ', "");
    assert TrimSpace(data) + ([' '] + "") == TrimSpace(data) + " ";
  }

  lemma LinkParts(n: Node, text: string, mark: string)
    requires n.Element? && text == TrimSpace(LinkTexts(n.children)) && mark == LinkMark(n.href, text)
    ensures LinkOutput(n) == if mark == "" then text + " " else text + " " + (mark + " ")
  {
    if mark == "" {
      assert text + "" == text;
    } else {
      assert text + (" (" + n.href + ")") + " " == text + " " + (("(" + n.href + ")") + " ");
    }
  }

  lemma WordsSpaceEnd(s: string)
    ensures Words(s + " ") == Words(s) && EndsOpen(s + " ")
  {
    WordsOfSpaced(s, ' ', "");
    assert s + ([' '] + "") == s + " ";
  }

  lemma WordsOfLink(n: Node)
    requires n.Element?
    ensures var linked := LinkTexts(n.children);
            Words(LinkOutput(n)) == Words(linked) + Words(LinkMark(n.href, TrimSpace(linked)))
    ensures EndsOpen(LinkOutput(n))
  {
    var linked := LinkTexts(n.children);
    var text := TrimSpace(linked);
    var mark := LinkMark(n.href, text);
    WordsTrim(linked);
    LinkParts(n, text, mark);
    WordsSpaceEnd(text);
    WordsSpaceEnd(mark);
    WordsConcat(text + " ", mark + " ");
    assert Words("") == [];
  }

  lemma WordsFramed(before: string, s: string, after: string)
    requires before in ["", "\n"] && after in ["", "\n"] && EndsOpen(s)
    ensures Words(before + s + after) == Words(s) && EndsOpen(before + s + after)
  {
    WordsConcat(before, s);
    WordsConcat(before + s, after);
    assert Words("\n") == [] by {
      WordsAround("", "", '\n', "");
      assert "" + ['\n'] + "" == "\n";
    }
  }

  lemma {:induction false} WordsOutput(n: Node)
    ensures Words(Output(n)) == WordsShown(n) && EndsOpen(Output(n))
    decreases n, 0
  {
    match n
    case TextNode(data) => WordsOfText(data);
    case Element(tag, _, children) =>
      var kind := KindOf(tag);
      if kind == Link {
        WordsOfLink(n);
      } else if kind != Hidden {
        WordsOutputs(n, children);
        WordsFramed(Opening(kind), Outputs(children), Closing(kind));
      }
    case Other(children) => WordsOutputs(n, children);
  }

  lemma {:induction false} WordsOutputs(parent: Node, nodes: seq<Node>)
    requires forall n :: n in nodes ==> n < parent
    ensures Words(Outputs(nodes)) == AllWordsShown(nodes) && EndsOpen(Outputs(nodes))
    decreases parent, 0, nodes
  {
    if nodes != [] {
      var init, last := nodes[..|nodes| - 1], nodes[|nodes| - 1];
      assert last in nodes && forall n :: n in init ==> n in nodes;
      WordsOutputs(parent, init);
      WordsOutput(last);
      WordsConcat(Outputs(init), Output(last));
      if Output(last) == "" {
        assert Outputs(init) + "" == Outputs(init);
      }
    }
  }

  /** No word is split, none is lost, and no two run together. */
  lemma RenderingKeepsWords(doc: Node)
    ensures Words(Rendered(doc)) == WordsShown(doc)
  {
    WordsOutput(doc);
    WordsTrim(Output(doc));
    WordsClamp("", TrimSpace(Output(doc)), 0);
  }

  // ---------------------------------------------------------------- layout

  const HIDDEN_TAGS := {"style", "script", "head"}
  const BLOCK_TAGS := {"p", "div", "h1", "h2", "h3", "h4", "h5", "h6"}
  const LINE_TAGS := {"br", "tr", "li"}

  /** Which elements are left out, stand on lines of their own, or begin a line; all others only hold their children. */
  lemma TagsLayOut(tag: string, href: string, children: seq<Node>)
    requires tag != "a"
    ensures var o, inner := Output(Element(tag, href, children)), Outputs(children);
            && (tag in HIDDEN_TAGS ==> o == "")
            && (tag in BLOCK_TAGS ==> o == "\n" + inner + "\n")
            && (tag in LINE_TAGS ==> o == "\n" + inner)
            && (tag !in HIDDEN_TAGS + BLOCK_TAGS + LINE_TAGS ==> o == inner)
  {
    KindsOfTags(tag);
    KindLaysOut(Element(tag, href, children));
  }

  lemma KindsOfTags(tag: string)
    ensures KindOf(tag) == Hidden <==> tag in HIDDEN_TAGS
    ensures KindOf(tag) == Link <==> tag == "a"
    ensures KindOf(tag) == Block <==> tag in BLOCK_TAGS
    ensures KindOf(tag) == LineStart <==> tag in LINE_TAGS
  {
  }

  lemma KindLaysOut(n: Node)
    requires n.Element?
    ensures var kind, inner := KindOf(n.tag), Outputs(n.children);
            && (kind == Hidden ==> Output(n) == "")
            && (kind == Block ==> Output(n) == "\n" + inner + "\n")
            && (kind == LineStart ==> Output(n) == "\n" + inner)
            && (kind == Inline ==> Output(n) == inner)
  {
    var inner := Outputs(n.children);
    assert "\n" + inner + "" == "\n" + inner && "" + inner + "" == inner;
  }

  // ---------------------------------------------------------------- running text

  /** Words with a space after each. */
  function Spaced(words: seq<string>): string {
    if words == [] then "" else Spaced(words[..|words| - 1]) + words[|words| - 1] + " "
  }

  lemma SpacedAppend(words: seq<string>, word: string)
    ensures Spaced(words + [word]) == Spaced(words) + (word + " ")
  {
    assert (words + [word])[..|words|] == words;
    assert Spaced(words) + word + " " == Spaced(words) + (word + " ");
  }

  lemma {:induction false} SpacedConcat(a: seq<string>, b: seq<string>)
    ensures Spaced(a + b) == Spaced(a) + Spaced(b)
    decreases b
  {
    if b == [] {
      assert a + b == a;
    } else {
      var init, last := b[..|b| - 1], b[|b| - 1];
      SpacedConcat(a, init);
      SpacedAppend(a + init, last);
      SpacedAppend(init, last);
      assert b == init + [last] && a + b == a + init + [last];
      assert Spaced(a) + Spaced(init) + (last + " ") == Spaced(a) + (Spaced(init) + (last + " "));
    }
  }

  lemma {:induction false} SpacedIsJoin(words: seq<string>)
    ensures Spaced(words) == if words == [] then "" else Join(words, ' ') + " "
    decreases words
  {
    if |words| == 1 {
      assert words[..0] == [];
    } else if |words| > 1 {
      SpacedIsJoin(words[1..]);
      SpacedConcat([words[0]], words[1..]);
      assert words == [words[0]] + words[1..] && [words[0]][..0] == [];
      assert Spaced([words[0]]) == "" + words[0] + " ";
    }
  }

  /** One space between its words. */
  predicate IsPlain(s: string) {
    TrimSpace(s) == Join(Words(s), ' ')
  }

  /** Plain text and links with a text, and no element that breaks the line. */
  predicate IsInline(n: Node) {
    match n
    case TextNode(data) => IsPlain(data)
    case Element(tag, href, children) =>
      var linked := LinkTexts(children);
      if tag in HIDDEN_TAGS then true
      else if tag == "a" then
        IsPlain(linked) && !IsBlank(linked) &&
        (href == "" || href == TrimSpace(linked) || Words("(" + href + ")") == ["(" + href + ")"])
      else tag !in BLOCK_TAGS && tag !in LINE_TAGS && AllInline(children)
    case Other(children) => AllInline(children)
  }

  predicate AllInline(nodes: seq<Node>) {
    nodes == [] || (AllInline(nodes[..|nodes| - 1]) && IsInline(nodes[|nodes| - 1]))
  }

  lemma InlineText(data: string)
    requires IsPlain(data)
    ensures TextOutput(data) == Spaced(Words(data))
  {
    SpacedIsJoin(Words(data));
    WordsTrim(data);
    if TrimSpace(data) == "" {
      assert Words("") == [];
    } else {
      assert Words(data) != [];
    }
  }

  lemma SpacedOne(word: string)
    ensures Spaced([word]) == word + " " && Spaced([]) == ""
  {
    assert [word][..0] == [] && "" + word == word;
  }

  lemma InlineLink(n: Node)
    requires n.Element? && n.tag == "a" && IsInline(n)
    ensures LinkOutput(n) == Spaced(WordsShown(n))
  {
    var linked := LinkTexts(n.children);
    var text := TrimSpace(linked);
    var mark := LinkMark(n.href, text);
    KindsOfTags(n.tag);
    BlankExactly(linked);
    InlineText(linked);
    LinkParts(n, text, mark);
    SpacedOne(mark);
    SpacedConcat(Words(linked), Words(mark));
    assert Words("") == [];
  }

  /** Where nothing breaks the line, the text is the words with one space after each. */
  lemma {:induction false} InlineIsWords(n: Node)
    requires IsInline(n)
    ensures Output(n) == Spaced(WordsShown(n))
    decreases n, 0
  {
    match n
    case TextNode(data) => InlineText(data);
    case Element(tag, _, children) =>
      KindsOfTags(tag);
      KindLaysOut(n);
      if tag == "a" {
        InlineLink(n);
      } else if tag !in HIDDEN_TAGS {
        AllInlineIsWords(n, children);
      }
    case Other(children) => AllInlineIsWords(n, children);
  }

  lemma {:induction false} AllInlineIsWords(parent: Node, nodes: seq<Node>)
    requires AllInline(nodes) && forall n :: n in nodes ==> n < parent
    ensures Outputs(nodes) == Spaced(AllWordsShown(nodes))
    decreases parent, 0, nodes
  {
    if nodes != [] {
      var init, last := nodes[..|nodes| - 1], nodes[|nodes| - 1];
      assert last in nodes && forall n :: n in init ==> n in nodes;
      AllInlineIsWords(parent, init);
      InlineIsWords(last);
      SpacedConcat(AllWordsShown(init), WordsShown(last));
    }
  }
}
