/** The block extraction of parser.js: a résumé file is accepted only with the
    extension `docx`; the top-level nodes of the converted document are walked
    in order, and the text of every element node is cut into trimmed,
    non-empty blocks tagged with the element's lower-case tag name. The
    conversion of the file into those nodes is not part of this model: the
    nodes are the input. */
module Parser {
  import opened Prelude
  import opened JsStrings

  /** A top-level node of the converted document: its `nodeType` (1 for an
      element), its `tagName` and its `textContent`. */
  datatype Node = Node(nodeType: int, tagName: string, textContent: string)

  /** One extracted block: `{ tag, text }`. */
  datatype Element = Element(tag: string, text: string)

  const ELEMENT_NODE: int := 1

  /** The character class `[\nâ€¢]`: a line break and the three characters
      that a UTF-8 bullet becomes when read as Windows-1252 text. */
  predicate IsBlockSeparator(c: char)
  {
    c == '\n' || c == 'â' || c == '€' || c == '¢'
  }

  predicate IsDot(c: char)
  {
    c == '.'
  }

  /** `name.split('.').pop().toLowerCase()`. */
  function FileExtension(name: string): string
  {
    var pieces := SplitOn(name, IsDot);
    ToLower(pieces[|pieces| - 1])
  }

  /** `pieces.map(block => block.trim()).filter(block => block.length > 0)`,
      one piece at a time. */
  function TrimmedNonEmpty(pieces: seq<string>): (r: seq<string>)
    ensures |r| <= |pieces|
  {
    if pieces == [] then []
    else
      var t := Trim(pieces[0]);
      (if t == [] then [] else [t]) + TrimmedNonEmpty(pieces[1..])
  }

  /** The blocks of an element's text: trimmed, split at every separator,
      each piece trimmed, the empty ones dropped. */
  function BlocksOf(text: string): seq<string>
  {
    TrimmedNonEmpty(SplitOn(Trim(text), IsBlockSeparator))
  }

  /** The blocks of one element, each tagged with `tag`. */
  function Tagged(tag: string, blocks: seq<string>): (r: seq<Element>)
    ensures |r| == |blocks|
  {
    seq(|blocks|, i requires 0 <= i < |blocks| => Element(tag, blocks[i]))
  }

  /** What one top-level node contributes: the blocks of an element, nothing
      for any other kind of node. */
  function NodeElements(n: Node): seq<Element>
  {
    if n.nodeType == ELEMENT_NODE then Tagged(ToLower(n.tagName), BlocksOf(n.textContent)) else []
  }

  /** What each of `nodes` contributes, in document order. */
  function Parts(nodes: seq<Node>): (r: seq<seq<Element>>)
    ensures |r| == |nodes|
  {
    seq(|nodes|, i requires 0 <= i < |nodes| => NodeElements(nodes[i]))
  }

  /** What the walk over `nodes` collects. */
  function Extracted(nodes: seq<Node>): seq<Element>
  {
    Flatten(Parts(nodes))
  }

  /** The element nodes of `nodes`, in order. */
  function ElementNodes(nodes: seq<Node>): (r: seq<Node>)
    ensures forall i :: 0 <= i < |r| ==> r[i].nodeType == ELEMENT_NODE
  {
    if nodes == [] then []
    else
      var last := nodes[|nodes| - 1];
      ElementNodes(nodes[..|nodes| - 1]) + (if last.nodeType == ELEMENT_NODE then [last] else [])
  }

  /** `extractTextFromFile(file)` for a file called `name` whose converted
      document has the top-level `nodes`; any other extension gives no blocks. */
  method ExtractTextFromFile(name: string, nodes: seq<Node>) returns (elements: seq<Element>)
    ensures elements == if FileExtension(name) == "docx" then Extracted(nodes) else []
  {
    var fileType := FileExtension(name);
    if fileType != "docx" {
      return [];
    }
    elements := [];
    var i := 0;
    while i < |nodes|
      invariant 0 <= i <= |nodes|
      invariant elements == Extracted(nodes[..i])
    {
      ExtractedStep(nodes, i);
      elements := CollectNode(elements, nodes[i]);
      i := i + 1;
    }
    assert nodes[..i] == nodes;
  }

  /** One step of the walk: an element node adds its blocks, tagged with its
      lower-case tag name, one at a time; any other node adds nothing. */
  method CollectNode(elements0: seq<Element>, node: Node) returns (elements: seq<Element>)
    ensures elements == elements0 + NodeElements(node)
  {
    if node.nodeType == ELEMENT_NODE {
      var tag := ToLower(node.tagName);
      var blocks := BlocksOf(node.textContent);
      elements := PushBlocks(elements0, tag, blocks);
      assert NodeElements(node) == Tagged(tag, blocks);
    } else {
      elements := elements0;
      assert NodeElements(node) == [];
      assert elements0 + [] == elements0;
    }
  }

  /** The inner loop: every block is pushed as `{ tag, text }`, in order. */
  method PushBlocks(elements0: seq<Element>, tag: string, blocks: seq<string>) returns (elements: seq<Element>)
    ensures elements == elements0 + Tagged(tag, blocks)
  {
    elements := elements0;
    var j := 0;
    while j < |blocks|
      invariant 0 <= j <= |blocks|
      invariant elements == elements0 + Tagged(tag, blocks[..j])
    {
      TaggedStep(tag, blocks, j);
      elements := elements + [Element(tag, blocks[j])];
      j := j + 1;
    }
    assert blocks[..j] == blocks;
  }

  // ---------------------------------------------------------------------------
  // properties

  /** Every block is trimmed, non-empty and free of separators. */
  lemma BlocksClean(text: string)
    ensures forall i :: 0 <= i < |BlocksOf(text)| ==> BlocksOf(text)[i] != []
    ensures forall i :: 0 <= i < |BlocksOf(text)| ==> IsTrimmed(BlocksOf(text)[i])
    ensures forall i :: 0 <= i < |BlocksOf(text)| ==> Free(BlocksOf(text)[i], IsBlockSeparator)
  {
    SplitOnPiecesFree(Trim(text), IsBlockSeparator);
    TrimmedNonEmptyClean(SplitOn(Trim(text), IsBlockSeparator), IsBlockSeparator);
  }

  /** Trimming and filtering separator-free pieces leaves trimmed, non-empty,
      separator-free blocks. */
  lemma {:induction false} TrimmedNonEmptyClean(pieces: seq<string>, sep: char -> bool)
    requires forall i :: 0 <= i < |pieces| ==> Free(pieces[i], sep)
    ensures forall i :: 0 <= i < |TrimmedNonEmpty(pieces)| ==>
              TrimmedNonEmpty(pieces)[i] != [] && IsTrimmed(TrimmedNonEmpty(pieces)[i])
              && Free(TrimmedNonEmpty(pieces)[i], sep)
  {
    if pieces != [] {
      TrimmedNonEmptyClean(pieces[1..], sep);
      TrimIsTrimmed(pieces[0]);
      TrimKeepsFree(pieces[0], sep);
    }
  }

  /** Pieces that are already trimmed and non-empty are all kept. */
  lemma {:induction false} TrimmedNonEmptyKeeps(pieces: seq<string>)
    requires forall i :: 0 <= i < |pieces| ==> pieces[i] != [] && Trim(pieces[i]) == pieces[i]
    ensures TrimmedNonEmpty(pieces) == pieces
  {
    if pieces != [] {
      TrimmedNonEmptyKeeps(pieces[1..]);
    }
  }

  /** Trimming a piece keeps it inside the piece, so it stays separator-free. */
  lemma TrimKeepsFree(s: string, sep: char -> bool)
    requires Free(s, sep)
    ensures Free(Trim(s), sep)
  {
    var t := TrimStart(s);
    FreeSlice(s, |s| - |t|, |s|, sep);
    var r := TrimEnd(t);
    FreeSlice(t, 0, |r|, sep);
  }

  /** Tagging one more block adds one element at the end. */
  lemma TaggedStep(tag: string, blocks: seq<string>, j: nat)
    requires j < |blocks|
    ensures Tagged(tag, blocks[..j + 1]) == Tagged(tag, blocks[..j]) + [Element(tag, blocks[j])]
  {
  }

  /** Every extracted element comes from an element node: loose text nodes and
      other nodes contribute nothing. */
  lemma {:induction false} OnlyElementNodes(nodes: seq<Node>)
    ensures Extracted(ElementNodes(nodes)) == Extracted(nodes)
  {
    if nodes != [] {
      var n := |nodes| - 1;
      var init := nodes[..n];
      assert init + [nodes[n]] == nodes;
      OnlyElementNodes(init);
      ExtractedSnoc(init, nodes[n]);
      ExtractedKept(ElementNodes(init), nodes[n]);
    }
  }

  /** Keeping `n` only when it is an element node adds the same blocks as
      keeping it always. */
  lemma ExtractedKept(kept: seq<Node>, n: Node)
    ensures Extracted(kept + (if n.nodeType == ELEMENT_NODE then [n] else []))
            == Extracted(kept) + NodeElements(n)
  {
    if n.nodeType == ELEMENT_NODE {
      ExtractedSnoc(kept, n);
    } else {
      assert kept + [] == kept;
    }
  }

  /** The walk's step: the first `i + 1` nodes collect what the first `i`
      collect, then the blocks of node `i`. */
  lemma ExtractedStep(nodes: seq<Node>, i: nat)
    requires i < |nodes|
    ensures Extracted(nodes[..i + 1]) == Extracted(nodes[..i]) + NodeElements(nodes[i])
  {
    assert nodes[..i + 1] == nodes[..i] + [nodes[i]];
    ExtractedSnoc(nodes[..i], nodes[i]);
  }

  /** One more node adds its own blocks at the end. */
  lemma ExtractedSnoc(nodes: seq<Node>, n: Node)
    ensures Extracted(nodes + [n]) == Extracted(nodes) + NodeElements(n)
  {
    var ps := Parts(nodes + [n]);
    assert ps[..|nodes|] == Parts(nodes);
    assert ps[|nodes|] == NodeElements(n);
  }

  /** The walk over two runs of nodes collects the first run's blocks, then
      the second's: source order is kept. */
  lemma {:induction false} ExtractedAppend(a: seq<Node>, b: seq<Node>)
    ensures Extracted(a + b) == Extracted(a) + Extracted(b)
    decreases |b|
  {
    if b == [] {
      assert a + b == a;
      assert Extracted(b) == [] by {
        assert Parts(b) == [];
      }
    } else {
      var pre, n := b[..|b| - 1], b[|b| - 1];
      assert b == pre + [n];
      assert a + b == (a + pre) + [n];
      ExtractedAppend(a, pre);
      ExtractedSnoc(a + pre, n);
      ExtractedSnoc(pre, n);
    }
  }

  /** Every extracted element carries the lower-cased tag of an element node
      and one of that node's blocks. */
  lemma {:induction false} ExtractedFromNodes(nodes: seq<Node>, k: nat)
    requires k < |Extracted(nodes)|
    ensures exists i :: 0 <= i < |nodes| && nodes[i].nodeType == ELEMENT_NODE
                        && Extracted(nodes)[k].tag == ToLower(nodes[i].tagName)
                        && Extracted(nodes)[k].text in BlocksOf(nodes[i].textContent)
  {
    if nodes != [] {
      var n := |nodes| - 1;
      var init := nodes[..n];
      assert init + [nodes[n]] == nodes;
      ExtractedSnoc(init, nodes[n]);
      var before := Extracted(init);
      if k < |before| {
        ExtractedFromNodes(init, k);
        var i :| 0 <= i < |init| && init[i].nodeType == ELEMENT_NODE
                 && before[k].tag == ToLower(init[i].tagName)
                 && before[k].text in BlocksOf(init[i].textContent);
        assert nodes[i] == init[i];
      } else if nodes[n].nodeType == ELEMENT_NODE {
        var blocks := BlocksOf(nodes[n].textContent);
        var j := k - |before|;
        assert Extracted(nodes)[k] == Element(ToLower(nodes[n].tagName), blocks[j]);
        assert blocks[j] in blocks;
      }
    }
  }

  /** The extension is whatever follows the last dot, lower-cased. */
  lemma ExtensionAfterLastDot(base: string, ext: string)
    requires Free(ext, IsDot)
    ensures FileExtension(base + "." + ext) == ToLower(ext)
  {
    SplitOnLast(base, '.', ext, IsDot);
  }

  /** A `.txt` file is refused. */
  lemma TxtRefused()
    ensures FileExtension("file.txt") != "docx"
  {
    ExtensionAfterLastDot("file", "txt");
    assert "file" + "." + "txt" == "file.txt";
  }

  /** A `.DOCX` file is accepted: the comparison ignores case. */
  lemma UpperDocxAccepted()
    ensures FileExtension("resume.DOCX") == "docx"
  {
    ExtensionAfterLastDot("resume", "DOCX");
    assert "resume" + "." + "DOCX" == "resume.DOCX";
    assert ToLower("DOCX") == "docx" by {
      assert LowerChar('D') == 'd' && LowerChar('O') == 'o';
      assert LowerChar('C') == 'c' && LowerChar('X') == 'x';
    }
  }

  /** A trimmed string is its own trim. */
  lemma TrimOfTrimmed(s: string)
    requires IsTrimmed(s)
    ensures Trim(s) == s
  {
  }

  /** A block with no separator and no surrounding blanks is one block. */
  lemma SingleBlock(text: string)
    requires text != [] && Free(text, IsBlockSeparator) && IsTrimmed(text)
    ensures BlocksOf(text) == [text]
  {
    TrimOfTrimmed(text);
    SplitOnFree(text, IsBlockSeparator);
    assert TrimmedNonEmpty([text]) == [text] + TrimmedNonEmpty([]);
  }

  /** `\nâ€¢` is four separator characters: the split gives three empty
      pieces between the text before and the text after. */
  lemma BulletSplit(a: string, b: string)
    requires Free(a, IsBlockSeparator) && Free(b, IsBlockSeparator)
    ensures SplitOn(a + "\nâ€¢" + b, IsBlockSeparator) == [a, [], [], [], b]
  {
    var t3 := ['¢'] + b;
    var t2 := ['€'] + t3;
    var t1 := ['â'] + t2;
    assert a + "\nâ€¢" + b == a + ['\n'] + t1;
    SplitOnFirst(a, '\n', t1, IsBlockSeparator);
    assert t1 == [] + ['â'] + t2 && t2 == [] + ['€'] + t3 && t3 == [] + ['¢'] + b;
    SplitOnFirst([], 'â', t2, IsBlockSeparator);
    SplitOnFirst([], '€', t3, IsBlockSeparator);
    SplitOnFirst([], '¢', b, IsBlockSeparator);
    SplitOnFree(b, IsBlockSeparator);
  }

  /** A line break followed by a bullet read as Windows-1252 (`\nâ€¢`) cuts a
      line into two blocks: the three empty pieces between the four separator
      characters vanish. */
  lemma BulletLine(a: string, b: string)
    requires a != [] && Free(a, IsBlockSeparator) && IsTrimmed(a)
    requires b != [] && Free(b, IsBlockSeparator) && IsTrimmed(b)
    ensures BlocksOf(a + "\nâ€¢" + b) == [a, b]
  {
    var text := a + "\nâ€¢" + b;
    assert text[0] == a[0] && text[|text| - 1] == b[|b| - 1];
    TrimOfTrimmed(text);
    BulletSplit(a, b);
    var empty: string := [];
    assert [a, [], [], [], b] == [a] + ([empty] + ([empty] + ([empty] + ([b] + []))));
    TrimOfTrimmed(a);
    TrimOfTrimmed(b);
    TrimmedNonEmptyCons(b, []);
    TrimmedNonEmptyCons(empty, [b] + []);
    TrimmedNonEmptyCons(empty, [empty] + ([b] + []));
    TrimmedNonEmptyCons(empty, [empty] + ([empty] + ([b] + [])));
    TrimmedNonEmptyCons(a, [empty] + ([empty] + ([empty] + ([b] + []))));
  }

  /** The first piece of `[p] + rest`, trimmed, is kept unless it is empty. */
  lemma TrimmedNonEmptyCons(p: string, rest: seq<string>)
    ensures TrimmedNonEmpty([p] + rest)
            == (if Trim(p) == [] then [] else [Trim(p)]) + TrimmedNonEmpty(rest)
  {
    assert ([p] + rest)[1..] == rest;
  }

  /** A document of one loose text node, a paragraph `heading` and a paragraph
      `line\nâ€¢bullet`: the loose text is skipped and the blocks of the two
      paragraphs are collected in order, tagged `p`. */
  lemma ResumeDocument(loose: string, heading: string, line: string, bullet: string)
    requires heading != [] && Free(heading, IsBlockSeparator) && IsTrimmed(heading)
    requires line != [] && Free(line, IsBlockSeparator) && IsTrimmed(line)
    requires bullet != [] && Free(bullet, IsBlockSeparator) && IsTrimmed(bullet)
    ensures Extracted([Node(3, "", loose), Node(ELEMENT_NODE, "P", heading),
                       Node(ELEMENT_NODE, "P", line + "\nâ€¢" + bullet)])
            == [Element("p", heading), Element("p", line), Element("p", bullet)]
  {
    var n0 := Node(3, "", loose);
    var n1 := Node(ELEMENT_NODE, "P", heading);
    var n2 := Node(ELEMENT_NODE, "P", line + "\nâ€¢" + bullet);
    assert NodeElements(n0) == [];
    HeadingParagraph(heading);
    BulletParagraph(line, bullet);
    ThreeNodes(n0, n1, n2, Element("p", heading), Element("p", line), Element("p", bullet));
  }

  /** A node with no blocks, one with one block and one with two give the
      three blocks in order. */
  lemma ThreeNodes(n0: Node, n1: Node, n2: Node, e0: Element, e1: Element, e2: Element)
    requires NodeElements(n0) == [] && NodeElements(n1) == [e0] && NodeElements(n2) == [e1, e2]
    ensures Extracted([n0, n1, n2]) == [e0, e1, e2]
  {
    ExtractedThree(n0, n1, n2);
    OneThenTwo([], [e0], [e1, e2]);
  }

  lemma OneThenTwo(a: seq<Element>, b: seq<Element>, c: seq<Element>)
    requires a == [] && |b| == 1 && |c| == 2
    ensures a + b + c == [b[0], c[0], c[1]]
  {
  }

  /** A clean paragraph is one block tagged `p`. */
  lemma HeadingParagraph(heading: string)
    requires heading != [] && Free(heading, IsBlockSeparator) && IsTrimmed(heading)
    ensures NodeElements(Node(ELEMENT_NODE, "P", heading)) == [Element("p", heading)]
  {
    SingleBlock(heading);
    Paragraph(heading, [heading]);
    TaggedOne("p", heading);
  }

  lemma TaggedOne(tag: string, a: string)
    ensures Tagged(tag, [a]) == [Element(tag, a)]
  {
  }

  /** A paragraph `line\nâ€¢bullet` is two blocks tagged `p`. */
  lemma BulletParagraph(line: string, bullet: string)
    requires line != [] && Free(line, IsBlockSeparator) && IsTrimmed(line)
    requires bullet != [] && Free(bullet, IsBlockSeparator) && IsTrimmed(bullet)
    ensures NodeElements(Node(ELEMENT_NODE, "P", line + "\nâ€¢" + bullet))
            == [Element("p", line), Element("p", bullet)]
  {
    BulletLine(line, bullet);
    Paragraph(line + "\nâ€¢" + bullet, [line, bullet]);
    TaggedTwo("p", line, bullet);
  }

  lemma TaggedTwo(tag: string, a: string, b: string)
    ensures Tagged(tag, [a, b]) == [Element(tag, a), Element(tag, b)]
  {
  }

  /** A paragraph contributes its blocks, each tagged `p`. */
  lemma Paragraph(text: string, blocks: seq<string>)
    requires BlocksOf(text) == blocks
    ensures NodeElements(Node(ELEMENT_NODE, "P", text)) == Tagged("p", blocks)
  {
    ParagraphTag();
  }

  /** `P`, lower-cased, is `p`. */
  lemma ParagraphTag()
    ensures ToLower("P") == "p"
  {
    assert LowerChar('P') == 'p';
  }

  /** The walk over three nodes collects their blocks in order. */
  lemma ExtractedThree(n0: Node, n1: Node, n2: Node)
    ensures Extracted([n0, n1, n2]) == NodeElements(n0) + NodeElements(n1) + NodeElements(n2)
  {
    var e0, e1, e2 := NodeElements(n0), NodeElements(n1), NodeElements(n2);
    var ns := [n0, n1, n2];
    var ps := Parts(ns);
    assert ns[0] == n0 && ns[1] == n1 && ns[2] == n2;
    assert |ps| == 3 && ps[0] == e0 && ps[1] == e1 && ps[2] == e2;
    assert ps == [e0, e1, e2];
    FlattenThree(e0, e1, e2);
  }

  /** No nodes, no blocks. */
  lemma ExtractedNone()
    ensures Extracted([]) == []
  {
    var none: seq<Node> := [];
    assert Parts(none) == [];
  }

  /** The parsing example: `Loose text<p>Heading</p><p>Line one\nâ€¢Bullet entry</p>`
      gives exactly the blocks `Heading`, `Line one` and `Bullet entry`, each
      tagged `p`. */
  lemma ParsingExample()
    ensures Extracted([Node(3, "", "Loose text"), Node(ELEMENT_NODE, "P", "Heading"),
                       Node(ELEMENT_NODE, "P", "Line one\nâ€¢Bullet entry")])
            == [Element("p", "Heading"), Element("p", "Line one"), Element("p", "Bullet entry")]
  {
    HeadingClean();
    LineClean();
    BulletClean();
    ExampleLine();
    ResumeDocument("Loose text", "Heading", "Line one", "Bullet entry");
  }

  lemma HeadingClean()
    ensures Free("Heading", IsBlockSeparator) && IsTrimmed("Heading")
  {
  }

  lemma LineClean()
    ensures Free("Line one", IsBlockSeparator) && IsTrimmed("Line one")
  {
  }

  lemma BulletClean()
    ensures Free("Bullet entry", IsBlockSeparator) && IsTrimmed("Bullet entry")
  {
  }

  lemma ExampleLine()
    ensures "Line one" + "\nâ€¢" + "Bullet entry" == "Line one\nâ€¢Bullet entry"
  {
  }
}
