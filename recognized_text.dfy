/** The recognition engine's output as the text analyzer reads it: a document made of
    text blocks, each made of lines, each made of elements. An element carries its
    recognized text and, when the engine could place it, its corner points in the
    analyzed image's pixel coordinates. The analyzer visits elements block by block,
    line by line, element by element, in the order the engine reports them. */
module RecognizedText {

  datatype Option<+T> = None | Some(value: T)

  /** A corner point in the analyzed image, in integer pixels. */
  datatype Point = Point(x: int, y: int)

  /** A point in normalized preview coordinates, the output of the coordinate transform. */
  datatype PointF = PointF(x: real, y: real)

  /** The transformed corners of one matched element (a quad once the matcher built it). */
  datatype TextCorners = TextCorners(points: seq<PointF>)

  datatype Element = Element(text: string, cornerPoints: Option<seq<Point>>)
  datatype Line = Line(elements: seq<Element>)
  datatype TextBlock = TextBlock(lines: seq<Line>)
  datatype Text = Text(textBlocks: seq<TextBlock>)

  /** The elements of some lines, in traversal order. */
  function LineElements(lines: seq<Line>): seq<Element>
  {
    if lines == [] then [] else LineElements(lines[..|lines| - 1]) + lines[|lines| - 1].elements
  }

  /** The elements of some blocks, in traversal order. */
  function BlockElements(blocks: seq<TextBlock>): seq<Element>
  {
    if blocks == [] then [] else BlockElements(blocks[..|blocks| - 1]) + LineElements(blocks[|blocks| - 1].lines)
  }

  /** Every element of the document, in block -> line -> element order. */
  function Elements(text: Text): seq<Element>
  {
    BlockElements(text.textBlocks)
  }

  lemma LineElementsNext(lines: seq<Line>, n: nat)
    requires n < |lines|
    ensures LineElements(lines[..n + 1]) == LineElements(lines[..n]) + lines[n].elements
  {
    assert lines[..n + 1][..n] == lines[..n];
  }

  lemma BlockElementsNext(blocks: seq<TextBlock>, n: nat)
    requires n < |blocks|
    ensures BlockElements(blocks[..n + 1]) == BlockElements(blocks[..n]) + LineElements(blocks[n].lines)
  {
    assert blocks[..n + 1][..n] == blocks[..n];
  }

  /** The elements of the first n lines come first among the elements of all lines. */
  lemma {:induction false} LineElementsPrefix(lines: seq<Line>, n: nat)
    requires n <= |lines|
    ensures LineElements(lines[..n]) <= LineElements(lines)
    decreases |lines|
  {
    if n < |lines| {
      var init := lines[..|lines| - 1];
      LineElementsPrefix(init, n);
      assert init[..n] == lines[..n];
    } else {
      assert lines[..n] == lines;
    }
  }

  /** The elements of the first n blocks come first among the elements of all blocks. */
  lemma {:induction false} BlockElementsPrefix(blocks: seq<TextBlock>, n: nat)
    requires n <= |blocks|
    ensures BlockElements(blocks[..n]) <= BlockElements(blocks)
    decreases |blocks|
  {
    if n < |blocks| {
      var init := blocks[..|blocks| - 1];
      BlockElementsPrefix(init, n);
      assert init[..n] == blocks[..n];
    } else {
      assert blocks[..n] == blocks;
    }
  }

  /** Having visited blocks [0, b), lines [0, l) of block b and elements [0, e] of line l,
      the visited elements are a prefix of the document's traversal. */
  lemma VisitedPrefix(text: Text, b: nat, l: nat, e: nat)
    requires b < |text.textBlocks|
    requires l < |text.textBlocks[b].lines|
    requires e < |text.textBlocks[b].lines[l].elements|
    ensures BlockElements(text.textBlocks[..b]) + LineElements(text.textBlocks[b].lines[..l])
              + text.textBlocks[b].lines[l].elements[..e + 1] <= Elements(text)
  {
    var blocks := text.textBlocks;
    var lines := blocks[b].lines;
    var elems := lines[l].elements;
    var done := BlockElements(blocks[..b]);
    LineElementsNext(lines, l);
    LineElementsPrefix(lines, l + 1);
    BlockElementsNext(blocks, b);
    BlockElementsPrefix(blocks, b + 1);
    var inLine := elems[..e + 1];
    assert inLine <= elems;
    var lineSoFar := LineElements(lines[..l]) + inLine;
    assert lineSoFar <= LineElements(lines[..l + 1]);
    assert lineSoFar <= LineElements(lines);
    assert done + lineSoFar <= BlockElements(blocks[..b + 1]);
    assert (done + LineElements(lines[..l])) + inLine == done + lineSoFar;
  }
}
