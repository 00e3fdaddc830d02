/** The parts of a WordprocessingML body the patchers read and write: top-level
    elements that are paragraphs or tables, paragraphs made of runs. */
module DocTree {
  import opened Wrappers
  import opened Strings

  /** `w:r`: an optional character style (`w:rPr/w:rStyle`), an optional `w:t`
      text and whether it carries a `w:tab`. */
  datatype Run = Run(rStyle: Option<string>, text: Option<string>, isTab: bool)

  /** `w:p`: its paragraph style (the style id at the XML level, the style name
      through python-docx), the `w:numPr/w:numId` of its list membership, its
      runs, and whether a drawing sits inside it. */
  datatype Para = Para(style: Option<string>, numId: Option<string>, runs: seq<Run>, hasDrawing: bool)

  /** `w:tc`: the paragraphs of one table cell. */
  type Cell = seq<Para>
  /** `w:tr`: its cells. */
  type Row = seq<Cell>

  /** A direct child of `w:body`. */
  datatype Element = P(para: Para) | Tbl(rows: seq<Row>) | Other

  // ---------------------------------------------------------------------------
  // reading text

  /** The concatenated `w:t` texts of a run list. */
  function RunsXmlText(runs: seq<Run>): string {
    if runs == [] then [] else RunsXmlText(runs[..|runs| - 1]) + runs[|runs| - 1].text.GetOr([])
  }

  /** `paragraph_text`: every `w:t` of the paragraph joined, then trimmed. */
  function XmlText(p: Para): string {
    Strip(RunsXmlText(p.runs))
  }

  /** python-docx `Paragraph.text`: run texts joined, a tab read as "\t"; not trimmed. */
  function DocxText(p: Para): string {
    RunsDocxText(p.runs)
  }

  function RunsDocxText(runs: seq<Run>): string {
    if runs == [] then []
    else
      var r := runs[|runs| - 1];
      RunsDocxText(runs[..|runs| - 1]) + (if r.isTab then "\t" else []) + r.text.GetOr([])
  }

  /** The concatenated `w:t` texts of every paragraph of a cell. */
  function CellRawText(c: Cell): string {
    if c == [] then [] else CellRawText(c[..|c| - 1]) + RunsXmlText(c[|c| - 1].runs)
  }

  /** `paragraph_text` applied to a `w:tc`. */
  function CellText(c: Cell): string {
    Strip(CellRawText(c))
  }

  function RowRawText(row: Row): string {
    if row == [] then [] else RowRawText(row[..|row| - 1]) + CellRawText(row[|row| - 1])
  }

  function RowsRawText(rows: seq<Row>): string {
    if rows == [] then [] else RowsRawText(rows[..|rows| - 1]) + RowRawText(rows[|rows| - 1])
  }

  /** `paragraph_text` applied to any body child. */
  function ElementText(e: Element): string {
    match e
    case P(p) => XmlText(p)
    case Tbl(rows) => Strip(RowsRawText(rows))
    case Other => []
  }

  // ---------------------------------------------------------------------------
  // classifying paragraphs

  /** `is_heading_paragraph`: the paragraph style id starts with "Heading". */
  predicate IsHeading(p: Para) {
    p.style.Some? && StartsWith(p.style.value, "Heading")
  }

  /** `is_list_paragraph`: the paragraph has numbering properties. */
  predicate IsList(p: Para) {
    p.numId.Some?
  }

  predicate IsHeadingElement(e: Element) {
    e.P? && IsHeading(e.para)
  }

  predicate IsListElement(e: Element) {
    e.P? && IsList(e.para)
  }

  /** The list numbering of a child: only a paragraph has one. */
  function NumIdOf(e: Element): Option<string> {
    if e.P? then e.para.numId else None
  }

  // ---------------------------------------------------------------------------
  // writing text

  function TextRun(t: string): Run {
    Run(None, Some(t), false)
  }

  /** `set_paragraph_text` and python-docx `p.text = t`: the paragraph
      properties stay, every other child is replaced by one run holding `t`. */
  function WithText(p: Para, t: string): (r: Para)
    ensures r.style == p.style && r.numId == p.numId && !r.hasDrawing
    ensures XmlText(r) == Strip(t)
    ensures DocxText(r) == t
  {
    var r := Para(p.style, p.numId, [TextRun(t)], false);
    assert r.runs[..0] == [];
    assert RunsXmlText(r.runs) == t;
    assert RunsDocxText(r.runs) == t;
    r
  }

  /** A new `w:p` with no properties, holding `t`. */
  function NewPara(t: string): (r: Para)
    ensures !IsHeading(r) && !IsList(r)
  {
    WithText(Para(None, None, [], false), t)
  }

  /** Setting the text twice keeps only the second. */
  lemma WithTextTwice(p: Para, a: string, b: string)
    ensures WithText(WithText(p, a), b) == WithText(p, b)
  {
  }

  /** `set_cell_text`: the first paragraph of the cell gets `t` (a new one is
      added when the cell has none); later paragraphs stay. */
  function SetCellText(c: Cell, t: string): (r: Cell)
    ensures c == [] ==> r == [NewPara(t)]
    ensures c != [] ==> |r| == |c| && r[0] == WithText(c[0], t) && r[1..] == c[1..]
  {
    if c == [] then [NewPara(t)] else [WithText(c[0], t)] + c[1..]
  }

  /** A cell holding a single paragraph reads back what was written into it. */
  lemma SetCellTextSingle(c: Cell, t: string)
    requires |c| <= 1
    ensures CellText(SetCellText(c, t)) == Strip(t)
  {
    var r := SetCellText(c, t);
    assert r[..0] == [];
    assert CellRawText(r) == RunsXmlText(r[0].runs);
  }

  /** `set_paragraph_text` applied to any body child. A table loses its rows. */
  function ElementWithText(e: Element, t: string): (r: Element)
    ensures e.P? ==> r == P(WithText(e.para, t))
    ensures e.Tbl? ==> r == Tbl([])
  {
    match e
    case P(p) => P(WithText(p, t))
    case Tbl(_) => Tbl([])
    case Other => Other
  }

  // ---------------------------------------------------------------------------
  // the body, updated in place

  /** `w:body`: its children in document order. */
  class Body {
    var elems: seq<Element>

    constructor(elems0: seq<Element>)
      ensures elems == elems0
    {
      elems := elems0;
    }

    /** `body.insert(pos, e)`. */
    method Insert(pos: nat, e: Element)
      requires pos <= |elems|
      modifies this
      ensures elems == old(elems[..pos]) + [e] + old(elems[pos..])
    {
      elems := elems[..pos] + [e] + elems[pos..];
    }

    /** `body.remove(el)` for the child at position `i`. */
    method RemoveAt(i: nat)
      requires i < |elems|
      modifies this
      ensures elems == old(elems[..i]) + old(elems[i + 1..])
    {
      elems := elems[..i] + elems[i + 1..];
    }

    /** `set_paragraph_text` on the child at position `i`. */
    method SetText(i: nat, t: string)
      requires i < |elems|
      modifies this
      ensures elems == old(elems)[i := ElementWithText(old(elems[i]), t)]
    {
      elems := elems[i := ElementWithText(elems[i], t)];
    }

    /** The child at position `i` replaced by `e` (an element edited in place). */
    method Replace(i: nat, e: Element)
      requires i < |elems|
      modifies this
      ensures elems == old(elems)[i := e]
    {
      elems := elems[i := e];
    }

    /** `insert_after_index`: `es` in order, right after position `idx`. */
    method InsertAfterIndex(idx: nat, es: seq<Element>)
      requires idx < |elems|
      modifies this
      ensures elems == old(elems[..idx + 1]) + es + old(elems[idx + 1..])
    {
      ghost var before := elems[..idx + 1];
      ghost var after := elems[idx + 1..];
      var pos := idx + 1;
      var k := 0;
      while k < |es|
        invariant 0 <= k <= |es|
        invariant pos == idx + 1 + k
        invariant elems == before + es[..k] + after
      {
        Insert(pos, es[k]);
        assert es[..k + 1] == es[..k] + [es[k]];
        pos := pos + 1;
        k := k + 1;
      }
      assert es[..k] == es;
    }
  }
}
