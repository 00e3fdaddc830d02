/** `render_from_spec.py`: the LaTeX and markdown bodies rendered from a
    manual spec, one `lines` list per body, and the two templates filled
    with them. Every rendered block is announced by a marker line that the
    docx reconciler later resolves. */
module RenderSpec {
  import opened Wrappers
  import opened Strings
  import opened ManualSpec
  import opened BlockTokens
  import opened TexEscape
  import opened Placeholders

  // ---------------------------------------------------------------------------
  // the defaults the renderers read a section or a block with

  function Level(s: Section): int { s.level.GetOr(1) }
  const Untitled: string := "Untitled"

  function Title(s: Section): string { s.title.GetOr(Untitled) }
  function BlockId(b: Block): string { b.blockId.GetOr("unknown") }
  function Items(b: Block): seq<string> { b.items.GetOr([]) }
  function Rows(b: Block): seq<seq<string>> { b.rows.GetOr([]) }

  /** `block.get("figure_id", block_id)`. */
  function FigureId(b: Block): string { b.figureId.GetOr(BlockId(b)) }

  /** The sections in the order both renderers emit them. */
  function Ordered(spec: Spec): seq<Section> {
    SortedByOrder(spec.sections.GetOr([]))
  }

  /** The columns a table is rendered with: its own, or the three defaults
      when it has none. */
  function Columns(b: Block): (r: seq<string>)
    ensures r != []
    ensures b.columns.GetOr([]) != [] ==> r == b.columns.value
    ensures b.columns.GetOr([]) == [] ==> r == DefaultColumns
  {
    var cols := b.columns.GetOr([]);
    if cols == [] then DefaultColumns else cols
  }

  /** `(list(row) + [""] * (n - len(row)))[:n]`: a row padded with empty
      cells, or cut, to exactly `n` cells. */
  function Pad(row: seq<string>, n: nat): (r: seq<string>)
    ensures |r| == n
    ensures forall i :: 0 <= i < n && i < |row| ==> r[i] == row[i]
    ensures forall i :: |row| <= i < n ==> r[i] == ""
  {
    if n <= |row| then row[..n] else row + seq(n - |row|, _ => "")
  }

  /** `"\n".join(lines).rstrip() + "\n"`. */
  function Body(lines: seq<string>): (r: string)
    ensures r != [] && r[|r| - 1] == '\n'
    ensures |r| == 1 || !IsSpace(r[|r| - 2])
  {
    RStrip(Join("\n", lines)) + "\n"
  }

  // ---------------------------------------------------------------------------
  // render_tex_body

  const TexMarker: string := "% " + BlockTag
  const TexFigMarker: string := "% " + FigTag

  /** `\section{..}` for level 1 and below, `\subsection{..}` otherwise. */
  function TexHeading(s: Section): string {
    (if Level(s) <= 1 then "\\section{" else "\\subsection{") + EscapeAsWritten(Title(s)) + "}"
  }

  function TexItems(items: seq<string>): seq<string>
    decreases |items|
  {
    if items == [] then [] else ["  \\item " + EscapeAsWritten(items[0])] + TexItems(items[1..])
  }

  function TexCells(cells: seq<string>): (r: seq<string>)
    ensures |r| == |cells|
    decreases |cells|
  {
    if cells == [] then [] else [EscapeAsWritten(cells[0])] + TexCells(cells[1..])
  }

  /** One longtable row: the escaped cells joined by ` & `, then `\\`. */
  function TexRow(cells: seq<string>): string {
    Join(" & ", TexCells(cells)) + " \\\\"
  }

  function TexRows(rows: seq<seq<string>>, n: nat): (r: seq<string>)
    ensures |r| == |rows|
    decreases |rows|
  {
    if rows == [] then [] else [TexRow(Pad(rows[0], n))] + TexRows(rows[1..], n)
  }

  /** `f"{0.92 / n:.2f}"` for `n` columns, as two decimals of hundredths:
      92/n rounded half up. The only ties are `n` = 8 and 184, where the
      double nearest 0.92 lies above 0.92 and the quotient rounds up. */
  function WidthText(n: nat): (r: string)
    requires n >= 1
    ensures |r| == 4 && r[0] == '0' && r[1] == '.' && IsDigit(r[2]) && IsDigit(r[3])
  {
    var h: nat := (184 + n) / (2 * n);
    ['0', '.', DigitChar(h / 10 % 10), DigitChar(h % 10)]
  }

  /** The column layout: one `p{<width>\linewidth}` per column. */
  function Layout(n: nat): string
    requires n >= 1
  {
    Join(" ", seq(n, _ => "p{" + WidthText(n) + "\\linewidth}"))
  }

  function TexTable(cols: seq<string>, rows: seq<seq<string>>): seq<string>
    requires cols != []
  {
    ["\\begin{longtable}{" + Layout(|cols|) + "}", "\\toprule", TexRow(cols), "\\midrule", "\\endhead"]
    + TexRows(rows, |cols|) + ["\\bottomrule", "\\end{longtable}"]
  }

  /** The `\screenshotbox{<image>}{<caption>}{Captured from live UI}` line. */
  function ScreenshotLine(imageRel: string, caption: string): string {
    "\\screenshotbox{" + EscapeAsWritten(imageRel) + "}{" + EscapeAsWritten(caption) + "}{Captured from live UI}"
  }

  function TexFigure(b: Block): seq<string> {
    [TexFigMarker + FigureId(b), ScreenshotLine(b.imageRel.GetOr(""), b.caption.GetOr(""))]
  }

  /** The lines a block renders to between its marker and the blank line
      that closes it. */
  function TexContent(b: Block): seq<string> {
    if b.kind == Some("paragraph") then [EscapeAsWritten(b.text.GetOr("")), ""]
    else if b.kind == Some("bullet_list") then ["\\begin{itemize}"] + TexItems(Items(b)) + ["\\end{itemize}"]
    else if b.kind == Some("numbered_list") then ["\\begin{enumerate}"] + TexItems(Items(b)) + ["\\end{enumerate}"]
    else if b.kind == Some("table") then TexTable(Columns(b), Rows(b))
    else if b.kind == Some("figure") then TexFigure(b)
    else ["% unsupported block type"]
  }

  function TexBlock(b: Block): seq<string> {
    [TexMarker + BlockId(b)] + TexContent(b) + [""]
  }

  function TexBlocks(bs: seq<Block>): seq<string>
    decreases |bs|
  {
    if bs == [] then [] else TexBlocks(bs[..|bs| - 1]) + TexBlock(bs[|bs| - 1])
  }

  function TexSection(s: Section): seq<string> {
    [TexHeading(s)] + TexBlocks(s.blocks.GetOr([]))
  }

  function TexSections(secs: seq<Section>): seq<string>
    decreases |secs|
  {
    if secs == [] then [] else TexSections(secs[..|secs| - 1]) + TexSection(secs[|secs| - 1])
  }

  function TexBody(spec: Spec): string {
    Body(TexSections(Ordered(spec)))
  }

  // ---------------------------------------------------------------------------
  // render_md_body

  /** `"#" * max(1, min(6, level))`. */
  function MarkdownHashes(level: int): (r: string)
    ensures 1 <= |r| <= 6
    ensures level <= 1 ==> |r| == 1
    ensures level >= 6 ==> |r| == 6
    ensures 1 <= level <= 6 ==> |r| == level
    ensures forall i :: 0 <= i < |r| ==> r[i] == '#'
  {
    var n := if level <= 1 then 1 else if level >= 6 then 6 else level;
    seq(n, _ => '#')
  }

  function HeadingLine(level: int, title: string): string {
    MarkdownHashes(level) + " " + title
  }

  /* The markdown lines below take the text cleaner `clean` as a parameter;
     the body is rendered with `clean_md`, that is `CleanText`. */

  function MdHeading(s: Section, clean: string -> string): string {
    HeadingLine(Level(s), clean(Title(s)))
  }

  /** Each text cleaned. */
  function Cleaned(xs: seq<string>, clean: string -> string): (r: seq<string>)
    ensures |r| == |xs|
    decreases |xs|
  {
    if xs == [] then [] else [clean(xs[0])] + Cleaned(xs[1..], clean)
  }

  /** Each text after the same prefix. */
  function Prefixed(p: string, xs: seq<string>): (r: seq<string>)
    ensures |r| == |xs|
    decreases |xs|
  {
    if xs == [] then [] else [p + xs[0]] + Prefixed(p, xs[1..])
  }

  /** `enumerate(xs, start=k)`: each text after its number and a dot. */
  function Numbered(xs: seq<string>, k: nat): (r: seq<string>)
    ensures |r| == |xs|
    decreases |xs|
  {
    if xs == [] then [] else [NatToString(k) + ". " + xs[0]] + Numbered(xs[1..], k + 1)
  }

  function MdRow(cells: seq<string>, clean: string -> string): string {
    "| " + Join(" | ", Cleaned(cells, clean)) + " |"
  }

  function MdRows(rows: seq<seq<string>>, n: nat, clean: string -> string): (r: seq<string>)
    ensures |r| == |rows|
    decreases |rows|
  {
    if rows == [] then [] else [MdRow(Pad(rows[0], n), clean)] + MdRows(rows[1..], n, clean)
  }

  function MdTable(cols: seq<string>, rows: seq<seq<string>>, clean: string -> string): seq<string> {
    [MdRow(cols, clean), "| " + Join(" | ", seq(|cols|, _ => "---")) + " |"] + MdRows(rows, |cols|, clean)
  }

  /** The `![<caption>](<image>)` line. */
  function PictureLine(caption: string, imageRel: string): string {
    "![" + caption + "](" + imageRel + ")"
  }

  function MdFigure(b: Block, clean: string -> string): seq<string> {
    [FigTag + FigureId(b), "", PictureLine(clean(b.caption.GetOr("")), b.imageRel.GetOr(""))]
  }

  function MdContent(b: Block, clean: string -> string): seq<string> {
    if b.kind == Some("paragraph") then [clean(b.text.GetOr(""))]
    else if b.kind == Some("bullet_list") then Prefixed("- ", Cleaned(Items(b), clean))
    else if b.kind == Some("numbered_list") then Numbered(Cleaned(Items(b), clean), 1)
    else if b.kind == Some("table") then MdTable(Columns(b), Rows(b), clean)
    else if b.kind == Some("figure") then MdFigure(b, clean)
    else []
  }

  function MdBlock(b: Block, clean: string -> string): seq<string> {
    [BlockTag + BlockId(b), ""] + MdContent(b, clean) + [""]
  }

  function MdBlocks(bs: seq<Block>, clean: string -> string): seq<string>
    decreases |bs|
  {
    if bs == [] then [] else MdBlocks(bs[..|bs| - 1], clean) + MdBlock(bs[|bs| - 1], clean)
  }

  function MdSection(s: Section, clean: string -> string): seq<string> {
    [MdHeading(s, clean), ""] + MdBlocks(s.blocks.GetOr([]), clean)
  }

  function MdSections(secs: seq<Section>, clean: string -> string): seq<string>
    decreases |secs|
  {
    if secs == [] then [] else MdSections(secs[..|secs| - 1], clean) + MdSection(secs[|secs| - 1], clean)
  }

  function MdBody(spec: Spec): string {
    Body(MdSections(Ordered(spec), CleanText))
  }

  // ---------------------------------------------------------------------------
  // marker lines

  /** What follows `tag` on each line that starts with it, in line order:
      the ids a reader of the body finds. */
  function MarkerIds(lines: seq<string>, tag: string): seq<string>
    decreases |lines|
  {
    if lines == [] then []
    else
      var l := lines[|lines| - 1];
      MarkerIds(lines[..|lines| - 1], tag) + (if StartsWith(l, tag) then [l[|tag|..]] else [])
  }

  /** The ids of the blocks, "unknown" standing in for a missing one. */
  function Ids(bs: seq<Block>): seq<string>
    decreases |bs|
  {
    if bs == [] then [] else Ids(bs[..|bs| - 1]) + [BlockId(bs[|bs| - 1])]
  }

  /** The figure ids of the figure blocks among `bs`. */
  function FigIds(bs: seq<Block>): seq<string>
    decreases |bs|
  {
    if bs == [] then []
    else FigIds(bs[..|bs| - 1]) + FigIdOf(bs[|bs| - 1])
  }

  function FigIdOf(b: Block): seq<string> {
    if b.kind == Some("figure") then [FigureId(b)] else []
  }

  lemma {:induction false} MarkerIdsConcat(a: seq<string>, b: seq<string>, tag: string)
    ensures MarkerIds(a + b, tag) == MarkerIds(a, tag) + MarkerIds(b, tag)
    decreases |b|
  {
    if b != [] {
      assert (a + b)[..|a + b| - 1] == a + b[..|b| - 1];
      MarkerIdsConcat(a, b[..|b| - 1], tag);
    } else {
      assert a + b == a;
    }
  }

  lemma MarkerIdsLine(l: string, tag: string)
    ensures MarkerIds([l], tag) == if StartsWith(l, tag) then [l[|tag|..]] else []
  {
    assert [l][..0] == [];
  }

  lemma {:induction false} IdsConcat(a: seq<Block>, b: seq<Block>)
    ensures Ids(a + b) == Ids(a) + Ids(b)
    ensures FigIds(a + b) == FigIds(a) + FigIds(b)
    decreases |b|
  {
    if b != [] {
      assert (a + b)[..|a + b| - 1] == a + b[..|b| - 1];
      IdsConcat(a, b[..|b| - 1]);
    } else {
      assert a + b == a;
    }
  }

  /** `s` does not start with `c`. */
  predicate NotHead(s: string, c: char) {
    s == [] || s[0] != c
  }

  lemma NotHeadConcat(a: string, b: string, c: char)
    requires NotHead(a, c) && NotHead(b, c)
    ensures NotHead(a + b, c)
  {
    if a != [] {
      assert (a + b)[0] == a[0];
    } else {
      assert a + b == b;
    }
  }

  lemma {:induction false} JoinNotHead(sep: string, xs: seq<string>, c: char)
    requires NotHead(sep, c)
    requires forall i :: 0 <= i < |xs| ==> NotHead(xs[i], c)
    ensures NotHead(Join(sep, xs), c)
    decreases |xs|
  {
    if |xs| > 1 {
      JoinNotHead(sep, xs[1..], c);
      NotHeadConcat(xs[0], sep, c);
      NotHeadConcat(xs[0] + sep, Join(sep, xs[1..]), c);
    }
  }

  /** A line that starts with `q` does not start with a `p` that differs
      from `q` at `k`. */
  lemma StartsOther(line: string, p: string, q: string, k: nat)
    requires StartsWith(line, q) && k < |p| && k < |q| && p[k] != q[k]
    ensures !StartsWith(line, p)
  {
    assert line[k] == line[..|q|][k];
  }

  lemma NotHeadNotStarts(line: string, p: string)
    requires p != [] && NotHead(line, p[0])
    ensures !StartsWith(line, p)
  {
    if |p| <= |line| {
      assert line[..|p|][0] == line[0];
    }
  }

  lemma TagShapes()
    ensures |TexMarker| == 15 && TexMarker[0] == '%' && TexMarker[2] == 'M' && TexMarker[9] == 'B'
    ensures |TexFigMarker| == 13 && TexFigMarker[0] == '%' && TexFigMarker[2] == 'M' && TexFigMarker[9] == 'F'
    ensures |BlockTag| == 13 && BlockTag[0] == 'M' && BlockTag[7] == 'B'
    ensures |FigTag| == 11 && FigTag[0] == 'M' && FigTag[7] == 'F'
  {
  }

  /** Every line of `lines` is free of a leading `c`. */
  predicate AllNotHead(lines: seq<string>, c: char) {
    forall i :: 0 <= i < |lines| ==> NotHead(lines[i], c)
  }

  lemma AllNotHeadConcat(a: seq<string>, b: seq<string>, c: char)
    requires AllNotHead(a, c) && AllNotHead(b, c)
    ensures AllNotHead(a + b, c)
  {
    forall i | 0 <= i < |a + b|
      ensures NotHead((a + b)[i], c)
    {
      if i < |a| {
        assert (a + b)[i] == a[i];
      } else {
        assert (a + b)[i] == b[i - |a|];
      }
    }
  }

  /** Lines none of which starts with the first character of `tag` carry
      no marker of that tag. */
  lemma {:induction false} NoMarkers(lines: seq<string>, tag: string)
    requires tag != [] && AllNotHead(lines, tag[0])
    ensures MarkerIds(lines, tag) == []
    decreases |lines|
  {
    if lines != [] {
      var l := lines[|lines| - 1];
      assert NotHead(l, tag[0]);
      NotHeadNotStarts(l, tag);
      NoMarkers(lines[..|lines| - 1], tag);
    }
  }

  // ---------------------------------------------------------------------------
  // the LaTeX body: no rendered text line starts with "%"

  lemma EscapeNoPercent(s: string)
    ensures NotHead(EscapeAsWritten(s), '%')
  {
    EscapeGuards(s);
  }

  /** A fixed prefix not starting with `c` decides the head of the line. */
  lemma PrefixNotHead(pre: string, rest: string, c: char)
    requires pre != [] && pre[0] != c
    ensures NotHead(pre + rest, c)
  {
    assert (pre + rest)[0] == pre[0];
  }

  lemma {:induction false} TexItemsPlain(items: seq<string>)
    ensures AllNotHead(TexItems(items), '%')
    decreases |items|
  {
    if items != [] {
      TexItemsPlain(items[1..]);
      PrefixNotHead("  \\item ", EscapeAsWritten(items[0]), '%');
      AllNotHeadConcat(["  \\item " + EscapeAsWritten(items[0])], TexItems(items[1..]), '%');
    }
  }

  lemma {:induction false} TexCellsPlain(cells: seq<string>)
    ensures AllNotHead(TexCells(cells), '%')
    decreases |cells|
  {
    if cells != [] {
      TexCellsPlain(cells[1..]);
      EscapeNoPercent(cells[0]);
      AllNotHeadConcat([EscapeAsWritten(cells[0])], TexCells(cells[1..]), '%');
    }
  }

  lemma TexRowPlain(cells: seq<string>)
    ensures NotHead(TexRow(cells), '%')
  {
    TexCellsPlain(cells);
    JoinNotHead(" & ", TexCells(cells), '%');
    NotHeadConcat(Join(" & ", TexCells(cells)), " \\\\", '%');
  }

  lemma {:induction false} TexRowsPlain(rows: seq<seq<string>>, n: nat)
    ensures AllNotHead(TexRows(rows, n), '%')
    decreases |rows|
  {
    if rows != [] {
      TexRowsPlain(rows[1..], n);
      TexRowPlain(Pad(rows[0], n));
      AllNotHeadConcat([TexRow(Pad(rows[0], n))], TexRows(rows[1..], n), '%');
    }
  }

  lemma TexTablePlain(cols: seq<string>, rows: seq<seq<string>>)
    requires cols != []
    ensures AllNotHead(TexTable(cols, rows), '%')
  {
    var head := ["\\begin{longtable}{" + Layout(|cols|) + "}", "\\toprule", TexRow(cols), "\\midrule", "\\endhead"];
    PrefixNotHead("\\begin{longtable}{", Layout(|cols|) + "}", '%');
    TexRowPlain(cols);
    assert AllNotHead(head, '%');
    TexRowsPlain(rows, |cols|);
    AllNotHeadConcat(head, TexRows(rows, |cols|), '%');
    AllNotHeadConcat(head + TexRows(rows, |cols|), ["\\bottomrule", "\\end{longtable}"], '%');
  }

  /** The content of a paragraph, a list or a table holds no line starting
      with "%". */
  lemma TexContentPlain(b: Block)
    requires b.kind in {Some("paragraph"), Some("bullet_list"), Some("numbered_list"), Some("table")}
    ensures AllNotHead(TexContent(b) + [""], '%')
  {
    if b.kind == Some("paragraph") {
      EscapeNoPercent(b.text.GetOr(""));
    } else if b.kind == Some("bullet_list") || b.kind == Some("numbered_list") {
      var open := if b.kind == Some("bullet_list") then "\\begin{itemize}" else "\\begin{enumerate}";
      var close := if b.kind == Some("bullet_list") then "\\end{itemize}" else "\\end{enumerate}";
      TexItemsPlain(Items(b));
      AllNotHeadConcat([open], TexItems(Items(b)), '%');
      AllNotHeadConcat([open] + TexItems(Items(b)), [close], '%');
    } else {
      TexTablePlain(Columns(b), Rows(b));
    }
    AllNotHeadConcat(TexContent(b), [""], '%');
  }

  /** A line made of a tag and an id yields that id for the tag. */
  lemma TaggedLine(l: string, tag: string, id: string)
    requires l == tag + id
    ensures MarkerIds([l], tag) == [id]
  {
    MarkerIdsLine(l, tag);
    assert l[..|tag|] == tag && l[|tag|..] == id;
  }

  lemma TexMarkerLine(m: string, id: string)
    requires m == TexMarker + id
    ensures MarkerIds([m], TexMarker) == [id]
    ensures MarkerIds([m], TexFigMarker) == []
  {
    TagShapes();
    TaggedLine(m, TexMarker, id);
    MarkerIdsLine(m, TexFigMarker);
    StartsOther(m, TexFigMarker, TexMarker, 9);
  }

  lemma TexFigureLines(b: Block, rest: seq<string>)
    requires b.kind == Some("figure") && rest == TexContent(b) + [""]
    ensures MarkerIds(rest, TexMarker) == []
    ensures MarkerIds(rest, TexFigMarker) == [FigureId(b)]
  {
    TagShapes();
    var f := TexFigMarker + FigureId(b);
    var shot := ScreenshotLine(b.imageRel.GetOr(""), b.caption.GetOr(""));
    assert rest == [f] + [shot, ""];
    assert shot[0] == '\\';
    assert AllNotHead([shot, ""], '%');
    MarkerIdsConcat([f], [shot, ""], TexMarker);
    MarkerIdsConcat([f], [shot, ""], TexFigMarker);
    NoMarkers([shot, ""], TexMarker);
    NoMarkers([shot, ""], TexFigMarker);
    MarkerIdsLine(f, TexMarker);
    StartsOther(f, TexMarker, TexFigMarker, 9);
    TaggedLine(f, TexFigMarker, FigureId(b));
  }

  lemma UnsupportedLines(rest: seq<string>)
    requires rest == ["% unsupported block type", ""]
    ensures MarkerIds(rest, TexMarker) == []
    ensures MarkerIds(rest, TexFigMarker) == []
  {
    TagShapes();
    var u := "% unsupported block type";
    assert StartsWith(u, u) && u[2] == 'u';
    StartsOther(u, TexMarker, u, 2);
    StartsOther(u, TexFigMarker, u, 2);
    MarkerIdsLine(u, TexMarker);
    MarkerIdsLine(u, TexFigMarker);
    MarkerIdsConcat([u], [""], TexMarker);
    MarkerIdsConcat([u], [""], TexFigMarker);
    MarkerIdsLine("", TexMarker);
    MarkerIdsLine("", TexFigMarker);
  }

  lemma TexContentMarkers(b: Block)
    ensures MarkerIds(TexContent(b) + [""], TexMarker) == []
    ensures MarkerIds(TexContent(b) + [""], TexFigMarker) == FigIdOf(b)
  {
    TagShapes();
    var rest := TexContent(b) + [""];
    if b.kind in {Some("paragraph"), Some("bullet_list"), Some("numbered_list"), Some("table")} {
      TexContentPlain(b);
      NoMarkers(rest, TexMarker);
      NoMarkers(rest, TexFigMarker);
    } else if b.kind == Some("figure") {
      TexFigureLines(b, rest);
    } else {
      UnsupportedLines(rest);
    }
  }

  /** A block's LaTeX lines carry exactly one block marker, with its id, and
      a figure marker with the figure id exactly when it is a figure. */
  lemma TexBlockMarkers(b: Block)
    ensures MarkerIds(TexBlock(b), TexMarker) == [BlockId(b)]
    ensures MarkerIds(TexBlock(b), TexFigMarker) == FigIdOf(b)
  {
    var m := TexMarker + BlockId(b);
    var rest := TexContent(b) + [""];
    assert TexBlock(b) == [m] + rest;
    MarkerIdsConcat([m], rest, TexMarker);
    MarkerIdsConcat([m], rest, TexFigMarker);
    TexMarkerLine(m, BlockId(b));
    TexContentMarkers(b);
  }

  lemma {:induction false} TexBlocksMarkers(bs: seq<Block>)
    ensures MarkerIds(TexBlocks(bs), TexMarker) == Ids(bs)
    ensures MarkerIds(TexBlocks(bs), TexFigMarker) == FigIds(bs)
    decreases |bs|
  {
    if bs != [] {
      var b := bs[|bs| - 1];
      TexBlocksMarkers(bs[..|bs| - 1]);
      TexBlockMarkers(b);
      MarkerIdsConcat(TexBlocks(bs[..|bs| - 1]), TexBlock(b), TexMarker);
      MarkerIdsConcat(TexBlocks(bs[..|bs| - 1]), TexBlock(b), TexFigMarker);
    }
  }

  lemma TexHeadingLine(s: Section)
    ensures MarkerIds([TexHeading(s)], TexMarker) == []
    ensures MarkerIds([TexHeading(s)], TexFigMarker) == []
  {
    TagShapes();
    var h := TexHeading(s);
    assert h[0] == '\\';
    assert AllNotHead([h], '%');
    NoMarkers([h], TexMarker);
    NoMarkers([h], TexFigMarker);
  }

  lemma TexSectionMarkers(s: Section)
    ensures MarkerIds(TexSection(s), TexMarker) == Ids(s.blocks.GetOr([]))
    ensures MarkerIds(TexSection(s), TexFigMarker) == FigIds(s.blocks.GetOr([]))
  {
    var bs := s.blocks.GetOr([]);
    TexHeadingLine(s);
    TexBlocksMarkers(bs);
    MarkerIdsConcat([TexHeading(s)], TexBlocks(bs), TexMarker);
    MarkerIdsConcat([TexHeading(s)], TexBlocks(bs), TexFigMarker);
  }

  lemma {:induction false} TexSectionsMarkers(secs: seq<Section>)
    ensures MarkerIds(TexSections(secs), TexMarker) == Ids(AllBlocks(secs))
    ensures MarkerIds(TexSections(secs), TexFigMarker) == FigIds(AllBlocks(secs))
    decreases |secs|
  {
    if secs != [] {
      var front := secs[..|secs| - 1];
      var s := secs[|secs| - 1];
      TexSectionsMarkers(front);
      TexSectionMarkers(s);
      IdsConcat(AllBlocks(front), s.blocks.GetOr([]));
      MarkerIdsConcat(TexSections(front), TexSection(s), TexMarker);
      MarkerIdsConcat(TexSections(front), TexSection(s), TexFigMarker);
    }
  }

  /** The `% MANUAL_BLOCK:` lines of the LaTeX body name every block of the
      sections in the order they are emitted (sorted by "order"), and the
      `% MANUAL_FIG:` lines every figure block's figure id, in the same
      order. The lemma reads the list of lines before they are joined with
      "\n": a line that itself holds a newline followed by a tag would add a
      marker line to the joined text, and that case is not covered. */
  lemma TexMarkersInOrder(spec: Spec)
    ensures MarkerIds(TexSections(Ordered(spec)), TexMarker) == Ids(AllBlocks(Ordered(spec)))
    ensures MarkerIds(TexSections(Ordered(spec)), TexFigMarker) == FigIds(AllBlocks(Ordered(spec)))
  {
    TexSectionsMarkers(Ordered(spec));
  }

  // ---------------------------------------------------------------------------
  // the markdown body: markers are exact unless a paragraph forges one

  /** A paragraph whose cleaned text does not itself start like a marker. */
  predicate MdSafe(b: Block, clean: string -> string) {
    b.kind == Some("paragraph") ==>
      !StartsWith(clean(b.text.GetOr("")), BlockTag) && !StartsWith(clean(b.text.GetOr("")), FigTag)
  }

  predicate SafeSection(s: Section, clean: string -> string) {
    forall b :: b in s.blocks.GetOr([]) ==> MdSafe(b, clean)
  }

  predicate SafeSections(secs: seq<Section>, clean: string -> string) {
    forall s :: s in secs ==> SafeSection(s, clean)
  }

  lemma {:induction false} PrefixedNotHead(p: string, xs: seq<string>, c: char)
    requires p != [] && p[0] != c
    ensures AllNotHead(Prefixed(p, xs), c)
    decreases |xs|
  {
    if xs != [] {
      PrefixedNotHead(p, xs[1..], c);
      PrefixNotHead(p, xs[0], c);
      AllNotHeadConcat([p + xs[0]], Prefixed(p, xs[1..]), c);
    }
  }

  lemma {:induction false} NumberedNotHead(xs: seq<string>, k: nat, c: char)
    requires !IsDigit(c)
    ensures AllNotHead(Numbered(xs, k), c)
    decreases |xs|
  {
    if xs != [] {
      NumberedNotHead(xs[1..], k + 1, c);
      NatToStringRoundTrip(k);
      assert NatToString(k) + ". " + xs[0] == NatToString(k) + (". " + xs[0]);
      PrefixNotHead(NatToString(k), ". " + xs[0], c);
      AllNotHeadConcat([NatToString(k) + ". " + xs[0]], Numbered(xs[1..], k + 1), c);
    }
  }

  lemma {:induction false} MdRowsPlain(rows: seq<seq<string>>, n: nat, clean: string -> string)
    ensures AllNotHead(MdRows(rows, n, clean), 'M')
    decreases |rows|
  {
    if rows != [] {
      MdRowsPlain(rows[1..], n, clean);
      PrefixNotHead("| ", Join(" | ", Cleaned(Pad(rows[0], n), clean)) + " |", 'M');
      AllNotHeadConcat([MdRow(Pad(rows[0], n), clean)], MdRows(rows[1..], n, clean), 'M');
    }
  }

  lemma MdTablePlain(cols: seq<string>, rows: seq<seq<string>>, clean: string -> string)
    ensures AllNotHead(MdTable(cols, rows, clean), 'M')
  {
    var rule := "| " + Join(" | ", seq(|cols|, _ => "---")) + " |";
    PrefixNotHead("| ", Join(" | ", Cleaned(cols, clean)) + " |", 'M');
    PrefixNotHead("| ", Join(" | ", seq(|cols|, _ => "---")) + " |", 'M');
    MdRowsPlain(rows, |cols|, clean);
    AllNotHeadConcat([MdRow(cols, clean), rule], MdRows(rows, |cols|, clean), 'M');
  }

  lemma PictureLinePlain(caption: string, imageRel: string)
    ensures NotHead(PictureLine(caption, imageRel), 'M')
  {
    PrefixNotHead("![", caption + "](" + imageRel + ")", 'M');
    assert PictureLine(caption, imageRel) == "![" + (caption + "](" + imageRel + ")");
  }

  lemma FigureMarkers(f: string, id: string, pic: string, rest: seq<string>)
    requires f == FigTag + id && NotHead(pic, 'M') && rest == [""] + [f] + ["", pic, ""]
    ensures MarkerIds(rest, BlockTag) == []
    ensures MarkerIds(rest, FigTag) == [id]
  {
    TagShapes();
    assert AllNotHead(["", pic, ""], 'M');
    NoMarkers(["", pic, ""], BlockTag);
    NoMarkers(["", pic, ""], FigTag);
    MarkerIdsLine("", BlockTag);
    MarkerIdsLine("", FigTag);
    MarkerIdsLine(f, BlockTag);
    StartsOther(f, BlockTag, FigTag, 7);
    TaggedLine(f, FigTag, id);
    MarkerIdsConcat([""], [f], BlockTag);
    MarkerIdsConcat([""], [f], FigTag);
    MarkerIdsConcat([""] + [f], ["", pic, ""], BlockTag);
    MarkerIdsConcat([""] + [f], ["", pic, ""], FigTag);
  }

  lemma MdFigureLines(b: Block, rest: seq<string>, clean: string -> string)
    requires b.kind == Some("figure") && rest == [""] + MdContent(b, clean) + [""]
    ensures MarkerIds(rest, BlockTag) == []
    ensures MarkerIds(rest, FigTag) == [FigureId(b)]
  {
    var f := FigTag + FigureId(b);
    var pic := PictureLine(clean(b.caption.GetOr("")), b.imageRel.GetOr(""));
    PictureLinePlain(clean(b.caption.GetOr("")), b.imageRel.GetOr(""));
    assert rest == [""] + [f] + ["", pic, ""];
    FigureMarkers(f, FigureId(b), pic, rest);
  }

  lemma MdParagraphLines(b: Block, rest: seq<string>, clean: string -> string)
    requires b.kind == Some("paragraph") && MdSafe(b, clean) && rest == [""] + MdContent(b, clean) + [""]
    ensures MarkerIds(rest, BlockTag) == []
    ensures MarkerIds(rest, FigTag) == []
  {
    var t := clean(b.text.GetOr(""));
    assert rest == [""] + [t] + [""];
    MarkerIdsLine("", BlockTag);
    MarkerIdsLine("", FigTag);
    MarkerIdsLine(t, BlockTag);
    MarkerIdsLine(t, FigTag);
    MarkerIdsConcat([""], [t], BlockTag);
    MarkerIdsConcat([""], [t], FigTag);
    MarkerIdsConcat([""] + [t], [""], BlockTag);
    MarkerIdsConcat([""] + [t], [""], FigTag);
  }

  lemma MdContentMarkers(b: Block, clean: string -> string)
    requires MdSafe(b, clean)
    ensures MarkerIds([""] + MdContent(b, clean) + [""], BlockTag) == []
    ensures MarkerIds([""] + MdContent(b, clean) + [""], FigTag) == FigIdOf(b)
  {
    TagShapes();
    var rest := [""] + MdContent(b, clean) + [""];
    if b.kind == Some("paragraph") {
      MdParagraphLines(b, rest, clean);
    } else if b.kind == Some("figure") {
      MdFigureLines(b, rest, clean);
    } else {
      if b.kind == Some("bullet_list") {
        PrefixedNotHead("- ", Cleaned(Items(b), clean), 'M');
      } else if b.kind == Some("numbered_list") {
        NumberedNotHead(Cleaned(Items(b), clean), 1, 'M');
      } else if b.kind == Some("table") {
        MdTablePlain(Columns(b), Rows(b), clean);
      }
      AllNotHeadConcat([""], MdContent(b, clean), 'M');
      AllNotHeadConcat([""] + MdContent(b, clean), [""], 'M');
      NoMarkers(rest, BlockTag);
      NoMarkers(rest, FigTag);
    }
  }

  lemma MarkdownBlockMarkers(b: Block, clean: string -> string)
    requires MdSafe(b, clean)
    ensures MarkerIds(MdBlock(b, clean), BlockTag) == [BlockId(b)]
    ensures MarkerIds(MdBlock(b, clean), FigTag) == FigIdOf(b)
  {
    TagShapes();
    var m := BlockTag + BlockId(b);
    var rest := [""] + MdContent(b, clean) + [""];
    assert MdBlock(b, clean) == [m] + rest;
    MarkerIdsConcat([m], rest, BlockTag);
    MarkerIdsConcat([m], rest, FigTag);
    TaggedLine(m, BlockTag, BlockId(b));
    MarkerIdsLine(m, FigTag);
    StartsOther(m, FigTag, BlockTag, 7);
    MdContentMarkers(b, clean);
  }

  lemma {:induction false} MdBlocksMarkers(bs: seq<Block>, clean: string -> string)
    requires forall b :: b in bs ==> MdSafe(b, clean)
    ensures MarkerIds(MdBlocks(bs, clean), BlockTag) == Ids(bs)
    ensures MarkerIds(MdBlocks(bs, clean), FigTag) == FigIds(bs)
    decreases |bs|
  {
    if bs != [] {
      var b := bs[|bs| - 1];
      MdBlocksMarkers(bs[..|bs| - 1], clean);
      MarkdownBlockMarkers(b, clean);
      MarkerIdsConcat(MdBlocks(bs[..|bs| - 1], clean), MdBlock(b, clean), BlockTag);
      MarkerIdsConcat(MdBlocks(bs[..|bs| - 1], clean), MdBlock(b, clean), FigTag);
    }
  }

  lemma HeadingLinePlain(level: int, title: string)
    ensures NotHead(HeadingLine(level, title), 'M')
  {
    var hashes := MarkdownHashes(level);
    assert hashes[0] == '#';
    PrefixNotHead(hashes, " " + title, 'M');
    assert HeadingLine(level, title) == hashes + (" " + title);
  }

  lemma MdSectionMarkers(s: Section, clean: string -> string)
    requires SafeSection(s, clean)
    ensures MarkerIds(MdSection(s, clean), BlockTag) == Ids(s.blocks.GetOr([]))
    ensures MarkerIds(MdSection(s, clean), FigTag) == FigIds(s.blocks.GetOr([]))
  {
    TagShapes();
    var bs := s.blocks.GetOr([]);
    var h := MdHeading(s, clean);
    HeadingLinePlain(Level(s), clean(Title(s)));
    assert AllNotHead([h, ""], 'M');
    NoMarkers([h, ""], BlockTag);
    NoMarkers([h, ""], FigTag);
    MdBlocksMarkers(bs, clean);
    MarkerIdsConcat([h, ""], MdBlocks(bs, clean), BlockTag);
    MarkerIdsConcat([h, ""], MdBlocks(bs, clean), FigTag);
  }

  lemma {:induction false} MdSectionsMarkers(secs: seq<Section>, clean: string -> string)
    requires SafeSections(secs, clean)
    ensures MarkerIds(MdSections(secs, clean), BlockTag) == Ids(AllBlocks(secs))
    ensures MarkerIds(MdSections(secs, clean), FigTag) == FigIds(AllBlocks(secs))
    decreases |secs|
  {
    if secs != [] {
      var front := secs[..|secs| - 1];
      var s := secs[|secs| - 1];
      assert SafeSections(front, clean);
      MdSectionsMarkers(front, clean);
      MdSectionMarkers(s, clean);
      IdsConcat(AllBlocks(front), s.blocks.GetOr([]));
      MarkerIdsConcat(MdSections(front, clean), MdSection(s, clean), BlockTag);
      MarkerIdsConcat(MdSections(front, clean), MdSection(s, clean), FigTag);
    }
  }

  /** The sections the renderers emit are the spec's own sections. */
  lemma OrderedFrom(spec: Spec)
    ensures forall s :: s in Ordered(spec) ==> s in spec.sections.GetOr([])
  {
    SortedByOrderSpec(spec.sections.GetOr([]));
  }

  /** The `MANUAL_BLOCK:` lines of the markdown body name every block in
      emission order and the `MANUAL_FIG:` lines every figure, provided no
      paragraph's cleaned text itself starts with one of those tags. Like
      `TexMarkersInOrder` it reads the list of lines, not the joined text, so
      a line holding a newline followed by a tag is not covered. */
  lemma MarkdownMarkersInOrder(spec: Spec)
    requires SafeSections(spec.sections.GetOr([]), CleanText)
    ensures MarkerIds(MdSections(Ordered(spec), CleanText), BlockTag) == Ids(AllBlocks(Ordered(spec)))
    ensures MarkerIds(MdSections(Ordered(spec), CleanText), FigTag) == FigIds(AllBlocks(Ordered(spec)))
  {
    OrderedFrom(spec);
    MdSectionsMarkers(Ordered(spec), CleanText);
  }

  // ---------------------------------------------------------------------------
  // filling the templates

  /** `str(meta.get(key, default))` over a string-valued `meta`; a missing
      `meta` reads as empty. */
  function MetaOr(spec: Spec, key: string, default: string): (r: string)
    ensures spec.meta.Some? && key in spec.meta.value ==> r == spec.meta.value[key]
    ensures (spec.meta.None? || key !in spec.meta.value) ==> r == default
  {
    match spec.meta
    case Some(meta) => if key in meta then meta[key] else default
    case None => default
  }

  /** `s[:n]`. */
  function Take(s: string, n: nat): (r: string)
    ensures |r| == if |s| < n then |s| else n
    ensures r == s[..|r|]
  {
    if |s| < n then s else s[..n]
  }

  /** The placeholder values, in the order the script lists them. */
  function Context(spec: Spec, texBody: string, mdBody: string): (ctx: seq<(string, string)>)
    ensures |ctx| == 6
    ensures ctx[0] == (AppTargetKey, MetaOr(spec, "app_target", "Dynamic Manual"))
    ensures ctx[1] == (ManualDateKey, Take(MetaOr(spec, "generated_at", ""), 10))
    ensures ctx[2].0 == TestUrlKey && ctx[3].0 == HostKey
    ensures ctx[4] == (TexBodyKey, texBody) && ctx[5] == (MdBodyKey, mdBody)
  {
    [(AppTargetKey, MetaOr(spec, "app_target", "Dynamic Manual")),
     (ManualDateKey, Take(MetaOr(spec, "generated_at", ""), 10)),
     (TestUrlKey, MetaOr(spec, "url", "")),
     (HostKey, MetaOr(spec, "host", "")),
     (TexBodyKey, texBody),
     (MdBodyKey, mdBody)]
  }

  /** The six keys are keys, and none holds a key listed before it. */
  lemma ContextKeys(spec: Spec, texBody: string, mdBody: string)
    ensures AllKeys(Context(spec, texBody, mdBody))
    ensures Unshadowed(Context(spec, texBody, mdBody))
  {
    SpecKeys();
    KeyNotInKey("MANUAL_DATE", "APP_TARGET", 0);
    KeyNotInKey("TEST_URL", "APP_TARGET", 0);
    KeyNotInKey("TEST_URL", "MANUAL_DATE", 0);
    KeyNotInKey("HOST", "APP_TARGET", 0);
    KeyNotInKey("HOST", "MANUAL_DATE", 0);
    KeyNotInKey("HOST", "TEST_URL", 0);
    KeyNotInKey("TEX_BODY", "APP_TARGET", 0);
    KeyNotInKey("TEX_BODY", "MANUAL_DATE", 0);
    KeyNotInKey("TEX_BODY", "TEST_URL", 2);
    KeyNotInKey("TEX_BODY", "HOST", 0);
    KeyNotInKey("MD_BODY", "APP_TARGET", 0);
    KeyNotInKey("MD_BODY", "MANUAL_DATE", 1);
    KeyNotInKey("MD_BODY", "TEST_URL", 0);
    KeyNotInKey("MD_BODY", "HOST", 0);
    KeyNotInKey("MD_BODY", "TEX_BODY", 0);
  }

  /** Both templates filled from one context, key by key in context order;
      the two fills never see each other's text. */
  function Render(spec: Spec, texTemplate: string, mdTemplate: string): (string, string)
  {
    ContextKeys(spec, TexBody(spec), MdBody(spec));
    var ctx := Context(spec, TexBody(spec), MdBody(spec));
    (Substitute(texTemplate, ctx), Substitute(mdTemplate, ctx))
  }

  /** Template text without a double underscore passes through unchanged. */
  lemma RenderPlain(spec: Spec, texTemplate: string, mdTemplate: string)
    requires NoDouble(texTemplate) && NoDouble(mdTemplate)
    ensures Render(spec, texTemplate, mdTemplate) == (texTemplate, mdTemplate)
  {
    ContextKeys(spec, TexBody(spec), MdBody(spec));
    var ctx := Context(spec, TexBody(spec), MdBody(spec));
    SubstituteNoDouble(texTemplate, ctx);
    SubstituteNoDouble(mdTemplate, ctx);
  }

  /** `__TEX_BODY__` in the LaTeX template becomes the rendered body, and
      `__MD_BODY__` in the Markdown template likewise, whenever the body holds
      no double underscore for a later key to match. */
  lemma RenderBodies(spec: Spec)
    requires NoDouble(TexBody(spec)) && NoDouble(MdBody(spec))
    ensures Render(spec, TexBodyKey, MdBodyKey) == (TexBody(spec), MdBody(spec))
  {
    ContextKeys(spec, TexBody(spec), MdBody(spec));
    var ctx := Context(spec, TexBody(spec), MdBody(spec));
    SubstituteEachKey(ctx, 4);
    SubstituteEachKey(ctx, 5);
  }

  /** `__APP_TARGET__` becomes `meta.app_target`, or "Dynamic Manual" without
      one, in both outputs. */
  lemma RenderAppTarget(spec: Spec)
    requires NoDouble(MetaOr(spec, "app_target", "Dynamic Manual"))
    ensures Render(spec, AppTargetKey, AppTargetKey).0 == MetaOr(spec, "app_target", "Dynamic Manual")
    ensures (spec.meta.None? || "app_target" !in spec.meta.value) ==>
      Render(spec, AppTargetKey, AppTargetKey).1 == "Dynamic Manual"
  {
    ContextKeys(spec, TexBody(spec), MdBody(spec));
    var ctx := Context(spec, TexBody(spec), MdBody(spec));
    SubstituteEachKey(ctx, 0);
  }

  /** `__MANUAL_DATE__` becomes the first ten characters of
      `meta.generated_at`. */
  lemma RenderDate(spec: Spec)
    requires NoDouble(MetaOr(spec, "generated_at", ""))
    ensures Render(spec, ManualDateKey, ManualDateKey).0 == Take(MetaOr(spec, "generated_at", ""), 10)
  {
    ContextKeys(spec, TexBody(spec), MdBody(spec));
    var ctx := Context(spec, TexBody(spec), MdBody(spec));
    var g := MetaOr(spec, "generated_at", "");
    forall i | 0 <= i < |Take(g, 10)| - 1
      ensures !DoubleAt(Take(g, 10), i)
    {
      assert !DoubleAt(g, i);
    }
    SubstituteEachKey(ctx, 1);
  }

  // ---------------------------------------------------------------------------
  // line by line

  /** Item `i` of a numbered list starting at `k` carries the label `k + i`. */
  lemma {:induction false} NumberedAt(xs: seq<string>, k: nat, i: nat)
    requires i < |xs|
    ensures Numbered(xs, k)[i] == NatToString(k + i) + ". " + xs[i]
    decreases i
  {
    if i > 0 {
      NumberedAt(xs[1..], k + 1, i - 1);
    }
  }

  /** The Markdown steps are numbered from one, and each label reads back as
      its position. */
  lemma StepLabels(xs: seq<string>, i: nat)
    requires i < |xs|
    ensures Numbered(xs, 1)[i] == NatToString(i + 1) + ". " + xs[i]
    ensures IsDigits(NatToString(i + 1)) && DigitsValue(NatToString(i + 1)) == i + 1
  {
    NumberedAt(xs, 1, i);
    NatToStringRoundTrip(i + 1);
  }

  /** Row `i` of a LaTeX table is the `i`-th data row padded or cut to the
      column count. */
  lemma {:induction false} TexRowsAt(rows: seq<seq<string>>, n: nat, i: nat)
    requires i < |rows|
    ensures TexRows(rows, n)[i] == TexRow(Pad(rows[i], n))
    decreases i
  {
    if i > 0 {
      TexRowsAt(rows[1..], n, i - 1);
    }
  }

  /** Row `i` of a Markdown table is the `i`-th data row padded or cut to the
      column count. */
  lemma {:induction false} MarkdownRowsAt(rows: seq<seq<string>>, n: nat, clean: string -> string, i: nat)
    requires i < |rows|
    ensures MdRows(rows, n, clean)[i] == MdRow(Pad(rows[i], n), clean)
    decreases i
  {
    if i > 0 {
      MarkdownRowsAt(rows[1..], n, clean, i - 1);
    }
  }

  /** A LaTeX section heading is `\section` exactly when the level is at
      most one (a missing level counts as one), and `\subsection` otherwise. */
  lemma TexHeadingKind(s: Section)
    ensures StartsWith(TexHeading(s), "\\section{") <==> Level(s) <= 1
    ensures StartsWith(TexHeading(s), "\\subsection{") <==> Level(s) > 1
  {
    var h := TexHeading(s);
    if Level(s) <= 1 {
      assert h[..9] == "\\section{";
      assert h[2] != "\\subsection{"[2];
    } else {
      assert h[..12] == "\\subsection{";
      assert h[2] != "\\section{"[2];
    }
  }
}
