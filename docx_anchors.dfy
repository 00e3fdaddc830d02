/** How the XML-level patcher finds its way around the body: the heading map,
    the exact-then-substring heading lookup, section ends, list and heading
    templates, and the paragraphs and tables it builds from them. */
module DocxAnchors {
  import opened Wrappers
  import opened Strings
  import opened DocTree
  import opened Canonical
  import opened OrderedDict

  /** A top-level heading paragraph with some text: the only children the map records. */
  predicate KeyedHeading(e: Element) {
    IsHeadingElement(e) && XmlText(e.para) != []
  }

  /** The key `top_level_heading_map` records for a child, if it records one. */
  function KeyOf(e: Element): Option<string> {
    if KeyedHeading(e) then Some(DocxCanonical(XmlText(e.para))) else None
  }

  /** The keys `top_level_heading_map` records, child by child. */
  function HeadingKeys(elems: seq<Element>): (keys: seq<Option<string>>)
    ensures |keys| == |elems|
    ensures forall i {:trigger keys[i]} :: 0 <= i < |elems| ==> keys[i] == KeyOf(elems[i])
  {
    seq(|elems|, i requires 0 <= i < |elems| => KeyOf(elems[i]))
  }

  /** `top_level_heading_map`. */
  function TopLevelHeadingMap(elems: seq<Element>): Index {
    Build(PairsOf(HeadingKeys(elems)))
  }

  /** `find_heading_index`: exact canonical key, else the first key in map order
      that overlaps the target. Whatever it answers is a heading with text. */
  function FindHeadingIndex(elems: seq<Element>, heading: string): (r: Option<nat>)
    ensures r.Some? ==> r.value < |elems| && KeyedHeading(elems[r.value])
  {
    var r := FindFuzzy(TopLevelHeadingMap(elems), DocxCanonical(heading));
    if r.None? then r
    else
      FindFuzzyHasKey(HeadingKeys(elems), DocxCanonical(heading));
      r
  }

  /** When some heading has exactly the target's key, the lookup answers the
      LAST such heading: later duplicates overwrite earlier ones. */
  lemma FindHeadingIndexExact(elems: seq<Element>, heading: string, i: nat)
    requires i < |elems| && KeyOf(elems[i]) == Some(DocxCanonical(heading))
    ensures FindHeadingIndex(elems, heading).Some?
    ensures IsLastKey(HeadingKeys(elems), DocxCanonical(heading), FindHeadingIndex(elems, heading).value)
  {
    FindFuzzyExact(HeadingKeys(elems), DocxCanonical(heading), i);
  }

  /** `section_end_index`: the next heading of any level after `start`, or the
      end of the body; exclusive. */
  function SectionEndIndex(elems: seq<Element>, start: nat): (r: nat)
    ensures start < |elems| ==> start < r <= |elems|
    ensures start >= |elems| ==> r == |elems|
    ensures r < |elems| ==> IsHeadingElement(elems[r])
    ensures forall j :: start < j < r ==> !IsHeadingElement(elems[j])
    decreases |elems| - start
  {
    if start + 1 >= |elems| then |elems|
    else if IsHeadingElement(elems[start + 1]) then start + 1
    else SectionEndIndex(elems, start + 1)
  }

  /** `find_first_list_template`. */
  function FindFirstListTemplate(elems: seq<Element>): (r: Option<Para>)
    ensures r.None? <==> forall i :: 0 <= i < |elems| ==> !IsListElement(elems[i])
    ensures r.Some? ==> (exists i :: 0 <= i < |elems| && elems[i] == P(r.value) && IsList(r.value) &&
                                     forall j :: 0 <= j < i ==> !IsListElement(elems[j]))
  {
    if elems == [] then None
    else if IsListElement(elems[0]) then Some(elems[0].para)
    else
      var r := FindFirstListTemplate(elems[1..]);
      assert forall i :: 0 < i < |elems| ==> elems[1..][i - 1] == elems[i];
      if r.Some? then
        var i :| 0 <= i < |elems[1..]| && elems[1..][i] == P(r.value) && IsList(r.value) &&
          forall j :: 0 <= j < i ==> !IsListElement(elems[1..][j]);
        assert elems[i + 1] == P(r.value);
        r
      else r
  }

  /** The first list paragraph at or after `j` that comes before the next heading. */
  function ListBeforeHeading(elems: seq<Element>, j: nat): (r: Option<Para>)
    ensures r.Some? ==> (exists i :: j <= i < |elems| && elems[i] == P(r.value) && IsList(r.value) &&
                                     !IsHeading(r.value) &&
                                     forall m :: j <= m < i ==> !IsHeadingElement(elems[m]) && !IsListElement(elems[m]))
    ensures r.None? ==> forall i :: j <= i < |elems| && (forall m :: j <= m <= i ==> !IsHeadingElement(elems[m])) ==>
                                   !IsListElement(elems[i])
    decreases |elems| - j
  {
    if j >= |elems| then None
    else if IsHeadingElement(elems[j]) then None
    else if IsListElement(elems[j]) then Some(elems[j].para)
    else ListBeforeHeading(elems, j + 1)
  }

  /** The list template under the heading the lookup answered, if any. */
  function ListUnderFound(elems: seq<Element>, found: Option<nat>): (r: Option<Para>)
    ensures r.Some? ==> found.Some? && IsList(r.value) && P(r.value) in elems
    ensures r.Some? ==> exists i :: found.value < i < SectionEndIndex(elems, found.value) && elems[i] == P(r.value) &&
                                    forall m :: found.value < m < i ==> !IsListElement(elems[m])
    ensures found.Some? && r.None? ==>
      forall i :: found.value < i < SectionEndIndex(elems, found.value) ==> !IsListElement(elems[i])
  {
    match found
    case None => None
    case Some(idx) =>
      var r := ListBeforeHeading(elems, idx + 1);
      var end := SectionEndIndex(elems, idx);
      if r.Some? then
        var i :| idx + 1 <= i < |elems| && elems[i] == P(r.value) && IsList(r.value) && !IsHeading(r.value) &&
          forall m :: idx + 1 <= m < i ==> !IsHeadingElement(elems[m]) && !IsListElement(elems[m]);
        assert elems[i] in elems;
        assert i < end;
        r
      else
        assert forall i :: idx < i < end ==> !IsListElement(elems[i]) by {
          forall i | idx < i < end
            ensures !IsListElement(elems[i])
          {
            assert forall m :: idx + 1 <= m <= i ==> !IsHeadingElement(elems[m]);
          }
        }
        r
  }

  /** `find_list_template_under_heading`. */
  function FindListTemplateUnderHeading(elems: seq<Element>, heading: string): (r: Option<Para>) {
    ListUnderFound(elems, FindHeadingIndex(elems, heading))
  }

  // ---------------------------------------------------------------------------
  // building headings and list paragraphs

  function HeadingStyle(level: nat): string {
    "Heading" + NatToString(level)
  }

  predicate HasSectionNumberRun(p: Para) {
    exists r :: r in p.runs && r.rStyle == Some("SectionNumber")
  }

  /** A top-level paragraph in `style`, carrying a SectionNumber run when `needNumber`. */
  predicate StyledMatch(e: Element, style: string, needNumber: bool) {
    e.P? && e.para.style == Some(style) && (!needNumber || HasSectionNumberRun(e.para))
  }

  /** `p` is the first child that matches. */
  predicate IsFirstMatch(elems: seq<Element>, p: Para, style: string, needNumber: bool) {
    exists i :: 0 <= i < |elems| && elems[i] == P(p) && StyledMatch(elems[i], style, needNumber) &&
                forall j :: 0 <= j < i ==> !StyledMatch(elems[j], style, needNumber)
  }

  /** `heading_template`: the first `Heading{level}` paragraph with a
      SectionNumber run, else the first `Heading{level}` paragraph. */
  function HeadingTemplate(elems: seq<Element>, level: nat): (r: Option<Para>)
    ensures r.Some? ==> r.value.style == Some(HeadingStyle(level)) && P(r.value) in elems
    ensures r.None? ==> forall e :: e in elems ==> !(e.P? && e.para.style == Some(HeadingStyle(level)))
    ensures (exists i :: 0 <= i < |elems| && StyledMatch(elems[i], HeadingStyle(level), true)) ==>
      r.Some? && IsFirstMatch(elems, r.value, HeadingStyle(level), true)
    ensures (forall i :: 0 <= i < |elems| ==> !StyledMatch(elems[i], HeadingStyle(level), true)) && r.Some? ==>
      IsFirstMatch(elems, r.value, HeadingStyle(level), false)
  {
    var numbered := FirstStyled(elems, HeadingStyle(level), true);
    if numbered.Some? then numbered else FirstStyled(elems, HeadingStyle(level), false)
  }

  /** The first child in `style` (with a SectionNumber run when `needNumber`). */
  function FirstStyled(elems: seq<Element>, style: string, needNumber: bool): (r: Option<Para>)
    ensures r.Some? ==> (r.value.style == Some(style) && P(r.value) in elems &&
                         (needNumber ==> HasSectionNumberRun(r.value)))
    ensures r.None? && !needNumber ==> forall e :: e in elems ==> !(e.P? && e.para.style == Some(style))
    ensures r.Some? ==> IsFirstMatch(elems, r.value, style, needNumber)
    ensures r.None? <==> forall i :: 0 <= i < |elems| ==> !StyledMatch(elems[i], style, needNumber)
  {
    if elems == [] then None
    else if StyledMatch(elems[0], style, needNumber) then
      assert elems[0] in elems;
      Some(elems[0].para)
    else
      var r := FirstStyled(elems[1..], style, needNumber);
      assert forall e :: e in elems[1..] ==> e in elems;
      assert forall i :: 0 < i < |elems| ==> elems[1..][i - 1] == elems[i];
      if r.Some? then
        var i :| 0 <= i < |elems[1..]| && elems[1..][i] == P(r.value) && StyledMatch(elems[1..][i], style, needNumber) &&
          forall j :: 0 <= j < i ==> !StyledMatch(elems[1..][j], style, needNumber);
        assert elems[i + 1] == P(r.value);
        r
      else r
  }

  /** `make_heading`. */
  function MakeHeading(text: string, level: nat): (p: Para)
    ensures p.style == Some(HeadingStyle(level)) && IsHeading(p) && !IsList(p)
    ensures XmlText(p) == Strip(text)
  {
    WithText(Para(Some(HeadingStyle(level)), None, [], false), text)
  }

  /** The runs of a heading template that survive: SectionNumber runs and tab runs. */
  function KeptRuns(runs: seq<Run>): (r: seq<Run>)
    ensures forall x :: x in r ==> x in runs && (x.rStyle == Some("SectionNumber") || x.isTab)
    ensures forall x :: x in runs && (x.rStyle == Some("SectionNumber") || x.isTab) ==> x in r
  {
    if runs == [] then []
    else
      var rest := KeptRuns(runs[1..]);
      if runs[0].rStyle == Some("SectionNumber") || runs[0].isTab then [runs[0]] + rest else rest
  }

  /** `make_heading_like_template`: a copy of the template keeping its number
      and tab runs, followed by one run " text"; a plain heading when the body
      has no `Heading{level}` paragraph. */
  function MakeHeadingLikeTemplate(elems: seq<Element>, text: string, level: nat): (p: Para)
    ensures p.style == Some(HeadingStyle(level)) && IsHeading(p)
    ensures HeadingTemplate(elems, level).None? ==> p == MakeHeading(text, level)
    ensures HeadingTemplate(elems, level).Some? ==>
      p.numId == HeadingTemplate(elems, level).value.numId &&
      EndsWith(RunsXmlText(p.runs), " " + text)
  {
    match HeadingTemplate(elems, level)
    case None => MakeHeading(text, level)
    case Some(tpl) =>
      var runs := KeptRuns(tpl.runs) + [TextRun(" " + text)];
      assert runs[..|runs| - 1] == KeptRuns(tpl.runs);
      Para(tpl.style, tpl.numId, runs, false)
  }

  /** `clone_list_paragraph_with_text`. */
  function CloneListParagraph(template: Para, text: string): (p: Para)
    ensures p.style == template.style && p.numId == template.numId && XmlText(p) == Strip(text)
  {
    WithText(template, text)
  }

  /** `make_list_number_paragraph`: a level-0 list paragraph on `numId`. */
  function MakeListNumberParagraph(text: string, numId: string): (p: Para)
    ensures IsList(p) && p.numId == Some(numId) && !IsHeading(p) && XmlText(p) == Strip(text)
  {
    WithText(Para(None, Some(numId), [], false), text)
  }

  // ---------------------------------------------------------------------------
  // building tables

  /** The cell text `build_table_from_template` writes into column `i`. */
  function CellValue(row: seq<string>, i: nat): string {
    if i < |row| then row[i] else ""
  }

  /** A copy of the row template with its first (at most three) cells set from `row`. */
  function FillRow(tr: Row, row: seq<string>): (r: Row)
    ensures |r| == |tr|
    ensures forall i :: 0 <= i < |tr| && i < 3 ==> r[i] == SetCellText(tr[i], CellValue(row, i))
    ensures forall i :: 3 <= i < |tr| ==> r[i] == tr[i]
  {
    seq(|tr|, i requires 0 <= i < |tr| => if i < 3 then SetCellText(tr[i], CellValue(row, i)) else tr[i])
  }

  /** `build_table_from_template`: header row kept, data rows rebuilt from the
      template's first data row; a template with fewer than two rows is
      returned as it is. */
  function BuildTableFromTemplate(tpl: seq<Row>, rows: seq<seq<string>>): (r: seq<Row>)
    ensures |tpl| < 2 ==> r == tpl
    ensures |tpl| >= 2 ==> (|r| == 1 + |rows| && r[0] == tpl[0] &&
                            forall k :: 0 <= k < |rows| ==> r[k + 1] == FillRow(tpl[1], rows[k]))
  {
    if |tpl| < 2 then tpl
    else
      var data := seq(|rows|, k requires 0 <= k < |rows| => FillRow(tpl[1], rows[k]));
      assert forall k :: 0 <= k < |rows| ==> ([tpl[0]] + data)[k + 1] == data[k];
      [tpl[0]] + data
  }

  /** `build_table_with_header`: as above, with the header cells rewritten and
      one empty row when there is no data. */
  function BuildTableWithHeader(tpl: seq<Row>, header: seq<string>, rows: seq<seq<string>>): (r: seq<Row>)
    ensures |tpl| >= 2 ==> (|r| == 1 + (if rows == [] then 1 else |rows|) &&
                            r[0] == FillRow(tpl[0], header))
    ensures |tpl| < 2 && tpl != [] ==> r == [FillRow(tpl[0], header)] + tpl[1..]
    ensures tpl == [] ==> r == []
  {
    var tbl := BuildTableFromTemplate(tpl, if rows == [] then [["", "", ""]] else rows);
    if tbl == [] then tbl else [FillRow(tbl[0], header)] + tbl[1..]
  }
}
