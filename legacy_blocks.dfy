/** `ensure_missing_blocks` and `rebuild_links_tables` of the legacy patcher:
    sections the manual needs but the document lacks are created next to an
    anchor heading, and the tables of the links section are rebuilt from a
    template table. */
module LegacyBlocks {
  import opened Wrappers
  import opened DocTree
  import opened DocxAnchors
  import opened Seqs
  import opened Titles
  import opened LegacySections

  // ---------------------------------------------------------------------------
  // finding a template table

  /** The first table among children `lo .. hi - 1`; headings do not stop the scan. */
  function FirstTable(elems: seq<Element>, lo: nat, hi: nat): (r: Option<nat>)
    requires lo <= hi <= |elems|
    ensures r.Some? ==> lo <= r.value < hi && elems[r.value].Tbl?
    ensures r.Some? ==> forall m :: lo <= m < r.value ==> !elems[m].Tbl?
    ensures r.None? ==> forall m :: lo <= m < hi ==> !elems[m].Tbl?
    decreases hi - lo
  {
    if lo == hi then None
    else if elems[lo].Tbl? then Some(lo)
    else FirstTable(elems, lo + 1, hi)
  }

  /** The scanning loop, stopping at the first table. */
  method ScanFirstTable(elems: seq<Element>, lo: nat, hi: nat) returns (r: Option<nat>)
    requires lo <= hi <= |elems|
    ensures r == FirstTable(elems, lo, hi)
  {
    var i := lo;
    while i < hi
      invariant lo <= i <= hi
      invariant FirstTable(elems, lo, hi) == FirstTable(elems, i, hi)
    {
      if elems[i].Tbl? {
        return Some(i);
      }
      i := i + 1;
    }
    return None;
  }

  /** The rows of the body's first table, the template `ensure_missing_blocks` copies. */
  function TableTemplate(elems: seq<Element>): Option<seq<Row>> {
    var t := FirstTable(elems, 0, |elems|);
    if t.Some? then Some(elems[t.value].rows) else None
  }

  method FindTableTemplate(elems: seq<Element>) returns (r: Option<seq<Row>>)
    ensures r == TableTemplate(elems)
  {
    var t := ScanFirstTable(elems, 0, |elems|);
    if t.Some? {
      return Some(elems[t.value].rows);
    }
    return None;
  }

  // ---------------------------------------------------------------------------
  // the missing link subsections

  /** A level-2 heading styled like the document's, and a table built from the template. */
  function LinkBlock(elems: seq<Element>, title: string, tpl: seq<Row>, rows: seq<seq<string>>): seq<Element> {
    [P(MakeHeadingLikeTemplate(elems, title, 2)), Tbl(BuildTableFromTemplate(tpl, rows))]
  }

  /** The Home Feed Video Card block goes after the Left Navigation heading
      when the card was missing and Left Navigation is (now) present. */
  function VideoStep(elems: seq<Element>, left: Option<nat>, video: Option<nat>, tpl: seq<Row>, rows: seq<seq<string>>, c: nat): (r: (seq<Element>, nat))
    requires left.Some? ==> left.value < |elems|
    ensures |r.0| >= |elems| && r.1 <= c + 1
  {
    if video.None? && left.Some? then (PlaceAfter(elems, left, LinkBlock(elems, VideoCard, tpl, rows)).0, c + 1)
    else (elems, c)
  }

  /** The link step once its headings were looked up: with Top Navigation and
      a template table, a missing Left Navigation block goes right after Top
      Navigation, then a missing video card block right after Left Navigation,
      as found again. */
  function LinkStepFound(elems: seq<Element>, top: Option<nat>, tpl: Option<seq<Row>>, left: Option<nat>, video: Option<nat>,
                         leftRows: seq<seq<string>>, videoRows: seq<seq<string>>): (r: (seq<Element>, nat))
    requires top.Some? ==> top.value < |elems|
    requires left.Some? ==> left.value < |elems|
    ensures |r.0| >= |elems| && r.1 <= 2
  {
    if top.None? || tpl.None? then (elems, 0)
    else if left.None? then
      var e1 := PlaceAfter(elems, top, LinkBlock(elems, LeftNav, tpl.value, leftRows)).0;
      VideoStep(e1, FindHeadingIndex(e1, LeftNav), video, tpl.value, videoRows, 1)
    else VideoStep(elems, left, video, tpl.value, videoRows, 0)
  }

  function LinkStep(elems: seq<Element>, tpl: Option<seq<Row>>, leftRows: seq<seq<string>>, videoRows: seq<seq<string>>): (r: (seq<Element>, nat))
    ensures |r.0| >= |elems|
  {
    LinkStepFound(elems, FindHeadingIndex(elems, TopNav), tpl, FindHeadingIndex(elems, LeftNav), FindHeadingIndex(elems, VideoCard), leftRows, videoRows)
  }

  /** A missing Left Navigation block lands right after Top Navigation: its
      heading, then the table built from the template. */
  lemma LinkStepPlacesLeft(elems: seq<Element>, top: nat, tpl: seq<Row>, video: Option<nat>, leftRows: seq<seq<string>>, videoRows: seq<seq<string>>)
    requires top < |elems|
    ensures var e1 := PlaceAfter(elems, Some(top), LinkBlock(elems, LeftNav, tpl, leftRows)).0;
      top + 2 < |e1| + 1 && e1[..top + 1] == elems[..top + 1] &&
      IsHeadingElement(e1[top + 1]) && e1[top + 1].para.style == Some(HeadingStyle(2)) &&
      e1[top + 2] == Tbl(BuildTableFromTemplate(tpl, leftRows))
  {
    var es := LinkBlock(elems, LeftNav, tpl, leftRows);
    PlaceAfterLayout(elems, top, es);
    var e1 := PlaceAfter(elems, Some(top), es).0;
    assert e1[top + 1..top + 3] == es;
    assert e1[top + 1] == es[0] && e1[top + 2] == es[1];
  }

  /** With every link subsection present the step changes nothing. */
  lemma LinkStepNoop(elems: seq<Element>, top: Option<nat>, tpl: Option<seq<Row>>, left: nat, video: nat,
                     leftRows: seq<seq<string>>, videoRows: seq<seq<string>>)
    requires top.Some? ==> top.value < |elems|
    requires left < |elems|
    ensures LinkStepFound(elems, top, tpl, Some(left), Some(video), leftRows, videoRows) == (elems, 0)
  {
  }

  /** `insert_after_index` at a looked-up position, skipped when the lookup failed. */
  method PlaceAt(body: Body, found: Option<nat>, es: seq<Element>) returns (c: nat)
    requires found.Some? ==> found.value < |body.elems|
    modifies body
    ensures body.elems == PlaceAfter(old(body.elems), found, es).0
    ensures c == PlaceAfter(old(body.elems), found, es).1
  {
    if found.None? {
      return 0;
    }
    body.InsertAfterIndex(found.value, es);
    c := |es|;
  }

  method AddVideoCard(body: Body, left: Option<nat>, video: Option<nat>, tpl: seq<Row>, rows: seq<seq<string>>, c0: nat) returns (c: nat)
    requires left.Some? ==> left.value < |body.elems|
    modifies body
    ensures body.elems == VideoStep(old(body.elems), left, video, tpl, rows, c0).0
    ensures c == VideoStep(old(body.elems), left, video, tpl, rows, c0).1
  {
    c := c0;
    if video.None? && left.Some? {
      var es := LinkBlock(body.elems, VideoCard, tpl, rows);
      var _ := PlaceAt(body, left, es);
      c := c0 + 1;
    }
  }

  method AddLinkSubsections(body: Body, tpl: Option<seq<Row>>, leftRows: seq<seq<string>>, videoRows: seq<seq<string>>) returns (c: nat)
    modifies body
    ensures body.elems == LinkStep(old(body.elems), tpl, leftRows, videoRows).0
    ensures c == LinkStep(old(body.elems), tpl, leftRows, videoRows).1
  {
    var top := FindHeadingIndex(body.elems, TopNav);
    var left := FindHeadingIndex(body.elems, LeftNav);
    var video := FindHeadingIndex(body.elems, VideoCard);
    if top.None? || tpl.None? {
      return 0;
    }
    if left.None? {
      var es := LinkBlock(body.elems, LeftNav, tpl.value, leftRows);
      var _ := PlaceAt(body, top, es);
      left := FindHeadingIndex(body.elems, LeftNav);
      c := AddVideoCard(body, left, video, tpl.value, videoRows, 1);
    } else {
      c := AddVideoCard(body, left, video, tpl.value, videoRows, 0);
    }
  }

  // ---------------------------------------------------------------------------
  // the missing Flow B subsection

  /** The Flow B heading followed by one clone of the template per item. */
  function FlowBBlock(elems: seq<Element>, tpl: Para, items: seq<string>): seq<Element> {
    [P(MakeHeadingLikeTemplate(elems, FlowB, 2))] + NewItems(items, tpl, Cloned)
  }

  /** With Flow A present, Flow B absent and a template, the Flow B block is
      inserted right after the Flow A heading. */
  function FlowBStepFound(elems: seq<Element>, a: Option<nat>, b: Option<nat>, tpl: Option<Para>, items: seq<string>): (r: (seq<Element>, nat))
    requires a.Some? ==> a.value < |elems|
    ensures |r.0| >= |elems| && r.1 <= 1
  {
    if a.Some? && b.None? && tpl.Some? then (PlaceAfter(elems, a, FlowBBlock(elems, tpl.value, items)).0, 1)
    else (elems, 0)
  }

  function FlowBStep(elems: seq<Element>, tpl: Option<Para>, items: seq<string>): (r: (seq<Element>, nat))
    ensures |r.0| >= |elems|
  {
    FlowBStepFound(elems, FindHeadingIndex(elems, FlowA), FindHeadingIndex(elems, FlowB), tpl, items)
  }

  /** As written, the new Flow B heading follows the Flow A heading directly,
      so Flow A's section is left empty and whatever it held (the child at
      `a + 1` on) now comes after the Flow B items, inside Flow B's section. */
  lemma FlowBEmptiesFlowA(elems: seq<Element>, a: nat, tpl: Para, items: seq<string>)
    requires a + 1 < |elems| && !IsHeadingElement(elems[a + 1]) && !IsHeading(tpl)
    ensures var out := FlowBStepFound(elems, Some(a), None, Some(tpl), items).0;
      var n := 1 + |items|;
      |out| == |elems| + n &&
      SectionEndIndex(out, a) == a + 1 &&
      out[a + 1 + n] == elems[a + 1] &&
      SectionEndIndex(out, a + 1) > a + 1 + n
  {
    ClonesNotHeadings(items, tpl);
    HeadingBlockAfter(elems, a, MakeHeadingLikeTemplate(elems, FlowB, 2), NewItems(items, tpl, Cloned));
  }

  /** A heading followed by non-headings, inserted right after the heading
      at `a`, empties `a`'s section, and the child that followed `a` now
      belongs to the new heading's section. */
  lemma HeadingBlockAfter(elems: seq<Element>, a: nat, head: Para, rest: seq<Element>)
    requires a + 1 < |elems| && !IsHeadingElement(elems[a + 1]) && IsHeading(head)
    requires forall i :: 0 <= i < |rest| ==> !IsHeadingElement(rest[i])
    ensures var out := PlaceAfter(elems, Some(a), [P(head)] + rest).0;
      var n := 1 + |rest|;
      |out| == |elems| + n &&
      SectionEndIndex(out, a) == a + 1 &&
      out[a + 1 + n] == elems[a + 1] &&
      SectionEndIndex(out, a + 1) > a + 1 + n
  {
    var es := [P(head)] + rest;
    var out := PlaceAfter(elems, Some(a), es).0;
    var n := |es|;
    assert out == elems[..a + 1] + es + elems[a + 1..];
    assert out[a + 1] == es[0];
    forall j | a + 1 < j <= a + 1 + n
      ensures !IsHeadingElement(out[j])
    {
      if j < a + 1 + n {
        assert out[j] == es[j - a - 1] == rest[j - a - 2];
      } else {
        assert out[j] == elems[a + 1];
      }
    }
    SectionEndPast(out, a + 1, a + 1 + n);
  }

  /** Clones of a template that is not a heading are not headings either. */
  lemma ClonesNotHeadings(items: seq<string>, tpl: Para)
    requires !IsHeading(tpl)
    ensures forall i :: 0 <= i < |items| ==> !IsHeadingElement(NewItems(items, tpl, Cloned)[i])
  {
    forall i | 0 <= i < |items|
      ensures !IsHeadingElement(NewItems(items, tpl, Cloned)[i])
    {
      assert NewItems(items, tpl, Cloned)[i] == NewItem(items[i], tpl, Cloned);
    }
  }

  /** The section scan from `start` runs past every non-heading child up to `k`. */
  lemma SectionEndPast(elems: seq<Element>, start: nat, k: nat)
    requires start < k < |elems|
    requires forall j :: start < j <= k ==> !IsHeadingElement(elems[j])
    ensures SectionEndIndex(elems, start) > k
  {
  }

  /** The insertion point the step evidently intends: after the last child
      of Flow A's section, so that Flow B follows Flow A as its sibling. */
  function FlowBStepIntended(elems: seq<Element>, a: Option<nat>, b: Option<nat>, tpl: Option<Para>, items: seq<string>): (r: (seq<Element>, nat))
    requires a.Some? ==> a.value < |elems|
  {
    if a.Some? && b.None? && tpl.Some? then
      var end := SectionEndIndex(elems, a.value);
      (PlaceAfter(elems, Some(end - 1), FlowBBlock(elems, tpl.value, items)).0, 1)
    else (elems, 0)
  }

  /** The intended insertion keeps Flow A's section, heading and content,
      exactly as it was, and starts Flow B right after it. */
  lemma FlowBIntendedKeepsFlowA(elems: seq<Element>, a: nat, tpl: Para, items: seq<string>)
    requires a < |elems|
    ensures var out := FlowBStepIntended(elems, Some(a), None, Some(tpl), items).0;
      var end := SectionEndIndex(elems, a);
      end < |out| && out[..end] == elems[..end] && IsHeadingElement(out[end]) &&
      out[end + 1 + |items|..] == elems[end..]
  {
    var end := SectionEndIndex(elems, a);
    var es := FlowBBlock(elems, tpl, items);
    PlaceAfterLayout(elems, end - 1, es);
    var out := PlaceAfter(elems, Some(end - 1), es).0;
    assert out[end..end + |es|] == es;
    assert out[end] == es[0];
  }

  method AddFlowB(body: Body, tpl: Option<Para>, items: seq<string>) returns (c: nat)
    modifies body
    ensures body.elems == FlowBStep(old(body.elems), tpl, items).0
    ensures c == FlowBStep(old(body.elems), tpl, items).1
  {
    var a := FindHeadingIndex(body.elems, FlowA);
    var b := FindHeadingIndex(body.elems, FlowB);
    c := 0;
    if a.Some? && b.None? && tpl.Some? {
      var es := FlowBBlock(body.elems, tpl.value, items);
      var _ := PlaceAt(body, a, es);
      c := 1;
    }
  }

  // ---------------------------------------------------------------------------
  // the missing Maintenance Notes section

  /** The anchor for new trailing sections: Flow B, else Flow A, else the
      Example Task Flows heading. */
  function Anchor(fb: Option<nat>, fa: Option<nat>, ex: Option<nat>): (r: Option<nat>)
    ensures r.Some? ==> r == fb || r == fa || r == ex
    ensures r.None? <==> fb.None? && fa.None? && ex.None?
  {
    if fb.Some? then fb else if fa.Some? then fa else ex
  }

  function MaintenanceAnchor(elems: seq<Element>): (r: Option<nat>)
    ensures r.Some? ==> r.value < |elems|
  {
    Anchor(FindHeadingIndex(elems, FlowB), FindHeadingIndex(elems, FlowA), FindHeadingIndex(elems, ExampleFlows))
  }

  /** The Maintenance Notes heading followed by one clone of the template per note. */
  function MaintenanceBlock(elems: seq<Element>, tpl: Para, items: seq<string>): seq<Element> {
    [P(MakeHeadingLikeTemplate(elems, Maintenance, 1))] + NewItems(items, tpl, Cloned)
  }

  function MaintenanceStepFound(elems: seq<Element>, maint: Option<nat>, anchor: Option<nat>, tpl: Option<Para>, items: seq<string>): (r: (seq<Element>, nat))
    requires anchor.Some? ==> anchor.value < |elems|
    ensures |r.0| >= |elems| && r.1 <= 1
  {
    if maint.None? && anchor.Some? && tpl.Some? then (PlaceAfter(elems, anchor, MaintenanceBlock(elems, tpl.value, items)).0, 1)
    else (elems, 0)
  }

  function MaintenanceStep(elems: seq<Element>, anchor: Option<nat>, tpl: Option<Para>, items: seq<string>): (r: (seq<Element>, nat))
    requires anchor.Some? ==> anchor.value < |elems|
    ensures |r.0| >= |elems|
  {
    MaintenanceStepFound(elems, FindHeadingIndex(elems, Maintenance), anchor, tpl, items)
  }

  method AddMaintenance(body: Body, tpl: Option<Para>, items: seq<string>) returns (anchor: Option<nat>, c: nat)
    modifies body
    ensures anchor == MaintenanceAnchor(old(body.elems))
    ensures body.elems == MaintenanceStep(old(body.elems), anchor, tpl, items).0
    ensures c == MaintenanceStep(old(body.elems), anchor, tpl, items).1
  {
    var maint := FindHeadingIndex(body.elems, Maintenance);
    var ex := FindHeadingIndex(body.elems, ExampleFlows);
    var fb := FindHeadingIndex(body.elems, FlowB);
    var fa := FindHeadingIndex(body.elems, FlowA);
    anchor := if fb.Some? then fb else if fa.Some? then fa else ex;
    c := 0;
    if maint.None? && anchor.Some? && tpl.Some? {
      var es := MaintenanceBlock(body.elems, tpl.value, items);
      var _ := PlaceAt(body, anchor, es);
      c := 1;
    }
  }

  // ---------------------------------------------------------------------------
  // the missing Build section

  const BuildCommand := "Run this command in the same directory: latexmk -pdf main.tex"

  /** The Build heading and its one line. */
  function BuildBlock(elems: seq<Element>): seq<Element> {
    [P(MakeHeadingLikeTemplate(elems, Build, 1)), P(NewPara(BuildCommand))]
  }

  /** A missing Build section goes after Maintenance Notes, else after the
      anchor the Maintenance step computed: its heading and one line. */
  function BuildStepFound(elems: seq<Element>, build: Option<nat>, maint: Option<nat>, anchor: Option<nat>): (r: (seq<Element>, nat))
    requires maint.Some? ==> maint.value < |elems|
    requires anchor.Some? ==> anchor.value < |elems|
    ensures |r.0| >= |elems| && r.1 <= 1
  {
    if build.Some? then (elems, 0)
    else
      var at := if maint.Some? then maint else anchor;
      if at.None? then (elems, 0)
      else (PlaceAfter(elems, at, BuildBlock(elems)).0, 1)
  }

  function BuildStep(elems: seq<Element>, anchor: Option<nat>): (seq<Element>, nat)
    requires anchor.Some? ==> anchor.value < |elems|
  {
    BuildStepFound(elems, FindHeadingIndex(elems, Build), FindHeadingIndex(elems, Maintenance), anchor)
  }

  method AddBuildFound(body: Body, build: Option<nat>, maint: Option<nat>, anchor: Option<nat>) returns (c: nat)
    requires maint.Some? ==> maint.value < |body.elems|
    requires anchor.Some? ==> anchor.value < |body.elems|
    modifies body
    ensures body.elems == BuildStepFound(old(body.elems), build, maint, anchor).0
    ensures c == BuildStepFound(old(body.elems), build, maint, anchor).1
  {
    if build.Some? {
      return 0;
    }
    var at := if maint.Some? then maint else anchor;
    if at.None? {
      return 0;
    }
    var es := BuildBlock(body.elems);
    var _ := PlaceAt(body, at, es);
    c := 1;
  }

  method AddBuild(body: Body, anchor: Option<nat>) returns (c: nat)
    requires anchor.Some? ==> anchor.value < |body.elems|
    modifies body
    ensures body.elems == BuildStep(old(body.elems), anchor).0
    ensures c == BuildStep(old(body.elems), anchor).1
  {
    var build := FindHeadingIndex(body.elems, Build);
    var maint := FindHeadingIndex(body.elems, Maintenance);
    c := AddBuildFound(body, build, maint, anchor);
  }

  // ---------------------------------------------------------------------------
  // ensure_missing_blocks

  /** The LaTeX content the missing blocks are built from. */
  datatype BlockInput = BlockInput(leftRows: seq<seq<string>>, videoRows: seq<seq<string>>, flowB: seq<string>, maintenance: seq<string>)

  /** The four steps with the templates taken on entry. */
  function MissingBlocksWith(elems: seq<Element>, inp: BlockInput, listTpl: Option<Para>, enumTpl: Option<Para>, tableTpl: Option<seq<Row>>): (seq<Element>, nat) {
    var front := FrontSteps(elems, inp, enumTpl, tableTpl);
    var back := TrailingSteps(front.0, inp, listTpl);
    (back.0, front.1 + back.1)
  }

  /** Steps one and two: the link subsections, then Flow B. */
  function FrontSteps(elems: seq<Element>, inp: BlockInput, enumTpl: Option<Para>, tableTpl: Option<seq<Row>>): (r: (seq<Element>, nat))
    ensures |r.0| >= |elems| && r.1 <= 3
  {
    var s1 := LinkStep(elems, tableTpl, inp.leftRows, inp.videoRows);
    var s2 := FlowBStep(s1.0, enumTpl, inp.flowB);
    (s2.0, s1.1 + s2.1)
  }

  /** Steps three and four: Maintenance Notes after the anchor, then Build
      after Maintenance Notes or, failing that, the same anchor. */
  function TrailingSteps(elems: seq<Element>, inp: BlockInput, listTpl: Option<Para>): (r: (seq<Element>, nat))
    ensures |r.0| >= |elems| && r.1 <= 2
  {
    var anchor := MaintenanceAnchor(elems);
    var s3 := MaintenanceStep(elems, anchor, listTpl, inp.maintenance);
    var s4 := BuildStep(s3.0, anchor);
    (s4.0, s3.1 + s4.1)
  }

  /** `ensure_missing_blocks`: the list, enumeration and table templates are
      taken from the body as it was on entry. */
  function MissingBlocksSpec(elems: seq<Element>, inp: BlockInput): (seq<Element>, nat) {
    MissingBlocksWith(elems, inp, FirstListTemplate(elems), EnumTemplate(elems), TableTemplate(elems))
  }

  /** At most five blocks are ever added, and nothing is removed. */
  lemma MissingBlocksBounds(elems: seq<Element>, inp: BlockInput)
    ensures MissingBlocksSpec(elems, inp).1 <= 5
    ensures |MissingBlocksSpec(elems, inp).0| >= |elems|
  {
  }

  /** A document that already has every section the step could add is left
      as it is, with nothing counted. */
  lemma MissingBlocksNoop(elems: seq<Element>, inp: BlockInput, listTpl: Option<Para>, enumTpl: Option<Para>, tableTpl: Option<seq<Row>>)
    requires FindHeadingIndex(elems, LeftNav).Some? && FindHeadingIndex(elems, VideoCard).Some?
    requires FindHeadingIndex(elems, FlowB).Some?
    requires FindHeadingIndex(elems, Maintenance).Some? && FindHeadingIndex(elems, Build).Some?
    ensures MissingBlocksWith(elems, inp, listTpl, enumTpl, tableTpl).0 == elems
    ensures MissingBlocksWith(elems, inp, listTpl, enumTpl, tableTpl).1 == 0
  {
    FrontNoop(elems, inp, enumTpl, tableTpl);
    TrailingNoop(elems, inp, listTpl);
  }

  lemma FrontNoop(elems: seq<Element>, inp: BlockInput, enumTpl: Option<Para>, tableTpl: Option<seq<Row>>)
    requires FindHeadingIndex(elems, LeftNav).Some? && FindHeadingIndex(elems, VideoCard).Some?
    requires FindHeadingIndex(elems, FlowB).Some?
    ensures FrontSteps(elems, inp, enumTpl, tableTpl).0 == elems
    ensures FrontSteps(elems, inp, enumTpl, tableTpl).1 == 0
  {
    assert LinkStep(elems, tableTpl, inp.leftRows, inp.videoRows).0 == elems;
  }

  lemma TrailingNoop(elems: seq<Element>, inp: BlockInput, listTpl: Option<Para>)
    requires FindHeadingIndex(elems, Maintenance).Some? && FindHeadingIndex(elems, Build).Some?
    ensures TrailingSteps(elems, inp, listTpl).0 == elems
    ensures TrailingSteps(elems, inp, listTpl).1 == 0
  {
    assert MaintenanceStep(elems, MaintenanceAnchor(elems), listTpl, inp.maintenance).0 == elems;
  }

  method EnsureMissingBlocks(body: Body, inp: BlockInput) returns (changed: nat)
    modifies body
    ensures body.elems == MissingBlocksSpec(old(body.elems), inp).0
    ensures changed == MissingBlocksSpec(old(body.elems), inp).1
  {
    var listTpl := FirstListTemplate(body.elems);
    var enumTpl := EnumTemplate(body.elems);
    var tableTpl := FindTableTemplate(body.elems);
    changed := EnsureMissingBlocksWith(body, inp, listTpl, enumTpl, tableTpl);
  }

  /** The four steps in order, each on the body the previous one left. */
  method EnsureMissingBlocksWith(body: Body, inp: BlockInput, listTpl: Option<Para>, enumTpl: Option<Para>, tableTpl: Option<seq<Row>>)
    returns (changed: nat)
    modifies body
    ensures body.elems == MissingBlocksWith(old(body.elems), inp, listTpl, enumTpl, tableTpl).0
    ensures changed == MissingBlocksWith(old(body.elems), inp, listTpl, enumTpl, tableTpl).1
  {
    var front := AddFrontBlocks(body, inp, enumTpl, tableTpl);
    var back := AddTrailingBlocks(body, inp, listTpl);
    changed := front + back;
  }

  method AddFrontBlocks(body: Body, inp: BlockInput, enumTpl: Option<Para>, tableTpl: Option<seq<Row>>) returns (c: nat)
    modifies body
    ensures body.elems == FrontSteps(old(body.elems), inp, enumTpl, tableTpl).0
    ensures c == FrontSteps(old(body.elems), inp, enumTpl, tableTpl).1
  {
    var c1 := AddLinkSubsections(body, tableTpl, inp.leftRows, inp.videoRows);
    var c2 := AddFlowB(body, enumTpl, inp.flowB);
    c := c1 + c2;
  }

  method AddTrailingBlocks(body: Body, inp: BlockInput, listTpl: Option<Para>) returns (c: nat)
    modifies body
    ensures body.elems == TrailingSteps(old(body.elems), inp, listTpl).0
    ensures c == TrailingSteps(old(body.elems), inp, listTpl).1
  {
    var anchor, c3 := AddMaintenance(body, listTpl, inp.maintenance);
    var c4 := AddBuild(body, anchor);
    c := c3 + c4;
  }

  // ---------------------------------------------------------------------------
  // rebuild_links_tables

  /** A links table to rebuild: the heading it goes under, its header row and its rows. */
  datatype LinkTable = LinkTable(heading: string, header: seq<string>, rows: seq<seq<string>>)

  /** The three tables, in the reverse order in which they are inserted back. */
  function LinkTablesReversed(top: seq<seq<string>>, left: seq<seq<string>>, video: seq<seq<string>>): seq<LinkTable> {
    [LinkTable(VideoCard, ["Area", "Type", "Function"], video),
     LinkTable(LeftNav, ["Item", "Type", "Function"], left),
     LinkTable(TopNav, ["Control", "Type", "Function"], top)]
  }

  function IsTable(e: Element): bool {
    e.Tbl?
  }

  /** One table goes right after its heading, as looked up now; absent headings are skipped. */
  function PlaceTableFound(elems: seq<Element>, found: Option<nat>, tpl: seq<Row>, lt: LinkTable): (seq<Element>, nat)
    requires found.Some? ==> found.value < |elems|
  {
    PlaceAfter(elems, found, [Tbl(BuildTableWithHeader(tpl, lt.header, lt.rows))])
  }

  function PlaceTable(tpl: seq<Row>): (seq<Element>, LinkTable) -> (seq<Element>, nat) {
    (elems: seq<Element>, lt: LinkTable) => PlaceTableFound(elems, FindHeadingIndex(elems, lt.heading), tpl, lt)
  }

  /** The template: the first table of the links section, else the first table of the body. */
  function LinksTemplate(elems: seq<Element>, lo: nat, hi: nat): Option<seq<Row>>
    requires lo <= hi <= |elems|
  {
    var t := FirstTable(elems, lo, hi);
    if t.Some? then Some(elems[t.value].rows) else TableTemplate(elems)
  }

  /** The links section as Python slices it: `links + 1` up to the Example
      Task Flows heading, empty when that heading comes first. */
  function SliceEnd(lo: nat, ex: nat): nat {
    if ex < lo then lo else ex
  }

  /** The rebuild once both headings were looked up: every table of the links
      section is removed, one count each, then a fresh table goes under each
      link heading found, one count each. */
  function RebuildFound(elems: seq<Element>, links: Option<nat>, ex: Option<nat>, tables: seq<LinkTable>): (seq<Element>, nat)
    requires links.Some? ==> links.value < |elems|
    requires ex.Some? ==> ex.value < |elems|
  {
    if links.None? || ex.None? then (elems, 0)
    else
      var lo := links.value + 1;
      var hi := SliceEnd(lo, ex.value);
      RebuildWith(elems, lo, hi, LinksTemplate(elems, lo, hi), tables)
  }

  /** Without any template table nothing is rebuilt. */
  function RebuildWith(elems: seq<Element>, lo: nat, hi: nat, tpl: Option<seq<Row>>, tables: seq<LinkTable>): (seq<Element>, nat)
    requires lo <= hi <= |elems|
  {
    if tpl.None? then (elems, 0) else Rebuilt(elems, lo, hi, tpl.value, tables)
  }

  /** Clearing children `lo .. hi - 1` of tables, then placing the link tables. */
  function Rebuilt(elems: seq<Element>, lo: nat, hi: nat, tpl: seq<Row>, tables: seq<LinkTable>): (seq<Element>, nat)
    requires lo <= hi <= |elems|
  {
    var removed := (hi - lo) - |Filtered(elems[lo..hi], IsTable)|;
    var placed := Folded(Pruning(elems, lo, hi, hi, IsTable), tables, PlaceTable(tpl));
    (placed.0, removed + placed.1)
  }

  function RebuildSpec(elems: seq<Element>, tables: seq<LinkTable>): (seq<Element>, nat) {
    RebuildFound(elems, FindHeadingIndex(elems, LinksMapping), FindHeadingIndex(elems, ExampleFlows), tables)
  }

  /** Before the tables go back, the links section holds no table, and
      everything outside it is as it was. */
  lemma RebuildClearsSection(elems: seq<Element>, lo: nat, hi: nat)
    requires lo <= hi <= |elems|
    ensures var cleared := Pruning(elems, lo, hi, hi, IsTable);
      var n := |cleared| - (|elems| - hi);
      lo <= n && cleared[..lo] == elems[..lo] && cleared[n..] == elems[hi..] &&
      forall j :: lo <= j < n ==> !cleared[j].Tbl?
  {
    var f := Filtered(elems[lo..hi], IsTable);
    FilteredKept(elems[lo..hi], IsTable);
    var cleared := elems[..lo] + f + elems[hi..];
    var n := lo + |f|;
    forall j | lo <= j < n
      ensures !cleared[j].Tbl?
    {
      assert cleared[j] == f[j - lo];
      assert f[j - lo] in f;
    }
    assert cleared[n..] == elems[hi..];
  }

  /** The count is one per table removed from the section plus at most one
      per link table placed. */
  lemma RebuiltCount(elems: seq<Element>, lo: nat, hi: nat, tpl: seq<Row>, tables: seq<LinkTable>)
    requires lo <= hi <= |elems|
    ensures Rebuilt(elems, lo, hi, tpl, tables).1 <= (hi - lo) + |tables|
    ensures |Rebuilt(elems, lo, hi, tpl, tables).0| <= |elems| + |tables|
  {
    var step := PlaceTable(tpl);
    forall x: seq<Element>, lt: LinkTable
      ensures step(x, lt).1 <= 1
    {
    }
    var cleared := Pruning(elems, lo, hi, hi, IsTable);
    FoldedAtMost(cleared, tables, step, 1);
    var len := (x: seq<Element>) => |x|;
    forall x: seq<Element>, lt: LinkTable
      ensures len(step(x, lt).0) <= len(x) + 1
    {
    }
    FoldedGrowth(cleared, tables, step, len);
  }

  /** A table placed under a heading found at `h` sits right after it, and
      its first row is the header when the template has a data row. */
  lemma PlacedTableReads(elems: seq<Element>, h: nat, tpl: seq<Row>, lt: LinkTable)
    requires h < |elems| && |tpl| >= 2
    ensures var out := PlaceTableFound(elems, Some(h), tpl, lt).0;
      h + 1 < |out| && out[h + 1].Tbl? && out[h + 1].rows[0] == FillRow(tpl[0], lt.header) &&
      |out[h + 1].rows| == 1 + (if lt.rows == [] then 1 else |lt.rows|)
  {
    var es := [Tbl(BuildTableWithHeader(tpl, lt.header, lt.rows))];
    PlaceAfterLayout(elems, h, es);
    var out := PlaceAfter(elems, Some(h), es).0;
    assert out[h + 1..h + 2] == es;
    assert out[h + 1] == es[0];
  }

  /** The removal loop for the links section's tables, on the body in place. */
  method RemoveTables(body: Body, lo: nat, hi: nat) returns (removed: nat)
    requires lo <= hi <= |body.elems|
    modifies body
    ensures body.elems == Pruning(old(body.elems), lo, hi, hi, IsTable)
    ensures removed == (hi - lo) - |Filtered(old(body.elems)[lo..hi], IsTable)|
  {
    ghost var b := body.elems;
    PruningStart(b, lo, hi, IsTable);
    var j := lo;
    removed := 0;
    for k := lo to hi
      invariant body.elems == Pruning(b, lo, k, hi, IsTable)
      invariant j == lo + |Filtered(b[lo..k], IsTable)|
      invariant removed + |Filtered(b[lo..k], IsTable)| == k - lo
    {
      PruningAt(b, lo, k, hi, IsTable);
      if body.elems[j].Tbl? {
        PruningDrop(b, lo, k, hi, IsTable);
        body.RemoveAt(j);
        removed := removed + 1;
      } else {
        PruningKeep(b, lo, k, hi, IsTable);
        j := j + 1;
      }
    }
  }

  /** The insertion loop over the link tables, on the body in place. */
  method PlaceTables(body: Body, tpl: seq<Row>, tables: seq<LinkTable>) returns (placed: nat)
    modifies body
    ensures body.elems == Folded(old(body.elems), tables, PlaceTable(tpl)).0
    ensures placed == Folded(old(body.elems), tables, PlaceTable(tpl)).1
  {
    ghost var b := body.elems;
    placed := 0;
    for i := 0 to |tables|
      invariant Folded(b, tables, PlaceTable(tpl)).0 == Folded(body.elems, tables[i..], PlaceTable(tpl)).0
      invariant Folded(b, tables, PlaceTable(tpl)).1 == placed + Folded(body.elems, tables[i..], PlaceTable(tpl)).1
    {
      ghost var before := body.elems;
      FoldedStep(before, tables[i..], PlaceTable(tpl));
      assert tables[i..][1..] == tables[i + 1..];
      var h, es := LinkTableAt(body.elems, tpl, tables[i]);
      PlaceTableLayout(before, tpl, tables[i], h, es);
      if h.Some? {
        body.InsertAfterIndex(h.value, es);
        placed := placed + 1;
      }
      assert body.elems == PlaceTable(tpl)(before, tables[i]).0;
    }
  }

  /** Where one link table goes, and the table element itself. */
  method LinkTableAt(elems: seq<Element>, tpl: seq<Row>, lt: LinkTable) returns (h: Option<nat>, es: seq<Element>)
    ensures h.Some? ==> h.value < |elems|
    ensures es == [Tbl(BuildTableWithHeader(tpl, lt.header, lt.rows))]
    ensures PlaceTable(tpl)(elems, lt) == PlaceTableFound(elems, h, tpl, lt)
  {
    h := FindHeadingIndex(elems, lt.heading);
    es := [Tbl(BuildTableWithHeader(tpl, lt.header, lt.rows))];
  }

  /** The table goes right after the heading found at `h`, if any. */
  lemma PlaceTableLayout(e: seq<Element>, tpl: seq<Row>, lt: LinkTable, h: Option<nat>, es: seq<Element>)
    requires h.Some? ==> h.value < |e|
    requires es == [Tbl(BuildTableWithHeader(tpl, lt.header, lt.rows))]
    ensures h.None? ==> PlaceTableFound(e, h, tpl, lt) == (e, 0)
    ensures h.Some? ==> PlaceTableFound(e, h, tpl, lt) == (e[..h.value + 1] + es + e[h.value + 1..], 1)
  {
  }

  /** The template lookup: the links section first, then the whole body. */
  method FindLinksTemplate(elems: seq<Element>, lo: nat, hi: nat) returns (tpl: Option<seq<Row>>)
    requires lo <= hi <= |elems|
    ensures tpl == LinksTemplate(elems, lo, hi)
  {
    var inSection := ScanFirstTable(elems, lo, hi);
    if inSection.Some? {
      return Some(elems[inSection.value].rows);
    }
    tpl := FindTableTemplate(elems);
  }

  method RebuildTablesFound(body: Body, links: Option<nat>, ex: Option<nat>, tables: seq<LinkTable>) returns (changed: nat)
    requires links.Some? ==> links.value < |body.elems|
    requires ex.Some? ==> ex.value < |body.elems|
    modifies body
    ensures body.elems == RebuildFound(old(body.elems), links, ex, tables).0
    ensures changed == RebuildFound(old(body.elems), links, ex, tables).1
  {
    if links.None? || ex.None? {
      return 0;
    }
    ghost var e0 := body.elems;
    var lo := links.value + 1;
    var hi := SliceEnd(lo, ex.value);
    var tpl := FindLinksTemplate(body.elems, lo, hi);
    assert RebuildFound(e0, links, ex, tables) == RebuildWith(e0, lo, hi, tpl, tables);
    changed := RebuildWithTemplate(body, lo, hi, tpl, tables);
  }

  method RebuildWithTemplate(body: Body, lo: nat, hi: nat, tpl: Option<seq<Row>>, tables: seq<LinkTable>) returns (changed: nat)
    requires lo <= hi <= |body.elems|
    modifies body
    ensures body.elems == RebuildWith(old(body.elems), lo, hi, tpl, tables).0
    ensures changed == RebuildWith(old(body.elems), lo, hi, tpl, tables).1
  {
    if tpl.None? {
      return 0;
    }
    changed := RebuildRange(body, lo, hi, tpl.value, tables);
  }

  method RebuildRange(body: Body, lo: nat, hi: nat, tpl: seq<Row>, tables: seq<LinkTable>) returns (changed: nat)
    requires lo <= hi <= |body.elems|
    modifies body
    ensures body.elems == Rebuilt(old(body.elems), lo, hi, tpl, tables).0
    ensures changed == Rebuilt(old(body.elems), lo, hi, tpl, tables).1
  {
    var removed := RemoveTables(body, lo, hi);
    var placed := PlaceTables(body, tpl, tables);
    changed := removed + placed;
  }

  method RebuildLinksTables(body: Body, tables: seq<LinkTable>) returns (changed: nat)
    modifies body
    ensures body.elems == RebuildSpec(old(body.elems), tables).0
    ensures changed == RebuildSpec(old(body.elems), tables).1
  {
    var links := FindHeadingIndex(body.elems, LinksMapping);
    var ex := FindHeadingIndex(body.elems, ExampleFlows);
    changed := RebuildTablesFound(body, links, ex, tables);
  }
}
