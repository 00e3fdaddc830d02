/** `enforce_section_lists_and_build` of the legacy patcher: the Flow A, Flow B
    and Maintenance Notes sections are cleared of their list paragraphs and
    of plain copies of their items, then refilled from the LaTeX lists; the
    Build section is replaced outright by the build lines. */
module LegacySections {
  import opened Wrappers
  import opened Strings
  import opened DocTree
  import opened DocxAnchors
  import opened Seqs
  import opened Titles

  // ---------------------------------------------------------------------------
  // what is cleared from a list section

  /** The plain text `t` is item `i` itself or item `i` numbered by hand
      (`"{i}. {item}"`, counting from 1). */
  predicate LegacyItemText(t: string, items: seq<string>) {
    exists i :: 0 <= i < |items| && (t == items[i] || t == NatToString(i + 1) + ". " + items[i])
  }

  /** The item loop of `rewrite_list_section`, stopping at the first match. */
  method MatchesLegacyItem(t: string, items: seq<string>) returns (found: bool)
    ensures found <==> LegacyItemText(t, items)
  {
    found := false;
    var i := 0;
    while i < |items|
      invariant 0 <= i <= |items|
      invariant forall m :: 0 <= m < i ==> t != items[m] && t != NatToString(m + 1) + ". " + items[m]
    {
      if t == items[i] || t == NatToString(i + 1) + ". " + items[i] {
        return true;
      }
      i := i + 1;
    }
  }

  /** A section child that is removed: a list paragraph, or a paragraph whose
      non-empty text is one of the items, bare or numbered by hand. */
  predicate StaleEntry(e: Element, items: seq<string>) {
    e.P? && (IsList(e.para) || (XmlText(e.para) != [] && LegacyItemText(XmlText(e.para), items)))
  }

  function StaleIn(items: seq<string>): Element -> bool {
    e => StaleEntry(e, items)
  }

  /** The children between the heading at `h` and the end of its section
      with the stale entries removed, and how many were removed. */
  function PruneSection(elems: seq<Element>, h: nat, items: seq<string>): (r: (seq<Element>, nat))
    requires h < |elems|
  {
    var end := SectionEndIndex(elems, h);
    (Pruning(elems, h + 1, end, end, StaleIn(items)), (end - h - 1) - |Filtered(elems[h + 1..end], StaleIn(items))|)
  }

  /** Pruning keeps everything outside the section, leaves no stale entry in
      it, keeps every entry that is not stale, and counts what it removed. */
  lemma PruneSectionEffect(elems: seq<Element>, h: nat, items: seq<string>)
    requires h < |elems|
    ensures var out := PruneSection(elems, h, items).0;
      var removed := PruneSection(elems, h, items).1;
      var end := SectionEndIndex(elems, h);
      var kept := out[h + 1..|out| - (|elems| - end)];
      |out| == |elems| - removed && |out| >= h + 1 + |elems| - end &&
      out[..h + 1] == elems[..h + 1] && out[|out| - (|elems| - end)..] == elems[end..] &&
      (forall x :: x in kept ==> x in elems[h + 1..end] && !StaleEntry(x, items)) &&
      ((forall j :: h < j < end ==> !StaleEntry(elems[j], items)) ==> out == elems)
  {
    var end := SectionEndIndex(elems, h);
    var f := Filtered(elems[h + 1..end], StaleIn(items));
    var out := elems[..h + 1] + f + elems[end..];
    FilteredKept(elems[h + 1..end], StaleIn(items));
    assert out[h + 1..|out| - (|elems| - end)] == f;
    assert out[|out| - (|elems| - end)..] == elems[end..];
    if forall j :: h < j < end ==> !StaleEntry(elems[j], items) {
      FilteredNone(elems[h + 1..end], StaleIn(items));
      SplitThree(elems, h + 1, end);
    }
  }

  /** The test of one section child. */
  method IsStale(e: Element, items: seq<string>) returns (stale: bool)
    ensures stale == StaleIn(items)(e)
  {
    stale := false;
    if e.P? && IsList(e.para) {
      stale := true;
    } else if e.P? {
      var t := XmlText(e.para);
      if t != [] {
        stale := MatchesLegacyItem(t, items);
      }
    }
  }

  /** The pruning loop of `rewrite_list_section`, on the body in place. */
  method PruneStale(body: Body, lo: nat, hi: nat, items: seq<string>) returns (removed: nat)
    requires lo <= hi <= |body.elems|
    modifies body
    ensures body.elems == Pruning(old(body.elems), lo, hi, hi, StaleIn(items))
    ensures removed == (hi - lo) - |Filtered(old(body.elems)[lo..hi], StaleIn(items))|
  {
    ghost var b := body.elems;
    ghost var drop := StaleIn(items);
    PruningStart(b, lo, hi, drop);
    var j := lo;
    removed := 0;
    for k := lo to hi
      invariant body.elems == Pruning(b, lo, k, hi, drop)
      invariant j == lo + |Filtered(b[lo..k], drop)|
      invariant removed + |Filtered(b[lo..k], drop)| == k - lo
    {
      PruningAt(b, lo, k, hi, drop);
      var stale := IsStale(body.elems[j], items);
      if stale {
        PruningDrop(b, lo, k, hi, drop);
        body.RemoveAt(j);
        removed := removed + 1;
      } else {
        PruningKeep(b, lo, k, hi, drop);
        j := j + 1;
      }
    }
  }

  // ---------------------------------------------------------------------------
  // what is inserted

  /** How new items are written: numbered on a given numbering instance, or
      as clones of a template list paragraph. */
  datatype ListMode = Numbered(numId: string) | Cloned

  function NewItem(t: string, tpl: Para, mode: ListMode): (e: Element)
    ensures e.P? && XmlText(e.para) == Strip(t)
    ensures mode.Numbered? ==> IsList(e.para) && e.para.numId == Some(mode.numId) && !IsHeading(e.para)
    ensures mode.Cloned? ==> e.para.style == tpl.style && e.para.numId == tpl.numId
  {
    if mode.Numbered? then P(MakeListNumberParagraph(t, mode.numId)) else P(CloneListParagraph(tpl, t))
  }

  function ItemMaker(tpl: Para, mode: ListMode): string -> Element {
    t => NewItem(t, tpl, mode)
  }

  /** The paragraphs that refill a list section, one per item, in order. */
  function NewItems(items: seq<string>, tpl: Para, mode: ListMode): seq<Element> {
    MapSeq(items, ItemMaker(tpl, mode))
  }

  /** Each new paragraph reads as its item. */
  lemma NewItemsRead(items: seq<string>, tpl: Para, mode: ListMode)
    ensures var es := NewItems(items, tpl, mode);
      |es| == |items| &&
      forall i :: 0 <= i < |items| ==> es[i].P? && XmlText(es[i].para) == Strip(items[i])
  {
    var es := NewItems(items, tpl, mode);
    forall i | 0 <= i < |items|
      ensures es[i].P? && XmlText(es[i].para) == Strip(items[i])
    {
      assert es[i] == NewItem(items[i], tpl, mode);
    }
  }

  /** `es` go right after the heading found at `found`, one count each;
      nothing happens when it was not found. */
  function PlaceAfter(elems: seq<Element>, found: Option<nat>, es: seq<Element>): (r: (seq<Element>, nat))
    requires found.Some? ==> found.value < |elems|
    ensures found.None? ==> r.0 == elems && r.1 == 0
    ensures found.Some? ==> r.1 == |es| && |r.0| == |elems| + |es|
    ensures found.Some? ==> r.0 == elems[..found.value + 1] + es + elems[found.value + 1..]
  {
    match found
    case None => (elems, 0)
    case Some(h) => (elems[..h + 1] + es + elems[h + 1..], |es|)
  }

  /** After the insertion the heading is followed by exactly `es`, and the
      rest of the body is as it was. */
  lemma PlaceAfterLayout(elems: seq<Element>, h: nat, es: seq<Element>)
    requires h < |elems|
    ensures var out := PlaceAfter(elems, Some(h), es).0;
      out[..h + 1] == elems[..h + 1] && out[h + 1..h + 1 + |es|] == es && out[h + 1 + |es|..] == elems[h + 1..]
  {
  }

  /** The heading is looked up again and `es` go right after it. */
  function InsertUnder(elems: seq<Element>, heading: string, es: seq<Element>): (seq<Element>, nat) {
    PlaceAfter(elems, FindHeadingIndex(elems, heading), es)
  }

  method InsertUnderHeading(body: Body, heading: string, es: seq<Element>) returns (added: nat)
    modifies body
    ensures body.elems == InsertUnder(old(body.elems), heading, es).0
    ensures added == InsertUnder(old(body.elems), heading, es).1
  {
    var h := FindHeadingIndex(body.elems, heading);
    added := PlaceAfterIn(body, h, es);
  }

  /** The insertion once the heading was looked up. */
  method PlaceAfterIn(body: Body, found: Option<nat>, es: seq<Element>) returns (added: nat)
    requires found.Some? ==> found.value < |body.elems|
    modifies body
    ensures body.elems == PlaceAfter(old(body.elems), found, es).0
    ensures added == PlaceAfter(old(body.elems), found, es).1
  {
    if found.None? {
      return 0;
    }
    body.InsertAfterIndex(found.value, es);
    added := |es|;
  }

  // ---------------------------------------------------------------------------
  // rewrite_list_section

  /** The rewrite once the heading was found at `h`. */
  function RewriteListUnder(elems: seq<Element>, h: nat, heading: string, items: seq<string>, tpl: Para, mode: ListMode): (seq<Element>, nat)
    requires h < |elems|
  {
    var pruned := PruneSection(elems, h, items);
    var placed := InsertUnder(pruned.0, heading, NewItems(items, tpl, mode));
    (placed.0, pruned.1 + placed.1)
  }

  /** `rewrite_list_section` once the heading was looked up. */
  function RewriteListFound(elems: seq<Element>, found: Option<nat>, heading: string, items: seq<string>, tpl: Para, mode: ListMode): (seq<Element>, nat)
    requires found.Some? ==> found.value < |elems|
  {
    match found
    case None => (elems, 0)
    case Some(h) => RewriteListUnder(elems, h, heading, items, tpl, mode)
  }

  /** `rewrite_list_section`: nothing without a template or without the heading. */
  function RewriteListSpec(elems: seq<Element>, heading: string, items: seq<string>, tpl: Option<Para>, mode: ListMode): (seq<Element>, nat) {
    if tpl.None? then (elems, 0)
    else RewriteListFound(elems, FindHeadingIndex(elems, heading), heading, items, tpl.value, mode)
  }

  /** Where the heading is found again after pruning, it is followed by one
      new paragraph per item reading as that item; the count is what was
      removed plus what was inserted. */
  lemma RewriteListReads(elems: seq<Element>, h: nat, heading: string, items: seq<string>, tpl: Para, mode: ListMode, h2: nat)
    requires h < |elems|
    requires h2 < |PruneSection(elems, h, items).0|
    requires FindHeadingIndex(PruneSection(elems, h, items).0, heading) == Some(h2)
    ensures var (out, c) := RewriteListUnder(elems, h, heading, items, tpl, mode);
      h2 + 1 + |items| <= |out| && c == PruneSection(elems, h, items).1 + |items| &&
      forall i :: 0 <= i < |items| ==> out[h2 + 1 + i].P? && XmlText(out[h2 + 1 + i].para) == Strip(items[i])
  {
    var pruned := PruneSection(elems, h, items).0;
    var es := NewItems(items, tpl, mode);
    assert |es| == |items| by { NewItemsRead(items, tpl, mode); }
    assert InsertUnder(pruned, heading, es) == PlaceAfter(pruned, Some(h2), es);
    PlacedItemsRead(pruned, h2, items, tpl, mode);
  }

  /** After the heading at `h2`, the new paragraphs read as the items in order. */
  lemma PlacedItemsRead(pruned: seq<Element>, h2: nat, items: seq<string>, tpl: Para, mode: ListMode)
    requires h2 < |pruned|
    ensures var out := PlaceAfter(pruned, Some(h2), NewItems(items, tpl, mode)).0;
      h2 + 1 + |items| <= |out| &&
      forall i :: 0 <= i < |items| ==> out[h2 + 1 + i].P? && XmlText(out[h2 + 1 + i].para) == Strip(items[i])
  {
    var es := NewItems(items, tpl, mode);
    var out := PlaceAfter(pruned, Some(h2), es).0;
    RewriteListPlaced(pruned, h2, es);
    NewItemsRead(items, tpl, mode);
    SliceReads(out, h2 + 1, h2 + 1 + |es|, es);
  }

  lemma RewriteListPlaced(pruned: seq<Element>, h2: nat, es: seq<Element>)
    requires h2 < |pruned|
    ensures h2 + 1 + |es| <= |PlaceAfter(pruned, Some(h2), es).0|
    ensures PlaceAfter(pruned, Some(h2), es).0[h2 + 1..h2 + 1 + |es|] == es
  {
    PlaceAfterLayout(pruned, h2, es);
  }

  method RewriteListAfter(body: Body, h: nat, heading: string, items: seq<string>, tpl: Para, mode: ListMode) returns (changed: nat)
    requires h < |body.elems|
    modifies body
    ensures body.elems == RewriteListUnder(old(body.elems), h, heading, items, tpl, mode).0
    ensures changed == RewriteListUnder(old(body.elems), h, heading, items, tpl, mode).1
  {
    ghost var e0 := body.elems;
    var end := SectionEndIndex(body.elems, h);
    var removed := PruneStale(body, h + 1, end, items);
    assert body.elems == PruneSection(e0, h, items).0;
    assert removed == PruneSection(e0, h, items).1;
    var es := MapEach(items, ItemMaker(tpl, mode));
    var added := InsertUnderHeading(body, heading, es);
    changed := removed + added;
  }

  method RewriteListSection(body: Body, heading: string, items: seq<string>, tpl: Option<Para>, mode: ListMode) returns (changed: nat)
    modifies body
    ensures body.elems == RewriteListSpec(old(body.elems), heading, items, tpl, mode).0
    ensures changed == RewriteListSpec(old(body.elems), heading, items, tpl, mode).1
  {
    if tpl.None? {
      return 0;
    }
    var h := FindHeadingIndex(body.elems, heading);
    if h.None? {
      return 0;
    }
    changed := RewriteListAfter(body, h.value, heading, items, tpl.value, mode);
  }

  // ---------------------------------------------------------------------------
  // the Build section

  function Always(e: Element): bool {
    true
  }

  function PlainPara(t: string): Element {
    P(NewPara(t))
  }

  /** One plain paragraph per build line. */
  function BuildParas(lines: seq<string>): seq<Element> {
    MapSeq(lines, PlainPara)
  }

  /** The Build rewrite once its heading was found at `h`: the whole section
      body is removed, one count each, and the build lines go in its place. */
  function RewriteBuildUnder(elems: seq<Element>, h: nat, lines: seq<string>): (r: (seq<Element>, nat))
    requires h < |elems|
  {
    var end := SectionEndIndex(elems, h);
    var (out, added) := InsertUnder(elems[..h + 1] + elems[end..], Build, BuildParas(lines));
    (out, (end - h - 1) + added)
  }

  function RewriteBuildFound(elems: seq<Element>, found: Option<nat>, lines: seq<string>): (seq<Element>, nat)
    requires found.Some? ==> found.value < |elems|
  {
    match found
    case None => (elems, 0)
    case Some(h) => RewriteBuildUnder(elems, h, lines)
  }

  function RewriteBuildSpec(elems: seq<Element>, lines: seq<string>): (seq<Element>, nat) {
    RewriteBuildFound(elems, FindHeadingIndex(elems, Build), lines)
  }

  /** The removal loop, on the body in place: every child in `lo .. hi - 1` goes. */
  method RemoveRange(body: Body, lo: nat, hi: nat) returns (removed: nat)
    requires lo <= hi <= |body.elems|
    modifies body
    ensures body.elems == old(body.elems[..lo]) + old(body.elems[hi..])
    ensures removed == hi - lo
  {
    ghost var b := body.elems;
    PruningStart(b, lo, hi, Always);
    removed := 0;
    for k := lo to hi
      invariant body.elems == Pruning(b, lo, k, hi, Always)
      invariant Filtered(b[lo..k], Always) == [] && removed == k - lo
    {
      PruningAt(b, lo, k, hi, Always);
      PruningDrop(b, lo, k, hi, Always);
      body.RemoveAt(lo);
      removed := removed + 1;
    }
  }

  method RewriteBuildAfter(body: Body, h: nat, lines: seq<string>) returns (changed: nat)
    requires h < |body.elems|
    modifies body
    ensures body.elems == RewriteBuildUnder(old(body.elems), h, lines).0
    ensures changed == RewriteBuildUnder(old(body.elems), h, lines).1
  {
    ghost var e0 := body.elems;
    var end := SectionEndIndex(body.elems, h);
    var removed := RemoveRange(body, h + 1, end);
    assert body.elems == e0[..h + 1] + e0[end..];
    var es := MapEach(lines, PlainPara);
    var added := InsertUnderHeading(body, Build, es);
    changed := removed + added;
  }

  method RewriteBuild(body: Body, lines: seq<string>) returns (changed: nat)
    modifies body
    ensures body.elems == RewriteBuildSpec(old(body.elems), lines).0
    ensures changed == RewriteBuildSpec(old(body.elems), lines).1
  {
    var h := FindHeadingIndex(body.elems, Build);
    if h.None? {
      return 0;
    }
    changed := RewriteBuildAfter(body, h.value, lines);
  }

  /** Once the Build heading is found again, it is followed by exactly the
      build lines, and the old section body is gone. */
  lemma RewriteBuildReads(elems: seq<Element>, h: nat, lines: seq<string>, h2: nat)
    requires h < |elems|
    requires h2 < h + 1 + |elems| - SectionEndIndex(elems, h)
    requires FindHeadingIndex(elems[..h + 1] + elems[SectionEndIndex(elems, h)..], Build) == Some(h2)
    ensures var (out, c) := RewriteBuildUnder(elems, h, lines);
      c == SectionEndIndex(elems, h) - h - 1 + |lines| &&
      |out| == h + 1 + |lines| + (|elems| - SectionEndIndex(elems, h)) &&
      out[h2 + 1..h2 + 1 + |lines|] == BuildParas(lines)
  {
    var cleared := elems[..h + 1] + elems[SectionEndIndex(elems, h)..];
    RewriteListPlaced(cleared, h2, BuildParas(lines));
  }

  // ---------------------------------------------------------------------------
  // enforce_section_lists_and_build

  /** The LaTeX content the pass writes. */
  datatype SectionInput = SectionInput(
    flowA: seq<string>, flowB: seq<string>, maintenance: seq<string>, buildLines: seq<string>,
    flowANumId: string, flowBNumId: string)

  /** The enumeration template: the first list paragraph under Flow A, else
      the first list paragraph of the body. */
  function EnumTemplate(elems: seq<Element>): (r: Option<Para>)
    ensures r.Some? ==> IsList(r.value) && P(r.value) in elems
  {
    var t := FindListTemplateUnderHeading(elems, FlowA);
    if t.Some? then t else FirstListTemplate(elems)
  }

  /** `find_first_list_template`, with where its answer sits. */
  function FirstListTemplate(elems: seq<Element>): (r: Option<Para>)
    ensures r.Some? ==> IsList(r.value) && P(r.value) in elems
    ensures r == FindFirstListTemplate(elems)
  {
    var r := FindFirstListTemplate(elems);
    if r.Some? then
      var i :| 0 <= i < |elems| && elems[i] == P(r.value) && IsList(r.value);
      assert elems[i] in elems;
      r
    else r
  }

  /** The pass with its two templates already taken. */
  function SectionListsWith(elems: seq<Element>, inp: SectionInput, bullet: Option<Para>, enumTpl: Option<Para>): (seq<Element>, nat) {
    var r1 := RewriteListSpec(elems, FlowA, inp.flowA, enumTpl, Numbered(inp.flowANumId));
    var r2 := RewriteListSpec(r1.0, FlowB, inp.flowB, enumTpl, Numbered(inp.flowBNumId));
    var r3 := RewriteListSpec(r2.0, Maintenance, inp.maintenance, bullet, Cloned);
    var r4 := RewriteBuildSpec(r3.0, inp.buildLines);
    (r4.0, r1.1 + r2.1 + r3.1 + r4.1)
  }

  /** The whole pass: both templates are taken from the body as it was on
      entry; the three list sections and the Build section follow in order. */
  function SectionListsSpec(elems: seq<Element>, inp: SectionInput): (seq<Element>, nat) {
    SectionListsWith(elems, inp, FirstListTemplate(elems), EnumTemplate(elems))
  }

  /** Without any list paragraph in the body there is no template, and only
      the Build section is rewritten. */
  lemma SectionListsWithoutLists(elems: seq<Element>, inp: SectionInput)
    requires forall i :: 0 <= i < |elems| ==> !IsListElement(elems[i])
    ensures SectionListsSpec(elems, inp) == RewriteBuildSpec(elems, inp.buildLines)
  {
    assert FirstListTemplate(elems) == None && EnumTemplate(elems) == None;
    assert RewriteListSpec(elems, FlowA, inp.flowA, None, Numbered(inp.flowANumId)) == (elems, 0);
    assert RewriteListSpec(elems, FlowB, inp.flowB, None, Numbered(inp.flowBNumId)) == (elems, 0);
    assert RewriteListSpec(elems, Maintenance, inp.maintenance, None, Cloned) == (elems, 0);
  }

  method EnforceSectionListsAndBuild(body: Body, inp: SectionInput) returns (changed: nat)
    modifies body
    ensures body.elems == SectionListsSpec(old(body.elems), inp).0
    ensures changed == SectionListsSpec(old(body.elems), inp).1
  {
    var bullet := FirstListTemplate(body.elems);
    var enumTpl := EnumTemplate(body.elems);
    var c1 := RewriteListSection(body, FlowA, inp.flowA, enumTpl, Numbered(inp.flowANumId));
    var c2 := RewriteListSection(body, FlowB, inp.flowB, enumTpl, Numbered(inp.flowBNumId));
    var c3 := RewriteListSection(body, Maintenance, inp.maintenance, bullet, Cloned);
    var c4 := RewriteBuild(body, inp.buildLines);
    changed := c1 + c2 + c3 + c4;
  }
}
