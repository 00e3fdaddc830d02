/** `sync_dynamic_from_spec`: every top-level paragraph whose whole text is a
    `MANUAL_BLOCK:<id>` token is replaced by the content of that block of the
    manual spec (a paragraph, a list, a table, or nothing), then every
    paragraph still holding a token is blanked. */
module DynamicSync {
  import opened Wrappers
  import opened Strings
  import opened DocTree
  import opened Numbering
  import opened NumberingPart
  import opened ManualSpec
  import opened BlockTokens
  import opened Seqs

  /** What handling some paragraphs leaves: the elements standing in their
      place, the numbering part, and the `changes` and `skipped` counts. */
  datatype Outcome = Outcome(out: seq<Element>, abs: seq<AbstractNum>, nums: seq<Num>, changes: nat, skipped: nat)

  /** `(p.text or "").strip()`. */
  function TokenText(p: Para): string {
    Strip(DocxText(p))
  }

  /** The block id a top-level element stands for: a paragraph that is not a
      figure token and whose whole text is a block token. */
  function TokenOf(e: Element): Option<string> {
    if !e.P? then None
    else if TokenId(TokenText(e.para), FigTag).Some? then None
    else TokenId(TokenText(e.para), BlockTag)
  }

  /** `p.text = ""`. */
  function Blank(p: Para): Element {
    P(WithText(p, ""))
  }

  /** A paragraph inserted for a later list item: no properties but the numbering. */
  function ListItemPara(item: string, id: string): Para {
    Para(None, Some(id), [TextRun(item)], false)
  }

  function ListTail(items: seq<string>, id: string): seq<Element> {
    MapSeq(items, (item: string) => P(ListItemPara(item, id)))
  }

  /** The token paragraph rewritten as the first item, the others after it. */
  function ListParas(p: Para, items: seq<string>, id: string): seq<Element>
    requires items != []
  {
    [P(WithText(p, items[0]).(numId := Some(id)))] + ListTail(items[1..], id)
  }

  /** A new cell whose text was set to `t`. */
  function TextCell(t: string): Cell {
    [NewPara(t)]
  }

  /** A spec row cut or padded with "" to `n` cells. */
  function Padded(row: seq<string>, n: nat): (r: seq<string>)
    ensures |r| == n
  {
    seq(n, i requires 0 <= i < n => if i < |row| then row[i] else "")
  }

  function RowCells(n: nat): seq<string> -> Row {
    (row: seq<string>) => MapSeq(Padded(row, n), TextCell)
  }

  /** The table built for a table block: a header row, then one row per spec row. */
  function SpecTable(cols: seq<string>, rows: seq<seq<string>>): seq<Row> {
    [MapSeq(cols, TextCell)] + MapSeq(rows, RowCells(|cols|))
  }

  /** "columns", or three default headers when there are none. */
  function TableColumns(b: Block): (cols: seq<string>)
    ensures cols != []
  {
    var cols := b.columns.GetOr([]);
    if cols == [] then DefaultColumns else cols
  }

  /** One token paragraph handled, `found` being its block, if any. */
  function Resolve(p: Para, found: Option<Block>, bullet: string, abs: seq<AbstractNum>, nums: seq<Num>): Outcome {
    if found.None? then Outcome([Blank(p)], abs, nums, 1, 1)
    else
      var b := found.value;
      if b.kind == Some("paragraph") then Outcome([P(WithText(p, b.text.GetOr("")))], abs, nums, 1, 0)
      else if b.kind == Some("bullet_list") || b.kind == Some("numbered_list") then
        ResolveList(p, b.kind == Some("numbered_list"), b.items.GetOr([]), bullet, abs, nums)
      else if b.kind == Some("table") then
        Outcome([Tbl(SpecTable(TableColumns(b), b.rows.GetOr([])))], abs, nums, 1, 0)
      else if b.kind == Some("figure") then Outcome([Blank(p)], abs, nums, 1, 0)
      else Outcome([Blank(p)], abs, nums, 1, 1)
  }

  /** A list block: bullets share `bullet`, each numbered list gets a fresh
      numId that restarts at 1. */
  function ResolveList(p: Para, numbered: bool, items: seq<string>, bullet: string, abs: seq<AbstractNum>, nums: seq<Num>): Outcome {
    if items == [] then Outcome([Blank(p)], abs, nums, 1, 0)
    else if numbered then
      var alloc := EnsureNumIdSpec(abs, nums, "decimal", true);
      Outcome(ListParas(p, items, alloc.2), alloc.0, alloc.1, |items|, 0)
    else Outcome(ListParas(p, items, bullet), abs, nums, |items|, 0)
  }

  function Lookup(bm: map<string, Block>, id: string): Option<Block> {
    if id in bm then Some(bm[id]) else None
  }

  /** One paragraph of the first pass. */
  function StepOf(e: Element, bm: map<string, Block>, bullet: string, abs: seq<AbstractNum>, nums: seq<Num>): Outcome {
    var id := TokenOf(e);
    if id.None? then Outcome([e], abs, nums, 0, 0)
    else Resolve(e.para, Lookup(bm, id.value), bullet, abs, nums)
  }

  /** The first pass over the first `k` paragraphs present when it starts. */
  function PassTo(elems: seq<Element>, k: nat, bm: map<string, Block>, bullet: string, abs: seq<AbstractNum>, nums: seq<Num>): Outcome
    requires k <= |elems|
    decreases k
  {
    if k == 0 then Outcome([], abs, nums, 0, 0)
    else
      var r0 := PassTo(elems, k - 1, bm, bullet, abs, nums);
      var r1 := StepOf(elems[k - 1], bm, bullet, r0.abs, r0.nums);
      Outcome(r0.out + r1.out, r1.abs, r1.nums, r0.changes + r1.changes, r0.skipped + r1.skipped)
  }

  /** The first pass over every paragraph present when it starts. */
  function Pass(elems: seq<Element>, bm: map<string, Block>, bullet: string, abs: seq<AbstractNum>, nums: seq<Num>): Outcome {
    PassTo(elems, |elems|, bm, bullet, abs, nums)
  }

  /** A paragraph that a search for a block token matches. */
  predicate HoldsToken(e: Element) {
    e.P? && HasToken(TokenText(e.para), BlockTag)
  }

  /** The cleanup pass on one element. */
  function Cleaned(e: Element): Element {
    if HoldsToken(e) then Blank(e.para) else e
  }

  function CleanCount(e: Element): nat {
    if HoldsToken(e) then 1 else 0
  }

  /** The whole run: the bullet numId first, the pass, the cleanup. */
  function SyncSpec(elems: seq<Element>, sections: seq<Section>, abs: seq<AbstractNum>, nums: seq<Num>): Outcome {
    var alloc := EnsureNumIdSpec(abs, nums, "bullet", false);
    var pass := Pass(elems, BlockMap(sections), alloc.2, alloc.0, alloc.1);
    Outcome(Mapped(pass.out, Cleaned), pass.abs, pass.nums, pass.changes + MapSum(pass.out, CleanCount), pass.skipped)
  }

  // ---------------------------------------------------------------------------
  // the document, updated in place

  /** `sync_dynamic_from_spec` on a parsed document and its numbering part. */
  method SyncDynamicFromSpec(body: Body, part: Part, sections: seq<Section>) returns (changes: nat, skipped: nat)
    modifies body, part
    ensures var r := SyncSpec(old(body.elems), sections, old(part.abstracts), old(part.nums));
      body.elems == r.out && part.abstracts == r.abs && part.nums == r.nums &&
      changes == r.changes && skipped == r.skipped
  {
    var bm := BuildIndex(sections, BlockIdOf);
    var bullet := part.EnsureNumIdForFormat("bullet", false);
    changes, skipped := FirstPass(body, part, bm, bullet);
    var cleaned := CleanupPass(body);
    changes := changes + cleaned;
  }

  /** The loop over a snapshot of the paragraphs: `pos` is where the current
      one sits now that earlier ones have grown into lists. */
  method FirstPass(body: Body, part: Part, bm: map<string, Block>, bullet: string) returns (changes: nat, skipped: nat)
    modifies body, part
    ensures var r := Pass(old(body.elems), bm, bullet, old(part.abstracts), old(part.nums));
      body.elems == r.out && part.abstracts == r.abs && part.nums == r.nums &&
      changes == r.changes && skipped == r.skipped
  {
    ghost var snap := body.elems;
    ghost var abs0 := part.abstracts;
    ghost var nums0 := part.nums;
    changes, skipped := 0, 0;
    var pos := 0;
    var k := 0;
    var n := |body.elems|;
    while k < n
      invariant 0 <= k <= n == |snap|
      invariant Reached(body, part, snap, k, pos, changes, skipped, bm, bullet, abs0, nums0)
    {
      pos, changes, skipped := Advance(body, part, pos, changes, skipped, bm, bullet, snap, k, abs0, nums0);
      k := k + 1;
    }
  }

  /** The state after the first pass has handled `k` paragraphs of `snap`. */
  ghost predicate Reached(body: Body, part: Part, snap: seq<Element>, k: nat, pos: nat, changes: nat, skipped: nat,
                          bm: map<string, Block>, bullet: string, abs0: seq<AbstractNum>, nums0: seq<Num>)
    reads body, part
  {
    k <= |snap| &&
    var acc := PassTo(snap, k, bm, bullet, abs0, nums0);
    body.elems == acc.out + snap[k..] && pos == |acc.out| &&
    part.abstracts == acc.abs && part.nums == acc.nums &&
    changes == acc.changes && skipped == acc.skipped
  }

  /** One turn of that loop. */
  method Advance(body: Body, part: Part, pos: nat, changes: nat, skipped: nat, bm: map<string, Block>, bullet: string,
                 ghost snap: seq<Element>, k: nat, ghost abs0: seq<AbstractNum>, ghost nums0: seq<Num>)
    returns (pos': nat, changes': nat, skipped': nat)
    requires k < |snap| && Reached(body, part, snap, k, pos, changes, skipped, bm, bullet, abs0, nums0)
    modifies body, part
    ensures Reached(body, part, snap, k + 1, pos', changes', skipped', bm, bullet, abs0, nums0)
  {
    ghost var acc := PassTo(snap, k, bm, bullet, abs0, nums0);
    ghost var step := StepOf(snap[k], bm, bullet, acc.abs, acc.nums);
    SnapshotStep(acc.out, snap, k, step.out);
    var w, c, s := ResolveAt(body, part, pos, bm, bullet);
    pos', changes', skipped' := pos + w, changes + c, skipped + s;
  }

  /** The paragraph at `pos` handled in place. */
  method ResolveAt(body: Body, part: Part, pos: nat, bm: map<string, Block>, bullet: string)
    returns (width: nat, c: nat, s: nat)
    requires pos < |body.elems|
    modifies body, part
    ensures var r := StepOf(old(body.elems[pos]), bm, bullet, old(part.abstracts), old(part.nums));
      body.elems == old(body.elems[..pos]) + r.out + old(body.elems[pos + 1..]) &&
      width == |r.out| && part.abstracts == r.abs && part.nums == r.nums && c == r.changes && s == r.skipped
  {
    var e := body.elems[pos];
    var id := TokenOf(e);
    if id.None? {
      assert body.elems == body.elems[..pos] + [e] + body.elems[pos + 1..];
      return 1, 0, 0;
    }
    width, c, s := ResolveFound(body, part, pos, e.para, Lookup(bm, id.value), bullet);
  }

  /** A token paragraph whose block lookup gave `found`. */
  method ResolveFound(body: Body, part: Part, pos: nat, p: Para, found: Option<Block>, bullet: string)
    returns (width: nat, c: nat, s: nat)
    requires pos < |body.elems|
    modifies body, part
    ensures var r := Resolve(p, found, bullet, old(part.abstracts), old(part.nums));
      body.elems == old(body.elems[..pos]) + r.out + old(body.elems[pos + 1..]) &&
      width == |r.out| && part.abstracts == r.abs && part.nums == r.nums && c == r.changes && s == r.skipped
  {
    if found.Some? && (found.value.kind == Some("bullet_list") || found.value.kind == Some("numbered_list")) {
      var b := found.value;
      width, c, s := ResolveListAt(body, part, pos, p, b.kind == Some("numbered_list"), b.items.GetOr([]), bullet);
      return;
    }
    c, s := ResolveSingle(body, pos, p, found, bullet, part.abstracts, part.nums);
    width := 1;
  }

  /** A token paragraph whose block is missing or not a list: one element in
      its place, the numbering part untouched. */
  method ResolveSingle(body: Body, pos: nat, p: Para, found: Option<Block>,
                       ghost bullet: string, ghost abs: seq<AbstractNum>, ghost nums: seq<Num>)
    returns (c: nat, s: nat)
    requires pos < |body.elems|
    requires found.Some? ==> found.value.kind != Some("bullet_list") && found.value.kind != Some("numbered_list")
    modifies body
    ensures var r := Resolve(p, found, bullet, abs, nums);
      |r.out| == 1 && r.abs == abs && r.nums == nums && c == r.changes && s == r.skipped &&
      body.elems == old(body.elems[..pos]) + r.out + old(body.elems[pos + 1..])
  {
    var x: Element;
    if found.None? {
      x, c, s := Blank(p), 1, 1;
    } else {
      var b := found.value;
      if b.kind == Some("paragraph") {
        x, c, s := P(WithText(p, b.text.GetOr(""))), 1, 0;
      } else if b.kind == Some("table") {
        x, c, s := Tbl(SpecTable(TableColumns(b), b.rows.GetOr([]))), 1, 0;
      } else if b.kind == Some("figure") {
        x, c, s := Blank(p), 1, 0;
      } else {
        x, c, s := Blank(p), 1, 1;
      }
    }
    UpdateAsSplice(body.elems, pos, x);
    body.Replace(pos, x);
  }

  /** A list block: a blank paragraph when it has no items, otherwise the
      items under the bullet numId or a fresh numbered one. */
  method ResolveListAt(body: Body, part: Part, pos: nat, p: Para, numbered: bool, items: seq<string>, bullet: string)
    returns (width: nat, c: nat, s: nat)
    requires pos < |body.elems|
    modifies body, part
    ensures var r := ResolveList(p, numbered, items, bullet, old(part.abstracts), old(part.nums));
      body.elems == old(body.elems[..pos]) + r.out + old(body.elems[pos + 1..]) &&
      width == |r.out| && part.abstracts == r.abs && part.nums == r.nums && c == r.changes && s == r.skipped
  {
    if items == [] {
      UpdateAsSplice(body.elems, pos, Blank(p));
      body.Replace(pos, Blank(p));
      return 1, 1, 0;
    }
    var numId := bullet;
    if numbered {
      numId := part.EnsureNumIdForFormat("decimal", true);
    }
    PlaceList(body, pos, p, items, numId);
    return |items|, |items|, 0;
  }

  /** The token paragraph becomes the first item, each later item goes in
      after the one before it. */
  method PlaceList(body: Body, pos: nat, p: Para, items: seq<string>, numId: string)
    requires pos < |body.elems| && items != []
    modifies body
    ensures body.elems == old(body.elems[..pos]) + ListParas(p, items, numId) + old(body.elems[pos + 1..])
  {
    var head := P(WithText(p, items[0]).(numId := Some(numId)));
    var tail := ListTail(items[1..], numId);
    assert ListParas(p, items, numId) == [head] + tail;
    ghost var b := body.elems;
    ghost var b1 := b[pos := head];
    UpdateThenInsert(b, pos, head, tail);
    body.Replace(pos, head);
    assert body.elems == b1;
    body.InsertAfterIndex(pos, tail);
    assert body.elems == b1[..pos + 1] + tail + b1[pos + 1..];
  }

  /** The cleanup loop over every top-level paragraph. */
  method CleanupPass(body: Body) returns (count: nat)
    modifies body
    ensures body.elems == Mapped(old(body.elems), Cleaned)
    ensures count == MapSum(old(body.elems), CleanCount)
  {
    ghost var b := body.elems;
    count := 0;
    var n := |body.elems|;
    for i := 0 to n
      invariant body.elems == Mapped(b[..i], Cleaned) + b[i..]
      invariant count == MapSum(b[..i], CleanCount)
    {
      MapStep(b, i, Cleaned);
      MapSumSnoc(b, i, CleanCount);
      if HoldsToken(body.elems[i]) {
        body.SetText(i, "");
        count := count + 1;
      }
    }
    MapDone(b, Cleaned);
    assert b[..n] == b;
  }

  // ---------------------------------------------------------------------------
  // properties

  /** The two tags differ at their eighth character, so no text is both a
      figure token and a block token: the figure guard never hides a block. */
  lemma TokensExclusive(t: string)
    ensures TokenId(t, FigTag).Some? ==> TokenId(t, BlockTag).None?
  {
    var u := DropClose(DropOpen(t));
    if StartsWith(u, FigTag) && |BlockTag| <= |u| {
      assert u[7] == 'F';
      assert u[..|BlockTag|][7] == 'F';
    }
  }

  /** Hence an element stands for a block exactly when it is a paragraph
      whose whole text is a block token. */
  lemma TokenOfIsFullmatch(e: Element)
    ensures TokenOf(e) == (if e.P? then TokenId(TokenText(e.para), BlockTag) else None)
  {
    if e.P? {
      TokensExclusive(TokenText(e.para));
    }
  }

  /** A paragraph the first pass resolves is one the cleanup would blank. */
  lemma TokenOfHolds(e: Element)
    requires TokenOf(e).Some?
    ensures HoldsToken(e)
  {
    TokenIdFound(TokenText(e.para), BlockTag);
  }

  /** The cleanup leaves no paragraph holding a token, and changes exactly
      the paragraphs that held one. */
  lemma CleanedNoToken(e: Element)
    ensures !HoldsToken(Cleaned(e))
    ensures Cleaned(e) == e <==> !HoldsToken(e)
    ensures CleanCount(e) == 1 <==> HoldsToken(e)
  {
    if HoldsToken(e) {
      assert TokenText(WithText(e.para, "")) == "";
      NoTokenInBlank(BlockTag);
    }
  }

  /** After a run no top-level paragraph leaks a block token. */
  lemma SyncLeavesNoToken(elems: seq<Element>, sections: seq<Section>, abs: seq<AbstractNum>, nums: seq<Num>)
    ensures var r := SyncSpec(elems, sections, abs, nums);
      forall i :: 0 <= i < |r.out| ==> !HoldsToken(r.out[i])
  {
    var r := SyncSpec(elems, sections, abs, nums);
    forall i | 0 <= i < |r.out|
      ensures !HoldsToken(r.out[i])
    {
      var alloc := EnsureNumIdSpec(abs, nums, "bullet", false);
      var pass := Pass(elems, BlockMap(sections), alloc.2, alloc.0, alloc.1);
      CleanedNoToken(pass.out[i]);
    }
  }

  /** No element of `elems` holds a token. */
  predicate TokenFree(elems: seq<Element>) {
    forall i :: 0 <= i < |elems| ==> !HoldsToken(elems[i])
  }

  /** On token-free paragraphs the first pass keeps everything and counts nothing. */
  lemma {:induction false} PassOnTokenFree(elems: seq<Element>, k: nat, bm: map<string, Block>, bullet: string,
                                           abs: seq<AbstractNum>, nums: seq<Num>)
    requires k <= |elems| && TokenFree(elems)
    ensures var r := PassTo(elems, k, bm, bullet, abs, nums);
      r.out == elems[..k] && r.abs == abs && r.nums == nums && r.changes == 0 && r.skipped == 0
    decreases k
  {
    if k > 0 {
      PassOnTokenFree(elems, k - 1, bm, bullet, abs, nums);
      var r0 := PassTo(elems, k - 1, bm, bullet, abs, nums);
      var r1 := StepOf(elems[k - 1], bm, bullet, r0.abs, r0.nums);
      StepOnTokenFree(elems[k - 1], bm, bullet, r0.abs, r0.nums);
      var r := PassTo(elems, k, bm, bullet, abs, nums);
      assert r == Outcome(r0.out + r1.out, r1.abs, r1.nums, r0.changes + r1.changes, r0.skipped + r1.skipped);
      TakeSnoc(elems, k);
    }
  }

  lemma StepOnTokenFree(e: Element, bm: map<string, Block>, bullet: string, abs: seq<AbstractNum>, nums: seq<Num>)
    requires !HoldsToken(e)
    ensures StepOf(e, bm, bullet, abs, nums) == Outcome([e], abs, nums, 0, 0)
  {
    if TokenOf(e).Some? {
      TokenOfHolds(e);
    }
  }

  /** On token-free paragraphs the cleanup changes nothing. */
  lemma {:induction false} CleanupOnTokenFree(elems: seq<Element>)
    requires TokenFree(elems)
    ensures Mapped(elems, Cleaned) == elems && MapSum(elems, CleanCount) == 0
    decreases |elems|
  {
    if elems != [] {
      CleanupOnTokenFree(elems[..|elems| - 1]);
      CleanedNoToken(elems[|elems| - 1]);
    }
    forall i | 0 <= i < |elems|
      ensures Mapped(elems, Cleaned)[i] == elems[i]
    {
      CleanedNoToken(elems[i]);
    }
  }

  /** Running the sync again on its own output changes nothing: no token is
      left for either pass to find. */
  lemma SecondRunNoChanges(elems: seq<Element>, sections: seq<Section>, abs: seq<AbstractNum>, nums: seq<Num>)
    ensures var r := SyncSpec(elems, sections, abs, nums);
      var r2 := SyncSpec(r.out, sections, r.abs, r.nums);
      r2.out == r.out && r2.changes == 0 && r2.skipped == 0
  {
    var r := SyncSpec(elems, sections, abs, nums);
    SyncLeavesNoToken(elems, sections, abs, nums);
    var alloc := EnsureNumIdSpec(r.abs, r.nums, "bullet", false);
    PassOnTokenFree(r.out, |r.out|, BlockMap(sections), alloc.2, alloc.0, alloc.1);
    assert r.out[..|r.out|] == r.out;
    CleanupOnTokenFree(r.out);
  }

  /** Every token paragraph counts as one change at least; it is skipped
      exactly when its block is missing or of a type the sync does not know. */
  lemma ResolveCounts(p: Para, found: Option<Block>, bullet: string, abs: seq<AbstractNum>, nums: seq<Num>)
    ensures var r := Resolve(p, found, bullet, abs, nums);
      r.changes >= 1 && |r.out| >= 1 &&
      (r.skipped == 1 <==>
        found.None? ||
        found.value.kind !in {Some("paragraph"), Some("bullet_list"), Some("numbered_list"), Some("table"), Some("figure")}) &&
      r.skipped <= 1
  {
  }

  lemma ListItemText(item: string, id: string)
    ensures DocxText(ListItemPara(item, id)) == item
  {
    var runs := ListItemPara(item, id).runs;
    assert runs[..0] == [];
    assert RunsDocxText(runs) == RunsDocxText([]) + [] + item;
  }

  /** The `k`-th paragraph of a list carries the `k`-th item and the numId. */
  lemma ListParaAt(p: Para, items: seq<string>, id: string, k: nat)
    requires k < |items|
    ensures var out := ListParas(p, items, id);
      |out| == |items| && out[k].P? && DocxText(out[k].para) == items[k] && out[k].para.numId == Some(id)
  {
    var out := ListParas(p, items, id);
    var tail := ListTail(items[1..], id);
    if k == 0 {
      var q := WithText(p, items[0]);
      assert DocxText(q.(numId := Some(id))) == DocxText(q);
    } else {
      ConsAt(out[0], tail, k);
      TailAt(items, k);
      ListItemText(items[k], id);
    }
  }

  /** The paragraphs of a list carry the items' texts and the numId. */
  lemma ListParasText(p: Para, items: seq<string>, id: string)
    requires items != []
    ensures var out := ListParas(p, items, id);
      |out| == |items| &&
      forall k :: 0 <= k < |items| ==>
        out[k].P? && DocxText(out[k].para) == items[k] && out[k].para.numId == Some(id)
  {
    forall k | 0 <= k < |items| {
      ListParaAt(p, items, id, k);
    }
  }

  /** A list block with items becomes one paragraph per item, carrying the
      item's text and one shared numId, and counts one change per item. A
      bullet list shares the bullet numId and leaves the numbering part as it
      is; a numbered list gets a new numId, not used before, whose level 0
      restarts at 1. */
  lemma ListOutcome(p: Para, numbered: bool, items: seq<string>, bullet: string, abs: seq<AbstractNum>, nums: seq<Num>)
    requires items != []
    ensures var r := ResolveList(p, numbered, items, bullet, abs, nums);
      var id := if numbered then EnsureNumIdSpec(abs, nums, "decimal", true).2 else bullet;
      |r.out| == |items| && r.changes == |items| && r.skipped == 0 &&
      (forall k :: 0 <= k < |items| ==>
        r.out[k].P? && DocxText(r.out[k].para) == items[k] && r.out[k].para.numId == Some(id)) &&
      (!numbered ==> r.abs == abs && r.nums == nums) &&
      (numbered ==>
        id !in NumIds(nums) && |r.nums| == |nums| + 1 && r.nums[..|nums|] == nums &&
        r.nums[|nums|].id == id && StartsAtOne(r.nums[|nums|]))
  {
    var id := if numbered then EnsureNumIdSpec(abs, nums, "decimal", true).2 else bullet;
    if numbered {
      EnsureNumIdRestartFresh(abs, nums, "decimal");
    }
    ListParasText(p, items, id);
  }

  /** A spec row becomes `n` single-paragraph cells holding its texts, cut
      or padded with "". */
  lemma RowCellsText(row: seq<string>, n: nat)
    ensures var cells := RowCells(n)(row);
      |cells| == n &&
      forall j :: 0 <= j < n ==> |cells[j]| == 1 && DocxText(cells[j][0]) == (if j < |row| then row[j] else "")
  {
  }

  /** A table block becomes one table: a header row of the columns (three
      defaults when there are none) ... */
  lemma TableHeader(cols: seq<string>, rows: seq<seq<string>>)
    ensures var t := SpecTable(cols, rows);
      |t| == |rows| + 1 && |t[0]| == |cols| &&
      forall j :: 0 <= j < |cols| ==> DocxText(t[0][j][0]) == cols[j]
  {
  }

  /** ... then one row per spec row, cut or padded to the number of columns. */
  lemma TableRows(cols: seq<string>, rows: seq<seq<string>>)
    ensures var t := SpecTable(cols, rows);
      forall i :: 0 <= i < |rows| ==> t[i + 1] == RowCells(|cols|)(rows[i])
  {
  }
}
