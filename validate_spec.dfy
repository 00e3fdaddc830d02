/** `validate_manual_spec.py`: the schema and consistency rules a manual
    spec must meet before rendering. Validation stops at the first rule that
    fails, checking the meta object, then the sections in order of their
    "order" key with their blocks, then the trace object. */
module ValidateSpec {
  import opened Wrappers
  import opened ManualSpec

  /** The message `fail` would raise, one case per rule. */
  datatype Invalid =
    | MetaMissing
    | MetaKeyMissing(key: string)
    | SectionsMissing
    | OrderNotContiguous(sectionId: Option<string>)
    | SectionIdMissing
    | TitleMissing(sectionId: Option<string>)
    | BlocksMissing(sectionId: Option<string>)
    | BlockIdMissing(sectionId: Option<string>)
    | DuplicateBlockId(blockId: string)
    | UnsupportedType(kind: Option<string>)
    | ListItemsMissing(blockId: string)
    | TableColumnsRowsMissing(blockId: string)
    | FigureFieldMissing(blockId: string, key: string)
    | TraceMissing
    | TraceKeyMissing(key: string)

  const MetaKeys: seq<string> := ["spec_version", "locale", "url", "host", "generated_at", "generator_mode"]
  const FigureKeys: seq<string> := ["figure_id", "caption", "image_rel", "anchor_section_id", "order"]
  const TraceKeys: seq<string> := ["rules_used", "llm_rewrite_applied", "fallbacks"]

  /** `ALLOWED_TYPES`. */
  predicate AllowedType(kind: Option<string>) {
    kind == Some("paragraph") || kind == Some("bullet_list") || kind == Some("numbered_list") ||
    kind == Some("table") || kind == Some("figure")
  }

  // ---------------------------------------------------------------------------
  // `for key in (...): if <key absent>: fail(...)`

  /** The first of `keys[i..]` that `present` rejects. */
  function FirstMissing(keys: seq<string>, present: string -> bool, i: nat): (r: Option<string>)
    requires i <= |keys|
    ensures r.None? <==> forall j :: i <= j < |keys| ==> present(keys[j])
    ensures r.Some? ==>
      exists j :: i <= j < |keys| && keys[j] == r.value && !present(keys[j]) &&
        (forall l :: i <= l < j ==> present(keys[l]))
    decreases |keys| - i
  {
    if i == |keys| then None
    else if !present(keys[i]) then Some(keys[i])
    else FirstMissing(keys, present, i + 1)
  }

  /** The loop over the keys. */
  method FindMissing(keys: seq<string>, present: string -> bool) returns (r: Option<string>)
    ensures r == FirstMissing(keys, present, 0)
  {
    var i := 0;
    while i < |keys|
      invariant i <= |keys|
      invariant FirstMissing(keys, present, 0) == FirstMissing(keys, present, i)
    {
      if !present(keys[i]) {
        return Some(keys[i]);
      }
      i := i + 1;
    }
    return None;
  }

  /** `meta.get(key)` is truthy. */
  function MetaHas(m: map<string, string>): string -> bool {
    (key: string) => key in m && m[key] != ""
  }

  /** A figure block's field is neither absent nor "". */
  predicate FigureHas(b: Block, key: string) {
    if key == "figure_id" then Truthy(b.figureId)
    else if key == "caption" then Truthy(b.caption)
    else if key == "image_rel" then Truthy(b.imageRel)
    else if key == "anchor_section_id" then Truthy(b.anchorSectionId)
    else key == "order" && b.order.Some?
  }

  function FigureFields(b: Block): string -> bool {
    (key: string) => FigureHas(b, key)
  }

  /** `key in trace`. */
  predicate TraceHas(t: Trace, key: string) {
    if key == "rules_used" then t.rulesUsed.Some?
    else if key == "llm_rewrite_applied" then t.llmRewriteApplied.Some?
    else key == "fallbacks" && t.fallbacks.Some?
  }

  function TraceFields(t: Trace): string -> bool {
    (key: string) => TraceHas(t, key)
  }

  // ---------------------------------------------------------------------------
  // the rules, first failure first

  function MetaError(meta: Option<map<string, string>>): Option<Invalid> {
    if meta.None? then Some(MetaMissing)
    else
      var gap := FirstMissing(MetaKeys, MetaHas(meta.value), 0);
      if gap.Some? then Some(MetaKeyMissing(gap.value)) else None
  }

  function TraceError(trace: Option<Trace>): Option<Invalid> {
    if trace.None? then Some(TraceMissing)
    else
      var gap := FirstMissing(TraceKeys, TraceFields(trace.value), 0);
      if gap.Some? then Some(TraceKeyMissing(gap.value)) else None
  }

  /** The checks on one block, `seen` holding the ids of the blocks before it. */
  function BlockError(sid: Option<string>, b: Block, seen: set<string>): Option<Invalid> {
    if !Truthy(b.blockId) then Some(BlockIdMissing(sid))
    else
      var bid := b.blockId.value;
      if bid in seen then Some(DuplicateBlockId(bid))
      else if !AllowedType(b.kind) then Some(UnsupportedType(b.kind))
      else if (b.kind == Some("bullet_list") || b.kind == Some("numbered_list")) && b.items.None? then
        Some(ListItemsMissing(bid))
      else if b.kind == Some("table") && (b.columns.None? || b.rows.None?) then Some(TableColumnsRowsMissing(bid))
      else if b.kind == Some("figure") && FirstMissing(FigureKeys, FigureFields(b), 0).Some? then
        Some(FigureFieldMissing(bid, FirstMissing(FigureKeys, FigureFields(b), 0).value))
      else None
  }

  /** The blocks of one section from position `j`; the ids seen afterwards. */
  function BlocksCheck(sid: Option<string>, bs: seq<Block>, j: nat, seen: set<string>): Result<set<string>, Invalid>
    requires j <= |bs|
    decreases |bs| - j
  {
    if j == |bs| then Ok(seen)
    else
      var e := BlockError(sid, bs[j], seen);
      if e.Some? then Err(e.value)
      else BlocksCheck(sid, bs, j + 1, seen + {bs[j].blockId.value})
  }

  /** The checks on a section before its blocks, `expected` being its place from 1. */
  function SectionError(s: Section, expected: int): Option<Invalid> {
    if s.order != Some(expected) then Some(OrderNotContiguous(s.sectionId))
    else if !Truthy(s.sectionId) then Some(SectionIdMissing)
    else if !Truthy(s.title) then Some(TitleMissing(s.sectionId))
    else if s.blocks.None? then Some(BlocksMissing(s.sectionId))
    else None
  }

  /** The sorted sections from position `i`; the ids seen afterwards. */
  function SectionsCheck(sorted: seq<Section>, i: nat, seen: set<string>): Result<set<string>, Invalid>
    requires i <= |sorted|
    decreases |sorted| - i
  {
    if i == |sorted| then Ok(seen)
    else
      var s := sorted[i];
      var e := SectionError(s, i + 1);
      if e.Some? then Err(e.value)
      else
        var inner := BlocksCheck(s.sectionId, s.blocks.value, 0, seen);
        if inner.Err? then inner
        else SectionsCheck(sorted, i + 1, inner.value)
  }

  /** The whole validation: the number of sections and of block ids when valid. */
  function Validate(spec: Spec): Result<(nat, nat), Invalid> {
    var me := MetaError(spec.meta);
    if me.Some? then Err(me.value)
    else if spec.sections.None? || spec.sections.value == [] then Err(SectionsMissing)
    else
      var secs := spec.sections.value;
      var walked := SectionsCheck(SortedByOrder(secs), 0, {});
      if walked.Err? then Err(walked.error)
      else
        var te := TraceError(spec.trace);
        if te.Some? then Err(te.value)
        else Ok((|secs|, |walked.value|))
  }

  // ---------------------------------------------------------------------------
  // `main`, with its loops

  /** `main` after loading: the counts it prints, or the first failure. */
  method ValidateManualSpec(spec: Spec) returns (r: Result<(nat, nat), Invalid>)
    ensures r == Validate(spec)
  {
    if spec.meta.None? {
      return Err(MetaMissing);
    }
    var gap := FindMissing(MetaKeys, MetaHas(spec.meta.value));
    if gap.Some? {
      return Err(MetaKeyMissing(gap.value));
    }
    if spec.sections.None? || spec.sections.value == [] {
      return Err(SectionsMissing);
    }
    var secs := spec.sections.value;
    var sorted := SortedByOrder(secs);
    var seen: set<string> := {};
    var i := 0;
    while i < |sorted|
      invariant i <= |sorted|
      invariant SectionsCheck(sorted, 0, {}) == SectionsCheck(sorted, i, seen)
    {
      var s := sorted[i];
      var e := SectionError(s, i + 1);
      if e.Some? {
        return Err(e.value);
      }
      var inner := WalkBlocks(s.sectionId, s.blocks.value, seen);
      if inner.Err? {
        return Err(inner.error);
      }
      seen := inner.value;
      i := i + 1;
    }
    if spec.trace.None? {
      return Err(TraceMissing);
    }
    gap := FindMissing(TraceKeys, TraceFields(spec.trace.value));
    if gap.Some? {
      return Err(TraceKeyMissing(gap.value));
    }
    return Ok((|secs|, |seen|));
  }

  /** The inner loop over one section's blocks. */
  method WalkBlocks(sid: Option<string>, bs: seq<Block>, seen0: set<string>) returns (r: Result<set<string>, Invalid>)
    ensures r == BlocksCheck(sid, bs, 0, seen0)
  {
    var seen := seen0;
    var j := 0;
    while j < |bs|
      invariant j <= |bs|
      invariant BlocksCheck(sid, bs, 0, seen0) == BlocksCheck(sid, bs, j, seen)
    {
      var e := BlockError(sid, bs[j], seen);
      if e.Some? {
        return Err(e.value);
      }
      seen := seen + {bs[j].blockId.value};
      j := j + 1;
    }
    return Ok(seen);
  }

  // ---------------------------------------------------------------------------
  // what a valid spec is

  predicate MetaOk(meta: Option<map<string, string>>) {
    meta.Some? && forall j :: 0 <= j < |MetaKeys| ==> MetaKeys[j] in meta.value && meta.value[MetaKeys[j]] != ""
  }

  predicate TraceOk(trace: Option<Trace>) {
    trace.Some? && trace.value.rulesUsed.Some? && trace.value.llmRewriteApplied.Some? && trace.value.fallbacks.Some?
  }

  /** The `k`-th section in sorted order (from 1) carries order `k`, an id, a
      title and a list of blocks. */
  predicate SectionOk(s: Section, k: int) {
    s.order == Some(k) && Truthy(s.sectionId) && Truthy(s.title) && s.blocks.Some?
  }

  /** A block with an id, an allowed type, and the keys its type needs. */
  predicate BlockOk(b: Block) {
    Truthy(b.blockId) && AllowedType(b.kind) &&
    (b.kind == Some("bullet_list") || b.kind == Some("numbered_list") ==> b.items.Some?) &&
    (b.kind == Some("table") ==> b.columns.Some? && b.rows.Some?) &&
    (b.kind == Some("figure") ==>
      Truthy(b.figureId) && Truthy(b.caption) && Truthy(b.imageRel) && Truthy(b.anchorSectionId) && b.order.Some?)
  }

  /** No two blocks share an id. */
  predicate IdsDistinct(bs: seq<Block>) {
    forall i, j :: 0 <= i < j < |bs| ==> bs[i].blockId != bs[j].blockId
  }

  /** Every rule at once. */
  predicate WellFormed(spec: Spec) {
    MetaOk(spec.meta) && spec.sections.Some? && spec.sections.value != [] &&
    (var sorted := SortedByOrder(spec.sections.value);
     (forall k :: 0 <= k < |sorted| ==> SectionOk(sorted[k], k + 1)) &&
     (var bs := AllBlocks(sorted); (forall k :: 0 <= k < |bs| ==> BlockOk(bs[k])) && IdsDistinct(bs))) &&
    TraceOk(spec.trace)
  }

  // ---------------------------------------------------------------------------
  // the ids of a block list

  /** The truthy block ids of `bs`. */
  function IdSet(bs: seq<Block>): set<string>
    decreases |bs|
  {
    if bs == [] then {}
    else
      var b := bs[|bs| - 1];
      IdSet(bs[..|bs| - 1]) + (if Truthy(b.blockId) then {b.blockId.value} else {})
  }

  lemma {:induction false} IdSetHas(bs: seq<Block>, x: string)
    ensures x in IdSet(bs) <==> exists k :: 0 <= k < |bs| && Truthy(bs[k].blockId) && bs[k].blockId.value == x
    decreases |bs|
  {
    if bs != [] {
      var init := bs[..|bs| - 1];
      IdSetHas(init, x);
      if exists k :: 0 <= k < |bs| && Truthy(bs[k].blockId) && bs[k].blockId.value == x {
        var k :| 0 <= k < |bs| && Truthy(bs[k].blockId) && bs[k].blockId.value == x;
        if k < |bs| - 1 {
          assert init[k] == bs[k];
        }
      }
      if x in IdSet(init) {
        var k :| 0 <= k < |init| && Truthy(init[k].blockId) && init[k].blockId.value == x;
        assert bs[k] == init[k];
      }
    }
  }

  lemma {:induction false} IdSetAppend(a: seq<Block>, b: seq<Block>)
    ensures IdSet(a + b) == IdSet(a) + IdSet(b)
    decreases |b|
  {
    if b != [] {
      var b' := b[..|b| - 1];
      assert (a + b)[..|a + b| - 1] == a + b';
      assert (a + b)[|a + b| - 1] == b[|b| - 1];
      IdSetAppend(a, b');
    } else {
      assert a + b == a;
    }
  }

  /** Every block well formed, none of them carrying an id of `seen`, no two
      of them sharing one. */
  predicate FreshBlocks(bs: seq<Block>, seen: set<string>) {
    (forall k :: 0 <= k < |bs| ==> BlockOk(bs[k]) && bs[k].blockId.value !in seen) && IdsDistinct(bs)
  }

  /** The walk over one section's blocks accepts exactly fresh, well-formed
      blocks, and adds their ids to those seen. */
  lemma {:induction false} BlocksCheckSpec(sid: Option<string>, bs: seq<Block>, j: nat, before: seq<Block>)
    requires j <= |bs|
    ensures var r := BlocksCheck(sid, bs, j, IdSet(before));
      (r.Ok? <==> FreshBlocks(bs[j..], IdSet(before))) &&
      (r.Ok? ==> r.value == IdSet(before + bs[j..]))
    decreases |bs| - j
  {
    if j == |bs| {
      assert before + bs[j..] == before;
    } else {
      var b := bs[j];
      var seen := IdSet(before);
      var rest := bs[j + 1..];
      assert bs[j..] == [b] + rest;
      if BlockError(sid, b, seen).None? {
        assert BlockOk(b) && b.blockId.value !in seen by { BlockErrorNone(sid, b, seen); }
        var before' := before + [b];
        assert IdSet(before') == seen + {b.blockId.value} by {
          assert before'[..|before'| - 1] == before;
        }
        BlocksCheckSpec(sid, bs, j + 1, before');
        assert before' + rest == before + bs[j..];
        FreshCons(b, rest, seen);
      } else {
        BlockErrorSome(sid, b, seen);
      }
    }
  }

  lemma BlockErrorNone(sid: Option<string>, b: Block, seen: set<string>)
    requires BlockError(sid, b, seen).None?
    ensures BlockOk(b) && b.blockId.value !in seen
  {
    assert FirstMissing(FigureKeys, FigureFields(b), 0).None? ==>
      forall j :: 0 <= j < |FigureKeys| ==> FigureHas(b, FigureKeys[j]);
    if b.kind == Some("figure") {
      assert FigureHas(b, FigureKeys[0]) && FigureHas(b, FigureKeys[1]) && FigureHas(b, FigureKeys[2]);
      assert FigureHas(b, FigureKeys[3]) && FigureHas(b, FigureKeys[4]);
    }
  }

  lemma BlockErrorSome(sid: Option<string>, b: Block, seen: set<string>)
    requires BlockError(sid, b, seen).Some?
    ensures !(BlockOk(b) && b.blockId.value !in seen)
  {
    if BlockOk(b) && b.kind == Some("figure") {
      assert forall j :: 0 <= j < |FigureKeys| ==> FigureHas(b, FigureKeys[j]);
    }
  }

  lemma FreshCons(b: Block, rest: seq<Block>, seen: set<string>)
    requires BlockOk(b) && b.blockId.value !in seen
    ensures FreshBlocks([b] + rest, seen) <==> FreshBlocks(rest, seen + {b.blockId.value})
  {
    var bs := [b] + rest;
    if FreshBlocks(rest, seen + {b.blockId.value}) {
      forall i, j | 0 <= i < j < |bs|
        ensures bs[i].blockId != bs[j].blockId
      {
        if i > 0 {
          assert bs[i] == rest[i - 1] && bs[j] == rest[j - 1];
        } else {
          assert bs[j] == rest[j - 1];
        }
      }
    }
    if FreshBlocks(bs, seen) {
      forall k | 0 <= k < |rest|
        ensures BlockOk(rest[k]) && rest[k].blockId.value !in seen + {b.blockId.value}
      {
        assert rest[k] == bs[k + 1];
        assert bs[0].blockId != bs[k + 1].blockId;
      }
      forall i, j | 0 <= i < j < |rest|
        ensures rest[i].blockId != rest[j].blockId
      {
        assert rest[i] == bs[i + 1] && rest[j] == bs[j + 1];
      }
    }
  }

  /** Splitting a block list splits the freshness of its parts: the first
      part against `seen`, the second against `seen` and the first's ids. */
  lemma FreshAppendSplit(x: seq<Block>, y: seq<Block>, seen: set<string>)
    requires FreshBlocks(x + y, seen)
    ensures FreshBlocks(x, seen) && FreshBlocks(y, seen + IdSet(x))
  {
    var xy := x + y;
    forall i, j | 0 <= i < j < |x|
      ensures x[i].blockId != x[j].blockId
    {
      assert x[i] == xy[i] && x[j] == xy[j];
    }
    forall k | 0 <= k < |x|
      ensures BlockOk(x[k]) && x[k].blockId.value !in seen
    {
      assert x[k] == xy[k];
    }
    forall k | 0 <= k < |y|
      ensures BlockOk(y[k]) && y[k].blockId.value !in seen + IdSet(x)
    {
      assert y[k] == xy[|x| + k];
      forall i | 0 <= i < |x|
        ensures !(Truthy(x[i].blockId) && x[i].blockId.value == y[k].blockId.value)
      {
        assert x[i] == xy[i];
      }
      IdSetHas(x, y[k].blockId.value);
    }
    forall i, j | 0 <= i < j < |y|
      ensures y[i].blockId != y[j].blockId
    {
      assert y[i] == xy[|x| + i] && y[j] == xy[|x| + j];
    }
  }

  lemma FreshAppendJoin(x: seq<Block>, y: seq<Block>, seen: set<string>)
    requires FreshBlocks(x, seen) && FreshBlocks(y, seen + IdSet(x))
    ensures FreshBlocks(x + y, seen)
  {
    var xy := x + y;
    forall k | 0 <= k < |xy|
      ensures BlockOk(xy[k]) && xy[k].blockId.value !in seen
    {
      if k < |x| { assert xy[k] == x[k]; } else { assert xy[k] == y[k - |x|]; }
    }
    forall i, j | 0 <= i < j < |xy|
      ensures xy[i].blockId != xy[j].blockId
    {
      if j < |x| {
        assert xy[i] == x[i] && xy[j] == x[j];
      } else if i >= |x| {
        assert xy[i] == y[i - |x|] && xy[j] == y[j - |x|];
      } else {
        assert xy[i] == x[i] && xy[j] == y[j - |x|];
        IdSetHas(x, x[i].blockId.value);
      }
    }
  }

  /** The blocks of a list of sections: the first section's, then the rest's. */
  lemma {:induction false} AllBlocksCons(secs: seq<Section>)
    requires secs != []
    ensures AllBlocks(secs) == secs[0].blocks.GetOr([]) + AllBlocks(secs[1..])
    decreases |secs|
  {
    if |secs| == 1 {
      assert secs[..0] == [] && secs[1..] == [];
    } else {
      var init := secs[..|secs| - 1];
      AllBlocksCons(init);
      assert secs[1..][..|secs| - 2] == init[1..];
      assert secs[1..][|secs| - 2] == secs[|secs| - 1];
    }
  }

  /** The walk over the sorted sections from `i` accepts exactly sections
      in place with fresh, well-formed blocks, and adds their ids. */
  lemma {:induction false} SectionsCheckSpec(sorted: seq<Section>, i: nat, before: seq<Block>)
    requires i <= |sorted|
    ensures var r := SectionsCheck(sorted, i, IdSet(before));
      (r.Ok? <==>
        (forall k :: i <= k < |sorted| ==> SectionOk(sorted[k], k + 1)) &&
        FreshBlocks(AllBlocks(sorted[i..]), IdSet(before))) &&
      (r.Ok? ==> r.value == IdSet(before + AllBlocks(sorted[i..])))
    decreases |sorted| - i
  {
    if i == |sorted| {
      assert sorted[i..] == [];
      assert before + [] == before;
    } else {
      var s := sorted[i];
      var rest := AllBlocks(sorted[i + 1..]);
      AllBlocksCons(sorted[i..]);
      assert sorted[i..][1..] == sorted[i + 1..];
      if SectionError(s, i + 1).None? {
        var bs := s.blocks.value;
        assert AllBlocks(sorted[i..]) == bs + rest;
        BlocksCheckSpec(s.sectionId, bs, 0, before);
        assert bs[0..] == bs;
        var before' := before + bs;
        IdSetAppend(before, bs);
        if FreshBlocks(bs + rest, IdSet(before)) {
          FreshAppendSplit(bs, rest, IdSet(before));
        }
        if FreshBlocks(bs, IdSet(before)) {
          SectionsCheckSpec(sorted, i + 1, before');
          if FreshBlocks(rest, IdSet(before')) {
            FreshAppendJoin(bs, rest, IdSet(before));
          }
          assert before' + rest == before + (bs + rest);
        }
      }
    }
  }

  /** Distinct ids are as many as the blocks. */
  lemma {:induction false} IdSetSize(bs: seq<Block>)
    requires FreshBlocks(bs, {})
    ensures |IdSet(bs)| == |bs|
    decreases |bs|
  {
    if bs != [] {
      var init := bs[..|bs| - 1];
      var last := bs[|bs| - 1];
      assert init + [last] == bs;
      FreshAppendSplit(init, [last], {});
      IdSetSize(init);
      forall k | 0 <= k < |init|
        ensures !(Truthy(init[k].blockId) && init[k].blockId.value == last.blockId.value)
      {
        assert bs[k] == init[k];
      }
      IdSetHas(init, last.blockId.value);
    }
  }

  lemma MetaErrorSpec(meta: Option<map<string, string>>)
    ensures MetaError(meta).None? <==> MetaOk(meta)
  {
  }

  lemma TraceErrorSpec(trace: Option<Trace>)
    ensures TraceError(trace).None? <==> TraceOk(trace)
  {
    if trace.Some? {
      var f := TraceFields(trace.value);
      assert TraceOk(trace) <==> f(TraceKeys[0]) && f(TraceKeys[1]) && f(TraceKeys[2]);
    }
  }

  /** The walk over all sorted sections accepts exactly sections in place
      whose blocks are well formed with distinct ids, and collects one id
      per block. */
  lemma WalkSpec(sorted: seq<Section>)
    ensures var r := SectionsCheck(sorted, 0, {});
      var bs := AllBlocks(sorted);
      (r.Ok? <==>
        (forall k :: 0 <= k < |sorted| ==> SectionOk(sorted[k], k + 1)) &&
        (forall k :: 0 <= k < |bs| ==> BlockOk(bs[k])) && IdsDistinct(bs)) &&
      (r.Ok? ==> |r.value| == |bs|)
  {
    var bs := AllBlocks(sorted);
    SectionsCheckSpec(sorted, 0, []);
    assert sorted[0..] == sorted;
    assert [] + bs == bs;
    assert FreshBlocks(bs, {}) <==> (forall k :: 0 <= k < |bs| ==> BlockOk(bs[k])) && IdsDistinct(bs);
    if FreshBlocks(bs, {}) {
      IdSetSize(bs);
    }
  }

  /** A spec passes exactly when it meets every rule; it then reports its
      number of sections and of blocks. */
  lemma ValidateExact(spec: Spec)
    ensures Validate(spec).Ok? <==> WellFormed(spec)
    ensures Validate(spec).Ok? ==>
      Validate(spec).value == (|spec.sections.value|, |AllBlocks(SortedByOrder(spec.sections.value))|)
  {
    MetaErrorSpec(spec.meta);
    TraceErrorSpec(spec.trace);
    if spec.sections.Some? && spec.sections.value != [] {
      WalkSpec(SortedByOrder(spec.sections.value));
    }
  }

  /** In a valid spec the "order" keys of the sections, in any order, are
      exactly 1, 2, ..., n. */
  lemma ValidOrdersArePermutation(spec: Spec)
    requires WellFormed(spec)
    ensures var secs := spec.sections.value;
      (forall j :: 0 <= j < |secs| ==> secs[j].order.Some? && 1 <= secs[j].order.value <= |secs|) &&
      (forall k :: 1 <= k <= |secs| ==> exists j :: 0 <= j < |secs| && secs[j].order == Some(k))
  {
    var secs := spec.sections.value;
    var sorted := SortedByOrder(secs);
    var idx := StableOrder(Keys(secs), |secs|);
    SortedByOrderSpec(secs);
    forall j | 0 <= j < |secs|
      ensures secs[j].order.Some? && 1 <= secs[j].order.value <= |secs|
    {
      assert j in idx;
      var k :| 0 <= k < |idx| && idx[k] == j;
      assert SectionOk(sorted[k], k + 1);
    }
    forall k | 1 <= k <= |secs|
      ensures exists j :: 0 <= j < |secs| && secs[j].order == Some(k)
    {
      assert SectionOk(sorted[k - 1], k);
      assert secs[idx[k - 1]] == sorted[k - 1];
    }
  }

  /** The meta object is checked first: a bad one is reported whatever the
      rest of the spec holds. */
  lemma MetaCheckedFirst(spec: Spec)
    requires !MetaOk(spec.meta)
    ensures Validate(spec).Err? && (Validate(spec).error.MetaMissing? || Validate(spec).error.MetaKeyMissing?)
  {
    MetaErrorSpec(spec.meta);
  }

  /** The trace object is checked last: when it is what fails, the same spec
      with any complete trace passes. */
  lemma TraceCheckedLast(spec: Spec, t: Trace)
    requires Validate(spec).Err? && (Validate(spec).error.TraceMissing? || Validate(spec).error.TraceKeyMissing?)
    requires TraceOk(Some(t))
    ensures WellFormed(spec.(trace := Some(t)))
  {
    var spec' := spec.(trace := Some(t));
    TraceErrorSpec(Some(t));
    if spec.sections.Some? && spec.sections.value != [] {
      WalkErrorNotTrace(SortedByOrder(spec.sections.value), 0, {});
    }
    assert Validate(spec').Ok?;
    ValidateExact(spec');
  }

  lemma {:induction false} WalkErrorNotTrace(sorted: seq<Section>, i: nat, seen: set<string>)
    requires i <= |sorted|
    ensures var r := SectionsCheck(sorted, i, seen);
      r.Err? ==> !r.error.TraceMissing? && !r.error.TraceKeyMissing?
    decreases |sorted| - i
  {
    if i < |sorted| && SectionError(sorted[i], i + 1).None? {
      var s := sorted[i];
      BlocksErrorNotTrace(s.sectionId, s.blocks.value, 0, seen);
      var inner := BlocksCheck(s.sectionId, s.blocks.value, 0, seen);
      if inner.Ok? {
        WalkErrorNotTrace(sorted, i + 1, inner.value);
      }
    }
  }

  lemma {:induction false} BlocksErrorNotTrace(sid: Option<string>, bs: seq<Block>, j: nat, seen: set<string>)
    requires j <= |bs|
    ensures var r := BlocksCheck(sid, bs, j, seen);
      r.Err? ==> !r.error.TraceMissing? && !r.error.TraceKeyMissing?
    decreases |bs| - j
  {
    if j < |bs| && BlockError(sid, bs[j], seen).None? {
      BlocksErrorNotTrace(sid, bs, j + 1, seen + {bs[j].blockId.value});
    }
  }
}
