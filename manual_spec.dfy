/** The manual spec (`manual_spec.json`) and the capture manifest, as the
    pipeline stages read them: every key of a JSON object is an `Option`,
    `None` standing for a key that is absent. */
module ManualSpec {
  import opened Wrappers

  /** One content block of a section. Which fields matter depends on `kind`
      (the JSON key "type"). */
  datatype Block = Block(
    blockId: Option<string>,
    kind: Option<string>,
    text: Option<string>,
    items: Option<seq<string>>,
    tableId: Option<string>,
    columns: Option<seq<string>>,
    rows: Option<seq<seq<string>>>,
    figureId: Option<string>,
    caption: Option<string>,
    imageRel: Option<string>,
    anchorSectionId: Option<string>,
    order: Option<int>)

  /** A block with only an id and a type set (`make_block` before its extra keys). */
  function BareBlock(id: string, kind: string): (b: Block)
    ensures b.blockId == Some(id) && b.kind == Some(kind)
  {
    Block(Some(id), Some(kind), None, None, None, None, None, None, None, None, None, None)
  }

  datatype Section = Section(
    sectionId: Option<string>,
    title: Option<string>,
    level: Option<int>,
    order: Option<int>,
    blocks: Option<seq<Block>>)

  /** The "trace" object. Build writes a list that may hold `null`s into
      "fallbacks", hence `Option<string>` items. */
  datatype Trace = Trace(
    rulesUsed: Option<seq<string>>,
    llmRewriteApplied: Option<bool>,
    fallbacks: Option<seq<Option<string>>>,
    removedFigures: Option<seq<string>>)

  datatype Spec = Spec(
    meta: Option<map<string, string>>,
    sections: Option<seq<Section>>,
    trace: Option<Trace>)

  /** One scene of the capture manifest. */
  datatype Scene = Scene(
    figureId: Option<string>,
    imageRel: Option<string>,
    caption: Option<string>,
    sceneType: Option<string>,
    degraded: bool)

  /** The columns a table without "columns" (or with an empty list) gets. */
  const DefaultColumns: seq<string> := ["Column 1", "Column 2", "Column 3"]

  /** Python truthiness of an optional string: present and not empty. */
  predicate Truthy(s: Option<string>) {
    s.Some? && s.value != []
  }

  // ---------------------------------------------------------------------------
  // Every block of every section, and lookups by id where a later block wins.

  /** The blocks of the sections in order, a section without "blocks" adding none. */
  function AllBlocks(sections: seq<Section>): (r: seq<Block>)
    decreases |sections|
  {
    if sections == [] then []
    else AllBlocks(sections[..|sections| - 1]) + sections[|sections| - 1].blocks.GetOr([])
  }

  /** A dict built by `d[key(b)] = b` over `bs`, skipping blocks with a falsy key. */
  function IndexBy(bs: seq<Block>, key: Block -> Option<string>): (m: map<string, Block>)
    decreases |bs|
  {
    if bs == [] then map[]
    else
      var b := bs[|bs| - 1];
      var m := IndexBy(bs[..|bs| - 1], key);
      if Truthy(key(b)) then m[key(b).value := b] else m
  }

  /** The last of `bs` whose key is `k`, if any. */
  function LastKeyed(bs: seq<Block>, key: Block -> Option<string>, k: string): (r: Option<nat>)
    ensures r.Some? ==> r.value < |bs| && key(bs[r.value]) == Some(k)
    ensures r.Some? ==> forall j :: r.value < j < |bs| ==> key(bs[j]) != Some(k)
    ensures r.None? ==> forall j :: 0 <= j < |bs| ==> key(bs[j]) != Some(k)
    decreases |bs|
  {
    if bs == [] then None
    else if key(bs[|bs| - 1]) == Some(k) then Some(|bs| - 1)
    else LastKeyed(bs[..|bs| - 1], key, k)
  }

  /** A lookup finds the last block carrying that key, and nothing when no
      block carries it. */
  lemma {:induction false} IndexByLast(bs: seq<Block>, key: Block -> Option<string>, k: string)
    requires k != []
    ensures k in IndexBy(bs, key) <==> LastKeyed(bs, key, k).Some?
    ensures k in IndexBy(bs, key) ==> IndexBy(bs, key)[k] == bs[LastKeyed(bs, key, k).value]
    decreases |bs|
  {
    if bs != [] {
      IndexByLast(bs[..|bs| - 1], key, k);
    }
  }

  /** The nested loop that fills such a dict, section by section. */
  method BuildIndex(sections: seq<Section>, key: Block -> Option<string>) returns (m: map<string, Block>)
    ensures m == IndexBy(AllBlocks(sections), key)
  {
    m := map[];
    for i := 0 to |sections|
      invariant m == IndexBy(AllBlocks(sections[..i]), key)
    {
      m := IndexMore(m, sections[i].blocks.GetOr([]), key, AllBlocks(sections[..i]));
      assert sections[..i + 1][..i] == sections[..i];
    }
    assert sections[..|sections|] == sections;
  }

  /** The inner loop: the blocks of one more section. */
  method IndexMore(m0: map<string, Block>, blocks: seq<Block>, key: Block -> Option<string>, ghost before: seq<Block>)
    returns (m: map<string, Block>)
    requires m0 == IndexBy(before, key)
    ensures m == IndexBy(before + blocks, key)
  {
    m := m0;
    assert before + blocks[..0] == before;
    for j := 0 to |blocks|
      invariant m == IndexBy(before + blocks[..j], key)
    {
      var b := blocks[j];
      assert (before + blocks[..j + 1])[..|before + blocks[..j]|] == before + blocks[..j];
      if Truthy(key(b)) {
        m := m[key(b).value := b];
      }
    }
    assert blocks[..|blocks|] == blocks;
  }

  function BlockIdOf(b: Block): Option<string> { b.blockId }

  /** `block_map` of the docx token reconciler: blocks by truthy "block_id". */
  function BlockMap(sections: seq<Section>): map<string, Block> {
    IndexBy(AllBlocks(sections), BlockIdOf)
  }

  /** The key of `figure_map` in the image embedder: "figure_id" of figure blocks. */
  function FigureKey(b: Block): Option<string> {
    if b.kind == Some("figure") then b.figureId else None
  }

  function FigureMap(sections: seq<Section>): map<string, Block> {
    IndexBy(AllBlocks(sections), FigureKey)
  }

  // ---------------------------------------------------------------------------
  // `sorted(sections, key=lambda s: s.get("order", 9999))`

  function OrderKey(s: Section): int {
    s.order.GetOr(9999)
  }

  /** Position `a` comes before position `b` in a stable sort by `keys`. */
  predicate Before(keys: seq<int>, a: nat, b: nat)
    requires a < |keys| && b < |keys|
  {
    keys[a] < keys[b] || (keys[a] == keys[b] && a < b)
  }

  /** `idx` lists positions of `keys` in strictly increasing stable order. */
  predicate Chain(keys: seq<int>, idx: seq<nat>) {
    (forall k :: 0 <= k < |idx| ==> idx[k] < |keys|) &&
    (forall k :: 0 <= k < |idx| - 1 ==> InOrderAt(keys, idx, k))
  }

  predicate InOrderAt(keys: seq<int>, idx: seq<nat>, k: nat)
    requires k < |idx| - 1
  {
    idx[k] < |keys| && idx[k + 1] < |keys| && Before(keys, idx[k], idx[k + 1])
  }

  /** `x` inserted into the stable order `s`. */
  function InsertStable(keys: seq<int>, x: nat, s: seq<nat>): (r: seq<nat>)
    requires x < |keys| && Chain(keys, s) && x !in s
    ensures |r| == |s| + 1
    ensures forall y: nat :: y in r <==> y == x || y in s
    ensures Chain(keys, r)
    ensures r != [] && (r[0] == x || (s != [] && r[0] == s[0]))
    decreases |s|
  {
    if s == [] then [x]
    else if Before(keys, x, s[0]) then ChainCons(keys, x, s); [x] + s
    else
      ChainTail(keys, s);
      var t := InsertStable(keys, x, s[1..]);
      assert s[0] in s;
      assert Before(keys, s[0], t[0]) by {
        if t[0] != x { assert InOrderAt(keys, s, 0); }
      }
      ChainCons(keys, s[0], t);
      [s[0]] + t
  }

  lemma ChainTail(keys: seq<int>, s: seq<nat>)
    requires Chain(keys, s) && s != []
    ensures Chain(keys, s[1..])
  {
    forall k | 0 <= k < |s| - 2
      ensures InOrderAt(keys, s[1..], k)
    {
      assert InOrderAt(keys, s, k + 1);
    }
  }

  /** A position ahead of a chain's head extends it. */
  lemma ChainCons(keys: seq<int>, a: nat, t: seq<nat>)
    requires a < |keys| && Chain(keys, t)
    requires t != [] ==> t[0] < |keys| && Before(keys, a, t[0])
    ensures Chain(keys, [a] + t)
  {
    var r := [a] + t;
    forall k | 0 <= k < |r| - 1
      ensures InOrderAt(keys, r, k)
    {
      if k > 0 { assert InOrderAt(keys, t, k - 1); }
    }
  }

  /** Insertion sort of the positions `0..n-1`. */
  function StableOrder(keys: seq<int>, n: nat): (r: seq<nat>)
    requires n <= |keys|
    ensures |r| == n && Chain(keys, r)
    ensures forall y: nat :: y in r <==> y < n
  {
    if n == 0 then [] else InsertStable(keys, n - 1, StableOrder(keys, n - 1))
  }

  function Keys(secs: seq<Section>): (r: seq<int>)
    ensures |r| == |secs| && forall i :: 0 <= i < |secs| ==> r[i] == OrderKey(secs[i])
  {
    seq(|secs|, i requires 0 <= i < |secs| => OrderKey(secs[i]))
  }

  /** Python's `sorted` by "order" (9999 when absent): a stable sort. */
  function SortedByOrder(secs: seq<Section>): (r: seq<Section>)
    ensures |r| == |secs|
  {
    var idx := StableOrder(Keys(secs), |secs|);
    seq(|secs|, k requires 0 <= k < |secs| => secs[idx[k]])
  }

  /** The sorted list is the sections at a permutation of their positions,
      ordered by key, equal keys keeping their original relative order. */
  lemma SortedByOrderSpec(secs: seq<Section>)
    ensures var idx := StableOrder(Keys(secs), |secs|);
      (forall k :: 0 <= k < |secs| ==> idx[k] < |secs| && SortedByOrder(secs)[k] == secs[idx[k]]) &&
      (forall i :: 0 <= i < |secs| ==> i in idx) &&
      (forall k :: 0 <= k < |secs| - 1 ==>
        OrderKey(secs[idx[k]]) < OrderKey(secs[idx[k + 1]]) ||
        (OrderKey(secs[idx[k]]) == OrderKey(secs[idx[k + 1]]) && idx[k] < idx[k + 1]))
  {
    var idx := StableOrder(Keys(secs), |secs|);
    forall k | 0 <= k < |secs| - 1
      ensures OrderKey(secs[idx[k]]) < OrderKey(secs[idx[k + 1]]) ||
        (OrderKey(secs[idx[k]]) == OrderKey(secs[idx[k + 1]]) && idx[k] < idx[k + 1])
    {
      assert InOrderAt(Keys(secs), idx, k);
    }
  }
}
