/** `merge_capture_manifest.py`: the scenes a capture run produced are merged
    into the figure blocks of a manual spec. A figure block whose scene is
    missing, or whose image file is missing, is dropped and its id recorded;
    a kept one takes the scene's image and caption. Degraded scenes are added
    to the trace's fallbacks. */
module MergeManifest {
  import opened Wrappers
  import opened ManualSpec

  // ---------------------------------------------------------------------------
  // `by_figure`: scenes by truthy "figure_id", a later scene winning

  function SceneIndex(scenes: seq<Scene>): map<string, Scene>
    decreases |scenes|
  {
    if scenes == [] then map[]
    else
      var s := scenes[|scenes| - 1];
      var m := SceneIndex(scenes[..|scenes| - 1]);
      if Truthy(s.figureId) then m[s.figureId.value := s] else m
  }

  /** The last scene whose "figure_id" is `id`, if any. */
  function LastScene(scenes: seq<Scene>, id: string): (r: Option<nat>)
    ensures r.Some? ==> r.value < |scenes| && scenes[r.value].figureId == Some(id)
    ensures r.Some? ==> forall j :: r.value < j < |scenes| ==> scenes[j].figureId != Some(id)
    ensures r.None? ==> forall j :: 0 <= j < |scenes| ==> scenes[j].figureId != Some(id)
    decreases |scenes|
  {
    if scenes == [] then None
    else if scenes[|scenes| - 1].figureId == Some(id) then Some(|scenes| - 1)
    else LastScene(scenes[..|scenes| - 1], id)
  }

  /** A lookup finds the last scene with that id, and nothing when no scene
      carries it. */
  lemma {:induction false} SceneIndexLast(scenes: seq<Scene>, id: string)
    requires id != []
    ensures id in SceneIndex(scenes) <==> LastScene(scenes, id).Some?
    ensures id in SceneIndex(scenes) ==> SceneIndex(scenes)[id] == scenes[LastScene(scenes, id).value]
    decreases |scenes|
  {
    if scenes != [] {
      SceneIndexLast(scenes[..|scenes| - 1], id);
    }
  }

  /** The dict comprehension, as the loop that fills it. */
  method BuildSceneIndex(scenes: seq<Scene>) returns (m: map<string, Scene>)
    ensures m == SceneIndex(scenes)
  {
    m := map[];
    for i := 0 to |scenes|
      invariant m == SceneIndex(scenes[..i])
    {
      var s := scenes[i];
      assert scenes[..i + 1][..i] == scenes[..i];
      if Truthy(s.figureId) {
        m := m[s.figureId.value := s];
      }
    }
    assert scenes[..|scenes|] == scenes;
  }

  // ---------------------------------------------------------------------------
  // one block

  /** What becomes of a block: kept (possibly updated) or dropped under an id. */
  datatype Fate = Keep(block: Block) | Drop(id: string)

  /** `scene.get("image_rel") or block.get("image_rel", "")`. */
  function ImageRel(scene: Scene, b: Block): string {
    if Truthy(scene.imageRel) then scene.imageRel.value else b.imageRel.GetOr("")
  }

  /** `scene.get("caption", block.get("caption", ""))`. */
  function Caption(scene: Scene, b: Block): string {
    if scene.caption.Some? then scene.caption.value else b.caption.GetOr("")
  }

  /** `fig_id or "unknown"`. */
  function RemovedId(b: Block): string {
    if Truthy(b.figureId) then b.figureId.value else "unknown"
  }

  /** The fate of one block. `rootSet` says whether an images root was given;
      `present` says whether the image file the block would use is there. */
  function BlockFate(b: Block, byFig: map<string, Scene>, rootSet: bool, present: string -> bool): Fate {
    if b.kind != Some("figure") then Keep(b)
    else if !Truthy(b.figureId) || b.figureId.value !in byFig then Drop(RemovedId(b))
    else
      var scene := byFig[b.figureId.value];
      var rel := ImageRel(scene, b);
      if rootSet && rel != "" && !present(rel) then Drop(RemovedId(b))
      else Keep(b.(imageRel := Some(rel), caption := Some(Caption(scene, b))))
  }

  /** The blocks kept so far and the ids removed so far. */
  datatype Merged = Merged(kept: seq<Block>, removed: seq<string>)

  /** The inner loop over one section's blocks. */
  function MergeBlocks(bs: seq<Block>, byFig: map<string, Scene>, rootSet: bool, present: string -> bool): Merged
    decreases |bs|
  {
    if bs == [] then Merged([], [])
    else
      var m := MergeBlocks(bs[..|bs| - 1], byFig, rootSet, present);
      match BlockFate(bs[|bs| - 1], byFig, rootSet, present)
      case Keep(b) => Merged(m.kept + [b], m.removed)
      case Drop(id) => Merged(m.kept, m.removed + [id])
  }

  /** The sections with their blocks rebuilt, and every id removed, in order. */
  datatype MergedSections = MergedSections(sections: seq<Section>, removed: seq<string>)

  function MergeSections(secs: seq<Section>, byFig: map<string, Scene>, rootSet: bool, present: string -> bool): MergedSections
    decreases |secs|
  {
    if secs == [] then MergedSections([], [])
    else
      var m := MergeSections(secs[..|secs| - 1], byFig, rootSet, present);
      var s := secs[|secs| - 1];
      var mb := MergeBlocks(s.blocks.GetOr([]), byFig, rootSet, present);
      MergedSections(m.sections + [s.(blocks := Some(mb.kept))], m.removed + mb.removed)
  }

  /** The fallbacks after the loop over the scenes: a degraded scene's id is
      appended unless already there. */
  function AddFallbacks(fallbacks: seq<Option<string>>, scenes: seq<Scene>): seq<Option<string>>
    decreases |scenes|
  {
    if scenes == [] then fallbacks
    else
      var f := AddFallbacks(fallbacks, scenes[..|scenes| - 1]);
      var s := scenes[|scenes| - 1];
      if s.degraded && Truthy(s.figureId) && s.figureId !in f then f + [s.figureId] else f
  }

  const EmptyTrace := Trace(None, None, None, None)

  /** The whole merge. */
  function MergeSpec(spec: Spec, scenes: seq<Scene>, rootSet: bool, present: string -> bool): Spec {
    var m := MergeSections(spec.sections.GetOr([]), SceneIndex(scenes), rootSet, present);
    var trace := spec.trace.GetOr(EmptyTrace);
    var fallbacks := AddFallbacks(trace.fallbacks.GetOr([]), scenes);
    spec.(sections := if spec.sections.Some? then Some(m.sections) else None,
          trace := Some(trace.(fallbacks := Some(fallbacks), removedFigures := Some(m.removed))))
  }

  // ---------------------------------------------------------------------------
  // `main`, with its loops

  /** `main` after loading the spec and the manifest's scenes. */
  method MergeCaptureManifest(spec: Spec, scenes: seq<Scene>, rootSet: bool, present: string -> bool)
    returns (out: Spec, removedCount: nat)
    ensures out == MergeSpec(spec, scenes, rootSet, present)
    ensures out.trace.Some? && out.trace.value.removedFigures.Some? &&
      removedCount == |out.trace.value.removedFigures.value|
  {
    var byFig := BuildSceneIndex(scenes);
    var secs := spec.sections.GetOr([]);
    var newSecs: seq<Section> := [];
    var removed: seq<string> := [];
    for i := 0 to |secs|
      invariant MergedSections(newSecs, removed) == MergeSections(secs[..i], byFig, rootSet, present)
    {
      var mb := MergeSectionBlocks(secs[i].blocks.GetOr([]), byFig, rootSet, present);
      assert secs[..i + 1][..i] == secs[..i];
      newSecs := newSecs + [secs[i].(blocks := Some(mb.kept))];
      removed := removed + mb.removed;
    }
    assert secs[..|secs|] == secs;
    var trace := spec.trace.GetOr(EmptyTrace);
    var fallbacks := trace.fallbacks.GetOr([]);
    ghost var f0 := fallbacks;
    for i := 0 to |scenes|
      invariant fallbacks == AddFallbacks(f0, scenes[..i])
    {
      var s := scenes[i];
      assert scenes[..i + 1][..i] == scenes[..i];
      if s.degraded && Truthy(s.figureId) && s.figureId !in fallbacks {
        fallbacks := fallbacks + [s.figureId];
      }
    }
    assert scenes[..|scenes|] == scenes;
    out := spec.(sections := if spec.sections.Some? then Some(newSecs) else None,
                 trace := Some(trace.(fallbacks := Some(fallbacks), removedFigures := Some(removed))));
    removedCount := |removed|;
  }

  /** The loop over one section's blocks. */
  method MergeSectionBlocks(bs: seq<Block>, byFig: map<string, Scene>, rootSet: bool, present: string -> bool)
    returns (m: Merged)
    ensures m == MergeBlocks(bs, byFig, rootSet, present)
  {
    var kept: seq<Block> := [];
    var removed: seq<string> := [];
    for j := 0 to |bs|
      invariant Merged(kept, removed) == MergeBlocks(bs[..j], byFig, rootSet, present)
    {
      var b := bs[j];
      assert bs[..j + 1][..j] == bs[..j];
      var fate := BlockFate(b, byFig, rootSet, present);
      match fate {
        case Keep(nb) => kept := kept + [nb];
        case Drop(id) => removed := removed + [id];
      }
    }
    assert bs[..|bs|] == bs;
    m := Merged(kept, removed);
  }

  // ---------------------------------------------------------------------------
  // properties

  predicate IsFigure(b: Block) {
    b.kind == Some("figure")
  }

  /** A block with the two fields the merge may set cleared. */
  function Erase(b: Block): Block {
    b.(imageRel := None, caption := None)
  }

  /** The blocks that are not figures, in order. */
  function NonFigures(bs: seq<Block>): seq<Block>
    decreases |bs|
  {
    if bs == [] then []
    else NonFigures(bs[..|bs| - 1]) + (if IsFigure(bs[|bs| - 1]) then [] else [bs[|bs| - 1]])
  }

  /** A block is dropped exactly when it is a figure without a scene, or one
      whose image is missing under the images root; the id recorded is its
      "figure_id", or "unknown" when that is empty. A kept block differs from
      its input at most in "image_rel" and "caption". */
  lemma BlockFateSpec(b: Block, byFig: map<string, Scene>, rootSet: bool, present: string -> bool)
    ensures var f := BlockFate(b, byFig, rootSet, present);
      (f.Drop? <==>
        IsFigure(b) &&
        (!Truthy(b.figureId) || b.figureId.value !in byFig ||
         (rootSet && ImageRel(byFig[b.figureId.value], b) != "" &&
          !present(ImageRel(byFig[b.figureId.value], b))))) &&
      (f.Drop? ==> f.id == (if Truthy(b.figureId) then b.figureId.value else "unknown") && f.id != []) &&
      (f.Keep? ==> Erase(f.block) == Erase(b)) &&
      (f.Keep? && !IsFigure(b) ==> f.block == b)
  {
  }

  /** Every block either stays or leaves an id behind. */
  lemma {:induction false} MergeBlocksCount(bs: seq<Block>, byFig: map<string, Scene>, rootSet: bool, present: string -> bool)
    ensures var m := MergeBlocks(bs, byFig, rootSet, present);
      |m.kept| + |m.removed| == |bs|
    decreases |bs|
  {
    if bs != [] {
      MergeBlocksCount(bs[..|bs| - 1], byFig, rootSet, present);
    }
  }

  /** The blocks that are not figures come through untouched and in order. */
  lemma {:induction false} MergeKeepsNonFigures(bs: seq<Block>, byFig: map<string, Scene>, rootSet: bool, present: string -> bool)
    ensures NonFigures(MergeBlocks(bs, byFig, rootSet, present).kept) == NonFigures(bs)
    decreases |bs|
  {
    if bs != [] {
      var init := bs[..|bs| - 1];
      var m := MergeBlocks(init, byFig, rootSet, present);
      MergeKeepsNonFigures(init, byFig, rootSet, present);
      match BlockFate(bs[|bs| - 1], byFig, rootSet, present)
      case Keep(b) =>
        assert (m.kept + [b])[..|m.kept|] == m.kept;
      case Drop(_) =>
    }
  }

  /** A figure left after the merge has a scene, an image path and a caption,
      and under an images root its image is there. */
  predicate FigureResolved(b: Block, byFig: map<string, Scene>, rootSet: bool, present: string -> bool) {
    IsFigure(b) ==>
      Truthy(b.figureId) && b.figureId.value in byFig &&
      b.imageRel.Some? && b.caption.Some? &&
      (rootSet && b.imageRel.value != "" ==> present(b.imageRel.value))
  }

  predicate AllResolved(bs: seq<Block>, byFig: map<string, Scene>, rootSet: bool, present: string -> bool) {
    forall k :: 0 <= k < |bs| ==> FigureResolved(bs[k], byFig, rootSet, present)
  }

  lemma {:induction false} MergeResolvesFigures(bs: seq<Block>, byFig: map<string, Scene>, rootSet: bool, present: string -> bool)
    ensures AllResolved(MergeBlocks(bs, byFig, rootSet, present).kept, byFig, rootSet, present)
    decreases |bs|
  {
    if bs != [] {
      MergeResolvesFigures(bs[..|bs| - 1], byFig, rootSet, present);
      var m := MergeBlocks(bs[..|bs| - 1], byFig, rootSet, present);
      match BlockFate(bs[|bs| - 1], byFig, rootSet, present)
      case Keep(b) =>
        var kept := m.kept + [b];
        assert FigureResolved(b, byFig, rootSet, present);
        forall k | 0 <= k < |kept|
          ensures FigureResolved(kept[k], byFig, rootSet, present)
        {
          if k < |m.kept| { assert kept[k] == m.kept[k]; }
        }
      case Drop(_) =>
    }
  }

  /** The positions of `bs` whose blocks are kept. */
  ghost function KeptFrom(bs: seq<Block>, byFig: map<string, Scene>, rootSet: bool, present: string -> bool): seq<nat>
    decreases |bs|
  {
    if bs == [] then []
    else
      KeptFrom(bs[..|bs| - 1], byFig, rootSet, present) +
      (if BlockFate(bs[|bs| - 1], byFig, rootSet, present).Keep? then [|bs| - 1] else [])
  }

  /** The kept blocks are a subsequence of the input, up to the two fields the
      merge sets: they sit at strictly increasing positions of it. */
  lemma {:induction false} MergeIsSubsequence(bs: seq<Block>, byFig: map<string, Scene>, rootSet: bool, present: string -> bool)
    ensures var kept := MergeBlocks(bs, byFig, rootSet, present).kept;
      var pos := KeptFrom(bs, byFig, rootSet, present);
      |pos| == |kept| &&
      (forall k :: 0 <= k < |pos| ==> pos[k] < |bs| && Erase(kept[k]) == Erase(bs[pos[k]])) &&
      (forall k, l :: 0 <= k < l < |pos| ==> pos[k] < pos[l])
    decreases |bs|
  {
    if bs != [] {
      MergeIsSubsequence(bs[..|bs| - 1], byFig, rootSet, present);
    }
  }

  /** Merging what a merge produced, with the same scenes and files, keeps
      every block and removes nothing. */
  lemma {:induction false} MergeBlocksIdempotent(bs: seq<Block>, byFig: map<string, Scene>, rootSet: bool, present: string -> bool)
    ensures var kept := MergeBlocks(bs, byFig, rootSet, present).kept;
      MergeBlocks(kept, byFig, rootSet, present) == Merged(kept, [])
    decreases |bs|
  {
    if bs != [] {
      var init := bs[..|bs| - 1];
      var m := MergeBlocks(init, byFig, rootSet, present);
      MergeBlocksIdempotent(init, byFig, rootSet, present);
      match BlockFate(bs[|bs| - 1], byFig, rootSet, present)
      case Keep(b) =>
        assert (m.kept + [b])[..|m.kept|] == m.kept;
        assert BlockFate(b, byFig, rootSet, present) == Keep(b);
      case Drop(_) =>
    }
  }

  /** Over a whole spec: every block is kept or leaves an id in
      "removed_figures". */
  lemma {:induction false} MergeSectionsCount(secs: seq<Section>, byFig: map<string, Scene>, rootSet: bool, present: string -> bool)
    ensures var m := MergeSections(secs, byFig, rootSet, present);
      |m.sections| == |secs| &&
      |AllBlocks(m.sections)| + |m.removed| == |AllBlocks(secs)|
    decreases |secs|
  {
    if secs != [] {
      var init := secs[..|secs| - 1];
      var m := MergeSections(init, byFig, rootSet, present);
      var s := secs[|secs| - 1];
      MergeSectionsCount(init, byFig, rootSet, present);
      MergeBlocksCount(s.blocks.GetOr([]), byFig, rootSet, present);
      assert (m.sections + [s.(blocks := Some(MergeBlocks(s.blocks.GetOr([]), byFig, rootSet, present).kept))])[..|m.sections|] == m.sections;
    }
  }

  /** A second merge of the output with the same scenes and files leaves the
      sections as they are. */
  lemma {:induction false} MergeSectionsIdempotent(secs: seq<Section>, byFig: map<string, Scene>, rootSet: bool, present: string -> bool)
    ensures var out := MergeSections(secs, byFig, rootSet, present).sections;
      MergeSections(out, byFig, rootSet, present) == MergedSections(out, [])
    decreases |secs|
  {
    if secs != [] {
      var init := secs[..|secs| - 1];
      var m := MergeSections(init, byFig, rootSet, present);
      var s := secs[|secs| - 1];
      var kept := MergeBlocks(s.blocks.GetOr([]), byFig, rootSet, present).kept;
      var s' := s.(blocks := Some(kept));
      MergeSectionsIdempotent(init, byFig, rootSet, present);
      MergeBlocksIdempotent(s.blocks.GetOr([]), byFig, rootSet, present);
      assert (m.sections + [s'])[..|m.sections|] == m.sections;
      assert s'.(blocks := Some(kept)) == s';
    }
  }

  /** The fallbacks: the existing list is kept as it was, and what is appended
      is ids of degraded scenes, each once, none already there. */
  lemma {:induction false} AddFallbacksExtends(fallbacks: seq<Option<string>>, scenes: seq<Scene>)
    ensures var f := AddFallbacks(fallbacks, scenes);
      |fallbacks| <= |f| && f[..|fallbacks|] == fallbacks &&
      (forall k :: |fallbacks| <= k < |f| ==> f[k] !in fallbacks) &&
      (forall k, l :: |fallbacks| <= k < l < |f| ==> f[k] != f[l])
    decreases |scenes|
  {
    if scenes != [] {
      var f := AddFallbacks(fallbacks, scenes[..|scenes| - 1]);
      AddFallbacksExtends(fallbacks, scenes[..|scenes| - 1]);
      var s := scenes[|scenes| - 1];
      if s.degraded && Truthy(s.figureId) && s.figureId !in f {
        assert (f + [s.figureId])[..|fallbacks|] == f[..|fallbacks|];
      }
    }
  }

  /** Every appended entry is the id of a degraded scene. */
  lemma {:induction false} AddFallbacksOnlyDegraded(fallbacks: seq<Option<string>>, scenes: seq<Scene>, k: nat)
    requires |fallbacks| <= k < |AddFallbacks(fallbacks, scenes)|
    ensures exists i ::
      0 <= i < |scenes| && scenes[i].degraded && Truthy(scenes[i].figureId) &&
      AddFallbacks(fallbacks, scenes)[k] == scenes[i].figureId
    decreases |scenes|
  {
    var init := scenes[..|scenes| - 1];
    var f := AddFallbacks(fallbacks, init);
    var s := scenes[|scenes| - 1];
    if k < |f| {
      AddFallbacksOnlyDegraded(fallbacks, init, k);
      var i :| 0 <= i < |init| && init[i].degraded && Truthy(init[i].figureId) && f[k] == init[i].figureId;
      assert scenes[i] == init[i];
      AddFallbacksExtends(fallbacks, init);
    } else {
      assert scenes[|scenes| - 1] == s;
    }
  }

  /** After the loop, the id of every degraded scene is among the fallbacks. */
  lemma {:induction false} AddFallbacksCovers(fallbacks: seq<Option<string>>, scenes: seq<Scene>)
    ensures forall i :: 0 <= i < |scenes| && scenes[i].degraded && Truthy(scenes[i].figureId) ==>
      scenes[i].figureId in AddFallbacks(fallbacks, scenes)
    decreases |scenes|
  {
    if scenes != [] {
      var init := scenes[..|scenes| - 1];
      AddFallbacksCovers(fallbacks, init);
      forall i | 0 <= i < |init|
        ensures scenes[i] == init[i]
      {
      }
    }
  }

  /** When every degraded scene's id is already there, nothing is appended. */
  lemma {:induction false} AddFallbacksStable(fallbacks: seq<Option<string>>, scenes: seq<Scene>)
    requires forall i :: 0 <= i < |scenes| && scenes[i].degraded && Truthy(scenes[i].figureId) ==>
      scenes[i].figureId in fallbacks
    ensures AddFallbacks(fallbacks, scenes) == fallbacks
    decreases |scenes|
  {
    if scenes != [] {
      var init := scenes[..|scenes| - 1];
      forall i | 0 <= i < |init| && init[i].degraded && Truthy(init[i].figureId)
        ensures init[i].figureId in fallbacks
      {
        assert scenes[i] == init[i];
      }
      AddFallbacksStable(fallbacks, init);
    }
  }

  /** A merge run on its own output, with the same manifest and files, gives
      back the same spec except that "removed_figures" is now empty: the
      record of what the first run removed is overwritten. */
  lemma MergeSpecTwice(spec: Spec, scenes: seq<Scene>, rootSet: bool, present: string -> bool)
    ensures var once := MergeSpec(spec, scenes, rootSet, present);
      MergeSpec(once, scenes, rootSet, present) ==
        once.(trace := Some(once.trace.value.(removedFigures := Some([]))))
  {
    var byFig := SceneIndex(scenes);
    MergeSectionsIdempotent(spec.sections.GetOr([]), byFig, rootSet, present);
    var trace := spec.trace.GetOr(EmptyTrace);
    var f := AddFallbacks(trace.fallbacks.GetOr([]), scenes);
    AddFallbacksCovers(trace.fallbacks.GetOr([]), scenes);
    AddFallbacksStable(f, scenes);
  }
}
