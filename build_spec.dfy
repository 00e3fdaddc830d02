/** `build_manual_spec.py`: the rules that turn a target URL and a capture
    manifest into a manual spec. The clock, the random choice of the optional
    section and `urlparse`'s network location are parameters. */
module BuildSpec {
  import opened Wrappers
  import opened Strings
  import opened ManualSpec

  const Scheme: string := "://"
  const Https: string := "https://"

  /** `with_scheme` of the spec builder: `https://` in front when there is no
      scheme separator; unlike the template filler it does not strip. */
  function WithScheme(url: string): string {
    if Contains(url, Scheme) then url else Https + url
  }

  /** The result has a scheme separator, the URL is kept exactly when it had
      one, and a second application changes nothing. */
  lemma WithSchemeShape(url: string)
    ensures Contains(WithScheme(url), Scheme)
    ensures Contains(url, Scheme) <==> WithScheme(url) == url
    ensures !Contains(url, Scheme) ==> WithScheme(url) == Https + url
    ensures WithScheme(WithScheme(url)) == WithScheme(url)
  {
    if !Contains(url, Scheme) {
      assert OccursAt(Https + url, Scheme, 5);
      assert |Https + url| > |url|;
    }
  }

  // ---------------------------------------------------------------------------
  // apply_rewrite

  const EnSuffix: string := " (auto-refined)"
  const ZhSuffix: string := "（系統自動整理）"
  const Paragraph: string := "paragraph"

  function Suffix(locale: string): string {
    if locale == "zh-TW" then ZhSuffix else EnSuffix
  }

  /** A level-one title gets the suffix unless it already ends with it. */
  function RewriteTitle(t: string, suffix: string): string {
    if EndsWith(t, suffix) then t else t + suffix
  }

  /** In "en", a non-empty paragraph text without a final "." gets one. */
  function RewriteBlock(b: Block, locale: string): Block {
    if b.kind == Some(Paragraph) then
      var text := b.text.GetOr("");
      if text != [] && !EndsWith(text, ".") && locale == "en" then b.(text := Some(text + ".")) else b
    else b
  }

  function RewriteBlocks(bs: seq<Block>, locale: string): (r: seq<Block>)
    ensures |r| == |bs| && forall i :: 0 <= i < |bs| ==> r[i] == RewriteBlock(bs[i], locale)
  {
    seq(|bs|, i requires 0 <= i < |bs| => RewriteBlock(bs[i], locale))
  }

  /** One section, or `None` where `section["title"]` raises: a level-one
      section without a title. */
  function RewriteSection(s: Section, locale: string): Option<Section> {
    if s.level == Some(1) && s.title.None? then None
    else
      var title := if s.level == Some(1) then Some(RewriteTitle(s.title.value, Suffix(locale))) else s.title;
      var blocks := if s.blocks.Some? then Some(RewriteBlocks(s.blocks.value, locale)) else None;
      Some(s.(title := title, blocks := blocks))
  }

  /** The sections after the rewrite pass and whether it finished: at the
      first section that raises, it and everything after stay as they were,
      with the sections before it already rewritten in place. */
  function Rewrite(secs: seq<Section>, locale: string): (r: (seq<Section>, bool))
    ensures |r.0| == |secs|
    decreases |secs|
  {
    if secs == [] then ([], true)
    else match RewriteSection(secs[0], locale)
      case None => (secs, false)
      case Some(s) =>
        var rest := Rewrite(secs[1..], locale);
        ([s] + rest.0, rest.1)
  }

  /** `apply_rewrite`, section by section in place. `ok` is false where the
      source raises; the sections are then the partly rewritten ones. */
  method ApplyRewrite(spec: Spec, locale: string) returns (r: Spec, ok: bool)
    ensures spec.sections.None? ==> r == spec && ok
    ensures spec.sections.Some? ==>
      r == spec.(sections := Some(Rewrite(spec.sections.value, locale).0)) &&
      ok == Rewrite(spec.sections.value, locale).1
  {
    if spec.sections.None? {
      return spec, true;
    }
    var secs := spec.sections.value;
    var done: seq<Section> := [];
    var i := 0;
    ok := true;
    assert secs[0..] == secs;
    assert done + Rewrite(secs, locale).0 == Rewrite(secs, locale).0;
    while i < |secs|
      invariant 0 <= i <= |secs|
      invariant Rewrite(secs, locale).0 == done + Rewrite(secs[i..], locale).0
      invariant Rewrite(secs, locale).1 == Rewrite(secs[i..], locale).1
      invariant |done| == i
    {
      var s := RewriteSection(secs[i], locale);
      assert secs[i..][0] == secs[i];
      if s.None? {
        assert Rewrite(secs[i..], locale) == (secs[i..], false);
        ok := false;
        done := done + secs[i..];
        break;
      }
      assert secs[i..][1..] == secs[i + 1..];
      assert Rewrite(secs[i..], locale).0 == [s.value] + Rewrite(secs[i + 1..], locale).0;
      done := done + [s.value];
      i := i + 1;
    }
    if ok {
      assert secs[i..] == [];
      assert done + Rewrite(secs[i..], locale).0 == done;
    }
    r := spec.(sections := Some(done));
  }

  /** The rewrite finishes exactly when every level-one section has a title,
      keeps the number of sections, and then rewrites each one on its own. */
  lemma {:induction false} RewriteAt(secs: seq<Section>, locale: string)
    ensures Rewrite(secs, locale).1 <==> forall i :: 0 <= i < |secs| ==> RewriteSection(secs[i], locale).Some?
    ensures Rewrite(secs, locale).1 ==>
      forall i :: 0 <= i < |secs| ==> RewriteSection(secs[i], locale) == Some(Rewrite(secs, locale).0[i])
    decreases |secs|
  {
    if secs != [] && RewriteSection(secs[0], locale).Some? {
      RewriteAt(secs[1..], locale);
      var r := Rewrite(secs, locale);
      if r.1 {
        forall i | 0 <= i < |secs|
          ensures RewriteSection(secs[i], locale) == Some(r.0[i])
        {
          if i > 0 {
            assert secs[i] == secs[1..][i - 1];
          }
        }
      } else {
        var j :| 0 <= j < |secs[1..]| && RewriteSection(secs[1..][j], locale).None?;
        assert secs[j + 1] == secs[1..][j];
      }
    }
  }

  lemma RewriteTitleSpec(t: string, suffix: string)
    ensures EndsWith(RewriteTitle(t, suffix), suffix)
    ensures EndsWith(t, suffix) <==> RewriteTitle(t, suffix) == t
    ensures RewriteTitle(RewriteTitle(t, suffix), suffix) == RewriteTitle(t, suffix)
  {
    if !EndsWith(t, suffix) {
      var u := t + suffix;
      assert u[|u| - |suffix|..] == suffix;
    }
  }

  lemma RewriteBlockIdempotent(b: Block, locale: string)
    ensures RewriteBlock(RewriteBlock(b, locale), locale) == RewriteBlock(b, locale)
  {
    var text := b.text.GetOr("");
    if b.kind == Some(Paragraph) && text != [] && !EndsWith(text, ".") && locale == "en" {
      var u := text + ".";
      assert u[|u| - 1..] == ".";
    }
  }

  lemma RewriteSectionIdempotent(s: Section, t: Section, locale: string)
    requires RewriteSection(s, locale) == Some(t)
    ensures RewriteSection(t, locale) == Some(t)
  {
    if s.level == Some(1) {
      RewriteTitleSpec(s.title.value, Suffix(locale));
    }
    if s.blocks.Some? {
      var bs := s.blocks.value;
      forall i | 0 <= i < |bs|
        ensures RewriteBlock(RewriteBlock(bs[i], locale), locale) == RewriteBlock(bs[i], locale)
      {
        RewriteBlockIdempotent(bs[i], locale);
      }
      assert RewriteBlocks(t.blocks.value, locale) == t.blocks.value;
    }
  }

  /** A finished rewrite changes nothing when run again. */
  lemma RewriteIdempotent(secs: seq<Section>, locale: string)
    requires Rewrite(secs, locale).1
    ensures Rewrite(Rewrite(secs, locale).0, locale) == Rewrite(secs, locale)
  {
    var r := Rewrite(secs, locale).0;
    RewriteAt(secs, locale);
    forall i | 0 <= i < |r|
      ensures RewriteSection(r[i], locale) == Some(r[i])
    {
      RewriteSectionIdempotent(secs[i], r[i], locale);
    }
    RewriteAt(r, locale);
    var rr := Rewrite(r, locale).0;
    assert forall i :: 0 <= i < |r| ==> Some(rr[i]) == Some(r[i]);
    assert rr == r;
  }

  /** After a finished rewrite: every level-one title ends with the locale's
      suffix, and is the old title with the suffix added exactly when it did
      not already end with it; other titles are untouched. */
  lemma RewriteTitles(secs: seq<Section>, locale: string, i: nat)
    requires Rewrite(secs, locale).1 && i < |secs|
    ensures var t := Rewrite(secs, locale).0[i];
      if secs[i].level == Some(1) then
        secs[i].title.Some? && t.title.Some? && EndsWith(t.title.value, Suffix(locale)) &&
        t.title.value == (if EndsWith(secs[i].title.value, Suffix(locale)) then secs[i].title.value
                          else secs[i].title.value + Suffix(locale))
      else t.title == secs[i].title
  {
    RewriteAt(secs, locale);
    if secs[i].level == Some(1) {
      RewriteTitleSpec(secs[i].title.value, Suffix(locale));
    }
  }

  /** After a finished rewrite in "en", every paragraph with a non-empty text
      ends with "."; in "zh-TW" every section keeps its blocks. */
  lemma RewriteParagraphs(secs: seq<Section>, locale: string, i: nat, j: nat)
    requires Rewrite(secs, locale).1 && i < |secs|
    requires secs[i].blocks.Some? && j < |secs[i].blocks.value|
    ensures var t := Rewrite(secs, locale).0[i];
      t.blocks.Some? && |t.blocks.value| == |secs[i].blocks.value| &&
      var b := t.blocks.value[j];
      (locale == "en" && b.kind == Some(Paragraph) && b.text.Some? && b.text.value != [] ==>
        EndsWith(b.text.value, "."))
    ensures locale == "zh-TW" ==> Rewrite(secs, locale).0[i].blocks == secs[i].blocks
  {
    RewriteAt(secs, locale);
    var b := secs[i].blocks.value[j];
    if b.kind == Some(Paragraph) && b.text.Some? && b.text.value != [] && !EndsWith(b.text.value, ".") {
      var u := b.text.value + ".";
      assert u[|u| - 1..] == ".";
    }
    if locale == "zh-TW" {
      var bs := secs[i].blocks.value;
      assert RewriteBlocks(bs, locale) == bs;
    }
  }

  // ---------------------------------------------------------------------------
  // unique_ids

  /** How the duplicate check ends: quietly, with a `ValueError` naming the
      first repeated id, or with a `KeyError` for a block without an id. */
  datatype IdCheck = Unique | Duplicate(id: string) | MissingId

  predicate AllIds(bs: seq<Block>) {
    forall k :: 0 <= k < |bs| ==> bs[k].blockId.Some?
  }

  /** Every block has an id and no two share one. */
  predicate DistinctIds(bs: seq<Block>) {
    AllIds(bs) && forall k, l :: 0 <= k < l < |bs| ==> bs[k].blockId != bs[l].blockId
  }

  /** `id` is the id of two different blocks. */
  predicate Repeated(bs: seq<Block>, id: string) {
    exists k, l :: 0 <= k < l < |bs| && bs[k].blockId == Some(id) && bs[l].blockId == Some(id)
  }

  function IdSet(bs: seq<Block>): set<string>
    requires AllIds(bs)
  {
    set k | 0 <= k < |bs| :: bs[k].blockId.value
  }

  /** The blocks of the first `n` sections come first among all blocks. */
  lemma {:induction false} AllBlocksPrefix(secs: seq<Section>, n: nat)
    requires n <= |secs|
    ensures |AllBlocks(secs[..n])| <= |AllBlocks(secs)|
    ensures AllBlocks(secs)[..|AllBlocks(secs[..n])|] == AllBlocks(secs[..n])
    decreases |secs|
  {
    if n < |secs| {
      var front := secs[..|secs| - 1];
      AllBlocksPrefix(front, n);
      assert front[..n] == secs[..n];
      assert AllBlocks(secs) == AllBlocks(front) + secs[|secs| - 1].blocks.GetOr([]);
    } else {
      assert secs[..n] == secs;
    }
  }

  /** A repeat or a missing id among a prefix is one among the whole. */
  lemma Extend(p: seq<Block>, q: seq<Block>)
    requires |p| <= |q| && q[..|p|] == p
    ensures forall id :: Repeated(p, id) ==> Repeated(q, id)
    ensures !AllIds(p) ==> !AllIds(q)
  {
    forall id | Repeated(p, id)
      ensures Repeated(q, id)
    {
      var k, l :| 0 <= k < l < |p| && p[k].blockId == Some(id) && p[l].blockId == Some(id);
      assert q[k] == p[k] && q[l] == p[l];
    }
    if !AllIds(p) {
      var k :| 0 <= k < |p| && p[k].blockId.None?;
      assert q[k] == p[k];
    }
  }

  /** The reference for `unique_ids`: walk the blocks in order with the set of
      ids seen so far, and stop at the first block without an id or with an id
      already seen. */
  function FirstFault(bs: seq<Block>, seen: set<string>): (r: IdCheck)
    ensures r == Unique ==> AllIds(bs)
    decreases |bs|
  {
    if bs == [] then Unique
    else match bs[0].blockId
      case None => MissingId
      case Some(id) =>
        if id in seen then Duplicate(id)
        else
          var r := FirstFault(bs[1..], seen + {id});
          assert forall k :: 0 < k < |bs| ==> bs[1..][k - 1] == bs[k];
          r
  }

  /** The fault the walk reports at block `l`: none, a missing id, or an id
      that occurs among the ids seen before the walk or the blocks before `l`. */
  predicate FaultAt(bs: seq<Block>, seen: set<string>, l: nat, r: IdCheck)
    requires l < |bs| && AllIds(bs[..l])
  {
    match r
    case Unique => false
    case MissingId => bs[l].blockId.None?
    case Duplicate(id) => bs[l].blockId == Some(id) && id in seen + IdSet(bs[..l])
  }

  /** The walk's answer is the FIRST fault in block order: every block before it
      has a fresh id of its own, and the walk answers `Unique` exactly when the
      ids are all present, distinct and unseen. */
  lemma {:induction false} FirstFaultIsFirst(bs: seq<Block>, seen: set<string>)
    ensures FirstFault(bs, seen) == Unique <==> DistinctIds(bs) && IdSet(bs) !! seen
    ensures FirstFault(bs, seen) != Unique ==>
      exists l :: 0 <= l < |bs| && DistinctIds(bs[..l]) && IdSet(bs[..l]) !! seen &&
                  FaultAt(bs, seen, l, FirstFault(bs, seen))
    decreases |bs|
  {
    if bs == [] {
      assert IdSet(bs) == {};
    } else {
      assert bs[..0] == [];
      assert IdSet(bs[..0]) == {};
      match bs[0].blockId
      case None =>
        assert !AllIds(bs);
      case Some(id) =>
        if id in seen {
          if AllIds(bs) {
            assert bs[0].blockId.value in IdSet(bs);
          }
        } else {
          var t := bs[1..];
          var s1 := seen + {id};
          FirstFaultIsFirst(t, s1);
          assert bs == [bs[0]] + t;
          DistinctCons(bs[0], t);
          var r := FirstFault(bs, seen);
          if r != Unique {
            var l :| 0 <= l < |t| && DistinctIds(t[..l]) && IdSet(t[..l]) !! s1 && FaultAt(t, s1, l, r);
            assert bs[..l + 1] == [bs[0]] + t[..l];
            DistinctCons(bs[0], t[..l]);
            assert bs[l + 1] == t[l];
            assert FaultAt(bs, seen, l + 1, r);
          }
        }
    }
  }

  /** Ids of a block in front of a list. */
  lemma DistinctCons(b: Block, t: seq<Block>)
    requires b.blockId.Some?
    ensures AllIds([b] + t) <==> AllIds(t)
    ensures AllIds(t) ==> IdSet([b] + t) == {b.blockId.value} + IdSet(t)
    ensures DistinctIds([b] + t) <==> DistinctIds(t) && b.blockId.value !in IdSet(t)
  {
    var q := [b] + t;
    assert forall k :: 0 < k < |q| ==> q[k] == t[k - 1];
    if AllIds(q) {
      forall k | 0 <= k < |t|
        ensures t[k].blockId.Some?
      {
        assert t[k] == q[k + 1];
      }
    }
    if AllIds(t) {
      forall k | 0 <= k < |q|
        ensures q[k].blockId.Some?
      {
        if k > 0 {
          assert q[k] == t[k - 1];
        }
      }
      forall x | x in IdSet(q)
        ensures x in {b.blockId.value} + IdSet(t)
      {
        var k :| 0 <= k < |q| && q[k].blockId.value == x;
        if k > 0 {
          assert t[k - 1].blockId.value == x;
        }
      }
      forall x | x in {b.blockId.value} + IdSet(t)
        ensures x in IdSet(q)
      {
        if x == b.blockId.value {
          assert q[0].blockId.value == x;
        } else {
          var k :| 0 <= k < |t| && t[k].blockId.value == x;
          assert q[k + 1].blockId.value == x;
        }
      }
      if DistinctIds(q) {
        forall k | 0 <= k < |t|
          ensures t[k].blockId.value != b.blockId.value
        {
          assert q[0] == b && q[k + 1] == t[k];
        }
        forall k, l | 0 <= k < l < |t|
          ensures t[k].blockId != t[l].blockId
        {
          assert q[k + 1] == t[k] && q[l + 1] == t[l];
        }
      }
      if DistinctIds(t) && b.blockId.value !in IdSet(t) {
        forall k, l | 0 <= k < l < |q|
          ensures q[k].blockId != q[l].blockId
        {
          assert q[l] == t[l - 1];
          if k > 0 {
            assert q[k] == t[k - 1];
          } else {
            assert t[l - 1].blockId.value in IdSet(t);
          }
        }
      }
    }
  }

  /** Walking two lists one after the other is walking their concatenation. */
  lemma {:induction false} FirstFaultAppend(p: seq<Block>, q: seq<Block>, seen: set<string>)
    ensures FirstFault(p + q, seen) ==
      if FirstFault(p, seen) == Unique then FirstFault(q, seen + IdSet(p)) else FirstFault(p, seen)
    decreases |p|
  {
    if p == [] {
      assert p + q == q;
      assert seen + IdSet(p) == seen;
    } else {
      var pq := p + q;
      assert pq[0] == p[0] && pq[1..] == p[1..] + q;
      match p[0].blockId
      case None =>
      case Some(id) =>
        if id !in seen {
          FirstFaultAppend(p[1..], q, seen + {id});
          if FirstFault(p, seen) == Unique {
            assert p == [p[0]] + p[1..];
            DistinctCons(p[0], p[1..]);
            assert seen + {id} + IdSet(p[1..]) == seen + IdSet(p);
          }
        }
    }
  }

  lemma RepeatedNotDistinct(bs: seq<Block>, id: string)
    requires Repeated(bs, id)
    ensures !DistinctIds(bs)
  {
    var k, l :| 0 <= k < l < |bs| && bs[k].blockId == Some(id) && bs[l].blockId == Some(id);
  }

  /** `unique_ids`: walk every block of every section, remembering the ids
      seen so far. */
  method UniqueIds(secs: seq<Section>) returns (r: IdCheck)
    ensures r == Unique <==> DistinctIds(AllBlocks(secs))
    ensures r.Duplicate? ==> Repeated(AllBlocks(secs), r.id)
    ensures r.MissingId? ==> !AllIds(AllBlocks(secs))
    ensures r == FirstFault(AllBlocks(secs), {})
  {
    var seen: set<string> := {};
    r := Unique;
    assert secs[..0] == [];
    for i := 0 to |secs|
      invariant r == Unique
      invariant DistinctIds(AllBlocks(secs[..i])) && seen == IdSet(AllBlocks(secs[..i]))
      invariant FirstFault(AllBlocks(secs[..i]), {}) == Unique
    {
      assert secs[..i + 1][..i] == secs[..i];
      ghost var blocks := secs[i].blocks.GetOr([]);
      assert AllBlocks(secs[..i + 1]) == AllBlocks(secs[..i]) + blocks;
      FirstFaultAppend(AllBlocks(secs[..i]), blocks, {});
      assert {} + IdSet(AllBlocks(secs[..i])) == seen;
      seen, r := CheckMore(seen, secs[i].blocks.GetOr([]), AllBlocks(secs[..i]));
      AllBlocksPrefix(secs, i + 1);
      ghost var front := AllBlocks(secs[..i + 1]);
      assert AllBlocks(secs) == front + AllBlocks(secs)[|front|..];
      FirstFaultAppend(front, AllBlocks(secs)[|front|..], {});
      if r != Unique {
        Extend(AllBlocks(secs[..i + 1]), AllBlocks(secs));
        if r.Duplicate? {
          RepeatedNotDistinct(AllBlocks(secs), r.id);
        }
        return;
      }
    }
    assert secs[..|secs|] == secs;
  }

  /** The inner loop: the blocks of one more section. */
  method CheckMore(seen0: set<string>, blocks: seq<Block>, ghost before: seq<Block>)
    returns (seen: set<string>, r: IdCheck)
    requires DistinctIds(before) && seen0 == IdSet(before)
    ensures r == Unique ==> DistinctIds(before + blocks) && seen == IdSet(before + blocks)
    ensures r.Duplicate? ==> Repeated(before + blocks, r.id)
    ensures r.MissingId? ==> !AllIds(before + blocks)
    ensures r == FirstFault(blocks, seen0)
  {
    seen, r := seen0, Unique;
    assert before + blocks[..0] == before;
    for j := 0 to |blocks|
      invariant DistinctIds(before + blocks[..j]) && seen == IdSet(before + blocks[..j])
      invariant FirstFault(blocks, seen0) == FirstFault(blocks[j..], seen)
    {
      ghost var p := before + blocks[..j];
      ghost var all := before + blocks;
      assert before + blocks[..j + 1] == p + [blocks[j]];
      assert all[|p|] == blocks[j];
      assert blocks[j..][0] == blocks[j] && blocks[j..][1..] == blocks[j + 1..];
      match blocks[j].blockId {
        case None =>
          return seen, MissingId;
        case Some(bid) =>
          if bid in seen {
            ghost var k :| 0 <= k < |p| && p[k].blockId.value == bid;
            assert all[k] == p[k];
            return seen, Duplicate(bid);
          }
          seen := seen + {bid};
          assert IdSet(p + [blocks[j]]) == IdSet(p) + {bid} by {
            var q := p + [blocks[j]];
            forall x | x in IdSet(q)
              ensures x in IdSet(p) + {bid}
            {
              var k :| 0 <= k < |q| && q[k].blockId.value == x;
              if k < |p| {
                assert q[k] == p[k];
              }
            }
            forall x | x in IdSet(p) + {bid}
              ensures x in IdSet(q)
            {
              if x == bid {
                assert q[|p|].blockId.value == x;
              } else {
                var k :| 0 <= k < |p| && p[k].blockId.value == x;
                assert q[k] == p[k];
              }
            }
          }
      }
    }
    assert blocks[..|blocks|] == blocks;
  }

  // ---------------------------------------------------------------------------
  // the controls table

  /** The capability flags in their fixed order, each with its table row. */
  const CapabilityRows: seq<(string, seq<string>)> := [
    ("has_top_nav", ["Top Navigation", "Navigation", "Main route and utility actions"]),
    ("has_side_nav", ["Side Navigation", "Navigation", "Section switching and quick entry"]),
    ("has_search_input", ["Search Input", "Input", "Keyword query entry"]),
    ("has_card", ["Primary Card", "Link/Button", "Open a detail or content page"])]

  const MainContentRow: seq<string> := ["Main Content", "Container", "Primary interactive area"]

  /** `caps.get(flag)` is truthy. */
  predicate Has(caps: map<string, bool>, flag: string) {
    flag in caps && caps[flag]
  }

  /** The rows of the table entries whose flag is set, in table order. */
  function Selected(table: seq<(string, seq<string>)>, caps: map<string, bool>): (r: seq<seq<string>>)
    decreases |table|
  {
    if table == [] then []
    else
      var last := table[|table| - 1];
      Selected(table[..|table| - 1], caps) + (if Has(caps, last.0) then [last.1] else [])
  }

  /** Nothing is selected exactly when no flag of the table is set. */
  lemma {:induction false} SelectedEmpty(table: seq<(string, seq<string>)>, caps: map<string, bool>)
    ensures Selected(table, caps) == [] <==> forall k :: 0 <= k < |table| ==> !Has(caps, table[k].0)
    decreases |table|
  {
    if table != [] {
      var front := table[..|table| - 1];
      SelectedEmpty(front, caps);
      assert forall k :: 0 <= k < |front| ==> table[k] == front[k];
    }
  }

  /** A row is selected exactly when its flag is set (the rows of the table
      being different from one another). */
  lemma {:induction false} SelectedHas(table: seq<(string, seq<string>)>, caps: map<string, bool>, k: nat)
    requires k < |table|
    requires forall a, b :: 0 <= a < b < |table| ==> table[a].1 != table[b].1
    ensures table[k].1 in Selected(table, caps) <==> Has(caps, table[k].0)
    decreases |table|
  {
    var front := table[..|table| - 1];
    if k == |table| - 1 {
      NotSelected(front, caps, table[k].1);
    } else {
      assert table[k] == front[k];
      SelectedHas(front, caps, k);
    }
  }

  /** A row that is not in the table is never selected. */
  lemma {:induction false} NotSelected(table: seq<(string, seq<string>)>, caps: map<string, bool>, row: seq<string>)
    requires forall k :: 0 <= k < |table| ==> table[k].1 != row
    ensures row !in Selected(table, caps)
    decreases |table|
  {
    if table != [] {
      var front := table[..|table| - 1];
      assert forall k :: 0 <= k < |front| ==> table[k] == front[k];
      NotSelected(front, caps, row);
    }
  }

  /** The rows of the controls table, appended flag by flag; "Main Content"
      when no flag is set. */
  method ControlRows(caps: map<string, bool>) returns (rows: seq<seq<string>>)
    ensures var sel := Selected(CapabilityRows, caps);
      rows == if sel == [] then [MainContentRow] else sel
  {
    rows := AppendFlagged(CapabilityRows, caps);
    if rows == [] {
      rows := [MainContentRow];
    }
  }

  /** The flag checks in table order, each appending its row. */
  method AppendFlagged(t: seq<(string, seq<string>)>, caps: map<string, bool>) returns (rows: seq<seq<string>>)
    ensures rows == Selected(t, caps)
  {
    rows := [];
    for k := 0 to |t|
      invariant rows == Selected(t[..k], caps)
    {
      assert t[..k + 1][..k] == t[..k];
      if Has(caps, t[k].0) {
        rows := rows + [t[k].1];
      }
    }
    assert t[..|t|] == t;
  }

  /** The single "Main Content" row stands in exactly when no capability is
      set, and otherwise each capability's row is there exactly when its
      flag is set. */
  lemma ControlRowsSpec(caps: map<string, bool>, k: nat)
    requires k < |CapabilityRows|
    ensures Selected(CapabilityRows, caps) == [] <==> forall f :: 0 <= f < 4 ==> !Has(caps, CapabilityRows[f].0)
    ensures CapabilityRows[k].1 in Selected(CapabilityRows, caps) <==> Has(caps, CapabilityRows[k].0)
  {
    SelectedEmpty(CapabilityRows, caps);
    RowsDistinct();
    SelectedHas(CapabilityRows, caps, k);
  }

  /** The four rows differ in the second letter of their first cell. */
  lemma RowsDistinct()
    ensures forall a, b :: 0 <= a < b < |CapabilityRows| ==> CapabilityRows[a].1 != CapabilityRows[b].1
  {
    var t := CapabilityRows;
    assert t[0].1[0][1] == 'o' && t[1].1[0][1] == 'i' && t[2].1[0][1] == 'e' && t[3].1[0][1] == 'r';
  }

  // ---------------------------------------------------------------------------
  // figure blocks

  /** `f"{n:02d}"`: the decimal form, padded to two digits with a zero. */
  function TwoDigits(n: nat): (r: string)
    ensures |r| >= 2 && IsDigits(r) && DigitsValue(r) == n
    ensures n < 10 ==> |r| == 2
    ensures |r| > 2 ==> r[0] != '0'
  {
    NatToStringRoundTrip(n);
    NatToStringHead(n);
    if n < 10 then
      var r := "0" + NatToString(n);
      assert r[..1] == "0";
      r
    else
      assert NatToString(n) == NatToString(n / 10) + [DigitChar(n % 10)];
      NatToString(n)
  }

  const FigBlockPrefix: string := "fig_block_"
  const FigurePrefix: string := "figure_"
  const Flows: string := "flows"

  /** The figure block for scene `i` (counting from one). */
  function FigureBlock(scene: Scene, i: nat, captionPrefix: string): Block {
    Block(
      Some(FigBlockPrefix + TwoDigits(i)), Some("figure"),
      None, None, None, None, None,
      Some(if Truthy(scene.figureId) then scene.figureId.value else FigurePrefix + TwoDigits(i)),
      Some(if Truthy(scene.caption) then scene.caption.value
           else captionPrefix + " " + NatToString(i) + ": " + scene.sceneType.GetOr("scene")),
      Some(scene.imageRel.GetOr("")),
      Some(Flows),
      Some(i))
  }

  /** One figure block per scene, numbered from one. */
  method FigureBlocks(scenes: seq<Scene>, captionPrefix: string) returns (figs: seq<Block>)
    ensures |figs| == |scenes|
    ensures forall k :: 0 <= k < |scenes| ==> figs[k] == FigureBlock(scenes[k], k + 1, captionPrefix)
  {
    figs := [];
    for k := 0 to |scenes|
      invariant |figs| == k
      invariant forall m :: 0 <= m < k ==> figs[m] == FigureBlock(scenes[m], m + 1, captionPrefix)
    {
      figs := figs + [FigureBlock(scenes[k], k + 1, captionPrefix)];
    }
  }

  lemma PrefixCancel(p: string, a: string, b: string)
    requires p + a == p + b
    ensures a == b
  {
    assert a == (p + a)[|p|..];
    assert b == (p + b)[|p|..];
  }

  /** The figure blocks of scenes `k` and `l`: ids `fig_block_NN` that
      differ, orders `k + 1` and `l + 1`, anchored in the flows section,
      and a scene without a figure id gets `figure_NN`. */
  lemma FigureBlocksShape(scenes: seq<Scene>, captionPrefix: string, k: nat, l: nat)
    requires k < |scenes| && l < |scenes| && k != l
    ensures var a := FigureBlock(scenes[k], k + 1, captionPrefix);
      var b := FigureBlock(scenes[l], l + 1, captionPrefix);
      a.blockId != b.blockId &&
      a.order == Some(k + 1) && a.anchorSectionId == Some(Flows) &&
      a.kind == Some("figure") &&
      (!Truthy(scenes[k].figureId) ==> a.figureId == Some(FigurePrefix + TwoDigits(k + 1))) &&
      (Truthy(scenes[k].figureId) ==> a.figureId == scenes[k].figureId)
  {
    if FigBlockPrefix + TwoDigits(k + 1) == FigBlockPrefix + TwoDigits(l + 1) {
      PrefixCancel(FigBlockPrefix, TwoDigits(k + 1), TwoDigits(l + 1));
    }
  }

  // ---------------------------------------------------------------------------
  // locale texts, maintenance note, fallbacks

  /** The two locales the command line accepts. */
  datatype Locale = En | ZhTw

  function Code(l: Locale): string {
    if l == En then "en" else "zh-TW"
  }

  /** The entries of `LOCALE_TEXT` the section rules read. */
  datatype LocaleText = LocaleText(
    titleSuffix: string, scope: string, prereq: string, maint: string, flows: string,
    build: string, controls: string, captionPrefix: string, missingNote: string)

  const EnText: LocaleText := LocaleText(
    "Web App Manual", "Scope", "Prerequisites", "Maintenance Notes", "Task Flows",
    "Build", "Primary Controls", "Captured screen",
    "Some scenes were unavailable during capture and were degraded with fallback screenshots.")

  const ZhText: LocaleText := LocaleText(
    "網站操作手冊", "範圍", "前置條件", "維護說明", "操作流程",
    "建置", "主要控制項", "畫面擷圖",
    "部分場景在擷取時不可用，已以替代截圖降級處理。")

  function Text(l: Locale): LocaleText {
    if l == En then EnText else ZhText
  }

  /** `any(s.get("degraded") for s in scenes)`. */
  predicate AnyDegraded(scenes: seq<Scene>) {
    exists k :: 0 <= k < |scenes| && scenes[k].degraded
  }

  const EnMaint: seq<string> := [
    "Regenerate screenshots after major UI updates",
    "Review table labels for domain-specific terminology",
    "Re-run pipeline when capture manifest indicates degraded scenes"]

  const ZhMaint: seq<string> := [
    "重大 UI 變更後請重新擷取截圖",
    "表格欄位文字請依領域術語校對",
    "若 manifest 顯示降級場景，請重新執行流程"]

  /** The maintenance items: three fixed ones for the locale, then the
      missing-scene note when some scene is degraded. */
  function MaintItems(l: Locale, scenes: seq<Scene>): (r: seq<string>)
    ensures |r| == 4 <==> AnyDegraded(scenes)
    ensures |r| == 3 <==> !AnyDegraded(scenes)
    ensures r[..3] == (if l == En then EnMaint else ZhMaint)
    ensures AnyDegraded(scenes) ==> r[3] == Text(l).missingNote
  {
    var note := if AnyDegraded(scenes) then [Text(l).missingNote] else [];
    (if l == En then EnMaint else ZhMaint) + note
  }

  /** `trace.fallbacks`: the figure id of every degraded scene, in order,
      `None` where the scene has none. */
  function Fallbacks(scenes: seq<Scene>): seq<Option<string>>
    decreases |scenes|
  {
    if scenes == [] then []
    else
      var last := scenes[|scenes| - 1];
      Fallbacks(scenes[..|scenes| - 1]) + (if last.degraded then [last.figureId] else [])
  }

  /** An entry is listed exactly when some degraded scene carries it, and the
      list is empty exactly when no scene is degraded. */
  lemma {:induction false} FallbacksSpec(scenes: seq<Scene>, x: Option<string>)
    ensures x in Fallbacks(scenes) <==> exists k :: 0 <= k < |scenes| && scenes[k].degraded && scenes[k].figureId == x
    ensures Fallbacks(scenes) == [] <==> !AnyDegraded(scenes)
    decreases |scenes|
  {
    if scenes != [] {
      var front := scenes[..|scenes| - 1];
      FallbacksSpec(front, x);
      assert forall k :: 0 <= k < |front| ==> scenes[k] == front[k];
      if AnyDegraded(front) {
        var k :| 0 <= k < |front| && front[k].degraded;
        assert scenes[k].degraded;
      }
      if !scenes[|scenes| - 1].degraded && AnyDegraded(scenes) {
        var k :| 0 <= k < |scenes| && scenes[k].degraded;
        assert front[k].degraded;
      }
      if !scenes[|scenes| - 1].degraded && x in Fallbacks(scenes) {
        assert x in Fallbacks(front);
      }
    }
  }

  // ---------------------------------------------------------------------------
  // the sections and their order

  const SectionIds: seq<string> := ["scope", "prerequisites", "controls", "flows", "maintenance", "build"]

  function Titles(t: LocaleText): seq<string> {
    [t.scope, t.prereq, t.controls, t.flows, t.maint, t.build]
  }

  /** The six level-one sections, ordered 1 to 6, with their blocks. */
  function BaseSections(t: LocaleText, bodies: seq<seq<Block>>): (r: seq<Section>)
    requires |bodies| == 6
    ensures |r| == 6
    ensures forall i :: 0 <= i < 6 ==>
      r[i].sectionId == Some(SectionIds[i]) && r[i].title == Some(Titles(t)[i]) &&
      r[i].level == Some(1) && r[i].order == Some(i + 1) && r[i].blocks == Some(bodies[i])
  {
    seq(6, i requires 0 <= i < 6 => Section(Some(SectionIds[i]), Some(Titles(t)[i]), Some(1), Some(i + 1), Some(bodies[i])))
  }

  const QuickNotesEn: string := "This section is dynamically inserted in PoC runs to validate paired-template flexibility"
  const QuickNotesZh: string := "此章節由 PoC 動態插入，用於驗證成對模板可變能力"

  /** The optional "quick_notes" section. */
  function QuickNotes(l: Locale): Section {
    var text := if l == En then QuickNotesEn else QuickNotesZh;
    Section(Some("quick_notes"), Some(if l == En then "Quick Notes" else "快速說明"), Some(1), Some(3),
            Some([BareBlock("quick_notes_paragraph", Paragraph).(text := Some(text))]))
  }

  /** `list.insert(2, x)`. */
  function InsertAt2(secs: seq<Section>, x: Section): (r: seq<Section>)
    ensures |r| == |secs| + 1
    ensures var at := if |secs| < 2 then |secs| else 2;
      forall i :: 0 <= i < |r| ==> r[i] == (if i < at then secs[i] else if i == at then x else secs[i - 1])
  {
    var at := if |secs| < 2 then |secs| else 2;
    secs[..at] + [x] + secs[at..]
  }

  /** The optional insertion: when the coin says so, put `extra` third and
      renumber every section's order from one, in place. */
  method Arrange(base: seq<Section>, extra: Section, insert: bool) returns (secs: seq<Section>)
    ensures !insert ==> secs == base
    ensures insert ==> |secs| == |base| + 1
    ensures insert ==> forall i :: 0 <= i < |secs| ==> secs[i] == InsertAt2(base, extra)[i].(order := Some(i + 1))
    ensures (forall i :: 0 <= i < |base| ==> base[i].order == Some(i + 1)) ==>
      forall i :: 0 <= i < |secs| ==> secs[i].order == Some(i + 1)
  {
    secs := base;
    if insert {
      secs := InsertAt2(base, extra);
      for idx := 0 to |secs|
        invariant |secs| == |base| + 1
        invariant forall i :: 0 <= i < idx ==> secs[i] == InsertAt2(base, extra)[i].(order := Some(i + 1))
        invariant forall i :: idx <= i < |secs| ==> secs[i] == InsertAt2(base, extra)[i]
      {
        secs := secs[idx := secs[idx].(order := Some(idx + 1))];
      }
    }
  }

  /** With the insertion the section ids read scope, prerequisites,
      quick_notes, controls, flows, maintenance, build. */
  lemma InsertedIds(t: LocaleText, bodies: seq<seq<Block>>, l: Locale, i: nat)
    requires |bodies| == 6 && i < 7
    ensures InsertAt2(BaseSections(t, bodies), QuickNotes(l))[i].sectionId ==
      Some(if i < 2 then SectionIds[i] else if i == 2 then "quick_notes" else SectionIds[i - 1])
  {
    var b := BaseSections(t, bodies);
    var r := InsertAt2(b, QuickNotes(l));
    if i < 2 {
      assert r[i] == b[i];
    } else if i > 2 {
      assert r[i] == b[i - 1];
    }
  }
}
