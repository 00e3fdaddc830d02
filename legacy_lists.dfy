/** `sync_list_under_heading`: the list paragraphs right under a heading are
    grown or shrunk, then their texts are overwritten position by position. */
module LegacyLists {
  import opened Wrappers
  import opened Strings
  import opened DocTree
  import opened DocxAnchors
  import opened Seqs

  /** Why a legacy patch aborts: an index past the end of the body (Python's
      IndexError), or a document without `w:body`. */
  datatype Fault = IndexError | BodyMissing

  /** Where the scan after the heading finds its first list paragraph:
      non-list children are skipped, a heading ends the search. */
  function FirstListIndex(elems: seq<Element>, j: nat): (r: Option<nat>)
    ensures r.Some? ==> (j <= r.value < |elems| && IsListElement(elems[r.value]) &&
                         !IsHeadingElement(elems[r.value]))
    ensures r.Some? ==> forall m :: j <= m < r.value ==> !IsHeadingElement(elems[m]) && !IsListElement(elems[m])
    decreases |elems| - j
  {
    if j >= |elems| || IsHeadingElement(elems[j]) then None
    else if IsListElement(elems[j]) then Some(j)
    else FirstListIndex(elems, j + 1)
  }

  /** How many list paragraphs (that are not headings) follow one another from `s`. */
  function RunLength(elems: seq<Element>, s: nat): (n: nat)
    requires s <= |elems|
    ensures s + n <= |elems|
    ensures forall m :: s <= m < s + n ==> IsListElement(elems[m]) && !IsHeadingElement(elems[m])
    ensures s + n < |elems| ==> !IsListElement(elems[s + n]) || IsHeadingElement(elems[s + n])
    decreases |elems| - s
  {
    if s < |elems| && IsListElement(elems[s]) && !IsHeadingElement(elems[s]) then 1 + RunLength(elems, s + 1)
    else 0
  }

  /** The positions `a`, `a + 1`, ..., `a + n - 1`, in order. */
  predicate IsRun(idxs: seq<nat>, a: nat, n: nat) {
    |idxs| == n && forall i :: 0 <= i < n ==> idxs[i] == a + i
  }

  /** Dropping the last index of a run leaves a run. */
  lemma RunPrefix(idxs: seq<nat>, a: nat)
    requires idxs != [] && IsRun(idxs, a, |idxs|)
    ensures IsRun(idxs[..|idxs| - 1], a, |idxs| - 1)
  {
  }

  /** `list(range(a, a + n))`. */
  function Range(a: nat, n: nat): (r: seq<nat>)
    ensures IsRun(r, a, n)
  {
    seq(n, i requires 0 <= i < n => a + i)
  }

  /** The body after the grow and shrink loops, as written: a surplus is cut
      from the end of the run, a shortfall of any size adds one clone of the
      first list paragraph behind the run. */
  function Resized<T>(elems: seq<T>, s: nat, k: nat, n: nat): (b: seq<T>)
    requires s < |elems| && s + k <= |elems|
    ensures k >= n ==> |b| == |elems| - (k - n)
    ensures k < n ==> |b| == |elems| + 1
  {
    if k >= n then Cut(elems, s + n, s + k)
    else InsertAt(elems, s + k, elems[s])
  }

  /** Whether `items[i]` differs from the text at `s + i`, for the first `n` items. */
  function Mismatches(b: seq<Element>, s: nat, items: seq<string>): (c: nat)
    requires s + |items| <= |b|
    ensures c <= |items|
  {
    if |items| == 0 then 0
    else
      var i := |items| - 1;
      Mismatches(b, s, items[..i]) + (if ElementText(b[s + i]) != items[i] then 1 else 0)
  }

  /** The text a position ends with: left as it is when it already reads the item. */
  function Synced(e: Element, t: string): Element {
    if ElementText(e) != t then ElementWithText(e, t) else e
  }

  /** What positions `s`, `s + 1`, ... end with, one per item. */
  function SyncedAll(b: seq<Element>, s: nat, items: seq<string>): (r: seq<Element>)
    requires s + |items| <= |b|
    ensures |r| == |items|
  {
    Zipped(b, s, items, Synced)
  }

  /** Item `i` is synced into position `s + i`. */
  lemma SyncedAllAt(b: seq<Element>, s: nat, items: seq<string>, i: nat)
    requires s + |items| <= |b| && i < |items|
    ensures SyncedAll(b, s, items)[i] == Synced(b[s + i], items[i])
  {
  }

  /** The overwrite loop: item `i` goes into position `s + i` when the text
      there differs, every other position stays; the count is the number of
      rewrites. */
  function Overwrite(b: seq<Element>, s: nat, items: seq<string>): (r: (seq<Element>, nat))
    requires s + |items| <= |b|
    ensures |r.0| == |b|
  {
    (Splice(b, s, SyncedAll(b, s, items)), Mismatches(b, s, items))
  }

  /** `sync_list_under_heading` once the heading lookup has answered `h`. */
  function SyncListUnder(elems: seq<Element>, h: nat, items: seq<string>): Result<(seq<Element>, nat), Fault> {
    if |items| == 0 then Ok((elems, 0))
    else match FirstListIndex(elems, h + 1)
      case None => Ok((elems, 0))
      case Some(s) =>
        var b := Resized(elems, s, RunLength(elems, s), |items|);
        if s + |items| > |b| then Err(IndexError) else Ok(Overwrite(b, s, items))
  }

  /** The whole of `sync_list_under_heading`, as written. */
  function SyncListSpec(elems: seq<Element>, heading: string, items: seq<string>): Result<(seq<Element>, nat), Fault> {
    match FindHeadingIndex(elems, heading)
    case None => Ok((elems, 0))
    case Some(h) => SyncListUnder(elems, h, items)
  }

  /** With no items, no heading or no list under it, nothing changes and 0 is returned. */
  lemma SyncListNoop(elems: seq<Element>, heading: string, items: seq<string>)
    requires |items| == 0 || FindHeadingIndex(elems, heading).None? ||
             FirstListIndex(elems, FindHeadingIndex(elems, heading).value + 1).None?
    ensures SyncListSpec(elems, heading, items) == Ok((elems, 0))
  {
  }

  /** A synced position reads the item back, and a paragraph keeps its style and numbering. */
  lemma SyncedReadsBack(e: Element, t: string)
    requires e.P?
    ensures Synced(e, t).P? && ElementText(Synced(e, t)) == Strip(t)
    ensures Synced(e, t).para.style == e.para.style && Synced(e, t).para.numId == e.para.numId
  {
    if ElementText(e) == t {
      StripIdempotent(RunsXmlText(e.para.runs));
    }
  }

  /** Only the positions the items cover decide the count. */
  lemma {:induction false} MismatchesSamePrefix(a: seq<Element>, b: seq<Element>, s: nat, items: seq<string>)
    requires s + |items| <= |a| && s + |items| <= |b|
    requires forall m :: s <= m < s + |items| ==> a[m] == b[m]
    ensures Mismatches(a, s, items) == Mismatches(b, s, items)
    decreases |items|
  {
    if |items| > 0 {
      MismatchesSamePrefix(a, b, s, items[..|items| - 1]);
    }
  }

  /** Around the overwritten positions the body is kept. */
  lemma OverwriteFrame(b: seq<Element>, s: nat, items: seq<string>)
    requires s + |items| <= |b|
    ensures var r := Overwrite(b, s, items).0;
      |r| == |b| && r[..s] == b[..s] && r[s + |items|..] == b[s + |items|..]
  {
    assert Overwrite(b, s, items).0 == Splice(b, s, SyncedAll(b, s, items));
  }

  /** Position `s + i` ends with item `i` synced into it. */
  lemma OverwriteAt(b: seq<Element>, s: nat, items: seq<string>, i: nat)
    requires s + |items| <= |b| && i < |items|
    ensures Overwrite(b, s, items).0[s + i] == Synced(b[s + i], items[i])
  {
    var x := SyncedAll(b, s, items);
    assert Splice(b, s, x)[s + i] == x[i];
    SyncedAllAt(b, s, items, i);
  }

  /** Once the run is found, the sync is the overwrite of the resized body,
      or fails when the items reach past its end. */
  lemma SyncListUnderRun(elems: seq<Element>, h: nat, items: seq<string>, s: nat)
    requires |items| > 0 && FirstListIndex(elems, h + 1) == Some(s)
    ensures var b := Resized(elems, s, RunLength(elems, s), |items|);
      SyncListUnder(elems, h, items) == if s + |items| > |b| then Err(IndexError) else Ok(Overwrite(b, s, items))
  {
  }

  /** A list paragraph reading `t` (stripped, as `set_paragraph_text` leaves it). */
  predicate IsListItem(e: Element, t: string) {
    IsListElement(e) && ElementText(e) == Strip(t)
  }

  /** A list item reading `t` that kept the numbering of `orig`. */
  predicate SyncedFrom(e: Element, orig: Element, t: string) {
    IsListItem(e, t) && NumIdOf(e) == NumIdOf(orig)
  }

  /** A list paragraph that is synced stays a list paragraph with the same
      numbering and reads the item. */
  lemma SyncedListAt(b: seq<Element>, s: nat, items: seq<string>, i: nat)
    requires s + |items| <= |b| && i < |items| && IsListElement(b[s + i])
    ensures SyncedFrom(Overwrite(b, s, items).0[s + i], b[s + i], items[i])
  {
    OverwriteAt(b, s, items, i);
    SyncedReadsBack(b[s + i], items[i]);
  }

  /** A run at least as long as the items is cut down to exactly one paragraph
      per item: every one keeps its list numbering and reads its item, the
      children before the run and after the old run are kept, and the count
      is the number of texts that differed. */
  lemma SyncListShrinks(elems: seq<Element>, h: nat, items: seq<string>, s: nat)
    requires |items| > 0 && FirstListIndex(elems, h + 1) == Some(s) && RunLength(elems, s) >= |items|
    ensures SyncListUnder(elems, h, items).Ok?
    ensures var b := SyncListUnder(elems, h, items).value.0;
      |b| == |elems| - (RunLength(elems, s) - |items|) &&
      b[..s] == elems[..s] && b[s + |items|..] == elems[s + RunLength(elems, s)..]
    ensures SyncListUnder(elems, h, items).value.1 == Mismatches(elems, s, items)
    ensures var b := SyncListUnder(elems, h, items).value.0;
      forall i :: 0 <= i < |items| ==> SyncedFrom(b[s + i], elems[s + i], items[i])
  {
    ShrinkCount(elems, h, items, s);
    ShrinkFrame(elems, h, items, s);
    SyncListUnderRun(elems, h, items, s);
    ShrunkRunReads(elems, s, items);
  }

  /** The count of a cut-down run: how many of its first texts differed. */
  lemma ShrinkCount(elems: seq<Element>, h: nat, items: seq<string>, s: nat)
    requires |items| > 0 && FirstListIndex(elems, h + 1) == Some(s) && RunLength(elems, s) >= |items|
    ensures SyncListUnder(elems, h, items).Ok?
    ensures SyncListUnder(elems, h, items).value.1 == Mismatches(elems, s, items)
  {
    SyncListUnderRun(elems, h, items, s);
    MismatchesSamePrefix(Resized(elems, s, RunLength(elems, s), |items|), elems, s, items);
  }

  /** What a cut-down run leaves around the items. */
  lemma ShrinkFrame(elems: seq<Element>, h: nat, items: seq<string>, s: nat)
    requires |items| > 0 && FirstListIndex(elems, h + 1) == Some(s) && RunLength(elems, s) >= |items|
    ensures SyncListUnder(elems, h, items).Ok?
    ensures var b := SyncListUnder(elems, h, items).value.0;
      |b| == |elems| - (RunLength(elems, s) - |items|) &&
      b[..s] == elems[..s] && b[s + |items|..] == elems[s + RunLength(elems, s)..]
  {
    SyncListUnderRun(elems, h, items, s);
    ShrunkFrame(elems, s, RunLength(elems, s), items);
  }

  /** A run of `k` cut down to the items and overwritten leaves what was
      before it and after it in place. */
  lemma ShrunkFrame(elems: seq<Element>, s: nat, k: nat, items: seq<string>)
    requires s < |elems| && s + k <= |elems| && k >= |items|
    ensures var b := Overwrite(Resized(elems, s, k, |items|), s, items).0;
      |b| == |elems| - (k - |items|) && b[..s] == elems[..s] && b[s + |items|..] == elems[s + k..]
  {
    var b0 := Resized(elems, s, k, |items|);
    OverwriteFrame(b0, s, items);
    SamePrefix(b0, elems, s);
  }

  /** Every paragraph of a cut-down run keeps its numbering and reads its item. */
  lemma ShrunkRunReads(elems: seq<Element>, s: nat, items: seq<string>)
    requires s < |elems| && RunLength(elems, s) >= |items|
    ensures var b := Overwrite(Resized(elems, s, RunLength(elems, s), |items|), s, items).0;
      forall i :: 0 <= i < |items| ==> SyncedFrom(b[s + i], elems[s + i], items[i])
  {
    forall i | 0 <= i < |items|
      ensures SyncedFrom(Overwrite(Resized(elems, s, RunLength(elems, s), |items|), s, items).0[s + i],
                         elems[s + i], items[i])
    {
      ShrunkRunReadsAt(elems, s, items, i);
    }
  }

  /** Position `s + i` of a cut-down run. */
  lemma ShrunkRunReadsAt(elems: seq<Element>, s: nat, items: seq<string>, i: nat)
    requires s < |elems| && RunLength(elems, s) >= |items| && i < |items|
    ensures SyncedFrom(Overwrite(Resized(elems, s, RunLength(elems, s), |items|), s, items).0[s + i],
                       elems[s + i], items[i])
  {
    var b0 := Resized(elems, s, RunLength(elems, s), |items|);
    assert b0[s + i] == elems[s + i];
    SyncedListAt(b0, s, items, i);
  }

  /** A shortfall adds exactly one paragraph, a copy of the first list
      paragraph, however many items are missing: behind the items comes
      the old body from position `s + |items| - 1` on. */
  lemma SyncListAddsOneClone(elems: seq<Element>, h: nat, items: seq<string>, s: nat)
    requires FirstListIndex(elems, h + 1) == Some(s) && RunLength(elems, s) < |items|
    requires SyncListUnder(elems, h, items).Ok?
    ensures |SyncListUnder(elems, h, items).value.0| == |elems| + 1
    ensures SyncListUnder(elems, h, items).value.0[..s] == elems[..s]
    ensures SyncListUnder(elems, h, items).value.0[s + |items|..] == elems[s + |items| - 1..]
  {
    var b0 := Resized(elems, s, RunLength(elems, s), |items|);
    SyncListUnderRun(elems, h, items, s);
    OverwriteFrame(b0, s, items);
    SamePrefix(b0, elems, s);
  }

  /** FINDING, as written: when the list is the last thing in the body and at
      least two items are missing, the overwrite loop indexes past the end. */
  lemma SyncListShortfallFails(elems: seq<Element>, h: nat, items: seq<string>, s: nat)
    requires FirstListIndex(elems, h + 1) == Some(s) && s + RunLength(elems, s) == |elems|
    requires |items| >= RunLength(elems, s) + 2
    ensures SyncListUnder(elems, h, items) == Err(IndexError)
  {
  }

  /** FINDING, as written: when a child follows the run and at least two
      items are missing, the sync overwrites the body grown by one clone
      only, so the child after the run (the next heading, a table, a plain
      paragraph) is among the positions overwritten; `OverwriteBehindClone`
      says which item it gets. */
  lemma SyncListOverwritesFollower(elems: seq<Element>, h: nat, items: seq<string>, s: nat)
    requires FirstListIndex(elems, h + 1) == Some(s)
    requires s + RunLength(elems, s) < |elems| && RunLength(elems, s) + 2 <= |items| <= |elems| + 1 - s
    ensures SyncListUnder(elems, h, items).Ok?
    ensures SyncListUnder(elems, h, items).value.0 == Overwrite(Resized(elems, s, RunLength(elems, s), |items|), s, items).0
    ensures |Resized(elems, s, RunLength(elems, s), |items|)| == |elems| + 1
    ensures !IsListElement(elems[s + RunLength(elems, s)]) || IsHeadingElement(elems[s + RunLength(elems, s)])
  {
    SyncListUnderRun(elems, h, items, s);
  }

  /** Behind the one clone, item `k + 1` lands on the child that followed
      the run. */
  lemma OverwriteBehindClone(elems: seq<Element>, s: nat, k: nat, items: seq<string>)
    requires s + k < |elems| && k + 2 <= |items| <= |elems| + 1 - s
    ensures var x := Overwrite(Resized(elems, s, k, |items|), s, items);
      s + k + 1 < |x.0| && x.0[s + k + 1] == Synced(elems[s + k], items[k + 1])
  {
    var b0 := Resized(elems, s, k, |items|);
    assert b0[s + k + 1] == elems[s + k];
    OverwriteAt(b0, s, items, k + 1);
  }

  /** The evidently intended growth: one clone per missing item. */
  function ResizedIntended<T>(elems: seq<T>, s: nat, k: nat, n: nat): (b: seq<T>)
    requires s < |elems| && s + k <= |elems|
    ensures |b| == |elems| - k + n
  {
    if k >= n then Cut(elems, s + n, s + k)
    else InsertAll(elems, s + k, Copies(elems[s], n - k))
  }

  /** Where the intended resize puts what: the run (or its first `n`
      positions) with clones of its first paragraph behind it, between the
      children before and after the old run. */
  lemma ResizedIntendedLayout<T>(elems: seq<T>, s: nat, k: nat, n: nat)
    requires s < |elems| && s + k <= |elems|
    ensures var b := ResizedIntended(elems, s, k, n);
      b[..s] == elems[..s] && b[s + n..] == elems[s + k..] &&
      forall i {:trigger b[s + i]} :: 0 <= i < n ==> b[s + i] == (if i < k then elems[s + i] else elems[s])
  {
    var b := ResizedIntended(elems, s, k, n);
    SamePrefix(b, elems, s);
    if k < n {
      var c := Copies(elems[s], n - k);
      assert b[s + k + |c|..] == elems[s + k..];
      forall i {:trigger b[s + i]} | k <= i < n
        ensures b[s + i] == elems[s]
      {
        assert b[s + k + (i - k)] == c[i - k];
      }
    }
  }

  /** FINDING, corrected: `sync_list_under_heading` growing the run to one
      paragraph per item. */
  function SyncListIntended(elems: seq<Element>, h: nat, items: seq<string>): Result<(seq<Element>, nat), Fault> {
    if |items| == 0 then Ok((elems, 0))
    else match FirstListIndex(elems, h + 1)
      case None => Ok((elems, 0))
      case Some(s) =>
        var b := ResizedIntended(elems, s, RunLength(elems, s), |items|);
        if s + |items| > |b| then Err(IndexError) else Ok(Overwrite(b, s, items))
  }

  /** FINDING, corrected: the intended sync never fails, and leaves exactly
      one list paragraph per item between what came before the run and what
      came after it, each reading its item. */
  lemma SyncListIntendedCorrect(elems: seq<Element>, h: nat, items: seq<string>, s: nat)
    requires |items| > 0 && FirstListIndex(elems, h + 1) == Some(s)
    ensures SyncListIntended(elems, h, items).Ok?
    ensures var (b, c) := SyncListIntended(elems, h, items).value;
      var k := RunLength(elems, s);
      |b| == |elems| - k + |items| && c <= |items| &&
      b[..s] == elems[..s] && b[s + |items|..] == elems[s + k..]
    ensures var b := SyncListIntended(elems, h, items).value.0;
      forall i :: 0 <= i < |items| ==> IsListItem(b[s + i], items[i])
  {
    IntendedFound(elems, h, items, s);
    IntendedFrame(elems, s, items);
    IntendedRunReads(elems, s, items);
  }

  /** Once the run is found, the intended sync is the overwrite of the grown body. */
  lemma IntendedFound(elems: seq<Element>, h: nat, items: seq<string>, s: nat)
    requires |items| > 0 && FirstListIndex(elems, h + 1) == Some(s)
    ensures RunLength(elems, s) > 0
    ensures SyncListIntended(elems, h, items) ==
            Ok(Overwrite(ResizedIntended(elems, s, RunLength(elems, s), |items|), s, items))
  {
  }

  /** What the intended sync leaves around the items. */
  lemma IntendedFrame(elems: seq<Element>, s: nat, items: seq<string>)
    requires s < |elems|
    ensures var k := RunLength(elems, s);
      var (b, c) := Overwrite(ResizedIntended(elems, s, k, |items|), s, items);
      |b| == |elems| - k + |items| && c <= |items| &&
      b[..s] == elems[..s] && b[s + |items|..] == elems[s + k..]
  {
    var b0 := ResizedIntended(elems, s, RunLength(elems, s), |items|);
    ResizedIntendedLayout(elems, s, RunLength(elems, s), |items|);
    OverwriteFrame(b0, s, items);
  }

  /** Every paragraph of the intended run reads its item. */
  lemma IntendedRunReads(elems: seq<Element>, s: nat, items: seq<string>)
    requires s < |elems| && IsListElement(elems[s]) && RunLength(elems, s) > 0
    ensures var b := Overwrite(ResizedIntended(elems, s, RunLength(elems, s), |items|), s, items).0;
      forall i :: 0 <= i < |items| ==> IsListItem(b[s + i], items[i])
  {
    forall i | 0 <= i < |items|
      ensures IsListItem(Overwrite(ResizedIntended(elems, s, RunLength(elems, s), |items|), s, items).0[s + i], items[i])
    {
      IntendedRunReadsAt(elems, s, items, i);
    }
  }

  /** Position `s + i` of the intended run. */
  lemma IntendedRunReadsAt(elems: seq<Element>, s: nat, items: seq<string>, i: nat)
    requires s < |elems| && IsListElement(elems[s]) && RunLength(elems, s) > 0 && i < |items|
    ensures IsListItem(Overwrite(ResizedIntended(elems, s, RunLength(elems, s), |items|), s, items).0[s + i], items[i])
  {
    var k := RunLength(elems, s);
    var b0 := ResizedIntended(elems, s, k, |items|);
    ResizedIntendedLayout(elems, s, k, |items|);
    assert b0[s + i] == (if i < k then elems[s + i] else elems[s]);
    SyncedListAt(b0, s, items, i);
  }

  /** The scan after the heading: the positions of the first run of list
      paragraphs before the next heading. */
  method ScanListRun(elems: seq<Element>, idx: nat) returns (listIdxs: seq<nat>)
    ensures FirstListIndex(elems, idx + 1).None? ==> listIdxs == []
    ensures FirstListIndex(elems, idx + 1).Some? ==>
      var s := FirstListIndex(elems, idx + 1).value;
      IsRun(listIdxs, s, RunLength(elems, s)) && listIdxs != []
  {
    var j := idx + 1;
    listIdxs := [];
    while j < |elems|
      invariant idx + 1 <= j
      invariant listIdxs == [] ==> FirstListIndex(elems, idx + 1) == FirstListIndex(elems, j)
      invariant listIdxs != [] ==> (FirstListIndex(elems, idx + 1) == Some(listIdxs[0]) &&
                                     listIdxs[0] < j <= |elems| && IsRun(listIdxs, listIdxs[0], j - listIdxs[0]) &&
                                     RunLength(elems, listIdxs[0]) == j - listIdxs[0] + RunLength(elems, j))
      decreases |elems| - j
    {
      var el := elems[j];
      if IsHeadingElement(el) {
        break;
      }
      if IsListElement(el) {
        listIdxs := listIdxs + [j];
      } else if listIdxs != [] {
        break;
      }
      j := j + 1;
    }
  }

  /** One more item counted. */
  lemma MismatchesSnoc(b: seq<Element>, s: nat, items: seq<string>, i: nat)
    requires s + i < |b| && i < |items|
    ensures Mismatches(b, s, items[..i + 1]) ==
            Mismatches(b, s, items[..i]) + (if ElementText(b[s + i]) != items[i] then 1 else 0)
  {
    assert items[..i + 1][..i] == items[..i];
  }

  /** The overwrite loop on the body in place. */
  method OverwriteItems(body: Body, s: nat, listIdxs: seq<nat>, items: seq<string>) returns (r: Result<nat, Fault>)
    requires IsRun(listIdxs, s, |items|) && s < |body.elems|
    modifies body
    ensures s + |items| > old(|body.elems|) ==> r == Err(IndexError)
    ensures s + |items| <= old(|body.elems|) ==> (r.Ok? && (body.elems, r.value) == Overwrite(old(body.elems), s, items))
  {
    ghost var b := body.elems;
    var changed := 0;
    SpliceEmpty(b, s);
    for i := 0 to |items|
      invariant s + i <= |b|
      invariant body.elems == Splice(b, s, SyncedAll(b, s, items[..i]))
      invariant changed == Mismatches(b, s, items[..i])
    {
      if listIdxs[i] >= |body.elems| {
        return Err(IndexError);
      }
      ZipSpliceStep(b, s, items, i, Synced);
      MismatchesSnoc(b, s, items, i);
      var p := body.elems[listIdxs[i]];
      if ElementText(p) != items[i] {
        body.SetText(listIdxs[i], items[i]);
        changed := changed + 1;
      }
    }
    assert items[..|items|] == items;
    return Ok(changed);
  }

  /** The grow loop on the body in place: a shortfall inserts one copy of
      the first list paragraph behind the run, and the index list jumps to
      its full length. */
  method GrowRun(body: Body, s: nat, listIdxs0: seq<nat>, n: nat) returns (listIdxs: seq<nat>)
    requires |listIdxs0| > 0 && IsRun(listIdxs0, s, |listIdxs0|) && s + |listIdxs0| <= |body.elems|
    modifies body
    ensures |listIdxs0| >= n ==> listIdxs == listIdxs0 && body.elems == old(body.elems)
    ensures |listIdxs0| < n ==> (IsRun(listIdxs, s, n) &&
                                 body.elems == Resized(old(body.elems), s, |listIdxs0|, n))
  {
    ghost var e0 := body.elems;
    listIdxs := listIdxs0;
    var template := body.elems[listIdxs0[0]];
    while |listIdxs| < n
      invariant (listIdxs == listIdxs0 && body.elems == e0) ||
                (|listIdxs0| < n && IsRun(listIdxs, s, n) && body.elems == Resized(e0, s, |listIdxs0|, n))
      decreases n - |listIdxs|
    {
      var insertAt := listIdxs[|listIdxs| - 1] + 1;
      body.Insert(insertAt, template);
      listIdxs := Range(listIdxs[0], n);
    }
  }

  /** The shrink loop on the body in place: a surplus is removed from the
      end of the run. */
  method ShrinkRun(body: Body, s: nat, listIdxs0: seq<nat>, n: nat) returns (listIdxs: seq<nat>)
    requires IsRun(listIdxs0, s, |listIdxs0|) && n <= |listIdxs0|
    requires n < |listIdxs0| ==> s + |listIdxs0| <= |body.elems|
    modifies body
    ensures IsRun(listIdxs, s, n)
    ensures n == |listIdxs0| ==> body.elems == old(body.elems)
    ensures n < |listIdxs0| ==> body.elems == Cut(old(body.elems), s + n, s + |listIdxs0|)
  {
    listIdxs := listIdxs0;
    if n == |listIdxs0| {
      return;
    }
    ghost var e0 := body.elems;
    ghost var k := |listIdxs0|;
    CutNone(e0, s + k);
    while |listIdxs| > n
      invariant n <= |listIdxs| <= k && IsRun(listIdxs, s, |listIdxs|)
      invariant body.elems == Cut(e0, s + |listIdxs|, s + k)
      decreases |listIdxs|
    {
      listIdxs := ShrinkStep(body, e0, s, k, listIdxs);
    }
  }

  /** One turn of the shrink loop: the last paragraph of the run removed. */
  method ShrinkStep(body: Body, ghost e0: seq<Element>, s: nat, ghost k: nat, listIdxs0: seq<nat>)
    returns (listIdxs: seq<nat>)
    requires 0 < |listIdxs0| <= k && s + k <= |e0| && IsRun(listIdxs0, s, |listIdxs0|)
    requires body.elems == Cut(e0, s + |listIdxs0|, s + k)
    modifies body
    ensures IsRun(listIdxs, s, |listIdxs0| - 1)
    ensures body.elems == Cut(e0, s + |listIdxs|, s + k)
  {
    var m := |listIdxs0|;
    var rm := listIdxs0[m - 1];
    assert rm == s + (m - 1);
    CutStep(e0, s + m, s + k);
    RunPrefix(listIdxs0, s);
    listIdxs := listIdxs0[..m - 1];
    body.RemoveAt(rm);
  }

  /** `sync_list_under_heading` after the heading was found at `h`, on the body in place. */
  method SyncListAfter(body: Body, h: nat, items: seq<string>) returns (r: Result<nat, Fault>)
    modifies body
    ensures match SyncListUnder(old(body.elems), h, items)
      case Ok((b, c)) => r == Ok(c) && body.elems == b
      case Err(f) => r == Err(f)
  {
    if |items| == 0 {
      return Ok(0);
    }
    ghost var e0 := body.elems;
    var listIdxs := ScanListRun(body.elems, h);
    if listIdxs == [] {
      return Ok(0);
    }
    var s := listIdxs[0];
    SyncListUnderRun(e0, h, items, s);
    ghost var k := |listIdxs|;
    ghost var b := Resized(e0, s, k, |items|);
    assert s < |b| by {
      assert s + k <= |e0|;
    }
    CutNone(e0, s + k);
    listIdxs := GrowRun(body, s, listIdxs, |items|);
    listIdxs := ShrinkRun(body, s, listIdxs, |items|);
    assert body.elems == b;
    r := OverwriteItems(body, s, listIdxs, items);
    if s + |items| > |b| {
      assert r == Err(IndexError);
    } else {
      assert r == Ok(Overwrite(b, s, items).1) && body.elems == Overwrite(b, s, items).0;
    }
  }

  /** `sync_list_under_heading`, run on the body in place. */
  method SyncListUnderHeading(body: Body, heading: string, items: seq<string>) returns (r: Result<nat, Fault>)
    modifies body
    ensures match SyncListSpec(old(body.elems), heading, items)
      case Ok((b, c)) => r == Ok(c) && body.elems == b
      case Err(f) => r == Err(f)
  {
    if |items| == 0 {
      return Ok(0);
    }
    var found := FindHeadingIndex(body.elems, heading);
    if found.None? {
      return Ok(0);
    }
    r := SyncListAfter(body, found.value, items);
  }
}
