/** The numbering part (`word/numbering.xml`, section 17.9 of ECMA-376 Part 1)
    as the patchers see it, and the allocator that picks or creates abstract
    definitions and num instances with fresh numeric ids. */
module Numbering {
  import opened Wrappers
  import opened Strings
  import opened OrderedDict

  /** `w:lvl`: its `w:ilvl`, the `w:val` of its `w:numFmt` and of its `w:lvlText`
      (None when the element is absent). */
  datatype Level = Level(ilvl: string, numFmt: Option<string>, lvlText: Option<string>)

  /** `w:abstractNum`: its `w:abstractNumId` ("" when absent) and levels. */
  datatype AbstractNum = AbstractNum(id: string, levels: seq<Level>)

  /** `w:lvlOverride`: its `w:ilvl` and the `w:val` of its `w:startOverride`
      (None when there is no such child). */
  datatype LvlOverride = LvlOverride(ilvl: string, startOverride: Option<string>)

  /** `w:num`: its `w:numId` ("" when absent), the `w:val` of its
      `w:abstractNumId` child, and its level overrides. */
  datatype Num = Num(id: string, absId: Option<string>, overrides: seq<LvlOverride>)

  // ---------------------------------------------------------------------------
  // fresh numeric ids: max_attr_int

  /** The largest `int(id)` over the ids that pass `isdigit`, if any. */
  function MaxDigits(ids: seq<string>): (r: Option<nat>)
    ensures r.None? <==> forall i :: 0 <= i < |ids| ==> !IsDigits(ids[i])
    ensures r.Some? ==> forall i :: 0 <= i < |ids| && IsDigits(ids[i]) ==> DigitsValue(ids[i]) <= r.value
    ensures r.Some? ==> exists i :: 0 <= i < |ids| && IsDigits(ids[i]) && DigitsValue(ids[i]) == r.value
  {
    if ids == [] then None
    else
      var n := |ids| - 1;
      var prev := MaxDigits(ids[..n]);
      assert forall i :: 0 <= i < n ==> ids[..n][i] == ids[i];
      if !IsDigits(ids[n]) then prev
      else if prev.None? || prev.value < DigitsValue(ids[n]) then Some(DigitsValue(ids[n]))
      else prev
  }

  /** `max_attr_int`: the largest numeric id, or `default` when none is numeric. */
  function MaxAttrIntOf(ids: seq<string>, default: nat): nat {
    MaxDigits(ids).GetOr(default)
  }

  /** One more than `max_attr_int` is a numeric id no existing id spells. */
  lemma FreshIdUnused(ids: seq<string>, default: nat)
    ensures NatToString(MaxAttrIntOf(ids, default) + 1) !in ids
    ensures IsDigits(NatToString(MaxAttrIntOf(ids, default) + 1))
  {
    var m := MaxAttrIntOf(ids, default);
    NatToStringRoundTrip(m + 1);
    forall i | 0 <= i < |ids| ensures ids[i] != NatToString(m + 1) {
      if IsDigits(ids[i]) {
        assert DigitsValue(ids[i]) <= m;
      }
    }
  }

  function AbsIds(abs: seq<AbstractNum>): (ids: seq<string>)
    ensures |ids| == |abs| && forall i :: 0 <= i < |abs| ==> ids[i] == abs[i].id
  {
    seq(|abs|, i requires 0 <= i < |abs| => abs[i].id)
  }

  function NumIds(nums: seq<Num>): (ids: seq<string>)
    ensures |ids| == |nums| && forall i :: 0 <= i < |nums| ==> ids[i] == nums[i].id
  {
    seq(|nums|, i requires 0 <= i < |nums| => nums[i].id)
  }

  // ---------------------------------------------------------------------------
  // ensure_num_start_override

  /** Position of the first num whose id is `id`. */
  function FirstNumIndex(nums: seq<Num>, id: string): (r: Option<nat>)
    ensures r.Some? ==> r.value < |nums| && nums[r.value].id == id &&
                        forall j :: 0 <= j < r.value ==> nums[j].id != id
    ensures r.None? ==> forall j :: 0 <= j < |nums| ==> nums[j].id != id
  {
    if nums == [] then None
    else if nums[0].id == id then Some(0)
    else match FirstNumIndex(nums[1..], id)
      case Some(k) => Some(k + 1)
      case None => None
  }

  /** Position of the first ilvl-0 override. */
  function FirstOverride0(ovs: seq<LvlOverride>): (r: Option<nat>)
    ensures r.Some? ==> r.value < |ovs| && ovs[r.value].ilvl == "0" &&
                        forall j :: 0 <= j < r.value ==> ovs[j].ilvl != "0"
    ensures r.None? ==> forall j :: 0 <= j < |ovs| ==> ovs[j].ilvl != "0"
  {
    if ovs == [] then None
    else if ovs[0].ilvl == "0" then Some(0)
    else match FirstOverride0(ovs[1..])
      case Some(k) => Some(k + 1)
      case None => None
  }

  /** The ilvl-0 start override a num ends up with: "1", whatever was there. */
  predicate StartsAtOne(n: Num) {
    var k := FirstOverride0(n.overrides);
    k.Some? && n.overrides[k.value].startOverride == Some("1")
  }

  lemma {:induction false} FirstOverride0Snoc(ovs: seq<LvlOverride>, o: LvlOverride)
    requires FirstOverride0(ovs).None? && o.ilvl == "0"
    ensures FirstOverride0(ovs + [o]) == Some(|ovs|)
  {
    if ovs != [] {
      assert (ovs + [o])[1..] == ovs[1..] + [o];
      FirstOverride0Snoc(ovs[1..], o);
    } else {
      assert [] + [o] == [o];
    }
  }

  lemma {:induction false} FirstOverride0Same(a: seq<LvlOverride>, b: seq<LvlOverride>)
    requires |a| == |b| && forall j :: 0 <= j < |a| ==> a[j].ilvl == b[j].ilvl
    ensures FirstOverride0(a) == FirstOverride0(b)
  {
    if a != [] {
      FirstOverride0Same(a[1..], b[1..]);
    }
  }

  /** One num after `ensure_num_start_override`, and whether it changed. */
  function WithStartOne(n: Num): (r: (Num, bool))
    ensures StartsAtOne(r.0) && r.0.id == n.id && r.0.absId == n.absId
    ensures r.1 <==> !StartsAtOne(n)
    ensures !r.1 ==> r.0 == n
  {
    match FirstOverride0(n.overrides)
    case None =>
      var ovs := n.overrides + [LvlOverride("0", Some("1"))];
      FirstOverride0Snoc(n.overrides, LvlOverride("0", Some("1")));
      (Num(n.id, n.absId, ovs), true)
    case Some(k) =>
      if n.overrides[k].startOverride == Some("1") then (n, false)
      else
        var ovs := n.overrides[k := LvlOverride("0", Some("1"))];
        FirstOverride0Same(n.overrides, ovs);
        (Num(n.id, n.absId, ovs), true)
  }

  /** `ensure_num_start_override` on the list of nums. */
  function StartOverrideSpec(nums: seq<Num>, id: string): (seq<Num>, bool) {
    match FirstNumIndex(nums, id)
    case None => (nums, false)
    case Some(t) =>
      var (n, changed) := WithStartOne(nums[t]);
      (nums[t := n], changed)
  }

  /** A missing num is reported unchanged; a present one ends with its ilvl-0
      override starting at 1, nothing else touched, and a second call
      reports no change. */
  lemma StartOverrideEffect(nums: seq<Num>, id: string)
    ensures FirstNumIndex(nums, id).None? ==> StartOverrideSpec(nums, id) == (nums, false)
    ensures FirstNumIndex(nums, id).Some? ==>
      var t := FirstNumIndex(nums, id).value;
      var after := StartOverrideSpec(nums, id).0;
      |after| == |nums| && StartsAtOne(after[t]) &&
      (forall j :: 0 <= j < |nums| && j != t ==> after[j] == nums[j]) &&
      StartOverrideSpec(after, id) == (after, false)
  {
    if FirstNumIndex(nums, id).Some? {
      var t := FirstNumIndex(nums, id).value;
      var after := StartOverrideSpec(nums, id).0;
      assert after == nums[t := WithStartOne(nums[t]).0];
      assert FirstNumIndex(after, id) == Some(t) by {
        FirstNumIndexSame(nums, after, id);
      }
      assert StartsAtOne(after[t]);
      assert WithStartOne(after[t]) == (after[t], false);
      assert after[t := after[t]] == after;
    }
  }

  /** The first num with an id is found again when ids are unchanged. */
  lemma {:induction false} FirstNumIndexSame(a: seq<Num>, b: seq<Num>, id: string)
    requires |a| == |b| && forall j :: 0 <= j < |a| ==> a[j].id == b[j].id
    ensures FirstNumIndex(a, id) == FirstNumIndex(b, id)
  {
    if a != [] {
      FirstNumIndexSame(a[1..], b[1..], id);
    }
  }

  // ---------------------------------------------------------------------------
  // ensure_num_id_for_format: choosing an abstract definition

  /** The first level whose ilvl is "0". */
  function Lvl0(levels: seq<Level>): (r: Option<Level>)
    ensures r.Some? ==> r.value in levels && r.value.ilvl == "0"
  {
    if levels == [] then None
    else if levels[0].ilvl == "0" then Some(levels[0])
    else Lvl0(levels[1..])
  }

  /** The (format, level text) an abstract definition contributes to
      `abstract_meta`, if it contributes: a non-empty id and a level 0 with a
      `w:numFmt`. */
  function MetaOf(a: AbstractNum): Option<(string, string)> {
    if a.id == "" then None
    else match Lvl0(a.levels)
      case None => None
      case Some(l) => if l.numFmt.None? then None else Some((l.numFmt.value, l.lvlText.GetOr("")))
  }

  function MetaKeys(abs: seq<AbstractNum>): (keys: seq<Option<string>>)
    ensures |keys| == |abs|
    ensures forall i :: 0 <= i < |abs| ==> keys[i] == if MetaOf(abs[i]).Some? then Some(abs[i].id) else None
  {
    seq(|abs|, i requires 0 <= i < |abs| => if MetaOf(abs[i]).Some? then Some(abs[i].id) else None)
  }

  /** `abstract_meta`, as abstract id to the position of its last definition. */
  function MetaDict(abs: seq<AbstractNum>): Index {
    Build(PairsOf(MetaKeys(abs)))
  }

  /** A definition may be reused for `fmt`: same format and, for bullets, a
      visible glyph. */
  predicate Qualifies(meta: (string, string), fmt: string) {
    meta.0 == fmt && (fmt == "bullet" ==> Strip(meta.1) != [])
  }

  predicate EntryQualifies(abs: seq<AbstractNum>, e: (string, nat), fmt: string) {
    e.1 < |abs| && MetaOf(abs[e.1]).Some? && Qualifies(MetaOf(abs[e.1]).value, fmt)
  }

  /** The first dict item, in iteration order, whose definition qualifies. */
  function FirstQualifying(m: Index, abs: seq<AbstractNum>, fmt: string): (r: Option<string>)
    ensures r.Some? ==> exists j :: 0 <= j < |m| && m[j].0 == r.value && EntryQualifies(abs, m[j], fmt)
    ensures r.None? ==> forall j :: 0 <= j < |m| ==> !EntryQualifies(abs, m[j], fmt)
  {
    if m == [] then None
    else if EntryQualifies(abs, m[0], fmt) then Some(m[0].0)
    else
      var r := FirstQualifying(m[1..], abs, fmt);
      assert forall j :: 0 < j < |m| ==> m[j] == m[1..][j - 1];
      r
  }

  /** The abstract definition `ensure_num_id_for_format` reuses, if any. */
  function ChooseAbstract(abs: seq<AbstractNum>, fmt: string): Option<string> {
    FirstQualifying(MetaDict(abs), abs, fmt)
  }

  /** A chosen definition has the requested format, and a bullet definition
      whose glyph is blank is never chosen. */
  lemma ChosenAbstractQualifies(abs: seq<AbstractNum>, fmt: string)
    requires ChooseAbstract(abs, fmt).Some?
    ensures exists i :: (0 <= i < |abs| && abs[i].id == ChooseAbstract(abs, fmt).value &&
                         MetaOf(abs[i]).Some? && MetaOf(abs[i]).value.0 == fmt &&
                         (fmt == "bullet" ==> Strip(MetaOf(abs[i]).value.1) != []))
  {
    var m := MetaDict(abs);
    var j :| 0 <= j < |m| && m[j].0 == ChooseAbstract(abs, fmt).value && EntryQualifies(abs, m[j], fmt);
    BuildEntries(PairsOf(MetaKeys(abs)));
    assert m[j] in PairsOf(MetaKeys(abs));
  }

  /** The abstract definition synthesised when none qualifies. */
  function NewAbstract(id: string, fmt: string): AbstractNum {
    AbstractNum(id, [Level("0", Some(fmt), Some(if fmt == "decimal" then "%1." else "•"))])
  }

  /** The id of the first num on abstract `target` (with a non-empty id). */
  function FirstNumOf(nums: seq<Num>, target: string): (r: Option<string>)
    ensures r.Some? ==> exists j :: 0 <= j < |nums| && nums[j].id == r.value && r.value != "" &&
                                    nums[j].absId == Some(target)
    ensures r.None? ==> forall j :: 0 <= j < |nums| ==> nums[j].id == "" || nums[j].absId != Some(target)
  {
    if nums == [] then None
    else if nums[0].id != "" && nums[0].absId == Some(target) then Some(nums[0].id)
    else
      var r := FirstNumOf(nums[1..], target);
      assert forall j :: 0 < j < |nums| ==> nums[j] == nums[1..][j - 1];
      r
  }

  /** The abstract id `ensure_num_id_for_format` settles on: the chosen one,
      else one more than the largest numeric abstract id (2000 when none). */
  function TargetAbstract(abs: seq<AbstractNum>, fmt: string): string {
    match ChooseAbstract(abs, fmt)
    case Some(aid) => aid
    case None => NatToString(MaxAttrIntOf(AbsIds(abs), 1999) + 1)
  }

  /** `ensure_num_id_for_format`: the new definitions, the new nums and the
      numId returned. */
  function EnsureNumIdSpec(abs: seq<AbstractNum>, nums: seq<Num>, fmt: string, restart: bool)
    : (seq<AbstractNum>, seq<Num>, string)
  {
    var target := TargetAbstract(abs, fmt);
    var abs' := if ChooseAbstract(abs, fmt).Some? then abs else abs + [NewAbstract(target, fmt)];
    var reuse := if restart then None else FirstNumOf(nums, target);
    if reuse.Some? then (abs', nums, reuse.value)
    else
      var newId := NatToString(MaxAttrIntOf(NumIds(nums), 999) + 1);
      var ovs := if restart && fmt == "decimal" then [LvlOverride("0", Some("1"))] else [];
      (abs', nums + [Num(newId, Some(target), ovs)], newId)
  }

  /** With `restart` a num is always appended, under an id no existing num
      has, on a definition of the requested format; a decimal one restarts at 1. */
  lemma EnsureNumIdRestartFresh(abs: seq<AbstractNum>, nums: seq<Num>, fmt: string)
    ensures var (abs', nums', id) := EnsureNumIdSpec(abs, nums, fmt, true);
      |nums'| == |nums| + 1 && nums'[..|nums|] == nums &&
      nums'[|nums|].id == id && id !in NumIds(nums) && IsDigits(id) &&
      nums'[|nums|].absId == Some(TargetAbstract(abs, fmt)) &&
      (fmt == "decimal" ==> StartsAtOne(nums'[|nums|]))
  {
    FreshIdUnused(NumIds(nums), 999);
    var (abs', nums', id) := EnsureNumIdSpec(abs, nums, fmt, true);
    assert nums'[..|nums|] == nums;
  }

  /** A synthesised definition's id is fresh. */
  lemma NewAbstractIdFresh(abs: seq<AbstractNum>, fmt: string)
    requires ChooseAbstract(abs, fmt).None?
    ensures TargetAbstract(abs, fmt) !in AbsIds(abs) && TargetAbstract(abs, fmt) != ""
  {
    FreshIdUnused(AbsIds(abs), 1999);
  }

  lemma {:induction false} FirstQualifyingExtend(m: Index, abs: seq<AbstractNum>, extra: AbstractNum, fmt: string)
    requires forall j :: 0 <= j < |m| ==> m[j].1 < |abs|
    ensures FirstQualifying(m, abs + [extra], fmt) == FirstQualifying(m, abs, fmt)
  {
    if m != [] {
      assert (abs + [extra])[m[0].1] == abs[m[0].1];
      FirstQualifyingExtend(m[1..], abs, extra, fmt);
    }
  }

  lemma {:induction false} FirstQualifyingAppend(m: Index, x: (string, nat), abs: seq<AbstractNum>, fmt: string)
    ensures FirstQualifying(m + [x], abs, fmt) ==
      if FirstQualifying(m, abs, fmt).Some? then FirstQualifying(m, abs, fmt)
      else if EntryQualifies(abs, x, fmt) then Some(x.0) else None
  {
    if m == [] {
      assert [] + [x] == [x];
    } else {
      assert (m + [x])[1..] == m[1..] + [x];
      FirstQualifyingAppend(m[1..], x, abs, fmt);
    }
  }

  lemma PairsOfSnoc(keys: seq<Option<string>>, k: string)
    ensures PairsOf(keys + [Some(k)]) == PairsOf(keys) + [(k, |keys|)]
  {
    assert (keys + [Some(k)])[..|keys|] == keys;
  }

  lemma MetaKeysSnoc(abs: seq<AbstractNum>, x: AbstractNum)
    requires MetaOf(x).Some?
    ensures MetaKeys(abs + [x]) == MetaKeys(abs) + [Some(x.id)]
  {
    var abs' := abs + [x];
    assert forall i :: 0 <= i < |abs| ==> abs'[i] == abs[i];
  }

  lemma MetaPairsAvoid(abs: seq<AbstractNum>, k: string)
    requires k !in AbsIds(abs)
    ensures forall j :: 0 <= j < |PairsOf(MetaKeys(abs))| ==> PairsOf(MetaKeys(abs))[j].0 != k
  {
    var keys := MetaKeys(abs);
    var pairs := PairsOf(keys);
    forall j | 0 <= j < |pairs| ensures pairs[j].0 != k {
      var p := pairs[j].1;
      assert keys[p] == Some(pairs[j].0);
      assert AbsIds(abs)[p] == abs[p].id;
    }
  }

  /** The dict of definitions gains the synthesised id at its end. */
  lemma MetaDictAfterSynthesis(abs: seq<AbstractNum>, fmt: string)
    requires ChooseAbstract(abs, fmt).None?
    ensures MetaDict(abs + [NewAbstract(TargetAbstract(abs, fmt), fmt)]) ==
      MetaDict(abs) + [(TargetAbstract(abs, fmt), |abs|)]
  {
    var k := TargetAbstract(abs, fmt);
    var x := NewAbstract(k, fmt);
    NewAbstractIdFresh(abs, fmt);
    assert MetaOf(x).Some?;
    MetaKeysSnoc(abs, x);
    PairsOfSnoc(MetaKeys(abs), k);
    MetaPairsAvoid(abs, k);
    BuildSnocAbsent(PairsOf(MetaKeys(abs)), k, |abs|);
  }

  lemma MetaDictPositions(abs: seq<AbstractNum>)
    ensures forall j :: 0 <= j < |MetaDict(abs)| ==> MetaDict(abs)[j].1 < |abs|
  {
    var pairs := PairsOf(MetaKeys(abs));
    BuildEntries(pairs);
    forall j | 0 <= j < |MetaDict(abs)| ensures MetaDict(abs)[j].1 < |abs| {
      assert MetaDict(abs)[j] in pairs;
    }
  }

  /** Once a definition is synthesised, the next search settles on it. */
  lemma ChooseAfterSynthesis(abs: seq<AbstractNum>, fmt: string)
    requires ChooseAbstract(abs, fmt).None?
    ensures ChooseAbstract(abs + [NewAbstract(TargetAbstract(abs, fmt), fmt)], fmt) == Some(TargetAbstract(abs, fmt))
  {
    var k := TargetAbstract(abs, fmt);
    var x := NewAbstract(k, fmt);
    var abs' := abs + [x];
    MetaDictAfterSynthesis(abs, fmt);
    MetaDictPositions(abs);
    var m := MetaDict(abs);
    FirstQualifyingExtend(m, abs, x, fmt);
    FirstQualifyingAppend(m, (k, |abs|), abs', fmt);
    assert abs'[|abs|] == x;
    NewAbstractIdFresh(abs, fmt);
    StripBullet();
    assert EntryQualifies(abs', (k, |abs|), fmt);
  }

  lemma StripBullet()
    ensures Strip("•") == "•" && Strip("%1.") == "%1."
  {
    assert !IsSpace('•');
    assert RStrip("•") == "•";
    assert LStrip("%1.") == "%1.";
    assert RStrip("%1.") == "%1.";
  }

  /** Without `restart` the allocator is stable: asking again for the same
      format answers the same numId and changes nothing. */
  lemma EnsureNumIdStable(abs: seq<AbstractNum>, nums: seq<Num>, fmt: string)
    ensures var (abs1, nums1, id1) := EnsureNumIdSpec(abs, nums, fmt, false);
      EnsureNumIdSpec(abs1, nums1, fmt, false) == (abs1, nums1, id1)
  {
    var (abs1, nums1, id1) := EnsureNumIdSpec(abs, nums, fmt, false);
    var target := TargetAbstract(abs, fmt);
    if ChooseAbstract(abs, fmt).None? {
      ChooseAfterSynthesis(abs, fmt);
    }
    assert ChooseAbstract(abs1, fmt) == Some(target);
    assert TargetAbstract(abs1, fmt) == target;
    if FirstNumOf(nums, target).None? {
      var newId := NatToString(MaxAttrIntOf(NumIds(nums), 999) + 1);
      NatToStringRoundTrip(MaxAttrIntOf(NumIds(nums), 999) + 1);
      assert nums1 == nums + [Num(newId, Some(target), [])];
      FirstNumOfSnoc(nums, Num(newId, Some(target), []), target);
    }
  }

  lemma {:induction false} FirstNumOfSnoc(nums: seq<Num>, n: Num, target: string)
    requires FirstNumOf(nums, target).None? && n.id != "" && n.absId == Some(target)
    ensures FirstNumOf(nums + [n], target) == Some(n.id)
  {
    if nums != [] {
      assert (nums + [n])[1..] == nums[1..] + [n];
      FirstNumOfSnoc(nums[1..], n, target);
    }
  }

  // ---------------------------------------------------------------------------
  // prepare_decimal_num_ids

  /** The first `w:numFmt` anywhere inside an abstract definition. */
  function FirstFmt(levels: seq<Level>): Option<string> {
    if levels == [] then None
    else if levels[0].numFmt.Some? then levels[0].numFmt
    else FirstFmt(levels[1..])
  }

  function FmtKeys(abs: seq<AbstractNum>): (keys: seq<Option<string>>)
    ensures |keys| == |abs|
    ensures forall i :: 0 <= i < |abs| ==>
      keys[i] == if abs[i].id != "" && FirstFmt(abs[i].levels).Some? then Some(abs[i].id) else None
  {
    seq(|abs|, i requires 0 <= i < |abs| =>
      if abs[i].id != "" && FirstFmt(abs[i].levels).Some? then Some(abs[i].id) else None)
  }

  /** `abstract_fmt.get(aid)`: the format of the LAST definition with that id. */
  function AbstractFmt(abs: seq<AbstractNum>, aid: string): Option<string> {
    match Lookup(Build(PairsOf(FmtKeys(abs))), aid)
    case None => None
    case Some(pos) => if pos < |abs| then FirstFmt(abs[pos].levels) else None
  }

  function AbsIdOf(n: Num): string {
    n.absId.GetOr("")
  }

  /** `decimal_nums`: (numId, abstract id) of every num with an id whose
      abstract definition is decimal, in document order. */
  function DecimalNums(abs: seq<AbstractNum>, nums: seq<Num>): (r: seq<(string, string)>)
    ensures forall k :: 0 <= k < |r| ==> r[k].0 != "" && AbstractFmt(abs, r[k].1) == Some("decimal")
    ensures |r| <= |nums|
  {
    if nums == [] then []
    else
      var n := nums[|nums| - 1];
      var prev := DecimalNums(abs, nums[..|nums| - 1]);
      if n.id != "" && AbstractFmt(abs, AbsIdOf(n)) == Some("decimal") then prev + [(n.id, AbsIdOf(n))]
      else prev
  }

  const DefaultNumId: string := "1003"

  /** `prepare_decimal_num_ids` on a parsed numbering part (None when the
      package has none or it does not parse): the numIds for flow A and flow
      B, and the new nums when the part must be written back. */
  function PrepareSpec(part: Option<(seq<AbstractNum>, seq<Num>)>): (string, string, Option<seq<Num>>) {
    match part
    case None => (DefaultNumId, DefaultNumId, None)
    case Some((abs, nums)) =>
      var dec := DecimalNums(abs, nums);
      if dec == [] then (DefaultNumId, DefaultNumId, None)
      else if |dec| >= 2 then
        var (nums', updated) := StartOverrideSpec(nums, dec[1].0);
        (dec[0].0, dec[1].0, if updated then Some(nums') else None)
      else
        var newId := NatToString(MaxAttrIntOf(NumIds(nums), 1999) + 1);
        (dec[0].0, newId, Some(nums + [Num(newId, Some(dec[0].1), [LvlOverride("0", Some("1"))])]))
  }

  /** With exactly one decimal num, flow B gets a new num under a fresh numeric
      id on the same abstract definition, restarting at 1. */
  lemma PrepareOneDecimal(abs: seq<AbstractNum>, nums: seq<Num>)
    requires |DecimalNums(abs, nums)| == 1
    ensures var (a, b, out) := PrepareSpec(Some((abs, nums)));
      a == DecimalNums(abs, nums)[0].0 && out.Some? &&
      out.value[..|nums|] == nums && |out.value| == |nums| + 1 &&
      out.value[|nums|].id == b && b !in NumIds(nums) && IsDigits(b) &&
      out.value[|nums|].absId == Some(DecimalNums(abs, nums)[0].1) &&
      StartsAtOne(out.value[|nums|])
  {
    FreshIdUnused(NumIds(nums), 1999);
    var (a, b, out) := PrepareSpec(Some((abs, nums)));
    assert out.value[..|nums|] == nums;
  }

  /** With two or more, flow B is the second decimal num, made to restart at 1. */
  lemma PrepareTwoDecimals(abs: seq<AbstractNum>, nums: seq<Num>)
    requires |DecimalNums(abs, nums)| >= 2
    ensures var (a, b, out) := PrepareSpec(Some((abs, nums)));
      a == DecimalNums(abs, nums)[0].0 && b == DecimalNums(abs, nums)[1].0 && a != "" && b != "" &&
      (out.Some? ==> out.value == StartOverrideSpec(nums, b).0) &&
      (out.None? ==> StartOverrideSpec(nums, b).0 == nums)
  {
    var b := DecimalNums(abs, nums)[1].0;
    StartOverrideEffect(nums, b);
    match FirstNumIndex(nums, b) {
      case None =>
      case Some(t) =>
        var (n, c) := WithStartOne(nums[t]);
        if !c {
          assert nums[t := n] == nums;
        }
    }
  }
}

module NumberingPart {
  import opened Wrappers
  import opened Strings
  import opened OrderedDict
  import opened Numbering

  /** `max_attr_int`, as its loop: the numeric ids' maximum, kept as it goes. */
  method MaxAttrInt(ids: seq<string>, default: nat) returns (m: nat)
    ensures m == MaxAttrIntOf(ids, default)
  {
    var best: Option<nat> := None;
    for i := 0 to |ids|
      invariant best == MaxDigits(ids[..i])
    {
      assert ids[..i + 1][..i] == ids[..i];
      if IsDigits(ids[i]) {
        var v := DigitsValue(ids[i]);
        if best.None? || best.value < v {
          best := Some(v);
        }
      }
    }
    assert ids[..|ids|] == ids;
    m := if best.Some? then best.value else default;
  }

  /** Building `abstract_meta` one definition at a time. */
  lemma MetaStep(abs: seq<AbstractNum>, i: nat)
    requires i < |abs|
    ensures Build(PairsOf(MetaKeys(abs[..i + 1]))) ==
      if MetaOf(abs[i]).Some? then Put(Build(PairsOf(MetaKeys(abs[..i]))), abs[i].id, i)
      else Build(PairsOf(MetaKeys(abs[..i])))
  {
    var keys := MetaKeys(abs[..i + 1]);
    assert keys[..i] == MetaKeys(abs[..i]);
    if MetaOf(abs[i]).Some? {
      var pairs := PairsOf(keys[..i]) + [(abs[i].id, i)];
      assert PairsOf(keys) == pairs;
      assert pairs[..|pairs| - 1] == PairsOf(keys[..i]);
    }
  }

  lemma FirstQualifyingAt(m: Index, abs: seq<AbstractNum>, fmt: string, j: nat)
    requires j < |m| && EntryQualifies(abs, m[j], fmt)
    requires forall q :: 0 <= q < j ==> !EntryQualifies(abs, m[q], fmt)
    ensures FirstQualifying(m, abs, fmt) == Some(m[j].0)
    decreases j
  {
    if j > 0 {
      assert forall q :: 0 <= q < j - 1 ==> m[1..][q] == m[q + 1];
      FirstQualifyingAt(m[1..], abs, fmt, j - 1);
    }
  }

  lemma FirstNumOfAt(nums: seq<Num>, target: string, j: nat)
    requires j < |nums| && nums[j].id != "" && nums[j].absId == Some(target)
    requires forall q :: 0 <= q < j ==> nums[q].id == "" || nums[q].absId != Some(target)
    ensures FirstNumOf(nums, target) == Some(nums[j].id)
    decreases j
  {
    if j > 0 {
      assert forall q :: 0 <= q < j - 1 ==> nums[1..][q] == nums[q + 1];
      FirstNumOfAt(nums[1..], target, j - 1);
    }
  }

  /** The parsed `word/numbering.xml`, updated in place. */
  class Part {
    var abstracts: seq<AbstractNum>
    var nums: seq<Num>

    constructor(abs0: seq<AbstractNum>, nums0: seq<Num>)
      ensures abstracts == abs0 && nums == nums0
    {
      abstracts := abs0;
      nums := nums0;
    }

    /** `ensure_num_start_override`. */
    method EnsureNumStartOverride(numId: string) returns (changed: bool)
      modifies this
      ensures (nums, changed) == StartOverrideSpec(old(nums), numId)
      ensures abstracts == old(abstracts)
    {
      var target: Option<nat> := None;
      var i := 0;
      while i < |nums|
        invariant nums == old(nums) && abstracts == old(abstracts)
        invariant 0 <= i <= |nums|
        invariant forall j :: 0 <= j < i ==> nums[j].id != numId
      {
        if nums[i].id == numId {
          target := Some(i);
          break;
        }
        i := i + 1;
      }
      if target.None? {
        return false;
      }
      var t := target.value;
      assert FirstNumIndex(nums, numId) == Some(t);
      var n := nums[t];
      var ovs := n.overrides;
      var lvl: Option<nat> := None;
      var k := 0;
      while k < |ovs|
        invariant nums == old(nums) && abstracts == old(abstracts)
        invariant 0 <= k <= |ovs|
        invariant forall j :: 0 <= j < k ==> ovs[j].ilvl != "0"
      {
        if ovs[k].ilvl == "0" {
          lvl := Some(k);
          break;
        }
        k := k + 1;
      }
      ghost var ovs0 := ovs;
      changed := false;
      if lvl.None? {
        assert FirstOverride0(ovs).None?;
        ovs := ovs + [LvlOverride("0", None)];
        lvl := Some(|ovs| - 1);
        changed := true;
      } else {
        assert FirstOverride0(ovs) == lvl;
      }
      var l := lvl.value;
      assert ovs[l].ilvl == "0";
      if ovs[l].startOverride.None? {
        ovs := ovs[l := LvlOverride(ovs[l].ilvl, Some(""))];
        changed := true;
      }
      if ovs[l].startOverride != Some("1") {
        ovs := ovs[l := LvlOverride(ovs[l].ilvl, Some("1"))];
        changed := true;
      }
      if FirstOverride0(ovs0).None? {
        assert ovs == ovs0 + [LvlOverride("0", Some("1"))];
      } else if ovs0[l].startOverride == Some("1") {
        assert ovs == ovs0 && !changed;
      } else {
        assert ovs == ovs0[l := LvlOverride("0", Some("1"))] && changed;
      }
      nums := nums[t := Num(n.id, n.absId, ovs)];
    }

    /** `ensure_num_id_for_format`. */
    method EnsureNumIdForFormat(fmt: string, restart: bool) returns (id: string)
      modifies this
      ensures (abstracts, nums, id) == EnsureNumIdSpec(old(abstracts), old(nums), fmt, restart)
    {
      ghost var spec := EnsureNumIdSpec(abstracts, nums, fmt, restart);
      var target := ChooseTarget(abstracts, fmt);
      if ChooseAbstract(abstracts, fmt).None? {
        abstracts := abstracts + [NewAbstract(target, fmt)];
      }
      assert abstracts == spec.0;
      var reuse: Option<string> := None;
      if !restart {
        reuse := FindNumOf(nums, target);
      }
      if reuse.Some? {
        id := reuse.value;
      } else {
        var maxNum := MaxAttrInt(NumIds(nums), 999);
        id := NatToString(maxNum + 1);
        var ovs := if restart && fmt == "decimal" then [LvlOverride("0", Some("1"))] else [];
        nums := nums + [Num(id, Some(target), ovs)];
      }
    }

    /** `prepare_decimal_num_ids` once the part is parsed: the numIds for flow
        A and flow B, and whether the part must be written back. */
    method PrepareDecimalNumIds() returns (flowA: string, flowB: string, writeBack: bool)
      modifies this
      ensures (flowA, flowB, if writeBack then Some(nums) else None) == PrepareSpec(Some((old(abstracts), old(nums))))
      ensures !writeBack ==> nums == old(nums)
      ensures abstracts == old(abstracts)
    {
      var decimal := CollectDecimalNums(abstracts, nums);
      if decimal == [] {
        return DefaultNumId, DefaultNumId, false;
      }
      flowA := decimal[0].0;
      if |decimal| >= 2 {
        flowB := decimal[1].0;
        writeBack := EnsureNumStartOverride(flowB);
        if !writeBack {
          StartOverrideUnchanged(old(nums), flowB);
        }
        return;
      }
      var maxNum := MaxAttrInt(NumIds(nums), 1999);
      flowB := NatToString(maxNum + 1);
      nums := nums + [Num(flowB, Some(decimal[0].1), [LvlOverride("0", Some("1"))])];
      writeBack := true;
    }
  }

  /** The definition `ensure_num_id_for_format` puts its num on: the chosen one,
      else the id a new definition gets. */
  method ChooseTarget(abs: seq<AbstractNum>, fmt: string) returns (target: string)
    ensures target == TargetAbstract(abs, fmt)
  {
    var meta := BuildMetaDict(abs);
    var chosen := ChooseFrom(meta, abs, fmt);
    if chosen.Some? {
      target := chosen.value;
    } else {
      var maxAbs := MaxAttrInt(AbsIds(abs), 1999);
      target := NatToString(maxAbs + 1);
    }
  }

  /** The loop filling `abstract_meta`. */
  method BuildMetaDict(abs: seq<AbstractNum>) returns (meta: Index)
    ensures meta == MetaDict(abs)
  {
    meta := [];
    for i := 0 to |abs|
      invariant meta == Build(PairsOf(MetaKeys(abs[..i])))
    {
      MetaStep(abs, i);
      if MetaOf(abs[i]).Some? {
        meta := Put(meta, abs[i].id, i);
      }
    }
    assert abs[..|abs|] == abs;
  }

  /** The loop over `abstract_meta.items()` that picks the definition to reuse. */
  method ChooseFrom(meta: Index, abs: seq<AbstractNum>, fmt: string) returns (chosen: Option<string>)
    ensures chosen == FirstQualifying(meta, abs, fmt)
  {
    var j := 0;
    while j < |meta|
      invariant 0 <= j <= |meta|
      invariant forall q :: 0 <= q < j ==> !EntryQualifies(abs, meta[q], fmt)
    {
      var pos := meta[j].1;
      if pos < |abs| && MetaOf(abs[pos]).Some? {
        var m := MetaOf(abs[pos]).value;
        if m.0 == fmt && (fmt == "bullet" ==> Strip(m.1) != []) {
          FirstQualifyingAt(meta, abs, fmt, j);
          return Some(meta[j].0);
        }
      }
      j := j + 1;
    }
    return None;
  }

  /** The loop looking for a num already on the target definition. */
  method FindNumOf(nums: seq<Num>, target: string) returns (r: Option<string>)
    ensures r == FirstNumOf(nums, target)
  {
    var q := 0;
    while q < |nums|
      invariant 0 <= q <= |nums|
      invariant forall p :: 0 <= p < q ==> nums[p].id == "" || nums[p].absId != Some(target)
    {
      if nums[q].id != "" && nums[q].absId == Some(target) {
        FirstNumOfAt(nums, target, q);
        return Some(nums[q].id);
      }
      q := q + 1;
    }
    return None;
  }

  /** The loops filling `abstract_fmt` and collecting `decimal_nums`. */
  method CollectDecimalNums(abs: seq<AbstractNum>, nums: seq<Num>) returns (decimal: seq<(string, string)>)
    ensures decimal == DecimalNums(abs, nums)
  {
    var fmts: Index := [];
    for i := 0 to |abs|
      invariant fmts == Build(PairsOf(FmtKeys(abs[..i])))
    {
      FmtStep(abs, i);
      if abs[i].id != "" && FirstFmt(abs[i].levels).Some? {
        fmts := Put(fmts, abs[i].id, i);
      }
    }
    assert abs[..|abs|] == abs;
    decimal := [];
    for i := 0 to |nums|
      invariant decimal == DecimalNums(abs, nums[..i])
    {
      assert nums[..i + 1][..i] == nums[..i];
      var n := nums[i];
      var aid := if n.absId.Some? then n.absId.value else "";
      var fmt: Option<string> := None;
      match Lookup(fmts, aid) {
        case Some(pos) => if pos < |abs| { fmt := FirstFmt(abs[pos].levels); }
        case None =>
      }
      if n.id != "" && fmt == Some("decimal") {
        decimal := decimal + [(n.id, aid)];
      }
    }
    assert nums[..|nums|] == nums;
  }

  lemma FmtStep(abs: seq<AbstractNum>, i: nat)
    requires i < |abs|
    ensures Build(PairsOf(FmtKeys(abs[..i + 1]))) ==
      if abs[i].id != "" && FirstFmt(abs[i].levels).Some? then Put(Build(PairsOf(FmtKeys(abs[..i]))), abs[i].id, i)
      else Build(PairsOf(FmtKeys(abs[..i])))
  {
    var keys := FmtKeys(abs[..i + 1]);
    assert keys[..i] == FmtKeys(abs[..i]);
    if abs[i].id != "" && FirstFmt(abs[i].levels).Some? {
      var pairs := PairsOf(keys[..i]) + [(abs[i].id, i)];
      assert PairsOf(keys) == pairs;
      assert pairs[..|pairs| - 1] == PairsOf(keys[..i]);
    }
  }

  lemma StartOverrideUnchanged(nums: seq<Num>, id: string)
    requires !StartOverrideSpec(nums, id).1
    ensures StartOverrideSpec(nums, id).0 == nums
  {
    match FirstNumIndex(nums, id) {
      case None =>
      case Some(t) =>
        assert nums[t := WithStartOne(nums[t]).0] == nums;
    }
  }
}
