/** The heading rewrites of the legacy patcher: typed section numbers are
    dropped from headings that carry an automatic number run, and the fixed
    headings of the manual are rewritten into `[SectionNumber][tab][title]`. */
module LegacyHeadings {
  import opened Wrappers
  import opened Strings
  import opened Canonical
  import opened DocTree
  import opened DocxAnchors
  import opened Seqs

  // ---------------------------------------------------------------------------
  // normalize_heading_manual_numbers

  /** Length of the match of `^\s*\d+(\.\d+)*\.?\s*`, or 0 when there is none. */
  function ManualNumberLen(raw: string): (n: nat)
    ensures n <= |raw|
  {
    var a := SpaceRun(raw);
    if a < |raw| && IsDigit(raw[a]) then a + NumberPrefixLen(raw[a..]) else 0
  }

  /** The text run after the typed number is dropped: what follows the number,
      given a leading space unless it already starts with a space or a tab. */
  function RenumberedText(raw: string): (r: string)
    ensures r == raw[ManualNumberLen(raw)..] || r == " " + raw[ManualNumberLen(raw)..]
    ensures r == [] || r[0] == ' ' || r[0] == '\t'
  {
    var rest := raw[ManualNumberLen(raw)..];
    if rest != [] && rest[0] != ' ' && rest[0] != '\t' then " " + rest else rest
  }

  /** A run styled as the automatic section number. */
  predicate IsSectionNumberRun(r: Run) {
    r.rStyle == Some("SectionNumber")
  }

  /** A run that holds some text. */
  predicate HasText(r: Run) {
    r.text.Some? && r.text.value != []
  }

  /** The run list with run `k`'s text renumbered. */
  function RenumberRun(runs: seq<Run>, k: nat): seq<Run>
    requires k < |runs| && runs[k].text.Some?
  {
    runs[k := runs[k].(text := Some(RenumberedText(runs[k].text.value)))]
  }

  /** The run loop from run `i` on, `saw` telling whether a SectionNumber run
      came before: the first run with text is renumbered if a number run came
      before it, and the loop stops there either way. */
  function NormalizedRuns(runs: seq<Run>, i: nat, saw: bool): (r: (seq<Run>, nat))
    requires i <= |runs|
    ensures r.1 <= 1 && |r.0| == |runs|
    ensures r.1 == 0 ==> r.0 == runs
    decreases |runs| - i
  {
    if i == |runs| then (runs, 0)
    else if IsSectionNumberRun(runs[i]) then NormalizedRuns(runs, i + 1, true)
    else if !HasText(runs[i]) then NormalizedRuns(runs, i + 1, saw)
    else if !saw then (runs, 0)
    else if RenumberedText(runs[i].text.value) != runs[i].text.value then (RenumberRun(runs, i), 1)
    else (runs, 0)
  }

  /** The first run from `i` on that is not a number run and holds text. */
  function FirstTextRun(runs: seq<Run>, i: nat): (r: Option<nat>)
    requires i <= |runs|
    ensures r.Some? ==> i <= r.value < |runs| && !IsSectionNumberRun(runs[r.value]) && HasText(runs[r.value])
    ensures r.Some? ==> forall j :: i <= j < r.value ==> IsSectionNumberRun(runs[j]) || !HasText(runs[j])
    ensures r.None? ==> forall j :: i <= j < |runs| ==> IsSectionNumberRun(runs[j]) || !HasText(runs[j])
    decreases |runs| - i
  {
    if i == |runs| then None
    else if !IsSectionNumberRun(runs[i]) && HasText(runs[i]) then Some(i)
    else FirstTextRun(runs, i + 1)
  }

  /** A number run sits among runs `i .. k - 1`. */
  predicate NumberRunBetween(runs: seq<Run>, i: nat, k: nat)
    requires i <= k <= |runs|
  {
    exists j :: i <= j < k && IsSectionNumberRun(runs[j])
  }

  /** The heading's runs after the normalisation, stated without the loop:
      the first text run is renumbered when a number run precedes it and the
      renumbering changes it; otherwise nothing changes. */
  function NormalizedRunsRef(runs: seq<Run>): (seq<Run>, nat) {
    match FirstTextRun(runs, 0)
    case None => (runs, 0)
    case Some(k) =>
      if NumberRunBetween(runs, 0, k) && RenumberedText(runs[k].text.value) != runs[k].text.value
      then (RenumberRun(runs, k), 1)
      else (runs, 0)
  }

  /** The run loop agrees with the stated rule, from any run `i` on. */
  lemma {:induction false} NormalizedRunsFrom(runs: seq<Run>, i: nat, saw: bool)
    requires i <= |runs|
    ensures NormalizedRuns(runs, i, saw) ==
      match FirstTextRun(runs, i)
      case None => (runs, 0)
      case Some(k) =>
        if (saw || NumberRunBetween(runs, i, k)) && RenumberedText(runs[k].text.value) != runs[k].text.value
        then (RenumberRun(runs, k), 1)
        else (runs, 0)
    decreases |runs| - i
  {
    if i < |runs| {
      if IsSectionNumberRun(runs[i]) {
        NormalizedRunsFrom(runs, i + 1, true);
        var f := FirstTextRun(runs, i + 1);
        if f.Some? {
          assert NumberRunBetween(runs, i, f.value);
        }
      } else if !HasText(runs[i]) {
        NormalizedRunsFrom(runs, i + 1, saw);
        var f := FirstTextRun(runs, i + 1);
        if f.Some? && NumberRunBetween(runs, i, f.value) {
          var j :| i <= j < f.value && IsSectionNumberRun(runs[j]);
          assert j != i;
          assert NumberRunBetween(runs, i + 1, f.value);
        }
        if f.Some? && NumberRunBetween(runs, i + 1, f.value) {
          var j :| i + 1 <= j < f.value && IsSectionNumberRun(runs[j]);
          assert NumberRunBetween(runs, i, f.value);
        }
      } else {
        assert FirstTextRun(runs, i) == Some(i);
        assert !NumberRunBetween(runs, i, i);
      }
    }
  }

  /** The loop over a heading's runs is the stated rule. */
  lemma NormalizedRunsIsRef(runs: seq<Run>)
    ensures NormalizedRuns(runs, 0, false) == NormalizedRunsRef(runs)
  {
    NormalizedRunsFrom(runs, 0, false);
  }

  /** One body child after the normalisation, with 1 when it was rewritten. */
  function NormalizeHeading(e: Element): (r: (Element, nat))
    ensures r.1 <= 1
    ensures r.1 == 0 ==> r.0 == e
    ensures r.0.P? == e.P? && (e.P? ==> r.0.para.style == e.para.style && r.0.para.numId == e.para.numId)
    ensures !IsHeadingElement(e) ==> r == (e, 0)
  {
    if e.P? && IsHeading(e.para) then
      var (rs, c) := NormalizedRuns(e.para.runs, 0, false);
      (P(e.para.(runs := rs)), c)
    else (e, 0)
  }

  function NormalizedHeading(e: Element): Element {
    NormalizeHeading(e).0
  }

  function NormalizeCount(e: Element): nat {
    NormalizeHeading(e).1
  }

  /** `normalize_heading_manual_numbers` on the body's children. */
  function NormalizeAll(elems: seq<Element>): (seq<Element>, nat) {
    (Mapped(elems, NormalizedHeading), MapSum(elems, NormalizeCount))
  }

  /** Only headings change, each at most once, and they stay paragraphs
      with their style and numbering. */
  lemma NormalizeAllEffect(elems: seq<Element>)
    ensures var (b, c) := NormalizeAll(elems);
      |b| == |elems| && c <= |elems| &&
      (forall i :: 0 <= i < |elems| && !IsHeadingElement(elems[i]) ==> b[i] == elems[i]) &&
      (forall i :: 0 <= i < |elems| && IsHeadingElement(elems[i]) ==> IsHeadingElement(b[i]))
  {
    forall x: Element
      ensures NormalizeCount(x) <= 1
    {
    }
    MapSumAtMost(elems, NormalizeCount, 1);
  }

  /** A typed `4.2. ` in front of a title is dropped, leaving a space before it. */
  lemma RenumberedDropsNumber(title: string)
    requires title != [] && IsAsciiLetter(title[0])
    ensures RenumberedText("4.2. " + title) == " " + title
  {
    var raw := "4.2. " + title;
    assert raw[0] == '4' && raw[1] == '.' && raw[2] == '2' && raw[3] == '.' && raw[4] == ' ';
    assert raw[5..] == title;
    assert SpaceRun(raw) == 0;
    var s := raw;
    assert DigitRun(s) == 1 by {
      assert DigitRun(s[1..]) == 0;
    }
    assert s[1..][0] == '.' && s[1..][1] == '2';
    assert DigitRun(s[2..]) == 1 by {
      assert s[2..][1..] == s[3..];
      assert DigitRun(s[3..]) == 0;
    }
    assert s[1..][2..] == s[3..];
    assert DotGroups(s[3..]) == 0;
    assert DotGroups(s[1..]) == 2;
    assert s[4..][1..] == title;
    assert SpaceRun(s[4..]) == 1 by {
      assert SpaceRun(s[4..][1..]) == 0;
    }
    assert NumberPrefixLen(s) == 5;
    assert ManualNumberLen(raw) == 5;
  }

  /** The renumbering is stable once no number follows the leading blanks. */
  lemma RenumberedStable(raw: string)
    requires var r := RenumberedText(raw);
      !(SpaceRun(r) < |r| && IsDigit(r[SpaceRun(r)]))
    ensures RenumberedText(RenumberedText(raw)) == RenumberedText(raw)
  {
  }

  /** It is not stable in general: `1. 2 Foo` loses its `1. ` on one run... */
  lemma RenumberedFirstPass()
    ensures RenumberedText("1. 2 Foo") == " 2 Foo"
  {
    var a := "1. 2 Foo";
    assert SpaceRun(a) == 0;
    assert a[1..] == ". 2 Foo";
    assert DigitRun(a) == 1 by {
      assert DigitRun(a[1..]) == 0;
    }
    assert DotGroups(a[1..]) == 0;
    assert a[2..] == " 2 Foo";
    assert a[2..][1..] == "2 Foo";
    assert SpaceRun(a[2..]) == 1 by {
      assert SpaceRun(a[2..][1..]) == 0;
    }
    assert NumberPrefixLen(a) == 3;
    assert a[3..] == "2 Foo";
  }

  /** ... and its `2 ` on the next. */
  lemma RenumberedSecondPass()
    ensures RenumberedText(" 2 Foo") == " Foo"
  {
    var b := " 2 Foo";
    var c := b[1..];
    assert c == "2 Foo";
    assert SpaceRun(b) == 1 by {
      assert SpaceRun(c) == 0;
    }
    assert c[1..] == " Foo";
    assert c[1..][1..] == "Foo";
    assert DigitRun(c) == 1 by {
      assert DigitRun(c[1..]) == 0;
    }
    assert DotGroups(c[1..]) == 0;
    assert SpaceRun(c[1..]) == 1 by {
      assert SpaceRun(c[1..][1..]) == 0;
    }
    assert NumberPrefixLen(c) == 2;
    assert ManualNumberLen(b) == 3;
    assert b[3..] == "Foo";
  }

  /** The loop of `normalize_heading_manual_numbers`, on the body in place. */
  method NormalizeHeadingManualNumbers(body: Body) returns (changed: nat)
    modifies body
    ensures body.elems == NormalizeAll(old(body.elems)).0
    ensures changed == NormalizeAll(old(body.elems)).1
  {
    ghost var b := body.elems;
    var n := |body.elems|;
    changed := 0;
    for i := 0 to n
      invariant |b| == n
      invariant body.elems == Mapped(b[..i], NormalizedHeading) + b[i..]
      invariant changed == MapSum(b[..i], NormalizeCount)
    {
      MapStep(b, i, NormalizedHeading);
      MapSumSnoc(b, i, NormalizeCount);
      var e := body.elems[i];
      var (ne, c) := NormalizeHeading(e);
      if c > 0 {
        body.Replace(i, ne);
        changed := changed + c;
      } else {
        MapKeep(b, i, NormalizedHeading);
      }
    }
    MapDone(b, NormalizedHeading);
    assert b[..|b|] == b;
  }

  // ---------------------------------------------------------------------------
  // set_heading_number_and_title

  /** The three runs of a rewritten heading: the number, a tab, the title. */
  function NumberTitleRuns(number: string, title: string): (runs: seq<Run>)
    ensures |runs| == 3 && runs[0].rStyle == Some("SectionNumber")
    ensures RunsXmlText(runs) == number + title
    ensures RunsDocxText(runs) == number + "\t" + title
  {
    var runs := [Run(Some("SectionNumber"), Some(number), false), Run(None, None, true), Run(None, Some(title), false)];
    assert runs[..1][..0] == [];
    assert runs[..2][..1] == runs[..1];
    assert runs[..3][..2] == runs[..2];
    assert RunsXmlText(runs[..1]) == number;
    assert RunsXmlText(runs[..2]) == number;
    assert RunsDocxText(runs[..1]) == number;
    assert RunsDocxText(runs[..2]) == number + "\t";
    assert runs[..3] == runs;
    runs
  }

  /** The paragraph gets style `Heading{level}` (its other properties stay)
      and its runs become a SectionNumber run, a tab run and a title run. */
  function SetHeadingNumberAndTitle(p: Para, level: nat, number: string, title: string): (r: Para)
    ensures r.style == Some(HeadingStyle(level)) && IsHeading(r) && r.numId == p.numId
    ensures HasSectionNumberRun(r)
    ensures XmlText(r) == Strip(number + title)
    ensures DocxText(r) == number + "\t" + title
  {
    var r := Para(Some(HeadingStyle(level)), p.numId, NumberTitleRuns(number, title), false);
    assert r.runs[0] in r.runs;
    assert StartsWith("Heading" + NatToString(level), "Heading");
    r
  }

  /** Rewriting a heading twice with the same number and title is rewriting it once. */
  lemma SetHeadingTwice(p: Para, level: nat, number: string, title: string)
    ensures var q := SetHeadingNumberAndTitle(p, level, number, title);
      SetHeadingNumberAndTitle(q, level, number, title) == q
  {
  }

  // ---------------------------------------------------------------------------
  // enforce_heading_numbers

  /** A heading the manual fixes: its title, level and number. */
  datatype Target = Target(title: string, level: nat, number: string)

  /** The fixed table of headings, in the order they are enforced. */
  const HeadingTargets: seq<Target> := [
    Target("Scope", 1, "1"),
    Target("Prerequisites", 1, "2"),
    Target("Home Page Overview", 1, "3"),
    Target("Links and Buttons Mapping", 1, "4"),
    Target("Top Navigation", 2, "4.1"),
    Target("Left Navigation (Common Signed-out Items)", 2, "4.2"),
    Target("Home Feed Video Card", 2, "4.3"),
    Target("Example Task Flows", 1, "5"),
    Target("Flow A: Search for a Video", 2, "5.1"),
    Target("Flow B: Open a Video Watch Page", 2, "5.2"),
    Target("Maintenance Notes", 1, "6"),
    Target("Build", 1, "7")
  ]

  /** One target, once its heading was looked up at `h`: the heading is
      rewritten, and counts when its text changed. */
  function EnforceAt(elems: seq<Element>, h: nat, t: Target): (r: (seq<Element>, nat))
    requires h < |elems| && elems[h].P?
    ensures |r.0| == |elems| && r.1 <= 1
    ensures r.0 == elems[h := P(SetHeadingNumberAndTitle(elems[h].para, t.level, t.number, t.title))]
    ensures r.1 == 1 <==> XmlText(elems[h].para) != Strip(t.number + t.title)
  {
    var p := elems[h].para;
    var q := SetHeadingNumberAndTitle(p, t.level, t.number, t.title);
    (elems[h := P(q)], if XmlText(p) != XmlText(q) then 1 else 0)
  }

  /** One pass of the target loop. */
  function EnforceOne(elems: seq<Element>, t: Target): (seq<Element>, nat) {
    match FindHeadingIndex(elems, t.title)
    case None => (elems, 0)
    case Some(h) => EnforceAt(elems, h, t)
  }

  /** The target loop over `ts`, in order, each lookup on the body as the
      passes before left it. */
  function EnforceAll(elems: seq<Element>, ts: seq<Target>): (seq<Element>, nat) {
    Folded(elems, ts, EnforceOne)
  }

  function Length(elems: seq<Element>): nat {
    |elems|
  }

  /** The loop keeps the body's length and counts each target at most once. */
  lemma EnforceAllBounds(elems: seq<Element>, ts: seq<Target>)
    ensures |EnforceAll(elems, ts).0| == |elems|
    ensures EnforceAll(elems, ts).1 <= |ts|
  {
    forall x: seq<Element>, t: Target
      ensures EnforceOne(x, t).1 <= 1 && |EnforceOne(x, t).0| == |x|
    {
    }
    FoldedAtMost(elems, ts, EnforceOne, 1);
    FoldedKeeps(elems, ts, EnforceOne, Length);
  }

  /** A heading already rewritten to its target is found again, unchanged and
      not counted. */
  lemma EnforceAtAgain(elems: seq<Element>, h: nat, t: Target)
    requires h < |elems| && elems[h].P?
    ensures var e1 := EnforceAt(elems, h, t).0;
      EnforceAt(e1, h, t) == (e1, 0)
  {
    var q := SetHeadingNumberAndTitle(elems[h].para, t.level, t.number, t.title);
    SetHeadingTwice(elems[h].para, t.level, t.number, t.title);
    var e1 := elems[h := P(q)];
    assert EnforceAt(elems, h, t).0 == e1;
    assert e1[h].para == q;
    assert XmlText(q) == Strip(t.number + t.title);
    UpdateSame(e1, h, P(q));
  }

  /** The target loop over `ts`, on the body in place. */
  method EnforceTargets(body: Body, ts: seq<Target>) returns (changed: nat)
    modifies body
    ensures body.elems == EnforceAll(old(body.elems), ts).0
    ensures changed == EnforceAll(old(body.elems), ts).1
  {
    ghost var b := body.elems;
    changed := 0;
    for i := 0 to |ts|
      invariant EnforceAll(b, ts).0 == EnforceAll(body.elems, ts[i..]).0
      invariant EnforceAll(b, ts).1 == changed + EnforceAll(body.elems, ts[i..]).1
    {
      ghost var before := body.elems;
      FoldedStep(before, ts[i..], EnforceOne);
      assert ts[i..][1..] == ts[i + 1..];
      var c := EnforceTarget(body, ts[i]);
      changed := changed + c;
    }
  }

  /** `enforce_heading_numbers`: the fixed targets, in order. */
  method EnforceHeadingNumbers(body: Body) returns (changed: nat)
    modifies body
    ensures body.elems == EnforceAll(old(body.elems), HeadingTargets).0
    ensures changed == EnforceAll(old(body.elems), HeadingTargets).1
  {
    changed := EnforceTargets(body, HeadingTargets);
  }

  /** One target of `enforce_heading_numbers`, on the body in place. */
  method EnforceTarget(body: Body, t: Target) returns (c: nat)
    modifies body
    ensures body.elems == EnforceOne(old(body.elems), t).0
    ensures c == EnforceOne(old(body.elems), t).1
  {
    var h := FindHeadingIndex(body.elems, t.title);
    if h.None? {
      return 0;
    }
    c := EnforceTargetAt(body, h.value, t);
  }

  /** The rewrite of the heading at `h`. */
  method EnforceTargetAt(body: Body, h: nat, t: Target) returns (c: nat)
    requires h < |body.elems| && body.elems[h].P?
    modifies body
    ensures body.elems == EnforceAt(old(body.elems), h, t).0
    ensures c == EnforceAt(old(body.elems), h, t).1
  {
    var p := body.elems[h].para;
    var before := XmlText(p);
    var q := SetHeadingNumberAndTitle(p, t.level, t.number, t.title);
    body.Replace(h, P(q));
    var after := XmlText(q);
    c := if before != after then 1 else 0;
  }
}
