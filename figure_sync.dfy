/** `sync_latex_images_to_docx.py`: put the screenshots into a document that
    python-docx has opened. Only the body paragraphs (`doc.paragraphs`) are in
    view; a paragraph's style is its style name. Whether an image file exists
    is the oracle `present`, applied to the image path as written; the style
    names the document defines are the set `styles`. */
module FigureSync {
  import opened Wrappers
  import opened Strings
  import opened Seqs
  import opened DocTree
  import opened Canonical
  import opened OrderedDict
  import opened ManualSpec
  import opened BlockTokens

  // ---------------------------------------------------------------------------
  // headings

  const HeadingWord: string := "Heading"

  /** `get_heading_level`: the style name starts with "Heading", whitespace
      and a run of digits, whose value is the level. */
  function HeadingLevel(p: Para): (r: Option<nat>)
    ensures r.Some? ==> p.style.Some? && StartsWith(p.style.value, HeadingWord)
  {
    var name := p.style.GetOr("");
    if !StartsWith(name, HeadingWord) then None else LevelAfterWord(name[|HeadingWord|..])
  }

  /** `\s+(\d+)` at the head of what follows "Heading". */
  function LevelAfterWord(rest: string): Option<nat> {
    var s := SpaceRun(rest);
    var d := DigitRun(rest[s..]);
    if s == 0 || d == 0 then None
    else Some(DigitsValue(rest[s..][..d]))
  }

  /** The digit run at the head of a numeral followed by a non-digit is the
      numeral. */
  lemma DigitRunOfNumeral(a: string, tail: string)
    requires IsDigits(a) && (tail == [] || !IsDigit(tail[0]))
    ensures DigitRun(a + tail) == |a|
  {
    var s := a + tail;
    assert forall k :: 0 <= k < |a| ==> s[k] == a[k];
    assert |a| < |s| ==> s[|a|] == tail[0];
  }

  /** A style named "Heading", spaces, `str(n)` and anything not starting with
      a digit ("Heading 2", "Heading 2 Char") is a heading of level `n`. */
  lemma HeadingLevelOf(p: Para, spaces: string, n: nat, tail: string)
    requires spaces != [] && forall i :: 0 <= i < |spaces| ==> IsSpace(spaces[i])
    requires tail == [] || !IsDigit(tail[0])
    requires p.style == Some(HeadingWord + spaces + NatToString(n) + tail)
    ensures HeadingLevel(p) == Some(n)
  {
    var name := p.style.value;
    assert StartsWith(name, HeadingWord);
    assert name[|HeadingWord|..] == spaces + (NatToString(n) + tail);
    LevelAfterWordOf(name[|HeadingWord|..], spaces, n, tail);
  }

  lemma LevelAfterWordOf(rest: string, spaces: string, n: nat, tail: string)
    requires spaces != [] && forall i :: 0 <= i < |spaces| ==> IsSpace(spaces[i])
    requires tail == [] || !IsDigit(tail[0])
    requires rest == spaces + (NatToString(n) + tail)
    ensures LevelAfterWord(rest) == Some(n)
  {
    var num := NatToString(n);
    NatToStringRoundTrip(n);
    DigitRunOfNumeral(num, tail);
    SpaceRunOfSpaces(spaces, num + tail);
    assert rest[|spaces|..] == num + tail;
    assert (num + tail)[..|num|] == num;
  }

  /** The whitespace run ahead of a digit is the whole run. */
  lemma SpaceRunOfSpaces(spaces: string, t: string)
    requires forall i :: 0 <= i < |spaces| ==> IsSpace(spaces[i])
    requires t != [] && IsDigit(t[0])
    ensures SpaceRun(spaces + t) == |spaces|
  {
    var s := spaces + t;
    if spaces != [] {
      assert s[1..] == spaces[1..] + t;
      SpaceRunOfSpaces(spaces[1..], t);
    } else {
      assert s[0] == t[0];
    }
  }

  /** A style whose name has no digit right after "Heading" and its
      whitespace is not a heading: "Heading" alone, "Headings", "Heading x". */
  lemma NotHeadingWithoutNumber(p: Para)
    requires p.style.Some? && StartsWith(p.style.value, HeadingWord)
    requires var rest := p.style.value[|HeadingWord|..];
      SpaceRun(rest) == |rest| || !IsDigit(rest[SpaceRun(rest)])
    ensures HeadingLevel(p).None?
  {
    var rest := p.style.value[|HeadingWord|..];
    var s := SpaceRun(rest);
    if s < |rest| {
      assert rest[s..][0] == rest[s];
    }
  }

  /** The key `find_heading_indices` records for a paragraph: the figure key
      of a heading's text, when that key is not empty. */
  function FigureHeadingKey(p: Para): Option<string> {
    if HeadingLevel(p).None? then None
    else
      var c := FigureCanonical(DocxText(p));
      if c == [] then None else Some(c)
  }

  function FigureHeadingKeys(paras: seq<Para>): (keys: seq<Option<string>>)
    ensures |keys| == |paras|
    ensures forall i {:trigger keys[i]} :: 0 <= i < |paras| ==> keys[i] == FigureHeadingKey(paras[i])
  {
    seq(|paras|, i requires 0 <= i < |paras| => FigureHeadingKey(paras[i]))
  }

  /** `find_heading_indices`: key to paragraph position, a later heading with
      the same key overwriting an earlier one. */
  function HeadingIndices(paras: seq<Para>): Index {
    Build(PairsOf(FigureHeadingKeys(paras)))
  }

  /** `find_heading_index_fuzzy` over a freshly built index. Whatever it
      answers is a heading paragraph with a non-empty key. */
  function FindHeading(paras: seq<Para>, key: string): (r: Option<nat>)
    ensures r.Some? ==> r.value < |paras| && HeadingLevel(paras[r.value]).Some?
    ensures r.Some? ==> FigureHeadingKey(paras[r.value]).Some?
  {
    var r := FindFuzzy(HeadingIndices(paras), key);
    if r.None? then r
    else
      FindFuzzyHasKey(FigureHeadingKeys(paras), key);
      r
  }

  /** When a heading keys exactly as the target, the lookup answers the last
      such heading. */
  lemma FindHeadingExact(paras: seq<Para>, key: string, i: nat)
    requires i < |paras| && FigureHeadingKey(paras[i]) == Some(key)
    ensures FindHeading(paras, key).Some?
    ensures IsLastKey(FigureHeadingKeys(paras), key, FindHeading(paras, key).value)
  {
    FindFuzzyExact(FigureHeadingKeys(paras), key, i);
  }

  /** No heading key overlapping the target: the anchor is unresolved. */
  lemma FindHeadingNone(paras: seq<Para>, key: string)
    requires forall i :: 0 <= i < |paras| && FigureHeadingKey(paras[i]).Some? ==>
      !Overlaps(FigureHeadingKey(paras[i]).value, key)
    ensures FindHeading(paras, key).None?
  {
    var keys := FigureHeadingKeys(paras);
    var pairs := PairsOf(keys);
    var m := HeadingIndices(paras);
    BuildEntries(pairs);
    forall j | 0 <= j < |m|
      ensures !Overlaps(m[j].0, key)
    {
      assert m[j] in pairs;
      var i :| 0 <= i < |pairs| && pairs[i] == m[j];
      assert keys[pairs[i].1] == Some(pairs[i].0);
    }
    if Lookup(m, key).Some? {
      var j :| 0 <= j < |m| && m[j] == (key, Lookup(m, key).value);
      assert OccursAt(key, key, 0);
    }
  }

  // ---------------------------------------------------------------------------
  // the end of a section

  /** A heading at `level` or above: where the section of a `level` heading
      ends. */
  predicate Closes(p: Para, level: int) {
    HeadingLevel(p).Some? && HeadingLevel(p).value <= level
  }

  /** `r` is the last paragraph of the section opened at `start`: no
      paragraph after `start` up to `r` closes it, and the one after `r`, if
      any, does. */
  predicate IsSectionEnd(paras: seq<Para>, start: nat, level: int, r: nat) {
    start <= r &&
    (start < |paras| ==> r < |paras|) &&
    (start >= |paras| ==> r == start) &&
    (forall j {:trigger Closes(paras[j], level)} :: start < j <= r && j < |paras| ==> !Closes(paras[j], level)) &&
    (r + 1 < |paras| ==> Closes(paras[r + 1], level))
  }

  /** `find_section_end_index`: scan forward for the first heading at the
      start's level or above, and stop just before it. */
  method SectionEndIndex(paras: seq<Para>, start: nat, level: int) returns (r: nat)
    ensures IsSectionEnd(paras, start, level, r)
    ensures r == SectionEnd(paras, start, level)
  {
    var end: int := |paras| - 1;
    var j := start + 1;
    while j < |paras|
      invariant start + 1 <= j
      invariant end == |paras| - 1
      invariant forall k :: start < k < j && k < |paras| ==> !Closes(paras[k], level)
    {
      var lvl := HeadingLevel(paras[j]);
      if lvl.Some? && lvl.value <= level {
        end := j - 1;
        break;
      }
      j := j + 1;
    }
    r := if end < start then start else end;
    SectionEndMeets(paras, start, level);
    SectionEndUnique(paras, start, level, r, SectionEnd(paras, start, level));
  }

  /** The section end as a value: the paragraph before the first one after
      `start` that closes the section, else the last paragraph, and never
      before `start`. */
  function SectionEnd(paras: seq<Para>, start: nat, level: int): nat {
    SectionEndFrom(paras, start, level, start + 1)
  }

  function SectionEndFrom(paras: seq<Para>, start: nat, level: int, j: nat): nat
    decreases |paras| - j
  {
    if j >= |paras| then (if |paras| - 1 < start then start else |paras| - 1)
    else if Closes(paras[j], level) then (if j - 1 < start then start else j - 1)
    else SectionEndFrom(paras, start, level, j + 1)
  }

  /** The value meets the description of the section end. */
  lemma SectionEndMeets(paras: seq<Para>, start: nat, level: int)
    ensures IsSectionEnd(paras, start, level, SectionEnd(paras, start, level))
  {
    SectionEndFromMeets(paras, start, level, start + 1);
  }

  lemma {:induction false} SectionEndFromMeets(paras: seq<Para>, start: nat, level: int, j: nat)
    requires start < j
    requires forall k {:trigger Closes(paras[k], level)} :: start < k < j && k < |paras| ==> !Closes(paras[k], level)
    ensures IsSectionEnd(paras, start, level, SectionEndFrom(paras, start, level, j))
    decreases |paras| - j
  {
    if j < |paras| && !Closes(paras[j], level) {
      SectionEndFromMeets(paras, start, level, j + 1);
    }
  }

  /** The section end is determined: two answers meeting the description are
      the same. */
  lemma SectionEndUnique(paras: seq<Para>, start: nat, level: int, r1: nat, r2: nat)
    requires IsSectionEnd(paras, start, level, r1) && IsSectionEnd(paras, start, level, r2)
    ensures r1 == r2
  {
    if r1 < r2 {
      assert false;
    } else if r2 < r1 {
      assert false;
    }
  }

  /** `get_heading_level(start_para) or 1`: a missing level, and level 0,
      count as 1. */
  function LevelOr1(l: Option<nat>): (r: nat)
    ensures r >= 1
    ensures l.Some? && l.value != 0 ==> r == l.value
  {
    if l.None? || l.value == 0 then 1 else l.value
  }

  // ---------------------------------------------------------------------------
  // the document, changed in place

  /** `doc.paragraphs` of an opened document. */
  class Document {
    var paras: seq<Para>

    constructor(paras0: seq<Para>)
      ensures paras == paras0
    {
      paras := paras0;
    }

    /** `remove_paragraph` for the paragraph at position `i`. */
    method RemoveAt(i: nat)
      requires i < |paras|
      modifies this
      ensures paras == old(paras[..i]) + old(paras[i + 1..])
    {
      paras := paras[..i] + paras[i + 1..];
    }

    /** `insert_paragraph_after` the paragraph at position `i`. */
    method InsertAfter(i: nat, p: Para)
      requires i < |paras|
      modifies this
      ensures paras == old(paras[..i + 1]) + [p] + old(paras[i + 1..])
    {
      paras := paras[..i + 1] + [p] + paras[i + 1..];
    }

    /** The paragraph at position `i` rewritten in place. */
    method Replace(i: nat, p: Para)
      requires i < |paras|
      modifies this
      ensures paras == old(paras)[i := p]
    {
      paras := paras[i := p];
    }
  }

  // ---------------------------------------------------------------------------
  // shots and captions

  /** One `\screenshotbox` of the LaTeX source, placed under `anchor`. */
  datatype Shot = Shot(imgRel: string, caption: string, anchor: string, number: nat)

  /** The headings the first eight screenshots belong under, in order. */
  const ShotAnchors: seq<string> := [
    "Home Page Overview",
    "Top Navigation",
    "Left Navigation (Common Signed-out Items)",
    "Home Feed Video Card",
    "Flow A: Search for a Video",
    "Flow A: Search for a Video",
    "Flow B: Open a Video Watch Page",
    "Flow B: Open a Video Watch Page"]

  /** The heading every later screenshot belongs under. */
  const LaterAnchor: string := "Example Task Flows"

  function AnchorAt(i: nat): (r: string)
    ensures i < 8 ==> r == ShotAnchors[i]
    ensures i >= 8 ==> r == LaterAnchor
  {
    if i < |ShotAnchors| then ShotAnchors[i] else LaterAnchor
  }

  /** The i-th `\screenshotbox`, its image path and caption trimmed. */
  function ShotOf(row: (string, string), i: nat): Shot {
    Shot(Strip(row.0), Strip(row.1), AnchorAt(i), i + 1)
  }

  /** The shots of the first `n` matches. */
  function ShotsOf(rows: seq<(string, string)>, n: nat): (r: seq<Shot>)
    requires n <= |rows|
    ensures |r| == n
  {
    if n == 0 then [] else ShotsOf(rows, n - 1) + [ShotOf(rows[n - 1], n - 1)]
  }

  /** `parse_latex_shots` on the first two groups of every `\screenshotbox`
      match. */
  method ParseShots(rows: seq<(string, string)>) returns (shots: seq<Shot>)
    ensures shots == ShotsOf(rows, |rows|)
  {
    shots := [];
    for i := 0 to |rows|
      invariant shots == ShotsOf(rows, i)
    {
      shots := shots + [ShotOf(rows[i], i)];
    }
  }

  /** The i-th shot is numbered i + 1, gets the i-th anchor of the table (the
      later anchor from the ninth on) and the trimmed groups of its match. */
  lemma {:induction false} ShotsNumbered(rows: seq<(string, string)>, n: nat, i: nat)
    requires i < n <= |rows|
    ensures ShotsOf(rows, n)[i].number == i + 1
    ensures ShotsOf(rows, n)[i].anchor == AnchorAt(i)
    ensures ShotsOf(rows, n)[i].imgRel == Strip(rows[i].0)
    ensures ShotsOf(rows, n)[i].caption == Strip(rows[i].1)
  {
    ShotsOfAt(rows, n, i);
  }

  lemma {:induction false} ShotsOfAt(rows: seq<(string, string)>, n: nat, i: nat)
    requires i < n <= |rows|
    ensures ShotsOf(rows, n)[i] == ShotOf(rows[i], i)
  {
    if i < n - 1 {
      ShotsOfAt(rows, n - 1, i);
      assert ShotsOf(rows, n)[i] == ShotsOf(rows, n - 1)[i];
    }
  }

  const FigureWord: string := "Figure "

  /** `f"Figure {n}. {caption}"`. */
  function FigureCaption(n: nat, caption: string): string {
    FigureWord + NatToString(n) + ". " + caption
  }

  /** The number a "Figure n. ..." text carries, read back. */
  function CaptionNumber(t: string): Option<nat> {
    if !StartsWith(t, FigureWord) then None
    else
      var rest := t[|FigureWord|..];
      var d := DigitRun(rest);
      if d == 0 || d == |rest| || rest[d] != '.' then None
      else Some(DigitsValue(rest[..d]))
  }

  /** A caption reads back the number it was written with. */
  lemma CaptionNumberOf(n: nat, caption: string)
    ensures CaptionNumber(FigureCaption(n, caption)) == Some(n)
  {
    var num := NatToString(n);
    var t := FigureCaption(n, caption);
    NatToStringRoundTrip(n);
    assert t[..|FigureWord|] == FigureWord;
    assert t[|FigureWord|..] == num + (". " + caption);
    CaptionRestNumber(t[|FigureWord|..], num, ". " + caption);
  }

  lemma CaptionRestNumber(rest: string, num: string, tail: string)
    requires IsDigits(num) && tail != [] && tail[0] == '.' && rest == num + tail
    ensures DigitRun(rest) == |num| && rest[|num|] == '.' && rest[..|num|] == num
  {
    DigitRunOfNumeral(num, tail);
  }

  /** Two captions are the same text only for the same number and caption. */
  lemma FigureCaptionInjective(n: nat, a: string, m: nat, b: string)
    requires FigureCaption(n, a) == FigureCaption(m, b)
    ensures n == m && a == b
  {
    CaptionNumberOf(n, a);
    CaptionNumberOf(m, b);
    var k := |FigureWord| + |NatToString(n)| + 2;
    assert FigureCaption(n, a)[k..] == a;
    assert FigureCaption(m, b)[k..] == b;
  }

  /** `{s.caption} | {f"Figure {s.number}. {s.caption}"}` over the shots. */
  function CaptionSet(shots: seq<Shot>): (r: set<string>)
    ensures forall s :: s in shots ==> s.caption in r && FigureCaption(s.number, s.caption) in r
  {
    (set s | s in shots :: s.caption) + (set s | s in shots :: FigureCaption(s.number, s.caption))
  }

  /** The first of "ImageCaption" and "Caption" the document defines. */
  function CaptionStyle(styles: set<string>): Option<string> {
    if "ImageCaption" in styles then Some("ImageCaption")
    else if "Caption" in styles then Some("Caption")
    else None
  }

  /** A new paragraph holding `text`, in the caption style when there is one. */
  function CaptionPara(text: string, styles: set<string>): (r: Para)
    ensures DocxText(r) == text && !r.hasDrawing && r.style == CaptionStyle(styles)
  {
    WithText(Para(CaptionStyle(styles), None, [], false), text)
  }

  /** A paragraph holding nothing but one picture run. */
  const PicturePara: Para := Para(None, None, [Run(None, None, false)], true)

  // ---------------------------------------------------------------------------
  // removing the shots of an earlier run

  const LegacyHints: seq<string> := [
    "overview",
    "navigation controls",
    "left navigation panel",
    "interactive areas",
    "flow a-",
    "flow b-"]

  /** The style name holds "caption" in any case (which covers "ImageCaption"
      and "Caption"). */
  predicate CaptionStyled(p: Para) {
    var name := p.style.GetOr("");
    Contains(Lower(name), "caption") || name == "ImageCaption" || name == "Caption"
  }

  predicate HasHint(t: string) {
    exists i :: 0 <= i < |LegacyHints| && Contains(t, LegacyHints[i])
  }

  /** The trimmed text is one of the listed captions or holds a legacy hint. */
  predicate KnownCaption(p: Para, captions: set<string>) {
    var txt := Strip(DocxText(p));
    txt in captions || HasHint(Lower(txt))
  }

  /** A caption left by an earlier run. */
  predicate Stale(p: Para, captions: set<string>) {
    CaptionStyled(p) && KnownCaption(p, captions)
  }

  /** A picture paragraph without text. */
  predicate EmptyDrawing(p: Para) {
    p.hasDrawing && Strip(DocxText(p)) == []
  }

  /** The two tests `clear_existing_shot_blocks` applies, as values. */
  function StaleIn(captions: set<string>): Para -> bool {
    p => Stale(p, captions)
  }

  /** What a sweep leaves, `kept` being what it has passed: an item `drop`
      selects goes, and so does an item `along` selects right before it. */
  function Sweep<T>(kept: seq<T>, rest: seq<T>, drop: T -> bool, along: T -> bool): seq<T>
    decreases |rest|
  {
    if rest == [] then kept
    else if drop(rest[0]) then
      if kept != [] && along(kept[|kept| - 1]) then Sweep(kept[..|kept| - 1], rest[1..], drop, along)
      else Sweep(kept, rest[1..], drop, along)
    else Sweep(kept + [rest[0]], rest[1..], drop, along)
  }

  /** `clear_existing_shot_blocks`: the document becomes the sweep of what it
      was, stale captions taking a textless picture before them along, and
      the count is the number of paragraphs removed. */
  method ClearShotBlocks(doc: Document, captions: set<string>) returns (removed: nat)
    modifies doc
    ensures doc.paras == Sweep([], old(doc.paras), StaleIn(captions), EmptyDrawing)
    ensures removed == |old(doc.paras)| - |doc.paras|
  {
    ghost var orig := doc.paras;
    ghost var drop := StaleIn(captions);
    removed := 0;
    var i := 0;
    assert doc.paras[..0] == [] && doc.paras[0..] == doc.paras;
    while i < |doc.paras|
      invariant i <= |doc.paras|
      invariant Sweep(doc.paras[..i], doc.paras[i..], drop, EmptyDrawing) == Sweep([], orig, drop, EmptyDrawing)
      invariant removed + |doc.paras| == |orig|
      decreases |doc.paras| - i
    {
      var p := doc.paras[i];
      var txt := Strip(DocxText(p));
      var captionStyle := CaptionStyled(p);
      var known := txt in captions || HasHint(Lower(txt));
      if captionStyle && known {
        assert drop(p);
        ghost var b := doc.paras;
        doc.RemoveAt(i);
        removed := removed + 1;
        RemovedAt(b, i);
        if i >= 1 && doc.paras[i - 1].hasDrawing && Strip(DocxText(doc.paras[i - 1])) == [] {
          assert EmptyDrawing(b[i - 1]);
          doc.RemoveAt(i - 1);
          removed := removed + 1;
          RemovedBefore(b, i);
          SweepPairStep(b, i, drop, EmptyDrawing);
          i := i - 1;
        } else {
          assert !(1 <= i && EmptyDrawing(b[i - 1]));
          SweepDropStep(b, i, drop, EmptyDrawing);
        }
        continue;
      }
      assert !drop(p);
      SweepKeepStep(doc.paras, i, drop, EmptyDrawing);
      i := i + 1;
    }
    assert doc.paras[..i] == doc.paras && doc.paras[i..] == [];
  }

  /** Taking out position `i`: what was before stays before, what was after
      now starts at `i`. */
  lemma RemovedAt<T>(b: seq<T>, i: nat)
    requires i < |b|
    ensures (b[..i] + b[i + 1..])[..i] == b[..i]
    ensures (b[..i] + b[i + 1..])[i..] == b[i + 1..]
    ensures 1 <= i ==> (b[..i] + b[i + 1..])[i - 1] == b[i - 1]
  {
  }

  /** Taking out positions `i - 1` and `i`. */
  lemma RemovedBefore<T>(b: seq<T>, i: nat)
    requires 1 <= i < |b|
    ensures var c := b[..i] + b[i + 1..];
      c[..i - 1] + c[i..] == b[..i - 1] + b[i + 1..]
    ensures (b[..i - 1] + b[i + 1..])[..i - 1] == b[..i - 1]
    ensures (b[..i - 1] + b[i + 1..])[i - 1..] == b[i + 1..]
  {
    var c := b[..i] + b[i + 1..];
    assert c[..i - 1] == b[..i - 1];
    assert c[i..] == b[i + 1..];
  }

  /** An item not selected is passed over. */
  lemma SweepKeepStep<T>(b: seq<T>, i: nat, drop: T -> bool, along: T -> bool)
    requires i < |b| && !drop(b[i])
    ensures Sweep(b[..i + 1], b[i + 1..], drop, along) == Sweep(b[..i], b[i..], drop, along)
  {
    assert b[..i] + [b[i]] == b[..i + 1];
    assert b[i..][1..] == b[i + 1..];
  }

  /** A selected item with nothing to take along goes alone. */
  lemma SweepDropStep<T>(b: seq<T>, i: nat, drop: T -> bool, along: T -> bool)
    requires i < |b| && drop(b[i])
    requires !(1 <= i && along(b[i - 1]))
    ensures Sweep(b[..i], b[i + 1..], drop, along) == Sweep(b[..i], b[i..], drop, along)
  {
    assert b[i..][1..] == b[i + 1..];
    if i >= 1 {
      assert b[..i][i - 1] == b[i - 1];
    }
  }

  /** A selected item takes the item before it along. */
  lemma SweepPairStep<T>(b: seq<T>, i: nat, drop: T -> bool, along: T -> bool)
    requires 1 <= i < |b| && drop(b[i]) && along(b[i - 1])
    ensures Sweep(b[..i - 1], b[i + 1..], drop, along) == Sweep(b[..i], b[i..], drop, along)
  {
    assert b[i..][1..] == b[i + 1..];
    assert b[..i][i - 1] == b[i - 1];
    assert b[..i][..i - 1] == b[..i - 1];
  }

  /** Joining two sequences and then filtering is filtering each. */
  lemma {:induction false} FilteredConcat<T>(a: seq<T>, b: seq<T>, drop: T -> bool)
    ensures Filtered(a + b, drop) == Filtered(a, drop) + Filtered(b, drop)
    decreases |b|
  {
    if b == [] {
      assert a + b == a;
    } else {
      var n := |b| - 1;
      assert (a + b)[..|a + b| - 1] == a + b[..n];
      FilteredConcat(a, b[..n], drop);
    }
  }

  /** Filtering one item. */
  lemma FilteredOne<T>(x: T, drop: T -> bool)
    ensures Filtered([x], drop) == (if drop(x) then [] else [x])
  {
    assert [x][..0] == [];
  }

  /** The items of `rest` a sweep selects. */
  function DropCount<T>(rest: seq<T>, drop: T -> bool): nat
    decreases |rest|
  {
    if rest == [] then 0 else (if drop(rest[0]) then 1 else 0) + DropCount(rest[1..], drop)
  }

  /** Nothing selected is left behind, when nothing selected was passed. */
  lemma {:induction false} SweepClean<T>(kept: seq<T>, rest: seq<T>, drop: T -> bool, along: T -> bool)
    requires forall k :: 0 <= k < |kept| ==> !drop(kept[k])
    ensures forall k :: 0 <= k < |Sweep(kept, rest, drop, along)| ==> !drop(Sweep(kept, rest, drop, along)[k])
    decreases |rest|
  {
    if rest != [] {
      if drop(rest[0]) {
        if kept != [] && along(kept[|kept| - 1]) {
          SweepClean(kept[..|kept| - 1], rest[1..], drop, along);
        } else {
          SweepClean(kept, rest[1..], drop, along);
        }
      } else {
        SweepClean(kept + [rest[0]], rest[1..], drop, along);
      }
    }
  }

  /** With nothing to select, a sweep keeps everything. */
  lemma {:induction false} SweepNone<T>(kept: seq<T>, rest: seq<T>, drop: T -> bool, along: T -> bool)
    requires forall k :: 0 <= k < |rest| ==> !drop(rest[k])
    ensures Sweep(kept, rest, drop, along) == kept + rest
    decreases |rest|
  {
    if rest != [] {
      assert !drop(rest[0]);
      SweepNone(kept + [rest[0]], rest[1..], drop, along);
      assert kept + [rest[0]] + rest[1..] == kept + rest;
    }
  }

  /** Only items `drop` or `along` selects go: every other item stays, in
      its order. */
  lemma {:induction false} SweepKeepsOthers<T>(kept: seq<T>, rest: seq<T>, drop: T -> bool, along: T -> bool, gone: T -> bool)
    requires forall x :: drop(x) ==> gone(x)
    requires forall x :: along(x) ==> gone(x)
    ensures Filtered(Sweep(kept, rest, drop, along), gone) == Filtered(kept + rest, gone)
    decreases |rest|
  {
    if rest == [] {
      assert kept + rest == kept;
    } else {
      var x := rest[0];
      var tail := rest[1..];
      assert rest == [x] + tail;
      if drop(x) {
        if kept != [] && along(kept[|kept| - 1]) {
          var n := |kept| - 1;
          SweepKeepsOthers(kept[..n], tail, drop, along, gone);
          assert kept == kept[..n] + [kept[n]];
          FilterPairGone(kept[..n], kept[n], x, tail, gone);
        } else {
          SweepKeepsOthers(kept, tail, drop, along, gone);
          FilterOneGone(kept, x, tail, gone);
        }
      } else {
        SweepKeepsOthers(kept + [x], tail, drop, along, gone);
        assert kept + [x] + tail == kept + rest;
      }
    }
  }

  /** Filtering passes over one item it drops. */
  lemma FilterOneGone<T>(kept: seq<T>, x: T, tail: seq<T>, gone: T -> bool)
    requires gone(x)
    ensures Filtered(kept + tail, gone) == Filtered(kept + ([x] + tail), gone)
  {
    FilteredConcat(kept, tail, gone);
    FilteredConcat(kept, [x] + tail, gone);
    FilteredConcat([x], tail, gone);
    FilteredOne(x, gone);
  }

  /** Filtering passes over two neighbours it drops. */
  lemma FilterPairGone<T>(front: seq<T>, y: T, x: T, tail: seq<T>, gone: T -> bool)
    requires gone(x) && gone(y)
    ensures Filtered(front + tail, gone) == Filtered((front + [y]) + ([x] + tail), gone)
  {
    FilterOneGone(front + [y], x, tail, gone);
    FilteredConcat(front + [y], tail, gone);
    FilteredConcat(front, [y], gone);
    FilteredOne(y, gone);
    FilteredConcat(front, tail, gone);
  }

  /** A sweep removes at most two items per selected item: the item and the
      one before it. */
  lemma {:induction false} SweepBound<T>(kept: seq<T>, rest: seq<T>, drop: T -> bool, along: T -> bool)
    ensures |Sweep(kept, rest, drop, along)| <= |kept| + |rest|
    ensures |kept| + |rest| <= |Sweep(kept, rest, drop, along)| + 2 * DropCount(rest, drop)
    decreases |rest|
  {
    if rest != [] {
      if drop(rest[0]) {
        if kept != [] && along(kept[|kept| - 1]) {
          SweepBound(kept[..|kept| - 1], rest[1..], drop, along);
        } else {
          SweepBound(kept, rest[1..], drop, along);
        }
      } else {
        SweepBound(kept + [rest[0]], rest[1..], drop, along);
      }
    }
  }

  /** A paragraph `clear_existing_shot_blocks` may take out. */
  function Removable(captions: set<string>): Para -> bool {
    p => Stale(p, captions) || EmptyDrawing(p)
  }

  /** After `clear_existing_shot_blocks` no stale caption is left; every
      paragraph that is neither a stale caption nor a textless picture stays,
      in order; at most two paragraphs go per stale caption; and a second
      clear removes nothing. */
  lemma ClearShotBlocksSpec(paras: seq<Para>, captions: set<string>)
    ensures var r := Sweep([], paras, StaleIn(captions), EmptyDrawing);
      forall k :: 0 <= k < |r| ==> !Stale(r[k], captions)
    ensures Filtered(Sweep([], paras, StaleIn(captions), EmptyDrawing), Removable(captions))
      == Filtered(paras, Removable(captions))
    ensures |paras| <= |Sweep([], paras, StaleIn(captions), EmptyDrawing)| + 2 * DropCount(paras, StaleIn(captions))
    ensures Sweep([], Sweep([], paras, StaleIn(captions), EmptyDrawing), StaleIn(captions), EmptyDrawing)
      == Sweep([], paras, StaleIn(captions), EmptyDrawing)
  {
    var drop := StaleIn(captions);
    var r := Sweep([], paras, drop, EmptyDrawing);
    SweepClean([], paras, drop, EmptyDrawing);
    assert forall k :: 0 <= k < |r| ==> !drop(r[k]);
    SweepKeepsOthers([], paras, drop, EmptyDrawing, Removable(captions));
    assert [] + paras == paras;
    SweepBound([], paras, drop, EmptyDrawing);
    SweepNone([], r, drop, EmptyDrawing);
    assert [] + r == r;
  }

  // ---------------------------------------------------------------------------
  // token mode: `sync_dynamic`

  /** The figure id a paragraph's token names: the regex searched in its
      trimmed text. */
  function FigTokenId(p: Para): Option<string> {
    SearchId(Strip(DocxText(p)), FigTag)
  }

  /** The token search run on every paragraph of the snapshot. */
  function FigTokenIds(snap: seq<Para>): (ids: seq<Option<string>>)
    ensures |ids| == |snap|
  {
    MappedTo(snap, FigTokenId)
  }

  /** The image path a figure block names, "" when it names none. */
  function ImageOf(b: Block): string {
    b.imageRel.GetOr("")
  }

  /** A token whose figure is in the map and whose image is present: the
      paragraph becomes a picture and gets a caption. */
  predicate Resolves(id: Option<string>, figs: map<string, Block>, present: string -> bool) {
    id.Some? && id.value in figs && present(ImageOf(figs[id.value]))
  }

  /** What a paragraph whose token search found `id` turns into, `count`
      figures having been embedded before it. */
  function DynResolve(p: Para, id: Option<string>, figs: map<string, Block>, present: string -> bool,
                      styles: set<string>, count: nat): seq<Para> {
    if id.None? then [p]
    else if !Resolves(id, figs, present) then [WithText(p, "")]
    else [PicturePara, CaptionPara(FigureCaption(count + 1, figs[id.value].caption.GetOr("")), styles)]
  }

  /** How many of the first `k` tokens resolve. */
  function EmbedCount(ids: seq<Option<string>>, k: nat, figs: map<string, Block>, present: string -> bool): (r: nat)
    requires k <= |ids|
    ensures r <= k
  {
    if k == 0 then 0 else EmbedCount(ids, k - 1, figs, present) + (if Resolves(ids[k - 1], figs, present) then 1 else 0)
  }

  /** What the first `k` paragraphs of the snapshot have turned into, `ids`
      being their token searches. */
  function DynOut(snap: seq<Para>, ids: seq<Option<string>>, k: nat, figs: map<string, Block>, present: string -> bool,
                  styles: set<string>): seq<Para>
    requires |ids| == |snap| && k <= |snap|
  {
    if k == 0 then []
    else
      DynOut(snap, ids, k - 1, figs, present, styles)
        + DynResolve(snap[k - 1], ids[k - 1], figs, present, styles, EmbedCount(ids, k - 1, figs, present))
  }

  /** `sync_dynamic` on an opened document: the loop runs over the
      paragraphs present when it starts, and the counter ends at the number
      of figures embedded. */
  method SyncDynamic(doc: Document, sections: seq<Section>, present: string -> bool, styles: set<string>)
    returns (replaced: nat)
    modifies doc
    ensures var snap := old(doc.paras);
      doc.paras == DynOut(snap, FigTokenIds(snap), |snap|, FigureMap(sections), present, styles)
    ensures replaced == EmbedCount(FigTokenIds(old(doc.paras)), |old(doc.paras)|, FigureMap(sections), present)
  {
    var figs := BuildIndex(sections, FigureKey);
    replaced := EmbedFigures(doc, figs, present, styles);
  }

  /** The loop of `sync_dynamic` over the paragraphs present when it starts,
      `figs` being the figure index. */
  method EmbedFigures(doc: Document, figs: map<string, Block>, present: string -> bool, styles: set<string>)
    returns (replaced: nat)
    modifies doc
    ensures var snap := old(doc.paras);
      doc.paras == DynOut(snap, FigTokenIds(snap), |snap|, figs, present, styles)
    ensures replaced == EmbedCount(FigTokenIds(old(doc.paras)), |old(doc.paras)|, figs, present)
  {
    ghost var snap := doc.paras;
    ghost var ids := FigTokenIds(snap);
    replaced := 0;
    var pos := 0;
    var n := |doc.paras|;
    for k := 0 to n
      invariant doc.paras == DynOut(snap, ids, k, figs, present, styles) + snap[k..]
      invariant pos == |DynOut(snap, ids, k, figs, present, styles)|
      invariant replaced == EmbedCount(ids, k, figs, present)
    {
      var width;
      width, replaced := EmbedStep(doc, snap, ids, k, pos, figs, present, styles, replaced);
      pos := pos + width;
    }
  }

  /** One turn of the loop: snapshot paragraph `k`, now at `pos`. */
  method EmbedStep(doc: Document, ghost snap: seq<Para>, ghost ids: seq<Option<string>>, ghost k: nat, pos: nat,
                   figs: map<string, Block>, present: string -> bool, styles: set<string>, count: nat)
    returns (width: nat, next: nat)
    requires ids == FigTokenIds(snap) && k < |snap|
    requires doc.paras == DynOut(snap, ids, k, figs, present, styles) + snap[k..]
    requires pos == |DynOut(snap, ids, k, figs, present, styles)|
    requires count == EmbedCount(ids, k, figs, present)
    modifies doc
    ensures doc.paras == DynOut(snap, ids, k + 1, figs, present, styles) + snap[k + 1..]
    ensures pos + width == |DynOut(snap, ids, k + 1, figs, present, styles)|
    ensures next == EmbedCount(ids, k + 1, figs, present)
  {
    ghost var done := DynOut(snap, ids, k, figs, present, styles);
    ghost var out := DynResolve(snap[k], ids[k], figs, present, styles, count);
    ghost var cur := doc.paras;
    assert pos < |cur| && cur[pos] == snap[k] by {
      SnapshotStep(done, snap, k, out);
    }
    var p := doc.paras[pos];
    var id := SearchId(Strip(DocxText(p)), FigTag);
    assert id == ids[k] by {
      MappedToAt(snap, FigTokenId, k);
    }
    var embedded;
    width, embedded := DynResolveAt(doc, pos, p, id, figs, present, styles, count);
    next := if embedded then count + 1 else count;
    assert doc.paras == (done + out) + snap[k + 1..] by {
      SnapshotStep(done, snap, k, out);
    }
    DynOutStep(snap, ids, k, figs, present, styles);
  }

  /** One more snapshot paragraph appends what it turns into, and counts one
      more embed when its token resolves. */
  lemma DynOutStep(snap: seq<Para>, ids: seq<Option<string>>, k: nat, figs: map<string, Block>,
                   present: string -> bool, styles: set<string>)
    requires |ids| == |snap| && k < |snap|
    ensures var n := EmbedCount(ids, k, figs, present);
      DynOut(snap, ids, k + 1, figs, present, styles)
        == DynOut(snap, ids, k, figs, present, styles) + DynResolve(snap[k], ids[k], figs, present, styles, n)
      && EmbedCount(ids, k + 1, figs, present) == n + (if Resolves(ids[k], figs, present) then 1 else 0)
  {
  }

  /** The token paragraph `p` at `pos`, whose search found `id`. */
  method DynResolveAt(doc: Document, pos: nat, p: Para, id: Option<string>, figs: map<string, Block>,
                      present: string -> bool, styles: set<string>, count: nat)
    returns (width: nat, embedded: bool)
    requires pos < |doc.paras| && doc.paras[pos] == p
    modifies doc
    ensures doc.paras == old(doc.paras[..pos]) + DynResolve(p, id, figs, present, styles, count) + old(doc.paras[pos + 1..])
    ensures width == |DynResolve(p, id, figs, present, styles, count)|
    ensures embedded == Resolves(id, figs, present)
  {
    if id.None? {
      assert doc.paras == doc.paras[..pos] + [p] + doc.paras[pos + 1..];
      return 1, false;
    }
    if id.value !in figs || !present(ImageOf(figs[id.value])) {
      ReplaceAt(doc, pos, WithText(p, ""));
      return 1, false;
    }
    var fig := figs[id.value];
    var caption := CaptionPara(FigureCaption(count + 1, fig.caption.GetOr("")), styles);
    PictureAt(doc, pos, caption);
    return 2, true;
  }

  /** The paragraph at `pos` rewritten. */
  method ReplaceAt(doc: Document, pos: nat, x: Para)
    requires pos < |doc.paras|
    modifies doc
    ensures doc.paras == old(doc.paras[..pos]) + [x] + old(doc.paras[pos + 1..])
  {
    UpdateAsSplice(doc.paras, pos, x);
    doc.Replace(pos, x);
  }

  /** The paragraph at `pos` cleared down to a picture, `caption` right after it. */
  method PictureAt(doc: Document, pos: nat, caption: Para)
    requires pos < |doc.paras|
    modifies doc
    ensures doc.paras == old(doc.paras[..pos]) + [PicturePara, caption] + old(doc.paras[pos + 1..])
  {
    ghost var b := doc.paras;
    UpdateThenInsert(b, pos, PicturePara, [caption]);
    doc.Replace(pos, PicturePara);
    doc.InsertAfter(pos, caption);
  }

  /** A paragraph turns into one paragraph, or two when its token resolves. */
  lemma DynResolveWidth(p: Para, id: Option<string>, figs: map<string, Block>, present: string -> bool,
                        styles: set<string>, count: nat)
    ensures |DynResolve(p, id, figs, present, styles, count)| == if Resolves(id, figs, present) then 2 else 1
  {
  }

  /** The output holds one paragraph per snapshot paragraph, plus one caption
      per embedded figure. */
  lemma {:induction false} DynLength(snap: seq<Para>, ids: seq<Option<string>>, k: nat, figs: map<string, Block>,
                                     present: string -> bool, styles: set<string>)
    requires |ids| == |snap| && k <= |snap|
    ensures |DynOut(snap, ids, k, figs, present, styles)| == k + EmbedCount(ids, k, figs, present)
  {
    if k > 0 {
      DynLength(snap, ids, k - 1, figs, present, styles);
      DynResolveWidth(snap[k - 1], ids[k - 1], figs, present, styles, EmbedCount(ids, k - 1, figs, present));
    }
  }

  /** A figure embedded for paragraph `k` counts one more embed. */
  lemma DynEmbeddedCount(snap: seq<Para>, ids: seq<Option<string>>, k: nat, figs: map<string, Block>,
                         present: string -> bool, styles: set<string>)
    requires |ids| == |snap| && k < |snap| && Resolves(ids[k], figs, present)
    ensures EmbedCount(ids, k + 1, figs, present) == EmbedCount(ids, k, figs, present) + 1
  {
    DynOutStep(snap, ids, k, figs, present, styles);
  }

  /** `after` is `before` followed by a picture paragraph and a caption
      numbered `number`. */
  predicate PictureAppended(before: seq<Para>, after: seq<Para>, number: nat) {
    |after| == |before| + 2 && after[..|before|] == before && after[|before|] == PicturePara &&
    CaptionNumber(DocxText(after[|before| + 1])) == Some(number)
  }

  /** A figure embedded for paragraph `k` becomes a picture followed by a
      caption numbered one more than the figures embedded before it; what
      came out before stays. */
  lemma DynEmbedded(snap: seq<Para>, ids: seq<Option<string>>, k: nat, figs: map<string, Block>,
                    present: string -> bool, styles: set<string>)
    requires |ids| == |snap| && k < |snap| && Resolves(ids[k], figs, present)
    ensures PictureAppended(DynOut(snap, ids, k, figs, present, styles), DynOut(snap, ids, k + 1, figs, present, styles),
                            EmbedCount(ids, k, figs, present) + 1)
  {
    var before := DynOut(snap, ids, k, figs, present, styles);
    var after := DynOut(snap, ids, k + 1, figs, present, styles);
    var n := EmbedCount(ids, k, figs, present);
    DynOutStep(snap, ids, k, figs, present, styles);
    FigureAppended(before, after, snap[k], ids[k], figs, present, styles, n);
  }

  /** What a resolving token turns into, appended after `before`. */
  lemma FigureAppended(before: seq<Para>, after: seq<Para>, p: Para, id: Option<string>, figs: map<string, Block>,
                       present: string -> bool, styles: set<string>, count: nat)
    requires Resolves(id, figs, present) && after == before + DynResolve(p, id, figs, present, styles, count)
    ensures PictureAppended(before, after, count + 1)
  {
    EmbedBlock(p, id, figs, present, styles, count);
    BlockAppended(before, DynResolve(p, id, figs, present, styles, count), after, count + 1);
  }

  /** A picture and a caption appended after `before`. */
  lemma BlockAppended(before: seq<Para>, out: seq<Para>, after: seq<Para>, number: nat)
    requires after == before + out && |out| == 2 && out[0] == PicturePara
    requires CaptionNumber(DocxText(out[1])) == Some(number)
    ensures PictureAppended(before, after, number)
  {
    assert after[|before| + 1] == out[1];
  }

  lemma EmbedBlock(p: Para, id: Option<string>, figs: map<string, Block>, present: string -> bool,
                   styles: set<string>, count: nat)
    requires Resolves(id, figs, present)
    ensures var out := DynResolve(p, id, figs, present, styles, count);
      |out| == 2 && out[0] == PicturePara && CaptionNumber(DocxText(out[1])) == Some(count + 1)
  {
    CaptionNumberOf(count + 1, figs[id.value].caption.GetOr(""));
  }

  lemma AppendTwo<T>(before: seq<T>, out: seq<T>)
    requires |out| == 2
    ensures var after := before + out;
      |after| == |before| + 2 && after[..|before|] == before && after[|before|] == out[0] && after[|before| + 1] == out[1]
  {
  }

  /** A token whose figure is unknown or whose image is missing leaves an
      emptied paragraph in its place and does not move the counter. */
  lemma DynCleared(snap: seq<Para>, ids: seq<Option<string>>, k: nat, figs: map<string, Block>,
                   present: string -> bool, styles: set<string>)
    requires |ids| == |snap| && k < |snap| && ids[k].Some? && !Resolves(ids[k], figs, present)
    ensures EmbedCount(ids, k + 1, figs, present) == EmbedCount(ids, k, figs, present)
    ensures DynOut(snap, ids, k + 1, figs, present, styles) == DynOut(snap, ids, k, figs, present, styles) + [WithText(snap[k], "")]
    ensures DocxText(WithText(snap[k], "")) == [] && WithText(snap[k], "").style == snap[k].style
  {
  }

  /** A paragraph without a figure token passes through. */
  lemma DynUntouched(snap: seq<Para>, ids: seq<Option<string>>, k: nat, figs: map<string, Block>,
                     present: string -> bool, styles: set<string>)
    requires |ids| == |snap| && k < |snap| && ids[k].None?
    ensures EmbedCount(ids, k + 1, figs, present) == EmbedCount(ids, k, figs, present)
    ensures DynOut(snap, ids, k + 1, figs, present, styles) == DynOut(snap, ids, k, figs, present, styles) + [snap[k]]
  {
  }

  /** A later embed counts more embeds before it, so gets a larger number. */
  lemma {:induction false} EmbedCountGrows(ids: seq<Option<string>>, i: nat, j: nat, figs: map<string, Block>, present: string -> bool)
    requires i < j <= |ids| && Resolves(ids[i], figs, present)
    ensures EmbedCount(ids, i, figs, present) < EmbedCount(ids, j, figs, present)
    decreases j
  {
    if j > i + 1 {
      EmbedCountGrows(ids, i, j - 1, figs, present);
    }
  }

  /** Every number from 1 to the total goes to some embedded figure: the
      numbering has no gaps. */
  lemma {:induction false} EveryNumberUsed(ids: seq<Option<string>>, n: nat, num: nat, figs: map<string, Block>, present: string -> bool)
    requires n <= |ids| && 1 <= num <= EmbedCount(ids, n, figs, present)
    ensures exists k :: 0 <= k < n && Resolves(ids[k], figs, present) && EmbedCount(ids, k, figs, present) + 1 == num
    decreases n
  {
    if num <= EmbedCount(ids, n - 1, figs, present) {
      EveryNumberUsed(ids, n - 1, num, figs, present);
    } else {
      assert Resolves(ids[n - 1], figs, present) && EmbedCount(ids, n - 1, figs, present) + 1 == num;
    }
  }

  // ---------------------------------------------------------------------------
  // legacy mode: `sync_legacy`

  /** `tail_by_anchor`: for each anchor, the index of the last caption placed
      under it. */
  type Tails = map<string, nat>

  /** A paragraph `sync_legacy` can chain after: a "Figure n." caption that
      is no heading. */
  predicate IsCaption(p: Para) {
    CaptionNumber(DocxText(p)).Some? && HeadingLevel(p).None?
  }

  /** Every tail is a caption right after its picture. */
  predicate TailsOk(paras: seq<Para>, tails: Tails) {
    forall a :: a in tails ==> 1 <= tails[a] < |paras| && paras[tails[a] - 1] == PicturePara && IsCaption(paras[tails[a]])
  }

  /** The picture and the caption placed for a shot. */
  function ShotBlock(shot: Shot, styles: set<string>): seq<Para> {
    [PicturePara, CaptionPara(FigureCaption(shot.number, shot.caption), styles)]
  }

  /** The document with `block` put in after paragraph `at`. */
  function WithBlock(paras: seq<Para>, at: nat, block: seq<Para>): (r: seq<Para>)
    requires at < |paras|
    ensures |r| == |paras| + |block|
  {
    paras[..at + 1] + block + paras[at + 1..]
  }

  /** The paragraphs after `at` move two down when a block goes in after it. */
  function Shifted(i: nat, at: nat): nat {
    if i <= at then i else i + 2
  }

  function ShiftTails(tails: Tails, at: nat): (r: Tails)
    ensures r.Keys == tails.Keys
    ensures forall a :: a in tails ==> r[a] == Shifted(tails[a], at)
  {
    map a | a in tails :: Shifted(tails[a], at)
  }

  /** The tails after a block went in after `at`, `anchor`'s tail being the
      new caption. */
  function MoveTail(tails: Tails, at: nat, anchor: string): (r: Tails)
    ensures r.Keys == tails.Keys + {anchor}
  {
    ShiftTails(tails, at)[anchor := at + 2]
  }

  /** `at` is where the shot's block goes: after the anchor's last caption
      when one was placed, otherwise after the last paragraph of the section
      the anchor's heading opens. */
  predicate IsPlacement(paras: seq<Para>, shot: Shot, tails: Tails, at: nat) {
    var start := FindHeading(paras, FigureCanonical(shot.anchor));
    start.Some? && at < |paras| &&
    (shot.anchor in tails ==> at == tails[shot.anchor]) &&
    (shot.anchor !in tails ==> IsSectionEnd(paras, start.value, LevelOr1(HeadingLevel(paras[start.value])), at))
  }

  /** A caption paragraph is no heading, whichever caption style it takes. */
  lemma CaptionNotHeading(text: string, styles: set<string>)
    ensures HeadingLevel(CaptionPara(text, styles)).None?
  {
    var name := CaptionPara(text, styles).style.GetOr("");
    assert name == "ImageCaption" || name == "Caption" || name == "";
    assert !StartsWith(name, HeadingWord) by {
      if |name| >= |HeadingWord| {
        assert name[0] != HeadingWord[0];
      }
    }
  }

  /** The picture paragraph holds no text, so no caption number. */
  lemma PictureNotCaption()
    ensures !IsCaption(PicturePara)
  {
    assert DocxText(PicturePara) == [];
  }

  /** The caption of a shot's block reads back as the shot's number. */
  lemma ShotBlockNumbered(shot: Shot, styles: set<string>)
    ensures var c := ShotBlock(shot, styles)[1];
      IsCaption(c) && CaptionNumber(DocxText(c)) == Some(shot.number)
  {
    CaptionNumberOf(shot.number, shot.caption);
    CaptionNotHeading(FigureCaption(shot.number, shot.caption), styles);
  }

  /** Paragraphs keep their place up to `at` and move two down after it. */
  lemma InsertedShifts(paras: seq<Para>, at: nat, block: seq<Para>, i: nat)
    requires at < |paras| && |block| == 2 && i < |paras|
    ensures var r := paras[..at + 1] + block + paras[at + 1..];
      Shifted(i, at) < |r| && r[Shifted(i, at)] == paras[i]
  {
  }

  /** A paragraph a block can go after without splitting a picture from its
      caption: a caption, or one a heading or the end of the document
      follows. */
  predicate Insertable(paras: seq<Para>, at: nat) {
    at < |paras| && (IsCaption(paras[at]) || at + 1 == |paras| || HeadingLevel(paras[at + 1]).Some?)
  }

  /** Every placement is insertable: a tail is a caption, and a section end
      is followed by the closing heading or the end of the document. */
  lemma PlacementInsertable(paras: seq<Para>, shot: Shot, tails: Tails, at: nat)
    requires TailsOk(paras, tails) && IsPlacement(paras, shot, tails, at)
    ensures Insertable(paras, at)
  {
  }

  /** No insertable paragraph is the picture of a tail. */
  lemma InsertableNotPicture(paras: seq<Para>, tails: Tails, at: nat, a: string)
    requires TailsOk(paras, tails) && Insertable(paras, at) && a in tails
    ensures at != tails[a] - 1
  {
    PictureNotCaption();
  }

  /** Placing a picture and a caption after an insertable paragraph keeps
      every tail a caption after its picture, and makes the new caption the
      tail of `anchor`. */
  lemma PlaceKeepsTails(paras: seq<Para>, block: seq<Para>, tails: Tails, at: nat, anchor: string)
    requires TailsOk(paras, tails) && Insertable(paras, at)
    requires |block| == 2 && block[0] == PicturePara && IsCaption(block[1])
    ensures TailsOk(WithBlock(paras, at, block), MoveTail(tails, at, anchor))
  {
    var r := WithBlock(paras, at, block);
    var t := MoveTail(tails, at, anchor);
    forall a | a in t
      ensures 1 <= t[a] < |r| && r[t[a] - 1] == PicturePara && IsCaption(r[t[a]])
    {
      if a != anchor {
        KeptTail(paras, block, tails, at, anchor, a);
      } else {
        NewTail(paras, block, tails, at, anchor);
      }
    }
  }

  /** The moved anchor's tail is the new caption, after the new picture. */
  lemma NewTail(paras: seq<Para>, block: seq<Para>, tails: Tails, at: nat, anchor: string)
    requires at < |paras| && |block| == 2 && block[0] == PicturePara && IsCaption(block[1])
    ensures var r := WithBlock(paras, at, block);
      var t := MoveTail(tails, at, anchor);
      1 <= t[anchor] < |r| && r[t[anchor] - 1] == PicturePara && IsCaption(r[t[anchor]])
  {
    BlockAt(paras, at, block);
  }

  /** Another anchor's tail, after the move. */
  lemma KeptTail(paras: seq<Para>, block: seq<Para>, tails: Tails, at: nat, anchor: string, a: string)
    requires TailsOk(paras, tails) && Insertable(paras, at) && |block| == 2 && a in tails && a != anchor
    ensures var r := WithBlock(paras, at, block);
      var t := MoveTail(tails, at, anchor);
      1 <= t[a] < |r| && r[t[a] - 1] == PicturePara && IsCaption(r[t[a]])
  {
    assert MoveTail(tails, at, anchor)[a] == Shifted(tails[a], at);
    TailMoved(paras, tails, at, block, a);
  }

  /** An earlier tail keeps its caption and its picture through an insertion
      after an insertable paragraph. */
  lemma TailMoved(paras: seq<Para>, tails: Tails, at: nat, block: seq<Para>, a: string)
    requires TailsOk(paras, tails) && Insertable(paras, at) && |block| == 2 && a in tails
    ensures var r := WithBlock(paras, at, block);
      var t := Shifted(tails[a], at);
      1 <= t < |r| && r[t - 1] == PicturePara && IsCaption(r[t])
  {
    var t := tails[a];
    InsertableNotPicture(paras, tails, at, a);
    InsertedShifts(paras, at, block, t);
    InsertedShifts(paras, at, block, t - 1);
    assert Shifted(t, at) - 1 == Shifted(t - 1, at);
  }

  /** The paragraph the shot's block goes after, as a value: the anchor's
      last caption when one was placed, otherwise the end of the section the
      anchor's heading opens; nothing when no heading matches. */
  function Placement(paras: seq<Para>, shot: Shot, tails: Tails): (r: Option<nat>)
    requires TailsOk(paras, tails)
    ensures r.Some? ==> r.value < |paras|
  {
    PlaceFrom(paras, FindHeading(paras, FigureCanonical(shot.anchor)), shot.anchor, tails)
  }

  /** The placement once the anchor's heading was looked up. */
  function PlaceFrom(paras: seq<Para>, start: Option<nat>, anchor: string, tails: Tails): (r: Option<nat>)
    requires TailsOk(paras, tails) && (start.Some? ==> start.value < |paras|)
    ensures r.Some? ==> r.value < |paras|
  {
    if start.None? then None
    else if anchor in tails then Some(tails[anchor])
    else
      var level := LevelOr1(HeadingLevel(paras[start.value]));
      SectionEndMeets(paras, start.value, level);
      Some(SectionEnd(paras, start.value, level))
  }

  /** The placement meets its description, and is the only paragraph that
      does. */
  lemma PlacementMeets(paras: seq<Para>, shot: Shot, tails: Tails, at: nat)
    requires TailsOk(paras, tails)
    ensures Placement(paras, shot, tails) == Some(at) <==> IsPlacement(paras, shot, tails, at)
  {
    var start := FindHeading(paras, FigureCanonical(shot.anchor));
    if start.Some? && shot.anchor !in tails {
      var level := LevelOr1(HeadingLevel(paras[start.value]));
      SectionEndMeets(paras, start.value, level);
      if IsPlacement(paras, shot, tails, at) {
        SectionEndUnique(paras, start.value, level, at, SectionEnd(paras, start.value, level));
      }
    }
  }

  /** Where `sync_legacy` puts the shot's block, or nothing when it skips the
      shot: its image is missing or no heading matches its anchor. */
  function PlaceTarget(paras: seq<Para>, shot: Shot, present: string -> bool, tails: Tails): (r: Option<nat>)
    requires TailsOk(paras, tails)
    ensures r.Some? ==> r.value < |paras|
  {
    if present(shot.imgRel) then Placement(paras, shot, tails) else None
  }

  /** A shot is skipped exactly when its image is missing or no heading
      matches its anchor; otherwise its block goes at its placement. */
  lemma PlaceTargetSkips(paras: seq<Para>, shot: Shot, present: string -> bool, tails: Tails)
    requires TailsOk(paras, tails)
    ensures var r := PlaceTarget(paras, shot, present, tails);
      (r.None? <==> !present(shot.imgRel) || FindHeading(paras, FigureCanonical(shot.anchor)).None?) &&
      (r.Some? ==> IsPlacement(paras, shot, tails, r.value))
  {
    var r := PlaceTarget(paras, shot, present, tails);
    if r.Some? {
      PlacementMeets(paras, shot, tails, r.value);
    }
  }

  /** Placing the shot where `PlaceTarget` says keeps every tail a caption
      after its picture. */
  lemma PlaceTargetKeeps(paras: seq<Para>, shot: Shot, present: string -> bool, styles: set<string>, tails: Tails)
    requires TailsOk(paras, tails) && PlaceTarget(paras, shot, present, tails).Some?
    ensures var at := PlaceTarget(paras, shot, present, tails).value;
      TailsOk(WithBlock(paras, at, ShotBlock(shot, styles)), MoveTail(tails, at, shot.anchor))
  {
    var at := PlaceTarget(paras, shot, present, tails).value;
    PlacementMeets(paras, shot, tails, at);
    PlacementInsertable(paras, shot, tails, at);
    ShotBlockNumbered(shot, styles);
    PlaceKeepsTails(paras, ShotBlock(shot, styles), tails, at, shot.anchor);
  }

  /** The document, the tails and the count after some shots were placed. */
  datatype Placed = Placed(paras: seq<Para>, tails: Tails, inserted: nat)

  /** One shot placed: the state unchanged when the shot is skipped,
      otherwise its block put in after the target, the anchor's tail moved to
      the new caption and the count one higher. */
  function PlaceNext(prev: Placed, shot: Shot, present: string -> bool, styles: set<string>): (r: Placed)
    requires TailsOk(prev.paras, prev.tails)
    ensures TailsOk(r.paras, r.tails)
  {
    var at := PlaceTarget(prev.paras, shot, present, prev.tails);
    if at.None? then prev
    else
      PlaceTargetKeeps(prev.paras, shot, present, styles, prev.tails);
      Placed(WithBlock(prev.paras, at.value, ShotBlock(shot, styles)), MoveTail(prev.tails, at.value, shot.anchor), prev.inserted + 1)
  }

  /** A placed shot: its picture right after the target, then its caption,
      numbered with the shot's own number (so skipped shots leave gaps in
      the numbering), which becomes the anchor's tail; a later shot under
      the same anchor therefore goes after it. */
  lemma PlaceNextCaption(prev: Placed, shot: Shot, present: string -> bool, styles: set<string>)
    requires TailsOk(prev.paras, prev.tails) && PlaceTarget(prev.paras, shot, present, prev.tails).Some?
    ensures var at := PlaceTarget(prev.paras, shot, present, prev.tails).value;
      var r := PlaceNext(prev, shot, present, styles);
      at + 2 < |r.paras| && r.paras[at + 1] == PicturePara &&
      IsCaption(r.paras[at + 2]) && CaptionNumber(DocxText(r.paras[at + 2])) == Some(shot.number) &&
      r.tails[shot.anchor] == at + 2 && r.inserted == prev.inserted + 1
  {
    var at := PlaceTarget(prev.paras, shot, present, prev.tails).value;
    var block := ShotBlock(shot, styles);
    ShotBlockNumbered(shot, styles);
    BlockAt(prev.paras, at, block);
  }

  /** The block sits right after `at`. */
  lemma BlockAt(paras: seq<Para>, at: nat, block: seq<Para>)
    requires at < |paras| && |block| == 2
    ensures WithBlock(paras, at, block)[at + 1] == block[0] && WithBlock(paras, at, block)[at + 2] == block[1]
  {
  }

  /** The `sync_legacy` loop as a value: the shots placed in order, starting
      from the swept document with no tails. */
  function PlaceAll(paras: seq<Para>, shots: seq<Shot>, present: string -> bool, styles: set<string>): (r: Placed)
    ensures TailsOk(r.paras, r.tails)
    ensures r.inserted <= |shots| && |r.paras| == |paras| + 2 * r.inserted
    decreases |shots|
  {
    if shots == [] then Placed(paras, map[], 0)
    else PlaceNext(PlaceAll(paras, shots[..|shots| - 1], present, styles), shots[|shots| - 1], present, styles)
  }

  /** One more shot of the loop. */
  lemma PlaceAllStep(paras: seq<Para>, shots: seq<Shot>, i: nat, present: string -> bool, styles: set<string>)
    requires i < |shots|
    ensures PlaceAll(paras, shots[..i + 1], present, styles)
      == PlaceNext(PlaceAll(paras, shots[..i], present, styles), shots[i], present, styles)
  {
    assert shots[..i + 1][..i] == shots[..i];
  }

  /** The body of the `sync_legacy` loop: the shot placed and the count
      raised when it was. */
  method LegacyStep(doc: Document, shot: Shot, present: string -> bool, styles: set<string>, tails: Tails, inserted: nat)
    returns (next: Tails, count: nat)
    requires TailsOk(doc.paras, tails)
    modifies doc
    ensures var r := PlaceNext(Placed(old(doc.paras), tails, inserted), shot, present, styles);
      doc.paras == r.paras && next == r.tails && count == r.inserted
  {
    ghost var target := PlaceTarget(doc.paras, shot, present, tails);
    var at;
    at, next := PlaceShot(doc, shot, present, styles, tails);
    if at.Some? {
      assert target.Some? && at.value == target.value;
      count := inserted + 1;
    } else {
      count := inserted;
    }
  }

  /** One pass of the `sync_legacy` loop: the heading index rebuilt from the
      document as it stands, the shot skipped when its image is missing or no
      heading matches its anchor, otherwise its picture and caption put in
      after the placement and the anchor's tail moved to the new caption. */
  method PlaceShot(doc: Document, shot: Shot, present: string -> bool, styles: set<string>, tails: Tails)
    returns (at: Option<nat>, next: Tails)
    requires TailsOk(doc.paras, tails)
    modifies doc
    ensures at == PlaceTarget(old(doc.paras), shot, present, tails)
    ensures at.None? <==> !present(shot.imgRel) || FindHeading(old(doc.paras), FigureCanonical(shot.anchor)).None?
    ensures at.None? ==> doc.paras == old(doc.paras) && next == tails
    ensures at.Some? ==> IsPlacement(old(doc.paras), shot, tails, at.value)
    ensures at.Some? ==> at.value < |old(doc.paras)| && doc.paras == WithBlock(old(doc.paras), at.value, ShotBlock(shot, styles))
    ensures at.Some? ==> next == MoveTail(tails, at.value, shot.anchor)
    ensures TailsOk(doc.paras, next)
  {
    ghost var paras := doc.paras;
    at, next := None, tails;
    if present(shot.imgRel) {
      at := PlacementFor(doc.paras, shot, tails);
      assert doc.paras == paras;
      if at.Some? {
        PlacementMeets(paras, shot, tails, at.value);
        PlacementInsertable(paras, shot, tails, at.value);
        next := PlaceAt(doc, at.value, shot, styles, tails);
      }
    }
  }

  /** The shot's block put in after the insertable paragraph `at`. */
  method PlaceAt(doc: Document, at: nat, shot: Shot, styles: set<string>, tails: Tails) returns (next: Tails)
    requires TailsOk(doc.paras, tails) && Insertable(doc.paras, at)
    modifies doc
    ensures doc.paras == WithBlock(old(doc.paras), at, ShotBlock(shot, styles))
    ensures next == MoveTail(tails, at, shot.anchor)
    ensures TailsOk(doc.paras, next)
  {
    ShotBlockNumbered(shot, styles);
    PlaceKeepsTails(doc.paras, ShotBlock(shot, styles), tails, at, shot.anchor);
    InsertBlock(doc, at, ShotBlock(shot, styles));
    next := MoveTail(tails, at, shot.anchor);
  }

  /** Where the shot's block goes: nowhere when no heading matches its
      anchor. */
  method PlacementFor(paras: seq<Para>, shot: Shot, tails: Tails) returns (at: Option<nat>)
    requires TailsOk(paras, tails)
    ensures at.None? <==> FindHeading(paras, FigureCanonical(shot.anchor)).None?
    ensures at.Some? ==> IsPlacement(paras, shot, tails, at.value)
    ensures at == Placement(paras, shot, tails)
  {
    var start := FindHeading(paras, FigureCanonical(shot.anchor));
    if start.None? {
      return None;
    }
    if shot.anchor in tails {
      at := Some(tails[shot.anchor]);
    } else {
      var level := LevelOr1(HeadingLevel(paras[start.value]));
      var end := SectionEndIndex(paras, start.value, level);
      at := Some(end);
    }
  }

  /** `insert_paragraph_after` twice: the picture after `at`, the caption
      after the picture. */
  method InsertBlock(doc: Document, at: nat, block: seq<Para>)
    requires at < |doc.paras| && |block| == 2
    modifies doc
    ensures doc.paras == WithBlock(old(doc.paras), at, block)
  {
    ghost var b := doc.paras;
    doc.InsertAfter(at, block[0]);
    doc.InsertAfter(at + 1, block[1]);
    assert doc.paras == b[..at + 1] + [block[0]] + [block[1]] + b[at + 1..];
    assert [block[0]] + [block[1]] == block;
  }

  /** `sync_legacy`: the shots read from the source, the blocks of an earlier
      run removed, then each shot placed in turn on the document as it then
      stands. The count is the number of shots placed; each adds two
      paragraphs. */
  method SyncLegacy(doc: Document, rows: seq<(string, string)>, present: string -> bool, styles: set<string>)
    returns (removed: nat, inserted: nat)
    modifies doc
    ensures var swept := Sweep([], old(doc.paras), StaleIn(CaptionSet(ShotsOf(rows, |rows|))), EmptyDrawing);
      var placed := PlaceAll(swept, ShotsOf(rows, |rows|), present, styles);
      removed == |old(doc.paras)| - |swept| && doc.paras == placed.paras && inserted == placed.inserted
    ensures inserted <= |rows|
  {
    var shots := ParseShots(rows);
    var captions := CaptionSet(shots);
    removed := ClearShotBlocks(doc, captions);
    ghost var swept := doc.paras;
    var tails: Tails := map[];
    inserted := 0;
    for i := 0 to |shots|
      invariant doc.paras == PlaceAll(swept, shots[..i], present, styles).paras
      invariant tails == PlaceAll(swept, shots[..i], present, styles).tails
      invariant inserted == PlaceAll(swept, shots[..i], present, styles).inserted
    {
      PlaceAllStep(swept, shots, i, present, styles);
      tails, inserted := LegacyStep(doc, shots[i], present, styles, tails, inserted);
    }
    assert shots[..|shots|] == shots;
  }
}
