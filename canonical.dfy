/** The two heading canonicalisers: the one the XML-level document patcher uses
    (LaTeX macros stripped, section numbers kept) and the one the figure
    placer uses (leading section number stripped). */
module Canonical {
  import opened Wrappers
  import opened Strings

  /** Number of ASCII letters at the head of `s`. */
  function LetterRun(s: string): (n: nat)
    ensures n <= |s|
    ensures forall k :: 0 <= k < n ==> IsAsciiLetter(s[k])
    ensures n == |s| || !IsAsciiLetter(s[n])
  {
    if s != [] && IsAsciiLetter(s[0]) then 1 + LetterRun(s[1..]) else 0
  }

  /** Position of the first `c` in `s`. */
  function IndexOf(s: string, c: char): (r: Option<nat>)
    ensures r.Some? ==> r.value < |s| && s[r.value] == c && c !in s[..r.value]
    ensures r.None? ==> c !in s
  {
    if s == [] then None
    else if s[0] == c then Some(0)
    else match IndexOf(s[1..], c)
      case Some(k) => (assert s[..k + 1] == [s[0]] + s[1..][..k]; Some(k + 1))
      case None => None
  }

  // ---------------------------------------------------------------------------
  // document canonicaliser: sync_latex_to_docx.py canonical

  /** Length of a match of `\\text[A-Za-z]+\{\}` at the head of `s`, or 0. */
  function TextMacroLen(s: string): (m: nat)
    ensures m <= |s|
    ensures m > 0 ==> s[0] == '\\'
  {
    if StartsWith(s, "\\text") then
      var n := LetterRun(s[5..]);
      if n >= 1 && StartsWith(s[5 + n..], "{}") then 5 + n + 2 else 0
    else 0
  }

  /** `re.sub(r"\\text[A-Za-z]+\{\}", "", s)`: drop argument-less text macros. */
  function DropTextMacros(s: string): string
    decreases |s|
  {
    if s == [] then []
    else
      var m := TextMacroLen(s);
      if m > 0 then DropTextMacros(s[m..]) else [s[0]] + DropTextMacros(s[1..])
  }

  /** A match of `\\[A-Za-z]+\{([^}]*)\}` at the head of `s`: its length and group 1. */
  function MacroMatch(s: string): (r: Option<(nat, string)>)
    ensures r.Some? ==> 0 < r.value.0 <= |s| && s[0] == '\\'
  {
    if s != [] && s[0] == '\\' then
      var n := LetterRun(s[1..]);
      if n >= 1 && 1 + n < |s| && s[1 + n] == '{' then
        match IndexOf(s[2 + n..], '}')
        case Some(k) => Some((2 + n + k + 1, s[2 + n..2 + n + k]))
        case None => None
      else None
    else None
  }

  /** `re.sub(r"\\[A-Za-z]+\{([^}]*)\}", r"\1", s)`: keep the argument of one-argument macros. */
  function UnwrapMacros(s: string): string
    decreases |s|
  {
    if s == [] then []
    else match MacroMatch(s)
      case Some((len, group)) => group + UnwrapMacros(s[len..])
      case None => [s[0]] + UnwrapMacros(s[1..])
  }

  /** The document patcher's heading key: macros stripped, lower-cased, only
      `[a-z0-9]` kept. Section numbers survive as digits. */
  function DocxCanonical(text: string): (r: string)
    ensures AllLowerAlnum(r)
  {
    KeepLowerAlnum(Lower(UnwrapMacros(DropTextMacros(text))))
  }

  lemma {:induction false} MacroFree(s: string)
    requires '\\' !in s
    ensures DropTextMacros(s) == s && UnwrapMacros(s) == s
  {
    if s != [] {
      assert s[0] != '\\';
      assert '\\' !in s[1..];
      MacroFree(s[1..]);
    }
  }

  /** The key of a key is the key itself. */
  lemma DocxCanonicalIdempotent(text: string)
    ensures DocxCanonical(DocxCanonical(text)) == DocxCanonical(text)
  {
    var r := DocxCanonical(text);
    assert forall i :: 0 <= i < |r| ==> IsLowerAlnum(r[i]);
    MacroFree(r);
    LowerFixesLowerAlnum(r);
    KeepLowerAlnumFixes(r);
  }

  /** A heading that starts with a digit keeps that digit at the head of its key. */
  lemma DocxCanonicalKeepsLeadingDigit(text: string)
    requires text != [] && IsDigit(text[0])
    ensures DocxCanonical(text) != [] && DocxCanonical(text)[0] == text[0]
  {
    assert TextMacroLen(text) == 0;
    var d := DropTextMacros(text);
    assert d[0] == text[0];
    assert MacroMatch(d).None?;
    var u := UnwrapMacros(d);
    assert u[0] == text[0];
    KeepLowerAlnumHead(Lower(u));
  }

  /** A heading that starts with a letter has a key that starts with a letter. */
  lemma DocxCanonicalKeepsLeadingLetter(text: string)
    requires text != [] && IsAsciiLetter(text[0])
    ensures DocxCanonical(text) != [] && DocxCanonical(text)[0] == LowerChar(text[0])
  {
    assert TextMacroLen(text) == 0;
    var d := DropTextMacros(text);
    assert d[0] == text[0];
    assert MacroMatch(d).None?;
    var u := UnwrapMacros(d);
    assert u[0] == text[0];
    KeepLowerAlnumHead(Lower(u));
  }

  /** Section numbers are kept: "4.2. Left Navigation" and "Left Navigation"
      have different keys, as does any title behind a typed number. */
  lemma DocxCanonicalKeepsNumbers(title: string)
    requires title != [] && IsAsciiLetter(title[0])
    ensures DocxCanonical("4.2. " + title)[0] == '4'
    ensures DocxCanonical("4.2. " + title) != DocxCanonical(title)
  {
    DocxCanonicalKeepsLeadingDigit("4.2. " + title);
    DocxCanonicalKeepsLeadingLetter(title);
  }

  // ---------------------------------------------------------------------------
  // figure canonicaliser: sync_latex_images_to_docx.py canonical

  /** Number of digits at the head of `s`. */
  function DigitRun(s: string): (n: nat)
    ensures n <= |s|
    ensures forall k :: 0 <= k < n ==> IsDigit(s[k])
    ensures n == |s| || !IsDigit(s[n])
  {
    if s != [] && IsDigit(s[0]) then 1 + DigitRun(s[1..]) else 0
  }

  /** Number of whitespace characters at the head of `s`. */
  function SpaceRun(s: string): (n: nat)
    ensures n <= |s|
    ensures n == |s| || !IsSpace(s[n])
  {
    if s != [] && IsSpace(s[0]) then 1 + SpaceRun(s[1..]) else 0
  }

  /** Length of `(\.\d+)*` at the head of `s`, taken greedily. */
  function DotGroups(s: string): (n: nat)
    ensures n <= |s|
    decreases |s|
  {
    if 2 <= |s| && s[0] == '.' && IsDigit(s[1]) then
      var d := 1 + DigitRun(s[1..]);
      d + DotGroups(s[d..])
    else 0
  }

  /** Length of the match of `^\d+(\.\d+)*\.?\s*` on `s`, or 0 when `s` does not start with a digit. */
  function NumberPrefixLen(s: string): (n: nat)
    ensures n <= |s|
    ensures s != [] && IsDigit(s[0]) <==> n > 0
  {
    if s == [] || !IsDigit(s[0]) then 0
    else
      var a := DigitRun(s);
      var b := a + DotGroups(s[a..]);
      var c := if b < |s| && s[b] == '.' then b + 1 else b;
      c + SpaceRun(s[c..])
  }

  /** The figure placer's heading key: trimmed, leading section number dropped,
      lower-cased, only `[a-z0-9]` kept. */
  function FigureCanonical(text: string): (r: string)
    ensures AllLowerAlnum(r)
  {
    var t := Strip(text);
    KeepLowerAlnum(Lower(t[NumberPrefixLen(t)..]))
  }

  /** Stripping around a typed number: only the title's tail is trimmed. */
  lemma StripBehindNumber(t: string)
    requires t != [] && !IsSpace(t[0])
    ensures Strip("4.2. " + t) == "4.2. " + RStrip(t)
    ensures Strip(t) == RStrip(t)
    ensures RStrip(t) != [] && RStrip(t)[0] == t[0]
  {
    assert LStrip("4.2. " + t) == "4.2. " + t;
    assert LStrip(t) == t;
    RStripAppend("4.2. ", t);
    RStripKeepsHead(t);
  }

  /** A heading typed as "4.2. Title" keys like "Title" itself, for any title that
      does not start with a digit, a dot or whitespace. */
  lemma {:induction false} FigureCanonicalDropsNumber(title: string)
    requires title != [] && !IsDigit(title[0]) && !IsSpace(title[0]) && title[0] != '.'
    ensures FigureCanonical("4.2. " + title) == FigureCanonical(title)
  {
    StripBehindNumber(title);
    var r := RStrip(title);
    var u := "4.2. " + r;
    assert DigitRun(u) == 1;
    assert DigitRun(u[2..]) == 1;
    assert u[1..][2..] == u[3..];
    assert DotGroups(u[3..]) == 0;
    assert DotGroups(u[1..]) == 2;
    assert SpaceRun(u[4..]) == 1;
    assert NumberPrefixLen(u) == 5;
    assert u[5..] == r;
    assert NumberPrefixLen(r) == 0;
  }

  lemma FigureCanonicalOfKey(s: string, n: nat, u: string)
    requires Strip(s) == s && NumberPrefixLen(s) == n && n <= |s| && s[n..] == u && AllLowerAlnum(u)
    ensures FigureCanonical(s) == u
  {
    LowerFixesLowerAlnum(u);
    KeepLowerAlnumFixes(u);
  }

  /** Unlike the document key, the figure key is not idempotent: the key of
      "1 2x" is "2x", whose own key is "x". */
  lemma FigureCanonicalNotIdempotent(s: string)
    requires |s| == 4 && s[0] == '1' && s[1] == ' ' && s[2] == '2' && s[3] == 'x'
    ensures FigureCanonical(s) == s[2..]
    ensures FigureCanonical(s[2..]) == s[3..] != s[2..]
  {
    var t := s[2..];
    assert Strip(s) == s;
    assert DigitRun(s) == 1;
    assert DotGroups(s[1..]) == 0;
    assert SpaceRun(s[1..]) == 1;
    assert NumberPrefixLen(s) == 2;
    assert AllLowerAlnum(t);
    FigureCanonicalOfKey(s, 2, t);
    assert Strip(t) == t;
    assert DigitRun(t) == 1;
    assert DotGroups(t[1..]) == 0;
    assert SpaceRun(t[1..]) == 0;
    assert t[1..] == s[3..];
    FigureCanonicalOfKey(t, 1, s[3..]);
  }
}
