/** Python string operations the pipeline relies on, over `seq<char>`. */
module Strings {

  /** The whitespace that `str.strip()` and the regex class `\s` remove (ASCII only). */
  predicate IsSpace(c: char) {
    c == ' ' || c == '\t' || c == '\n' || c == '\r' || c == '\U{B}' || c == '\U{C}'
  }

  predicate IsDigit(c: char) { '0' <= c <= '9' }
  predicate IsLowerAlnum(c: char) { 'a' <= c <= 'z' || IsDigit(c) }
  predicate IsAsciiLetter(c: char) { 'a' <= c <= 'z' || 'A' <= c <= 'Z' }

  predicate AllLowerAlnum(s: string) { forall i :: 0 <= i < |s| ==> IsLowerAlnum(s[i]) }

  predicate StartsWith(s: string, p: string) { |p| <= |s| && s[..|p|] == p }
  predicate EndsWith(s: string, p: string) { |p| <= |s| && s[|s| - |p|..] == p }

  /** `needle in hay` for strings. */
  predicate Contains(hay: string, needle: string) {
    exists i :: 0 <= i <= |hay| && OccursAt(hay, needle, i)
  }

  /** `needle` occurs in `hay` starting at position `i`. */
  predicate OccursAt(hay: string, needle: string, i: nat) {
    i + |needle| <= |hay| && hay[i..i + |needle|] == needle
  }

  // ---------------------------------------------------------------------------
  // strip

  function LStrip(s: string): (r: string)
    ensures |r| <= |s| && r == s[|s| - |r|..]
    ensures r == [] || !IsSpace(r[0])
    ensures s != [] && IsSpace(s[0]) ==> |r| < |s|
  {
    if s != [] && IsSpace(s[0]) then LStrip(s[1..]) else s
  }

  function RStrip(s: string): (r: string)
    ensures |r| <= |s| && r == s[..|r|]
    ensures r == [] || !IsSpace(r[|r| - 1])
  {
    if s != [] && IsSpace(s[|s| - 1]) then RStrip(s[..|s| - 1]) else s
  }

  /** Every character of `w` is whitespace. */
  predicate AllSpaces(w: string) {
    w == [] || (IsSpace(w[0]) && AllSpaces(w[1..]))
  }

  lemma {:induction false} AllSpacesOf(w: string)
    requires forall i :: 0 <= i < |w| ==> IsSpace(w[i])
    ensures AllSpaces(w)
  {
    if w != [] {
      assert forall i :: 0 < i < |w| ==> w[1..][i - 1] == w[i];
      AllSpacesOf(w[1..]);
    }
  }

  /** `r` is the slice `s[a..a + |r|]`, and everything of `s` around it is whitespace. */
  predicate TrimmedAt(s: string, r: string, a: nat) {
    a + |r| <= |s| && s[a..a + |r|] == r && AllSpaces(s[..a]) && AllSpaces(s[a + |r|..])
  }

  /** `str.strip()`: the slice left after removing the whitespace at both ends.
      Its full characterisation is the lemma `StripIsTrim`; stated here it
      would be in scope of every proof that handles text. */
  function Strip(s: string): (r: string)
    ensures r == [] || (!IsSpace(r[0]) && !IsSpace(r[|r| - 1]))
    ensures |r| <= |s|
  {
    RStrip(LStrip(s))
  }

  /** The text around an empty slice is the whole text. */
  lemma AllSpacesAround(s: string, a: nat)
    requires a <= |s| && AllSpaces(s[..a]) && AllSpaces(s[a..])
    ensures AllSpaces(s)
  {
    AllSpacesAppend(s[..a], s[a..]);
    assert s[..a] + s[a..] == s;
  }

  lemma {:induction false} AllSpacesAppend(u: string, v: string)
    requires AllSpaces(u) && AllSpaces(v)
    ensures AllSpaces(u + v)
  {
    if u != [] {
      AllSpacesAppend(u[1..], v);
      assert (u + v)[0] == u[0] && (u + v)[1..] == u[1..] + v;
    } else {
      assert u + v == v;
    }
  }

  /** A text with a character that is not whitespace is not all whitespace. */
  lemma {:induction false} NotAllSpaces(s: string, i: nat)
    requires i < |s| && !IsSpace(s[i])
    ensures !AllSpaces(s)
  {
    if i > 0 {
      NotAllSpaces(s[1..], i - 1);
    }
  }

  /** `str.strip()` in full: the result is a slice of the input, everything
      before and after it is whitespace, and it neither starts nor ends with
      whitespace. */
  lemma StripIsTrim(s: string)
    ensures exists a: nat :: TrimmedAt(s, Strip(s), a)
    ensures Strip(s) == [] || (!IsSpace(Strip(s)[0]) && !IsSpace(Strip(s)[|Strip(s)| - 1]))
    ensures Strip(s) == [] <==> AllSpaces(s)
  {
    StripTrimmed(s);
    var a := |s| - |LStrip(s)|;
    TrimmedEmpty(s, Strip(s), a);
  }

  /** A trimmed slice is empty exactly when the whole text is whitespace. */
  lemma TrimmedEmpty(s: string, r: string, a: nat)
    requires TrimmedAt(s, r, a) && (r == [] || !IsSpace(r[0]))
    ensures r == [] <==> AllSpaces(s)
  {
    if r == [] {
      AllSpacesAround(s, a);
    } else {
      assert s[a] == r[0];
      NotAllSpaces(s, a);
    }
  }

  /** `LStrip` removes only whitespace. */
  lemma {:induction false} LStripDropsSpaces(s: string)
    ensures forall i :: 0 <= i < |s| - |LStrip(s)| ==> IsSpace(s[i])
  {
    if s != [] && IsSpace(s[0]) {
      var t := s[1..];
      LStripDropsSpaces(t);
      assert LStrip(s) == LStrip(t);
      forall i | 0 < i < |s| - |LStrip(s)|
        ensures IsSpace(s[i])
      {
        assert s[i] == t[i - 1];
      }
    }
  }

  /** `RStrip` removes only whitespace. */
  lemma {:induction false} RStripDropsSpaces(s: string)
    ensures forall i :: |RStrip(s)| <= i < |s| ==> IsSpace(s[i])
  {
    if s != [] && IsSpace(s[|s| - 1]) {
      RStripDropsSpaces(s[..|s| - 1]);
    }
  }

  lemma StripTrimmed(s: string)
    ensures TrimmedAt(s, RStrip(LStrip(s)), |s| - |LStrip(s)|)
  {
    LStripDropsSpaces(s);
    RStripDropsSpaces(LStrip(s));
    TrimmedOfBoth(s, LStrip(s), RStrip(LStrip(s)));
  }

  /** A whitespace prefix dropped from `s` leaving `l`, then a whitespace suffix
      dropped from `l` leaving `r`. */
  lemma TrimmedOfBoth(s: string, l: string, r: string)
    requires |l| <= |s| && l == s[|s| - |l|..] && forall i :: 0 <= i < |s| - |l| ==> IsSpace(s[i])
    requires |r| <= |l| && r == l[..|r|] && forall i :: |r| <= i < |l| ==> IsSpace(l[i])
    ensures TrimmedAt(s, r, |s| - |l|)
  {
    var a := |s| - |l|;
    assert s[a..a + |r|] == r by {
      assert s[a..a + |r|] == l[..|r|];
    }
    AllSpacesOf(s[..a]);
    var tail := s[a + |r|..];
    forall i | 0 <= i < |tail|
      ensures IsSpace(tail[i])
    {
      assert tail[i] == l[|r| + i];
    }
    AllSpacesOf(tail);
  }


  lemma RStripKeepsHead(s: string)
    requires s == [] || !IsSpace(s[0])
    ensures RStrip(s) == [] || !IsSpace(RStrip(s)[0])
  {
    if s != [] && IsSpace(s[|s| - 1]) {
      RStripKeepsHead(s[..|s| - 1]);
    }
  }

  /** Trailing whitespace of a suffix that has a non-space head is all `RStrip` removes. */
  lemma {:induction false} RStripAppend(a: string, t: string)
    requires t != [] && !IsSpace(t[0])
    ensures RStrip(a + t) == a + RStrip(t)
    decreases |t|
  {
    if IsSpace(t[|t| - 1]) {
      assert |t| > 1;
      assert (a + t)[..|a + t| - 1] == a + t[..|t| - 1];
      RStripAppend(a, t[..|t| - 1]);
    }
  }

  /** A string with no whitespace at either end is its own strip. */
  lemma StripOfTrimmed(s: string)
    requires s == [] || (!IsSpace(s[0]) && !IsSpace(s[|s| - 1]))
    ensures Strip(s) == s
  {
  }

  lemma {:induction false} StripIdempotent(s: string)
    ensures Strip(Strip(s)) == Strip(s)
  {
    RStripKeepsHead(LStrip(s));
    StripOfTrimmed(Strip(s));
  }

  // ---------------------------------------------------------------------------
  // lower-casing and filtering

  function LowerChar(c: char): char {
    if 'A' <= c <= 'Z' then (c as int + 32) as char else c
  }

  /** `str.lower()` restricted to ASCII letters. */
  function Lower(s: string): (r: string)
    ensures |r| == |s|
    ensures forall i :: 0 <= i < |s| ==> r[i] == LowerChar(s[i])
  {
    if s == [] then [] else [LowerChar(s[0])] + Lower(s[1..])
  }

  /** `re.sub(r"[^a-z0-9]+", "", s)`: keep only lower-case letters and digits. */
  function KeepLowerAlnum(s: string): (r: string)
    ensures AllLowerAlnum(r)
    ensures |r| <= |s|
    ensures s == [] ==> r == []
    ensures |s| == 1 ==> r == (if IsLowerAlnum(s[0]) then s else [])
  {
    if s == [] then []
    else if IsLowerAlnum(s[0]) then [s[0]] + KeepLowerAlnum(s[1..])
    else KeepLowerAlnum(s[1..])
  }

  lemma {:induction false} KeepLowerAlnumFixes(s: string)
    requires AllLowerAlnum(s)
    ensures KeepLowerAlnum(s) == s
  {
    if s != [] {
      KeepLowerAlnumFixes(s[1..]);
    }
  }

  /** A string that starts with a letter or digit keeps it as the head of its key. */
  lemma KeepLowerAlnumHead(s: string)
    requires s != [] && IsLowerAlnum(s[0])
    ensures KeepLowerAlnum(s) != [] && KeepLowerAlnum(s)[0] == s[0]
  {
  }

  lemma {:induction false} KeepLowerAlnumAppend(a: string, b: string)
    ensures KeepLowerAlnum(a + b) == KeepLowerAlnum(a) + KeepLowerAlnum(b)
  {
    if a != [] {
      assert (a + b)[0] == a[0] && (a + b)[1..] == a[1..] + b;
      KeepLowerAlnumAppend(a[1..], b);
      if IsLowerAlnum(a[0]) {
        calc {
          KeepLowerAlnum(a + b);
          [a[0]] + KeepLowerAlnum(a[1..] + b);
          [a[0]] + (KeepLowerAlnum(a[1..]) + KeepLowerAlnum(b));
        }
      }
    } else {
      assert a + b == b;
    }
  }

  lemma {:induction false} LowerFixesLowerAlnum(s: string)
    requires AllLowerAlnum(s)
    ensures Lower(s) == s
  {
  }

  // ---------------------------------------------------------------------------
  // str.replace

  /** `s.replace(pat, repl)`: every non-overlapping occurrence, scanning left to right. */
  function ReplaceAll(s: string, pat: string, repl: string): (r: string)
    requires pat != []
    decreases |s|
  {
    if |s| < |pat| then s
    else if s[..|pat|] == pat then repl + ReplaceAll(s[|pat|..], pat, repl)
    else [s[0]] + ReplaceAll(s[1..], pat, repl)
  }

  /** Replacing a pattern that does not occur changes nothing. */
  lemma {:induction false} ReplaceAbsent(s: string, pat: string, repl: string)
    requires pat != [] && !Contains(s, pat)
    ensures ReplaceAll(s, pat, repl) == s
  {
    if |s| >= |pat| {
      assert !OccursAt(s, pat, 0);
      assert !Contains(s[1..], pat) by {
        if Contains(s[1..], pat) {
          var i :| 0 <= i <= |s[1..]| && OccursAt(s[1..], pat, i);
          assert s[i + 1..i + 1 + |pat|] == pat;
          assert OccursAt(s, pat, i + 1);
        }
      }
      ReplaceAbsent(s[1..], pat, repl);
    }
  }

  /** After the replacement no occurrence of a single-character pattern remains
      outside the replacement texts: every character of the result is either
      from the input and differs from the pattern, or belongs to an inserted `repl`. */
  lemma {:induction false} ReplaceCharGone(s: string, c: char, repl: string)
    requires c !in repl
    ensures c !in ReplaceAll(s, [c], repl)
  {
    if |s| >= 1 {
      ReplaceCharGone(s[1..], c, repl);
    }
  }

  /** A character that is neither the pattern nor in `repl` is not created by the replacement. */
  lemma {:induction false} ReplaceCharNoNew(s: string, c: char, repl: string, d: char)
    requires d != c && d !in repl && d !in s
    ensures d !in ReplaceAll(s, [c], repl)
  {
    if |s| >= 1 {
      ReplaceCharNoNew(s[1..], c, repl, d);
    }
  }

  // ---------------------------------------------------------------------------
  // re.sub(r"\s+", " ", s)

  /** Replace every maximal run of whitespace by one space. */
  function CollapseRuns(s: string): (r: string)
    decreases |s|
  {
    if s == [] then []
    else if IsSpace(s[0]) then " " + CollapseRuns(LStrip(s))
    else [s[0]] + CollapseRuns(s[1..])
  }

  /** Two whitespace characters side by side, at `i` and `i + 1`. */
  predicate SpacePair(s: string, i: int)
    requires 0 <= i < |s| - 1
  {
    IsSpace(s[i]) && IsSpace(s[i + 1])
  }

  /** Only single plain spaces separate the words of `s`. */
  predicate Collapsed(s: string) {
    (forall i :: 0 <= i < |s| && IsSpace(s[i]) ==> s[i] == ' ') &&
    (forall i :: 0 <= i < |s| - 1 ==> !SpacePair(s, i))
  }

  lemma {:induction false} CollapseRunsShape(s: string)
    ensures Collapsed(CollapseRuns(s))
    ensures s == [] <==> CollapseRuns(s) == []
    ensures s != [] && !IsSpace(s[0]) ==> !IsSpace(CollapseRuns(s)[0])
  {
    if s != [] {
      if IsSpace(s[0]) {
        var t := LStrip(s);
        CollapseRunsShape(t);
        CollapsedCons(' ', CollapseRuns(t));
        assert " " + CollapseRuns(t) == [' '] + CollapseRuns(t);
      } else {
        CollapseRunsShape(s[1..]);
        CollapsedCons(s[0], CollapseRuns(s[1..]));
      }
    }
  }

  /** One character in front of a collapsed text keeps it collapsed unless
      it is whitespace other than a plain space or meets another whitespace. */
  lemma CollapsedCons(c: char, t: string)
    requires Collapsed(t)
    requires IsSpace(c) ==> c == ' ' && (t == [] || !IsSpace(t[0]))
    ensures Collapsed([c] + t)
  {
    var r := [c] + t;
    forall i | 0 <= i < |r| && IsSpace(r[i])
      ensures r[i] == ' '
    {
      if i > 0 {
        assert r[i] == t[i - 1];
      }
    }
    forall i | 0 <= i < |r| - 1
      ensures !SpacePair(r, i)
    {
      if i > 0 {
        assert r[i] == t[i - 1] && r[i + 1] == t[i];
        assert !SpacePair(t, i - 1);
      }
    }
  }

  lemma {:induction false} CollapseRunsFixes(s: string)
    requires Collapsed(s)
    ensures CollapseRuns(s) == s
  {
    if s != [] {
      CollapsedTail(s);
      CollapseRunsFixes(s[1..]);
      if IsSpace(s[0]) {
        assert LStrip(s) == s[1..] by {
          assert |s| > 1 ==> !SpacePair(s, 0) && s[1..][0] == s[1];
        }
        assert s == [' '] + s[1..];
      } else {
        assert s == [s[0]] + s[1..];
      }
    }
  }

  /** Dropping the first character of a collapsed text leaves it collapsed. */
  lemma CollapsedTail(s: string)
    requires Collapsed(s) && s != []
    ensures Collapsed(s[1..])
  {
    forall i | 0 <= i < |s[1..]| && IsSpace(s[1..][i]) ensures s[1..][i] == ' ' {
      assert s[1..][i] == s[i + 1];
    }
    forall i | 0 <= i < |s[1..]| - 1 ensures !SpacePair(s[1..], i) {
      assert !SpacePair(s, i + 1);
    }
  }

  lemma {:induction false} LStripCollapsed(s: string)
    requires Collapsed(s)
    ensures Collapsed(LStrip(s))
  {
    if s != [] && IsSpace(s[0]) {
      CollapsedTail(s);
      LStripCollapsed(s[1..]);
    }
  }

  lemma {:induction false} RStripCollapsed(s: string)
    requires Collapsed(s)
    ensures Collapsed(RStrip(s))
  {
    if s != [] && IsSpace(s[|s| - 1]) {
      var t := s[..|s| - 1];
      assert Collapsed(t) by {
        forall i | 0 <= i < |t| && IsSpace(t[i]) ensures t[i] == ' ' {
          assert t[i] == s[i];
        }
        forall i | 0 <= i < |t| - 1 ensures !SpacePair(t, i) {
          assert !SpacePair(s, i);
        }
      }
      RStripCollapsed(t);
    }
  }

  /** `re.sub(r"\s+", " ", text).strip()` (the markdown cleaner). */
  function CleanText(s: string): string {
    Strip(CollapseRuns(s))
  }

  /** The cleaned text has single plain spaces between words and none at
      either end. */
  lemma CleanTextShape(s: string)
    ensures Collapsed(CleanText(s))
    ensures CleanText(s) == [] || (!IsSpace(CleanText(s)[0]) && !IsSpace(CleanText(s)[|CleanText(s)| - 1]))
  {
    CollapseRunsShape(s);
    LStripCollapsed(CollapseRuns(s));
    RStripCollapsed(LStrip(CollapseRuns(s)));
  }

  /** Cleaning twice is cleaning once. */
  lemma {:induction false} CleanTextIdempotent(s: string)
    ensures CleanText(CleanText(s)) == CleanText(s)
  {
    var t := CleanText(s);
    CleanTextShape(s);
    CollapseRunsFixes(t);
    StripOfTrimmed(t);
  }

  // ---------------------------------------------------------------------------
  // decimal numerals: str(n), str.isdigit(), int(s)

  function DigitChar(d: nat): (c: char)
    requires d < 10
    ensures IsDigit(c)
  {
    ('0' as int + d) as char
  }

  /** `str(n)` for a natural number. */
  function NatToString(n: nat): (r: string)
    decreases n
  {
    if n < 10 then [DigitChar(n)] else NatToString(n / 10) + [DigitChar(n % 10)]
  }

  /** `s.isdigit()` (ASCII digits). */
  predicate IsDigits(s: string) {
    s != [] && forall i :: 0 <= i < |s| ==> IsDigit(s[i])
  }

  function DigitValue(c: char): nat
    requires IsDigit(c)
  {
    c as int - '0' as int
  }

  /** `int(s)` for a string of digits. */
  function DigitsValue(s: string): nat
    requires forall i :: 0 <= i < |s| ==> IsDigit(s[i])
  {
    if s == [] then 0 else DigitsValue(s[..|s| - 1]) * 10 + DigitValue(s[|s| - 1])
  }

  /** `int(str(n)) == n`, and `str(n)` passes `isdigit`. */
  lemma {:induction false} NatToStringRoundTrip(n: nat)
    ensures IsDigits(NatToString(n))
    ensures DigitsValue(NatToString(n)) == n
    decreases n
  {
    var s := NatToString(n);
    if n >= 10 {
      NatToStringRoundTrip(n / 10);
      assert s[..|s| - 1] == NatToString(n / 10);
    }
  }

  /** `str(n)` has no leading zero unless n is zero. */
  lemma {:induction false} NatToStringHead(n: nat)
    ensures NatToString(n) != [] && (n > 0 ==> NatToString(n)[0] != '0')
    decreases n
  {
    if n >= 10 {
      NatToStringHead(n / 10);
    }
  }

  /** Different numbers have different decimal forms. */
  lemma NatToStringInjective(a: nat, b: nat)
    requires NatToString(a) == NatToString(b)
    ensures a == b
  {
    NatToStringRoundTrip(a);
    NatToStringRoundTrip(b);
  }

  /** `sep.join(xs)`. */
  function Join(sep: string, xs: seq<string>): string {
    if xs == [] then [] else if |xs| == 1 then xs[0] else xs[0] + sep + Join(sep, xs[1..])
  }

  /** A piece in front of a non-empty list is joined with one separator. */
  lemma JoinCons(sep: string, x: string, xs: seq<string>)
    requires xs != []
    ensures Join(sep, [x] + xs) == x + sep + Join(sep, xs)
  {
    assert ([x] + xs)[1..] == xs;
  }
}
