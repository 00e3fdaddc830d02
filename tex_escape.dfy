/** `tex_escape` of the renderer and `latex_escape` of the template filler:
    the same ten-entry table of LaTeX special characters, applied as one
    `str.replace` per entry in the table's order. */
module TexEscape {
  import opened Strings

  /** A LaTeX text command without arguments: `\name{}`. */
  function Command(name: string): string {
    "\\" + name + "{}"
  }

  const BackslashName: string := "textbackslash"
  const TildeName: string := "textasciitilde"
  const CircumName: string := "textasciicircum"

  /** The table, in dict order: the backslash first. */
  const Table: seq<(char, string)> := [
    ('\\', Command(BackslashName)), ('&', "\\&"), ('%', "\\%"), ('$', "\\$"), ('#', "\\#"),
    ('_', "\\_"), ('{', "\\{"), ('}', "\\}"), ('~', Command(TildeName)), ('^', Command(CircumName))]

  /** The loop `for k, v in repl.items(): out = out.replace(k, v)`. */
  function ReplaceEach(s: string, table: seq<(char, string)>): string
    decreases |table|
  {
    if table == [] then s else ReplaceEach(ReplaceAll(s, [table[0].0], table[0].1), table[1..])
  }

  /** The escape as the scripts write it. */
  function EscapeAsWritten(s: string): string {
    ReplaceEach(s, Table)
  }

  /** The characters the table escapes by a backslash in front. */
  predicate Braced(c: char) {
    c == '&' || c == '%' || c == '$' || c == '#' || c == '_' || c == '{' || c == '}'
  }

  /** The table as a function of one character: what the escape evidently
      means each special character to become. */
  function EscapeChar(c: char): (r: string)
    ensures r != []
  {
    if c == '\\' then Command(BackslashName)
    else if c == '~' then Command(TildeName)
    else if c == '^' then Command(CircumName)
    else if Braced(c) then ['\\', c]
    else [c]
  }

  /** Each character of `s` replaced by `f` of it. */
  function FlatMap(s: string, f: char -> string): string
    decreases |s|
  {
    if s == [] then [] else f(s[0]) + FlatMap(s[1..], f)
  }

  /** The escape applied one character at a time: no replacement ever sees
      the output of another. */
  function Escape(s: string): string {
    FlatMap(s, EscapeChar)
  }

  // ---------------------------------------------------------------------------
  // the command names

  predicate IsLetter(c: char) {
    'a' <= c <= 'z'
  }

  predicate Letters(name: string) {
    forall i :: 0 <= i < |name| ==> IsLetter(name[i])
  }

  lemma NamesAreLetters()
    ensures Letters(BackslashName) && Letters(TildeName) && Letters(CircumName)
  {
  }

  /** Which characters a command's text holds. */
  lemma CommandChars(name: string, c: char)
    requires Letters(name)
    ensures c in Command(name) <==> c == '\\' || c == '{' || c == '}' || (c in name)
    ensures c in name ==> IsLetter(c)
  {
    var t := Command(name);
    assert t == ['\\'] + name + ['{', '}'];
    if c in t {
      var i :| 0 <= i < |t| && t[i] == c;
      if 0 < i <= |name| {
        assert name[i - 1] == c;
      }
    }
  }

  lemma CommandLacks(name: string, c: char)
    requires Letters(name) && c != '\\' && c != '{' && c != '}' && !IsLetter(c)
    ensures c !in Command(name)
  {
    CommandChars(name, c);
  }

  // ---------------------------------------------------------------------------
  // the fold as written is a character-by-character map

  lemma {:induction false} ReplaceCharAbsent(s: string, c: char, r: string)
    requires c !in s
    ensures ReplaceAll(s, [c], r) == s
    decreases |s|
  {
    if s != [] {
      ReplaceCharAbsent(s[1..], c, r);
    }
  }

  /** Replacing one character distributes over concatenation. */
  lemma {:induction false} ReplaceCharConcat(a: string, b: string, c: char, r: string)
    ensures ReplaceAll(a + b, [c], r) == ReplaceAll(a, [c], r) + ReplaceAll(b, [c], r)
    decreases |a|
  {
    if a == [] {
      assert a + b == b;
    } else {
      assert (a + b)[1..] == a[1..] + b;
      assert (a + b)[..1] == a[..1];
      ReplaceCharConcat(a[1..], b, c, r);
    }
  }

  /** The whole fold distributes over concatenation. */
  lemma {:induction false} ReplaceEachConcat(a: string, b: string, table: seq<(char, string)>)
    ensures ReplaceEach(a + b, table) == ReplaceEach(a, table) + ReplaceEach(b, table)
    decreases |table|
  {
    if table != [] {
      var c, r := table[0].0, table[0].1;
      ReplaceCharConcat(a, b, c, r);
      ReplaceEachConcat(ReplaceAll(a, [c], r), ReplaceAll(b, [c], r), table[1..]);
    }
  }

  lemma {:induction false} ReplaceEachAbsent(s: string, table: seq<(char, string)>)
    requires forall k :: 0 <= k < |table| ==> table[k].0 !in s
    ensures ReplaceEach(s, table) == s
    decreases |table|
  {
    if table != [] {
      ReplaceCharAbsent(s, table[0].0, table[0].1);
      ReplaceEachAbsent(s, table[1..]);
    }
  }

  lemma {:induction false} ReplaceEachSplit(s: string, t: seq<(char, string)>, u: seq<(char, string)>)
    ensures ReplaceEach(s, t + u) == ReplaceEach(ReplaceEach(s, t), u)
    decreases |t|
  {
    if t == [] {
      assert t + u == u;
    } else {
      assert (t + u)[1..] == t[1..] + u;
      ReplaceEachSplit(ReplaceAll(s, [t[0].0], t[0].1), t[1..], u);
    }
  }

  /** The entry at `k` when no earlier entry touches its character and no
      later entry touches its replacement. */
  lemma {:induction false} ReplaceEachHit(table: seq<(char, string)>, k: nat)
    requires k < |table|
    requires forall j :: 0 <= j < k ==> table[j].0 != table[k].0
    requires forall j :: k < j < |table| ==> table[j].0 !in table[k].1
    ensures ReplaceEach([table[k].0], table) == table[k].1
    decreases k
  {
    var c := table[k].0;
    if k == 0 {
      assert ReplaceAll([c], [c], table[0].1) == table[0].1;
      ReplaceEachAbsent(table[0].1, table[1..]);
    } else {
      ReplaceCharAbsent([c], table[0].0, table[0].1);
      ReplaceEachHit(table[1..], k - 1);
    }
  }

  /** Every entry after the backslash's is replaced once and left alone after. */
  lemma TableHit(k: nat)
    requires 1 <= k < |Table|
    ensures ReplaceEach([Table[k].0], Table) == Table[k].1
    ensures EscapeChar(Table[k].0) == Table[k].1
  {
    NamesAreLetters();
    CommandLacks(TildeName, '^');
    ReplaceEachHit(Table, k);
  }

  /** Two one-character replacements after a text free of both characters. */
  lemma BracesAfter(head: string, o: char, c: char, ro: string, rc: string)
    requires o !in head && c !in head && o != c && c !in ro
    ensures ReplaceEach(head + [o, c], [(o, ro), (c, rc)]) == head + ro + rc
  {
    ReplaceCharConcat(head, [o, c], o, ro);
    ReplaceCharAbsent(head, o, ro);
    assert [o, c] == [o] + [c];
    ReplaceCharConcat([o], [c], o, ro);
    ReplaceCharAbsent([c], o, ro);
    assert ReplaceAll([o], [o], ro) == ro;
    var t1 := head + ro + [c];
    assert ReplaceAll(head + [o, c], [o], ro) == t1;
    ReplaceCharConcat(head + ro, [c], c, rc);
    ReplaceCharAbsent(head + ro, c, rc);
    assert ReplaceAll([c], [c], rc) == rc;
    assert ReplaceAll(t1, [c], rc) == head + ro + rc;
    var both := [(o, ro), (c, rc)];
    assert both[0] == (o, ro) && both[1..] == [(c, rc)];
    assert ReplaceEach(head + [o, c], both) == ReplaceEach(t1, [(c, rc)]);
    assert [(c, rc)][1..] == [];
    assert ReplaceEach(t1, [(c, rc)]) == ReplaceEach(head + ro + rc, []);
  }

  /** What the fold as written makes of a backslash. */
  function BackslashAsWrittenText(): string {
    "\\" + BackslashName + "\\{" + "\\}"
  }

  /** The backslash's replacement goes through the later "{" and "}" entries. */
  lemma BackslashAsWritten()
    ensures ReplaceEach("\\", Table) == BackslashAsWrittenText()
  {
    NamesAreLetters();
    var head := "\\" + BackslashName;
    var t0 := Command(BackslashName);
    assert t0 == head + ['{', '}'];
    assert ReplaceAll("\\", "\\", t0) == t0;
    assert ReplaceEach("\\", Table) == ReplaceEach(t0, Table[1..]);
    assert Table[1..] == Table[1..6] + (Table[6..8] + Table[8..]);
    ReplaceEachSplit(t0, Table[1..6], Table[6..8] + Table[8..]);
    ReplaceEachSplit(t0, Table[6..8], Table[8..]);
    forall k | 0 <= k < 5
      ensures Table[1..6][k].0 !in t0
    {
      CommandLacks(BackslashName, Table[1..6][k].0);
    }
    ReplaceEachAbsent(t0, Table[1..6]);
    assert '{' !in head && '}' !in head by {
      CommandChars(BackslashName, '{');
      CommandChars(BackslashName, '}');
    }
    assert Table[6..8] == [('{', "\\{"), ('}', "\\}")];
    BracesAfter(head, '{', '}', "\\{", "\\}");
    var t2 := BackslashAsWrittenText();
    assert t2 == head + "\\{" + "\\}";
    forall k | 0 <= k < 2
      ensures Table[8..][k].0 !in t2
    {
      var c := Table[8..][k].0;
      CommandLacks(BackslashName, c);
      assert t2 == t0[..|t0| - 2] + "\\{" + "\\}";
    }
    ReplaceEachAbsent(t2, Table[8..]);
  }

  /** What the fold as written does to one character: the table entry, except
      for the backslash. */
  function AsWrittenChar(c: char): string {
    if c == '\\' then BackslashAsWrittenText() else EscapeChar(c)
  }

  lemma AsWrittenCharSpec(c: char)
    ensures ReplaceEach([c], Table) == AsWrittenChar(c)
  {
    if c == '\\' {
      BackslashAsWritten();
    } else if k :| 1 <= k < |Table| && Table[k].0 == c {
      TableHit(k);
    } else {
      assert !Braced(c) && c != '~' && c != '^' by {
        assert Table[1].0 == '&' && Table[2].0 == '%' && Table[3].0 == '$';
        assert Table[4].0 == '#' && Table[5].0 == '_' && Table[6].0 == '{';
        assert Table[7].0 == '}' && Table[8].0 == '~' && Table[9].0 == '^';
      }
      ReplaceEachAbsent([c], Table);
    }
  }

  /** The escape as written replaces each character on its own, by
      `AsWrittenChar`. */
  lemma {:induction false} EscapeAsWrittenIsMap(s: string)
    ensures EscapeAsWritten(s) == FlatMap(s, AsWrittenChar)
    decreases |s|
  {
    if s == [] {
      ReplaceEachAbsent(s, Table);
    } else {
      assert s == [s[0]] + s[1..];
      ReplaceEachConcat([s[0]], s[1..], Table);
      AsWrittenCharSpec(s[0]);
      EscapeAsWrittenIsMap(s[1..]);
    }
  }

  // ---------------------------------------------------------------------------
  // what LaTeX typesets

  /** `\name` at the head of `t`, ended by a non-letter or the end of `t`. */
  predicate CommandAt(t: string, name: string) {
    StartsWith(t, "\\" + name) && (|t| == |name| + 1 || !IsLetter(t[|name| + 1]))
  }

  /** The empty group that may follow a command. */
  function SkipGroup(u: string): (r: string)
    ensures |r| <= |u|
  {
    if StartsWith(u, "{}") then u[2..] else u
  }

  /** The text LaTeX typesets for an escaped string: a backslash before a
      braced character gives that character, the three text commands (with or
      without an empty group after them) give theirs, and any other character
      stands for itself. */
  function Unescape(t: string): string
    decreases |t|
  {
    if t == [] then []
    else if |t| >= 2 && t[0] == '\\' && Braced(t[1]) then [t[1]] + Unescape(t[2..])
    else if CommandAt(t, BackslashName) then "\\" + Unescape(SkipGroup(t[|BackslashName| + 1..]))
    else if CommandAt(t, TildeName) then "~" + Unescape(SkipGroup(t[|TildeName| + 1..]))
    else if CommandAt(t, CircumName) then "^" + Unescape(SkipGroup(t[|CircumName| + 1..]))
    else [t[0]] + Unescape(t[1..])
  }

  /** A command's text followed by anything is read as that command only. */
  lemma CommandText(name: string, rest: string)
    requires Letters(name)
    ensures var t := Command(name) + rest;
      CommandAt(t, name) && SkipGroup(t[|name| + 1..]) == rest &&
      t[0] == '\\' && (|name| > 0 ==> IsLetter(t[1]))
  {
    var t := Command(name) + rest;
    assert t == ("\\" + name) + ("{}" + rest);
    assert t[..|name| + 1] == "\\" + name;
    assert t[|name| + 1..] == "{}" + rest;
    assert ("{}" + rest)[..2] == "{}";
    assert ("{}" + rest)[2..] == rest;
    if |name| > 0 {
      assert t[1] == name[0];
    }
  }

  /** Two names that differ at a position both have. */
  lemma NotOtherCommand(t: string, name: string, other: string, i: nat)
    requires StartsWith(t, "\\" + name)
    requires i < |name| && i < |other| && name[i] != other[i]
    ensures !CommandAt(t, other)
  {
    assert t[i + 1] == name[i];
    assert ("\\" + other)[i + 1] == other[i];
  }

  /** A text that does not start with a backslash starts with no command. */
  lemma NoCommandAt(t: string, name: string)
    requires t != [] && t[0] != '\\'
    ensures !CommandAt(t, name)
  {
    assert ("\\" + name)[0] == '\\';
  }

  lemma UnescapeBraced(c: char, rest: string)
    requires Braced(c)
    ensures Unescape(['\\', c] + rest) == [c] + Unescape(rest)
  {
    var t := ['\\', c] + rest;
    assert t[1] == c && t[2..] == rest;
  }

  lemma UnescapePlain(c: char, rest: string)
    requires c != '\\'
    ensures Unescape([c] + rest) == [c] + Unescape(rest)
  {
    var t := [c] + rest;
    assert t[0] == c && t[1..] == rest;
    NoCommandAt(t, BackslashName);
    NoCommandAt(t, TildeName);
    NoCommandAt(t, CircumName);
  }

  lemma UnescapeBackslash(rest: string)
    ensures Unescape(Command(BackslashName) + rest) == "\\" + Unescape(rest)
  {
    NamesAreLetters();
    CommandText(BackslashName, rest);
  }

  lemma UnescapeTilde(rest: string)
    ensures Unescape(Command(TildeName) + rest) == "~" + Unescape(rest)
  {
    NamesAreLetters();
    CommandText(TildeName, rest);
    var t := Command(TildeName) + rest;
    NotOtherCommand(t, TildeName, BackslashName, 4);
  }

  lemma UnescapeCircum(rest: string)
    ensures Unescape(Command(CircumName) + rest) == "^" + Unescape(rest)
  {
    NamesAreLetters();
    CommandText(CircumName, rest);
    var t := Command(CircumName) + rest;
    NotOtherCommand(t, CircumName, BackslashName, 4);
    NotOtherCommand(t, CircumName, TildeName, 9);
  }

  lemma UnescapeChar(c: char, rest: string)
    ensures Unescape(EscapeChar(c) + rest) == [c] + Unescape(rest)
  {
    if c == '\\' {
      UnescapeBackslash(rest);
    } else if c == '~' {
      UnescapeTilde(rest);
    } else if c == '^' {
      UnescapeCircum(rest);
    } else if Braced(c) {
      UnescapeBraced(c, rest);
    } else {
      UnescapePlain(c, rest);
    }
  }

  /** LaTeX typesets the escaped text as the original: `Escape` loses nothing. */
  lemma {:induction false} UnescapeEscape(s: string)
    ensures Unescape(Escape(s)) == s
    decreases |s|
  {
    if s != [] {
      UnescapeChar(s[0], Escape(s[1..]));
      UnescapeEscape(s[1..]);
    }
  }

  /** The fold as written turns a backslash into text that LaTeX typesets as
      a backslash followed by a pair of braces; the one-pass escape gives the
      backslash alone. */
  lemma BackslashAsWrittenMisreads()
    ensures EscapeAsWritten("\\") == "\\" + BackslashName + "\\{\\}"
    ensures Unescape(EscapeAsWritten("\\")) == "\\{}"
    ensures Unescape(Escape("\\")) == "\\"
  {
    BackslashAsWritten();
    NamesAreLetters();
    var tail := "\\{\\}";
    var t := "\\" + BackslashName + tail;
    assert t == ("\\" + BackslashName) + tail;
    assert !(|t| >= 2 && t[0] == '\\' && Braced(t[1])) by { assert t[1] == BackslashName[0]; }
    assert CommandAt(t, BackslashName) by {
      assert t[..|BackslashName| + 1] == "\\" + BackslashName;
      assert t[|BackslashName| + 1] == '\\';
    }
    assert t[|BackslashName| + 1..] == tail;
    assert SkipGroup(tail) == tail;
    assert tail == ['\\', '{'] + ['\\', '}'];
    UnescapeBraced('{', ['\\', '}']);
    assert ['\\', '}'] == ['\\', '}'] + [];
    UnescapeBraced('}', []);
    UnescapeEscape("\\");
  }

  // ---------------------------------------------------------------------------
  // every special character of the output is escaped

  /** The characters the table turns into a backslash and themselves, apart
      from the braces. */
  predicate Guardable(c: char) {
    c == '&' || c == '%' || c == '$' || c == '#' || c == '_'
  }

  /** Every such character of `t` comes right after a backslash. */
  predicate Guarded(t: string) {
    forall i :: 0 <= i < |t| && Guardable(t[i]) ==> i > 0 && t[i - 1] == '\\'
  }

  /** A map whose images are guarded and never start with such a character
      gives a guarded result. */
  lemma {:induction false} FlatMapGuarded(s: string, f: char -> string)
    requires forall x :: Guarded(f(x)) && f(x) != [] && !Guardable(f(x)[0])
    ensures Guarded(FlatMap(s, f))
    ensures FlatMap(s, f) == [] || !Guardable(FlatMap(s, f)[0])
    decreases |s|
  {
    if s != [] {
      FlatMapGuarded(s[1..], f);
      var a, b := f(s[0]), FlatMap(s[1..], f);
      forall i | 0 <= i < |a + b| && Guardable((a + b)[i])
        ensures i > 0 && (a + b)[i - 1] == '\\'
      {
        if i < |a| {
          assert a[i] == (a + b)[i];
        } else {
          assert b[i - |a|] == (a + b)[i];
          assert i - |a| > 0;
          assert b[i - |a| - 1] == (a + b)[i - 1];
        }
      }
    }
  }

  /** A text of backslashes, braces and letters holds nothing to guard. */
  lemma PlainGuarded(t: string)
    requires forall i :: 0 <= i < |t| ==> t[i] == '\\' || t[i] == '{' || t[i] == '}' || IsLetter(t[i])
    ensures Guarded(t)
  {
  }

  lemma CommandGuarded(name: string)
    requires Letters(name)
    ensures Guarded(Command(name))
  {
    var t := Command(name);
    assert t == ['\\'] + name + ['{', '}'];
    forall i | 0 <= i < |t|
      ensures t[i] == '\\' || t[i] == '{' || t[i] == '}' || IsLetter(t[i])
    {
      if 0 < i <= |name| {
        assert t[i] == name[i - 1];
      }
    }
    PlainGuarded(t);
  }

  lemma EscapeCharGuarded(c: char)
    ensures Guarded(EscapeChar(c)) && !Guardable(EscapeChar(c)[0])
  {
    NamesAreLetters();
    if c == '\\' {
      CommandGuarded(BackslashName);
    } else if c == '~' {
      CommandGuarded(TildeName);
    } else if c == '^' {
      CommandGuarded(CircumName);
    }
  }

  lemma AsWrittenCharGuarded(c: char)
    ensures Guarded(AsWrittenChar(c)) && !Guardable(AsWrittenChar(c)[0])
  {
    if c == '\\' {
      NamesAreLetters();
      var t := BackslashAsWrittenText();
      assert t == ['\\'] + BackslashName + ['\\', '{', '\\', '}'];
      forall i | 0 <= i < |t|
        ensures t[i] == '\\' || t[i] == '{' || t[i] == '}' || IsLetter(t[i])
      {
        if 0 < i <= |BackslashName| {
          assert t[i] == BackslashName[i - 1];
        }
      }
      PlainGuarded(t);
    } else {
      EscapeCharGuarded(c);
    }
  }

  /** In the output of either escape, every "&", "%", "$", "#" and "_" is
      preceded by a backslash. */
  lemma EscapeGuards(s: string)
    ensures Guarded(Escape(s))
    ensures Escape(s) == [] || !Guardable(Escape(s)[0])
    ensures Guarded(EscapeAsWritten(s))
    ensures EscapeAsWritten(s) == [] || !Guardable(EscapeAsWritten(s)[0])
  {
    forall x
      ensures Guarded(EscapeChar(x)) && EscapeChar(x) != [] && !Guardable(EscapeChar(x)[0])
    {
      EscapeCharGuarded(x);
    }
    FlatMapGuarded(s, EscapeChar);
    forall x
      ensures Guarded(AsWrittenChar(x)) && AsWrittenChar(x) != [] && !Guardable(AsWrittenChar(x)[0])
    {
      AsWrittenCharGuarded(x);
    }
    FlatMapGuarded(s, AsWrittenChar);
    EscapeAsWrittenIsMap(s);
  }

  /** Away from the backslash the two escapes agree. */
  lemma EscapesAgree(s: string)
    requires '\\' !in s
    ensures EscapeAsWritten(s) == Escape(s)
  {
    EscapeAsWrittenIsMap(s);
    AgreeOn(s);
  }

  lemma {:induction false} AgreeOn(s: string)
    requires '\\' !in s
    ensures FlatMap(s, AsWrittenChar) == FlatMap(s, EscapeChar)
    decreases |s|
  {
    if s != [] {
      assert s[0] != '\\';
      AgreeOn(s[1..]);
    }
  }
}
