/** The LaTeX side of the legacy patcher: `clean_latex_text`, and the
    line-level extraction of table rows and list items from the body of a
    section that the patcher has already located in the `.tex` source. */
module LatexSource {
  import opened Wrappers
  import opened Strings
  import opened Canonical
  import opened Seqs

  predicate Trimmed(s: string) {
    s == [] || (!IsSpace(s[0]) && !IsSpace(s[|s| - 1]))
  }

  /** Text as `clean_latex_text` leaves it: single plain spaces between
      words, none at either end. */
  predicate Clean(s: string) {
    Collapsed(s) && Trimmed(s)
  }

  predicate AllClean(xs: seq<string>) {
    forall i :: 0 <= i < |xs| ==> Clean(xs[i])
  }

  lemma AllCleanCons(x: string, xs: seq<string>)
    requires Clean(x) && AllClean(xs)
    ensures AllClean([x] + xs)
  {
  }

  /** The first `c` in `x + [c] + y` is the one after `x` when `x` has none. */
  lemma IndexOfAt(x: string, c: char, y: string)
    requires c !in x
    ensures IndexOf(x + [c] + y, c) == Some(|x|)
  {
    var s := x + [c] + y;
    assert s[|x|] == c;
    var r := IndexOf(s, c);
    assert forall i :: 0 <= i < |x| ==> s[i] == x[i];
  }

  /** A pattern whose first character does not occur in `s` does not occur in `s`. */
  lemma AbsentHead(s: string, pat: string)
    requires pat != [] && pat[0] !in s
    ensures !Contains(s, pat)
  {
    forall i | 0 <= i <= |s| ensures !OccursAt(s, pat, i) {
      if i + |pat| <= |s| {
        assert s[i..i + |pat|][0] == s[i];
      }
    }
  }

  // ---------------------------------------------------------------------------
  // clean_latex_text

  const Texttt := "\\texttt{"
  const Url := "\\url{"

  /** `re.sub(r"\\cmd\{([^}]*)\}", r"\1", s)` with `cmd` ending in `{`: each
      command whose argument holds no `}` is replaced by that argument;
      without a closing brace the command stays as it is. */
  function Unwrap(s: string, cmd: string): string
    requires cmd != []
    decreases |s|
  {
    if s == [] then []
    else if StartsWith(s, cmd) then
      match IndexOf(s[|cmd|..], '}')
      case Some(j) => s[|cmd|..|cmd| + j] + Unwrap(s[|cmd| + j + 1..], cmd)
      case None => [s[0]] + Unwrap(s[1..], cmd)
    else [s[0]] + Unwrap(s[1..], cmd)
  }

  /** A command with its argument is replaced by the argument. */
  lemma UnwrapOne(cmd: string, x: string, rest: string)
    requires cmd != [] && '}' !in x
    ensures Unwrap(cmd + x + "}" + rest, cmd) == x + Unwrap(rest, cmd)
  {
    var s := cmd + x + "}" + rest;
    assert s[..|cmd|] == cmd;
    assert s[|cmd|..] == x + ['}'] + rest;
    IndexOfAt(x, '}', rest);
    assert s[|cmd|..|cmd| + |x|] == x;
    assert s[|cmd| + |x| + 1..] == rest;
  }

  /** Text without the command's first character is left alone. */
  lemma {:induction false} UnwrapAbsent(s: string, cmd: string)
    requires cmd != [] && cmd[0] !in s
    ensures Unwrap(s, cmd) == s
    decreases |s|
  {
    if s != [] {
      assert s[0] in s;
      assert !StartsWith(s, cmd);
      assert forall c :: c in s[1..] ==> c in s;
      UnwrapAbsent(s[1..], cmd);
    }
  }

  /** Text without a closing brace is left alone: no command can be closed. */
  lemma {:induction false} UnwrapUnclosed(s: string, cmd: string)
    requires cmd != [] && '}' !in s
    ensures Unwrap(s, cmd) == s
    decreases |s|
  {
    if s != [] {
      assert forall c :: c in s[1..] ==> c in s;
      if StartsWith(s, cmd) {
        assert forall c :: c in s[|cmd|..] ==> c in s;
      }
      UnwrapUnclosed(s[1..], cmd);
    }
  }

  /** The seven escapes, undone in the order `clean_latex_text` undoes them. */
  function Unescape(s: string): string {
    var s1 := ReplaceAll(s, "\\&", "&");
    var s2 := ReplaceAll(s1, "\\%", "%");
    var s3 := ReplaceAll(s2, "\\_", "_");
    var s4 := ReplaceAll(s3, "\\$", "$");
    var s5 := ReplaceAll(s4, "\\#", "#");
    var s6 := ReplaceAll(s5, "\\{", "{");
    ReplaceAll(s6, "\\}", "}")
  }

  /** Text without backslashes has nothing to unescape. */
  lemma UnescapePlain(s: string)
    requires '\\' !in s
    ensures Unescape(s) == s
  {
    AbsentHead(s, "\\&");
    ReplaceAbsent(s, "\\&", "&");
    AbsentHead(s, "\\%");
    ReplaceAbsent(s, "\\%", "%");
    AbsentHead(s, "\\_");
    ReplaceAbsent(s, "\\_", "_");
    AbsentHead(s, "\\$");
    ReplaceAbsent(s, "\\$", "$");
    AbsentHead(s, "\\#");
    ReplaceAbsent(s, "\\#", "#");
    AbsentHead(s, "\\{");
    ReplaceAbsent(s, "\\{", "{");
    AbsentHead(s, "\\}");
    ReplaceAbsent(s, "\\}", "}");
  }

  /** `clean_latex_text`: `\texttt{..}` and `\url{..}` unwrapped, escapes
      undone, whitespace runs collapsed to one space, and the ends trimmed. */
  function CleanLatex(s: string): (r: string)
    ensures Clean(r)
  {
    CleanTextShape(Unescape(Unwrap(Unwrap(s, Texttt), Url)));
    CleanText(Unescape(Unwrap(Unwrap(s, Texttt), Url)))
  }

  /** Text that is already clean and free of LaTeX markup comes back unchanged. */
  lemma CleanLatexPlain(s: string)
    requires '\\' !in s && Clean(s)
    ensures CleanLatex(s) == s
  {
    UnwrapAbsent(s, Texttt);
    UnwrapAbsent(s, Url);
    UnescapePlain(s);
    CollapseRunsFixes(s);
    StripOfTrimmed(s);
  }

  /** `\texttt{x}` cleans to what `x` cleans to. */
  lemma CleanLatexTexttt(x: string)
    requires '}' !in x
    ensures CleanLatex(Texttt + x + "}") == CleanLatex(x)
  {
    UnwrapOne(Texttt, x, "");
    assert Texttt + x + "}" + "" == Texttt + x + "}";
    UnwrapUnclosed(x, Texttt);
    assert Unwrap(Texttt + x + "}", Texttt) == Unwrap(x, Texttt);
  }

  // ---------------------------------------------------------------------------
  // table rows: the loop over `m.group(1).splitlines()` in `get_table`

  const RowEnd := "\\\\"

  /** `s.split(c)`: the pieces between the separators, empty ones included. */
  function SplitOn(s: string, c: char): (r: seq<string>)
    ensures |r| >= 1
    ensures forall i :: 0 <= i < |r| ==> c !in r[i]
    decreases |s|
  {
    match IndexOf(s, c)
    case None => [s]
    case Some(j) => [s[..j]] + SplitOn(s[j + 1..], c)
  }

  /** Joining the pieces with the separator gives the text back. */
  lemma {:induction false} SplitOnJoin(s: string, c: char)
    ensures Join([c], SplitOn(s, c)) == s
    decreases |s|
  {
    match IndexOf(s, c)
    case None =>
    case Some(j) =>
      var rest := SplitOn(s[j + 1..], c);
      assert SplitOn(s, c) == [s[..j]] + rest;
      SplitOnJoin(s[j + 1..], c);
      JoinCons([c], s[..j], rest);
      assert s == s[..j] + [c] + s[j + 1..];
  }

  lemma SplitOnAt(x: string, c: char, y: string)
    requires c !in x
    ensures SplitOn(x + [c] + y, c) == [x] + SplitOn(y, c)
  {
    IndexOfAt(x, c, y);
    assert (x + [c] + y)[..|x|] == x;
    assert (x + [c] + y)[|x| + 1..] == y;
  }

  lemma SplitOnNone(s: string, c: char)
    requires c !in s
    ensures SplitOn(s, c) == [s]
  {
  }

  /** One cell: stripped, then cleaned. */
  function CleanCell(c: string): string {
    CleanLatex(Strip(c))
  }

  /** One line of a `longtable` body: a row of its first three cells when
      the stripped line ends in `\\` and splits on `&` into at least three. */
  function TableRow(line: string): (r: Option<seq<string>>)
    ensures r.Some? ==> IsRow(r.value)
  {
    var l := Strip(line);
    if l == [] || !EndsWith(l, RowEnd) then None
    else
      var pieces := SplitOn(Strip(l[..|l| - 2]), '&');
      var cells := MapSeq(pieces, CleanCell);
      if |cells| >= 3 then CleanCells(pieces); CellsClean(cells); Some(cells[..3]) else None
  }

  /** Three cells of clean text: the shape of every row read from a table. */
  predicate IsRow(r: seq<string>) {
    |r| == 3 && AllClean(r)
  }

  lemma CleanCells(pieces: seq<string>)
    ensures AllClean(MapSeq(pieces, CleanCell))
  {
    var cells := MapSeq(pieces, CleanCell);
    forall i | 0 <= i < |cells| ensures Clean(cells[i]) {
      assert cells[i] == CleanLatex(Strip(pieces[i]));
    }
  }

  lemma CellsClean(cells: seq<string>)
    requires |cells| >= 3 && AllClean(cells)
    ensures IsRow(cells[..3])
  {
    assert forall i :: 0 <= i < 3 ==> cells[..3][i] == cells[i];
  }

  /** The rows of the body, line by line in order. */
  function TableRows(lines: seq<string>): (rows: seq<seq<string>>)
    ensures |rows| <= |lines|
  {
    if lines == [] then []
    else
      var r := TableRow(lines[|lines| - 1]);
      TableRows(lines[..|lines| - 1]) + (if r.Some? then [r.value] else [])
  }

  /** Every extracted row has three clean cells. */
  lemma {:induction false} TableRowsShape(lines: seq<string>)
    ensures forall k :: 0 <= k < |TableRows(lines)| ==> IsRow(TableRows(lines)[k])
  {
    if lines != [] {
      TableRowsShape(lines[..|lines| - 1]);
    }
  }

  /** `get_table`'s loop over the body's lines. */
  method ExtractRows(body: string) returns (rows: seq<seq<string>>)
    ensures rows == TableRows(SplitOn(body, '\n'))
  {
    var lines := SplitOn(body, '\n');
    rows := [];
    for i := 0 to |lines|
      invariant rows == TableRows(lines[..i])
    {
      var r := TableRow(lines[i]);
      TableRowsStep(lines, i, r);
      if r.Some? {
        rows := rows + [r.value];
      }
    }
    assert lines[..|lines|] == lines;
  }

  /** One more line read: its row, if any, comes last. */
  lemma TableRowsStep(lines: seq<string>, i: nat, r: Option<seq<string>>)
    requires i < |lines| && r == TableRow(lines[i])
    ensures TableRows(lines[..i + 1]) == TableRows(lines[..i]) + (if r.Some? then [r.value] else [])
  {
    assert lines[..i + 1][..i] == lines[..i];
  }

  lemma StripPadRight(a: string)
    requires a != [] && Trimmed(a)
    ensures Strip(a + " ") == a
  {
    var t := a + " ";
    assert t[0] == a[0];
    assert LStrip(t) == t;
    assert t[..|t| - 1] == a;
    assert RStrip(t) == RStrip(a);
  }

  lemma StripPadLeft(a: string)
    requires a != [] && Trimmed(a)
    ensures Strip(" " + a) == a
  {
    var t := " " + a;
    assert t[1..] == a;
    assert LStrip(t) == LStrip(a);
    StripOfTrimmed(a);
  }

  lemma StripPadBoth(a: string)
    requires a != [] && Trimmed(a)
    ensures Strip(" " + a + " ") == a
  {
    var t := " " + a + " ";
    assert t[1..] == a + " ";
    assert LStrip(t) == LStrip(a + " ");
    StripPadRight(a);
  }

  lemma SplitOnThree(x: string, y: string, z: string, c: char)
    requires c !in x && c !in y && c !in z
    ensures SplitOn(x + [c] + y + [c] + z, c) == [x, y, z]
  {
    assert x + [c] + y + [c] + z == x + [c] + (y + [c] + z);
    SplitOnAt(x, c, y + [c] + z);
    SplitOnAt(y, c, z);
    SplitOnNone(z, c);
  }

  /** `a & b & c` splits on `&` into the three padded cells. */
  lemma RowPieces(a: string, b: string, c: string)
    requires '&' !in a && '&' !in b && '&' !in c
    ensures SplitOn(a + " & " + b + " & " + c, '&') == [a + " ", " " + b + " ", " " + c]
  {
    assert a + " & " + b + " & " + c == (a + " ") + ['&'] + (" " + b + " ") + ['&'] + (" " + c);
    SplitOnThree(a + " ", " " + b + " ", " " + c, '&');
  }

  /** The line `a & b & c \\` is already stripped, ends in `\\`, and what
      precedes that mark strips to `a & b & c`. */
  lemma RowLine(a: string, b: string, c: string)
    requires a != [] && c != [] && Trimmed(a) && Trimmed(c)
    ensures var line := a + " & " + b + " & " + c + " " + RowEnd;
      Strip(line) == line && EndsWith(line, RowEnd) &&
      Strip(line[..|line| - 2]) == a + " & " + b + " & " + c
  {
    var line := a + " & " + b + " & " + c + " " + RowEnd;
    assert line[0] == a[0] && line[|line| - 1] == '\\';
    StripOfTrimmed(line);
    var inner := a + " & " + b + " & " + c;
    assert line[..|line| - 2] == inner + " ";
    assert inner[0] == a[0] && inner[|inner| - 1] == c[|c| - 1];
    StripPadRight(inner);
  }

  lemma TableRowTake(line: string, inner: string, pieces: seq<string>)
    requires Strip(line) == line && line != [] && EndsWith(line, RowEnd)
    requires Strip(line[..|line| - 2]) == inner && SplitOn(inner, '&') == pieces
    requires |pieces| == 3
    ensures TableRow(line) == Some(MapSeq(pieces, CleanCell)[..3])
  {
  }

  /** A stripped row line whose cells are `pieces` reads as their cleaned text. */
  lemma TableRowBy(line: string, inner: string, pieces: seq<string>)
    requires Strip(line) == line && line != [] && EndsWith(line, RowEnd)
    requires Strip(line[..|line| - 2]) == inner && SplitOn(inner, '&') == pieces
    requires |pieces| == 3
    ensures TableRow(line) == Some(MapSeq(pieces, CleanCell))
  {
    TableRowTake(line, inner, pieces);
    TakeAll(MapSeq(pieces, CleanCell), 3);
  }

  /** A cell that strips to clean plain text reads as that text. */
  lemma CleanCellPlain(p: string, a: string)
    requires Strip(p) == a && '\\' !in a && Clean(a)
    ensures CleanCell(p) == a
  {
    CleanLatexPlain(a);
  }

  /** The row a LaTeX table line `a & b & c \\` reads back as. */
  lemma TableRowOfCells(a: string, b: string, c: string)
    requires a != [] && b != [] && c != []
    requires Clean(a) && Clean(b) && Clean(c)
    requires '&' !in a && '&' !in b && '&' !in c
    requires '\\' !in a && '\\' !in b && '\\' !in c
    ensures TableRow(a + " & " + b + " & " + c + " " + RowEnd) == Some([a, b, c])
  {
    RowLineCells(a, b, c);
    PaddedCells(a, b, c);
  }

  /** The line `a & b & c \\` reads as its three padded cells, cleaned. */
  lemma RowLineCells(a: string, b: string, c: string)
    requires a != [] && c != [] && Trimmed(a) && Trimmed(c)
    requires '&' !in a && '&' !in b && '&' !in c
    ensures TableRow(a + " & " + b + " & " + c + " " + RowEnd)
      == Some(MapSeq([a + " ", " " + b + " ", " " + c], CleanCell))
  {
    RowLine(a, b, c);
    RowPieces(a, b, c);
    RowLineBy(a, b, c, a + " & " + b + " & " + c + " " + RowEnd);
  }

  lemma RowLineBy(a: string, b: string, c: string, line: string)
    requires line == a + " & " + b + " & " + c + " " + RowEnd
    requires Strip(line) == line && EndsWith(line, RowEnd)
    requires SplitOn(Strip(line[..|line| - 2]), '&') == [a + " ", " " + b + " ", " " + c]
    ensures TableRow(line) == Some(MapSeq([a + " ", " " + b + " ", " " + c], CleanCell))
  {
    TableRowBy(line, Strip(line[..|line| - 2]), [a + " ", " " + b + " ", " " + c]);
  }

  /** The padded cells clean back to their text. */
  lemma PaddedCells(a: string, b: string, c: string)
    requires a != [] && b != [] && c != []
    requires Clean(a) && Clean(b) && Clean(c)
    requires '\\' !in a && '\\' !in b && '\\' !in c
    ensures MapSeq([a + " ", " " + b + " ", " " + c], CleanCell) == [a, b, c]
  {
    StripPadRight(a);
    StripPadBoth(b);
    StripPadLeft(c);
    CleanCellPlain(a + " ", a);
    CleanCellPlain(" " + b + " ", b);
    CleanCellPlain(" " + c, c);
    MapSeqThree(a + " ", " " + b + " ", " " + c, CleanCell);
  }

  // ---------------------------------------------------------------------------
  // list items: `re.findall(r"\\item\s+(.*)", body)`, each stripped and cleaned

  const ItemCmd := "\\item"

  /** Length of the line at the head of `s`: what `.*` matches. */
  function LineLen(s: string): (k: nat)
    ensures k <= |s| && '\n' !in s[..k] && (k < |s| ==> s[k] == '\n')
  {
    match IndexOf(s, '\n')
    case None => (assert s[..|s|] == s; |s|)
    case Some(j) => j
  }

  /** When `s` opens with `\item` and whitespace: the rest of the line
      after that whitespace, and the text after the line. */
  function ItemAt(s: string): (r: Option<(string, string)>)
    ensures r.Some? ==> |r.value.1| < |s|
  {
    if StartsWith(s, ItemCmd) && |s| > |ItemCmd| && IsSpace(s[|ItemCmd|]) then
      var rest := LStrip(s[|ItemCmd|..]);
      var k := LineLen(rest);
      Some((rest[..k], rest[k..]))
    else None
  }

  lemma ItemAtOther(s: string)
    requires s != [] && s[0] != '\\'
    ensures ItemAt(s) == None
  {
    if |s| >= |ItemCmd| {
      assert s[..|ItemCmd|][0] == s[0];
    }
  }

  /** The items of an `itemize` or `enumerate` body: after each `\item` and
      its run of whitespace (which may span lines), the rest of that line;
      scanning resumes at the end of the line. */
  function Items(s: string): (r: seq<string>)
    decreases |s|
  {
    if s == [] then []
    else
      var p := ItemAt(s);
      if p.Some? then [CleanCell(p.value.0)] + Items(p.value.1) else Items(s[1..])
  }

  /** Every item read is clean text. */
  lemma {:induction false} ItemsClean(s: string)
    ensures AllClean(Items(s))
    decreases |s|
  {
    if s != [] {
      var p := ItemAt(s);
      if p.Some? {
        ItemsClean(p.value.1);
        AllCleanCons(CleanCell(p.value.0), Items(p.value.1));
      } else {
        ItemsClean(s[1..]);
      }
    }
  }

  /** The body a list of one-line items is written as. */
  function ItemLines(xs: seq<string>): string {
    if xs == [] then [] else ItemCmd + " " + xs[0] + "\n" + ItemLines(xs[1..])
  }

  /** `\item x` followed by a line break opens with the item `x`. */
  lemma ItemAtLine(s: string, x: string, tail: string)
    requires s == ItemCmd + " " + x + "\n" + tail
    requires x != [] && !IsSpace(x[0]) && '\n' !in x
    ensures ItemAt(s) == Some((x, "\n" + tail))
  {
    assert s[..|ItemCmd|] == ItemCmd;
    assert s[|ItemCmd|] == ' ';
    assert s[|ItemCmd|..][1..] == x + "\n" + tail;
    var rest := x + ['\n'] + tail;
    assert LStrip(s[|ItemCmd|..]) == rest;
    IndexOfAt(x, '\n', tail);
    assert rest[..|x|] == x;
    assert rest[|x|..] == "\n" + tail;
  }

  /** A line break before the next item is skipped. */
  lemma ItemsSkipBreak(s: string, tail: string)
    requires s == "\n" + tail
    ensures Items(s) == Items(tail)
  {
    ItemAtOther(s);
    assert s[1..] == tail;
  }

  /** One-line items that start with a non-space read back cleaned, in order. */
  lemma {:induction false} ItemsOfLines(xs: seq<string>)
    requires forall i :: 0 <= i < |xs| ==> xs[i] != [] && !IsSpace(xs[i][0]) && '\n' !in xs[i]
    ensures Items(ItemLines(xs)) == MapSeq(xs, CleanCell)
  {
    if xs != [] {
      var tail := ItemLines(xs[1..]);
      ItemAtLine(ItemLines(xs), xs[0], tail);
      ItemsSkipBreak("\n" + tail, tail);
      ItemsOfLines(xs[1..]);
      MapSeqCons(xs, CleanCell);
    }
  }
}
