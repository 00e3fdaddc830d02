/** The control markers a rendered manual carries in place of generated
    content: an optional `[[`, a tag (`MANUAL_BLOCK:` or `MANUAL_FIG:`), an id
    made of `[A-Za-z0-9_.:-]`, an optional `]]`. */
module BlockTokens {
  import opened Wrappers
  import opened Strings

  const BlockTag: string := "MANUAL_BLOCK:"
  const FigTag: string := "MANUAL_FIG:"

  predicate IsIdChar(c: char) {
    IsAsciiLetter(c) || IsDigit(c) || c == '_' || c == '.' || c == ':' || c == '-'
  }

  predicate IdChars(s: string) {
    forall i :: 0 <= i < |s| ==> IsIdChar(s[i])
  }

  /** A tag that cannot be confused with the brackets around a token. */
  predicate ValidTag(tag: string) {
    tag != [] && tag[0] != '['
  }

  lemma TagsValid()
    ensures ValidTag(BlockTag) && ValidTag(FigTag)
  {
  }

  // ---------------------------------------------------------------------------
  // fullmatch

  function DropOpen(t: string): string {
    if StartsWith(t, "[[") then t[2..] else t
  }

  function DropClose(t: string): string {
    if EndsWith(t, "]]") then t[..|t| - 2] else t
  }

  /** `re.fullmatch` of the token pattern: the id when the whole of `t` is one
      token. The brackets are optional and cannot be part of an id, so they
      are simply dropped when present. */
  function TokenId(t: string, tag: string): (r: Option<string>)
    ensures r.Some? ==> r.value != [] && IdChars(r.value)
  {
    var u := DropClose(DropOpen(t));
    if StartsWith(u, tag) && |u| > |tag| && IdChars(u[|tag|..]) then Some(u[|tag|..]) else None
  }

  /** The four shapes the pattern accepts. */
  predicate TokenForm(t: string, tag: string, id: string) {
    id != [] && IdChars(id) &&
    (t == tag + id || t == "[[" + tag + id || t == tag + id + "]]" || t == "[[" + tag + id + "]]")
  }

  lemma NoCloseOnId(tag: string, id: string)
    requires id != [] && IdChars(id)
    ensures !EndsWith(tag + id, "]]")
  {
    var t := tag + id;
    assert t[|t| - 1] == id[|id| - 1];
    assert IsIdChar(id[|id| - 1]);
  }

  lemma DropOpenAbsent(x: string)
    requires x != [] && x[0] != '['
    ensures DropOpen(x) == x
  {
  }

  lemma DropOpenPresent(x: string)
    ensures DropOpen("[[" + x) == x
  {
    assert ("[[" + x)[2..] == x;
  }

  lemma DropClosePresent(x: string)
    ensures DropClose(x + "]]") == x
  {
    assert (x + "]]")[|x + "]]"| - 2..] == "]]";
    assert (x + "]]")[..|x|] == x;
  }

  /** Where the brackets are, for each token shape. */
  lemma DropsOnCore(tag: string, id: string)
    requires ValidTag(tag) && id != [] && IdChars(id)
    ensures DropClose(DropOpen(tag + id)) == tag + id
    ensures DropClose(DropOpen("[[" + tag + id)) == tag + id
    ensures DropClose(DropOpen(tag + id + "]]")) == tag + id
    ensures DropClose(DropOpen("[[" + tag + id + "]]")) == tag + id
  {
    var core := tag + id;
    NoCloseOnId(tag, id);
    assert core[0] == tag[0];
    DropOpenAbsent(core);
    assert (core + "]]")[0] == tag[0];
    DropOpenAbsent(core + "]]");
    DropOpenPresent(core);
    assert "[[" + tag + id == "[[" + core;
    DropOpenPresent(core + "]]");
    assert "[[" + tag + id + "]]" == "[[" + (core + "]]");
    DropClosePresent(core);
  }

  /** Every token shape is read back as its id. */
  lemma TokenIdOfForm(t: string, tag: string, id: string)
    requires ValidTag(tag) && TokenForm(t, tag, id)
    ensures TokenId(t, tag) == Some(id)
  {
    DropsOnCore(tag, id);
    var core := tag + id;
    assert DropClose(DropOpen(t)) == core;
    assert core[..|tag|] == tag && core[|tag|..] == id;
  }

  /** What `TokenId` reads is one of the token shapes. */
  lemma TokenIdForm(t: string, tag: string)
    requires TokenId(t, tag).Some?
    ensures TokenForm(t, tag, TokenId(t, tag).value)
  {
    var id := TokenId(t, tag).value;
    var v := DropOpen(t);
    var u := DropClose(v);
    assert u == tag + id by { assert u == u[..|tag|] + u[|tag|..]; }
    assert t == (if StartsWith(t, "[[") then "[[" else "") + v by {
      if StartsWith(t, "[[") { assert t == t[..2] + t[2..]; }
    }
    assert v == u + (if EndsWith(v, "]]") then "]]" else "") by {
      if EndsWith(v, "]]") { assert v == v[..|v| - 2] + v[|v| - 2..]; }
    }
  }

  /** `TokenId` accepts exactly the token shapes, returning their id. */
  lemma TokenIdExact(t: string, tag: string, id: string)
    requires ValidTag(tag)
    ensures TokenId(t, tag) == Some(id) <==> TokenForm(t, tag, id)
  {
    if TokenForm(t, tag, id) {
      TokenIdOfForm(t, tag, id);
    }
    if TokenId(t, tag) == Some(id) {
      TokenIdForm(t, tag);
    }
  }

  // ---------------------------------------------------------------------------
  // search

  /** A match of the pattern starts at `i` (with or without the brackets). */
  predicate TokenAt(t: string, tag: string, i: nat) {
    i + |tag| < |t| && t[i..i + |tag|] == tag && IsIdChar(t[i + |tag|])
  }

  /** `re.search` of the token pattern succeeds. */
  predicate HasToken(t: string, tag: string) {
    exists i: nat :: i < |t| && TokenAt(t, tag, i)
  }

  /** A whole-text token is in particular found by a search. */
  lemma TokenIdFound(t: string, tag: string)
    requires TokenId(t, tag).Some?
    ensures HasToken(t, tag)
  {
    var v := DropOpen(t);
    var u := DropClose(v);
    var p := if StartsWith(t, "[[") then 2 else 0;
    assert v == t[p..];
    assert u == v[..|u|];
    assert IsIdChar(u[|tag|]) by {
      assert u[|tag|] == u[|tag|..][0];
    }
    assert TokenAt(t, tag, p) by {
      assert t[p..p + |tag|] == u[..|tag|];
      assert t[p + |tag|] == u[|tag|];
    }
  }

  /** Blank text holds no token. */
  lemma NoTokenInBlank(tag: string)
    ensures !HasToken("", tag)
  {
  }

  /** The leftmost position a match starts at. */
  function FirstToken(t: string, tag: string, from: nat): (r: Option<nat>)
    ensures r.Some? ==> from <= r.value && TokenAt(t, tag, r.value)
    ensures r.Some? ==> forall j: nat :: from <= j < r.value ==> !TokenAt(t, tag, j)
    ensures r.None? ==> forall j: nat :: from <= j ==> !TokenAt(t, tag, j)
    decreases |t| - from
  {
    if from >= |t| then None
    else if TokenAt(t, tag, from) then Some(from)
    else FirstToken(t, tag, from + 1)
  }

  /** The longest prefix of `s` made of id characters: what the greedy `+` takes. */
  function IdRun(s: string): (r: string)
    ensures |r| <= |s| && r == s[..|r|] && IdChars(r)
    ensures |r| < |s| ==> !IsIdChar(s[|r|])
  {
    if s != [] && IsIdChar(s[0]) then
      var t := IdRun(s[1..]);
      assert [s[0]] + t == s[..|t| + 1];
      [s[0]] + t
    else []
  }

  /** `re.search(...).group(1)`: the id after the first tag that is followed
      by an id character. */
  function SearchId(t: string, tag: string): (r: Option<string>)
    ensures r.Some? <==> HasToken(t, tag)
    ensures r.Some? ==> r.value != [] && IdChars(r.value)
  {
    var first := FirstToken(t, tag, 0);
    if first.None? then None
    else
      var i := first.value;
      var id := IdRun(t[i + |tag|..]);
      assert id != [] by { assert t[i + |tag|..][0] == t[i + |tag|]; }
      Some(id)
  }

  /** On a whole-text token, a search reads the same id as a full match. */
  lemma SearchIdOfToken(t: string, tag: string, id: string)
    requires ValidTag(tag) && TokenForm(t, tag, id)
    ensures SearchId(t, tag) == Some(id)
  {
    var p := TokenFormStart(t, tag, id);
    IdRunOf(id, t[p + |tag|..]);
    SearchIdAt(t, tag, p);
  }

  /** Once the first token is known to start at `p`, the search reads the id run behind its tag. */
  lemma SearchIdAt(t: string, tag: string, p: nat)
    requires FirstToken(t, tag, 0) == Some(p)
    ensures SearchId(t, tag) == Some(IdRun(t[p + |tag|..]))
  {
  }

  /** A whole-text token is first found after its optional `[[`, and the
      id (with the optional `]]`) follows the tag. */
  lemma TokenFormStart(t: string, tag: string, id: string) returns (p: nat)
    requires ValidTag(tag) && TokenForm(t, tag, id)
    ensures FirstToken(t, tag, 0) == Some(p) && p + |tag| <= |t|
    ensures t[p + |tag|..] == id || t[p + |tag|..] == id + "]]"
  {
    p := if t[0] == '[' then 2 else 0;
    var rest := t[p..];
    assert rest == tag + id || rest == tag + id + "]]" by {
      if t[0] == '[' {
        assert t != tag + id && t != tag + id + "]]" by { assert (tag + id)[0] == tag[0]; }
      } else {
        assert t != "[[" + tag + id && t != "[[" + tag + id + "]]";
      }
    }
    assert TokenAt(t, tag, p) by {
      assert rest[..|tag|] == tag && rest[|tag|] == id[0];
    }
    forall j: nat | j < p
      ensures !TokenAt(t, tag, j)
    {
      assert t[j] == '[';
    }
    assert t[p + |tag|..] == rest[|tag|..];
  }

  lemma {:induction false} IdRunOf(id: string, s: string)
    requires IdChars(id)
    requires s == id || s == id + "]]"
    ensures IdRun(s) == id
    decreases |id|
  {
    if id != [] {
      IdRunOf(id[1..], s[1..]);
    }
  }
}
