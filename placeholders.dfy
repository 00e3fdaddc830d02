/** The template filling both renderers share: a list of placeholder keys
    of the form `__NAME__`, each replaced in turn, in list order, by its
    value, every occurrence at once (`str.replace`). */
module Placeholders {
  import opened Strings

  /** Two underscores side by side at `i`. */
  predicate DoubleAt(t: string, i: int)
    requires 0 <= i < |t| - 1
  {
    t[i] == '_' && t[i + 1] == '_'
  }

  /** `t` has no two underscores side by side. */
  predicate NoDouble(t: string) {
    forall i :: 0 <= i < |t| - 1 ==> !DoubleAt(t, i)
  }

  /** A placeholder key: `__`, a name with no double underscore that neither
      starts nor ends with one, `__`. */
  predicate IsKey(k: string) {
    |k| >= 5 && DoubleAt(k, 0) && DoubleAt(k, |k| - 2) &&
    forall i :: 1 <= i < |k| - 3 ==> !DoubleAt(k, i)
  }

  predicate AllKeys(ctx: seq<(string, string)>) {
    forall i :: 0 <= i < |ctx| ==> IsKey(ctx[i].0)
  }

  /** `for k, v in ctx.items(): text = text.replace(k, v)`. */
  function Substitute(t: string, ctx: seq<(string, string)>): string
    requires AllKeys(ctx)
    decreases |ctx|
  {
    if ctx == [] then t else Substitute(ReplaceAll(t, ctx[0].0, ctx[0].1), ctx[1..])
  }

  // ---------------------------------------------------------------------------

  /** A key never occurs in a text without a double underscore. */
  lemma KeyNotIn(t: string, k: string)
    requires NoDouble(t) && IsKey(k)
    ensures !Contains(t, k)
  {
    forall i | 0 <= i <= |t|
      ensures !OccursAt(t, k, i)
    {
      if i + |k| <= |t| {
        assert !DoubleAt(t, i);
        assert t[i..i + |k|][0] == t[i] && t[i..i + |k|][1] == t[i + 1];
      }
    }
  }

  /** One key occurs in another only as its prefix. */
  lemma KeyInKey(h: string, k: string)
    requires IsKey(h) && IsKey(k) && !StartsWith(h, k)
    ensures !Contains(h, k)
  {
    forall i | 0 <= i <= |h|
      ensures !OccursAt(h, k, i)
    {
      if 0 < i && i + |k| <= |h| {
        assert i < |h| - 3;
        assert !DoubleAt(h, i);
        assert h[i..i + |k|][0] == h[i] && h[i..i + |k|][1] == h[i + 1];
      }
    }
  }

  lemma ReplaceWhole(k: string, v: string)
    requires k != []
    ensures ReplaceAll(k, k, v) == v
  {
    assert k[|k|..] == [];
  }

  /** A text holding none of the keys comes through unchanged. */
  lemma {:induction false} SubstituteAbsent(t: string, ctx: seq<(string, string)>)
    requires AllKeys(ctx)
    requires forall i :: 0 <= i < |ctx| ==> !Contains(t, ctx[i].0)
    ensures Substitute(t, ctx) == t
    decreases |ctx|
  {
    if ctx != [] {
      ReplaceAbsent(t, ctx[0].0, ctx[0].1);
      SubstituteAbsent(t, ctx[1..]);
    }
  }

  /** A text without a double underscore comes through unchanged. */
  lemma SubstituteNoDouble(t: string, ctx: seq<(string, string)>)
    requires AllKeys(ctx) && NoDouble(t)
    ensures Substitute(t, ctx) == t
  {
    forall i | 0 <= i < |ctx|
      ensures !Contains(t, ctx[i].0)
    {
      KeyNotIn(t, ctx[i].0);
    }
    SubstituteAbsent(t, ctx);
  }

  /** A key on its own becomes its value, when no earlier key occurs in it
      and the value holds no double underscore for a later key to match. */
  lemma {:induction false} SubstituteKey(ctx: seq<(string, string)>, i: nat)
    requires AllKeys(ctx) && i < |ctx|
    requires forall j :: 0 <= j < i ==> !Contains(ctx[i].0, ctx[j].0)
    requires NoDouble(ctx[i].1)
    ensures Substitute(ctx[i].0, ctx) == ctx[i].1
    decreases i
  {
    if i == 0 {
      ReplaceWhole(ctx[0].0, ctx[0].1);
      SubstituteNoDouble(ctx[0].1, ctx[1..]);
    } else {
      ReplaceAbsent(ctx[i].0, ctx[0].0, ctx[0].1);
      SubstituteKey(ctx[1..], i - 1);
    }
  }

  /** Joining two texts without a double underscore, where no underscore
      meets another at the seam. */
  lemma NoDoubleConcat(a: string, b: string)
    requires NoDouble(a) && NoDouble(b)
    requires a == [] || b == [] || a[|a| - 1] != '_' || b[0] != '_'
    ensures NoDouble(a + b)
  {
    var t := a + b;
    forall i | 0 <= i < |t| - 1
      ensures !DoubleAt(t, i)
    {
      if i < |a| - 1 {
        assert t[i] == a[i] && t[i + 1] == a[i + 1];
        assert !DoubleAt(a, i);
      } else if i >= |a| {
        assert t[i] == b[i - |a|] && t[i + 1] == b[i - |a| + 1];
        assert !DoubleAt(b, i - |a|);
      }
    }
  }

  // ---------------------------------------------------------------------------
  // the keys the two renderers use

  /** The key for a placeholder name. */
  function Key(name: string): string {
    "__" + name + "__"
  }

  /** A name of upper-case letters and single underscores inside makes a key. */
  lemma KeyOf(name: string)
    requires name != [] && name[0] != '_' && name[|name| - 1] != '_' && NoDouble(name)
    ensures IsKey(Key(name))
  {
    var k := Key(name);
    forall i | 1 <= i < |k| - 3
      ensures !DoubleAt(k, i)
    {
      if i == 1 {
        assert k[i + 1] == name[0];
      } else if i == |k| - 4 {
        assert k[i + 1] == name[|name| - 1];
      } else {
        assert k[i] == name[i - 2] && k[i + 1] == name[i - 1];
        assert !DoubleAt(name, i - 2);
      }
    }
  }

  const AppTargetKey: string := Key("APP_TARGET")
  const AppTargetLatexKey: string := Key("APP_TARGET_LATEX")
  const ManualDateKey: string := Key("MANUAL_DATE")
  const TestUrlKey: string := Key("TEST_URL")
  const HostKey: string := Key("HOST")
  const HostLatexKey: string := Key("HOST_LATEX")
  const SearchQueryKey: string := Key("SEARCH_QUERY")
  const TexBodyKey: string := Key("TEX_BODY")
  const MdBodyKey: string := Key("MD_BODY")

  /** No key occurs in a key listed after it, so each key is still whole
      when its own turn comes. */
  predicate Unshadowed(ctx: seq<(string, string)>) {
    forall i, j :: 0 <= j < i < |ctx| ==> !Contains(ctx[i].0, ctx[j].0)
  }

  /** A template that is just one key becomes that key's value, provided the
      value holds no double underscore for a later key to match. */
  lemma SubstituteEachKey(ctx: seq<(string, string)>, i: nat)
    requires AllKeys(ctx) && Unshadowed(ctx) && i < |ctx| && NoDouble(ctx[i].1)
    ensures Substitute(ctx[i].0, ctx) == ctx[i].1
  {
    SubstituteKey(ctx, i);
  }

  /** The key for `b` does not occur in the key for `a` when the names differ
      at `i`, when `a` is the shorter, or when `a` is at least two longer (the
      closing `__` of `b`'s key would fall inside `a`'s). */
  lemma KeyNotInKey(a: string, b: string, i: nat)
    requires IsKey(Key(a)) && IsKey(Key(b))
    requires (i < |a| && i < |b| && a[i] != b[i]) || |a| < |b| || |b| + 2 <= |a|
    ensures !Contains(Key(a), Key(b))
  {
    var ka, kb := Key(a), Key(b);
    if |b| + 2 <= |a| {
      assert !DoubleAt(ka, |b| + 2);
      assert ka[..|kb|][|b| + 2] == ka[|b| + 2] && ka[..|kb|][|b| + 3] == ka[|b| + 3];
    } else if |a| >= |b| {
      assert ka[i + 2] == a[i] && kb[i + 2] == b[i];
      assert ka[..|kb|][i + 2] == ka[i + 2];
    }
    KeyInKey(ka, kb);
  }

  /** The keys `render_from_spec.py` fills. */
  lemma SpecKeys()
    ensures IsKey(AppTargetKey) && IsKey(ManualDateKey) && IsKey(TestUrlKey)
    ensures IsKey(HostKey) && IsKey(TexBodyKey) && IsKey(MdBodyKey)
  {
    KeyOf("APP_TARGET");
    KeyOf("MANUAL_DATE");
    KeyOf("TEST_URL");
    KeyOf("HOST");
    KeyOf("TEX_BODY");
    KeyOf("MD_BODY");
  }

  /** The keys `render_manual_templates.py` fills. */
  lemma TemplateKeys()
    ensures IsKey(ManualDateKey) && IsKey(AppTargetKey) && IsKey(AppTargetLatexKey) && IsKey(TestUrlKey)
    ensures IsKey(HostKey) && IsKey(HostLatexKey) && IsKey(SearchQueryKey)
  {
    KeyOf("MANUAL_DATE");
    KeyOf("APP_TARGET");
    KeyOf("APP_TARGET_LATEX");
    KeyOf("TEST_URL");
    KeyOf("HOST");
    KeyOf("HOST_LATEX");
    KeyOf("SEARCH_QUERY");
  }
}
