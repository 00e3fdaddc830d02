/** `render_manual_templates.py`: fill a LaTeX and a Markdown template from
    the target URL alone. `urlparse`'s network location and today's date are
    parameters. */
module RenderTemplates {
  import opened Strings
  import opened TexEscape
  import opened Placeholders

  const Scheme: string := "://"
  const Https: string := "https://"
  const NoHost: string := "target app"
  const Www: string := "www."
  const DesktopSuffix: string := " Web App (Desktop)"

  /** `with_scheme`: strip the URL and put `https://` in front when it has no
      scheme separator. */
  function WithScheme(url: string): string {
    var u := Strip(url);
    if Contains(u, Scheme) then u else Https + u
  }

  /** The host the text talks about: the network location, "target app"
      when there is none, with every "www." taken out. */
  function HostText(netloc: string): string {
    ReplaceAll(if netloc == [] then NoHost else netloc, Www, "")
  }

  function AppTarget(hostText: string): string {
    hostText + DesktopSuffix
  }

  /** The placeholder values, in the order the script lists them. */
  function Context(url: string, netloc: string, today: string, query: string): (ctx: seq<(string, string)>)
    ensures |ctx| == 7
    ensures ctx[0] == (ManualDateKey, today)
    ensures ctx[1] == (AppTargetKey, AppTarget(HostText(netloc)))
    ensures ctx[2] == (AppTargetLatexKey, EscapeAsWritten(AppTarget(HostText(netloc))))
    ensures ctx[3] == (TestUrlKey, WithScheme(url))
    ensures ctx[4] == (HostKey, HostText(netloc))
    ensures ctx[5] == (HostLatexKey, EscapeAsWritten(HostText(netloc)))
    ensures ctx[6] == (SearchQueryKey, query)
  {
    var host := HostText(netloc);
    var app := AppTarget(host);
    [(ManualDateKey, today),
     (AppTargetKey, app),
     (AppTargetLatexKey, EscapeAsWritten(app)),
     (TestUrlKey, WithScheme(url)),
     (HostKey, host),
     (HostLatexKey, EscapeAsWritten(host)),
     (SearchQueryKey, query)]
  }

  /** The seven keys are keys, and none holds a key listed before it: in
      particular `__APP_TARGET__` is not inside `__APP_TARGET_LATEX__`, nor
      `__HOST__` inside `__HOST_LATEX__`. */
  lemma ContextKeys(url: string, netloc: string, today: string, query: string)
    ensures AllKeys(Context(url, netloc, today, query))
    ensures Unshadowed(Context(url, netloc, today, query))
  {
    TemplateKeys();
    KeyNotInKey("APP_TARGET", "MANUAL_DATE", 0);
    KeyNotInKey("APP_TARGET_LATEX", "MANUAL_DATE", 0);
    KeyNotInKey("APP_TARGET_LATEX", "APP_TARGET", 0);
    KeyNotInKey("TEST_URL", "MANUAL_DATE", 0);
    KeyNotInKey("TEST_URL", "APP_TARGET", 0);
    KeyNotInKey("TEST_URL", "APP_TARGET_LATEX", 0);
    KeyNotInKey("HOST", "MANUAL_DATE", 0);
    KeyNotInKey("HOST", "APP_TARGET", 0);
    KeyNotInKey("HOST", "APP_TARGET_LATEX", 0);
    KeyNotInKey("HOST", "TEST_URL", 0);
    KeyNotInKey("HOST_LATEX", "MANUAL_DATE", 0);
    KeyNotInKey("HOST_LATEX", "APP_TARGET", 0);
    KeyNotInKey("HOST_LATEX", "APP_TARGET_LATEX", 0);
    KeyNotInKey("HOST_LATEX", "TEST_URL", 0);
    KeyNotInKey("HOST_LATEX", "HOST", 0);
    KeyNotInKey("SEARCH_QUERY", "MANUAL_DATE", 0);
    KeyNotInKey("SEARCH_QUERY", "APP_TARGET", 0);
    KeyNotInKey("SEARCH_QUERY", "APP_TARGET_LATEX", 0);
    KeyNotInKey("SEARCH_QUERY", "TEST_URL", 0);
    KeyNotInKey("SEARCH_QUERY", "HOST", 0);
    KeyNotInKey("SEARCH_QUERY", "HOST_LATEX", 0);
  }

  /** The LaTeX output after the key loop: a second pass puts the escaped
      values in for any `__APP_TARGET__` or `__HOST__` still present. */
  function Fallback(tex: string, ctx: seq<(string, string)>): string
    requires |ctx| == 7
  {
    ReplaceAll(ReplaceAll(tex, AppTargetKey, ctx[2].1), HostKey, ctx[5].1)
  }

  /** Both templates filled from one context; the LaTeX one then goes through
      the fallback pass. */
  function Render(url: string, netloc: string, today: string, query: string,
                  texTemplate: string, mdTemplate: string): (string, string)
  {
    ContextKeys(url, netloc, today, query);
    var ctx := Context(url, netloc, today, query);
    (Fallback(Substitute(texTemplate, ctx), ctx), Substitute(mdTemplate, ctx))
  }

  // ---------------------------------------------------------------------------

  /** A URL with a scheme separator, whose ends are not blank. */
  lemma WithSchemeShape(url: string)
    ensures Contains(WithScheme(url), Scheme)
    ensures Contains(Strip(url), Scheme) <==> WithScheme(url) == Strip(url)
    ensures !Contains(Strip(url), Scheme) ==> WithScheme(url) == Https + Strip(url)
    ensures Strip(WithScheme(url)) == WithScheme(url)
  {
    var u := Strip(url);
    if !Contains(u, Scheme) {
      PrefixedShape(u);
    } else {
      StripIdempotent(url);
    }
  }

  /** `https://` in front of a stripped text holds the scheme separator and
      is itself stripped. */
  lemma PrefixedShape(u: string)
    requires u == [] || (!IsSpace(u[0]) && !IsSpace(u[|u| - 1]))
    ensures Contains(Https + u, Scheme)
    ensures Strip(Https + u) == Https + u
  {
    var r := Https + u;
    assert OccursAt(r, Scheme, 5);
    assert r[|r| - 1] == if u == [] then '/' else u[|u| - 1];
    StripOfTrimmed(r);
  }

  /** Putting the scheme on twice is putting it on once. */
  lemma WithSchemeIdempotent(url: string)
    ensures WithScheme(WithScheme(url)) == WithScheme(url)
  {
    WithSchemeShape(url);
  }

  /** "target app" stands in for a missing network location, and a location
      without "www." is used as it is. */
  lemma HostTextOf(netloc: string)
    ensures netloc == [] ==> HostText(netloc) == NoHost
    ensures netloc != [] && !Contains(netloc, Www) ==> HostText(netloc) == netloc
  {
    if netloc == [] {
      forall i | 0 <= i <= |NoHost|
        ensures !OccursAt(NoHost, Www, i)
      {
        if i + 4 <= |NoHost| {
          assert NoHost[i..i + 4][3] == NoHost[i + 3];
        }
      }
      ReplaceAbsent(NoHost, Www, "");
    } else if !Contains(netloc, Www) {
      ReplaceAbsent(netloc, Www, "");
    }
  }

  /** An escaped text holds no double underscore: each `_` comes right after
      a backslash. */
  lemma GuardedNoDouble(t: string)
    requires Guarded(t)
    ensures NoDouble(t)
  {
    forall i | 0 <= i < |t| - 1
      ensures !DoubleAt(t, i)
    {
      if t[i + 1] == '_' {
        assert t[i] == '\\';
      }
    }
  }

  /** The LaTeX-only keys always receive the escaped values, in both outputs
      and whatever the host. */
  lemma LatexKeysEscaped(url: string, netloc: string, today: string, query: string)
    ensures Render(url, netloc, today, query, AppTargetLatexKey, AppTargetLatexKey)
      == (EscapeAsWritten(AppTarget(HostText(netloc))), EscapeAsWritten(AppTarget(HostText(netloc))))
    ensures Render(url, netloc, today, query, HostLatexKey, HostLatexKey)
      == (EscapeAsWritten(HostText(netloc)), EscapeAsWritten(HostText(netloc)))
  {
    ContextKeys(url, netloc, today, query);
    var ctx := Context(url, netloc, today, query);
    TemplateKeys();
    EscapeGuards(AppTarget(HostText(netloc)));
    EscapeGuards(HostText(netloc));
    GuardedNoDouble(ctx[2].1);
    GuardedNoDouble(ctx[5].1);
    SubstituteEachKey(ctx, 2);
    SubstituteEachKey(ctx, 5);
    FallbackIdle(ctx[2].1, ctx);
    FallbackIdle(ctx[5].1, ctx);
  }

  /** The fallback pass leaves a text without a double underscore alone. */
  lemma FallbackIdle(t: string, ctx: seq<(string, string)>)
    requires |ctx| == 7 && NoDouble(t)
    ensures Fallback(t, ctx) == t
  {
    TemplateKeys();
    KeyNotIn(t, AppTargetKey);
    ReplaceAbsent(t, AppTargetKey, ctx[2].1);
    KeyNotIn(t, HostKey);
    ReplaceAbsent(t, HostKey, ctx[5].1);
  }

  /** The host text holds no double underscore, and neither does the app
      target built from it. */
  lemma AppTargetNoDouble(host: string)
    requires NoDouble(host)
    ensures NoDouble(AppTarget(host))
  {
    assert DesktopSuffix[0] == ' ';
    NoDoubleConcat(host, DesktopSuffix);
  }

  /** `__APP_TARGET__` and `__HOST__` become the plain, unescaped values in
      both outputs, the LaTeX one included: the key loop has already replaced
      them when the fallback pass looks for them. */
  lemma PlainKeysUnescaped(url: string, netloc: string, today: string, query: string)
    requires NoDouble(HostText(netloc))
    ensures Render(url, netloc, today, query, AppTargetKey, AppTargetKey)
      == (AppTarget(HostText(netloc)), AppTarget(HostText(netloc)))
    ensures Render(url, netloc, today, query, HostKey, HostKey)
      == (HostText(netloc), HostText(netloc))
  {
    ContextKeys(url, netloc, today, query);
    var ctx := Context(url, netloc, today, query);
    AppTargetNoDouble(HostText(netloc));
    SubstituteEachKey(ctx, 1);
    SubstituteEachKey(ctx, 4);
    FallbackIdle(ctx[1].1, ctx);
    FallbackIdle(ctx[4].1, ctx);
  }

  /** `__MANUAL_DATE__`, `__TEST_URL__` and `__SEARCH_QUERY__` become today's
      date, the URL with its scheme and the query, when those hold no double
      underscore. */
  lemma OtherKeys(url: string, netloc: string, today: string, query: string)
    requires NoDouble(today) && NoDouble(WithScheme(url)) && NoDouble(query)
    ensures Render(url, netloc, today, query, ManualDateKey, ManualDateKey) == (today, today)
    ensures Render(url, netloc, today, query, TestUrlKey, TestUrlKey) == (WithScheme(url), WithScheme(url))
    ensures Render(url, netloc, today, query, SearchQueryKey, SearchQueryKey) == (query, query)
  {
    ContextKeys(url, netloc, today, query);
    var ctx := Context(url, netloc, today, query);
    SubstituteEachKey(ctx, 0);
    SubstituteEachKey(ctx, 3);
    SubstituteEachKey(ctx, 6);
    FallbackIdle(today, ctx);
    FallbackIdle(WithScheme(url), ctx);
    FallbackIdle(query, ctx);
  }

  /** Template text without a double underscore passes through unchanged. */
  lemma RenderPlain(url: string, netloc: string, today: string, query: string,
                    texTemplate: string, mdTemplate: string)
    requires NoDouble(texTemplate) && NoDouble(mdTemplate)
    ensures Render(url, netloc, today, query, texTemplate, mdTemplate) == (texTemplate, mdTemplate)
  {
    ContextKeys(url, netloc, today, query);
    var ctx := Context(url, netloc, today, query);
    SubstituteNoDouble(texTemplate, ctx);
    SubstituteNoDouble(mdTemplate, ctx);
    FallbackIdle(texTemplate, ctx);
  }
}
