# url-app-manual-pipeline, modelled in Dafny

The pipeline turns a live web application into a user manual. A capture step
takes screenshots. `build_manual_spec.py` builds a JSON manual spec from the
URL and the capture manifest. `merge_capture_manifest.py` drops figures whose
screenshot is missing. `validate_manual_spec.py` checks the spec's schema.
`render_from_spec.py` and `render_manual_templates.py` fill LaTeX and Markdown
templates. Two reconcilers then patch an existing Word document in place,
without regenerating it:

- `sync_latex_to_docx.py` patches text. Its token mode replaces each
  `MANUAL_BLOCK:<id>` paragraph with the spec block of that id: a paragraph, a
  numbered or bulleted list on its own numbering instance, a table, or nothing.
  Its legacy mode resizes and rewrites lists and tables found under fixed
  headings. It also re-creates missing sections and renumbers headings. It
  allocates numbering definitions and instances in `word/numbering.xml`.
- `sync_latex_images_to_docx.py` patches figures. Its token mode turns each
  `MANUAL_FIG:<id>` paragraph into a picture and a "Figure n." caption. Its
  legacy mode clears old picture/caption pairs and places every screenshot of
  the LaTeX source under its anchor section.

The model keeps each script's own form:

- A Word body is a `Body` class whose field `elems` holds the top-level
  children. Each child is a paragraph (style, numbering id, runs, drawing) or
  a table (rows of cells). The reconcilers are methods that change that field.
  Each method is proved equal to a specification function, and the properties
  are proved of that function.
- The images script sees only paragraphs, as python-docx shows them; a
  `Document` class holds them.
- The numbering part is a class `Part` with the sequences of abstract
  definitions and num instances.
- A JSON spec is a tree of datatypes whose fields are `Option`s.
- The spec stages are functions. Their loops are methods proved equal to those
  functions.

Modules:

- `Wrappers`, `Seqs`, `Strings`: option/result types, sequence splicing, Python string methods.
- `OrderedDict`: Python's insertion-ordered `dict`, where a later key overwrites.
- `Canonical`: the two `canonical` heading keys.
- `TexEscape`: `tex_escape` / `latex_escape`, and the escape they evidently intend.
- `LatexSource`: `clean_latex_text` and the row/item extraction of `parse_tex`.
- `DocTree`, `DocxAnchors`, `Titles`: the Word body, `paragraph_text`, `set_paragraph_text`, heading lookup, section ends, templates.
- `BlockTokens`: the block token grammar.
- `Numbering`, `NumberingPart`: the numbering allocator.
- `DynamicSync`: `sync_dynamic_from_spec`.
- `LegacyLists`, `LegacyTables`, `LegacyBlocks`, `LegacySections`, `LegacyHeadings`: the legacy reconcilers.
- `FigureSync`: `sync_latex_images_to_docx.py`.
- `ManualSpec`, `BuildSpec`, `MergeManifest`, `ValidateSpec`, `RenderSpec`, `RenderTemplates`, `Placeholders`: the spec stages.

## Model

| member | source | states |
|---|---|---|
| BlockTokens.TokenIdExact | skills/url-app-manual-pipeline/scripts/sync_latex_to_docx.py:1025-1037 | `fullmatch` of the block or figure token pattern accepts exactly `TAG id`, `[[TAG id`, `TAG id]]` and `[[TAG id]]` with a non-empty id over `[A-Za-z0-9_.:-]`, and returns that id |
| BlockTokens.TokenIdFound | skills/url-app-manual-pipeline/scripts/sync_latex_to_docx.py:1035-1037 | a paragraph that fully matches a token is also found by the cleanup pass's `search` |
| BlockTokens.FirstToken | skills/url-app-manual-pipeline/scripts/sync_latex_images_to_docx.py:177-182 | the leftmost position where a match starts, with no match before it; none means no match from `from` on |
| BlockTokens.IdRun | skills/url-app-manual-pipeline/scripts/sync_latex_images_to_docx.py:177 | the greedy `+` takes the longest prefix of id characters and stops before the first other character |
| BlockTokens.SearchId | skills/url-app-manual-pipeline/scripts/sync_latex_images_to_docx.py:182-185 | `search(...).group(1)` succeeds exactly when a tag followed by an id character occurs, and then yields a non-empty id |
| BlockTokens.SearchIdOfToken | skills/url-app-manual-pipeline/scripts/sync_latex_images_to_docx.py:182-185 | on a text that is one whole token, `search` reads the same id as `fullmatch` |
| BlockTokens.NoTokenInBlank | skills/url-app-manual-pipeline/scripts/sync_latex_to_docx.py:1108-1111 | a blanked paragraph holds no token, so blanking is what makes the cleanup final |
| Canonical.DocxCanonical | skills/url-app-manual-pipeline/scripts/sync_latex_to_docx.py:58-62 | the document patcher's heading key consists of lower-case letters and digits only |
| Canonical.DocxCanonicalIdempotent | skills/url-app-manual-pipeline/scripts/sync_latex_to_docx.py:58-62 | the key of a key is the key itself |
| Canonical.DocxCanonicalKeepsLeadingDigit | skills/url-app-manual-pipeline/scripts/sync_latex_to_docx.py:58-62 | a leading digit survives at the head of the key |
| Canonical.DocxCanonicalKeepsLeadingLetter | skills/url-app-manual-pipeline/scripts/sync_latex_to_docx.py:58-62 | a leading letter survives, lower-cased, at the head of the key |
| Canonical.DocxCanonicalKeepsNumbers | skills/url-app-manual-pipeline/scripts/sync_latex_to_docx.py:58-62 | a typed section number stays in the key: "4.2. Title" and "Title" key differently |
| Canonical.NumberPrefixLen | skills/url-app-manual-pipeline/scripts/sync_latex_images_to_docx.py:25 | `^\d+(\.\d+)*\.?\s*` matches a non-empty prefix exactly when the text starts with a digit |
| Canonical.FigureCanonical | skills/url-app-manual-pipeline/scripts/sync_latex_images_to_docx.py:24-26 | the figure placer's heading key consists of lower-case letters and digits only |
| Canonical.StripBehindNumber | skills/url-app-manual-pipeline/scripts/sync_latex_images_to_docx.py:25 | stripping "4.2. " + title only trims the title's tail, and leaves its first character in place |
| Canonical.FigureCanonicalDropsNumber | skills/url-app-manual-pipeline/scripts/sync_latex_images_to_docx.py:24-26 | a heading typed as "4.2. Title" has the same key as "Title" when the title does not start with a digit, a dot or whitespace |
| Canonical.FigureCanonicalNotIdempotent | skills/url-app-manual-pipeline/scripts/sync_latex_images_to_docx.py:24-26 | the figure key is not idempotent: "1 2x" keys to "2x", and "2x" keys to "x" |
| OrderedDict.PutLookup | skills/url-app-manual-pipeline/scripts/sync_latex_to_docx.py:176 | `d[k] = v` makes `k` map to `v` and leaves every other key's value alone |
| OrderedDict.PutPresent | skills/url-app-manual-pipeline/scripts/sync_latex_to_docx.py:176 | overwriting a present key keeps the dict's key order |
| OrderedDict.PutAbsent | skills/url-app-manual-pipeline/scripts/sync_latex_to_docx.py:176 | a new key is appended at the end of the iteration order |
| OrderedDict.BuildKeepsLast | skills/url-app-manual-pipeline/scripts/sync_latex_to_docx.py:166-177 | when several headings share a key, the map holds the position of the last one |
| OrderedDict.BuildKeys | skills/url-app-manual-pipeline/scripts/sync_latex_images_to_docx.py:102-111 | the map's keys are exactly the keys written during the scan |
| OrderedDict.BuildGrowsAtEnd | skills/url-app-manual-pipeline/scripts/sync_latex_to_docx.py:166-177 | iteration order is first-appearance order: later writes never reorder earlier keys |
| OrderedDict.FindFuzzy | skills/url-app-manual-pipeline/scripts/sync_latex_to_docx.py:180-188 | an exact key wins; otherwise the answer is the first key, in iteration order, that contains or is contained in the target; none only when neither exists |
| OrderedDict.FindFuzzyExact | skills/url-app-manual-pipeline/scripts/sync_latex_images_to_docx.py:114-116 | when some heading keys exactly to the target, the lookup answers the last such heading |
| OrderedDict.FindFuzzyHasKey | skills/url-app-manual-pipeline/scripts/sync_latex_images_to_docx.py:114-120 | every answer of the lookup is the position of a heading with a key |
| OrderedDict.FindFuzzyFromPairs | skills/url-app-manual-pipeline/scripts/sync_latex_to_docx.py:180-188 | every answer of the lookup is a position written during the scan |
| OrderedDict.EmptyKeyOverlaps | skills/url-app-manual-pipeline/scripts/sync_latex_to_docx.py:186 | the empty key is contained in every target, so it would match every inexact lookup |
| Strings.Strip | skills/url-app-manual-pipeline/scripts/sync_latex_to_docx.py:135 | `str.strip()`: the result neither starts nor ends with whitespace, and is never longer than the input (its full characterisation is `StripIsTrim`) |
| Strings.StripIsTrim | skills/url-app-manual-pipeline/scripts/sync_latex_to_docx.py:135 | `str.strip()` in full: the result is a slice of the input, everything before and after it is whitespace, it has no whitespace at either end, and it is empty exactly when the input is all whitespace |
| Strings.StripIdempotent | skills/url-app-manual-pipeline/scripts/sync_latex_to_docx.py:135 | stripping a stripped text changes nothing |
| Strings.Lower | skills/url-app-manual-pipeline/scripts/sync_latex_to_docx.py:61 | `str.lower()` keeps the length and lower-cases each letter in place |
| Strings.KeepLowerAlnum | skills/url-app-manual-pipeline/scripts/sync_latex_to_docx.py:61 | `re.sub(r"[^a-z0-9]+", "", s)`: the empty text stays empty, one character is kept exactly when it is in `[a-z0-9]`; with `KeepLowerAlnumAppend` this makes the result the `[a-z0-9]` characters of the input in order |
| Strings.KeepLowerAlnumFixes | skills/url-app-manual-pipeline/scripts/sync_latex_to_docx.py:61 | a text already made of `[a-z0-9]` is left as it is |
| Strings.ReplaceAbsent | skills/url-app-manual-pipeline/scripts/render_from_spec.py:172 | `str.replace` of a pattern that does not occur changes nothing |
| Strings.CollapseRunsShape | skills/url-app-manual-pipeline/scripts/render_from_spec.py:40 | `re.sub(r"\s+", " ", s)` leaves single plain spaces between words, is empty only for empty input, and keeps a non-space head |
| Strings.CleanTextShape | skills/url-app-manual-pipeline/scripts/render_from_spec.py:39-40 | the markdown cleaner leaves single plain spaces between words and no whitespace at either end |
| Strings.CleanTextIdempotent | skills/url-app-manual-pipeline/scripts/render_from_spec.py:39-40 | cleaning a cleaned text changes nothing |
| Strings.NatToStringRoundTrip | skills/url-app-manual-pipeline/scripts/sync_latex_to_docx.py:884-890 | `str(n)` passes `isdigit()` and `int(str(n)) == n`, so a freshly allocated id reads back as its number |
| TexEscape.EscapeAsWrittenIsMap | skills/url-app-manual-pipeline/scripts/render_from_spec.py:20-36 | the dict-order chain of `str.replace` acts on each input character on its own, as `AsWrittenChar` |
| TexEscape.TableHit | skills/url-app-manual-pipeline/scripts/render_from_spec.py:21-35 | every special character other than the backslash is replaced once, by its table entry, and left alone by the later entries |
| TexEscape.BackslashAsWritten | skills/url-app-manual-pipeline/scripts/render_from_spec.py:21-35 | a backslash becomes `\textbackslash\{\}`, because its replacement passes through the later `{` and `}` entries |
| TexEscape.BackslashAsWrittenMisreads | skills/url-app-manual-pipeline/scripts/render_manual_templates.py:21-37 | LaTeX reads the escape of a backslash as written back as `\{}`, while the one-character-at-a-time escape reads back as `\` |
| TexEscape.UnescapeEscape | skills/url-app-manual-pipeline/scripts/render_from_spec.py:20-36 | the intended escape loses nothing: reading its output as LaTeX text gives back the input |
| TexEscape.EscapesAgree | skills/url-app-manual-pipeline/scripts/render_manual_templates.py:21-37 | on text without a backslash the escape as written equals the intended escape |
| TexEscape.EscapeGuards | skills/url-app-manual-pipeline/scripts/render_from_spec.py:20-36 | in the output of either escape every `&`, `%`, `$`, `#` and `_` comes right after a backslash, and the output does not start with one of them |
| LatexSource.CleanLatex | skills/url-app-manual-pipeline/scripts/sync_latex_to_docx.py:65-71 | `clean_latex_text` leaves single plain spaces between words and no whitespace at either end |
| LatexSource.CleanLatexPlain | skills/url-app-manual-pipeline/scripts/sync_latex_to_docx.py:65-71 | clean text without LaTeX markup comes back unchanged |
| LatexSource.CleanLatexTexttt | skills/url-app-manual-pipeline/scripts/sync_latex_to_docx.py:66 | `\texttt{x}` cleans to what `x` cleans to |
| LatexSource.UnwrapOne | skills/url-app-manual-pipeline/scripts/sync_latex_to_docx.py:66-67 | a command whose argument holds no `}` is replaced by its argument |
| LatexSource.UnwrapUnclosed | skills/url-app-manual-pipeline/scripts/sync_latex_to_docx.py:66-67 | without a closing brace no command is unwrapped and the text is left alone |
| LatexSource.SplitOnJoin | skills/url-app-manual-pipeline/scripts/sync_latex_to_docx.py:99 | `str.split` is undone by joining with the separator, and no piece holds the separator |
| LatexSource.TableRow | skills/url-app-manual-pipeline/scripts/sync_latex_to_docx.py:95-101 | a body line yields a row only as three clean cells |
| LatexSource.TableRowsShape | skills/url-app-manual-pipeline/scripts/sync_latex_to_docx.py:93-102 | every row `get_table` extracts has exactly three clean cells |
| LatexSource.ExtractRows | skills/url-app-manual-pipeline/scripts/sync_latex_to_docx.py:93-102 | the loop over the body's lines returns the rows of the lines in order, as the reference fold `TableRows` states |
| LatexSource.TableRowOfCells | skills/url-app-manual-pipeline/scripts/sync_latex_to_docx.py:95-101 | the line `a & b & c \\` of clean plain cells reads back as the row `[a, b, c]` |
| LatexSource.ItemsClean | skills/url-app-manual-pipeline/scripts/sync_latex_to_docx.py:83 | every item `get_itemize` and `get_enumerate` read is clean text |
| LatexSource.ItemsOfLines | skills/url-app-manual-pipeline/scripts/sync_latex_to_docx.py:83 | a list written one `\item x` per line reads back as its items, cleaned, in order |
| DocTree.WithText | skills/url-app-manual-pipeline/scripts/sync_latex_to_docx.py:150-163 | `set_paragraph_text` keeps the paragraph style and numbering, drops drawings, and the paragraph then reads back the written text |
| DocTree.WithTextTwice | skills/url-app-manual-pipeline/scripts/sync_latex_to_docx.py:150-163 | setting the text twice keeps only the second text |
| DocTree.SetCellText | skills/url-app-manual-pipeline/scripts/sync_latex_to_docx.py:380-384 | the first paragraph of the cell gets the text, a new paragraph is added to an empty cell, later paragraphs stay |
| DocTree.SetCellTextSingle | skills/url-app-manual-pipeline/scripts/sync_latex_to_docx.py:380-384 | a cell of at most one paragraph reads back the written text |
| DocTree.ElementWithText | skills/url-app-manual-pipeline/scripts/sync_latex_to_docx.py:150-163 | on a paragraph child it is `set_paragraph_text`; a table child loses its rows |
| DocTree.Body.Insert | skills/url-app-manual-pipeline/scripts/sync_latex_to_docx.py:421 | `body.insert(pos, e)` puts `e` at `pos` and shifts the rest |
| DocTree.Body.RemoveAt | skills/url-app-manual-pipeline/scripts/sync_latex_to_docx.py:563 | `body.remove(el)` drops exactly that child |
| DocTree.Body.InsertAfterIndex | skills/url-app-manual-pipeline/scripts/sync_latex_to_docx.py:418-422 | the new elements follow position `idx` in their order and the rest of the body is unchanged |
| DocxAnchors.HeadingKeys | skills/url-app-manual-pipeline/scripts/sync_latex_to_docx.py:166-177 | the scan records, child by child, the canonical key of each heading paragraph with text and nothing for other children |
| DocxAnchors.FindHeadingIndex | skills/url-app-manual-pipeline/scripts/sync_latex_to_docx.py:180-188 | whatever `find_heading_index` answers is a top-level heading paragraph with text |
| DocxAnchors.FindHeadingIndexExact | skills/url-app-manual-pipeline/scripts/sync_latex_to_docx.py:180-184 | when some heading keys exactly like the target, the lookup answers the last such heading |
| DocxAnchors.SectionEndIndex | skills/url-app-manual-pipeline/scripts/sync_latex_to_docx.py:425-433 | the section ends (exclusive) at the next heading of any level, or at the end of the body, and holds no heading in between |
| DocxAnchors.FindFirstListTemplate | skills/url-app-manual-pipeline/scripts/sync_latex_to_docx.py:191-195 | the first list paragraph of the body, and none only when the body has no list paragraph |
| DocxAnchors.ListBeforeHeading | skills/url-app-manual-pipeline/scripts/sync_latex_to_docx.py:203-209 | the first list paragraph from `j` on, with no heading and no list paragraph before it; none exactly when no list paragraph comes before the next heading |
| DocxAnchors.ListUnderFound | skills/url-app-manual-pipeline/scripts/sync_latex_to_docx.py:198-209 | a template is found only under a heading the lookup answered: the first list paragraph strictly between that heading and the next heading; none when that range holds no list paragraph |
| DocxAnchors.HeadingTemplate | skills/url-app-manual-pipeline/scripts/sync_latex_to_docx.py:221-241 | the first `Heading{level}` paragraph with a SectionNumber run when there is one, else the first `Heading{level}` paragraph; none only when the body has no such paragraph |
| DocxAnchors.FirstStyled | skills/url-app-manual-pipeline/scripts/sync_latex_to_docx.py:223-240 | the first paragraph of the given style (with a SectionNumber run when one is required): no earlier child qualifies, and none exactly when no child does |
| DocxAnchors.MakeHeading | skills/url-app-manual-pipeline/scripts/sync_latex_to_docx.py:212-218 | a new heading styled `Heading{level}`, not a list paragraph, reading back the text |
| DocxAnchors.KeptRuns | skills/url-app-manual-pipeline/scripts/sync_latex_to_docx.py:251-259 | exactly the SectionNumber runs and the tab runs of the template survive |
| DocxAnchors.MakeHeadingLikeTemplate | skills/url-app-manual-pipeline/scripts/sync_latex_to_docx.py:244-265 | without a template it is `make_heading`; with one it keeps the template's style and numbering and its text ends in " " + text |
| DocxAnchors.CloneListParagraph | skills/url-app-manual-pipeline/scripts/sync_latex_to_docx.py:268-271 | the clone keeps the template's style and numbering and reads back the new text |
| DocxAnchors.MakeListNumberParagraph | skills/url-app-manual-pipeline/scripts/sync_latex_to_docx.py:274-283 | a list paragraph on the given numbering id, not a heading, reading back the text |
| DocxAnchors.FillRow | skills/url-app-manual-pipeline/scripts/sync_latex_to_docx.py:397-400 | the first three cells of the row copy get the row's values (empty past its end), the other cells stay |
| DocxAnchors.BuildTableFromTemplate | skills/url-app-manual-pipeline/scripts/sync_latex_to_docx.py:387-403 | a template of fewer than two rows comes back unchanged; otherwise the header row is kept and there is one filled copy of the second row per data row |
| DocxAnchors.BuildTableWithHeader | skills/url-app-manual-pipeline/scripts/sync_latex_to_docx.py:406-415 | the header row is rewritten from the header cells; an empty row list gives one blank data row; an empty template gives an empty table |
| DynamicSync.SyncDynamicFromSpec | skills/url-app-manual-pipeline/scripts/sync_latex_to_docx.py:1011-1124 | the body and numbering part after a run are those of the reference run `SyncSpec`: the bullet numbering id first, the pass over the paragraphs present at the start, then the cleanup; both counts are the reference counts |
| DynamicSync.FirstPass | skills/url-app-manual-pipeline/scripts/sync_latex_to_docx.py:1033-1105 | the loop over a snapshot of the paragraphs leaves the body, numbering part and counts of the reference pass `Pass`, although list blocks grow the body as it runs |
| DynamicSync.CleanupPass | skills/url-app-manual-pipeline/scripts/sync_latex_to_docx.py:1107-1112 | every paragraph still holding a block token is blanked and counted once; the others stay |
| DynamicSync.TokensExclusive | skills/url-app-manual-pipeline/scripts/sync_latex_to_docx.py:1025-1037 | no text fully matches both the figure and the block token, so the figure guard never hides a block |
| DynamicSync.TokenOfIsFullmatch | skills/url-app-manual-pipeline/scripts/sync_latex_to_docx.py:1034-1041 | a paragraph stands for a block exactly when its whole stripped text is a block token |
| DynamicSync.CleanedNoToken | skills/url-app-manual-pipeline/scripts/sync_latex_to_docx.py:1108-1111 | the cleanup leaves no token and changes, and counts, exactly the paragraphs that held one |
| DynamicSync.SyncLeavesNoToken | skills/url-app-manual-pipeline/scripts/sync_latex_to_docx.py:1107-1112 | after a run no top-level paragraph leaks a block token |
| DynamicSync.SecondRunNoChanges | skills/url-app-manual-pipeline/scripts/sync_latex_to_docx.py:1011-1124 | running the sync again on its own output changes nothing and counts nothing |
| DynamicSync.ResolveCounts | skills/url-app-manual-pipeline/scripts/sync_latex_to_docx.py:1042-1105 | each token paragraph counts at least one change, and is skipped exactly when its block is missing or of an unknown type |
| DynamicSync.ListOutcome | skills/url-app-manual-pipeline/scripts/sync_latex_to_docx.py:1055-1078 | a list block becomes one paragraph per item carrying that item and one numbering id: the shared bullet id, or for a numbered list a fresh id appended to the part that restarts at 1 |
| DynamicSync.ListParasText | skills/url-app-manual-pipeline/scripts/sync_latex_to_docx.py:1066-1076 | the `k`-th paragraph of a list carries the `k`-th item and the list's numbering id |
| DynamicSync.RowCellsText | skills/url-app-manual-pipeline/scripts/sync_latex_to_docx.py:1088-1091 | a spec row becomes one single-paragraph cell per column, holding the row's text or "" past its end |
| DynamicSync.TableHeader | skills/url-app-manual-pipeline/scripts/sync_latex_to_docx.py:1081-1087 | a table block becomes a header row of the columns (three defaults when there are none) and one row per spec row |
| DynamicSync.TableRows | skills/url-app-manual-pipeline/scripts/sync_latex_to_docx.py:1088-1091 | each spec row becomes the matching table row, cut or padded to the number of columns |
| FigureSync.HeadingLevel | skills/url-app-manual-pipeline/scripts/sync_latex_images_to_docx.py:92-99 | a level is read only from a style whose name starts with "Heading" |
| FigureSync.HeadingLevelOf | skills/url-app-manual-pipeline/scripts/sync_latex_images_to_docx.py:96-99 | a style named "Heading", whitespace, `str(n)` and anything not starting with a digit ("Heading 2", "Heading 2 Char") is a heading of level `n` |
| FigureSync.NotHeadingWithoutNumber | skills/url-app-manual-pipeline/scripts/sync_latex_images_to_docx.py:96-98 | "Heading" with no digit after its whitespace ("Heading", "Headings", "Heading x") is not a heading |
| FigureSync.FindHeading | skills/url-app-manual-pipeline/scripts/sync_latex_images_to_docx.py:102-120 | whatever the fuzzy lookup answers is a heading paragraph with a non-empty key |
| FigureSync.FindHeadingExact | skills/url-app-manual-pipeline/scripts/sync_latex_images_to_docx.py:108-116 | when a heading keys exactly like the target, the lookup answers the last such heading |
| FigureSync.FindHeadingNone | skills/url-app-manual-pipeline/scripts/sync_latex_images_to_docx.py:114-120 | with no heading key overlapping the target the anchor is unresolved |
| FigureSync.SectionEndIndex | skills/url-app-manual-pipeline/scripts/sync_latex_images_to_docx.py:123-132 | the scan returns the section end: the last paragraph before the first heading at the start's level or above, never before the start |
| FigureSync.SectionEndMeets | skills/url-app-manual-pipeline/scripts/sync_latex_images_to_docx.py:123-132 | the section end meets its description: nothing between the start and it closes the section, and the paragraph after it does |
| FigureSync.SectionEndUnique | skills/url-app-manual-pipeline/scripts/sync_latex_images_to_docx.py:123-132 | two positions that meet the description of the section end are the same |
| FigureSync.LevelOr1 | skills/url-app-manual-pipeline/scripts/sync_latex_images_to_docx.py:244 | `get_heading_level(...) or 1`: a missing level and level 0 count as 1, any other level is kept |
| FigureSync.AnchorAt | skills/url-app-manual-pipeline/scripts/sync_latex_images_to_docx.py:42-55 | the first eight shots take the fixed anchor table in order, every later one "Example Task Flows" |
| FigureSync.ParseShots | skills/url-app-manual-pipeline/scripts/sync_latex_images_to_docx.py:38-58 | the loop builds the shots of the reference list `ShotsOf` |
| FigureSync.ShotsNumbered | skills/url-app-manual-pipeline/scripts/sync_latex_images_to_docx.py:53-57 | the `i`-th shot is numbered `i + 1`, takes the `i`-th anchor and the stripped image path and caption of its match |
| FigureSync.CaptionNumberOf | skills/url-app-manual-pipeline/scripts/sync_latex_images_to_docx.py:257 | a caption "Figure n. text" reads back the number it was written with |
| FigureSync.FigureCaptionInjective | skills/url-app-manual-pipeline/scripts/sync_latex_images_to_docx.py:225 | two captions are the same text only for the same number and caption |
| FigureSync.CaptionSet | skills/url-app-manual-pipeline/scripts/sync_latex_images_to_docx.py:225 | the set holds every shot's caption and its numbered form |
| FigureSync.CaptionPara | skills/url-app-manual-pipeline/scripts/sync_latex_images_to_docx.py:257-264 | the caption paragraph holds the text, no drawing, and the first of "ImageCaption" and "Caption" the document defines |
| FigureSync.ClearShotBlocks | skills/url-app-manual-pipeline/scripts/sync_latex_images_to_docx.py:135-163 | the loop leaves the reference sweep `Sweep` of the paragraphs and counts exactly the paragraphs it removed |
| FigureSync.ClearShotBlocksSpec | skills/url-app-manual-pipeline/scripts/sync_latex_images_to_docx.py:135-163 | after the clear no stale caption is left; every paragraph that is neither a stale caption nor a textless picture stays, in order; at most two paragraphs go per stale caption; a second clear removes nothing |
| FigureSync.SweepKeepsOthers | skills/url-app-manual-pipeline/scripts/sync_latex_images_to_docx.py:146-162 | the sweep removes only items it selects, keeping the others in order |
| FigureSync.SweepBound | skills/url-app-manual-pipeline/scripts/sync_latex_images_to_docx.py:152-160 | the sweep removes at most two items per selected item: the item and the one before it |
| FigureSync.SyncDynamic | skills/url-app-manual-pipeline/scripts/sync_latex_images_to_docx.py:166-217 | the paragraphs after the run are the reference output `DynOut` over the figure blocks of the spec, and the count is the number of tokens whose figure is known and whose image is present |
| FigureSync.EmbedFigures | skills/url-app-manual-pipeline/scripts/sync_latex_images_to_docx.py:181-209 | the loop over a snapshot of the paragraphs yields `DynOut` and the embed count, although each embed inserts a caption |
| FigureSync.DynOutStep | skills/url-app-manual-pipeline/scripts/sync_latex_images_to_docx.py:181-209 | one more paragraph appends what it turns into and counts one more embed exactly when its token resolves |
| FigureSync.DynLength | skills/url-app-manual-pipeline/scripts/sync_latex_images_to_docx.py:196-201 | the output has one paragraph per input paragraph plus one caption per embedded figure |
| FigureSync.DynEmbedded | skills/url-app-manual-pipeline/scripts/sync_latex_images_to_docx.py:196-209 | a resolved token becomes a picture paragraph followed by a caption numbered one more than the figures embedded before it |
| FigureSync.DynCleared | skills/url-app-manual-pipeline/scripts/sync_latex_images_to_docx.py:186-194 | a token whose figure is unknown or whose image is missing leaves an emptied paragraph with its style, and does not move the counter |
| FigureSync.DynUntouched | skills/url-app-manual-pipeline/scripts/sync_latex_images_to_docx.py:182-184 | a paragraph without a figure token passes through |
| FigureSync.EmbedCountGrows | skills/url-app-manual-pipeline/scripts/sync_latex_images_to_docx.py:201-209 | a later embed gets a larger figure number |
| FigureSync.EveryNumberUsed | skills/url-app-manual-pipeline/scripts/sync_latex_images_to_docx.py:201-209 | every number from 1 to the total goes to some embedded figure: the numbering has no gaps |
| FigureSync.PlacementMeets | skills/url-app-manual-pipeline/scripts/sync_latex_images_to_docx.py:238-250 | the placement is the only paragraph that meets its description: the anchor's tail when one was placed, otherwise the end of the section the anchor's heading opens |
| FigureSync.PlaceTargetSkips | skills/url-app-manual-pipeline/scripts/sync_latex_images_to_docx.py:234-241 | a shot is skipped exactly when its image is missing or no heading matches its anchor; otherwise it goes at its placement |
| FigureSync.PlaceTargetKeeps | skills/url-app-manual-pipeline/scripts/sync_latex_images_to_docx.py:246-266 | placing a shot keeps every recorded tail a caption right after its picture |
| FigureSync.PlaceNextCaption | skills/url-app-manual-pipeline/scripts/sync_latex_images_to_docx.py:252-267 | a placed shot puts a picture and then a caption with its number right after the placement, records that caption as the anchor's tail and counts one more insert |
| FigureSync.PlaceAll | skills/url-app-manual-pipeline/scripts/sync_latex_images_to_docx.py:232-267 | the loop as a fold: every tail stays a caption after its picture, at most one block per shot, two paragraphs per inserted block |
| FigureSync.PlaceAllStep | skills/url-app-manual-pipeline/scripts/sync_latex_images_to_docx.py:232-267 | the fold over one more shot is one more `PlaceNext` |
| FigureSync.LegacyStep | skills/url-app-manual-pipeline/scripts/sync_latex_images_to_docx.py:233-267 | one turn of the loop leaves the document, tails and count of `PlaceNext` |
| FigureSync.PlaceShot | skills/url-app-manual-pipeline/scripts/sync_latex_images_to_docx.py:233-266 | the shot is placed at its placement, or skipped with nothing changed exactly when the image is missing or the anchor is unresolved; the tails stay captions after pictures |
| FigureSync.SyncLegacy | skills/url-app-manual-pipeline/scripts/sync_latex_images_to_docx.py:220-274 | the document after a run is the clear followed by the fold `PlaceAll` over the parsed shots; `removed` and `inserted` are the counts of those two steps |
| LegacyLists.FirstListIndex | skills/url-app-manual-pipeline/scripts/sync_latex_to_docx.py:636-646 | the scan's first list paragraph after the heading: non-list children are skipped and a heading ends the search |
| LegacyLists.RunLength | skills/url-app-manual-pipeline/scripts/sync_latex_to_docx.py:638-646 | the list paragraphs that follow one another from the first one, up to the first other child or heading |
| LegacyLists.Resized | skills/url-app-manual-pipeline/scripts/sync_latex_to_docx.py:654-663 | as written, growing adds exactly one clone whatever the shortfall, and shrinking removes the surplus |
| LegacyLists.SyncListNoop | skills/url-app-manual-pipeline/scripts/sync_latex_to_docx.py:629-649 | with no items, no heading or no list under it, nothing changes and 0 is returned |
| LegacyLists.SyncedReadsBack | skills/url-app-manual-pipeline/scripts/sync_latex_to_docx.py:665-669 | a rewritten paragraph reads its item back and keeps its style and numbering |
| LegacyLists.SyncListShrinks | skills/url-app-manual-pipeline/scripts/sync_latex_to_docx.py:660-670 | when the run is long enough it is cut to one paragraph per item; what came before and after stays; each kept paragraph keeps its numbering and reads its item; the count is the number of texts that differed |
| LegacyLists.ShrunkRunReads | skills/url-app-manual-pipeline/scripts/sync_latex_to_docx.py:660-669 | every paragraph of a cut-down run keeps its numbering and reads its item |
| LegacyLists.SyncListAddsOneClone | skills/url-app-manual-pipeline/scripts/sync_latex_to_docx.py:654-658 | a short run grows the body by exactly one paragraph, and the old body from `s + \|items\| - 1` on follows the items |
| LegacyLists.SyncListShortfallFails | skills/url-app-manual-pipeline/scripts/sync_latex_to_docx.py:654-666 | as written, a list that ends the body and is two or more items short fails with IndexError |
| LegacyLists.SyncListOverwritesFollower | skills/url-app-manual-pipeline/scripts/sync_latex_to_docx.py:654-669 | as written, a run two or more items short in mid-body grows by one clone only and the overwrite runs on into the children that follow it |
| LegacyLists.OverwriteBehindClone | skills/url-app-manual-pipeline/scripts/sync_latex_to_docx.py:665-669 | behind the one clone, item `k + 1` is written into the child that followed the run |
| LegacyLists.ResizedIntended | skills/url-app-manual-pipeline/scripts/sync_latex_to_docx.py:654-658 | the corrected growth makes the run exactly one paragraph per item |
| LegacyLists.ResizedIntendedLayout | skills/url-app-manual-pipeline/scripts/sync_latex_to_docx.py:654-663 | the corrected resize keeps the children before and after the run, and fills new places with copies of the first list paragraph |
| LegacyLists.SyncListIntendedCorrect | skills/url-app-manual-pipeline/scripts/sync_latex_to_docx.py:628-670 | the corrected sync never fails and leaves exactly one list paragraph per item, each reading its item, between what came before and after the old run |
| LegacyLists.ScanListRun | skills/url-app-manual-pipeline/scripts/sync_latex_to_docx.py:635-649 | the scan returns the positions of the first run of list paragraphs after the heading, or none |
| LegacyLists.OverwriteItems | skills/url-app-manual-pipeline/scripts/sync_latex_to_docx.py:665-670 | the overwrite loop gives the reference `Overwrite` and its count, or IndexError when the items reach past the end of the body |
| LegacyLists.GrowRun | skills/url-app-manual-pipeline/scripts/sync_latex_to_docx.py:654-658 | the grow loop leaves the body `Resized` with the run's positions extended to one per item |
| LegacyLists.ShrinkRun | skills/url-app-manual-pipeline/scripts/sync_latex_to_docx.py:660-663 | the shrink loop removes the surplus from the end of the run |
| LegacyLists.SyncListAfter | skills/url-app-manual-pipeline/scripts/sync_latex_to_docx.py:635-670 | after the heading lookup the body and result are those of the reference `SyncListUnder` |
| LegacyLists.SyncListUnderHeading | skills/url-app-manual-pipeline/scripts/sync_latex_to_docx.py:628-670 | the body and result are those of the reference `SyncListSpec`, with IndexError as the failure |
| LegacyTables.FirstTableIndex | skills/url-app-manual-pipeline/scripts/sync_latex_to_docx.py:681-687 | the first table after the heading, taken before any later heading ends the search |
| LegacyTables.ResizedRows | skills/url-app-manual-pipeline/scripts/sync_latex_to_docx.py:696-706 | after the grow and shrink loops the table has its header and exactly one data row per given row |
| LegacyTables.ResizedRowsLayout | skills/url-app-manual-pipeline/scripts/sync_latex_to_docx.py:700-706 | each data position holds the old row or, past the old end, a copy of the first data row |
| LegacyTables.SyncTableNoop | skills/url-app-manual-pipeline/scripts/sync_latex_to_docx.py:688-694 | with no table under the heading, or a table without a data row, nothing changes and 0 is returned |
| LegacyTables.SyncedRowCells | skills/url-app-manual-pipeline/scripts/sync_latex_to_docx.py:709-714 | a synced row keeps its cell count, rewrites its first (at most three) cells from the row and keeps every later cell |
| LegacyTables.SyncTableFailsIff | skills/url-app-manual-pipeline/scripts/sync_latex_to_docx.py:708-714 | the sync fails with IndexError exactly when some given row has fewer values than the cells it overwrites |
| LegacyTables.SyncedTableRows | skills/url-app-manual-pipeline/scripts/sync_latex_to_docx.py:696-714 | the synced table is the old header followed by one synced resized row per given row |
| LegacyTables.TableChangesAtMost | skills/url-app-manual-pipeline/scripts/sync_latex_to_docx.py:708-715 | at most three cells per data row count as rewritten |
| LegacyTables.SyncTableShape | skills/url-app-manual-pipeline/scripts/sync_latex_to_docx.py:673-715 | only the found table changes: it keeps its header, has one synced row per given row, and the count is at most three per row |
| LegacyTables.ScanTable | skills/url-app-manual-pipeline/scripts/sync_latex_to_docx.py:680-689 | the scan loop returns the first table before the next heading |
| LegacyTables.ResizeRows | skills/url-app-manual-pipeline/scripts/sync_latex_to_docx.py:700-706 | the two loops leave the reference `ResizedRows` |
| LegacyTables.SyncDataRows | skills/url-app-manual-pipeline/scripts/sync_latex_to_docx.py:708-715 | the overwrite loop leaves the reference `SyncRows`: the synced rows and count, or IndexError |
| LegacyTables.SyncTableUnderHeading | skills/url-app-manual-pipeline/scripts/sync_latex_to_docx.py:673-715 | the body and result are those of the reference `SyncTableSpec` |
| LegacyBlocks.FirstTable | skills/url-app-manual-pipeline/scripts/sync_latex_to_docx.py:725-729 | the first table in a range of children, headings not stopping the scan; none only when the range has no table |
| LegacyBlocks.ScanFirstTable | skills/url-app-manual-pipeline/scripts/sync_latex_to_docx.py:726-729 | the scanning loop returns `FirstTable` |
| LegacyBlocks.LinkStepPlacesLeft | skills/url-app-manual-pipeline/scripts/sync_latex_to_docx.py:735-745 | a missing Left Navigation block lands right after Top Navigation: a level-2 heading, then the table built from the template, the children before it untouched |
| LegacyBlocks.LinkStepNoop | skills/url-app-manual-pipeline/scripts/sync_latex_to_docx.py:735-756 | with every link subsection present the step changes and counts nothing |
| LegacyBlocks.FlowBEmptiesFlowA | skills/url-app-manual-pipeline/scripts/sync_latex_to_docx.py:758-766 | as written, the Flow B block goes right after the Flow A heading, so Flow A's section becomes empty and its old content falls into Flow B's section |
| LegacyBlocks.HeadingBlockAfter | skills/url-app-manual-pipeline/scripts/sync_latex_to_docx.py:765 | a heading block inserted right after a heading empties that heading's section and takes over its content |
| LegacyBlocks.FlowBIntendedKeepsFlowA | skills/url-app-manual-pipeline/scripts/sync_latex_to_docx.py:758-766 | the corrected insertion keeps Flow A's section as it was and starts Flow B right after it |
| LegacyBlocks.Anchor | skills/url-app-manual-pipeline/scripts/sync_latex_to_docx.py:773 | the anchor for new trailing sections is Flow B, else Flow A, else Example Task Flows; none only when all three are absent |
| LegacyBlocks.MissingBlocksBounds | skills/url-app-manual-pipeline/scripts/sync_latex_to_docx.py:718-792 | at most five blocks are added, and nothing is removed |
| LegacyBlocks.MissingBlocksNoop | skills/url-app-manual-pipeline/scripts/sync_latex_to_docx.py:735-790 | a document that already has every section the step could add is left as it is, with nothing counted |
| LegacyBlocks.EnsureMissingBlocks | skills/url-app-manual-pipeline/scripts/sync_latex_to_docx.py:718-792 | the body and count after the four steps are those of the reference `MissingBlocksSpec`, with the templates taken on entry |
| LegacyBlocks.AddFlowB | skills/url-app-manual-pipeline/scripts/sync_latex_to_docx.py:758-766 | the Flow B step on the body in place gives the reference `FlowBStep` |
| LegacyBlocks.AddMaintenance | skills/url-app-manual-pipeline/scripts/sync_latex_to_docx.py:768-779 | the Maintenance Notes step uses the anchor `MaintenanceAnchor` and gives the reference `MaintenanceStep` |
| LegacyBlocks.AddBuild | skills/url-app-manual-pipeline/scripts/sync_latex_to_docx.py:781-790 | the Build step gives the reference `BuildStep` |
| LegacyBlocks.RebuildClearsSection | skills/url-app-manual-pipeline/scripts/sync_latex_to_docx.py:818-822 | before the tables go back the links section holds no table and everything outside it is as it was |
| LegacyBlocks.RebuiltCount | skills/url-app-manual-pipeline/scripts/sync_latex_to_docx.py:818-839 | the count is at most one per child of the section plus one per link table, and the body grows by at most one table per link table |
| LegacyBlocks.PlacedTableReads | skills/url-app-manual-pipeline/scripts/sync_latex_to_docx.py:831-837 | a table placed under its heading sits right after it with the given header row and one data row per given row (one blank row when none) |
| LegacyBlocks.RemoveTables | skills/url-app-manual-pipeline/scripts/sync_latex_to_docx.py:818-822 | the removal loop removes exactly the tables of the section and counts them |
| LegacyBlocks.PlaceTables | skills/url-app-manual-pipeline/scripts/sync_latex_to_docx.py:830-837 | the insertion loop is the fold of `PlaceTable` over the link tables in reverse order |
| LegacyBlocks.FindLinksTemplate | skills/url-app-manual-pipeline/scripts/sync_latex_to_docx.py:802-816 | the template is the first table of the links section, else the first table of the body |
| LegacyBlocks.RebuildLinksTables | skills/url-app-manual-pipeline/scripts/sync_latex_to_docx.py:795-839 | the body and count are those of the reference `RebuildSpec` |
| LegacyHeadings.ManualNumberLen | skills/url-app-manual-pipeline/scripts/sync_latex_to_docx.py:461 | the match of `^\s*\d+(\.\d+)*\.?\s*` never reaches past the text |
| LegacyHeadings.RenumberedText | skills/url-app-manual-pipeline/scripts/sync_latex_to_docx.py:461-463 | the typed number is dropped, and what is left gets a leading space unless it is empty or already starts with a space or a tab |
| LegacyHeadings.RenumberedDropsNumber | skills/url-app-manual-pipeline/scripts/sync_latex_to_docx.py:461-463 | "4.2. Title" becomes " Title" |
| LegacyHeadings.RenumberedStable | skills/url-app-manual-pipeline/scripts/sync_latex_to_docx.py:461-463 | the renumbering changes nothing more once no digit follows the leading blanks |
| LegacyHeadings.RenumberedFirstPass | skills/url-app-manual-pipeline/scripts/sync_latex_to_docx.py:461-463 | it is not idempotent in general: "1. 2 Foo" becomes " 2 Foo" on one run ... |
| LegacyHeadings.RenumberedSecondPass | skills/url-app-manual-pipeline/scripts/sync_latex_to_docx.py:461-463 | ... and " Foo" on the next |
| LegacyHeadings.FirstTextRun | skills/url-app-manual-pipeline/scripts/sync_latex_to_docx.py:446-456 | the first run from `i` on that is not a SectionNumber run and holds text |
| LegacyHeadings.NormalizedRunsIsRef | skills/url-app-manual-pipeline/scripts/sync_latex_to_docx.py:445-467 | the run loop rewrites only the first text run, only when a SectionNumber run comes before it and the renumbering changes it, and counts that one change |
| LegacyHeadings.NormalizeHeading | skills/url-app-manual-pipeline/scripts/sync_latex_to_docx.py:442-467 | one child is rewritten at most once, keeps its style and numbering, and a non-heading is left alone |
| LegacyHeadings.NormalizeAllEffect | skills/url-app-manual-pipeline/scripts/sync_latex_to_docx.py:436-468 | only headings change, each at most once, and they stay headings |
| LegacyHeadings.NormalizeHeadingManualNumbers | skills/url-app-manual-pipeline/scripts/sync_latex_to_docx.py:436-468 | the loop on the body in place leaves the reference `NormalizeAll` and its count |
| LegacyHeadings.NumberTitleRuns | skills/url-app-manual-pipeline/scripts/sync_latex_to_docx.py:481-497 | three runs: a SectionNumber run holding the number, a tab run and a title run; the XML text is number + title, the python-docx text number + tab + title |
| LegacyHeadings.SetHeadingNumberAndTitle | skills/url-app-manual-pipeline/scripts/sync_latex_to_docx.py:471-497 | the paragraph gets style `Heading{level}`, keeps its numbering, carries a SectionNumber run and reads number + title |
| LegacyHeadings.SetHeadingTwice | skills/url-app-manual-pipeline/scripts/sync_latex_to_docx.py:471-497 | rewriting a heading twice with the same number and title is rewriting it once |
| LegacyHeadings.EnforceAt | skills/url-app-manual-pipeline/scripts/sync_latex_to_docx.py:521-526 | the found heading is rewritten and counts exactly when its text changed |
| LegacyHeadings.EnforceAllBounds | skills/url-app-manual-pipeline/scripts/sync_latex_to_docx.py:517-527 | the target loop keeps the body's length and counts each target at most once |
| LegacyHeadings.EnforceAtAgain | skills/url-app-manual-pipeline/scripts/sync_latex_to_docx.py:521-526 | a heading already rewritten to its target is rewritten to itself and not counted |
| LegacyHeadings.EnforceHeadingNumbers | skills/url-app-manual-pipeline/scripts/sync_latex_to_docx.py:500-527 | the body and count are those of the fold `EnforceAll` over the twelve fixed targets in order |
| LegacySections.MatchesLegacyItem | skills/url-app-manual-pipeline/scripts/sync_latex_to_docx.py:569-573 | the item loop finds a match exactly when the text is some item, bare or as "{i}. {item}" counting from 1 |
| LegacySections.PruneSectionEffect | skills/url-app-manual-pipeline/scripts/sync_latex_to_docx.py:558-576 | pruning keeps everything outside the section, keeps only entries that are not stale, in order, counts what it removed, and changes nothing when nothing is stale |
| LegacySections.PruneStale | skills/url-app-manual-pipeline/scripts/sync_latex_to_docx.py:561-576 | the removal loop on the body in place leaves the reference pruning and counts the removed children |
| LegacySections.NewItem | skills/url-app-manual-pipeline/scripts/sync_latex_to_docx.py:581-586 | a new item reads its text; a numbered one is a list paragraph on the given numbering id, a cloned one keeps the template's style and numbering |
| LegacySections.NewItemsRead | skills/url-app-manual-pipeline/scripts/sync_latex_to_docx.py:581-586 | one new paragraph per item, each reading as its item, in order |
| LegacySections.PlaceAfter | skills/url-app-manual-pipeline/scripts/sync_latex_to_docx.py:587-589 | the new paragraphs go right after the found heading, one count each; nothing happens when it was not found |
| LegacySections.PlaceAfterLayout | skills/url-app-manual-pipeline/scripts/sync_latex_to_docx.py:587-588 | after the insertion the heading is followed by exactly the new paragraphs and the rest of the body is as it was |
| LegacySections.RewriteListReads | skills/url-app-manual-pipeline/scripts/sync_latex_to_docx.py:545-589 | where the heading is found again after pruning it is followed by one paragraph per item reading as that item; the count is what was removed plus what was inserted |
| LegacySections.RewriteListSection | skills/url-app-manual-pipeline/scripts/sync_latex_to_docx.py:545-589 | the body and count are those of the reference `RewriteListSpec`: nothing without a template or without the heading |
| LegacySections.RemoveRange | skills/url-app-manual-pipeline/scripts/sync_latex_to_docx.py:611-614 | the removal loop drops exactly the section's children and counts each one |
| LegacySections.RewriteBuildReads | skills/url-app-manual-pipeline/scripts/sync_latex_to_docx.py:607-623 | the Build section's old children are gone, one count each, and the Build heading is followed by exactly the build lines |
| LegacySections.RewriteBuild | skills/url-app-manual-pipeline/scripts/sync_latex_to_docx.py:607-623 | the body and count are those of the reference `RewriteBuildSpec` |
| LegacySections.EnumTemplate | skills/url-app-manual-pipeline/scripts/sync_latex_to_docx.py:541-543 | the enumeration template is a list paragraph of the body: the first under Flow A, else the first of the body |
| LegacySections.SectionListsWithoutLists | skills/url-app-manual-pipeline/scripts/sync_latex_to_docx.py:540-605 | without any list paragraph in the body there is no template, and only the Build section is rewritten |
| LegacySections.EnforceSectionListsAndBuild | skills/url-app-manual-pipeline/scripts/sync_latex_to_docx.py:530-625 | the body and count are those of the reference `SectionListsSpec`: Flow A, Flow B, Maintenance Notes, then Build, with templates taken on entry |
| Numbering.MaxDigits | skills/url-app-manual-pipeline/scripts/sync_latex_to_docx.py:884-890 | the value is the largest `int(id)` over the ids that pass `isdigit`, attained by one of them; there is none exactly when no id is numeric |
| Numbering.FreshIdUnused | skills/url-app-manual-pipeline/scripts/sync_latex_to_docx.py:884-890 | one more than `max_attr_int` is a numeric id that no existing id spells |
| NumberingPart.MaxAttrInt | skills/url-app-manual-pipeline/scripts/sync_latex_to_docx.py:884-890 | the loop returns the largest numeric id, or the default when none is numeric |
| Numbering.WithStartOne | skills/url-app-manual-pipeline/scripts/sync_latex_to_docx.py:358-373 | the num ends with its first ilvl-0 override starting at 1, keeps its ids, and reports a change exactly when it did not start at 1 before |
| Numbering.StartOverrideEffect | skills/url-app-manual-pipeline/scripts/sync_latex_to_docx.py:345-373 | a missing numId is reported unchanged; a present num ends starting at 1, every other num is untouched, and a second call reports no change |
| NumberingPart.Part.EnsureNumStartOverride | skills/url-app-manual-pipeline/scripts/sync_latex_to_docx.py:345-373 | the part's nums and the flag are those of `StartOverrideSpec`; the definitions are untouched |
| Numbering.ChosenAbstractQualifies | skills/url-app-manual-pipeline/scripts/sync_latex_to_docx.py:898-925 | a reused definition has the requested format, and a bullet definition whose glyph is blank is never reused |
| Numbering.NewAbstractIdFresh | skills/url-app-manual-pipeline/scripts/sync_latex_to_docx.py:927-933 | a synthesised definition's id is non-empty and no existing definition has it |
| Numbering.EnsureNumIdRestartFresh | skills/url-app-manual-pipeline/scripts/sync_latex_to_docx.py:969-992 | with `restart` a num is always appended under a fresh numeric id, on the settled definition, the old nums kept, and a decimal one restarts at 1 |
| Numbering.ChooseAfterSynthesis | skills/url-app-manual-pipeline/scripts/sync_latex_to_docx.py:898-967 | once a definition is synthesised, the next search for the same format settles on it |
| Numbering.EnsureNumIdStable | skills/url-app-manual-pipeline/scripts/sync_latex_to_docx.py:893-992 | without `restart` asking twice for the same format answers the same numId and changes nothing the second time |
| NumberingPart.Part.EnsureNumIdForFormat | skills/url-app-manual-pipeline/scripts/sync_latex_to_docx.py:893-992 | the part's definitions, nums and the returned numId are those of `EnsureNumIdSpec` |
| NumberingPart.ChooseFrom | skills/url-app-manual-pipeline/scripts/sync_latex_to_docx.py:915-925 | the loop over `abstract_meta` returns the first item in iteration order whose definition qualifies |
| NumberingPart.BuildMetaDict | skills/url-app-manual-pipeline/scripts/sync_latex_to_docx.py:898-913 | the loop builds `abstract_meta`, each id mapping to its last definition that has a level 0 with a format |
| Numbering.DecimalNums | skills/url-app-manual-pipeline/scripts/sync_latex_to_docx.py:296-309 | every collected pair has a non-empty numId whose abstract definition is decimal, at most one per num |
| NumberingPart.CollectDecimalNums | skills/url-app-manual-pipeline/scripts/sync_latex_to_docx.py:296-309 | the loops collect exactly `DecimalNums` |
| Numbering.PrepareOneDecimal | skills/url-app-manual-pipeline/scripts/sync_latex_to_docx.py:323-340 | with one decimal num flow B gets a new num on the same definition, under a fresh numeric id, restarting at 1, the old nums kept |
| Numbering.PrepareTwoDecimals | skills/url-app-manual-pipeline/scripts/sync_latex_to_docx.py:314-319 | with two or more flow A and flow B are the first two decimal nums, and flow B is made to restart at 1 |
| NumberingPart.Part.PrepareDecimalNumIds | skills/url-app-manual-pipeline/scripts/sync_latex_to_docx.py:286-342 | the numIds and the written-back nums are those of `PrepareSpec`; without a write-back the nums are unchanged |
| ManualSpec.BareBlock | skills/url-app-manual-pipeline/scripts/build_manual_spec.py:63-66 | a new block carries the given id and type and nothing else |
| ManualSpec.LastKeyed | skills/url-app-manual-pipeline/scripts/sync_latex_to_docx.py:1018-1023 | the position of the last block with the given key, none when no block has it |
| ManualSpec.IndexByLast | skills/url-app-manual-pipeline/scripts/sync_latex_to_docx.py:1018-1023 | a dict filled block by block holds exactly the keys some block has, each mapped to the LAST such block |
| ManualSpec.BuildIndex | skills/url-app-manual-pipeline/scripts/sync_latex_images_to_docx.py:171-175 | the loop over every section's blocks builds that dict |
| ManualSpec.InsertStable | skills/url-app-manual-pipeline/scripts/validate_manual_spec.py:38 | one insertion step of a stable sort: the new index joins the ordered chain |
| ManualSpec.StableOrder | skills/url-app-manual-pipeline/scripts/validate_manual_spec.py:38 | every index appears once and the chain is ordered by key, ties by position |
| ManualSpec.SortedByOrderSpec | skills/url-app-manual-pipeline/scripts/validate_manual_spec.py:38 | the sorted sections are a permutation of the input ordered by `order` (9999 when absent), ties keeping document order |
| ValidateSpec.FirstMissing | skills/url-app-manual-pipeline/scripts/validate_manual_spec.py:28-30 | the first key of the list that is missing, none exactly when every key is present |
| ValidateSpec.FindMissing | skills/url-app-manual-pipeline/scripts/validate_manual_spec.py:28-30 | the key loop fails on that first missing key |
| ValidateSpec.ValidateManualSpec | skills/url-app-manual-pipeline/scripts/validate_manual_spec.py:21-78 | the walk over meta, the sorted sections and their blocks, then the trace, gives the reference `Validate`: the first failing rule, or the section and block counts |
| ValidateSpec.WalkBlocks | skills/url-app-manual-pipeline/scripts/validate_manual_spec.py:49-67 | the block loop of one section gives `BlocksCheck` |
| ValidateSpec.BlocksCheckSpec | skills/url-app-manual-pipeline/scripts/validate_manual_spec.py:49-67 | a section's blocks pass exactly when each is well formed, its id is new and they are pairwise distinct; the ids seen grow by theirs |
| ValidateSpec.SectionsCheckSpec | skills/url-app-manual-pipeline/scripts/validate_manual_spec.py:36-67 | the sorted sections pass exactly when the k-th has order k, an id, a title and a block list, and all their blocks pass together |
| ValidateSpec.WalkSpec | skills/url-app-manual-pipeline/scripts/validate_manual_spec.py:36-67 | from the start: every section in place, every block well formed, ids distinct, and one id per block counted |
| ValidateSpec.MetaErrorSpec | skills/url-app-manual-pipeline/scripts/validate_manual_spec.py:25-30 | meta passes exactly when it is present with every required key non-empty |
| ValidateSpec.TraceErrorSpec | skills/url-app-manual-pipeline/scripts/validate_manual_spec.py:69-74 | the trace passes exactly when it is present with all three keys |
| ValidateSpec.ValidateExact | skills/url-app-manual-pipeline/scripts/validate_manual_spec.py:21-78 | a spec is accepted exactly when it is well formed in all those respects, and then the counts are the number of sections and of blocks |
| ValidateSpec.IdSetSize | skills/url-app-manual-pipeline/scripts/validate_manual_spec.py:78 | with distinct ids the reported block count is the number of blocks |
| ValidateSpec.ValidOrdersArePermutation | skills/url-app-manual-pipeline/scripts/validate_manual_spec.py:37-41 | in an accepted spec the section orders are exactly 1..n, each used once |
| ValidateSpec.MetaCheckedFirst | skills/url-app-manual-pipeline/scripts/validate_manual_spec.py:25-30 | bad meta is reported before anything else |
| ValidateSpec.TraceCheckedLast | skills/url-app-manual-pipeline/scripts/validate_manual_spec.py:69-74 | a spec rejected only for its trace is accepted once given a complete trace |
| MergeManifest.LastScene | skills/url-app-manual-pipeline/scripts/merge_capture_manifest.py:23 | the position of the last scene with the given figure id, none when no scene has it |
| MergeManifest.SceneIndexLast | skills/url-app-manual-pipeline/scripts/merge_capture_manifest.py:23 | `by_figure` holds exactly the truthy figure ids of the scenes, each mapped to the last scene with it |
| MergeManifest.BuildSceneIndex | skills/url-app-manual-pipeline/scripts/merge_capture_manifest.py:23 | the comprehension, as a loop, builds `SceneIndex` |
| MergeManifest.BlockFateSpec | skills/url-app-manual-pipeline/scripts/merge_capture_manifest.py:29-48 | a block is dropped exactly when it is a figure with no scene, or an images root is given and its image is missing; a dropped one is recorded by figure id or "unknown"; a kept one differs at most in image and caption, and a non-figure not at all |
| MergeManifest.MergeBlocksCount | skills/url-app-manual-pipeline/scripts/merge_capture_manifest.py:26-50 | every block is either kept or recorded as removed |
| MergeManifest.MergeKeepsNonFigures | skills/url-app-manual-pipeline/scripts/merge_capture_manifest.py:29-31 | the non-figure blocks come through unchanged and in order |
| MergeManifest.MergeResolvesFigures | skills/url-app-manual-pipeline/scripts/merge_capture_manifest.py:33-48 | every kept figure has a scene, an image and a caption, and its image is present when an images root is given |
| MergeManifest.MergeIsSubsequence | skills/url-app-manual-pipeline/scripts/merge_capture_manifest.py:26-50 | the kept blocks are the input's blocks in their order, changed at most in image and caption |
| MergeManifest.MergeBlocksIdempotent | skills/url-app-manual-pipeline/scripts/merge_capture_manifest.py:26-50 | merging the kept blocks again keeps them all and removes nothing |
| MergeManifest.MergeSectionsCount | skills/url-app-manual-pipeline/scripts/merge_capture_manifest.py:26-50 | the sections stay, and blocks kept plus blocks removed are the blocks there were |
| MergeManifest.MergeSectionsIdempotent | skills/url-app-manual-pipeline/scripts/merge_capture_manifest.py:26-50 | a second merge of the merged sections changes nothing and removes nothing |
| MergeManifest.AddFallbacksExtends | skills/url-app-manual-pipeline/scripts/merge_capture_manifest.py:52-57 | the fallbacks only grow at the end, with ids that were not there and without repeats |
| MergeManifest.AddFallbacksOnlyDegraded | skills/url-app-manual-pipeline/scripts/merge_capture_manifest.py:54-57 | every added fallback is the figure id of a degraded scene |
| MergeManifest.AddFallbacksCovers | skills/url-app-manual-pipeline/scripts/merge_capture_manifest.py:54-57 | every degraded scene with a figure id ends among the fallbacks |
| MergeManifest.AddFallbacksStable | skills/url-app-manual-pipeline/scripts/merge_capture_manifest.py:54-57 | fallbacks that already cover the degraded scenes are left as they are |
| MergeManifest.MergeCaptureManifest | skills/url-app-manual-pipeline/scripts/merge_capture_manifest.py:18-63 | the loops give the reference `MergeSpec`, and the removed count is the length of the recorded removals |
| MergeManifest.MergeSectionBlocks | skills/url-app-manual-pipeline/scripts/merge_capture_manifest.py:27-50 | the block loop of one section gives `MergeBlocks` |
| MergeManifest.MergeSpecTwice | skills/url-app-manual-pipeline/scripts/merge_capture_manifest.py:18-58 | running the merge twice is running it once, except that the second run records no removals |
| BuildSpec.WithSchemeShape | skills/url-app-manual-pipeline/scripts/build_manual_spec.py:51-54 | the result always has a scheme separator; a url that has one is returned as is, any other gets "https://" in front, and a second application changes nothing |
| BuildSpec.RewriteBlocks | skills/url-app-manual-pipeline/scripts/build_manual_spec.py:78-82 | one rewritten block per block, in order |
| BuildSpec.Rewrite | skills/url-app-manual-pipeline/scripts/build_manual_spec.py:75-83 | the section list keeps its length, rewritten or not |
| BuildSpec.ApplyRewrite | skills/url-app-manual-pipeline/scripts/build_manual_spec.py:69-83 | the loop on the spec gives the reference `Rewrite`; a spec without sections comes back unchanged and succeeds |
| BuildSpec.RewriteAt | skills/url-app-manual-pipeline/scripts/build_manual_spec.py:75-83 | the rewrite succeeds exactly when no level-1 section lacks a title, and then each section is rewritten on its own |
| BuildSpec.RewriteTitleSpec | skills/url-app-manual-pipeline/scripts/build_manual_spec.py:76-77 | a title gains the locale's suffix exactly when it does not already end with it, and only once |
| BuildSpec.RewriteIdempotent | skills/url-app-manual-pipeline/scripts/build_manual_spec.py:69-83 | rewriting an already rewritten spec changes nothing |
| BuildSpec.RewriteTitles | skills/url-app-manual-pipeline/scripts/build_manual_spec.py:76-77 | a level-1 title ends with the suffix, added only when it was missing; other titles are untouched |
| BuildSpec.RewriteParagraphs | skills/url-app-manual-pipeline/scripts/build_manual_spec.py:78-82 | in English every non-empty paragraph ends with a period; in Traditional Chinese blocks are untouched |
| BuildSpec.UniqueIds | skills/url-app-manual-pipeline/scripts/build_manual_spec.py:86-93 | the check passes exactly when every block has an id and the ids are distinct, and what it reports is `FirstFault` over all blocks: the first block in order that lacks an id or repeats one |
| BuildSpec.CheckMore | skills/url-app-manual-pipeline/scripts/build_manual_spec.py:88-93 | the loop over one section's blocks reports `FirstFault` of those blocks from the ids seen so far, and extends the seen ids when it passes |
| BuildSpec.FirstFaultIsFirst | skills/url-app-manual-pipeline/scripts/build_manual_spec.py:86-93 | the reported fault is the first in block order: every block before it has an id not seen before, and the block itself lacks an id or repeats one; nothing is reported exactly when all ids are present, distinct and unseen |
| BuildSpec.FirstFaultAppend | skills/url-app-manual-pipeline/scripts/build_manual_spec.py:88-93 | walking the sections one after another, carrying the seen ids, is walking all their blocks at once |
| BuildSpec.RepeatedNotDistinct | skills/url-app-manual-pipeline/scripts/build_manual_spec.py:91-92 | an id that occurs twice breaks distinctness |
| BuildSpec.SelectedEmpty | skills/url-app-manual-pipeline/scripts/build_manual_spec.py:140-149 | no capability row is chosen exactly when no flag is set |
| BuildSpec.SelectedHas | skills/url-app-manual-pipeline/scripts/build_manual_spec.py:140-148 | a row is chosen exactly when its flag is set |
| BuildSpec.ControlRows | skills/url-app-manual-pipeline/scripts/build_manual_spec.py:140-150 | the rows are the flagged capability rows in their fixed order, or the single "Main Content" row when none is flagged |
| BuildSpec.ControlRowsSpec | skills/url-app-manual-pipeline/scripts/build_manual_spec.py:140-150 | for the four fixed capabilities: none chosen exactly when no flag is set, each chosen exactly when its flag is set |
| BuildSpec.TwoDigits | skills/url-app-manual-pipeline/scripts/build_manual_spec.py:164-168 | `{i:02d}`: the decimal digits of the number, exactly two below 10 and without a leading zero when longer than two |
| BuildSpec.FigureBlocks | skills/url-app-manual-pipeline/scripts/build_manual_spec.py:162-176 | one figure block per scene, numbered from 1 |
| BuildSpec.FigureBlocksShape | skills/url-app-manual-pipeline/scripts/build_manual_spec.py:162-176 | figure blocks have distinct ids, their order is their number, they anchor in "flows", and a scene without a figure id gets `figure_NN` |
| BuildSpec.MaintItems | skills/url-app-manual-pipeline/scripts/build_manual_spec.py:192-205 | the locale's three fixed items, plus the missing-scene note exactly when some scene is degraded |
| BuildSpec.FallbacksSpec | skills/url-app-manual-pipeline/scripts/build_manual_spec.py:267 | the fallbacks are the figure ids of the degraded scenes, empty exactly when none is degraded |
| BuildSpec.BaseSections | skills/url-app-manual-pipeline/scripts/build_manual_spec.py:215-222 | six level-1 sections with the fixed ids, the locale's titles, orders 1 to 6 and the given blocks |
| BuildSpec.InsertAt2 | skills/url-app-manual-pipeline/scripts/build_manual_spec.py:243 | `list.insert(2, x)`: `x` sits at position min(2, length), the elements before it stay in place and the rest move one step on |
| BuildSpec.Arrange | skills/url-app-manual-pipeline/scripts/build_manual_spec.py:224-245 | without insertion the sections are as built; with it the extra section sits third and orders are renumbered 1..n, so contiguous orders stay contiguous |
| BuildSpec.InsertedIds | skills/url-app-manual-pipeline/scripts/build_manual_spec.py:215-245 | after insertion the ids read scope, prerequisites, quick_notes, controls, flows, maintenance, build |
| RenderSpec.Columns | skills/url-app-manual-pipeline/scripts/render_from_spec.py:73-76 | a table always renders with columns: its own when it has some, else the three default ones |
| RenderSpec.Pad | skills/url-app-manual-pipeline/scripts/render_from_spec.py:86-87 | a row is cut or padded with empty cells to exactly the column count, its own cells kept in place |
| RenderSpec.Body | skills/url-app-manual-pipeline/scripts/render_from_spec.py:105 | the body ends with one newline and no trailing blank before it |
| RenderSpec.WidthText | skills/url-app-manual-pipeline/scripts/render_from_spec.py:77-79 | the column width is printed as `0.dd` |
| RenderSpec.TexHeadingKind | skills/url-app-manual-pipeline/scripts/render_from_spec.py:47-52 | a section heading is `\section` exactly for level 1 or less, `\subsection` otherwise |
| RenderSpec.TexRowsAt | skills/url-app-manual-pipeline/scripts/render_from_spec.py:85-87 | the i-th LaTeX row is the i-th data row padded to the column count |
| RenderSpec.MarkdownHashes | skills/url-app-manual-pipeline/scripts/render_from_spec.py:114 | the heading has `max(1, min(6, level))` hashes |
| RenderSpec.MarkdownRowsAt | skills/url-app-manual-pipeline/scripts/render_from_spec.py:137-139 | the i-th markdown row is the i-th data row padded to the column count |
| RenderSpec.NumberedAt | skills/url-app-manual-pipeline/scripts/render_from_spec.py:127-129 | the i-th numbered item reads "{k+i}. item" |
| RenderSpec.StepLabels | skills/url-app-manual-pipeline/scripts/render_from_spec.py:127-129 | numbering starts at 1 and each label spells its position |
| RenderSpec.TexBlockMarkers | skills/url-app-manual-pipeline/scripts/render_from_spec.py:54-104 | each rendered LaTeX block carries exactly one block marker, its own id, and one figure marker exactly when it is a figure |
| RenderSpec.TexSectionsMarkers | skills/url-app-manual-pipeline/scripts/render_from_spec.py:46-104 | the block markers of the LaTeX body are the block ids, section by section, in order, and the figure markers the figure ids |
| RenderSpec.TexMarkersInOrder | skills/url-app-manual-pipeline/scripts/render_from_spec.py:43-105 | reading the LaTeX body's markers gives back every block id and every figure id of the spec in the sorted order, and nothing else; escaped text never starts a marker line |
| RenderSpec.MarkdownBlockMarkers | skills/url-app-manual-pipeline/scripts/render_from_spec.py:116-147 | each rendered markdown block carries exactly its own block marker, and a figure marker exactly when it is a figure |
| RenderSpec.MarkdownMarkersInOrder | skills/url-app-manual-pipeline/scripts/render_from_spec.py:108-148 | the same for the markdown body, provided no paragraph's cleaned text itself starts with a marker tag |
| RenderSpec.OrderedFrom | skills/url-app-manual-pipeline/scripts/render_from_spec.py:45 | the sorted sections are sections of the spec |
| RenderSpec.MetaOr | skills/url-app-manual-pipeline/scripts/render_from_spec.py:161-166 | a meta value when the key is there, the default otherwise |
| RenderSpec.Take | skills/url-app-manual-pipeline/scripts/render_from_spec.py:164 | `[:10]`: the prefix of length at most 10 |
| RenderSpec.Context | skills/url-app-manual-pipeline/scripts/render_from_spec.py:161-169 | the six placeholders in order, each bound to its meta value with the source's default, the date cut to 10 characters |
| RenderSpec.ContextKeys | skills/url-app-manual-pipeline/scripts/render_from_spec.py:162-169 | every key is a placeholder and no key occurs inside a later one |
| RenderSpec.RenderPlain | skills/url-app-manual-pipeline/scripts/render_from_spec.py:171-173 | templates without a double underscore come out unchanged |
| RenderSpec.RenderBodies | skills/url-app-manual-pipeline/scripts/render_from_spec.py:158-173 | templates holding only the body placeholders come out as the rendered bodies |
| RenderSpec.RenderAppTarget | skills/url-app-manual-pipeline/scripts/render_from_spec.py:161-173 | the app-target placeholder becomes the meta value, "Dynamic Manual" when absent |
| RenderSpec.RenderDate | skills/url-app-manual-pipeline/scripts/render_from_spec.py:161-173 | the date placeholder becomes the first ten characters of `generated_at` |
| RenderTemplates.WithSchemeShape | skills/url-app-manual-pipeline/scripts/render_manual_templates.py:40-44 | the stripped url is returned as is when it has a scheme separator, with "https://" in front otherwise; the result always has one and has no surrounding blanks |
| RenderTemplates.WithSchemeIdempotent | skills/url-app-manual-pipeline/scripts/render_manual_templates.py:40-44 | applying it twice is applying it once |
| RenderTemplates.HostTextOf | skills/url-app-manual-pipeline/scripts/render_manual_templates.py:51-52 | an empty network location reads "target app"; one without "www." is kept as is |
| RenderTemplates.Context | skills/url-app-manual-pipeline/scripts/render_manual_templates.py:55-63 | the seven placeholders in order, the two LaTeX ones bound to the escaped app target and host |
| RenderTemplates.ContextKeys | skills/url-app-manual-pipeline/scripts/render_manual_templates.py:55-63 | every key is a placeholder and no key occurs inside a later one, so `__HOST__` never eats into `__HOST_LATEX__` |
| RenderTemplates.LatexKeysEscaped | skills/url-app-manual-pipeline/scripts/render_manual_templates.py:55-70 | the LaTeX placeholders become the escaped app target and host in both outputs |
| RenderTemplates.PlainKeysUnescaped | skills/url-app-manual-pipeline/scripts/render_manual_templates.py:55-74 | the plain placeholders become the unescaped app target and host, and the LaTeX fallback finds nothing left to replace |
| RenderTemplates.OtherKeys | skills/url-app-manual-pipeline/scripts/render_manual_templates.py:55-70 | the date, url and search-query placeholders become their values |
| RenderTemplates.FallbackIdle | skills/url-app-manual-pipeline/scripts/render_manual_templates.py:73-74 | the fallback pass leaves a text without a double underscore alone |
| RenderTemplates.RenderPlain | skills/url-app-manual-pipeline/scripts/render_manual_templates.py:65-77 | templates without a double underscore come out unchanged |
| Placeholders.SubstituteNoDouble | skills/url-app-manual-pipeline/scripts/render_from_spec.py:171-173 | the replacement loop leaves a text without a double underscore unchanged |
| Placeholders.SubstituteEachKey | skills/url-app-manual-pipeline/scripts/render_from_spec.py:171-173 | each key, when no earlier key occurs inside it, becomes exactly its value, provided the value has no double underscore for a later key to match |
| Placeholders.KeyNotInKey | skills/url-app-manual-pipeline/scripts/render_manual_templates.py:55-63 | one placeholder never occurs inside another that differs from it early or in length |
| Placeholders.SpecKeys | skills/url-app-manual-pipeline/scripts/render_from_spec.py:162-169 | the six names of the spec renderer are placeholders |
| Placeholders.TemplateKeys | skills/url-app-manual-pipeline/scripts/render_manual_templates.py:55-63 | the seven names of the template filler are placeholders |

## Left out

- `capture_manual_screens.py` is not part of this model. It drives a browser, navigates the network and takes screenshots; the model takes its manifest as input.
- The multi-line LaTeX searches are not modelled: `get_itemize`, `get_table` and `get_enumerate` (`sync_latex_to_docx.py:77-110`) and the `\screenshotbox` scan (`sync_latex_images_to_docx.py:40-41`). They are non-greedy `re.S` regexes over the whole file. Their matched bodies and groups are inputs; the line-level row and item extraction and `clean_latex_text` are modelled.
- Zip and XML persistence is not modelled: opening the .docx package, parsing and serialising `word/document.xml` and `word/numbering.xml`, `write_docx_with_updated_document_xml` (`sync_latex_to_docx.py:842-860`) and `doc.save`. The body and the numbering part are taken as already parsed. A package without a readable numbering part is the `None` input of `Numbering.PrepareSpec`.
- `legacy_main` (`sync_latex_to_docx.py:1127-1175`) is not composed into one member. Each of its steps is a method of its own with its proved contract, but the model does not chain the twelve steps or sum their counts. Its "body not found" abort is named by the fault `BodyMissing`, which no member returns. The `--dry-run` switch and the final write are I/O.
- python-docx and lxml details are abstracted. A style is a name. A drawing is a boolean on the paragraph. Alignment, `Inches(6.2)`, run properties other than the character style, bookmarks and `xml:space` are not modelled.
- Style assignment inside `try/except` (`sync_latex_images_to_docx.py:81-85, 203-208, 259-264`) is modelled by a set `styles` of the style names the document defines. Assigning a name in the set succeeds; any other name fails and leaves the paragraph unstyled. Other causes of an exception are not modelled.
- File existence is an oracle `present: string -> bool`. It stands for `(tex_dir / image_rel).resolve().exists()` in the images script, and for `(images_root / basename(image_rel)).exists()` in the manifest merge. Path resolution and basename extraction are not modelled.
- `urlparse(...).netloc`, `datetime.now`/`date.today` and the seeded `random.Random` draw in `build_manual_spec.py:99-109, 225` and `render_manual_templates.py:50-56` are parameters: the network location, the date text and the insertion choice.
- The assembly of the whole spec in `build_manual_spec.py:main` (the fixed English and Chinese texts of the scope, prerequisite, flow and build blocks, the meta record and the `rules_used` list) is not composed into one member. Its rules are modelled one by one: capability rows, figure blocks, maintenance items, fallbacks, the base sections, the insertion and renumbering, the unique-id check and the rewrite.
- JSON loading and dumping, argparse, printed reports and exit codes are not modelled. A failed check is an `Err` value; `SystemExit` and `ValueError` are not raised.
- ValidateSpec.ValidateManualSpec: the typed JSON abstraction merges a `null` value with an absent key. `validate_manual_spec.py:72-74` accepts a trace whose three keys are present but `null`; the model rejects it. Meta values are strings, so a non-string truthy value such as a number is not represented. A section's and a figure's `order` is an integer, so `"1"` and `1.0` are not represented. A value of the wrong JSON type (a `blocks` string, a `meta` list) is modelled as absent.
- ValidateSpec.Validate: the same typed-JSON abstraction as `ValidateManualSpec`.
- BuildSpec.FigureBlocks: the typed JSON abstraction merges `null` with an absent key. A `null` `scene_type` gives "...: None" in the caption of `build_manual_spec.py:165` and "scene" in the model; a `null` `image_rel` stays `null` at line 172 and is "" in the model.
- MergeManifest.BlockFateSpec: a scene whose `caption` is `null` sets the block's caption to `None` at `merge_capture_manifest.py:47`; the model writes the block's caption, or "".
- MergeManifest.MergeCaptureManifest: the same `null` caption abstraction as `BlockFateSpec`.
- RenderSpec.RenderBodies: a `null` title reaches `tex_escape` or `clean_md` in `render_from_spec.py:48,113` and raises there, and a `null` block id is emitted as "None" at lines 55 and 117; the model uses "Untitled" and "unknown" as for an absent key.
- RenderSpec.TexMarkersInOrder: a `null` block id reads "None" in the script and "unknown" in the model.
- RenderSpec.MarkdownMarkersInOrder: the same `null` block id abstraction.
- FigureSync.DynEmbedded: a figure block whose `caption` is `null` gets the caption "Figure n. None" at `sync_latex_images_to_docx.py:201`; the model uses "".
- FigureSync.SyncDynamic: the same `null` caption abstraction as `DynEmbedded`.
- ManualSpec.SortedByOrderSpec: a section whose `order` is `null` makes `sorted` compare `None` with a number and raise `TypeError` when there are two or more sections; the model sorts it as 9999, as for an absent key.
- DocTree.ElementWithText: on a table child `set_paragraph_text` (`sync_latex_to_docx.py:150-163`) removes every child of the table and appends a stray text run to it. The model gives a table without rows and does not represent the run.
- Strings.IsSpace: ASCII whitespace only (space, \t, \n, \r, \v, \f). Python's `str.strip()` and `\s` also remove U+001C-U+001F, U+0085, U+00A0, U+1680, U+2000-U+200A, U+2028, U+2029, U+202F, U+205F and U+3000. So a token paragraph starting with a no-break space resolves in Python and is skipped in the model. The same holds for `canonical`, the heading-number patterns, `clean_latex_text`, `clean_md` and the bodies' `rstrip`.
- Strings.Strip: inherits the ASCII-only whitespace of `IsSpace`.
- Strings.IsDigit: ASCII `0-9` only. Python's `\d` and `str.isdigit()` accept other Unicode digits.
- Strings.Lower: folds ASCII letters only. Python's `str.lower()` folds every cased letter.
- LatexSource.TableRows: splits on `'\n'` only. `str.splitlines()` (`sync_latex_to_docx.py:94`) also breaks on \r, \v, \f, U+001C-U+001E, U+0085, U+2028 and U+2029.
- LatexSource.ExtractRows: the same line splitting as `TableRows`.
- LegacyTables: when the overwrite of a table raises `IndexError`, the script dies before saving. The model reports the fault up front and does not model the rows already written, which are never saved.
- RenderSpec: `int(section.get("level", 1))` is modelled on an integer level. A level given as a numeric string and the `ValueError` of a non-numeric one are not modelled.
- RenderSpec.WidthText: `f"{0.92 / n:.2f}"` is modelled as 92/n hundredths rounded half up. Its contract states only the `0.dd` shape. The agreement with IEEE double rounding (ties only at n = 8 and n = 184) is argued in its comment, not proved.
- The numbering allocator's new abstract definitions carry only what the model reads back (id, level 0, format and level text). The `multiLevelType`, `start`, `lvlJc`, indentation and the bullet font are not modelled.

## Findings

| source | as written | input that shows it | evidently intended | confidence | as-written member | corrected member |
|---|---|---|---|---|---|---|
| skills/url-app-manual-pipeline/scripts/sync_latex_to_docx.py:654-658 | the growth loop inserts one clone of the first list paragraph, then resets `list_idxs` to the full length, so the run grows by at most one paragraph | a heading whose list has 2 paragraphs, synced with 4 items: the overwrite runs past the run (an `IndexError` at the end of the body, otherwise the heading or table after the list is overwritten) | grow the run by one clone per missing item, so each item gets its own list paragraph and nothing after the run is touched | not executed | LegacyLists.SyncListShortfallFails, LegacyLists.SyncListOverwritesFollower | LegacyLists.SyncListIntended, LegacyLists.SyncListIntendedCorrect |
| skills/url-app-manual-pipeline/scripts/sync_latex_to_docx.py:758-765 | the missing Flow B block is inserted right after the Flow A heading | a body where the Flow A heading is followed by its numbered steps and other content: Flow A's section becomes empty and its content ends up under Flow B; the later `enforce_section_lists_and_build` pass (`sync_latex_to_docx.py:589-602`) writes Flow A's list steps back after its heading, so only Flow A's non-list content stays misplaced | insert Flow B after the end of Flow A's section | not executed | LegacyBlocks.FlowBEmptiesFlowA | LegacyBlocks.FlowBStepIntended, LegacyBlocks.FlowBIntendedKeepsFlowA |
| skills/url-app-manual-pipeline/scripts/render_from_spec.py:20-36 | the escape replaces in table order with the backslash first, so the braces of `\textbackslash{}` are escaped again by the later brace entries | the text `\` becomes `\textbackslash\{\}`, which LaTeX typesets as a backslash followed by `{}` | escape each character once: a backslash becomes `\textbackslash{}` and LaTeX reads the text back unchanged | not executed | TexEscape.EscapeAsWritten, TexEscape.BackslashAsWrittenMisreads | TexEscape.Escape, TexEscape.UnescapeEscape |
| skills/url-app-manual-pipeline/scripts/render_manual_templates.py:21-37 | the same ordered table as `tex_escape` | a network location containing `\` gives `\textbackslash\{\}` in `__HOST_LATEX__` | the same one-pass escape | not executed | TexEscape.EscapeAsWritten, TexEscape.BackslashAsWrittenMisreads | TexEscape.Escape, TexEscape.UnescapeEscape |

The renderers keep the escape as written (`EscapeAsWritten`), so their contracts describe what the scripts emit. `Escape` is the corrected escape. `EscapesAgree` proves that the two agree on every text without a backslash.

Two further properties are stated as lemmas rather than findings. `Canonical.FigureCanonicalNotIdempotent` shows that the images script's `canonical` (`sync_latex_images_to_docx.py:24-26`) is not idempotent: "1 2x" becomes "2x", then "x". `LegacyHeadings.RenumberedFirstPass` and `RenumberedSecondPass` show that the heading renumbering strips a further number on a second run.
