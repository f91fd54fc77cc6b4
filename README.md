# sphinxcontrib-autodoc_doxygen in Dafny

This project models two parts of the Sphinx extension that turns Doxygen XML
output into reStructuredText, and proves properties of each.

## What is modelled

**The paragraph formatter.** This is `_DoxygenXmlParagraphFormatter` and
`format_xml_paragraph` in `xmlutils.py`. The formatter walks an XML fragment.
It fills a line buffer that starts as `['']`. A `continue_line` flag decides
whether the next text joins the last line or starts a new one. Each tag has
its own handler, and `generic_visit` is the fallback. There are handlers for:
- paragraphs and cross-references;
- formulas, parameter names and parameter lists;
- simple sections and sections 1 to 4;
- list items, preformatted text and computer output;
- deprecation cross-reference sections and subscripts;
- tables, whose layout computes column widths and draws `+---+` borders.

The model has two layers:
- `FormatSpec` states each handler as a pure function over `Fmt(lines, cont)`.
- `XmlUtils.ParagraphFormatter` is a class with the same two mutable fields.
  Each of its methods is proved to leave exactly the state the matching
  `FormatSpec` function computes. `visit_table` keeps its in-place `widths`
  array.

Python exceptions are modelled as `Err` values of a `Fault` datatype, not as
preconditions. Examples: `None` text where a string is concatenated, a
missing `xreftitle`, or a cell index beyond `cols`. So every entry point is
total, and the error paths are proved as well.

`FormatProperties`, `TableLayout` and `Strings` hold the lemmas about the
specification.

**Where the code departs from its design description.** The model follows
the code in each of these cases:
- Table cells are not rendered by a fresh formatter. `visit_table` reuses
  the same formatter and resets only `lines`. So `continue_line` carries
  from one cell to the next, and out of the table
  (`xmlutils.py:201-203`). Only `visit_parameterlist` and `visit_xrefsect`
  start a fresh formatter.
- The root node goes through `generic_visit`, never through its own tag's
  handler (`xmlutils.py:18`).
- A reference is always looked up by its id over the whole tree. No
  reference-kind attribute selects the lookup.
- An unsupported target kind writes `(unimplemented link)` before the
  caption, not after it. It writes no tail.
- An unresolved reference uses the same `:cpp:any:` role as a resolved
  one, without the `<target>` part. So does a compound whose name is empty,
  because `if real_name:` treats `''` as absent.
- Inside a paragraph, a reference's tail is written twice: once by
  `visit_ref`, and once by `visit_para`.
- `visit_subscript` writes a missing text or tail as `None`, because of `%`
  formatting.

**The autosummary scanner.** This is `find_autosummary_in_lines` in
`autosummary/generate.py`. It reads a document line by line and collects
`(name, toctree, template)` triples from `.. autodoxysummary::` blocks.
- Its four regular expressions are written out as string functions.
- One loop iteration is the function `Step`, and the whole loop is the left
  fold `Scan`.
- The method `FindAutosummaryInLines` keeps the source's loop, with its
  `continue`s, and is proved equal to `Scan`.

Two small expressions from the same file are pure helpers:
- the shortening of the printed source list;
- the suffix normalisation of generated file names.

`GenerateProperties` proves what the scanner promises:
- entries come in line order, one per line;
- every item line of an open block is recorded;
- each entry carries the options of its own block;
- directive lines reset the options;
- option lines are skipped;
- a block stays open or closes exactly as the source's conditions say.

**Inputs.**
- An XML element is `Xml.Node`: a tag, an attribute map, optional `text` and
  `tail`, and children.
- The global Doxygen tree, `get_doxygen_root()`, is reduced to a read-only
  `Symbols.SymbolIndex`. It maps an element id to the kind and names of that
  element.
- `os.path.join(os.path.dirname(filename), toctree)` is a function parameter,
  `joinDir`.

## Model

| member | source | states |
|---|---|---|
| Strings.LStrip | sphinxcontrib/autodoc_doxygen/xmlutils.py:75 | the result is a suffix of the input; what was dropped is whitespace; the result does not start with whitespace |
| Strings.RStrip | sphinxcontrib/autodoc_doxygen/xmlutils.py:18 | the result is a prefix of the input; what was dropped is whitespace; the result does not end with whitespace |
| Strings.Split | sphinxcontrib/autodoc_doxygen/xmlutils.py:166 | `str.split('\n')` yields at least one piece |
| Strings.SplitJoin | sphinxcontrib/autodoc_doxygen/xmlutils.py:166 | joining the pieces of a split with the separator gives back the text |
| Strings.SplitCount | sphinxcontrib/autodoc_doxygen/xmlutils.py:166-168 | a split yields one piece more than the text has separators |
| Strings.Indent | sphinxcontrib/autodoc_doxygen/xmlutils.py:168 | every line gets the prefix and keeps its order; the count is unchanged |
| Strings.Repeat | sphinxcontrib/autodoc_doxygen/xmlutils.py:137 | `n * c` for a character: length `max(n, 0)`, every character `c` |
| Strings.ReplaceChar | sphinxcontrib/autodoc_doxygen/xmlutils.py:248 | `str.replace` for one character: same length; each replaced character becomes the new one and every other is kept |
| Strings.RStripAll | sphinxcontrib/autodoc_doxygen/xmlutils.py:18 | element-wise `rstrip` of a list: same length, each line is the `rstrip` of its original |
| Strings.StripParts | sphinxcontrib/autodoc_doxygen/autosummary/generate.py:148-149 | a string is leading whitespace, its `strip()`, then trailing whitespace |
| Strings.LStripAfterSpace | sphinxcontrib/autodoc_doxygen/xmlutils.py:75 | `lstrip` drops exactly a whitespace prefix in front of a non-space character |
| Strings.RStripBeforeSpace | sphinxcontrib/autodoc_doxygen/xmlutils.py:18 | `rstrip` drops exactly a whitespace suffix behind a non-space character |
| Strings.ConcatAppend | sphinxcontrib/autodoc_doxygen/xmlutils.py:166 | `''.join` of a concatenation of lists is the join of each |
| Xml.Find | sphinxcontrib/autodoc_doxygen/xmlutils.py:171 | `node.find(tag)` returns a child with that tag, and None exactly when no child has it |
| Xml.FirstWithTag | sphinxcontrib/autodoc_doxygen/xmlutils.py:171 | the found child is the first one with the tag |
| Symbols.Resolve | sphinxcontrib/autodoc_doxygen/xmlutils.py:43-58 | an id missing from the index gives no name; a memberdef gives `compoundname::name`; a compounddef or enumvalue gives its own name; any other element is unsupported |
| FormatSpec.AppendToLast | sphinxcontrib/autodoc_doxygen/xmlutils.py:68 | `lines[-1] += x` keeps the line count and every line but the last, and extends the last by `x` |
| FormatSpec.ParaText | sphinxcontrib/autodoc_doxygen/xmlutils.py:70-75 | None leaves the buffer unchanged; with `continue_line` only the last line changes, by the text; otherwise exactly one line, `text.lstrip()`, is appended; the flag is kept |
| FormatSpec.Visit | sphinxcontrib/autodoc_doxygen/xmlutils.py:32-35 | dispatch by tag; no handler removes a line |
| FormatSpec.GenericVisit | sphinxcontrib/autodoc_doxygen/xmlutils.py:37-40 | visits the children in order; no line is removed |
| FormatSpec.VisitPara | sphinxcontrib/autodoc_doxygen/xmlutils.py:77-87 | the line count grows; the last line is `''` and `continue_line` is false afterwards |
| FormatSpec.VisitRef | sphinxcontrib/autodoc_doxygen/xmlutils.py:42-68 | it fails exactly when the text is None; the line count and the flag are kept; an unresolved id appends ``:cpp:any:`text` `` and the tail; a member appends `text <compound::name>` in the role and the tail; a compound or enum value appends `text <name>` in the role and the tail, or the role without a target when its name is empty or missing; an unsupported kind appends `(unimplemented link)` and the text, without the tail |
| FormatSpec.DropEnds | sphinxcontrib/autodoc_doxygen/xmlutils.py:93-102 | `s[k:-k]`: the middle part when the string is long enough, `''` otherwise |
| FormatSpec.VisitFormula | sphinxcontrib/autodoc_doxygen/xmlutils.py:89-108 | it fails exactly when the text is None. Block math keeps the buffer and adds three lines, `''`, `.. math:: ` with the stripped formula (its `\[` and `\]` dropped when it starts with `\[`), and `''`, and closes the line. Inline math keeps the line open and ends the last line (or a new one) with ``:math:`…` `` holding the stripped formula without its outer characters, stripped again |
| FormatSpec.VisitParameterName | sphinxcontrib/autodoc_doxygen/xmlutils.py:110-119 | one line is appended after the kept buffer and `continue_line` becomes true; the line is `:param name: ` followed by `[direction] ` when the attribute is present, with a missing name printed as `None` |
| FormatSpec.DropEmpty | sphinxcontrib/autodoc_doxygen/xmlutils.py:122 | no `''` is kept, and every other line is kept as often as it occurs |
| FormatSpec.DropEmptyAppend | sphinxcontrib/autodoc_doxygen/xmlutils.py:122 | filtering a concatenation filters each part |
| FormatSpec.DropEmptyKeepsOrder | sphinxcontrib/autodoc_doxygen/xmlutils.py:122 | every non-empty line is kept at the position given by the non-empty lines before it, so the kept lines are in their original order |
| FormatSpec.VisitParameterList | sphinxcontrib/autodoc_doxygen/xmlutils.py:121-123 | the buffer grows by at least the two bracketing blank lines; the content is `FormatProperties.ParameterListBlock` |
| FormatSpec.VisitSimpleSect | sphinxcontrib/autodoc_doxygen/xmlutils.py:125-129 | no line is removed |
| FormatSpec.VisitSect | sphinxcontrib/autodoc_doxygen/xmlutils.py:131-140 | no line is removed |
| FormatSpec.VisitListItem | sphinxcontrib/autodoc_doxygen/xmlutils.py:154-157 | at least one line, the bullet, is added |
| FormatSpec.JoinParts | sphinxcontrib/autodoc_doxygen/xmlutils.py:160-166 | `''.join(segment)` fails with TypeError exactly when some part is None; otherwise it is the parts concatenated in order |
| FormatSpec.VisitPreformatted | sphinxcontrib/autodoc_doxygen/xmlutils.py:159-168 | at least the two directive lines are added |
| FormatSpec.VisitComputerOutput | sphinxcontrib/autodoc_doxygen/xmlutils.py:170-175 | with a preformatted child it is exactly `visit_preformatted` of that child; without one it fails exactly when the text is None, and otherwise only the last line changes, extended by ` ``text`` ` |
| FormatSpec.VisitXrefSect | sphinxcontrib/autodoc_doxygen/xmlutils.py:177-182 | a missing title is an AttributeError; a title other than Deprecated is a ValueError; otherwise the buffer is kept, the admonition line follows, and line `k` of the fresh rendering follows as `'   '` plus that line, for every `k` |
| FormatSpec.VisitSubscript | sphinxcontrib/autodoc_doxygen/xmlutils.py:184-185 | only the last line changes: it is extended by ``\ :sub:`text` `` followed by a space and the tail, where a missing text or tail each print as `None`; the line count and the flag are kept |
| FormatSpec.RenderRow | sphinxcontrib/autodoc_doxygen/xmlutils.py:200-206 | a rendered row has at most `cols` cells, and every cell has at least one line |
| FormatSpec.RenderRows | sphinxcontrib/autodoc_doxygen/xmlutils.py:198-208 | every rendered row fits the column count, and every cell has a line |
| FormatSpec.ParseInt | sphinxcontrib/autodoc_doxygen/xmlutils.py:189 | a literal is not blank and its stripped form ends in a digit; only a leading minus makes it negative |
| FormatSpec.ParseIntDecimal | sphinxcontrib/autodoc_doxygen/xmlutils.py:189 | every integer written in decimal, with any whitespace around it, reads back as itself |
| FormatSpec.DigitsRoundTrip | sphinxcontrib/autodoc_doxygen/xmlutils.py:189 | the digits of a natural number read back as that number |
| FormatSpec.ColumnCount | sphinxcontrib/autodoc_doxygen/xmlutils.py:189 | a missing `cols` is a TypeError; otherwise the count is the parsed literal, and a text that is no literal is a ValueError |
| FormatSpec.LayOut | sphinxcontrib/autodoc_doxygen/xmlutils.py:233-256 | no rows is an IndexError and an empty row a ValueError, and these are the only failures; otherwise the grid is `TableLayout.Block`: blank first and last, the `-` border, the header row's lines, then the `=` border |
| FormatSpec.VisitTable | sphinxcontrib/autodoc_doxygen/xmlutils.py:187-256 | no line is removed |
| FormatSpec.FormatXmlParagraph | sphinxcontrib/autodoc_doxygen/xmlutils.py:5-18 | fails exactly when the root's `generic_visit` fails; otherwise returns as many lines as the buffer, each a prefix of its buffer line that drops only whitespace and does not end in whitespace |
| TableLayout.MaxLen | sphinxcontrib/autodoc_doxygen/xmlutils.py:206 | the longest line of a cell: no line is longer, and a non-empty cell has a line this long |
| TableLayout.Zeros | sphinxcontrib/autodoc_doxygen/xmlutils.py:195 | `[0] * cols`: `max(cols, 0)` zeros |
| TableLayout.WidenRow | sphinxcontrib/autodoc_doxygen/xmlutils.py:200-206 | the width list keeps its length |
| TableLayout.WidenRowAt | sphinxcontrib/autodoc_doxygen/xmlutils.py:206 | a row widens column `i` to at least its cell's longest line plus 2, and leaves the columns it has no cell in unchanged |
| TableLayout.ColumnWidths | sphinxcontrib/autodoc_doxygen/xmlutils.py:195-208 | one width per column |
| TableLayout.ColumnWidthsExact | sphinxcontrib/autodoc_doxygen/xmlutils.py:195-208 | each width is at least every line of its column plus 2, and is either 0 or exactly some cell's longest line plus 2 |
| TableLayout.LineCount | sphinxcontrib/autodoc_doxygen/xmlutils.py:212 | the number of lines a row takes: no cell has more, and some cell has that many |
| TableLayout.BorderWithShape | sphinxcontrib/autodoc_doxygen/xmlutils.py:238-241 | a border is `1 + sum(width + 1)` long and made only of `+` and the fill character |
| TableLayout.HeaderBorderIsEquals | sphinxcontrib/autodoc_doxygen/xmlutils.py:248 | `sep.replace('-', '=')` is the border drawn with `=` |
| TableLayout.ReplaceAppend | sphinxcontrib/autodoc_doxygen/xmlutils.py:248 | replacing characters commutes with concatenation |
| TableLayout.CellLineLength | sphinxcontrib/autodoc_doxygen/xmlutils.py:218-225 | a cell slot of a row line is exactly its column width |
| TableLayout.CellsLineLength | sphinxcontrib/autodoc_doxygen/xmlutils.py:216-227 | a row line of the first `n` cells is `1 + sum(width + 1)` long over those columns |
| TableLayout.RowLinesShape | sphinxcontrib/autodoc_doxygen/xmlutils.py:210-231 | a row gives as many lines as its tallest cell, each as long as the border over its columns |
| TableLayout.CellLineShowsText | sphinxcontrib/autodoc_doxygen/xmlutils.py:220 | a valid cell line shows its text after one space |
| TableLayout.BodyLinesCount | sphinxcontrib/autodoc_doxygen/xmlutils.py:251-253 | the body takes the rows' heights plus one border per row |
| TableLayout.BlockShape | sphinxcontrib/autodoc_doxygen/xmlutils.py:233-256 | the table starts and ends with `''`; the border follows the first blank; the header rows follow it; then the `=` border |
| XmlUtils.ParagraphFormatter.constructor | sphinxcontrib/autodoc_doxygen/xmlutils.py:28-30 | a new formatter holds `['']` and `continue_line` false |
| XmlUtils.ParagraphFormatter.ParaText | sphinxcontrib/autodoc_doxygen/xmlutils.py:70-75 | the new state is the one `FormatSpec.ParaText` computes from the old one |
| XmlUtils.ParagraphFormatter.Visit | sphinxcontrib/autodoc_doxygen/xmlutils.py:32-35 | the new state, or the fault raised, is `FormatSpec.Visit` of the old state |
| XmlUtils.ParagraphFormatter.GenericVisit | sphinxcontrib/autodoc_doxygen/xmlutils.py:37-40 | the new state or the fault is `FormatSpec.GenericVisit` of the old state |
| XmlUtils.ParagraphFormatter.VisitPara | sphinxcontrib/autodoc_doxygen/xmlutils.py:77-87 | the new state or the fault is `FormatSpec.VisitPara` of the old state |
| XmlUtils.ParagraphFormatter.VisitRef | sphinxcontrib/autodoc_doxygen/xmlutils.py:42-68 | the new state or the fault is `FormatSpec.VisitRef` of the old state |
| XmlUtils.ParagraphFormatter.VisitFormula | sphinxcontrib/autodoc_doxygen/xmlutils.py:89-108 | the new state or the fault is `FormatSpec.VisitFormula` of the old state |
| XmlUtils.ParagraphFormatter.VisitParameterName | sphinxcontrib/autodoc_doxygen/xmlutils.py:110-119 | the new state is `FormatSpec.VisitParameterName` of the old state: the buffer with one `:param name: [direction] ` line appended, and `continue_line` true |
| XmlUtils.ParagraphFormatter.VisitParameterList | sphinxcontrib/autodoc_doxygen/xmlutils.py:121-123 | the new state or the fault is `FormatSpec.VisitParameterList` of the old state |
| XmlUtils.ParagraphFormatter.VisitSimpleSect | sphinxcontrib/autodoc_doxygen/xmlutils.py:125-129 | the new state or the fault is `FormatSpec.VisitSimpleSect` of the old state |
| XmlUtils.ParagraphFormatter.VisitSect | sphinxcontrib/autodoc_doxygen/xmlutils.py:131-152 | the new state or the fault is `FormatSpec.VisitSect` of the old state |
| XmlUtils.ParagraphFormatter.VisitListItem | sphinxcontrib/autodoc_doxygen/xmlutils.py:154-157 | the new state or the fault is `FormatSpec.VisitListItem` of the old state |
| XmlUtils.ParagraphFormatter.VisitPreformatted | sphinxcontrib/autodoc_doxygen/xmlutils.py:159-168 | the new state or the fault is `FormatSpec.VisitPreformatted` of the old state |
| XmlUtils.ParagraphFormatter.VisitComputerOutput | sphinxcontrib/autodoc_doxygen/xmlutils.py:170-175 | the new state or the fault is `FormatSpec.VisitComputerOutput` of the old state |
| XmlUtils.ParagraphFormatter.VisitXrefSect | sphinxcontrib/autodoc_doxygen/xmlutils.py:177-182 | the new state or the fault is `FormatSpec.VisitXrefSect` of the old state |
| XmlUtils.ParagraphFormatter.VisitSubscript | sphinxcontrib/autodoc_doxygen/xmlutils.py:184-185 | the new state is `FormatSpec.VisitSubscript` of the old state |
| XmlUtils.ParagraphFormatter.VisitTable | sphinxcontrib/autodoc_doxygen/xmlutils.py:187-256 | the new state or the fault is `FormatSpec.VisitTable` of the old state |
| XmlUtils.ParagraphFormatter.RenderRows | sphinxcontrib/autodoc_doxygen/xmlutils.py:195-208 | the rendered rows and the flag are those of `FormatSpec.RenderRows`, and the widths are `TableLayout.ColumnWidths` of them |
| XmlUtils.ParagraphFormatter.RenderEntries | sphinxcontrib/autodoc_doxygen/xmlutils.py:199-206 | one row's cells are those of `FormatSpec.RenderRow`, and the `widths` array is widened by exactly that row |
| XmlUtils.ParagraphFormatter.AppendTable | sphinxcontrib/autodoc_doxygen/xmlutils.py:233-256 | the buffer grows by exactly the laid-out table, and `continue_line` is kept |
| XmlUtils.EntryFails | sphinxcontrib/autodoc_doxygen/xmlutils.py:202 | a cell whose rendering fails makes the whole row fail with that fault |
| XmlUtils.EntryBeyond | sphinxcontrib/autodoc_doxygen/xmlutils.py:206 | a cell beyond `cols` raises IndexError |
| XmlUtils.Border | sphinxcontrib/autodoc_doxygen/xmlutils.py:238-241 | the loop builds exactly `TableLayout.Border` |
| XmlUtils.AppendBody | sphinxcontrib/autodoc_doxygen/xmlutils.py:251-253 | fails, with ValueError from `max()`, exactly when a body row is empty; otherwise gives `TableLayout.BodyLines` |
| XmlUtils.AppendRow | sphinxcontrib/autodoc_doxygen/xmlutils.py:210-231 | an empty row raises ValueError from `max()`; any other row gives `TableLayout.RowLines` |
| XmlUtils.FormatXmlParagraph | sphinxcontrib/autodoc_doxygen/xmlutils.py:5-18 | the result is `FormatSpec.FormatXmlParagraph` |
| FormatProperties.ParaTextGrows | sphinxcontrib/autodoc_doxygen/xmlutils.py:70-75 | `para_text` only appends lines or extends the last one |
| FormatProperties.VisitGrows | sphinxcontrib/autodoc_doxygen/xmlutils.py:32-256 | every handler keeps all lines but the last, and the last becomes a prefix of its new value |
| FormatProperties.GenericGrows | sphinxcontrib/autodoc_doxygen/xmlutils.py:37-40 | the same for `generic_visit` |
| FormatProperties.ParaGrows | sphinxcontrib/autodoc_doxygen/xmlutils.py:77-87 | the same for `visit_para` |
| FormatProperties.SectGrows | sphinxcontrib/autodoc_doxygen/xmlutils.py:131-140 | the same for `visit_sect` |
| FormatProperties.TableGrows | sphinxcontrib/autodoc_doxygen/xmlutils.py:187-256 | the same for `visit_table` |
| FormatProperties.RootGrows | sphinxcontrib/autodoc_doxygen/xmlutils.py:18 | the rendering of a root extends the initial `['']` |
| FormatProperties.ParaChildrenContinue | sphinxcontrib/autodoc_doxygen/xmlutils.py:83-85 | after the first child of a paragraph `continue_line` is true |
| FormatProperties.InertTailsContinue | sphinxcontrib/autodoc_doxygen/xmlutils.py:83-85 | children without handler output add just their tails to the open last line |
| FormatProperties.ParaOfInertChildren | sphinxcontrib/autodoc_doxygen/xmlutils.py:77-87 | such a paragraph is the stripped text on a new line, then the stripped first tail and the later tails, then `''` |
| FormatProperties.RefTailTwiceInPara | sphinxcontrib/autodoc_doxygen/xmlutils.py:65-85 | in a paragraph the tail of a reference is written twice, by `visit_ref` and again by `visit_para` |
| FormatProperties.SectTitleLines | sphinxcontrib/autodoc_doxygen/xmlutils.py:131-140 | a titled section adds the title and an underline of the same length in the level character |
| FormatProperties.SectLevels | sphinxcontrib/autodoc_doxygen/xmlutils.py:142-152 | sect1 to sect4 underline with `=`, `-`, `^` and `"`; a bare `sect` has no level |
| FormatProperties.SectOutput | sphinxcontrib/autodoc_doxygen/xmlutils.py:131-140 | without a title a section is its `generic_visit`; a title without text is a TypeError; otherwise the title, its underline and `''` are appended before the children are visited |
| FormatProperties.SimpleSectOutput | sphinxcontrib/autodoc_doxygen/xmlutils.py:125-129 | a `return` section appends `:returns: `, opens the line and then visits the children, so its first new line starts with `:returns: `; any other kind is its `generic_visit` |
| FormatProperties.ListItemBullet | sphinxcontrib/autodoc_doxygen/xmlutils.py:154-157 | a list item appends the bullet line `   - `, opens the line and then visits its children, so the buffer is kept and the first new line starts with the bullet |
| FormatProperties.ParameterListBlock | sphinxcontrib/autodoc_doxygen/xmlutils.py:121-123 | a parameter list fails exactly when its fresh rendering fails; otherwise it keeps the buffer and the flag and adds `''`, then the fresh rendering's non-empty lines in their order, then `''` |
| FormatProperties.PreformattedLines | sphinxcontrib/autodoc_doxygen/xmlutils.py:159-168 | the directive and `''` come first, then one line per piece of the joined text, each with two leading spaces; the pieces join back to the text |
| FormatProperties.PreformattedTextValue | sphinxcontrib/autodoc_doxygen/xmlutils.py:159-166 | the joined text exists exactly when every child has text, and is the node's text followed by each child's text and its tail |
| FormatProperties.ChildPartsValues | sphinxcontrib/autodoc_doxygen/xmlutils.py:160-165 | the children's parts are all present exactly when every child has text, and join to the children's texts and tails in order |
| FormatProperties.RenderedTable | sphinxcontrib/autodoc_doxygen/xmlutils.py:195-208 | the cells and widths of a table that renders: one width per column, and every row fits |
| FormatProperties.TableOutput | sphinxcontrib/autodoc_doxygen/xmlutils.py:187-256 | a table that renders appends exactly `TableLayout.Block` of its cells and widths |
| FormatProperties.LaidOut | sphinxcontrib/autodoc_doxygen/xmlutils.py:233-256 | a table that lays out has rows, none of them empty, and lays out as `TableLayout.Block` |
| FormatProperties.WidthsCover | sphinxcontrib/autodoc_doxygen/xmlutils.py:195-208 | every width is non-negative and covers each line of its column plus 2 |
| FormatProperties.GridShape | sphinxcontrib/autodoc_doxygen/xmlutils.py:233-256 | the border is `1 + sum(width + 1)` long and drawn in `+` and `-`; the header separator is the border with `-` replaced by `=`; header lines are as wide as the border over their columns; the table starts and ends with `''` |
| FormatProperties.TableBlock | sphinxcontrib/autodoc_doxygen/xmlutils.py:187-256 | the earlier lines are kept, the table is appended, and each width covers its column |
| Generate.NameRun | sphinxcontrib/autodoc_doxygen/autosummary/generate.py:147 | the greedy run of `[a-zA-Z0-9_.:]`: a prefix of name characters that stops at the first other character |
| Generate.Indentation | sphinxcontrib/autodoc_doxygen/autosummary/generate.py:146-192 | group 1 of the directive pattern: the leading whitespace, which with the stripped rest rebuilds the line |
| Generate.ItemName | sphinxcontrib/autodoc_doxygen/autosummary/generate.py:147-180 | an item needs indentation; its name starts with `[_a-zA-Z]`, consists of name characters, and follows the indentation directly or after exactly one `~` |
| Generate.DirectiveIndent | sphinxcontrib/autodoc_doxygen/autosummary/generate.py:146 | a directive match gives the line's indentation, which is whitespace, and the line is that indentation, `..`, at least one whitespace character and `autodoxysummary::` |
| Generate.OptionArg | sphinxcontrib/autodoc_doxygen/autosummary/generate.py:148-149 | an option line matches exactly when it is indented, starts with its key after the indentation, and the stripped remainder holds no line break; the value is that stripped remainder: the line after its indentation is the key, whitespace, the value and whitespace, and the value has no outer whitespace |
| Generate.Step | sphinxcontrib/autodoc_doxygen/autosummary/generate.py:158-195 | one iteration only appends entries, at most one; a line that leaves no block open changes nothing else; a block open afterwards either stayed open with its indentation or was opened by this directive line with its own indentation, no options and no new entry |
| Generate.FindAutosummaryInLines | sphinxcontrib/autodoc_doxygen/autosummary/generate.py:135-197 | the entries are those of `Scan` over all the lines |
| Generate.BelowTotal | sphinxcontrib/autodoc_doxygen/autosummary/generate.py:24 | Python's string order is total |
| Generate.Insert | sphinxcontrib/autodoc_doxygen/autosummary/generate.py:24 | inserting into an ascending list keeps it ascending and adds exactly the element |
| Generate.Sorted | sphinxcontrib/autodoc_doxygen/autosummary/generate.py:24 | `sorted()` returns an ascending permutation of its input |
| Generate.Shortened | sphinxcontrib/autodoc_doxygen/autosummary/generate.py:25-26 | more than 20 items become 21: the first ten, `'...'`, the last ten; shorter lists are unchanged |
| Generate.WithSuffix | sphinxcontrib/autodoc_doxygen/autosummary/generate.py:213 | the name ends with the suffix afterwards; a name that already did is unchanged, any other gets the suffix appended |
| Generate.WithSuffixes | sphinxcontrib/autodoc_doxygen/autosummary/generate.py:213-214 | the comprehension keeps the length and normalises each name in place |
| GenerateProperties.OptionsExclusive | sphinxcontrib/autodoc_doxygen/autosummary/generate.py:148-149 | no line is both a `:toctree:` and a `:template:` option |
| GenerateProperties.DirectiveLine | sphinxcontrib/autodoc_doxygen/autosummary/generate.py:146 | every line made of whitespace, `..`, at least one whitespace character and `autodoxysummary::` is a directive whose indentation is that whitespace |
| GenerateProperties.DirectiveStep | sphinxcontrib/autodoc_doxygen/autosummary/generate.py:189-195 | a directive line adds no entry; unless an open block keeps it as an indented line, it opens a block with its own indentation and no toctree or template |
| GenerateProperties.BlockClose | sphinxcontrib/autodoc_doxygen/autosummary/generate.py:159-195 | in an open block the block stays open, with the same indentation, exactly for option, item, blank and deeper-indented lines; any other line is checked as a directive and leaves the block open only if it is one |
| GenerateProperties.OptionLineSkipped | sphinxcontrib/autodoc_doxygen/autosummary/generate.py:173-174 | in a block a line whose stripped form starts with `:` adds no entry and keeps the block open |
| GenerateProperties.StepEntries | sphinxcontrib/autodoc_doxygen/autosummary/generate.py:176-182 | a line adds at most one entry, only an item line in a block does, and the entry carries the options in force |
| GenerateProperties.ScanBeforeDirective | sphinxcontrib/autodoc_doxygen/autosummary/generate.py:146-197 | before the first directive line nothing is documented and no block is open |
| GenerateProperties.EntryNames | sphinxcontrib/autodoc_doxygen/autosummary/generate.py:176-181 | every recorded name starts with `[_a-zA-Z]`, never with `~`, and consists of name characters |
| GenerateProperties.PlainItem | sphinxcontrib/autodoc_doxygen/autosummary/generate.py:147-178 | an indented name is recorded whole |
| GenerateProperties.TildeStripped | sphinxcontrib/autodoc_doxygen/autosummary/generate.py:179-180 | one leading `~` is dropped from the name |
| GenerateProperties.DoubleTildeNoItem | sphinxcontrib/autodoc_doxygen/autosummary/generate.py:147 | a name behind two `~` is no item |
| GenerateProperties.OpenBlock | sphinxcontrib/autodoc_doxygen/autosummary/generate.py:158-195 | while a block is open, there is a line at which the scan itself opened it: a directive line with the block's indentation that did not sit inside the block open before it; every later line stayed inside, and the options in force are the last `:toctree:` and `:template:` values since then, or None |
| GenerateProperties.EntriesInOrder | sphinxcontrib/autodoc_doxygen/autosummary/generate.py:158-197 | entries come from strictly increasing line numbers; each is its line's item name with the options of the block the scan had opened for it; `ItemFound` is the converse |
| GenerateProperties.OpenerUnique | sphinxcontrib/autodoc_doxygen/autosummary/generate.py:158-195 | an entry's opening line is unique, so the toctree and template it carries are determined by the lines |
| GenerateProperties.EntryOptionsPinned | sphinxcontrib/autodoc_doxygen/autosummary/generate.py:158-197 | two entries described at the same line are equal |
| GenerateProperties.StaysOpen | sphinxcontrib/autodoc_doxygen/autosummary/generate.py:158-187 | a block the scan opened stays open with its indentation through every later line that sits inside it |
| GenerateProperties.ItemRecorded | sphinxcontrib/autodoc_doxygen/autosummary/generate.py:158-182 | the converse of `EntriesInOrder`: when the loop reaches an item line of a block the scan opened, it appends exactly that entry, with the block's options |
| GenerateProperties.ItemFound | sphinxcontrib/autodoc_doxygen/autosummary/generate.py:135-197 | every item line of a block the scan opened yields its entry in the returned list |
| GenerateProperties.DocumentedGrows | sphinxcontrib/autodoc_doxygen/autosummary/generate.py:158-197 | entries recorded after the first lines are never removed by later ones |
| GenerateProperties.ItemNotOption | sphinxcontrib/autodoc_doxygen/autosummary/generate.py:147-176 | an item line is neither a `:toctree:` nor a `:template:` option, nor skipped as another option |
| GenerateProperties.FoundEntries | sphinxcontrib/autodoc_doxygen/autosummary/generate.py:158-197 | there are at most as many entries as lines |
| GenerateProperties.ShownSourcesShape | sphinxcontrib/autodoc_doxygen/autosummary/generate.py:24-26 | up to 20 sources are printed as a sorted permutation; more become 21 items, `'...'` in the middle, and every other item is one of the sources |
| GenerateProperties.WithSuffixesIdempotent | sphinxcontrib/autodoc_doxygen/autosummary/generate.py:213-214 | normalising twice changes nothing, and every name ends with the suffix |

## Left out

- The progress `print` calls and all file and Sphinx I/O are outside the model. This covers the rest of `generate_autosummary_docs`, `is_type`, `find_autosummary_in_files`, `process_generate_options` beyond the suffix expression, Jinja templates and `autodoc.py`.
- `get_doxygen_root()`, lxml and XPath are not modelled. A reference is resolved through a read-only map from id to element kind and names. The quoting of the id inside the XPath string is not modelled.
- A memberdef whose `name` or `compoundname` element has no text would raise in the source. Here the index holds plain strings, so that case cannot arise.
- `int(node.get('cols'))` accepts optional sign and surrounding whitespace and plain ASCII digits. Underscores and non-ASCII digits, which Python's `int` also accepts, are read as an error.
- The regular expression engine is not modelled. The four patterns become string functions with the same match results, whitespace being Python's `str.isspace`.
- `os.path.join(os.path.dirname(filename), …)` is the parameter `joinDir`. A `filename` of None is given as `''`, which the source also treats as absent.
- The unused `module` argument of `find_autosummary_in_lines` is not modelled.
- `raise NotImplementedError` after the early `return` in `visit_ref` cannot be reached and is not modelled.
- Exceptions become `Err` values. Which Python exception type or message is raised is kept only where the handler decides it: IndexError, ValueError, AttributeError and TypeError as faults.
- FormatSpec.VisitSimpleSect, FormatSpec.VisitSect, FormatSpec.VisitListItem and FormatSpec.VisitTable: their own contracts state only growth. Their exact output is stated by `FormatProperties.SimpleSectOutput`, `FormatProperties.SectOutput`, `FormatProperties.ListItemBullet` and `FormatProperties.TableOutput`.
- FormatSpec.VisitParameterList: its own contract states only that the buffer grows by two lines. `FormatProperties.ParameterListBlock` states the content.
- FormatSpec.VisitPreformatted: its own contract states only the two added lines. The full result is `FormatProperties.PreformattedLines`.
