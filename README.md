# ABNT-Helper: a Dafny model of its core

ABNT-Helper is a desktop application that writes academic works (final
papers, articles, dissertations, theses) in the layout the Brazilian
standard ABNT requires. This project models the computational core of the
application and proves properties of it:

- **The paginated HTML preview** (`gerador_preview.py`). The class
  `Preview.PreviewGenerator` keeps the finished pages, the blocks of the
  page being filled, the height left on it and the table and figure
  counters. Its methods close pages, place blocks under the page-break
  policy with the heading orphan guard, and walk the section tree in
  pre-order. The walk numbers sections "1", "1.1", ..., upper-cases
  top-level titles and splits each section's text on the markers
  `{{Tabela:title}}` and `{{Figura:title}}`. Each text part becomes one
  paragraph per non-blank line. Each marker that names a table or figure
  of the section is numbered from the matching counter and rendered. The
  references come last, sorted, on a page of their own.
  - Each method is proved against pure functions. `SectionsOut` says which
    blocks the walk produces and what the counters become; `PushAll` says
    where the blocks land on the pages.
  - Lemmas about those functions give the page-break policy, the orphan
    guard, the height bound, the numbering of sections, the numbering
    1, 2, 3, ... of tables and figures, and the table HTML.
  - The marker grammar (module `Markers`) is a left-to-right scan equal to
    `re.split` with the pattern of gerador_preview.py:133. Splitting loses
    nothing, the parts come in threes, and no marker starts inside a text
    part. These three facts together determine the split: any split that
    has them is the scan's.
- **Reference formatting** (`referencia.py`): author inversion ("Given
  Names Surname" becomes "SURNAME, Given Names", entries joined by " ; "),
  the sort key, and the Livro, Artigo and Site templates with their `**`
  bold marks.
- **The document** (`documento.py`): the class `Document.Document` with
  its defaults, and the in-place stable sort of its references by their
  sort key. Python's `list.sort` is modelled by a stable insertion sort
  (module `Sorting`), and any sorted, stable rearrangement is proved to
  equal it.
- **The configuration file** (`gerenciador_config.py`): the defaults, the
  migration of an older file, the recent-projects list, and adding and
  removing a project. The file is the field of `Config.ConfigStore`.
- **The work templates** (`modelos_trabalho.py`): the constant table of
  chapter lists and the lookup by name.

Module `Text` models the parts of Python's `str` the core uses: `split`
with and without a separator, `strip`, `upper`, `join`, `startswith`,
`endswith`, and `str` of an integer.

The preview does not predict table-of-contents pages, split a paragraph
across pages, count formulas or clamp heights. A block taller than a page
is placed anyway, and the height left goes negative
(`Pagination.PushBound` states when it cannot).

## Model

| member | source | states |
|---|---|---|
| Pagination.NextPageSpec | gerador_preview.py:25-31 | after closing a page: the current page is empty and 24.7 cm are left; the finished pages grow by one exactly when the current page had blocks, and stay the same exactly when it had none, so no empty page is ever finished; earlier pages and the order of all blocks are kept |
| Pagination.PushSpec | gerador_preview.py:33-40 | placing a block makes it the last block of the current page and lowers the height left by exactly its estimate; when the block fits (a heading also needs two more text lines, 1.2 cm) no page is closed, otherwise exactly one page break happens first |
| Pagination.PushBound | gerador_preview.py:37-40 | a block no taller than 24.7 cm never leaves a negative height |
| Pagination.OrphanGuard | gerador_preview.py:35-36 | after an `<h1` block that fits on an empty page with two lines to spare, at least two text lines of height (1.2 cm) remain on its page |
| Pagination.PushContent | gerador_preview.py:33-40 | placing a block puts it after everything placed before, loses nothing and finishes no empty page |
| Pagination.PushAllContent | gerador_preview.py:33-40 | placing blocks one by one puts them, in order, after everything placed before, and finishes no empty page |
| Pagination.PushAllBound | gerador_preview.py:37-40 | blocks each no taller than a page never leave a negative height |
| Pagination.PushAllAppend | gerador_preview.py:33-40 | placing two runs of blocks is placing the first, then the second from where the first left off |
| Preview.PreviewGenerator.constructor | gerador_preview.py:17-23 | a new generator has no pages, an empty current page, 24.7 cm left and both counters at zero |
| Preview.PreviewGenerator.NewPage | gerador_preview.py:25-31 | the new page state is the old one closed as `NextPage` says; each finished page is `<div class="pagina">` around its blocks; the counters are unchanged |
| Preview.PreviewGenerator.AddElement | gerador_preview.py:33-40 | the new page state is the old one with the block placed as `Push` says; counters unchanged |
| Preview.ComponentCount | gerador_preview.py:130 | a section number splits on '.' into one component exactly when it has no dot |
| Preview.TopLevelTitle | gerador_preview.py:128-131 | the i-th top-level section is headed by its number i and its title in capitals |
| Preview.NestedTitle | gerador_preview.py:128-131 | the i-th child below number p is headed "p.i" and its title as written |
| Preview.HeadingFirst | gerador_preview.py:128-131 | a section's first block is its heading with its number and title |
| Preview.HeadingKeepsTwoLines | gerador_preview.py:131 | a section heading (1.5 cm) always leaves two text lines of room below it on its page |
| Preview.ParagraphOfLine | gerador_preview.py:137-140 | a blank line gives no paragraph; any other line gives exactly one, the stripped line, of height (length/80 + 1) × 0.6 |
| Preview.BlankLines | gerador_preview.py:137-138 | a list of lines gives no paragraph exactly when every line is blank |
| Preview.ParagraphsOfLines | gerador_preview.py:137-140 | every paragraph comes from a non-blank line of the text, stripped |
| Preview.ParagraphBlocksAppend | gerador_preview.py:137 | the paragraphs of two runs of lines are those of the first, then those of the second |
| Preview.OneLineText | gerador_preview.py:137-140 | a text part on one line that is not blank is one paragraph |
| Preview.FindTable | gerador_preview.py:145 | the result is a table of the section with the title, and there is none exactly when no table has that title |
| Preview.FindFigure | gerador_preview.py:151 | the result is a figure of the section with the title, and there is none exactly when no figure has that title |
| Preview.FirstTable | gerador_preview.py:145 | the table found is the first one with the title |
| Preview.FirstFigure | gerador_preview.py:151 | the figure found is the first one with the title |
| Preview.MarkerDropped | gerador_preview.py:141-155 | a marker naming no table or figure of its section places nothing and uses no number |
| Preview.TableMarker | gerador_preview.py:144-149 | a resolved table marker places the first table with the title, numbered one past the tables so far, of height rows × 0.8 + 2.4; it records that number on the table and leaves the figure count alone |
| Preview.FigureMarker | gerador_preview.py:150-155 | a resolved figure marker places the first figure with the title, numbered one past the figures so far, of height width / 16 × 9 + 2.4; it records that number on the figure and leaves the table count alone |
| Preview.MarkerNumbered | gerador_preview.py:141-155 | a marker keeps the tables and the figures numbered 1, 2, 3, ... up to their counts, and only adds to the numbers already written |
| Preview.ChildrenNumbered | gerador_preview.py:126-156 | the walk over any part of the tree keeps the tables and the figures numbered 1, 2, 3, ... up to their counts, and leaves the numbers already written untouched |
| Preview.SectionsNumbered | gerador_preview.py:126-156 | from zero counters, the tables and figures of the whole tree are numbered 1, 2, 3, ... in the order of the walk |
| Preview.SectionsOnPages | gerador_preview.py:126-156 | the pages hold exactly the blocks of the walk, in order, after what was placed before, with no empty page |
| Preview.TableClass | gerador_preview.py:160-161 | the table has class `abnt` exactly when its border style is `abnt` |
| Preview.TableHeader | gerador_preview.py:162-170 | a table has a header exactly when it has rows; the header holds the first row alone and the body the other rows |
| Preview.BodyRowsAppend | gerador_preview.py:166-169 | the body rows appear in order, one `tr` per row |
| Preview.TableWithSource | gerador_preview.py:172-173 | a table with a source ends with the paragraph "Fonte: " followed by that source, then the closing `div` |
| Preview.TableWithoutSource | gerador_preview.py:171-173 | a table without a source ends right after the `table` element, with the closing `div` |
| Preview.TableSource | gerador_preview.py:171-173 | both cases above, and a paragraph closes the table exactly when it has a source |
| Preview.PreviewGenerator.RenderCells | gerador_preview.py:164 | the loop builds the cells of a row, in order, each in the given element |
| Preview.PreviewGenerator.RenderBodyRows | gerador_preview.py:166-169 | the nested loop builds the body rows, in order |
| Preview.PreviewGenerator.RenderTableHtml | gerador_preview.py:158-174 | the HTML built piece by piece is the table of `TableHtml`: caption with number and title, class, header, body and source |
| Preview.PreviewGenerator.RenderText | gerador_preview.py:136-140 | the paragraphs of the text part are placed in order; counters unchanged |
| Preview.PreviewGenerator.RenderMarker | gerador_preview.py:141-155 | the marker's table or figure is numbered and placed as `MarkerOut` says, or nothing happens |
| Preview.PreviewGenerator.RenderTableMarker | gerador_preview.py:144-149 | the table counter and the stamps move and the table is placed as `MarkerOut` says |
| Preview.PreviewGenerator.RenderFigureMarker | gerador_preview.py:150-155 | the figure counter and the stamps move and the figure is placed as `MarkerOut` says |
| Preview.PreviewGenerator.RenderContent | gerador_preview.py:132-155 | a section's text parts and markers are placed in order with the counters moving as `ContentOut` says |
| Preview.PreviewGenerator.RenderSections | gerador_preview.py:126-156 | the recursive walk places the headings, texts and children and leaves the counters as `ChildrenOut` says |
| Preview.PreviewGenerator.RenderReferences | gerador_preview.py:113-122 | the document's references are sorted in place, and the pages become `ReferencePage` of the old pages and references: a new page, the heading, and one paragraph per sorted reference converted as the code does, with its height measured on that text; counters unchanged |
| Preview.PreviewGenerator.RenderBody | gerador_preview.py:110-122 | the pages are the walk's blocks followed by the page of references as the code writes it; the counters are those the walk ends with |
| Preview.ReferencePageContent | gerador_preview.py:113-122 | the reference page adds the heading and then one paragraph per reference, in sorted order, after everything before; each paragraph is the reference's text with every `**` turned into `<strong>`; the page closes the last page and finishes no empty page |
| Preview.BookReferenceBlocks | gerador_preview.py:116-120 | the paragraph placed for a book opens its title with `<strong>` twice and never closes it; the intended paragraph closes it and is taller by one character's share |
| Preview.ArticleReferenceBlocks | gerador_preview.py:116-120 | the same for an article's journal |
| Markers.TitleRun | gerador_preview.py:133 | the title run is the longest prefix without `}` |
| Markers.MarkerAtText | gerador_preview.py:133 | a marker found at the start of the text is written there as `{{kind:title}}` |
| Markers.MarkerAtShape | gerador_preview.py:133 | a marker's kind is Tabela or Figura, and its title is non-empty and holds no `}` |
| Markers.SplitMarkersShape | gerador_preview.py:134 | the parts are text, then kind, title and text any number of times |
| Markers.SplitRebuild | gerador_preview.py:134 | the parts put back together, markers written out, give the original text |
| Markers.TextPartsUnmarked | gerador_preview.py:134 | no marker lies wholly inside a text part |
| Markers.SplitLeftmost | gerador_preview.py:133-134 | no marker starts at any place inside a text part, read in the text that follows it: each marker is taken at the leftmost place it can be |
| Markers.LeftmostAt | gerador_preview.py:133-134 | the same, stated for the k-th text part of the split and each position i in it |
| Markers.MarkerAtWritten | gerador_preview.py:133 | a well-formed marker written at the start of a text is the marker found there |
| Markers.SplitMarkersUnique | gerador_preview.py:133-134 | any split into text, kind, title, ..., text that rebuilds the text and starts no marker inside a text part is the scan's split, so the scan is `re.split`'s leftmost matching |
| Markers.SplitUnmarked | gerador_preview.py:134 | text without `{` is a single part |
| Markup.StarSplitPieces | gerador_preview.py:117 | no piece between the `**` marks holds `**` |
| Markup.ReplaceLeavesNoMarker | gerador_preview.py:117 | after every `**` is replaced by a non-empty text without `*`, no `**` is left |
| Markup.SecondReplaceIsIdle | gerador_preview.py:117 | the second `replace` of the preview changes nothing |
| Markup.AsWrittenNeverCloses | gerador_preview.py:117 | as written, `a**b**c` becomes `a<strong>b<strong>c` |
| Markup.BoldToHtmlWraps | gerador_preview.py:117 | as intended, `a**b**c` becomes `a<strong>b</strong>c`, with b the one bold part |
| Markup.BoldToHtmlUnmarked | gerador_preview.py:117 | text without `**` is left as it is and has no bold part |
| References.Kind | referencia.py:44 | the type tag is "Livro" exactly for books, "Artigo" exactly for articles and "Site" exactly for sites (referencia.py:60 and :77 set the other two) |
| References.FormatAuthors | referencia.py:6-19 | the loop gives the author list as `FormattedAuthors` defines it: empty for empty input, else each `;` entry stripped and formatted, joined by " ; " |
| References.EntryOfSeveralWords | referencia.py:12-16 | an entry of two or more words becomes its last word upper-cased, ", ", and the other words joined by single spaces |
| References.EntryOfOneWord | referencia.py:17-18 | an entry of one word becomes that word upper-cased |
| References.EntryOfBlank | referencia.py:17-18 | a blank entry becomes empty |
| References.InvertedName | referencia.py:12-16 | "Given Names Surname" becomes "SURNAME, Given Names" |
| References.AuthorEntryFree | referencia.py:12-18 | formatting an entry adds no character but the comma and the space |
| References.FormattedAuthorsFree | referencia.py:6-19 | the formatted list adds no character but the separators |
| References.FormattedAuthorsCount | referencia.py:9-19 | each `;`-separated entry gives one formatted author: the output has exactly as many `;` as the input |
| References.FormattedAuthorsHead | referencia.py:9-19 | the formatted list starts with the first entry, formatted |
| References.SortKeyOfBlankAuthor | referencia.py:28-31 | a reference whose first author is blank sorts by its title in capitals |
| References.SortKeyIsLeadingSurname | referencia.py:28-33 | otherwise the key is the first author's last word in capitals, the surname the formatted author list starts with |
| References.BookEmphasis | referencia.py:48-50 | a book sets exactly its title in bold, and the corrected conversion wraps it in `<strong>` ... `</strong>` |
| References.ArticleEmphasis | referencia.py:66-69 | an article sets exactly its journal in bold, and the corrected conversion wraps it |
| References.SiteEmphasis | referencia.py:81-84 | a site sets nothing in bold, so the conversion leaves it as it is |
| References.BookAsWritten | gerador_preview.py:116-117 | as the preview converts it, a book's title gets two opening tags and no closing one |
| References.ArticleAsWritten | gerador_preview.py:116-117 | as the preview converts it, an article's journal gets two opening tags and no closing one |
| Document.Document.constructor | documento.py:35-49 | a new document has the default settings, empty title, advisor, abstract and keywords, no authors, no references, and the chapters INTRODUÇÃO, DESENVOLVIMENTO and CONCLUSÃO with empty text |
| Document.Document.SortReferences | documento.py:51-53 | the references become their stable sort by sort key; nothing else of the document changes |
| Document.StrLeIsTotalOrder | documento.py:53 | Python's string comparison is a total order |
| Document.SortedReferencesOrder | documento.py:53 | the sorted references are in non-decreasing key order, are a permutation of the original ones, and keep references of equal key in their original order |
| Document.SortedReferencesUnique | documento.py:53 | no other order is sorted by key and keeps equal keys in order |
| Sorting.SortBy | documento.py:53 | sorting keeps the length and the multiset of elements |
| Sorting.SortByIsSorted | documento.py:53 | the result is sorted by the key under any total order |
| Sorting.SortByIsStable | documento.py:53 | the elements of each key keep their original order |
| Sorting.StableSortIsUnique | documento.py:53 | two sorted sequences with the same elements per key, in the same order, are equal |
| Sorting.SortByIsTheStableSort | documento.py:53 | any sorted, stable rearrangement is the result of the sort |
| Templates.Names | modelos_trabalho.py:38-40 | the names of the templates, one per template, in order |
| Templates.NamesInOrder | modelos_trabalho.py:5-40 | the four names come in declaration order, the final-paper template first |
| Templates.KnownTemplates | modelos_trabalho.py:5-36 | each declared name looks up exactly its declared chapters: 5, 5, 6 and 6 of them |
| Templates.LookupFinds | modelos_trabalho.py:42-44 | with distinct names, looking up a template's name gives its chapters |
| Templates.LookupMisses | modelos_trabalho.py:44 | a name no template has gives the empty list |
| Templates.UnknownTemplate | modelos_trabalho.py:44 | an unknown name gives the empty list |
| Templates.ChaptersOfOffered | modelos_trabalho.py:5-44 | a name gives chapters exactly when it is offered, and every offered template begins with INTRODUÇÃO |
| Config.DefaultsAreCurrent | gerenciador_config.py:12-25 | the defaults: an empty recent list, autosave on every 10 minutes, backup on save with at most 10 backups, already in the current layout |
| Config.MigrateKeeps | gerenciador_config.py:38-46 | migration fills a missing recovery or backup section from the defaults, removes the legacy interval key, adds the periodic interval only when absent, and keeps every other stored value |
| Config.MigrateIdempotent | gerenciador_config.py:38-46 | migrating a migrated configuration changes nothing |
| Config.ConfigStore.Load | gerenciador_config.py:27-48 | reading a missing or unreadable file gives the defaults, and a stored configuration is migrated |
| Config.ConfigStore.Save | gerenciador_config.py:50-56 | the file then holds the given configuration |
| Config.RecentListOrder | gerenciador_config.py:58-72 | the shown list holds exactly the stored entries with a non-empty path that is not a recovery file, most recent first (a missing time counts as 0), and entries of equal time keep their stored order |
| Config.ConfigStore.RecentProjects | gerenciador_config.py:58-72 | the shown list is `RecentList` of the configuration read from the file |
| Config.FilterMembers | gerenciador_config.py:67-69 | a comprehension keeps exactly the elements that pass its test |
| Config.FilterShrinks | gerenciador_config.py:111-113 | the list shrinks exactly when some element fails the test, and is unchanged otherwise |
| Config.AddedListShape | gerenciador_config.py:88-102 | after an addition the new entry heads the list, no other entry has its path, the list holds at most 10 entries, and the others follow in their shown order |
| Config.AddedListKeeps | gerenciador_config.py:91-102 | while there is room, every shown entry with another path survives an addition |
| Config.AfterAddStores | gerenciador_config.py:74-103 | an empty path or a recovery file leaves the file alone; any other path stores the added list in the migrated configuration |
| Config.ConfigStore.AddRecentProject | gerenciador_config.py:74-103 | the file becomes `AfterAdd` of the old file |
| Config.AddThenShow | gerenciador_config.py:74-103 | when the clock has not gone back, the list an addition stores is the list shown next |
| Config.RemoveDrops | gerenciador_config.py:105-115 | removal leaves exactly the entries with another path and writes the file exactly when some entry had the path |
| Config.ConfigStore.RemoveRecentProject | gerenciador_config.py:105-115 | the file becomes `AfterRemove` of the old file |
| Config.AddThenRemove | gerenciador_config.py:105-115 | removing a project just added leaves the entries that followed it |
| Text.SplitParts | referencia.py:9 | `str.split(sep)` gives one part more than there are separators; no part holds the separator, and joining the parts gives the text back |
| Text.StripEmpty | gerador_preview.py:138 | a stripped line is empty exactly when the line is all white space |
| Text.WordsJoin | referencia.py:12-15 | splitting words joined by single spaces gives the words back |
| Text.WordsOfSpaces | referencia.py:32-33 | `split()` gives no word exactly when the text is all white space |
| Text.UpperAt | referencia.py:14 | upper-casing maps each character on its own |
| Text.NatToStringSpells | gerador_preview.py:129 | `str(n)` is digits that spell n, with no leading zero except for "0" itself |
| Text.IntToStringSpells | referencia.py:50 | `str(i)` starts with a minus sign exactly when i is negative, and its digits spell the magnitude of i with no leading zero |

## Left out

- The Qt user interface, the Word document generator, project files, autosave and backup rotation are not part of this model. They are user interaction, a foreign library and file I/O.
- The style sheet, cover, title page and abstract page of the preview (gerador_preview.py:42-108) are left out. So is the final HTML wrapper (gerador_preview.py:124). They are fixed markup around the modelled body, and `RenderBody` starts from whatever page state they leave.
- The section tree is a parameter. The fields `estrutura_textual`, `filhos`, `tabelas` and `figuras` that the preview reads are not declared in documento.py, so `Preview.Section` is its own datatype.
- A figure's image URL (built with `os.path.abspath`) and its width as printed (`str` of a float) are fields of `Preview.Figure`. A table cell is a string, not `str` of an arbitrary object.
- The `numero` written on a table or figure object is the log `stamps` of (object, number) pairs. Objects are values here, so aliasing of the same object across sections is not modelled.
- A table or figure found by the marker lookup is always truthy. Python objects without `__len__` or `__bool__` are, and their class is not shown.
- Pagination.Push: heights are exact rationals, so IEEE double rounding at an exact fit is not reproduced.
- Text.Upper: `str.upper()` is modelled for ASCII and Latin-1 lower-case letters only (U+00E0 to U+00FE except U+00F7). Characters that upper-case to more than one character, or outside that range, are left unchanged.
- Config.Loaded: the configuration file is a typed value. A file holding JSON of another shape (a top-level list, a non-dict section, a non-dict entry) makes the source raise an uncaught error, and that is not modelled. So does a file that is not valid UTF-8: the decoding error is neither a JSON error nor an I/O error, so it escapes the handler at gerenciador_config.py:47. `Unreadable` stands only for a file that cannot be opened or is not well-formed JSON.
- Config.MigrateKeeps: the typed value holds only the keys the code reads. Extra keys the program keeps through load, update and save (a user's extra top-level key, an extra field of a recent-project entry) are not modelled, so "every other stored value" covers the typed fields only.
- The file's path on disk, `os.path.abspath`, `os.path.basename` and `datetime.now()` are parameters `abs`, `base` and `now`. The clock that sets a new document's year and month is the constructor's parameters.
- The messages printed when saving fails or a recovery file is refused are left out. So is `salvar_config`'s `IOError` handling. Saving is modelled as always succeeding.
- `formula.py` and formulas in the preview are left out, because the code shown never places a formula.

## Findings

| source | as written | input that shows it | evidently intended | confidence | as-written member | corrected member |
|---|---|---|---|---|---|---|
| gerador_preview.py:117 | `.replace('**', '<strong>').replace('**', '</strong>')`: the first `replace` consumes every `**`, so the second never matches and no closing tag is produced | a Livro with title "T": its text "... **T**. ..." becomes "... <strong>T<strong>. ..." (`References.BookAsWritten`) | each pair of `**` becomes `<strong>` ... `</strong>` | high; not executed | Markup.AsWrittenNeverCloses | Markup.BoldToHtmlWraps |

The page of references in the model follows the code as written
(`Preview.ReferenceBlock`). `Preview.ReferenceBlockIntended` is the
paragraph with the corrected conversion `Markup.BoldToHtml`, and
`Preview.BookReferenceBlocks` and `Preview.ArticleReferenceBlocks` compare
the two.
