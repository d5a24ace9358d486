# growing-in-cracks exporters, modelled in Dafny

The book *夹缝生长* is written as Markdown chapters listed in an outline
(`index.md`). Three scripts turn it into a DOCX, a PDF and an EPUB. Each
script holds the same small text pipeline, with a few deliberate variations.

1. It parses the outline into a list of chapter entries (part, section,
   title, file) and numbers the regular chapters.
2. It numbers the headings inside each chapter.
3. It lists a chapter's second-level headings.
4. It splits a chapter's leading guiding question off its body.
5. It builds a table of contents: a part → section → chapter → subheading
   tree in the PDF and the EPUB, a flat listing in the DOCX.
6. It post-processes the rendered HTML: image paths, epigraph marking,
   heading ids and the EPUB image bookkeeping.
7. In the DOCX exporter, it turns the rendered HTML into document
   paragraphs through a small event-driven state machine.

This project models that pipeline and proves what each step promises.

| file | module | what it models |
|---|---|---|
| `text.dfy` | `Text` | Python string operations the scripts rely on: `strip`, `split("\n")`/`join`, `basename`, `splitext`, `str.replace`, decimal rendering |
| `outline.dfy` | `Outline` | `parse_index` (the title search and the line classifier, with its regular expressions written out as string predicates) and `assign_chapter_numbers` |
| `numbering.dfy` | `Numbering` | `add_numbering_to_content` (two levels, or three in the PDF exporter), `extract_h2_headings`, `extract_question` with each exporter's skip list |
| `html_rewrite.dfy` | `HtmlRewrite` | a general model of `re.sub` as a scan into kept text and matched tokens; `fix_image_paths`, `mark_epigraphs`, the h2 id numbering and the first-h1 id on top of it |
| `toc.dfy` | `Toc` | the PDF `build_html` loop (TOC tree, part/section/question/chapter pages, ids) as a class, and `build_toc_html` |
| `epub_toc.dfy` | `EpubToc` | the EPUB main loop's spine and navigation tree as a class, chapter entries with sub-links, `build_chapter_html` |
| `images.dfy` | `Images` | `collect_images`, the book-wide `all_images` registry with the `src` rewriting, and the media-type table |
| `docx_toc.dfy` | `DocxToc` | `add_toc_page`'s flat listing |
| `docx_converter.dfy` | `DocxConverter` | `HTMLToDocxConverter` as a class driven by start-tag, end-tag and text events |

Some things are passed in as parameters rather than modelled:

- File contents come in as a function from path to optional text.
- `os.path.exists` and the absolute-path computation come in as oracles.
- The HTML that `markdown.markdown` would produce is an input string.
- The DOCX converter receives the event sequence an HTML parser would report.

A loop that updates variables in the source is modelled as a Dafny method
with a loop, proved equal to a recursive specification function. The
function's own properties are then proved as lemmas. The loops modelled this
way are:

- `parse_index` and `assign_chapter_numbers` (which writes into an array in
  place);
- `add_numbering_to_content` and `extract_h2_headings`;
- the counted `re.sub`, `collect_images`, `build_toc_html` and `add_toc_page`.

The builders whose state changes in place are classes whose methods are
specified by the state they leave behind:

- the PDF TOC builder;
- the EPUB TOC builder;
- the image registry;
- the DOCX converter.

Where the scripts differ, the model has one definition with the difference
as a parameter:

- the three-level numbering of the PDF exporter;
- the PDF skip list for questions, which lacks `acknowledgments.md`;
- the EPUB single-chapter mode.

## Model

| member | source | states |
|---|---|---|
| Outline.ParseIndex | script/export_docx.py:46-97 | the title is the stripped group of the first `^#\s+(.+)` line, or 夹缝生长; the entries are those of the line-by-line run over the outline split at `\n` |
| Outline.ParseLine | script/export_docx.py:58-95 | one line moves the (part, section) cursor and appends entries exactly as the classified line prescribes: a part line sets the part and clears the section, a section line sets the section, a link line appends one entry |
| Outline.PartGroupMatches | script/export_docx.py:61-63 | the part-line test succeeds exactly when `^-\s+(第.+部分：.+\|前言：\|后记：\|第.+部分：)` matches, and the captured group is the rest of the line for the 第 alternatives and 前言： or 后记： otherwise |
| Outline.SectionSpanMatches | script/export_docx.py:82-84 | the section test finds a match exactly when `^\s*-\s+(.+?)$` has one, and returns the leftmost, longest group |
| Outline.LinkSpanMatches | script/export_docx.py:87 | the link search finds a match exactly when `\[(.+?)\]\((.+?)\)` has one, and returns the leftmost match with the shortest label and then the shortest path |
| Outline.ClassifyMatches | script/export_docx.py:58-95 | a line is a part line iff the part pattern matches its rstripped text; a section line iff the part pattern fails, the text has no `[` and the section pattern matches; a link line only if the link pattern matches |
| Outline.TitleSpanMatches | script/export_epub.py:41-42 | at a line start, the title match exists exactly when `#\s+(.+)` matches there, with `\s+` as long as the regex takes it |
| Outline.TitleFallsBack | script/export_epub.py:41-42 | an outline with no line starting with `#` gets the title 夹缝生长 |
| Outline.TitleFromFirstHeading | script/export_epub.py:41-42 | an outline whose first `#` line is `# T` gets the title `strip(T)` |
| Outline.CursorIsLatest | script/export_docx.py:55-84 | after any number of lines the current part is the label of the last part line, and the current section is the last section line after it (none right after a part line) |
| Outline.EntryCount | script/export_docx.py:62-95 | the parse emits exactly one entry per link line and per part line that carries a link |
| Outline.EntriesFollowLines | script/export_docx.py:70-95 | entries appear in the order of their lines, and later lines never change an entry already emitted |
| Outline.EntryOfLine | script/export_docx.py:61-95 | a part line's entry has its part, no section and `is_part_header` set; a link line's entry has the current part and section and is not a part header; no entry has a number yet |
| Outline.AssignChapterNumbers | script/export_docx.py:100-111 | entry i keeps every field and gets `chapter_num` = one more than the numbered entries before it when it is numbered, none otherwise |
| Outline.RenumberEntryAt | script/export_docx.py:103-111 | one turn of the loop writes entry i's number into the array and advances the counter, leaving the later entries as they were |
| Outline.NumberEntry | script/export_docx.py:104-111 | a special file or a part header gets no number; an entry whose part matches `第.+部分` gets the next number; any other entry gets none |
| Outline.NumbersIncrease | script/export_docx.py:107-109 | chapter numbers grow strictly down the list |
| Outline.EveryNumberUsed | script/export_docx.py:107-109 | numbers are consecutive: every number from 1 to the count of numbered entries is given to some entry |
| Text.JoinSplit | script/export_docx.py:119-128 | joining with `\n` the pieces of `split("\n")` gives back the text |
| Text.SplitJoin | script/export_docx.py:119-128 | splitting a `\n`-join of newline-free lines gives back the lines |
| Numbering.AddNumbering | script/export_docx.py:114-128 | no number leaves the text unchanged; otherwise every line is numbered by the counters running over the lines in order, and the result is rejoined |
| Numbering.NumberingKeepsLines | script/export_epub.py:104-118 | numbering adds no line break: splitting the numbered text at `\n` gives back the numbered lines, one per input line |
| Numbering.PlainLinesUnchanged | script/export_epub.py:104-118 | a line that is not a heading of a numbered level (including `###` in the two-level variant) passes unchanged |
| Numbering.H2NumbersIncrease | script/export_docx.py:122-126 | the h2 counter grows at every `## ` line, so a later `## ` line always gets a larger number than any line before it |
| Numbering.H3UnderH2 | script/export_pdf.py:121-127 | in the PDF variant a `### T` line becomes `### N.k.j T`, where k is the number of the `## ` line above it and j counts the `### ` lines since that one, from 1 |
| Numbering.ExtractH2Headings | script/export_docx.py:131-138 | the headings are the stripped texts after `## ` of the lines that have some, in line order |
| Numbering.CollectedAt | script/export_docx.py:133-137 | the heading of a `## ` line sits at the position given by the number of headings found up to it |
| Numbering.HeadingsMatchNumbering | script/export_pdf.py:256-262 | when every `## ` line has text, the k-th listed heading is the text of the line the body numbers `N.k`, so the TOC and the body agree |
| Numbering.BareH2ShiftsNumbering | script/export_docx.py:122-137 | a bare `## ` line counts for the body's numbering but yields no listed heading: with `## ` then `## A`, the list is `[A]` while the body reads `## 1.2 A` |
| Numbering.ExtractQuestion | script/export_docx.py:151-163 | a skip-listed basename, or a text with no `\n\n---\n` after its first character, gives (None, text); otherwise text = prefix + `\n\n---\n` + body for the shortest non-empty such prefix, and the question is `strip(prefix)` |
| Numbering.QuestionRoundTrip | script/export_docx.py:157-161 | a trimmed question joined to a body by the separator splits back into that question and body |
| Numbering.AcknowledgmentsDiffer | script/export_pdf.py:29 | the PDF exporter gives acknowledgments.md a question, while the DOCX and EPUB exporters do not |
| Numbering.AcknowledgmentsSkipped | script/export_pdf.py:29 | for every text, the DOCX list leaves acknowledgments.md whole, and the PDF list splits it as it would a file on no skip list |
| Numbering.AcknowledgmentsListed | script/export_docx.py:40 | acknowledgments.md is on the DOCX and EPUB skip lists and missing from the PDF one, and is its own base name |
| HtmlRewrite.ScanJoin | script/export_pdf.py:199 | the scan that `re.sub` performs cuts a text into kept pieces and matched tokens that join back to the text |
| HtmlRewrite.RewriteInterleave | script/export_pdf.py:272-276 | a substitution replaces each matched token by the callback's value, numbered from 1, and keeps the text between them |
| HtmlRewrite.SubstituteCounting | script/export_pdf.py:270-276 | the left-to-right loop with a counter cell computes the substitution |
| HtmlRewrite.SrcLenMatches | script/export_pdf.py:199 | the `src` matcher accepts exactly the texts starting with `src="`, at least one non-quote character and a quote |
| HtmlRewrite.TagLenMatches | script/export_pdf.py:276 | the tag matcher accepts exactly `<h2`/`<h1` followed by non-`>` characters and `>` |
| HtmlRewrite.RunIsMaximal | script/export_pdf.py:179 | the epigraph run takes every blockquote that follows, as the greedy `+` does |
| HtmlRewrite.FixPieces | script/export_pdf.py:190-199 | fixing image paths replaces each `src="…"` token by its fixed form and keeps every other character |
| HtmlRewrite.FixKeepsRemote | script/export_pdf.py:192-195 | a text whose sources all start with `http://`, `https://` or `file://` is unchanged |
| HtmlRewrite.FixMakesLocalAbsolute | script/export_pdf.py:196-197 | any other source becomes `src="file://` + its absolute path + `"` |
| HtmlRewrite.FixImagePathsIdempotent | script/export_pdf.py:190-199 | fixing image paths twice gives the same text as fixing them once |
| HtmlRewrite.MarkEpigraphsPieces | script/export_pdf.py:176-187 | marking changes only the runs of blockquotes that follow `</h1>`, and keeps every other character |
| HtmlRewrite.MarkRunOnlyAddsClass | script/export_pdf.py:180-184 | inside a run only `<blockquote>` tags change: removing the added class gives back the run |
| HtmlRewrite.MarkedRunNotRematched | script/export_pdf.py:176-187 | a marked run no longer matches the epigraph pattern where it stood |
| HtmlRewrite.MarkWithoutH1 | script/export_pdf.py:176-187 | a text without `</h1>` is unchanged |
| HtmlRewrite.UnmarkMark | script/export_pdf.py:180-184 | in a text without `<blockquote class="epigraph">`, adding the class and removing it again is the identity |
| HtmlRewrite.NumberH2Tags | script/export_pdf.py:269-276 | the k-th `<h2…>` tag becomes `<h2 id="cid-h2-k">` and everything else is kept |
| HtmlRewrite.NumberedH2Pieces | script/export_epub.py:530-537 | the counted substitution with the h2 callback is the h2 renumbering |
| HtmlRewrite.FirstH1IdOnly | script/export_pdf.py:286-292 | only the first `<h1…>` tag is replaced by `<h1 id="cid">`; without one the text is unchanged |
| HtmlRewrite.ReplaceAllPieces | script/export_epub.py:545 | `str.replace` cuts the text at the non-overlapping occurrences of the target and puts the replacement in each |
| Toc.SubheadingsTargetH2Tags | script/export_pdf.py:305-311 | subheading i of a numbered chapter is titled `N.i heading` and points at the id the body's i-th h2 tag receives |
| Toc.SeenPartsDistinct | script/export_pdf.py:221-223 | the parts in order of first appearance hold each part of the list once and nothing else |
| Toc.ChapterPages | script/export_pdf.py:278-321 | a chapter adds its question page first when it has a question, then its chapter page last, and never a part page |
| Toc.PlaceChapterKeeps | script/export_pdf.py:313-319 | placing an entry puts it last in reading order and leaves the parts and their section ids alone |
| Toc.ChapterEntry | script/export_pdf.py:255-311 | the loop computes the chapter's question and its TOC entry as the specification gives them |
| Toc.PdfBuilder.constructor | script/export_pdf.py:206-210 | the builder starts with no items, no pages, counter 0 and empty seen sets |
| Toc.PdfBuilder.OpenPart | script/export_pdf.py:221-236 | a part seen for the first time gets the next `part-n` id, a TOC part and a part page, and the seen sections are cleared |
| Toc.PdfBuilder.OpenSection | script/export_pdf.py:239-253 | a section new to the current part gets id `section-k-n`, a page, and a TOC child when the last item is a part |
| Toc.PdfBuilder.AddChapter | script/export_pdf.py:255-321 | a chapter adds its question page, its chapter page and its entry, filed as the placement rule says |
| Toc.PdfBuilder.AddEntry | script/export_pdf.py:278-321 | the pages and the placed entry of a chapter whose question and entry are known |
| Toc.PdfBuilder.Place | script/export_pdf.py:313-319 | the tree after placing an entry in place: into the last section of the last part, else after the last part's children, else at the top level (with PlaceChapterKeeps: last in reading order, parts and section ids unchanged) |
| Toc.BuildPdfToc | script/export_pdf.py:212-321 | the loop over the chapters builds the tree and the pages of the specification run, skipping unreadable files |
| Toc.EnterPartKeeps | script/export_pdf.py:221-236 | entering a part keeps the numbering invariant and adds no chapter |
| Toc.EnterSectionKeeps | script/export_pdf.py:239-253 | entering a section keeps the numbering invariant and adds no chapter |
| Toc.PdfRunInvariant | script/export_pdf.py:212-321 | after the loop, the parts are `part-1`, `part-2`, … in order of first appearance, each with one part page; the open part's sections are `section-1-n`, …; and the tree holds every readable chapter's entry once, in list order |
| Toc.StepKeeps | script/export_pdf.py:212-321 | one turn keeps that invariant and adds the chapter's entry last when its file is readable |
| Toc.BuildTocHtml | script/export_pdf.py:406-458 | the loop produces the lines of the specification, joined by newlines |
| Toc.TocLinesShape | script/export_pdf.py:406-458 | the markup opens with `<nav class="toc">` and closes with `</nav>`; each part's lines are followed by its closing `</div>`; there is one chapter line per chapter and one subheading line per subheading, in tree order |
| EpubToc.ChapterEntryShape | script/export_epub.py:562-580 | an entry is a link titled with the display title (`N. title` for a truthy number, else the bare title) with sub-links exactly when the chapter number is truthy and it has h2 headings; sub-link i has href `cid.xhtml#cid-h2-i`, title `N.i heading` and the id the body's i-th h2 tag gets |
| EpubToc.ChapterFiles | script/export_epub.py:509-559 | a chapter adds `question-cid.xhtml` to the spine when it has a question, then `cid.xhtml` |
| EpubToc.EpubBuilder.constructor | script/export_epub.py:429-437 | the spine starts as `["nav"]`, with an empty tree, no open part or section and counter 0 |
| EpubToc.EpubBuilder.OpenPart | script/export_epub.py:447-472 | outside single-chapter export, a new part gets the next `part-n` page in the spine and a node in the tree, becomes the open part, and closes the open section |
| EpubToc.EpubBuilder.OpenSection | script/export_epub.py:475-498 | a section new to the current part gets a page and becomes the open section, attached to the open part only when there is one |
| EpubToc.EpubBuilder.AddChapter | script/export_epub.py:500-588 | a chapter adds its files to the spine and files its entry |
| EpubToc.EpubBuilder.AddFiles | script/export_epub.py:509-559 | the chapter's question page and chapter page join the spine |
| EpubToc.EpubBuilder.Place | script/export_epub.py:583-588 | an entry goes into the open section, else the open part, else the top level |
| EpubToc.ChapterEntryOf | script/export_epub.py:500-580 | the loop computes the chapter's question and its entry as specified |
| EpubToc.BuildEpubToc | script/export_epub.py:441-588 | the loop over the chapters builds the spine and the tree of the specification run |
| EpubToc.AddToOpenPartAppends | script/export_epub.py:586 | appending to the open part adds one child to the last node and its entries last in reading order |
| EpubToc.AddToOpenSectionAppends | script/export_epub.py:584 | appending to the open section adds the entry last in reading order |
| EpubToc.EnterPartKeeps | script/export_epub.py:447-472 | entering a part keeps the tree well formed, adds no chapter, and leaves a fresh empty part open with no section |
| EpubToc.EnterSectionKeeps | script/export_epub.py:475-498 | a new section is attached under the open part; with no part open it stays outside the tree and the tree is unchanged |
| EpubToc.PlaceAppends | script/export_epub.py:583-588 | filing an entry adds it last in reading order, unless the open section is outside the tree, where it is lost |
| EpubToc.DetachedSectionLosesChapter | script/export_epub.py:475-588 | a chapter with a section and no part is written to the spine but missing from the tree |
| EpubToc.AsWrittenMatchesFixed | script/export_epub.py:441-588 | when every chapter with a section also has a part, the loop as written and the corrected loop agree, and every readable chapter is in the tree |
| EpubToc.FixedKeepsEveryChapter | script/export_epub.py:441-588 | with a part-less section placed at the top level, the tree holds every readable chapter's entry once, in list order |
| EpubToc.PageBodyOf | script/export_epub.py:365 | the page body is never blank, and a body that is not blank goes in verbatim |
| EpubToc.TitleRoundTrip | script/export_epub.py:354-368 | a title without `<` is read back from the page's `<title>` |
| EpubToc.ChapterHtmlBody | script/export_epub.py:354-368 | the page starts with the head, the title, the stylesheet link to the given css file and `<body>`, and ends with the body (or `<p></p>`) and the closing tags |
| Images.FirstKeys | script/export_epub.py:170-182 | the collected sources are distinct and are exactly the sources that are not `http(s)://` and whose file exists |
| Images.CollectImages | script/export_epub.py:170-182 | the loop returns those sources in first-appearance order, each mapped to its absolute path and `images/<basename>` |
| Images.CollectedNames | script/export_epub.py:176-181 | every collected source is local, exists, occurs in the text, and is named `images/` plus a name without `/` |
| Images.RegisterValid | script/export_epub.py:541-544 | registering keeps the book-path list and the book-path → absolute-path map consistent: each book path listed once and mapped |
| Images.RegisterKeepsKnown | script/export_epub.py:543-544 | a book path already registered keeps its first absolute path, and the list only grows at the end |
| Images.RegisterFirstEntry | script/export_epub.py:543-544 | a book path first seen in a chapter gets the absolute path of its first entry |
| Images.PointSrcsAbsent | script/export_epub.py:545 | a chapter whose text names no collected source is left as it is |
| Images.PointSrcsStep | script/export_epub.py:545 | the first replacement cuts the text at every occurrence of the first source's `src="…"` and rewrites exactly those occurrences to the stored file name before the remaining sources are applied |
| Images.ReplaceAbsent | script/export_epub.py:545 | `str.replace` of a target that does not occur changes nothing |
| Images.ImageStore.constructor | script/export_epub.py:431 | the registry starts empty |
| Images.ImageStore.AddChapter | script/export_epub.py:540-545 | one chapter registers its collected images and rewrites each `src="X"` to its book path |
| Images.MediaType | script/export_epub.py:592-601 | the media type is the table's entry for the lower-cased extension, and `application/octet-stream` exactly when the extension is not in the table |
| DocxToc.AddTocPage | script/export_docx.py:558-619 | the loop produces the page of the specification: the heading 目录, then per chapter its new part, its new section, its title line and its subheading lines |
| DocxToc.ChapterBlock | script/export_docx.py:593-617 | a chapter's lines are its display title, then `N.i heading` for each h2 heading when numbered |
| DocxToc.ChapterHeadingsOf | script/export_docx.py:604-608 | headings are looked up only for a numbered chapter whose file has text, in the body after the question |
| DocxToc.ChapterParasKinds | script/export_docx.py:593-617 | a chapter contributes exactly one chapter line, its display title (`N. title` for a truthy number, else the bare title), and no part or section line |
| DocxToc.ListingShape | script/export_docx.py:558-617 | the page starts with 目录, lists each part once in order of first appearance, and lists every chapter once, in list order, by its display title |
| DocxToc.SectionPerPart | script/export_docx.py:568-590 | wherever the listing stands, of two consecutive chapters sharing a section the second lists it again when it opens a part not yet listed, and adds no section line when it is of the first's part |
| DocxToc.SectionAfter | script/export_docx.py:568-590 | a chapter adds its section line exactly when it opens a new part or its section is not yet listed under the current part |
| DocxToc.ChapterTitlesAgree | script/export_docx.py:595 | the DOCX contents line, the PDF entry title and the EPUB link title of a chapter are one string, `N. title` or the bare title; the PDF anchor id and the EPUB link uid are the same and the link points at `id.xhtml` |
| DocxToc.SubTitlesAgree | script/export_docx.py:614 | subheading line i reads `N.i heading`, the same title the PDF tree gives it |
| DocxToc.BareChapter | script/export_docx.py:604-606 | an unnumbered chapter, or one whose file is missing or empty, gets its title line alone |
| DocxConverter.Attr | script/export_docx.py:227 | the default when no attribute has that name, otherwise the value of the last attribute of that name, as `dict(attrs)` keeps it |
| DocxConverter.StartStep | script/export_docx.py:226-306 | every start tag is pushed on the tag stack, and only `ul`, `ol` and `li` touch the list stack |
| DocxConverter.EndStep | script/export_docx.py:308-337 | an end tag never changes the document, and pops the tag stack only when its top is that tag |
| DocxConverter.DataStep | script/export_docx.py:339-383 | text never changes the tag or list stacks |
| DocxConverter.TagStackDiscipline | script/export_docx.py:228-310 | a start tag pushes and its end tag pops it again; an end tag that is not on top leaves the stack alone; text leaves it alone |
| DocxConverter.ListStackDiscipline | script/export_docx.py:251-328 | `ul`/`ol` push `(tag, 0)` and their end pops one list, or nothing when there is none; other tags leave the list stack alone |
| DocxConverter.ListItemParagraph | script/export_docx.py:255-273 | `li` opens a new empty paragraph; inside a list its indent is depth − 1, an `ol` counter goes up by one with a List Number paragraph and a `ul` gives a List Bullet; outside any list it is a List Bullet at indent 0 |
| DocxConverter.OrderedItem | script/export_docx.py:258-261 | an `li` inside an `ol` increases that list's counter by one |
| DocxConverter.OrderedCount | script/export_docx.py:251-261 | an `ol` followed by n items leaves that list's counter at n |
| DocxConverter.EndTagsCloseParagraphs | script/export_docx.py:312-337 | `/h1-3`, `/p`, `/li` and `/pre` close the current paragraph; other end tags keep it |
| DocxConverter.DataRuns | script/export_docx.py:339-383 | blank text outside code adds a run only for a single space in an open paragraph; other text adds a run with bold, italic and code flags from the tag stack and the blockquote flag; inside `pre` each text is its own code paragraph |
| DocxConverter.QuotedText | script/export_docx.py:236-368 | a paragraph inside a blockquote has the Quote style and italic text |
| DocxConverter.MissingImagesSkipped | script/export_docx.py:385-393 | a remote image, or one found neither next to the chapter nor under the book, changes nothing |
| DocxConverter.FoundImageAdded | script/export_docx.py:394-407 | a found image becomes a picture paragraph of its own, and no paragraph is left open |
| DocxConverter.StepExtends | script/export_docx.py:226-383 | an event only appends paragraphs or adds runs to the open paragraph |
| DocxConverter.ClosedParagraphsStay | script/export_docx.py:218-224 | a paragraph that is not open is never changed by later events |
| DocxConverter.HtmlToDocxConverter.constructor | script/export_docx.py:200-213 | the converter starts on the given document with no open paragraph, empty stacks and cleared flags |
| DocxConverter.HtmlToDocxConverter.FinishParagraph | script/export_docx.py:223-224 | `_finish_paragraph` forgets the open paragraph |
| DocxConverter.HtmlToDocxConverter.EnsureParagraph | script/export_docx.py:218-221 | `_ensure_paragraph` opens a plain paragraph only when none is open |
| DocxConverter.HtmlToDocxConverter.StartListItem | script/export_docx.py:255-273 | the `li` branch, in place |
| DocxConverter.HtmlToDocxConverter.AddImageOf | script/export_docx.py:385-407 | `_add_image`, in place |
| DocxConverter.HtmlToDocxConverter.HandleStartTag | script/export_docx.py:226-306 | `handle_starttag` leaves the state the start-tag step specifies |
| DocxConverter.HtmlToDocxConverter.HandleEndTag | script/export_docx.py:308-337 | `handle_endtag` leaves the state the end-tag step specifies |
| DocxConverter.HtmlToDocxConverter.HandleData | script/export_docx.py:339-383 | `handle_data` leaves the state the text step specifies |
| DocxConverter.HtmlToDocxConverter.FeedEvents | script/export_docx.py:410-432 | feeding events in order leaves the state of the specification fold |

## Left out

- File and network I/O are left out: reading the outline and the chapters, writing the DOCX, PDF, EPUB and HTML files, printing and `sys.exit`. File contents are a function from path to optional text, and `os.path.exists` is an oracle.
- `markdown.markdown` is left out because it is a foreign library. The HTML it would produce is an input. The DOCX converter receives parser events (start tag with attributes, end tag, text) rather than HTML text.
- The python-docx, ebooklib and weasyprint objects are abstract records.
  - A document is a sequence of paragraphs (style, indent level, runs).
  - A run has its text and bold, italic and code flags.
  - The EPUB book is its spine and navigation tree.
  - The PDF body is a sequence of pages without the rendered chapter text.
- Styling is left out:
  - `setup_styles`, `set_run_font` and `set_style_font`;
  - fonts, sizes, colours and alignment;
  - the `Pt`/`Cm` floats, including `Cm(1.27 * indent_level)`. The integer indent level is kept.
- Also left out, with the same reason:
  - `get_css`;
  - the cover, centred and question page builders of the DOCX exporter;
  - the full HTML page of `build_html`;
  - `build_chapter_html_standalone`;
  - `uuid` and `argparse`.
- Pillow's `_prepare_image` and the `try`/`except` fallback in `_add_image` are left out: they are foreign and exception-driven. A found image is one picture paragraph.
- `os.path.abspath`, `os.path.join` and `os.path.dirname` are left out: absolute paths come from a resolver function passed in.
- `fix_image_paths` cannot tell when a path is already absolute, because the resolver is opaque.
- Regular expressions are left out as an engine: each is a string predicate with the leftmost, greedy or lazy choice the engine makes.
- Python's `str.isspace()` is the fixed set of ASCII and common Unicode space characters.
- `str.lower()` on the image extension is ASCII-only lower-casing.
- HTML attributes without a value are left out: the converter's attributes are (name, value) pairs with a string value.
- HtmlRewrite.MarkEpigraphs: idempotence over a whole document is not proved. The lemmas give the parts of it:
  - a marked run no longer matches where it stood;
  - marking only adds the class inside a run;
  - text without `</h1>` is unchanged.
- HtmlRewrite.FixImagePathsIdempotent: proved only for a resolver whose paths contain no `"`. Such a path would end the attribute early.
- HtmlRewrite.SetFirstH1Id: the PDF exporter hands `<h1 id="{chapter_id}">` to `re.sub` as a replacement template, so Python would process backslash escapes in the chapter id, and an unknown escape such as `\q` raises `re.error`. The model inserts the id verbatim, which matches the source only for ids without `\`. The h2 ids are made by a callback and are inserted verbatim in the source too.
- The EPUB per-chapter stages (numbering, marking, h2 ids, image collection and the page template) are modelled separately; their chaining through `markdown.markdown` is not. The XHTML of the part, section and question pages is the same template with fixed bodies, and is not modelled separately.
- The command-line chapter filter (`--chapter`) is left out. It is a selection of the chapter list before the loops. Its effect inside the EPUB loop is the `single` flag.

## Findings

| source | as written | input that shows it | evidently intended | confidence | as-written member | corrected member |
|---|---|---|---|---|---|---|
| script/export_epub.py:475-588 | a section opened while no part is open becomes `current_toc_section` but is never put into `toc`; later chapters are appended to it and so never appear in the navigation, although their files are in the spine | an outline whose first list item is a plain section line followed by a link line, with no part line before it | the section (and its chapters) should appear in the navigation, e.g. at the top level | medium, not executed | EpubToc.DetachedSectionLosesChapter | EpubToc.FixedKeepsEveryChapter |
