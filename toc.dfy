/** The tables of contents the exporters build from the chapter list: the
    pieces every exporter shares (chapter ids, display titles, subheading
    entries), the PDF exporter's part → section → chapter tree together
    with the part and section pages build_html inserts into the body, the
    markup build_toc_html renders from that tree, and the DOCX exporter's
    flat listing (add_toc_page). Chapter files are read through an oracle,
    read, that answers None for a file that cannot be read. */
module Toc {
  import opened Text
  import opened Outline
  import opened Numbering
  import opened HtmlRewrite

  // ---------------------------------------------------------------------
  // Shared pieces
  // ---------------------------------------------------------------------

  /** Python truthiness of an optional string: present and not empty. */
  predicate Present(o: Option<string>) {
    o.Some? && o.value != ""
  }

  /** Python truthiness of an optional chapter number: present and not 0. */
  predicate NumTruthy(n: Option<nat>) {
    n.Some? && n.value != 0
  }

  /** os.path.splitext(os.path.basename(file))[0]. */
  function ChapterId(file: string): (cid: string)
    ensures '/' !in cid
  {
    var name := BaseName(file);
    assert Stem(name) == name[..ExtStart(name)];
    assert forall c :: c in Stem(name) ==> c in name;
    Stem(name)
  }

  /** "N. title" for a numbered chapter, the bare title otherwise. */
  function DisplayTitle(num: Option<nat>, title: string): (r: string)
    ensures !NumTruthy(num) ==> r == title
    ensures NumTruthy(num) ==> r == Digits(num.value) + ". " + title
  {
    if NumTruthy(num) then Digits(num.value) + ". " + title else title
  }

  /** The headings extract_h2_headings returns for a chapter body. */
  function H2Headings(body: string): seq<string> {
    Collected(HeadingsOf(SplitLines(body)), |SplitLines(body)|)
  }

  /** A subheading entry: its title and the id of the heading it points at. */
  datatype Sub = Sub(title: string, id: string)

  /** The subheading entries of a chapter: "N.i heading" for i from 1, only
      for a numbered chapter. */
  function Subheadings(num: Option<nat>, cid: string, h2: seq<string>): (subs: seq<Sub>)
    ensures |subs| == if NumTruthy(num) then |h2| else 0
  {
    if NumTruthy(num) && h2 != [] then
      seq(|h2|, i requires 0 <= i < |h2| => Sub(Digits(num.value) + "." + Digits(i + 1) + " " + h2[i], H2Id(cid, i + 1)))
    else []
  }

  /** Entry i of a numbered chapter's subheadings is titled after heading i
      and numbered i + 1, and points at the id the chapter's (i + 1)-th <h2>
      tag receives. */
  lemma SubheadingsTargetH2Tags(num: Option<nat>, cid: string, h2: seq<string>, i: nat)
    requires NumTruthy(num) && i < |h2|
    ensures var s := Subheadings(num, cid, h2)[i];
      && H2IdTag(cid, i + 1) == "<h2 id=\"" + s.id + "\">"
      && s.title == Digits(num.value) + "." + Digits(i + 1) + " " + h2[i]
  {
  }

  function Last<T>(xs: seq<T>): T
    requires xs != []
  {
    xs[|xs| - 1]
  }

  predicate Distinct(xs: seq<string>) {
    forall i, j :: 0 <= i < j < |xs| ==> xs[i] != xs[j]
  }

  /** The parts of a chapter list in order of first appearance. */
  function SeenParts(chs: seq<Chapter>): seq<string> {
    if chs == [] then []
    else
      NextParts(SeenParts(chs[..|chs| - 1]), Last(chs))
  }

  /** The parts seen so far, after one more chapter. */
  function NextParts(parts: seq<string>, ch: Chapter): seq<string> {
    if Present(ch.part) && ch.part.value !in parts then parts + [ch.part.value] else parts
  }

  /** Each part of the list appears once among the seen parts, and nothing
      else does. */
  lemma {:induction false} SeenPartsDistinct(chs: seq<Chapter>)
    ensures Distinct(SeenParts(chs))
    ensures forall p :: p in SeenParts(chs) <==> exists i :: 0 <= i < |chs| && Present(chs[i].part) && chs[i].part.value == p
  {
    if chs != [] {
      var init := chs[..|chs| - 1];
      SeenPartsDistinct(init);
      assert forall i :: 0 <= i < |init| ==> init[i] == chs[i];
    }
  }

  /** The chapters whose file can be read. */
  function Readable(chs: seq<Chapter>, read: string -> Option<string>): seq<Chapter> {
    if chs == [] then []
    else
      var r := Readable(chs[..|chs| - 1], read);
      if read(Last(chs).file).Some? then r + [Last(chs)] else r
  }

  // ---------------------------------------------------------------------
  // The PDF exporter's tree (build_html)
  // ---------------------------------------------------------------------

  datatype TocChapter = TocChapter(title: string, id: string, subs: seq<Sub>)

  datatype PartChild =
    | SectionChild(title: string, id: string, chapters: seq<TocChapter>)
    | ChapterChild(entry: TocChapter)

  datatype TocItem =
    | PartItem(title: string, id: string, children: seq<PartChild>)
    | TopChapter(entry: TocChapter)

  /** The pages build_html puts into the body, without the rendered
      chapter text. */
  datatype Page =
    | PartPage(id: string, title: string)
    | SectionPage(id: string, title: string)
    | QuestionPage(question: string)
    | ChapterPage(id: string)

  /** build_html's local state. */
  datatype PdfState = PdfState(
    items: seq<TocItem>,
    pages: seq<Page>,
    partCounter: nat,
    seenParts: set<string>,
    seenSections: set<string>)

  const PdfStart := PdfState([], [], 0, {}, {})

  function PartId(n: nat): string {
    "part-" + Digits(n)
  }

  function SectionId(k: nat, n: nat): string {
    "section-" + Digits(k) + "-" + Digits(n)
  }

  /** A part met for the first time opens a part page and a TOC part, and
      forgets the sections seen so far. */
  function EnterPart(s: PdfState, ch: Chapter): PdfState {
    if Present(ch.part) && ch.part.value !in s.seenParts then
      var n := s.partCounter + 1;
      PdfState(
        s.items + [PartItem(ch.part.value, PartId(n), [])],
        s.pages + [PartPage(PartId(n), ch.part.value)],
        n, s.seenParts + {ch.part.value}, {})
    else s
  }

  /** A section met for the first time in the current part opens a section
      page, and a TOC section when the last TOC item is a part. */
  function EnterSection(s: PdfState, ch: Chapter): PdfState {
    if Present(ch.section) && ch.section.value !in s.seenSections then
      var seen := s.seenSections + {ch.section.value};
      var id := SectionId(|seen|, s.partCounter);
      var items :=
        if s.items != [] && Last(s.items).PartItem? then
          var p := Last(s.items);
          s.items[..|s.items| - 1] + [p.(children := p.children + [SectionChild(ch.section.value, id, [])])]
        else s.items;
      s.(items := items, pages := s.pages + [SectionPage(id, ch.section.value)], seenSections := seen)
    else s
  }

  /** Where a chapter entry goes: into the last child of the last part when
      that child is a section, else among the part's children, else at the
      top level. */
  function PlaceChapter(items: seq<TocItem>, e: TocChapter): seq<TocItem> {
    if items != [] && Last(items).PartItem? then
      var p := Last(items);
      items[..|items| - 1] + [p.(children := PlaceChild(p.children, e))]
    else items + [TopChapter(e)]
  }

  /** Where a chapter entry goes among a part's children: into the last
      child when it is a section, else after the last child. */
  function PlaceChild(children: seq<PartChild>, e: TocChapter): seq<PartChild> {
    if children != [] && Last(children).SectionChild? then
      var sec := Last(children);
      children[..|children| - 1] + [sec.(chapters := sec.chapters + [e])]
    else children + [ChapterChild(e)]
  }

  /** The guiding question and body of a chapter text in the PDF exporter. */
  function PdfSplit(ch: Chapter, content: string): (Option<string>, string) {
    ExtractQuestion(content, ch.file, SkipQuestionFilesPdf)
  }

  /** The TOC entry of a chapter with the given text. */
  function PdfEntry(ch: Chapter, content: string): TocChapter {
    var cid := ChapterId(ch.file);
    TocChapter(DisplayTitle(ch.chapterNum, ch.title), cid,
      Subheadings(ch.chapterNum, cid, H2Headings(PdfSplit(ch, content).1)))
  }

  /** One turn of build_html's loop. */
  function PdfStep(s: PdfState, ch: Chapter, content: Option<string>): PdfState {
    if content.None? then s
    else
      var s1 := EnterSection(EnterPart(s, ch), ch);
      s1.(items := PlaceChapter(s1.items, PdfEntry(ch, content.value)),
          pages := s1.pages + ChapterPages(PdfSplit(ch, content.value).0, ChapterId(ch.file)))
  }

  /** The body pages of a chapter: its question page, when it has a
      question, and its own page; never a part page. */
  function ChapterPages(q: Option<string>, cid: string): (pages: seq<Page>)
    ensures forall i :: 0 <= i < |pages| ==> !pages[i].PartPage?
    ensures |pages| == if Present(q) then 2 else 1
    ensures Present(q) ==> pages[0] == QuestionPage(q.value)
    ensures pages[|pages| - 1] == ChapterPage(cid)
  {
    (if Present(q) then [QuestionPage(q.value)] else []) + [ChapterPage(cid)]
  }

  /** build_html's loop over a chapter list. */
  function PdfRun(chs: seq<Chapter>, read: string -> Option<string>): PdfState {
    if chs == [] then PdfStart
    else PdfStep(PdfRun(chs[..|chs| - 1], read), Last(chs), read(Last(chs).file))
  }

  /** PlaceChapter's three cases, spelled out for the loop of BuildPdfToc. */
  lemma PlaceChapterCases(items: seq<TocItem>, e: TocChapter)
    ensures |items| > 0 && items[|items| - 1].PartItem? ==>
      var p := items[|items| - 1];
      var n := |p.children|;
      if n > 0 && p.children[n - 1].SectionChild? then
        PlaceChapter(items, e) == items[..|items| - 1] + [p.(children := p.children[..n - 1] + [p.children[n - 1].(chapters := p.children[n - 1].chapters + [e])])]
      else PlaceChapter(items, e) == items[..|items| - 1] + [p.(children := p.children + [ChapterChild(e)])]
    ensures !(|items| > 0 && items[|items| - 1].PartItem?) ==> PlaceChapter(items, e) == items + [TopChapter(e)]
  {
  }

  /** PdfStep for a readable chapter, in terms of its stages. */
  lemma PdfStepIs(s: PdfState, ch: Chapter, content: string, placed: PdfState, entry: TocChapter)
    requires placed == EnterSection(EnterPart(s, ch), ch)
    requires entry == PdfEntry(ch, content)
    ensures PdfStep(s, ch, Some(content)) ==
      placed.(items := PlaceChapter(placed.items, entry), pages := placed.pages + ChapterPages(PdfSplit(ch, content).0, ChapterId(ch.file)))
  {
  }

  lemma PdfRunStep(chs: seq<Chapter>, read: string -> Option<string>, i: nat)
    requires i < |chs|
    ensures PdfRun(chs[..i + 1], read) == PdfStep(PdfRun(chs[..i], read), chs[i], read(chs[i].file))
  {
    assert chs[..i + 1][..i] == chs[..i];
  }

  /** build_html's accumulators: toc_items, body_parts, part_counter,
      seen_parts and seen_sections. */
  class PdfBuilder {
    var items: seq<TocItem>
    var pages: seq<Page>
    var partCounter: nat
    var seenParts: set<string>
    var seenSections: set<string>

    function State(): PdfState
      reads this
    {
      PdfState(items, pages, partCounter, seenParts, seenSections)
    }

    constructor()
      ensures State() == PdfStart
    {
      items := [];
      pages := [];
      partCounter := 0;
      seenParts := {};
      seenSections := {};
    }

    /** The part page and TOC part of a chapter's part, the first time the
        part is met. */
    method OpenPart(ch: Chapter)
      modifies this
      ensures State() == EnterPart(old(State()), ch)
    {
      if ch.part.Some? && ch.part.value != "" && ch.part.value !in seenParts {
        seenParts := seenParts + {ch.part.value};
        partCounter := partCounter + 1;
        var partId := PartId(partCounter);
        items := items + [PartItem(ch.part.value, partId, [])];
        pages := pages + [PartPage(partId, ch.part.value)];
        seenSections := {};
      }
    }

    /** The section page of a chapter's section, the first time the section
        is met in the current part, and its TOC section under the last part. */
    method OpenSection(ch: Chapter)
      modifies this
      ensures State() == EnterSection(old(State()), ch)
    {
      if ch.section.Some? && ch.section.value != "" && ch.section.value !in seenSections {
        seenSections := seenSections + {ch.section.value};
        var sectionId := SectionId(|seenSections|, partCounter);
        if |items| > 0 && items[|items| - 1].PartItem? {
          var p := items[|items| - 1];
          items := items[..|items| - 1] + [p.(children := p.children + [SectionChild(ch.section.value, sectionId, [])])];
        }
        pages := pages + [SectionPage(sectionId, ch.section.value)];
      }
    }

    /** The question page, the TOC entry and the body page of a chapter
        with the given text. */
    method AddChapter(ch: Chapter, content: string)
      modifies this
      ensures State() == old(State()).(
          items := PlaceChapter(old(items), PdfEntry(ch, content)),
          pages := old(pages) + ChapterPages(PdfSplit(ch, content).0, ChapterId(ch.file)))
    {
      var question, entry := ChapterEntry(ch, content);
      AddEntry(question, entry);
    }

    /** The pages and the TOC entry of a chapter whose question and entry
        are known. */
    method AddEntry(question: Option<string>, entry: TocChapter)
      modifies this
      ensures State() == old(State()).(
          items := PlaceChapter(old(items), entry),
          pages := old(pages) + ChapterPages(question, entry.id))
    {
      ghost var pages0 := pages;
      if question.Some? && question.value != "" {
        pages := pages + [QuestionPage(question.value)];
      }
      ghost var questionPages := if Present(question) then [QuestionPage(question.value)] else [];
      assert pages == pages0 + questionPages;
      Place(entry);
      pages := pages + [ChapterPage(entry.id)];
      assert pages == pages0 + (questionPages + [ChapterPage(entry.id)]);
    }

    /** Files a chapter entry under the last part, in its last section if
        its last child is one, or at the top level. */
    method Place(entry: TocChapter)
      modifies this
      ensures State() == old(State()).(items := PlaceChapter(old(items), entry))
    {
      PlaceChapterCases(items, entry);
      if |items| > 0 && items[|items| - 1].PartItem? {
        var p := items[|items| - 1];
        var children := p.children;
        if |children| > 0 && children[|children| - 1].SectionChild? {
          var sec := children[|children| - 1];
          children := children[..|children| - 1] + [sec.(chapters := sec.chapters + [entry])];
        } else {
          children := children + [ChapterChild(entry)];
        }
        items := items[..|items| - 1] + [p.(children := children)];
      } else {
        items := items + [TopChapter(entry)];
      }
    }
  }

  /** The guiding question of a chapter text and its TOC entry: the
      display title, the id and one subheading per h2 heading of the body
      when the chapter is numbered. */
  method ChapterEntry(ch: Chapter, content: string) returns (question: Option<string>, entry: TocChapter)
    ensures question == PdfSplit(ch, content).0 && entry == PdfEntry(ch, content)
  {
    var chapterId := ChapterId(ch.file);
    var split := ExtractQuestion(content, ch.file, SkipQuestionFilesPdf);
    question := split.0;
    var h2Headings := ExtractH2Headings(split.1);
    entry := TocChapter(DisplayTitle(ch.chapterNum, ch.title), chapterId, Subheadings(ch.chapterNum, chapterId, h2Headings));
  }

  /** build_html's loop: the TOC tree and the body pages. */
  method BuildPdfToc(chapters: seq<Chapter>, read: string -> Option<string>)
    returns (items: seq<TocItem>, pages: seq<Page>)
    ensures items == PdfRun(chapters, read).items && pages == PdfRun(chapters, read).pages
  {
    var b := new PdfBuilder();
    for i := 0 to |chapters|
      invariant b.State() == PdfRun(chapters[..i], read)
    {
      var ch := chapters[i];
      ghost var before := b.State();
      var content := read(ch.file);
      if content.Some? {
        b.OpenPart(ch);
        b.OpenSection(ch);
        ghost var placed := b.State();
        b.AddChapter(ch, content.value);
        PdfStepIs(before, ch, content.value, placed, PdfEntry(ch, content.value));
      }
      PdfRunStep(chapters, read, i);
    }
    assert chapters[..|chapters|] == chapters;
    items := b.items;
    pages := b.pages;
  }

  // Views of the tree, each defined from the end so that appending is easy.

  /** The (title, id) of the TOC parts, in order. */
  function PartsOf(items: seq<TocItem>): seq<(string, string)> {
    if items == [] then []
    else PartsOf(items[..|items| - 1]) + (if Last(items).PartItem? then [(Last(items).title, Last(items).id)] else [])
  }

  /** The (title, id) of the part pages, in order. */
  function PartPagesOf(pages: seq<Page>): seq<(string, string)> {
    if pages == [] then []
    else PartPagesOf(pages[..|pages| - 1]) + (if Last(pages).PartPage? then [(Last(pages).title, Last(pages).id)] else [])
  }

  /** The chapter entries under a part's children, in order. */
  function ChildChapters(children: seq<PartChild>): seq<TocChapter> {
    if children == [] then []
    else
      ChildChapters(children[..|children| - 1])
      + match Last(children)
        case SectionChild(_, _, chs) => chs
        case ChapterChild(e) => [e]
  }

  /** The chapter entries of the whole tree, in reading order. */
  function TocChapters(items: seq<TocItem>): seq<TocChapter> {
    if items == [] then []
    else
      TocChapters(items[..|items| - 1])
      + match Last(items)
        case PartItem(_, _, children) => ChildChapters(children)
        case TopChapter(e) => [e]
  }

  /** The ids of the section children of a part, in order. */
  function SectionIdsOf(children: seq<PartChild>): seq<string> {
    if children == [] then []
    else SectionIdsOf(children[..|children| - 1]) + (if Last(children).SectionChild? then [Last(children).id] else [])
  }

  /** The TOC entries of the readable chapters, in list order. */
  function PdfEntries(chs: seq<Chapter>, read: string -> Option<string>): seq<TocChapter> {
    if chs == [] then []
    else
      PdfEntries(chs[..|chs| - 1], read)
      + match read(Last(chs).file)
        case Some(content) => [PdfEntry(Last(chs), content)]
        case None => []
  }

  /** The section ids of the last TOC item, when it is a part. */
  function OpenSectionIds(items: seq<TocItem>): Option<seq<string>> {
    if items != [] && Last(items).PartItem? then Some(SectionIdsOf(Last(items).children)) else None
  }

  /** The (title, id) pairs of parts numbered in order. */
  function PartEntries(parts: seq<string>): seq<(string, string)> {
    if parts == [] then [] else PartEntries(parts[..|parts| - 1]) + [(Last(parts), PartId(|parts|))]
  }

  /** The ids of the first k sections of part n. */
  function SectionIds(k: nat, n: nat): seq<string> {
    if k == 0 then [] else SectionIds(k - 1, n) + [SectionId(k, n)]
  }

  /** The k-th part is numbered part-(k+1). */
  lemma {:induction false} PartEntriesAt(parts: seq<string>)
    ensures |PartEntries(parts)| == |parts|
    ensures forall k :: 0 <= k < |parts| ==> PartEntries(parts)[k] == (parts[k], PartId(k + 1))
  {
    if parts != [] {
      var init := parts[..|parts| - 1];
      PartEntriesAt(init);
      assert forall k :: 0 <= k < |init| ==> parts[k] == init[k];
    }
  }

  /** The k-th section of part n is section-(k+1)-n. */
  lemma {:induction false} SectionIdsAt(k: nat, n: nat)
    ensures |SectionIds(k, n)| == k
    ensures forall i :: 0 <= i < k ==> SectionIds(k, n)[i] == SectionId(i + 1, n)
  {
    if k > 0 {
      SectionIdsAt(k - 1, n);
    }
  }

  lemma AppendLast<T>(xs: seq<T>, y: T)
    ensures (xs + [y])[..|xs|] == xs && Last(xs + [y]) == y
  {
  }

  /** The views of a tree with one more item at the end. */
  lemma ItemsSnoc(init: seq<TocItem>, x: TocItem)
    ensures OpenSectionIds(init + [x]) == if x.PartItem? then Some(SectionIdsOf(x.children)) else None
    ensures PartsOf(init + [x]) == PartsOf(init) + (if x.PartItem? then [(x.title, x.id)] else [])
    ensures TocChapters(init + [x]) == TocChapters(init) + match x
      case PartItem(_, _, children) => ChildChapters(children)
      case TopChapter(e) => [e]
  {
    AppendLast(init, x);
  }

  /** The views of a part's children with one more child at the end. */
  lemma ChildrenSnoc(init: seq<PartChild>, c: PartChild)
    ensures ChildChapters(init + [c]) == ChildChapters(init) + match c
      case SectionChild(_, _, chs) => chs
      case ChapterChild(e) => [e]
    ensures SectionIdsOf(init + [c]) == SectionIdsOf(init) + (if c.SectionChild? then [c.id] else [])
  {
    AppendLast(init, c);
  }

  lemma PagesSnoc(init: seq<Page>, pg: Page)
    ensures PartPagesOf(init + [pg]) == PartPagesOf(init) + (if pg.PartPage? then [(pg.title, pg.id)] else [])
  {
    AppendLast(init, pg);
  }

  /** Placing an entry puts it last in reading order and leaves the parts
      and the open part's sections alone. */
  lemma PlaceChapterKeeps(items: seq<TocItem>, e: TocChapter)
    ensures TocChapters(PlaceChapter(items, e)) == TocChapters(items) + [e]
    ensures PartsOf(PlaceChapter(items, e)) == PartsOf(items)
    ensures OpenSectionIds(PlaceChapter(items, e)) == OpenSectionIds(items)
  {
    if items != [] && Last(items).PartItem? {
      var init := items[..|items| - 1];
      var p := Last(items);
      assert items == init + [p];
      PlaceInPart(init, p, e);
    } else {
      ItemsSnoc(items, TopChapter(e));
    }
  }

  lemma PlaceInPart(init: seq<TocItem>, p: TocItem, e: TocChapter)
    requires p.PartItem?
    ensures var items' := init + [p.(children := PlaceChild(p.children, e))];
      && TocChapters(items') == TocChapters(init + [p]) + [e]
      && PartsOf(items') == PartsOf(init + [p])
      && OpenSectionIds(items') == OpenSectionIds(init + [p])
  {
    var q := p.(children := PlaceChild(p.children, e));
    ItemsSnoc(init, p);
    PlaceChildKeeps(p.children, e);
    ItemsSnoc(init, q);
    var before := TocChapters(init);
    assert TocChapters(init + [p]) == before + ChildChapters(p.children);
    assert TocChapters(init + [q]) == before + (ChildChapters(p.children) + [e]);
    assert before + (ChildChapters(p.children) + [e]) == (before + ChildChapters(p.children)) + [e];
  }

  lemma PlaceChildKeeps(children: seq<PartChild>, e: TocChapter)
    ensures ChildChapters(PlaceChild(children, e)) == ChildChapters(children) + [e]
    ensures SectionIdsOf(PlaceChild(children, e)) == SectionIdsOf(children)
  {
    if children != [] && Last(children).SectionChild? {
      var init := children[..|children| - 1];
      var sec := Last(children);
      assert children == init + [sec];
      ChildrenSnoc(init, sec);
      ChildrenSnoc(init, sec.(chapters := sec.chapters + [e]));
    } else {
      ChildrenSnoc(children, ChapterChild(e));
    }
  }

  /** The invariant of build_html's tree: parts are numbered part-1, part-2,
      ... in order of first appearance, each has one part page, the part
      counter is the number of parts, and the open part's sections are
      numbered section-1-n, section-2-n, ... with n the part's number. */
  ghost predicate PdfInvariant(s: PdfState, parts: seq<string>) {
    && PartsOf(s.items) == PartEntries(parts)
    && PartPagesOf(s.pages) == PartEntries(parts)
    && |parts| == s.partCounter
    && (forall p :: p in s.seenParts <==> p in parts)
    && (s.partCounter > 0 <==> OpenSectionIds(s.items).Some?)
    && (s.partCounter > 0 ==> OpenSectionIds(s.items).value == SectionIds(|s.seenSections|, s.partCounter))
  }

  /** Entering a part keeps the invariant and adds no chapter. */
  lemma EnterPartKeeps(s: PdfState, ch: Chapter, parts: seq<string>)
    requires PdfInvariant(s, parts)
    ensures PdfInvariant(EnterPart(s, ch), NextParts(parts, ch))
    ensures TocChapters(EnterPart(s, ch).items) == TocChapters(s.items)
  {
    if Present(ch.part) && ch.part.value !in s.seenParts {
      var n := s.partCounter + 1;
      ItemsSnoc(s.items, PartItem(ch.part.value, PartId(n), []));
      PagesSnoc(s.pages, PartPage(PartId(n), ch.part.value));
      AppendLast(parts, ch.part.value);
    }
  }

  /** Entering a section keeps the invariant and adds no chapter. */
  lemma EnterSectionKeeps(s: PdfState, ch: Chapter, parts: seq<string>)
    requires PdfInvariant(s, parts)
    ensures PdfInvariant(EnterSection(s, ch), parts)
    ensures TocChapters(EnterSection(s, ch).items) == TocChapters(s.items)
  {
    if Present(ch.section) && ch.section.value !in s.seenSections {
      var seen := s.seenSections + {ch.section.value};
      var id := SectionId(|seen|, s.partCounter);
      PagesSnoc(s.pages, SectionPage(id, ch.section.value));
      if s.items != [] && Last(s.items).PartItem? {
        var init := s.items[..|s.items| - 1];
        var p := Last(s.items);
        assert s.items == init + [p];
        ItemsSnoc(init, p);
        ChildrenSnoc(p.children, SectionChild(ch.section.value, id, []));
        ItemsSnoc(init, p.(children := p.children + [SectionChild(ch.section.value, id, [])]));
      }
    }
  }

  /** What build_html's loop guarantees about the tree and the pages: see
      PdfInvariant; and the chapter entries of the tree are those of the
      readable chapters, each once, in list order. */
  lemma {:induction false} PdfRunInvariant(chs: seq<Chapter>, read: string -> Option<string>)
    ensures PdfInvariant(PdfRun(chs, read), SeenParts(Readable(chs, read)))
    ensures TocChapters(PdfRun(chs, read).items) == PdfEntries(chs, read)
  {
    if chs != [] {
      var init := chs[..|chs| - 1];
      PdfRunInvariant(init, read);
      RunSnoc(chs, read);
      StepKeeps(PdfRun(init, read), Last(chs), read(Last(chs).file), SeenParts(Readable(init, read)));
    }
  }

  /** The definitions of PdfRun, the readable parts and PdfEntries at the
      last chapter of a list. */
  lemma RunSnoc(chs: seq<Chapter>, read: string -> Option<string>)
    requires chs != []
    ensures var init := chs[..|chs| - 1];
      var ch := Last(chs);
      && PdfRun(chs, read) == PdfStep(PdfRun(init, read), ch, read(ch.file))
      && SeenParts(Readable(chs, read)) ==
         (if read(ch.file).Some? then NextParts(SeenParts(Readable(init, read)), ch) else SeenParts(Readable(init, read)))
      && PdfEntries(chs, read) == PdfEntries(init, read) + (if read(ch.file).Some? then [PdfEntry(ch, read(ch.file).value)] else [])
  {
    var init := chs[..|chs| - 1];
    var ch := Last(chs);
    if read(ch.file).Some? {
      AppendLast(Readable(init, read), ch);
    }
  }

  /** One turn of the loop keeps the invariant, and a readable chapter adds
      its entry last in reading order. */
  lemma StepKeeps(s: PdfState, ch: Chapter, content: Option<string>, parts: seq<string>)
    requires PdfInvariant(s, parts)
    ensures var s' := PdfStep(s, ch, content);
      && PdfInvariant(s', if content.Some? then NextParts(parts, ch) else parts)
      && TocChapters(s'.items) == TocChapters(s.items) + (if content.Some? then [PdfEntry(ch, content.value)] else [])
  {
    match content
    case None =>
      assert PdfStep(s, ch, content) == s;
    case Some(text) =>
      var e := PdfEntry(ch, text);
      var placed := EnterSection(EnterPart(s, ch), ch);
      PdfStepIs(s, ch, text, placed, e);
      ChapterStepKeeps(s, ch, e, ChapterPages(PdfSplit(ch, text).0, ChapterId(ch.file)), parts);
  }

  /** One readable chapter keeps the invariant and adds its entry last in
      reading order. */
  lemma ChapterStepKeeps(s: PdfState, ch: Chapter, e: TocChapter, extra: seq<Page>, parts: seq<string>)
    requires PdfInvariant(s, parts)
    requires forall i :: 0 <= i < |extra| ==> !extra[i].PartPage?
    ensures var parts' := NextParts(parts, ch);
      var placed := EnterSection(EnterPart(s, ch), ch);
      var s' := placed.(items := PlaceChapter(placed.items, e), pages := placed.pages + extra);
      PdfInvariant(s', parts') && TocChapters(s'.items) == TocChapters(s.items) + [e]
  {
    EnterPartKeeps(s, ch, parts);
    var s0 := EnterPart(s, ch);
    EnterSectionKeeps(s0, ch, NextParts(parts, ch));
    var placed := EnterSection(s0, ch);
    PlaceChapterKeeps(placed.items, e);
    PartPagesNoPart(placed.pages, extra);
  }

  /** Appending pages that are not part pages leaves the part pages alone. */
  lemma {:induction false} PartPagesNoPart(pages: seq<Page>, extra: seq<Page>)
    requires forall i :: 0 <= i < |extra| ==> !extra[i].PartPage?
    ensures PartPagesOf(pages + extra) == PartPagesOf(pages)
    decreases |extra|
  {
    if extra != [] {
      var init := extra[..|extra| - 1];
      PartPagesNoPart(pages, init);
      assert (pages + extra)[..|pages + extra| - 1] == pages + init;
    } else {
      assert pages + extra == pages;
    }
  }

  // ---------------------------------------------------------------------
  // build_toc_html
  // ---------------------------------------------------------------------

  function Anchor(id: string, title: string): string {
    "<a href=\"#" + id + "\">" + title + "</a>"
  }

  const NavOpenLine := "<nav class=\"toc\">"
  const NavCloseLine := "</nav>"
  const CloseLine := "</div>"
  const PartPrefix := "<div class=\"toc-part\">"
  const SectionPrefix := "<div class=\"toc-section\">"
  const ChapterPrefix := "<div class=\"toc-chapter"
  const SubPrefix := "<div class=\"toc-subheading"

  /** The opening line of a part. */
  function PartLine(id: string, title: string): string {
    PartPrefix + Anchor(id, title)
  }

  function SectionLine(title: string): string {
    SectionPrefix + (title + "</div>")
  }

  /** A chapter line; a top-level chapter carries the extra class toc-top. */
  function ChapterLine(c: TocChapter, top: bool): string {
    ChapterPrefix + ((if top then " toc-top\">" else "\">") + Anchor(c.id, c.title) + "</div>")
  }

  /** A subheading line; under a top-level chapter it carries toc-top-sub. */
  function SubLine(sub: Sub, top: bool): string {
    SubPrefix + ((if top then " toc-top-sub\">" else "\">") + Anchor(sub.id, sub.title) + "</div>")
  }

  function SubLines(subs: seq<Sub>, top: bool): (r: seq<string>)
    ensures |r| == |subs|
  {
    seq(|subs|, i requires 0 <= i < |subs| => SubLine(subs[i], top))
  }

  function ChapterLines(c: TocChapter, top: bool): seq<string> {
    [ChapterLine(c, top)] + SubLines(c.subs, top)
  }

  /** The lines of the chapters of a section, in order. */
  function ChaptersLines(chs: seq<TocChapter>): seq<string> {
    if chs == [] then []
    else ChaptersLines(chs[..|chs| - 1]) + ChapterLines(Last(chs), false)
  }

  function ChildLines(child: PartChild): seq<string> {
    match child
    case SectionChild(title, _, chs) => [SectionLine(title)] + ChaptersLines(chs)
    case ChapterChild(e) => ChapterLines(e, false)
  }

  function ChildrenLines(children: seq<PartChild>): seq<string> {
    if children == [] then []
    else ChildrenLines(children[..|children| - 1]) + ChildLines(Last(children))
  }

  function ItemLines(item: TocItem): seq<string> {
    match item
    case PartItem(title, id, children) => [PartLine(id, title)] + ChildrenLines(children) + [CloseLine]
    case TopChapter(e) => ChapterLines(e, true)
  }

  function ItemsLines(items: seq<TocItem>): seq<string> {
    if items == [] then []
    else ItemsLines(items[..|items| - 1]) + ItemLines(Last(items))
  }

  /** The lines build_toc_html joins. */
  function TocLines(items: seq<TocItem>): seq<string> {
    [NavOpenLine] + ItemsLines(items) + [NavCloseLine]
  }

  lemma AppendAssoc<T>(a: seq<T>, b: seq<T>, c: seq<T>)
    ensures a + (b + c) == (a + b) + c
  {
  }

  lemma ItemsLinesStep(items: seq<TocItem>, i: nat)
    requires i < |items|
    ensures ItemsLines(items[..i + 1]) == ItemsLines(items[..i]) + ItemLines(items[i])
  {
    assert items[..i + 1][..i] == items[..i];
  }

  lemma ChildrenLinesStep(children: seq<PartChild>, j: nat)
    requires j < |children|
    ensures ChildrenLines(children[..j + 1]) == ChildrenLines(children[..j]) + ChildLines(children[j])
  {
    assert children[..j + 1][..j] == children[..j];
  }

  lemma ChaptersLinesStep(chs: seq<TocChapter>, k: nat)
    requires k < |chs|
    ensures ChaptersLines(chs[..k + 1]) == ChaptersLines(chs[..k]) + ChapterLines(chs[k], false)
  {
    assert chs[..k + 1][..k] == chs[..k];
  }

  /** build_toc_html. */
  method BuildTocHtml(items: seq<TocItem>) returns (html: string)
    ensures html == JoinLines(TocLines(items))
  {
    var lines := [NavOpenLine];
    for i := 0 to |items|
      invariant lines == [NavOpenLine] + ItemsLines(items[..i])
    {
      ghost var start := lines;
      match items[i] {
        case PartItem(title, id, children) =>
          lines := lines + [PartLine(id, title)];
          ghost var head := lines;
          for j := 0 to |children|
            invariant lines == head + ChildrenLines(children[..j])
          {
            ghost var cstart := lines;
            match children[j] {
              case SectionChild(stitle, _, chs) =>
                lines := lines + [SectionLine(stitle)];
                ghost var shead := lines;
                for k := 0 to |chs|
                  invariant lines == shead + ChaptersLines(chs[..k])
                {
                  ghost var kstart := lines;
                  lines := lines + [ChapterLine(chs[k], false)];
                  lines := lines + SubLines(chs[k].subs, false);
                  AppendAssoc(kstart, [ChapterLine(chs[k], false)], SubLines(chs[k].subs, false));
                  ChaptersLinesStep(chs, k);
                  AppendAssoc(shead, ChaptersLines(chs[..k]), ChapterLines(chs[k], false));
                }
                assert chs[..|chs|] == chs;
                AppendAssoc(cstart, [SectionLine(stitle)], ChaptersLines(chs));
              case ChapterChild(e) =>
                lines := lines + [ChapterLine(e, false)];
                lines := lines + SubLines(e.subs, false);
                AppendAssoc(cstart, [ChapterLine(e, false)], SubLines(e.subs, false));
            }
            ChildrenLinesStep(children, j);
            AppendAssoc(head, ChildrenLines(children[..j]), ChildLines(children[j]));
          }
          assert children[..|children|] == children;
          lines := lines + [CloseLine];
          AppendAssoc(start, [PartLine(id, title)], ChildrenLines(children));
          AppendAssoc(start, [PartLine(id, title)] + ChildrenLines(children), [CloseLine]);
        case TopChapter(e) =>
          lines := lines + [ChapterLine(e, true)];
          lines := lines + SubLines(e.subs, true);
          AppendAssoc(start, [ChapterLine(e, true)], SubLines(e.subs, true));
      }
      ItemsLinesStep(items, i);
      AppendAssoc([NavOpenLine], ItemsLines(items[..i]), ItemLines(items[i]));
    }
    assert items[..|items|] == items;
    lines := lines + [NavCloseLine];
    html := JoinLines(lines);
  }

  // The shape of the rendered lines.

  datatype TocLineKind = NavOpenKind | NavCloseKind | PartOpenKind | CloseKind | SectionKind | ChapterKind | SubKind | OtherKind

  /** What kind of TOC line a line is, judged by its fixed head alone. */
  function KindOf(line: string): TocLineKind {
    if line == NavOpenLine then NavOpenKind
    else if line == NavCloseLine then NavCloseKind
    else if line == CloseLine then CloseKind
    else if StartsWith(line, PartPrefix) then PartOpenKind
    else if StartsWith(line, SectionPrefix) then SectionKind
    else if StartsWith(line, ChapterPrefix) then ChapterKind
    else if StartsWith(line, SubPrefix) then SubKind
    else OtherKind
  }

  function Kinds(lines: seq<string>): (r: seq<TocLineKind>)
    ensures |r| == |lines|
  {
    seq(|lines|, i requires 0 <= i < |lines| => KindOf(lines[i]))
  }

  lemma KindsAppend(a: seq<string>, b: seq<string>)
    ensures Kinds(a + b) == Kinds(a) + Kinds(b)
  {
  }

  /** The line kinds a tree calls for, read off the tree alone. */
  function ChapterShape(c: TocChapter): seq<TocLineKind> {
    [ChapterKind] + seq(|c.subs|, _ => SubKind)
  }

  function ChaptersShape(chs: seq<TocChapter>): seq<TocLineKind> {
    if chs == [] then [] else ChaptersShape(chs[..|chs| - 1]) + ChapterShape(Last(chs))
  }

  function ChildShape(child: PartChild): seq<TocLineKind> {
    match child
    case SectionChild(_, _, chs) => [SectionKind] + ChaptersShape(chs)
    case ChapterChild(e) => ChapterShape(e)
  }

  function ChildrenShape(children: seq<PartChild>): seq<TocLineKind> {
    if children == [] then [] else ChildrenShape(children[..|children| - 1]) + ChildShape(Last(children))
  }

  function ItemShape(item: TocItem): seq<TocLineKind> {
    match item
    case PartItem(_, _, children) => [PartOpenKind] + ChildrenShape(children) + [CloseKind]
    case TopChapter(e) => ChapterShape(e)
  }

  function ItemsShape(items: seq<TocItem>): seq<TocLineKind> {
    if items == [] then [] else ItemsShape(items[..|items| - 1]) + ItemShape(Last(items))
  }

  /** A line is classified by the fixed head it starts with, whatever
      titles and ids follow. */
  lemma PrefixedKind(pre: string, rest: string)
    requires pre == PartPrefix || pre == SectionPrefix || pre == ChapterPrefix || pre == SubPrefix
    ensures KindOf(pre + rest) ==
      if pre == PartPrefix then PartOpenKind
      else if pre == SectionPrefix then SectionKind
      else if pre == ChapterPrefix then ChapterKind
      else SubKind
  {
    var line := pre + rest;
    assert line[..|pre|] == pre;
    assert line[1] == 'd' && line[16] == pre[16] && line[17] == pre[17];
    assert line != NavOpenLine && line != NavCloseLine && line != CloseLine;
  }

  lemma ChapterLinesShape(c: TocChapter, top: bool)
    ensures Kinds(ChapterLines(c, top)) == ChapterShape(c)
  {
    PrefixedKind(ChapterPrefix, (if top then " toc-top\">" else "\">") + Anchor(c.id, c.title) + "</div>");
    var subs := SubLines(c.subs, top);
    forall i | 0 <= i < |subs|
      ensures KindOf(subs[i]) == SubKind
    {
      var sub := c.subs[i];
      PrefixedKind(SubPrefix, (if top then " toc-top-sub\">" else "\">") + Anchor(sub.id, sub.title) + "</div>");
    }
    KindsAppend([ChapterLine(c, top)], subs);
  }

  lemma {:induction false} ChaptersLinesShape(chs: seq<TocChapter>)
    ensures Kinds(ChaptersLines(chs)) == ChaptersShape(chs)
    decreases |chs|
  {
    if chs != [] {
      ChaptersLinesShape(chs[..|chs| - 1]);
      ChapterLinesShape(Last(chs), false);
      KindsAppend(ChaptersLines(chs[..|chs| - 1]), ChapterLines(Last(chs), false));
    }
  }

  lemma ChildLinesShape(child: PartChild)
    ensures Kinds(ChildLines(child)) == ChildShape(child)
  {
    match child {
      case SectionChild(title, _, chs) =>
        PrefixedKind(SectionPrefix, title + "</div>");
        ChaptersLinesShape(chs);
        KindsAppend([SectionLine(title)], ChaptersLines(chs));
      case ChapterChild(e) =>
        ChapterLinesShape(e, false);
    }
  }

  lemma {:induction false} ChildrenLinesShape(children: seq<PartChild>)
    ensures Kinds(ChildrenLines(children)) == ChildrenShape(children)
    decreases |children|
  {
    if children != [] {
      ChildrenLinesShape(children[..|children| - 1]);
      ChildLinesShape(Last(children));
      KindsAppend(ChildrenLines(children[..|children| - 1]), ChildLines(Last(children)));
    }
  }

  lemma ItemLinesShape(item: TocItem)
    ensures Kinds(ItemLines(item)) == ItemShape(item)
  {
    match item {
      case PartItem(title, id, children) =>
        PrefixedKind(PartPrefix, Anchor(id, title));
        ChildrenLinesShape(children);
        KindsAppend([PartLine(id, title)], ChildrenLines(children));
        KindsAppend([PartLine(id, title)] + ChildrenLines(children), [CloseLine]);
      case TopChapter(e) =>
        ChapterLinesShape(e, true);
    }
  }

  lemma {:induction false} ItemsLinesShape(items: seq<TocItem>)
    ensures Kinds(ItemsLines(items)) == ItemsShape(items)
    decreases |items|
  {
    if items != [] {
      ItemsLinesShape(items[..|items| - 1]);
      ItemLinesShape(Last(items));
      KindsAppend(ItemsLines(items[..|items| - 1]), ItemLines(Last(items)));
    }
  }

  /** The rendered TOC mirrors the tree: the nav opens and closes it, each
      part is one opening line, its children and one closing line, each
      section one line followed by its chapters, each chapter one line
      followed by one line per subheading, all in tree order. */
  lemma TocLinesShape(items: seq<TocItem>)
    ensures Kinds(TocLines(items)) == [NavOpenKind] + ItemsShape(items) + [NavCloseKind]
  {
    ItemsLinesShape(items);
    KindsAppend([NavOpenLine], ItemsLines(items));
    KindsAppend([NavOpenLine] + ItemsLines(items), [NavCloseLine]);
    NavKinds();
  }

  /** The opening and closing nav lines are of their own kinds. */
  lemma NavKinds()
    ensures Kinds([NavOpenLine]) == [NavOpenKind] && Kinds([NavCloseLine]) == [NavCloseKind]
  {
    assert KindOf(NavOpenLine) == NavOpenKind;
    assert KindOf(NavCloseLine) == NavCloseKind;
  }
}
