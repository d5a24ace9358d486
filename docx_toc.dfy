/** The DOCX exporter's contents page (add_toc_page): a flat listing that
    names each part once, each section once per part, every chapter with
    its display title, and under a numbered chapter its subheadings
    "N.i heading". Chapter files are read through the oracle read, which
    answers None for a file that is not there. Fonts, sizes, colours and
    indents are styling and are not part of the model; the kind of each
    paragraph records which of the four indents it gets. */
module DocxToc {
  import opened Text
  import opened Outline
  import opened Numbering
  import opened Toc
  import EpubToc

  /** One paragraph of the contents page. */
  datatype Paragraph =
    | PageHeading(text: string)
    | PartHeading(text: string)
    | SectionHeading(text: string)
    | ChapterHeading(text: string)
    | SubHeading(text: string)

  /** The heading of the contents page. */
  const ContentsTitle: string := "目录"

  /** The page so far and the two seen-sets. */
  datatype Listing = Listing(paras: seq<Paragraph>, seenParts: set<string>, seenSections: set<string>)

  const ListingStart := Listing([PageHeading(ContentsTitle)], {}, {})

  /** "N.i heading" for the i-th heading, i from 1. */
  function SubTitle(n: nat, i: nat, heading: string): string {
    Digits(n) + "." + Digits(i) + " " + heading
  }

  /** The h2 headings add_toc_page looks up for a chapter: only for a
      numbered chapter whose file reads to a non-empty text, taken from the
      body left after the guiding question. */
  function ChapterH2(ch: Chapter, content: Option<string>): seq<string> {
    if NumTruthy(ch.chapterNum) && content.Some? && content.value != "" then
      H2Headings(ExtractQuestion(content.value, ch.file, SkipQuestionFiles).1)
    else []
  }

  /** The subheading lines of a chapter with the given headings, numbered
      from 1; none for an unnumbered chapter. */
  function SubTitles(num: Option<nat>, h2: seq<string>): (r: seq<string>)
    ensures |r| == if NumTruthy(num) then |h2| else 0
  {
    if NumTruthy(num) then seq(|h2|, i requires 0 <= i < |h2| => SubTitle(num.value, i + 1, h2[i]))
    else []
  }

  /** The paragraphs one chapter contributes: its display title, then its
      subheadings. */
  function ChapterParas(ch: Chapter, h2: seq<string>): (r: seq<Paragraph>)
    ensures |r| == 1 + |SubTitles(ch.chapterNum, h2)|
  {
    [ChapterHeading(DisplayTitle(ch.chapterNum, ch.title))] + SubParas(SubTitles(ch.chapterNum, h2))
  }

  /** One subheading paragraph per subheading line. */
  function SubParas(subs: seq<string>): (r: seq<Paragraph>)
    ensures |r| == |subs|
    ensures forall i :: 0 <= i < |subs| ==> r[i] == SubHeading(subs[i])
  {
    if subs == [] then [] else SubParas(subs[..|subs| - 1]) + [SubHeading(Last(subs))]
  }

  /** A part not seen before gets a heading and clears the seen sections. */
  function ListPart(s: Listing, ch: Chapter): Listing {
    if Present(ch.part) && ch.part.value !in s.seenParts then
      Listing(s.paras + [PartHeading(ch.part.value)], s.seenParts + {ch.part.value}, {})
    else s
  }

  /** A section not seen since the last new part gets a heading. */
  function ListSection(s: Listing, ch: Chapter): Listing {
    if Present(ch.section) && ch.section.value !in s.seenSections then
      s.(paras := s.paras + [SectionHeading(ch.section.value)], seenSections := s.seenSections + {ch.section.value})
    else s
  }

  /** One turn of the loop. */
  function ListStep(s: Listing, ch: Chapter, h2: seq<string>): Listing {
    ListStepWith(s, ch, ChapterParas(ch, h2))
  }

  /** One turn of the loop, with the chapter's own lines given. */
  function ListStepWith(s: Listing, ch: Chapter, block: seq<Paragraph>): Listing {
    var s1 := ListSection(ListPart(s, ch), ch);
    s1.(paras := s1.paras + block)
  }

  /** The page after the given chapters. */
  function ListingOf(chs: seq<Chapter>, read: string -> Option<string>): Listing {
    if chs == [] then ListingStart
    else ListStep(ListingOf(chs[..|chs| - 1], read), Last(chs), ChapterH2(Last(chs), read(Last(chs).file)))
  }

  /** add_toc_page. */
  method AddTocPage(chapters: seq<Chapter>, read: string -> Option<string>) returns (paras: seq<Paragraph>)
    ensures paras == ListingOf(chapters, read).paras
  {
    paras := [PageHeading(ContentsTitle)];
    var seenParts: set<string> := {};
    var seenSections: set<string> := {};
    for i := 0 to |chapters|
      invariant Listing(paras, seenParts, seenSections) == ListingOf(chapters[..i], read)
    {
      var ch := chapters[i];
      assert chapters[..i + 1][..i] == chapters[..i];
      if Present(ch.part) && ch.part.value !in seenParts {
        seenParts := seenParts + {ch.part.value};
        seenSections := {};
        paras := paras + [PartHeading(ch.part.value)];
      }
      if Present(ch.section) && ch.section.value !in seenSections {
        seenSections := seenSections + {ch.section.value};
        paras := paras + [SectionHeading(ch.section.value)];
      }
      var h2 := ChapterHeadingsOf(ch, read);
      var block := ChapterBlock(ch, h2);
      paras := paras + block;
    }
    assert chapters[..|chapters|] == chapters;
  }

  /** The chapter line and, for a numbered chapter, its subheading lines. */
  method ChapterBlock(ch: Chapter, h2: seq<string>) returns (block: seq<Paragraph>)
    ensures block == ChapterParas(ch, h2)
  {
    block := [ChapterHeading(DisplayTitle(ch.chapterNum, ch.title))];
    if NumTruthy(ch.chapterNum) {
      ghost var subs := SubTitles(ch.chapterNum, h2);
      for i := 0 to |h2|
        invariant block == [ChapterHeading(DisplayTitle(ch.chapterNum, ch.title))]
          + SubParas(subs[..i])
      {
        assert subs[..i + 1][..i] == subs[..i];
        block := block + [SubHeading(SubTitle(ch.chapterNum.value, i + 1, h2[i]))];
      }
      assert subs[..|h2|] == subs;
    }
  }

  /** The lookup of a chapter's h2 headings: the file is read only for a
      numbered chapter, and a missing or empty file gives none. */
  method ChapterHeadingsOf(ch: Chapter, read: string -> Option<string>) returns (h2: seq<string>)
    ensures h2 == ChapterH2(ch, read(ch.file))
  {
    h2 := [];
    if NumTruthy(ch.chapterNum) {
      var content := read(ch.file);
      if content.Some? && content.value != "" {
        var split := ExtractQuestion(content.value, ch.file, SkipQuestionFiles);
        h2 := ExtractH2Headings(split.1);
      }
    }
  }

  // ---------------------------------------------------------------------
  // What the page shows
  // ---------------------------------------------------------------------

  /** The texts of the paragraphs of one kind, in page order. */
  function TextsOf(paras: seq<Paragraph>, kind: Kind): seq<string> {
    if paras == [] then []
    else TextsOf(paras[..|paras| - 1], kind) + (if OfKind(Last(paras), kind) then [Last(paras).text] else [])
  }

  /** The three kinds of heading line the page is read by. */
  datatype Kind = Parts | Sections | Chapters

  predicate OfKind(p: Paragraph, kind: Kind) {
    match kind
    case Parts => p.PartHeading?
    case Sections => p.SectionHeading?
    case Chapters => p.ChapterHeading?
  }

  lemma {:induction false} TextsAppend(a: seq<Paragraph>, b: seq<Paragraph>, kind: Kind)
    ensures TextsOf(a + b, kind) == TextsOf(a, kind) + TextsOf(b, kind)
    decreases |b|
  {
    if b == [] {
      assert a + b == a;
    } else {
      var init := b[..|b| - 1];
      TextsAppend(a, init, kind);
      assert (a + b)[..|a + b| - 1] == a + init;
    }
  }

  /** The display titles of the chapters, in order. */
  function DisplayTitles(chs: seq<Chapter>): seq<string> {
    if chs == [] then []
    else DisplayTitles(chs[..|chs| - 1]) + [DisplayTitle(Last(chs).chapterNum, Last(chs).title)]
  }

  /** A chapter contributes exactly one chapter line, its display title,
      and no part or section heading. */
  lemma ChapterParasKinds(ch: Chapter, h2: seq<string>)
    ensures TextsOf(ChapterParas(ch, h2), Chapters) == [DisplayTitle(ch.chapterNum, ch.title)]
    ensures TextsOf(ChapterParas(ch, h2), Parts) == []
    ensures TextsOf(ChapterParas(ch, h2), Sections) == []
  {
    var subs := SubTitles(ch.chapterNum, h2);
    var tail := SubParas(subs);
    NoneOfKind(tail, Chapters);
    NoneOfKind(tail, Parts);
    NoneOfKind(tail, Sections);
    var head := [ChapterHeading(DisplayTitle(ch.chapterNum, ch.title))];
    assert head == [] + head;
    TextsAppend(head, tail, Chapters);
    TextsAppend(head, tail, Parts);
    TextsAppend(head, tail, Sections);
  }

  /** Subheading lines are of none of the three heading kinds. */
  lemma {:induction false} NoneOfKind(ps: seq<Paragraph>, kind: Kind)
    requires forall i :: 0 <= i < |ps| ==> ps[i].SubHeading?
    ensures TextsOf(ps, kind) == []
    decreases |ps|
  {
    if ps != [] {
      NoneOfKind(ps[..|ps| - 1], kind);
    }
  }

  /** The page lists every part once, in order of first appearance, and
      every chapter once, in list order, under the page heading. */
  lemma {:induction false} ListingShape(chs: seq<Chapter>, read: string -> Option<string>)
    ensures var l := ListingOf(chs, read);
      && l.paras != [] && l.paras[0] == PageHeading(ContentsTitle)
      && TextsOf(l.paras, Parts) == SeenParts(chs)
      && TextsOf(l.paras, Chapters) == DisplayTitles(chs)
      && (forall p :: p in l.seenParts <==> p in SeenParts(chs))
  {
    if chs == [] {
      assert TextsOf(ListingStart.paras, Parts) == TextsOf([], Parts) + [];
      assert TextsOf(ListingStart.paras, Chapters) == TextsOf([], Chapters) + [];
    } else {
      var init := chs[..|chs| - 1];
      var ch := Last(chs);
      ListingShape(init, read);
      var h2 := ChapterH2(ch, read(ch.file));
      ChapterParasKinds(ch, h2);
      StepShape(ListingOf(init, read), ch, ChapterParas(ch, h2), SeenParts(init));
    }
  }

  lemma {:induction false} StepShape(s: Listing, ch: Chapter, block: seq<Paragraph>, parts: seq<string>)
    requires s.paras != [] && s.paras[0] == PageHeading(ContentsTitle)
    requires forall p :: p in s.seenParts <==> p in parts
    requires TextsOf(block, Parts) == []
    ensures var s' := ListStepWith(s, ch, block);
      && s'.paras != [] && s'.paras[0] == PageHeading(ContentsTitle)
      && TextsOf(s'.paras, Parts) == TextsOf(s.paras, Parts) + NextParts(parts, ch)[|parts|..]
      && TextsOf(s'.paras, Chapters) == TextsOf(s.paras, Chapters) + TextsOf(block, Chapters)
      && (forall p :: p in s'.seenParts <==> p in NextParts(parts, ch))
  {
    StepParts(s, ch, block, parts);
    StepPartTexts(s, ch, block, parts);
    StepChapterTexts(s, ch, block);
    StepTexts(s, ch, block, Parts);
  }

  /** The part lines grow by the part the part list gains. */
  lemma {:induction false} StepPartTexts(s: Listing, ch: Chapter, block: seq<Paragraph>, parts: seq<string>)
    requires forall p :: p in s.seenParts <==> p in parts
    requires TextsOf(block, Parts) == []
    ensures TextsOf(ListStepWith(s, ch, block).paras, Parts) == TextsOf(s.paras, Parts) + NextParts(parts, ch)[|parts|..]
  {
    StepTexts(s, ch, block, Parts);
    HeadingTexts(s, ch);
    var t := TextsOf(s.paras, Parts);
    var extra := NextParts(parts, ch)[|parts|..];
    assert extra == TextsOf(NewHeadings(s, ch), Parts);
    assert t + extra + [] == t + extra;
  }

  /** The chapter lines grow by the block's chapter lines. */
  lemma {:induction false} StepChapterTexts(s: Listing, ch: Chapter, block: seq<Paragraph>)
    ensures TextsOf(ListStepWith(s, ch, block).paras, Chapters) == TextsOf(s.paras, Chapters) + TextsOf(block, Chapters)
  {
    StepTexts(s, ch, block, Chapters);
    HeadingTexts(s, ch);
    var t := TextsOf(s.paras, Chapters);
    assert t + [] == t;
  }

  /** The seen parts follow the part list. */
  lemma {:induction false} StepParts(s: Listing, ch: Chapter, block: seq<Paragraph>, parts: seq<string>)
    requires forall p :: p in s.seenParts <==> p in parts
    ensures forall p :: p in ListStepWith(s, ch, block).seenParts <==> p in NextParts(parts, ch)
  {
    HeadingSeen(s, ch, block);
  }

  /** The part heading and the section heading a chapter brings, before
      its own lines. */
  function NewHeadings(s: Listing, ch: Chapter): seq<Paragraph> {
    ListSection(ListPart(s, ch), ch).paras[|s.paras|..]
  }

  /** What one turn adds, kind by kind: its headings, then the chapter's
      lines. */
  lemma {:induction false} StepTexts(s: Listing, ch: Chapter, block: seq<Paragraph>, kind: Kind)
    ensures var s' := ListStepWith(s, ch, block);
      && ListSection(ListPart(s, ch), ch).paras == s.paras + NewHeadings(s, ch)
      && s'.paras == s.paras + NewHeadings(s, ch) + block
      && TextsOf(s'.paras, kind) == TextsOf(s.paras, kind) + TextsOf(NewHeadings(s, ch), kind) + TextsOf(block, kind)
  {
    var heads := NewHeadings(s, ch);
    var s1 := ListSection(ListPart(s, ch), ch);
    assert s1.paras == s.paras + heads;
    TextsAppend(s.paras + heads, block, kind);
    TextsAppend(s.paras, heads, kind);
  }

  /** A new part brings its heading; a section not seen since the last new
      part brings its heading. */
  lemma {:induction false} HeadingTexts(s: Listing, ch: Chapter)
    ensures var newPart := Present(ch.part) && ch.part.value !in s.seenParts;
      var seen := if newPart then {} else s.seenSections;
      var newSection := Present(ch.section) && ch.section.value !in seen;
      && TextsOf(NewHeadings(s, ch), Parts) == (if newPart then [ch.part.value] else [])
      && TextsOf(NewHeadings(s, ch), Chapters) == []
      && TextsOf(NewHeadings(s, ch), Sections) == (if newSection then [ch.section.value] else [])
  {
    var newPart := Present(ch.part) && ch.part.value !in s.seenParts;
    var seen := if newPart then {} else s.seenSections;
    var newSection := Present(ch.section) && ch.section.value !in seen;
    var part := if newPart then Some(ch.part.value) else None;
    var section := if newSection then Some(ch.section.value) else None;
    assert ListSection(ListPart(s, ch), ch).paras == s.paras + HeadsOf(part, section);
    assert NewHeadings(s, ch) == HeadsOf(part, section);
    HeadsTexts(part, section);
  }

  /** An optional part heading followed by an optional section heading. */
  function HeadsOf(part: Option<string>, section: Option<string>): seq<Paragraph> {
    (if part.Some? then [PartHeading(part.value)] else [])
      + (if section.Some? then [SectionHeading(section.value)] else [])
  }

  lemma {:induction false} HeadsTexts(part: Option<string>, section: Option<string>)
    ensures TextsOf(HeadsOf(part, section), Parts) == (if part.Some? then [part.value] else [])
    ensures TextsOf(HeadsOf(part, section), Chapters) == []
    ensures TextsOf(HeadsOf(part, section), Sections) == (if section.Some? then [section.value] else [])
  {
    var partHeads: seq<Paragraph> := if part.Some? then [PartHeading(part.value)] else [];
    var sectionHeads: seq<Paragraph> := if section.Some? then [SectionHeading(section.value)] else [];
    TextsAppend(partHeads, sectionHeads, Parts);
    TextsAppend(partHeads, sectionHeads, Chapters);
    TextsAppend(partHeads, sectionHeads, Sections);
    if part.Some? {
      TextsOne(PartHeading(part.value), Parts);
      TextsOne(PartHeading(part.value), Chapters);
      TextsOne(PartHeading(part.value), Sections);
    }
    if section.Some? {
      TextsOne(SectionHeading(section.value), Parts);
      TextsOne(SectionHeading(section.value), Chapters);
      TextsOne(SectionHeading(section.value), Sections);
    }
  }

  /** A new part is added to the seen parts and clears the seen sections; a
      new section is added to them. */
  lemma HeadingSeen(s: Listing, ch: Chapter, block: seq<Paragraph>)
    ensures var newPart := Present(ch.part) && ch.part.value !in s.seenParts;
      var seen := if newPart then {} else s.seenSections;
      var newSection := Present(ch.section) && ch.section.value !in seen;
      && ListStepWith(s, ch, block).seenParts == (if newPart then s.seenParts + {ch.part.value} else s.seenParts)
      && ListStepWith(s, ch, block).seenSections == (if newSection then seen + {ch.section.value} else seen)
  {
  }

  /** Wherever the listing stands, a chapter b that follows a chapter a of
      the same section lists that section again when b opens a part not yet
      listed, and not at all when b is of a's part. */
  lemma {:induction false} SectionPerPart(s: Listing, a: Chapter, b: Chapter, ha: seq<string>, hb: seq<string>)
    requires Present(a.part) && Present(b.part) && Present(a.section) && b.section == a.section
    ensures var s1 := ListStep(s, a, ha);
      b.part.value !in s1.seenParts ==>
        TextsOf(ListStep(s1, b, hb).paras, Sections) == TextsOf(s1.paras, Sections) + [b.section.value]
    ensures var s1 := ListStep(s, a, ha);
      b.part == a.part ==>
        TextsOf(ListStep(s1, b, hb).paras, Sections) == TextsOf(s1.paras, Sections)
  {
    var s1 := ListStep(s, a, ha);
    HeadingSeen(s, a, ChapterParas(a, ha));
    assert a.part.value in s1.seenParts && a.section.value in s1.seenSections;
    SectionAfter(s1, b, hb);
  }

  /** The section lines one chapter adds to a listing: its section, exactly
      when it opens a new part or its section is not yet listed. */
  lemma {:induction false} SectionAfter(s: Listing, b: Chapter, hb: seq<string>)
    requires Present(b.part) && Present(b.section)
    ensures var extra := if b.part.value !in s.seenParts || b.section.value !in s.seenSections then [b.section.value] else [];
      TextsOf(ListStep(s, b, hb).paras, Sections) == TextsOf(s.paras, Sections) + extra
  {
    ChapterParasKinds(b, hb);
    StepTexts(s, b, ChapterParas(b, hb), Sections);
    HeadingTexts(s, b);
    var t := TextsOf(s.paras, Sections) + TextsOf(NewHeadings(s, b), Sections);
    assert t + [] == t;
  }

  lemma TextsOne(p: Paragraph, kind: Kind)
    ensures TextsOf([p], kind) == if OfKind(p, kind) then [p.text] else []
  {
    assert [p][..0] == [];
  }

  lemma TextsPair(p: Paragraph, q: Paragraph, kind: Kind)
    ensures TextsOf([p, q], kind) == TextsOf([p], kind) + (if OfKind(q, kind) then [q.text] else [])
  {
    assert [p, q][..1] == [p];
  }

  /** The subheading lines carry the same titles as the subheading entries
      the PDF and EPUB tables of contents give a chapter with the same
      headings. */
  lemma SubTitlesAgree(num: Option<nat>, cid: string, h2: seq<string>, i: nat)
    requires NumTruthy(num) && i < |h2|
    ensures SubTitles(num, h2)[i] == Subheadings(num, cid, h2)[i].title
    ensures SubTitles(num, h2)[i] == Digits(num.value) + "." + Digits(i + 1) + " " + h2[i]
  {
  }

  /** The three exporters show a chapter under one title: the DOCX
      contents line, the PDF table-of-contents entry and the EPUB
      navigation link carry the same string, `N. title` for a truthy number
      and the bare title otherwise, whatever headings each found. The PDF
      anchor and the EPUB link name the chapter by the same id. */
  lemma ChapterTitlesAgree(ch: Chapter, content: string, hDocx: seq<string>, hEpub: seq<string>)
    ensures var docx := ChapterParas(ch, hDocx)[0].text;
      var pdf := PdfEntry(ch, content);
      var epub := EpubToc.ChapterEntry(ch, hEpub).link;
      && docx == pdf.title == epub.title
      && (NumTruthy(ch.chapterNum) ==> docx == Digits(ch.chapterNum.value) + ". " + ch.title)
      && (!NumTruthy(ch.chapterNum) ==> docx == ch.title)
      && epub.uid == pdf.id && epub.href == EpubToc.Xhtml(pdf.id)
  {
  }

  /** A chapter without a truthy number, or whose file is missing or
      empty, gets its title line only, and an unnumbered one shows its
      bare title. */
  lemma BareChapter(ch: Chapter, content: Option<string>)
    requires !NumTruthy(ch.chapterNum) || content.None? || content == Some("")
    ensures ChapterParas(ch, ChapterH2(ch, content)) == [ChapterHeading(DisplayTitle(ch.chapterNum, ch.title))]
    ensures !NumTruthy(ch.chapterNum) ==> ChapterParas(ch, ChapterH2(ch, content)) == [ChapterHeading(ch.title)]
  {
    assert ChapterH2(ch, content) == [];
  }
}
