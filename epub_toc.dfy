/** The EPUB exporter's main loop as far as the book's structure goes: the
    spine (the reading order of the XHTML files), the navigation tree of
    parts, sections, chapters and sub-links, and the chapter template
    build_chapter_html. The exporter keeps the open part and the open
    section as tuples whose lists are shared with the tree, so appending to
    them grows the tree; here the open part is the last top-level node and
    an attached section is the last child of that part, while a section
    opened with no part open is held apart from the tree. */
module EpubToc {
  import opened Text
  import opened Outline
  import opened Numbering
  import opened HtmlRewrite
  import opened Toc

  // ---------------------------------------------------------------------
  // The navigation tree
  // ---------------------------------------------------------------------

  /** epub.Link: the file (and fragment) it points at, its title, its uid. */
  datatype Link = Link(href: string, title: string, uid: string)

  /** A chapter's entry: a bare link, or the link with its sub-links. */
  datatype Entry = Bare(link: Link) | WithSubs(link: Link, subs: seq<Link>)

  /** What a part holds: sections, and chapters filed outside sections. */
  datatype EpubChild = SectionNode(link: Link, entries: seq<Entry>) | ChildEntry(entry: Entry)

  /** A top-level node. TopSection is a section opened with no part open;
      the exporter itself never puts one in the tree (see EpubEnterSection). */
  datatype EpubItem =
    | PartNode(link: Link, children: seq<EpubChild>)
    | TopSection(link: Link, entries: seq<Entry>)
    | TopEntry(entry: Entry)

  /** Where current_toc_section stands: none; the last child of the open
      part; the last top-level node; or a section held outside the tree. */
  datatype SectionCursor = NoSection | InPart | AtTop | Detached(link: Link, entries: seq<Entry>)

  /** The loop's state: toc, spine, current_toc_part (as a flag: the open
      part is the last node of toc), current_toc_section, part_counter,
      seen_parts and seen_sections. */
  datatype EpubState = EpubState(
    toc: seq<EpubItem>,
    spine: seq<string>,
    partOpen: bool,
    section: SectionCursor,
    partCounter: nat,
    seenParts: set<string>,
    seenSections: set<string>)

  const EpubStart := EpubState([], ["nav"], false, NoSection, 0, {}, {})

  function Xhtml(id: string): string {
    id + ".xhtml"
  }

  /** Appends a child to the last top-level node when it is a part. */
  function AddToOpenPart(toc: seq<EpubItem>, c: EpubChild): seq<EpubItem> {
    if toc != [] && Last(toc).PartNode? then
      var p := Last(toc);
      toc[..|toc| - 1] + [p.(children := p.children + [c])]
    else toc
  }

  /** Appends an entry to the last child of the last part when it is a
      section. */
  function AddToOpenSection(toc: seq<EpubItem>, e: Entry): seq<EpubItem> {
    if toc != [] && Last(toc).PartNode? && Last(toc).children != [] && Last(Last(toc).children).SectionNode? then
      var p := Last(toc);
      var sec := Last(p.children);
      toc[..|toc| - 1] + [p.(children := p.children[..|p.children| - 1] + [sec.(entries := sec.entries + [e])])]
    else toc
  }

  /** Appends an entry to the last top-level node when it is a section. */
  function AddToTopSection(toc: seq<EpubItem>, e: Entry): seq<EpubItem> {
    if toc != [] && Last(toc).TopSection? then
      var sec := Last(toc);
      toc[..|toc| - 1] + [sec.(entries := sec.entries + [e])]
    else toc
  }

  /** A part met for the first time, outside single-chapter export: its
      page joins the spine, its node the tree, and it becomes the open part
      with no open section. */
  function EpubEnterPart(s: EpubState, ch: Chapter, single: bool): EpubState {
    if !single && Present(ch.part) && ch.part.value !in s.seenParts then
      var n := s.partCounter + 1;
      var id := PartId(n);
      EpubState(s.toc + [PartNode(Link(Xhtml(id), ch.part.value, id), [])], s.spine + [Xhtml(id)],
        true, NoSection, n, s.seenParts + {ch.part.value}, {})
    else s
  }

  /** A section met for the first time in the current part, outside
      single-chapter export: its page joins the spine and it becomes the
      open section, attached to the open part if there is one. With no part
      open the exporter keeps it apart from the tree (fixed = false); the
      corrected loop (fixed = true) puts it at the top level. */
  function EpubEnterSection(s: EpubState, ch: Chapter, single: bool, fixed: bool): EpubState {
    if !single && Present(ch.section) && ch.section.value !in s.seenSections then
      var seen := s.seenSections + {ch.section.value};
      var id := SectionId(|seen|, s.partCounter);
      var link := Link(Xhtml(id), ch.section.value, id);
      var s1 := s.(spine := s.spine + [Xhtml(id)], seenSections := seen);
      if s.partOpen then s1.(toc := AddToOpenPart(s.toc, SectionNode(link, [])), section := InPart)
      else if fixed then s1.(toc := s.toc + [TopSection(link, [])], section := AtTop)
      else s1.(section := Detached(link, []))
    else s
  }

  /** Files an entry: into the open section, else into the open part, else
      at the top level. */
  function EpubPlace(s: EpubState, e: Entry): EpubState {
    match s.section
    case InPart => s.(toc := AddToOpenSection(s.toc, e))
    case AtTop => s.(toc := AddToTopSection(s.toc, e))
    case Detached(link, entries) => s.(section := Detached(link, entries + [e]))
    case NoSection =>
      if s.partOpen then s.(toc := AddToOpenPart(s.toc, ChildEntry(e)))
      else s.(toc := s.toc + [TopEntry(e)])
  }

  // ---------------------------------------------------------------------
  // Chapter entries
  // ---------------------------------------------------------------------

  /** The guiding question and body of a chapter text in the EPUB exporter. */
  function EpubSplit(ch: Chapter, content: string): (Option<string>, string) {
    ExtractQuestion(content, ch.file, SkipQuestionFiles)
  }

  /** The sub-links of a chapter's subheadings: each points into the
      chapter's file at the subheading's id. */
  function SubLinks(cid: string, subs: seq<Sub>): (links: seq<Link>)
    ensures |links| == |subs|
  {
    seq(|subs|, i requires 0 <= i < |subs| => Link(Xhtml(cid) + "#" + subs[i].id, subs[i].title, subs[i].id))
  }

  /** The entry of a chapter whose body has the given h2 headings. */
  function ChapterEntry(ch: Chapter, h2: seq<string>): Entry {
    var cid := ChapterId(ch.file);
    var link := Link(Xhtml(cid), DisplayTitle(ch.chapterNum, ch.title), cid);
    var subs := SubLinks(cid, Subheadings(ch.chapterNum, cid, h2));
    if subs != [] then WithSubs(link, subs) else Bare(link)
  }

  /** A chapter's entry carries sub-links exactly when the chapter is
      numbered and has h2 headings; sub-link i points at
      <cid>.xhtml#<cid>-h2-i (i from 1), the id that the chapter's i-th
      <h2> tag receives, and is titled "N.i heading". */
  lemma {:induction false} ChapterEntryShape(ch: Chapter, h2: seq<string>)
    ensures var cid := ChapterId(ch.file);
      var e := ChapterEntry(ch, h2);
      && e.link == Link(cid + ".xhtml", DisplayTitle(ch.chapterNum, ch.title), cid)
      && (e.WithSubs? <==> NumTruthy(ch.chapterNum) && h2 != [])
      && (e.WithSubs? ==> |e.subs| == |h2| && forall i :: 0 <= i < |h2| ==>
           && e.subs[i].href == cid + ".xhtml#" + cid + "-h2-" + Digits(i + 1)
           && H2IdTag(cid, i + 1) == "<h2 id=\"" + e.subs[i].uid + "\">"
           && e.subs[i].title == Digits(ch.chapterNum.value) + "." + Digits(i + 1) + " " + h2[i])
  {
    var cid := ChapterId(ch.file);
    var e := ChapterEntry(ch, h2);
    if e.WithSubs? {
      forall i | 0 <= i < |h2|
        ensures && e.subs[i].href == cid + ".xhtml#" + cid + "-h2-" + Digits(i + 1)
          && H2IdTag(cid, i + 1) == "<h2 id=\"" + e.subs[i].uid + "\">"
          && e.subs[i].title == Digits(ch.chapterNum.value) + "." + Digits(i + 1) + " " + h2[i]
      {
        SubLinkAt(ch.chapterNum, cid, h2, i);
      }
    }
  }

  /** Sub-link i of a numbered chapter. */
  lemma {:induction false} SubLinkAt(num: Option<nat>, cid: string, h2: seq<string>, i: nat)
    requires NumTruthy(num) && i < |h2|
    ensures var l := SubLinks(cid, Subheadings(num, cid, h2))[i];
      && l.href == cid + ".xhtml#" + cid + "-h2-" + Digits(i + 1)
      && H2IdTag(cid, i + 1) == "<h2 id=\"" + l.uid + "\">"
      && l.title == Digits(num.value) + "." + Digits(i + 1) + " " + h2[i]
  {
    SubheadingsTargetH2Tags(num, cid, h2, i);
    HrefJoin(cid, Digits(i + 1));
  }

  /** The href of a sub-link, regrouped. */
  lemma {:induction false} HrefJoin(cid: string, d: string)
    ensures Xhtml(cid) + "#" + (cid + "-h2-" + d) == cid + ".xhtml#" + cid + "-h2-" + d
  {
    assert ".xhtml" + "#" == ".xhtml#";
    calc {
      Xhtml(cid) + "#" + (cid + "-h2-" + d);
      (cid + ".xhtml") + "#" + ((cid + "-h2-") + d);
      { AppendAssoc(cid, ".xhtml", "#"); }
      (cid + ".xhtml#") + ((cid + "-h2-") + d);
      { AppendAssoc(cid + ".xhtml#", cid + "-h2-", d); }
      ((cid + ".xhtml#") + (cid + "-h2-")) + d;
      { AppendAssoc(cid + ".xhtml#", cid, "-h2-"); }
      cid + ".xhtml#" + cid + "-h2-" + d;
    }
  }

  /** The spine files of a chapter: its question page, when it has a
      question, and its own file. */
  function ChapterFiles(q: Option<string>, cid: string): (files: seq<string>)
    ensures |files| == if Present(q) then 2 else 1
    ensures files[|files| - 1] == cid + ".xhtml"
    ensures Present(q) ==> files[0] == "question-" + cid + ".xhtml"
  {
    (if Present(q) then [Xhtml("question-" + cid)] else []) + [Xhtml(cid)]
  }

  /** The entry of a chapter with the given text. */
  function EpubEntry(ch: Chapter, content: string): Entry {
    ChapterEntry(ch, H2Headings(EpubSplit(ch, content).1))
  }

  // ---------------------------------------------------------------------
  // The loop
  // ---------------------------------------------------------------------

  /** One turn of the loop; an unreadable chapter is skipped. */
  function EpubStep(s: EpubState, ch: Chapter, content: Option<string>, single: bool, fixed: bool): EpubState {
    if content.None? then s
    else
      var files := ChapterFiles(EpubSplit(ch, content.value).0, ChapterId(ch.file));
      EpubFile(s, ch, files, EpubEntry(ch, content.value), single, fixed)
  }

  /** A readable chapter with its spine files and its entry: its part and
      section are entered, its files join the spine and its entry is filed. */
  function EpubFile(s: EpubState, ch: Chapter, files: seq<string>, e: Entry, single: bool, fixed: bool): EpubState {
    var s1 := EpubEnterSection(EpubEnterPart(s, ch, single), ch, single, fixed);
    EpubPlace(s1.(spine := s1.spine + files), e)
  }

  /** The loop over a chapter list, as the exporter runs it (fixed = false)
      or corrected (fixed = true). */
  function EpubRun(chs: seq<Chapter>, read: string -> Option<string>, single: bool, fixed: bool): EpubState {
    if chs == [] then EpubStart
    else EpubStep(EpubRun(chs[..|chs| - 1], read, single, fixed), Last(chs), read(Last(chs).file), single, fixed)
  }

  lemma EpubRunStep(chs: seq<Chapter>, read: string -> Option<string>, single: bool, i: nat)
    requires i < |chs|
    ensures EpubRun(chs[..i + 1], read, single, false) == EpubStep(EpubRun(chs[..i], read, single, false), chs[i], read(chs[i].file), single, false)
  {
    assert chs[..i + 1][..i] == chs[..i];
  }

  /** The main loop's accumulators for the book's structure. */
  class EpubBuilder {
    var toc: seq<EpubItem>
    var spine: seq<string>
    var partOpen: bool
    var section: SectionCursor
    var partCounter: nat
    var seenParts: set<string>
    var seenSections: set<string>

    function State(): EpubState
      reads this
    {
      EpubState(toc, spine, partOpen, section, partCounter, seenParts, seenSections)
    }

    constructor()
      ensures State() == EpubStart
    {
      toc := [];
      spine := ["nav"];
      partOpen := false;
      section := NoSection;
      partCounter := 0;
      seenParts := {};
      seenSections := {};
    }

    /** The part page and navigation part of a chapter's part, the first
        time the part is met. */
    method OpenPart(ch: Chapter, single: bool)
      modifies this
      ensures State() == EpubEnterPart(old(State()), ch, single)
    {
      if !single && ch.part.Some? && ch.part.value != "" && ch.part.value !in seenParts {
        seenParts := seenParts + {ch.part.value};
        partCounter := partCounter + 1;
        var partId := PartId(partCounter);
        spine := spine + [partId + ".xhtml"];
        toc := toc + [PartNode(Link(partId + ".xhtml", ch.part.value, partId), [])];
        partOpen := true;
        section := NoSection;
        seenSections := {};
      }
    }

    /** The section page and navigation section of a chapter's section, the
        first time the section is met in the current part. */
    method OpenSection(ch: Chapter, single: bool)
      modifies this
      ensures State() == EpubEnterSection(old(State()), ch, single, false)
    {
      if !single && ch.section.Some? && ch.section.value != "" && ch.section.value !in seenSections {
        seenSections := seenSections + {ch.section.value};
        var sectionId := SectionId(|seenSections|, partCounter);
        spine := spine + [sectionId + ".xhtml"];
        var link := Link(sectionId + ".xhtml", ch.section.value, sectionId);
        if partOpen {
          toc := AddToOpenPart(toc, SectionNode(link, []));
          section := InPart;
        } else {
          section := Detached(link, []);
        }
      }
    }

    /** The question page and chapter file of a chapter, and its entry
        filed where EpubPlace says. */
    method AddChapter(ch: Chapter, content: string)
      modifies this
      ensures State() == EpubPlace(old(State()).(spine := old(spine) + ChapterFiles(EpubSplit(ch, content).0, ChapterId(ch.file))), EpubEntry(ch, content))
    {
      var question, entry := ChapterEntryOf(ch, content);
      AddFiles(question, ChapterId(ch.file));
      Place(entry);
    }

    /** The question page, when there is a question, and the chapter file
        join the spine. */
    method AddFiles(question: Option<string>, chapterId: string)
      modifies this
      ensures State() == old(State()).(spine := old(spine) + ChapterFiles(question, chapterId))
    {
      if question.Some? && question.value != "" {
        spine := spine + ["question-" + chapterId + ".xhtml"];
      }
      spine := spine + [chapterId + ".xhtml"];
    }

    /** Files a chapter entry into the open section, else the open part,
        else at the top level. */
    method Place(entry: Entry)
      modifies this
      ensures State() == EpubPlace(old(State()), entry)
    {
      match section
      case InPart =>
        toc := AddToOpenSection(toc, entry);
      case AtTop =>
        toc := AddToTopSection(toc, entry);
      case Detached(link, entries) =>
        section := Detached(link, entries + [entry]);
      case NoSection =>
        if partOpen {
          toc := AddToOpenPart(toc, ChildEntry(entry));
        } else {
          toc := toc + [TopEntry(entry)];
        }
    }
  }

  /** The guiding question of a chapter text and the chapter's entry. */
  method ChapterEntryOf(ch: Chapter, content: string) returns (question: Option<string>, entry: Entry)
    ensures question == EpubSplit(ch, content).0 && entry == EpubEntry(ch, content)
  {
    var split := ExtractQuestion(content, ch.file, SkipQuestionFiles);
    question := split.0;
    var h2Headings := ExtractH2Headings(split.1);
    var chapterId := ChapterId(ch.file);
    var link := Link(chapterId + ".xhtml", DisplayTitle(ch.chapterNum, ch.title), chapterId);
    var subLinks := [];
    if NumTruthy(ch.chapterNum) && h2Headings != [] {
      subLinks := SubLinks(chapterId, Subheadings(ch.chapterNum, chapterId, h2Headings));
    }
    if subLinks != [] {
      entry := WithSubs(link, subLinks);
    } else {
      entry := Bare(link);
    }
  }

  /** The main loop: the navigation tree and the spine. */
  method BuildEpubToc(chapters: seq<Chapter>, read: string -> Option<string>, single: bool)
    returns (toc: seq<EpubItem>, spine: seq<string>)
    ensures toc == EpubRun(chapters, read, single, false).toc && spine == EpubRun(chapters, read, single, false).spine
  {
    var b := new EpubBuilder();
    for i := 0 to |chapters|
      invariant b.State() == EpubRun(chapters[..i], read, single, false)
    {
      var ch := chapters[i];
      var content := read(ch.file);
      if content.Some? {
        b.OpenPart(ch, single);
        b.OpenSection(ch, single);
        b.AddChapter(ch, content.value);
      }
      EpubRunStep(chapters, read, single, i);
    }
    assert chapters[..|chapters|] == chapters;
    toc := b.toc;
    spine := b.spine;
  }

  // ---------------------------------------------------------------------
  // What the tree holds
  // ---------------------------------------------------------------------

  /** The chapter entries of the tree, in reading order. */
  function EpubChapters(toc: seq<EpubItem>): seq<Entry> {
    if toc == [] then [] else EpubChapters(toc[..|toc| - 1]) + ItemEntries(Last(toc))
  }

  function ItemEntries(x: EpubItem): seq<Entry> {
    match x
    case PartNode(_, children) => ChildEntries(children)
    case TopSection(_, entries) => entries
    case TopEntry(e) => [e]
  }

  function ChildEntries(children: seq<EpubChild>): seq<Entry> {
    if children == [] then [] else ChildEntries(children[..|children| - 1]) + OwnEntries(Last(children))
  }

  function OwnEntries(c: EpubChild): seq<Entry> {
    match c
    case SectionNode(_, entries) => entries
    case ChildEntry(e) => [e]
  }

  /** The entries of the readable chapters, in list order. */
  function EpubEntries(chs: seq<Chapter>, read: string -> Option<string>): seq<Entry> {
    if chs == [] then []
    else
      EpubEntries(chs[..|chs| - 1], read)
      + match read(Last(chs).file)
        case Some(content) => [EpubEntry(Last(chs), content)]
        case None => []
  }

  lemma ItemsSnoc(init: seq<EpubItem>, x: EpubItem)
    ensures EpubChapters(init + [x]) == EpubChapters(init) + ItemEntries(x)
  {
    AppendLast(init, x);
  }

  lemma ChildrenSnoc(init: seq<EpubChild>, c: EpubChild)
    ensures ChildEntries(init + [c]) == ChildEntries(init) + OwnEntries(c)
  {
    AppendLast(init, c);
  }

  /** The shape the loop keeps: the open part is the last node; an
      attached section is the last child of the open part; a top-level
      section is the last node. */
  ghost predicate EpubInvariant(s: EpubState) {
    && (s.partOpen ==> s.toc != [] && Last(s.toc).PartNode?)
    && (s.section.InPart? ==>
         s.partOpen && Last(s.toc).children != [] && Last(Last(s.toc).children).SectionNode?)
    && (s.section.AtTop? ==> s.toc != [] && Last(s.toc).TopSection?)
  }

  /** Appending a child to the open part appends its entries. */
  lemma AddToOpenPartAppends(toc: seq<EpubItem>, c: EpubChild)
    requires toc != [] && Last(toc).PartNode?
    ensures var toc' := AddToOpenPart(toc, c);
      && toc' != [] && Last(toc').PartNode? && Last(toc').children == Last(toc).children + [c]
      && EpubChapters(toc') == EpubChapters(toc) + OwnEntries(c)
  {
    var init := toc[..|toc| - 1];
    var p := Last(toc);
    var q := p.(children := p.children + [c]);
    assert toc == init + [p];
    assert AddToOpenPart(toc, c) == init + [q];
    ChildrenSnoc(p.children, c);
    ReplaceLast(init, p, q, OwnEntries(c));
  }

  /** Replacing the last node by one with more entries at its end appends
      them to the whole. */
  lemma ReplaceLast(init: seq<EpubItem>, p: EpubItem, q: EpubItem, extra: seq<Entry>)
    requires ItemEntries(q) == ItemEntries(p) + extra
    ensures EpubChapters(init + [q]) == EpubChapters(init + [p]) + extra
  {
    ItemsSnoc(init, p);
    ItemsSnoc(init, q);
    AppendAssoc(EpubChapters(init), ItemEntries(p), extra);
  }

  /** Appending to the open section appends the entry. */
  lemma AddToOpenSectionAppends(toc: seq<EpubItem>, e: Entry)
    requires toc != [] && Last(toc).PartNode? && Last(toc).children != [] && Last(Last(toc).children).SectionNode?
    ensures var toc' := AddToOpenSection(toc, e);
      && toc' != [] && Last(toc').PartNode? && Last(toc').children != [] && Last(Last(toc').children).SectionNode?
      && EpubChapters(toc') == EpubChapters(toc) + [e]
  {
    var init := toc[..|toc| - 1];
    var p := Last(toc);
    assert toc == init + [p];
    var cinit := p.children[..|p.children| - 1];
    var sec := Last(p.children);
    assert p.children == cinit + [sec];
    ItemsSnoc(init, p);
    ChildrenSnoc(cinit, sec);
    ChildrenSnoc(cinit, sec.(entries := sec.entries + [e]));
    ItemsSnoc(init, p.(children := cinit + [sec.(entries := sec.entries + [e])]));
  }

  /** Appending to a top-level section appends the entry. */
  lemma AddToTopSectionAppends(toc: seq<EpubItem>, e: Entry)
    requires toc != [] && Last(toc).TopSection?
    ensures var toc' := AddToTopSection(toc, e);
      toc' != [] && Last(toc').TopSection? && EpubChapters(toc') == EpubChapters(toc) + [e]
  {
    var init := toc[..|toc| - 1];
    var sec := Last(toc);
    assert toc == init + [sec];
    ItemsSnoc(init, sec);
    ItemsSnoc(init, sec.(entries := sec.entries + [e]));
  }

  /** A new part becomes the open part, with no open section and no
      section seen; entering a part adds no chapter entry. */
  lemma EnterPartKeeps(s: EpubState, ch: Chapter, single: bool)
    requires EpubInvariant(s)
    ensures var s' := EpubEnterPart(s, ch, single);
      && EpubInvariant(s')
      && EpubChapters(s'.toc) == EpubChapters(s.toc)
      && (s' != s ==>
           && s'.partOpen && s'.section == NoSection && s'.seenSections == {}
           && Last(s'.toc) == PartNode(Link(PartId(s'.partCounter) + ".xhtml", ch.part.value, PartId(s'.partCounter)), []))
  {
    if !single && Present(ch.part) && ch.part.value !in s.seenParts {
      var n := s.partCounter + 1;
      var x := PartNode(Link(Xhtml(PartId(n)), ch.part.value, PartId(n)), []);
      ItemsSnoc(s.toc, x);
      AppendLast(s.toc, x);
    }
  }

  /** Entering a section adds no chapter entry. A new section goes under
      the open part when there is one; otherwise the exporter leaves the
      tree alone and holds the section apart, while the corrected loop puts
      it at the top level. */
  lemma EnterSectionKeeps(s: EpubState, ch: Chapter, single: bool, fixed: bool)
    requires EpubInvariant(s)
    ensures var s' := EpubEnterSection(s, ch, single, fixed);
      && EpubInvariant(s')
      && EpubChapters(s'.toc) == EpubChapters(s.toc)
      && s'.partOpen == s.partOpen
      && (s'.seenSections != s.seenSections ==>
           && (s.partOpen ==> s'.section == InPart && Last(s'.toc).children == Last(s.toc).children + [SectionNode(Last(Last(s'.toc).children).link, [])])
           && (!s.partOpen && !fixed ==> s'.toc == s.toc && s'.section.Detached?)
           && (!s.partOpen && fixed ==> s'.section == AtTop))
      && (fixed && !s.section.Detached? ==> !s'.section.Detached?)
  {
    if !single && Present(ch.section) && ch.section.value !in s.seenSections {
      var seen := s.seenSections + {ch.section.value};
      var id := SectionId(|seen|, s.partCounter);
      var link := Link(Xhtml(id), ch.section.value, id);
      if s.partOpen {
        AddToOpenPartAppends(s.toc, SectionNode(link, []));
      } else if fixed {
        ItemsSnoc(s.toc, TopSection(link, []));
        AppendLast(s.toc, TopSection(link, []));
      }
    }
  }

  /** Filing an entry keeps the shape and appends the entry to the tree's
      reading order, unless the open section is held apart from the tree:
      then the tree does not change. */
  lemma PlaceAppends(s: EpubState, e: Entry)
    requires EpubInvariant(s)
    ensures var s' := EpubPlace(s, e);
      && EpubInvariant(s')
      && s'.partOpen == s.partOpen
      && s'.section.Detached? == s.section.Detached?
      && EpubChapters(s'.toc) == EpubChapters(s.toc) + (if s.section.Detached? then [] else [e])
  {
    match s.section
    case InPart => AddToOpenSectionAppends(s.toc, e);
    case AtTop => AddToTopSectionAppends(s.toc, e);
    case Detached(_, _) =>
    case NoSection =>
      if s.partOpen {
        AddToOpenPartAppends(s.toc, ChildEntry(e));
      } else {
        ItemsSnoc(s.toc, TopEntry(e));
      }
  }

  /** One turn of the corrected loop keeps the shape and files a readable
      chapter's entry last in reading order. */
  lemma FixedStepAppends(s: EpubState, ch: Chapter, content: Option<string>, single: bool)
    requires EpubInvariant(s) && !s.section.Detached?
    ensures var s' := EpubStep(s, ch, content, single, true);
      && EpubInvariant(s') && !s'.section.Detached?
      && EpubChapters(s'.toc) == EpubChapters(s.toc) + (if content.Some? then [EpubEntry(ch, content.value)] else [])
  {
    if content.Some? {
      EnterPartKeeps(s, ch, single);
      var s0 := EpubEnterPart(s, ch, single);
      EnterSectionKeeps(s0, ch, single, true);
      var s1 := EpubEnterSection(s0, ch, single, true);
      var files := ChapterFiles(EpubSplit(ch, content.value).0, ChapterId(ch.file));
      PlaceAppends(s1.(spine := s1.spine + files), EpubEntry(ch, content.value));
    }
  }

  lemma EpubRunSnoc(chs: seq<Chapter>, read: string -> Option<string>, single: bool, fixed: bool)
    requires chs != []
    ensures var init := chs[..|chs| - 1];
      var ch := Last(chs);
      && EpubRun(chs, read, single, fixed) == EpubStep(EpubRun(init, read, single, fixed), ch, read(ch.file), single, fixed)
      && EpubEntries(chs, read) == EpubEntries(init, read) + (if read(ch.file).Some? then [EpubEntry(ch, read(ch.file).value)] else [])
  {
  }

  /** The corrected loop files every readable chapter, once, in list
      order. */
  lemma {:induction false} FixedKeepsEveryChapter(chs: seq<Chapter>, read: string -> Option<string>, single: bool)
    ensures var s := EpubRun(chs, read, single, true);
      EpubInvariant(s) && !s.section.Detached? && EpubChapters(s.toc) == EpubEntries(chs, read)
  {
    if chs != [] {
      var init := chs[..|chs| - 1];
      FixedKeepsEveryChapter(init, read, single);
      EpubRunSnoc(chs, read, single, true);
      FixedStepAppends(EpubRun(init, read, single, true), Last(chs), read(Last(chs).file), single);
    }
  }

  /** As the exporter runs: the section of a chapter read before any part
      is held apart from the tree, and that chapter's entry never reaches
      the navigation, although its file is in the spine; the corrected loop
      files it. */
  lemma DetachedSectionLosesChapter(ch: Chapter, read: string -> Option<string>)
    requires ch.part.None? && Present(ch.section) && read(ch.file).Some?
    ensures EpubEntries([ch], read) == [EpubEntry(ch, read(ch.file).value)]
    ensures EpubRun([ch], read, false, false).toc == []
    ensures ChapterId(ch.file) + ".xhtml" in EpubRun([ch], read, false, false).spine
    ensures EpubChapters(EpubRun([ch], read, false, true).toc) == [EpubEntry(ch, read(ch.file).value)]
  {
    EpubRunSnoc([ch], read, false, false);
    assert [ch][..0] == [];
    var s0 := EpubEnterPart(EpubStart, ch, false);
    var s1 := EpubEnterSection(s0, ch, false, false);
    assert s1.section.Detached? && s1.toc == [];
    var files := ChapterFiles(EpubSplit(ch, read(ch.file).value).0, ChapterId(ch.file));
    PlaceAppends(s1.(spine := s1.spine + files), EpubEntry(ch, read(ch.file).value));
    FixedKeepsEveryChapter([ch], read, false);
  }

  /** The part flag is up once a part has been seen. */
  ghost predicate PartFlagUp(s: EpubState) {
    s.seenParts != {} ==> s.partOpen
  }

  /** A chapter with a section but no part is the only way the two loops
      part ways. */
  lemma StepSame(s: EpubState, ch: Chapter, content: Option<string>, single: bool)
    requires PartFlagUp(s)
    requires Present(ch.section) ==> Present(ch.part)
    ensures EpubStep(s, ch, content, single, false) == EpubStep(s, ch, content, single, true)
    ensures PartFlagUp(EpubStep(s, ch, content, single, false))
  {
    if content.Some? {
      var files := ChapterFiles(EpubSplit(ch, content.value).0, ChapterId(ch.file));
      FileSame(s, ch, files, EpubEntry(ch, content.value), single);
    }
  }

  lemma FileSame(s: EpubState, ch: Chapter, files: seq<string>, e: Entry, single: bool)
    requires PartFlagUp(s)
    requires Present(ch.section) ==> Present(ch.part)
    ensures EpubFile(s, ch, files, e, single, false) == EpubFile(s, ch, files, e, single, true)
    ensures PartFlagUp(EpubFile(s, ch, files, e, single, false))
  {
    var s0 := EpubEnterPart(s, ch, single);
    EnterPartFlag(s, ch, single);
    SectionSame(s0, ch, single);
    var s1 := EpubEnterSection(s0, ch, single, false);
    PlaceFlag(s1.(spine := s1.spine + files), e);
  }

  /** Entering a part keeps the part flag up, and raises it on a named part. */
  lemma EnterPartFlag(s: EpubState, ch: Chapter, single: bool)
    requires PartFlagUp(s)
    ensures PartFlagUp(EpubEnterPart(s, ch, single))
    ensures !single && Present(ch.part) ==> EpubEnterPart(s, ch, single).partOpen
  {
  }

  /** With a part open, both loops enter a section alike. */
  lemma SectionSame(s: EpubState, ch: Chapter, single: bool)
    requires PartFlagUp(s)
    requires !single && Present(ch.section) ==> s.partOpen
    ensures EpubEnterSection(s, ch, single, false) == EpubEnterSection(s, ch, single, true)
    ensures PartFlagUp(EpubEnterSection(s, ch, single, false))
  {
  }

  /** Filing an entry leaves the part flag and the parts seen alone. */
  lemma PlaceFlag(s: EpubState, e: Entry)
    ensures EpubPlace(s, e).partOpen == s.partOpen && EpubPlace(s, e).seenParts == s.seenParts
  {
  }

  /** When every chapter with a section also has a part, the exporter's
      loop is the corrected one, so its navigation holds every readable
      chapter, once, in list order. */
  lemma {:induction false} AsWrittenMatchesFixed(chs: seq<Chapter>, read: string -> Option<string>, single: bool)
    requires forall i :: 0 <= i < |chs| ==> Present(chs[i].section) ==> Present(chs[i].part)
    ensures EpubRun(chs, read, single, false) == EpubRun(chs, read, single, true)
    ensures PartFlagUp(EpubRun(chs, read, single, false))
    ensures EpubChapters(EpubRun(chs, read, single, false).toc) == EpubEntries(chs, read)
  {
    if chs != [] {
      var init := chs[..|chs| - 1];
      assert forall i :: 0 <= i < |init| ==> init[i] == chs[i];
      AsWrittenMatchesFixed(init, read, single);
      EpubRunSnoc(chs, read, single, false);
      EpubRunSnoc(chs, read, single, true);
      StepSame(EpubRun(init, read, single, false), Last(chs), read(Last(chs).file), single);
    }
    FixedKeepsEveryChapter(chs, read, single);
  }

  // ---------------------------------------------------------------------
  // build_chapter_html
  // ---------------------------------------------------------------------

  const PageHead: string := "<?xml version=\"1.0\" encoding=\"utf-8\"?>\n<!DOCTYPE html>\n<html xmlns=\"http://www.w3.org/1999/xhtml\" xml:lang=\"zh-CN\" lang=\"zh-CN\">\n<head>\n  <meta charset=\"utf-8\" />\n  <title>"
  const TitleClose: string := "</title>"
  const PageStyle: string := "\n  <link rel=\"stylesheet\" type=\"text/css\" href=\""
  const HeadClose: string := "\" />\n</head>\n"
  const BodyOpen: string := "<body>\n"
  const PageTail: string := "\n</body>\n</html>"
  const DefaultCss: string := "style.css"

  /** The body that goes into the page: a blank one becomes an empty
      paragraph. */
  function PageBodyOf(body: string): (r: string)
    ensures !IsBlank(r)
    ensures !IsBlank(body) ==> r == body
  {
    assert "<p></p>"[0] == '<';
    if IsBlank(body) then "<p></p>" else body
  }

  /** The XHTML document of a chapter, part, section or question page
      (before its UTF-8 encoding). */
  function BuildChapterHtml(title: string, body: string, css: string): string {
    PageHead + title + TitleClose + PageStyle + css + HeadClose + BodyOpen + PageBodyOf(body) + PageTail
  }

  /** The title a page declares: what stands between the head and the
      first </title>. */
  function PageTitle(html: string): Option<string> {
    if !StartsWith(html, PageHead) then None
    else
      match FindFrom(html, TitleClose, |PageHead|)
      case None => None
      case Some(k) => Some(html[|PageHead|..k])
  }

  /** The title goes in verbatim: a title without '<' is read back from
      the page. */
  lemma TitleRoundTrip(title: string, body: string, css: string)
    requires '<' !in title
    ensures PageTitle(BuildChapterHtml(title, body, css)) == Some(title)
  {
    var rest := PageStyle + css + HeadClose + BodyOpen + PageBodyOf(body) + PageTail;
    Regroup(PageHead, title, TitleClose, PageStyle, css, HeadClose, BodyOpen, PageBodyOf(body), PageTail);
    Prefix(TitleClose, rest);
    TitleSlot(PageHead, title, TitleClose + rest);
    Middle(PageHead, title, TitleClose + rest);
  }

  lemma TitleSlot(head: string, title: string, rest: string)
    requires '<' !in title && StartsWith(rest, TitleClose)
    ensures FindFrom(head + title + rest, TitleClose, |head|) == Some(|head| + |title|)
  {
    TagSlot(head, title, rest, TitleClose);
  }

  /** The first closing tag after a '<'-free text is the one right after it. */
  lemma {:induction false} TagSlot(head: string, title: string, rest: string, close: string)
    requires '<' !in title && |close| > 0 && close[0] == '<' && StartsWith(rest, close)
    ensures FindFrom(head + title + rest, close, |head|) == Some(|head| + |title|)
  {
    TitleFreeOfTags(head, title, rest);
    CloseAfterTitle(head, title, rest, close);
    FirstTagAt(head + title + rest, close, |head|, |head| + |title|);
  }

  lemma TitleFreeOfTags(head: string, title: string, rest: string)
    requires '<' !in title
    ensures forall i :: |head| <= i < |head| + |title| ==> (head + title + rest)[i] != '<'
  {
    forall i | |head| <= i < |head| + |title| ensures (head + title + rest)[i] != '<' {
      assert (head + title + rest)[i] == title[i - |head|];
    }
  }

  lemma CloseAfterTitle(head: string, title: string, rest: string, close: string)
    requires StartsWith(rest, close)
    ensures OccursAt(head + title + rest, close, |head| + |title|)
  {
    var p := |head| + |title|;
    assert (head + title + rest)[p..p + |close|] == rest[..|close|];
  }

  /** In a '<'-free stretch, the first occurrence of a tag is the one that
      ends it. */
  lemma FirstTagAt(html: string, close: string, from: nat, p: nat)
    requires from <= p && OccursAt(html, close, p) && |close| > 0 && close[0] == '<'
    requires forall i :: from <= i < p ==> html[i] != '<'
    ensures FindFrom(html, close, from) == Some(p)
  {
    NoTagInside(html, from, p, close);
    FindIs(html, close, from, p);
  }

  /** A pattern opening with '<' occurs nowhere in a stretch free of '<'. */
  lemma NoTagInside(html: string, from: nat, to: nat, pat: string)
    requires to <= |html| && |pat| > 0 && pat[0] == '<'
    requires forall i :: from <= i < to ==> html[i] != '<'
    ensures forall i :: from <= i < to ==> !OccursAt(html, pat, i)
  {
    forall i | from <= i < to
      ensures !OccursAt(html, pat, i)
    {
      if i + |pat| <= |html| {
        assert html[i..i + |pat|][0] == html[i];
      }
    }
  }

  lemma Prefix(a: string, b: string)
    ensures StartsWith(a + b, a)
  {
    assert (a + b)[..|a|] == a;
  }

  lemma Middle(a: string, b: string, c: string)
    ensures StartsWith(a + b + c, a)
    ensures (a + b + c)[|a|..|a| + |b|] == b
  {
    assert (a + b + c)[..|a|] == a;
  }

  lemma Regroup(a: string, b: string, c: string, d: string, e: string, f: string, g: string, h: string, i: string)
    ensures a + b + c + d + e + f + g + h + i == a + b + (c + (d + e + f + g + h + i))
    ensures a + b + c + d + e + f + g + h + i == (a + b + c + d + e + f) + g + (h + i)
  {
  }

  /** A blank body gives an empty paragraph, any other body goes in
      verbatim, after the head naming the title and the stylesheet. */
  lemma ChapterHtmlBody(title: string, body: string, css: string)
    ensures var html := BuildChapterHtml(title, body, css);
      && StartsWith(html, PageHead + title + TitleClose + PageStyle + css + HeadClose + BodyOpen)
      && (IsBlank(body) ==> EndsWith(html, BodyOpen + ("<p></p>" + PageTail)))
      && (!IsBlank(body) ==> EndsWith(html, BodyOpen + (body + PageTail)))
  {
    Regroup(PageHead, title, TitleClose, PageStyle, css, HeadClose, BodyOpen, PageBodyOf(body), PageTail);
    Split3(PageHead + title + TitleClose + PageStyle + css + HeadClose, BodyOpen, PageBodyOf(body) + PageTail);
  }

  lemma Split3(a: string, b: string, c: string)
    ensures StartsWith(a + b + c, a + b) && EndsWith(a + b + c, b + c)
  {
    assert (a + b + c)[..|a + b|] == a + b;
    assert (a + b + c)[|a + b + c| - |b + c|..] == b + c;
  }
}
