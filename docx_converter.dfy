/** The DOCX exporter's HTML → document converter (HTMLToDocxConverter),
    driven by the start-tag, end-tag and text events an HTML parser
    produces. The converter keeps a stack of open tags, a stack of open
    lists with a counter each, the blockquote and code-block flags and the
    paragraph text is currently written to, and appends paragraphs to the
    document. A paragraph is recorded by its style, its list indent level
    and its runs; a run by its text and its bold, italic and code-font
    flags. Fonts, sizes, colours and spacing are styling and are not part
    of the model. Where an image lives is asked of the file system through
    three oracles (the path relative to the chapter, the path relative to
    the book, and whether a file exists). */
module DocxConverter {
  import opened Text

  datatype Style =
    | Normal
    | Heading(level: nat)
    | Quote
    | ListBullet
    | ListNumber
    | CodeBlock
    | Rule
    | Picture(path: string)

  datatype Run = Run(text: string, bold: bool, italic: bool, code: bool)

  datatype Para = Para(style: Style, indent: nat, runs: seq<Run>)

  /** What the HTML parser reports. */
  datatype Event =
    | StartTag(tag: string, attrs: seq<(string, string)>)
    | EndTag(tag: string)
    | Data(text: string)

  /** The file system as the image lookup sees it. */
  datatype Disk = Disk(inChapter: string -> string, inBook: string -> string, exists_: string -> bool)

  /** The converter's state: the document, the index of the paragraph text
      goes to, and the parser bookkeeping. */
  datatype Conv = Conv(
    doc: seq<Para>,
    paragraph: Option<nat>,
    tags: seq<string>,
    lists: seq<(string, nat)>,
    inBlockquote: bool,
    isEpigraph: bool,
    inCodeBlock: bool)

  /** The paragraph text goes to, when there is one, is the document's
      last. */
  ghost predicate ConvValid(s: Conv) {
    s.paragraph.Some? ==> s.paragraph.value == |s.doc| - 1
  }

  /** dict(attrs).get(name, default): the last value given wins. */
  function Attr(attrs: seq<(string, string)>, name: string, default: string): (r: string)
    ensures (forall i :: 0 <= i < |attrs| ==> attrs[i].0 != name) ==> r == default
    ensures r != default ==> exists i :: 0 <= i < |attrs| && attrs[i] == (name, r)
    ensures forall i :: (0 <= i < |attrs| && attrs[i].0 == name
      && forall j :: i < j < |attrs| ==> attrs[j].0 != name) ==> r == attrs[i].1
  {
    if attrs == [] then default
    else if attrs[|attrs| - 1].0 == name then attrs[|attrs| - 1].1
    else Attr(attrs[..|attrs| - 1], name, default)
  }

  predicate IsHeadingTag(tag: string) {
    tag == "h1" || tag == "h2" || tag == "h3"
  }

  /** int(tag[1]) for a heading tag. */
  function HeadingLevel(tag: string): (level: nat)
    requires IsHeadingTag(tag)
    ensures 1 <= level <= 3
  {
    if tag == "h1" then 1 else if tag == "h2" then 2 else 3
  }

  // ---------------------------------------------------------------------
  // The handlers on values
  // ---------------------------------------------------------------------

  /** Append a paragraph and write to it from now on. */
  function OpenPara(s: Conv, p: Para): (r: Conv)
    ensures ConvValid(r)
  {
    s.(doc := s.doc + [p], paragraph := Some(|s.doc|))
  }

  /** _finish_paragraph. */
  function Finish(s: Conv): Conv {
    s.(paragraph := None)
  }

  /** _ensure_paragraph: a new plain paragraph when none is open. */
  function Ensure(s: Conv): (r: Conv)
    requires ConvValid(s)
    ensures ConvValid(r) && r.paragraph.Some?
  {
    if s.paragraph.None? then OpenPara(s, Para(Normal, 0, [])) else s
  }

  /** p.add_run on the open paragraph. */
  function AddRun(s: Conv, run: Run): (r: Conv)
    requires ConvValid(s) && s.paragraph.Some?
    ensures ConvValid(r) && |r.doc| == |s.doc| && r.paragraph == s.paragraph
    ensures r.doc[..|s.doc| - 1] == s.doc[..|s.doc| - 1]
    ensures var last := r.doc[|r.doc| - 1];
      last.style == s.doc[|s.doc| - 1].style && last.indent == s.doc[|s.doc| - 1].indent
      && last.runs == s.doc[|s.doc| - 1].runs + [run]
  {
    var i := s.paragraph.value;
    s.(doc := s.doc[i := s.doc[i].(runs := s.doc[i].runs + [run])])
  }

  /** A list item: a numbered list counts it, and the new paragraph is
      indented by the depth of the list below the outermost one; outside
      any list the item is a bullet. */
  function ListItem(s: Conv): (r: Conv)
    ensures ConvValid(r)
  {
    var s0 := Finish(s);
    if s.lists != [] then
      var (kind, counter) := s.lists[|s.lists| - 1];
      var lists := if kind == "ol" then s.lists[..|s.lists| - 1] + [(kind, counter + 1)] else s.lists;
      OpenPara(s0.(lists := lists), Para(if kind == "ul" then ListBullet else ListNumber, |s.lists| - 1, []))
    else
      OpenPara(s0, Para(ListBullet, 0, []))
  }

  predicate IsRemote(src: string) {
    StartsWith(src, "http://") || StartsWith(src, "https://")
  }

  /** Where _add_image looks for a source: next to the chapter, and failing
      that under the book directory. */
  function ImagePath(src: string, disk: Disk): string {
    var near := disk.inChapter(src);
    if disk.exists_(near) then near else disk.inBook(src)
  }

  /** _add_image: a local image that exists becomes a paragraph of its own. */
  function AddImage(s: Conv, src: string, disk: Disk): (r: Conv)
    requires ConvValid(s)
    ensures ConvValid(r)
  {
    if IsRemote(src) then s
    else
      var path := ImagePath(src, disk);
      if disk.exists_(path) then Finish(OpenPara(Finish(s), Para(Picture(path), 0, []))) else s
  }

  /** The horizontal rule's paragraph. */
  const RulePara := Para(Rule, 0, [Run("* * *", false, false, false)])

  /** handle_starttag. */
  function StartStep(s: Conv, tag: string, attrs: seq<(string, string)>, disk: Disk): (r: Conv)
    requires ConvValid(s)
    ensures ConvValid(r)
    ensures r.tags == s.tags + [tag]
    ensures tag != "ul" && tag != "ol" && tag != "li" ==> r.lists == s.lists
  {
    var s1 := s.(tags := s.tags + [tag]);
    if IsHeadingTag(tag) then OpenPara(Finish(s1), Para(Heading(HeadingLevel(tag)), 0, []))
    else if tag == "p" then OpenPara(Finish(s1), Para(if s1.inBlockquote then Quote else Normal, 0, []))
    else if tag == "blockquote" then s1.(inBlockquote := true, isEpigraph := Contains(Attr(attrs, "class", ""), "epigraph"))
    else if tag == "ul" || tag == "ol" then s1.(lists := s1.lists + [(tag, 0)])
    else if tag == "li" then ListItem(s1)
    else if tag == "pre" then Finish(s1.(inCodeBlock := true))
    else if tag == "img" then AddImage(s1, Attr(attrs, "src", ""), disk)
    else if tag == "hr" then Finish(OpenPara(Finish(s1), RulePara))
    else if tag == "br" then AddRun(Ensure(s1), Run("\n", false, false, false))
    else s1
  }

  /** The tag stack after an end tag: popped only when the tag is on top. */
  function PopTag(tags: seq<string>, tag: string): seq<string> {
    if tags != [] && tags[|tags| - 1] == tag then tags[..|tags| - 1] else tags
  }

  /** handle_endtag. */
  function EndStep(s: Conv, tag: string): (r: Conv)
    requires ConvValid(s)
    ensures ConvValid(r)
    ensures r.doc == s.doc
    ensures r.tags == PopTag(s.tags, tag)
  {
    var s1 := s.(tags := PopTag(s.tags, tag));
    if IsHeadingTag(tag) || tag == "p" || tag == "li" then Finish(s1)
    else if tag == "blockquote" then s1.(inBlockquote := false, isEpigraph := false)
    else if tag == "ul" || tag == "ol" then
      if s1.lists != [] then s1.(lists := s1.lists[..|s1.lists| - 1]) else s1
    else if tag == "pre" then Finish(s1.(inCodeBlock := false))
    else s1
  }

  /** The run a text event writes outside a code block: bold inside
      strong/b, italic inside em/i or a blockquote, code font inside code. */
  function RunFor(s: Conv, data: string): Run {
    Run(data,
      "strong" in s.tags || "b" in s.tags,
      "em" in s.tags || "i" in s.tags || s.inBlockquote,
      "code" in s.tags && !s.inCodeBlock)
  }

  /** handle_data. */
  function DataStep(s: Conv, data: string): (r: Conv)
    requires ConvValid(s)
    ensures ConvValid(r)
    ensures r.tags == s.tags && r.lists == s.lists
  {
    if IsBlank(data) && !s.inCodeBlock then
      if data == " " && s.paragraph.Some? then AddRun(s, Run(" ", false, false, false)) else s
    else if s.inCodeBlock then
      OpenPara(Finish(s), Para(CodeBlock, 0, [Run(data, false, false, true)]))
    else
      AddRun(Ensure(s), RunFor(s, data))
  }

  function Step(s: Conv, e: Event, disk: Disk): (r: Conv)
    requires ConvValid(s)
    ensures ConvValid(r)
  {
    match e
    case StartTag(tag, attrs) => StartStep(s, tag, attrs, disk)
    case EndTag(tag) => EndStep(s, tag)
    case Data(text) => DataStep(s, text)
  }

  /** The state after feeding the events in order. */
  function Feed(s: Conv, events: seq<Event>, disk: Disk): (r: Conv)
    requires ConvValid(s)
    ensures ConvValid(r)
  {
    if events == [] then s
    else Step(Feed(s, events[..|events| - 1], disk), events[|events| - 1], disk)
  }

  // ---------------------------------------------------------------------
  // What the handlers promise
  // ---------------------------------------------------------------------

  /** Every start tag is pushed; an end tag pops only the tag on top, so a
      start tag followed by its end tag leaves the stack as it was, and a
      stray end tag leaves it alone. Text changes no stack. */
  lemma TagStackDiscipline(s: Conv, tag: string, attrs: seq<(string, string)>, disk: Disk, data: string)
    requires ConvValid(s)
    ensures StartStep(s, tag, attrs, disk).tags == s.tags + [tag]
    ensures EndStep(StartStep(s, tag, attrs, disk), tag).tags == s.tags
    ensures (s.tags == [] || s.tags[|s.tags| - 1] != tag) ==> EndStep(s, tag).tags == s.tags
    ensures s.tags != [] && s.tags[|s.tags| - 1] == tag ==> EndStep(s, tag).tags + [tag] == s.tags
    ensures DataStep(s, data).tags == s.tags
  {
    var t := StartStep(s, tag, attrs, disk).tags;
    assert t[..|t| - 1] == s.tags;
  }

  /** ul and ol push a list with counter 0, and their end tags pop one when
      there is one; no other end tag touches the list stack, and no start
      tag but ul, ol and li does. */
  lemma ListStackDiscipline(s: Conv, tag: string, attrs: seq<(string, string)>, disk: Disk)
    requires ConvValid(s)
    ensures (tag == "ul" || tag == "ol") ==> StartStep(s, tag, attrs, disk).lists == s.lists + [(tag, 0)]
    ensures (tag == "ul" || tag == "ol") ==> EndStep(StartStep(s, tag, attrs, disk), tag).lists == s.lists
    ensures tag != "ul" && tag != "ol" && tag != "li" ==> StartStep(s, tag, attrs, disk).lists == s.lists
    ensures (tag == "ul" || tag == "ol") && s.lists != [] ==> EndStep(s, tag).lists + [s.lists[|s.lists| - 1]] == s.lists
    ensures (tag == "ul" || tag == "ol") && s.lists == [] ==> EndStep(s, tag).lists == []
    ensures tag != "ul" && tag != "ol" ==> EndStep(s, tag).lists == s.lists
  {
    if tag == "ul" || tag == "ol" {
      var l := StartStep(s, tag, attrs, disk).lists;
      assert l[..|l| - 1] == s.lists;
    }
  }

  /** A list item opens a new paragraph at the end of the document. In a
      numbered list the innermost counter goes up by one, in a bulleted
      list it stays; the indent level is the list depth less one. Outside
      any list the item is a bullet without indent. */
  lemma ListItemParagraph(s: Conv, attrs: seq<(string, string)>, disk: Disk)
    requires ConvValid(s)
    ensures var r := StartStep(s, "li", attrs, disk);
      && r.doc[..|s.doc|] == s.doc && |r.doc| == |s.doc| + 1
      && r.paragraph == Some(|s.doc|) && r.doc[|s.doc|].runs == []
      && |r.lists| == |s.lists| && r.tags == s.tags + ["li"]
    ensures var r := StartStep(s, "li", attrs, disk);
      s.lists == [] ==> r.doc[|s.doc|].style == ListBullet && r.doc[|s.doc|].indent == 0
    ensures var r := StartStep(s, "li", attrs, disk);
      s.lists != [] ==>
        var (kind, counter) := s.lists[|s.lists| - 1];
        && r.doc[|s.doc|].indent == |s.lists| - 1
        && r.lists[..|s.lists| - 1] == s.lists[..|s.lists| - 1]
        && (kind == "ol" ==> r.lists[|s.lists| - 1] == (kind, counter + 1) && r.doc[|s.doc|].style == ListNumber)
        && (kind == "ul" ==> r.lists[|s.lists| - 1] == (kind, counter) && r.doc[|s.doc|].style == ListBullet)
  {
  }

  /** In an ordered list of n items with no list nested in it, the counter
      ends at n. */
  lemma {:induction false} OrderedCount(s: Conv, n: nat, disk: Disk)
    requires ConvValid(s)
    ensures Feed(s, [StartTag("ol", [])] + Items(n), disk).lists == s.lists + [("ol", n)]
  {
    var ol := [StartTag("ol", [])];
    if n == 0 {
      assert ol + Items(0) == [] + ol;
      FeedSnoc(s, [], StartTag("ol", []), disk);
    } else {
      OrderedCount(s, n - 1, disk);
      OrderedNext(s, n, disk);
    }
  }

  /** One more item after n - 1 counted ones makes n. */
  lemma OrderedNext(s: Conv, n: nat, disk: Disk)
    requires ConvValid(s) && n >= 1
    requires Feed(s, [StartTag("ol", [])] + Items(n - 1), disk).lists == s.lists + [("ol", n - 1)]
    ensures Feed(s, [StartTag("ol", [])] + Items(n), disk).lists == s.lists + [("ol", n)]
  {
    var ol := [StartTag("ol", [])];
    var li := StartTag("li", []);
    assert ol + Items(n) == (ol + Items(n - 1)) + [li];
    FeedSnoc(s, ol + Items(n - 1), li, disk);
    var before := Feed(s, ol + Items(n - 1), disk);
    assert before.lists[..|before.lists| - 1] == s.lists;
    assert Step(before, li, disk) == StartStep(before, "li", [], disk);
    OrderedItem(before, disk);
  }

  /** Feeding one more event is one more step. */
  lemma FeedSnoc(s: Conv, events: seq<Event>, e: Event, disk: Disk)
    requires ConvValid(s)
    ensures Feed(s, events + [e], disk) == Step(Feed(s, events, disk), e, disk)
  {
    assert (events + [e])[..|events|] == events;
  }

  /** A list item inside a numbered list counts one more. */
  lemma OrderedItem(s: Conv, disk: Disk)
    requires ConvValid(s) && s.lists != [] && s.lists[|s.lists| - 1].0 == "ol"
    ensures StartStep(s, "li", [], disk).lists == s.lists[..|s.lists| - 1] + [("ol", s.lists[|s.lists| - 1].1 + 1)]
  {
  }

  /** n list items without content. */
  function Items(n: nat): (items: seq<Event>)
    ensures |items| == n
    ensures forall i :: 0 <= i < n ==> items[i] == StartTag("li", [])
  {
    if n == 0 then [] else Items(n - 1) + [StartTag("li", [])]
  }

  /** Closing a heading, a paragraph, a list item or a code block ends the
      paragraph; no end tag adds to the document or changes it. */
  lemma EndTagsCloseParagraphs(s: Conv, tag: string)
    requires ConvValid(s)
    ensures EndStep(s, tag).doc == s.doc
    ensures IsHeadingTag(tag) || tag == "p" || tag == "li" || tag == "pre" ==> EndStep(s, tag).paragraph.None?
    ensures !IsHeadingTag(tag) && tag != "p" && tag != "li" && tag != "pre" ==> EndStep(s, tag).paragraph == s.paragraph
  {
  }

  /** Text outside a code block: blank text adds nothing but a single space
      to an open paragraph; other text goes as one run, bold inside
      strong/b, italic inside em/i or a blockquote, in the code font inside
      code, to the open paragraph or to a new plain one. Inside a code
      block every text becomes a code paragraph of its own. */
  lemma DataRuns(s: Conv, data: string)
    requires ConvValid(s)
    ensures IsBlank(data) && !s.inCodeBlock && !(data == " " && s.paragraph.Some?) ==> DataStep(s, data) == s
    ensures !IsBlank(data) && !s.inCodeBlock ==>
      var r := DataStep(s, data);
      var run := Run(data, "strong" in s.tags || "b" in s.tags, "em" in s.tags || "i" in s.tags || s.inBlockquote, "code" in s.tags);
      && r.paragraph == Some(|r.doc| - 1)
      && (s.paragraph.Some? ==> |r.doc| == |s.doc| && r.doc[|r.doc| - 1].runs == s.doc[|s.doc| - 1].runs + [run])
      && (s.paragraph.None? ==> r.doc == s.doc + [Para(Normal, 0, [run])])
    ensures s.inCodeBlock ==> DataStep(s, data).doc == s.doc + [Para(CodeBlock, 0, [Run(data, false, false, true)])]
  {
    if !IsBlank(data) && !s.inCodeBlock && s.paragraph.None? {
      var e := Ensure(s);
      var r := AddRun(e, RunFor(s, data));
      assert e.doc == s.doc + [Para(Normal, 0, [])];
      assert r.doc[..|s.doc|] == e.doc[..|s.doc|] == s.doc;
      var last := r.doc[|s.doc|];
      assert last.runs == [] + [RunFor(s, data)] == [RunFor(s, data)];
      assert last == Para(Normal, 0, [RunFor(s, data)]);
      assert r.doc == r.doc[..|s.doc|] + [last];
    }
  }

  /** A paragraph inside a blockquote takes the Quote style, and its text
      is set in italics. */
  lemma QuotedText(s: Conv, attrs: seq<(string, string)>, x: string, disk: Disk)
    requires ConvValid(s) && !IsBlank(x) && !s.inCodeBlock
    ensures var r := Feed(s, [StartTag("blockquote", attrs), StartTag("p", []), Data(x)], disk);
      && |r.doc| == |s.doc| + 1 && r.doc[..|s.doc|] == s.doc
      && r.doc[|s.doc|].style == Quote
      && |r.doc[|s.doc|].runs| == 1 && r.doc[|s.doc|].runs[0].text == x && r.doc[|s.doc|].runs[0].italic
  {
    var events := [StartTag("blockquote", attrs), StartTag("p", []), Data(x)];
    assert events[..2][..1] == [StartTag("blockquote", attrs)] && events[..2] == events[..3][..2];
    assert events[..1][..0] == [];
    var s1 := StartStep(s, "blockquote", attrs, disk);
    assert Feed(s, events[..1], disk) == s1;
    var s2 := StartStep(s1, "p", [], disk);
    assert Feed(s, events[..2], disk) == s2;
    assert s2.doc == s.doc + [Para(Quote, 0, [])] && s2.paragraph == Some(|s.doc|);
    DataRuns(s2, x);
  }

  /** Images on the web and images not found on disk are left out. */
  lemma MissingImagesSkipped(s: Conv, attrs: seq<(string, string)>, disk: Disk)
    requires ConvValid(s)
    requires var src := Attr(attrs, "src", ""); IsRemote(src) || !disk.exists_(ImagePath(src, disk))
    ensures StartStep(s, "img", attrs, disk).doc == s.doc
    ensures StartStep(s, "img", attrs, disk).paragraph == s.paragraph
  {
  }

  /** A local image found on disk becomes a closed paragraph of its own. */
  lemma FoundImageAdded(s: Conv, attrs: seq<(string, string)>, disk: Disk)
    requires ConvValid(s)
    requires var src := Attr(attrs, "src", ""); !IsRemote(src) && disk.exists_(ImagePath(src, disk))
    ensures StartStep(s, "img", attrs, disk).doc == s.doc + [Para(Picture(ImagePath(Attr(attrs, "src", ""), disk)), 0, [])]
    ensures StartStep(s, "img", attrs, disk).paragraph.None?
  {
  }

  /** What a step may do to the document: add paragraphs at the end and
      runs to the open paragraph; every other paragraph stays as it was,
      and a paragraph once closed is never written to again. */
  ghost predicate Extends(s: Conv, r: Conv) {
    && |s.doc| <= |r.doc|
    && (forall i :: 0 <= i < |s.doc| && s.paragraph != Some(i) ==> r.doc[i] == s.doc[i])
    && (r.paragraph.Some? && r.paragraph.value < |s.doc| ==> r.paragraph == s.paragraph)
  }

  lemma StepExtends(s: Conv, e: Event, disk: Disk)
    requires ConvValid(s)
    ensures Extends(s, Step(s, e, disk))
  {
    match e {
      case StartTag(tag, attrs) => StartExtends(s, tag, attrs, disk);
      case EndTag(tag) =>
      case Data(text) => DataExtends(s, text);
    }
  }

  lemma StartExtends(s: Conv, tag: string, attrs: seq<(string, string)>, disk: Disk)
    requires ConvValid(s)
    ensures Extends(s, StartStep(s, tag, attrs, disk))
  {
    if tag == "br" {
      BreakExtends(s, attrs, disk);
    } else if tag == "img" {
      ImageExtends(s.(tags := s.tags + [tag]), Attr(attrs, "src", ""), disk);
    } else if IsHeadingTag(tag) || tag == "p" || tag == "li" || tag == "hr" {
      OpenerExtends(s, tag, attrs, disk);
    } else {
      OtherExtends(s, tag, attrs, disk);
    }
  }

  lemma BreakExtends(s: Conv, attrs: seq<(string, string)>, disk: Disk)
    requires ConvValid(s)
    ensures Extends(s, StartStep(s, "br", attrs, disk))
  {
    var s0 := s.(tags := s.tags + ["br"]);
    var s1 := Ensure(s0);
    var r := AddRun(s1, Run("\n", false, false, false));
    assert StartStep(s, "br", attrs, disk) == r;
    EnsureExtends(s0);
    AddRunExtends(s1, Run("\n", false, false, false));
    ExtendsTrans(s0, s1, r);
  }

  lemma EnsureExtends(s: Conv)
    requires ConvValid(s)
    ensures Extends(s, Ensure(s))
  {
  }

  lemma ExtendsTrans(a: Conv, b: Conv, c: Conv)
    requires ConvValid(a) && ConvValid(b)
    requires Extends(a, b) && Extends(b, c)
    ensures Extends(a, c)
  {
  }

  lemma OpenerExtends(s: Conv, tag: string, attrs: seq<(string, string)>, disk: Disk)
    requires ConvValid(s)
    requires IsHeadingTag(tag) || tag == "p" || tag == "li" || tag == "hr"
    ensures Extends(s, StartStep(s, tag, attrs, disk))
  {
    var r := StartStep(s, tag, attrs, disk);
    assert |r.doc| == |s.doc| + 1 && r.doc[..|s.doc|] == s.doc;
    AppendExtends(s, r);
  }

  lemma OtherExtends(s: Conv, tag: string, attrs: seq<(string, string)>, disk: Disk)
    requires ConvValid(s)
    requires !IsHeadingTag(tag) && tag !in {"p", "li", "hr", "br", "img"}
    ensures Extends(s, StartStep(s, tag, attrs, disk))
  {
    var r := StartStep(s, tag, attrs, disk);
    assert r.doc == s.doc && (r.paragraph.None? || r.paragraph == s.paragraph);
  }

  /** Paragraphs added at the end extend the document. */
  lemma AppendExtends(s: Conv, r: Conv)
    requires |s.doc| <= |r.doc| && r.doc[..|s.doc|] == s.doc
    requires r.paragraph.Some? ==> r.paragraph.value >= |s.doc|
    ensures Extends(s, r)
  {
    forall i | 0 <= i < |s.doc|
      ensures r.doc[i] == s.doc[i]
    {
      assert r.doc[..|s.doc|][i] == r.doc[i];
    }
  }

  lemma DataExtends(s: Conv, data: string)
    requires ConvValid(s)
    ensures Extends(s, DataStep(s, data))
  {
    if IsBlank(data) && !s.inCodeBlock {
      if data == " " && s.paragraph.Some? {
        AddRunExtends(s, Run(" ", false, false, false));
      }
    } else if !s.inCodeBlock {
      AddRunExtends(Ensure(s), RunFor(s, data));
    }
  }

  lemma AddRunExtends(s: Conv, run: Run)
    requires ConvValid(s) && s.paragraph.Some?
    ensures Extends(s, AddRun(s, run))
  {
    var r := AddRun(s, run);
    forall i | 0 <= i < |s.doc| && s.paragraph != Some(i)
      ensures r.doc[i] == s.doc[i]
    {
      assert r.doc[..|s.doc| - 1][i] == r.doc[i];
    }
  }

  lemma ImageExtends(s: Conv, src: string, disk: Disk)
    requires ConvValid(s)
    ensures Extends(s, AddImage(s, src, disk))
  {
  }

  /** A paragraph that is not open is never changed by later events. */
  lemma {:induction false} ClosedParagraphsStay(s: Conv, events: seq<Event>, disk: Disk, i: nat)
    requires ConvValid(s) && i < |s.doc| && s.paragraph != Some(i)
    ensures var r := Feed(s, events, disk);
      i < |r.doc| && r.doc[i] == s.doc[i] && r.paragraph != Some(i)
  {
    if events != [] {
      var init := events[..|events| - 1];
      ClosedParagraphsStay(s, init, disk, i);
      StepExtends(Feed(s, init, disk), events[|events| - 1], disk);
    }
  }

  // ---------------------------------------------------------------------
  // The converter object
  // ---------------------------------------------------------------------

  class HtmlToDocxConverter {
    var doc: seq<Para>
    var paragraph: Option<nat>
    var tagStack: seq<string>
    var listStack: seq<(string, nat)>
    var inBlockquote: bool
    var isEpigraph: bool
    var inCodeBlock: bool
    const disk: Disk

    function State(): Conv
      reads this
    {
      Conv(doc, paragraph, tagStack, listStack, inBlockquote, isEpigraph, inCodeBlock)
    }

    ghost predicate Valid()
      reads this
    {
      ConvValid(State())
    }

    /** A converter appending to the document built so far. */
    constructor(start: seq<Para>, disk: Disk)
      ensures Valid() && this.disk == disk
      ensures State() == Conv(start, None, [], [], false, false, false)
    {
      doc := start;
      paragraph := None;
      tagStack := [];
      listStack := [];
      inBlockquote := false;
      isEpigraph := false;
      inCodeBlock := false;
      this.disk := disk;
    }

    method FinishParagraph()
      modifies this
      ensures State() == Finish(old(State()))
    {
      paragraph := None;
    }

    method AddParagraph(p: Para)
      modifies this
      ensures State() == OpenPara(old(State()), p)
    {
      paragraph := Some(|doc|);
      doc := doc + [p];
    }

    method EnsureParagraph()
      requires Valid()
      modifies this
      ensures State() == Ensure(old(State()))
    {
      if paragraph.None? {
        AddParagraph(Para(Normal, 0, []));
      }
    }

    method AddRunToParagraph(run: Run)
      requires Valid() && paragraph.Some?
      modifies this
      ensures State() == AddRun(old(State()), run)
    {
      var i := paragraph.value;
      doc := doc[i := doc[i].(runs := doc[i].runs + [run])];
    }

    method StartListItem()
      modifies this
      ensures State() == ListItem(old(State()))
    {
      FinishParagraph();
      if listStack != [] {
        var (kind, counter) := listStack[|listStack| - 1];
        if kind == "ol" {
          counter := counter + 1;
          listStack := listStack[..|listStack| - 1] + [(kind, counter)];
        }
        var indentLevel := |listStack| - 1;
        var style := if kind == "ul" then ListBullet else ListNumber;
        AddParagraph(Para(style, indentLevel, []));
      } else {
        AddParagraph(Para(ListBullet, 0, []));
      }
    }

    method AddImageOf(src: string)
      requires Valid()
      modifies this
      ensures State() == AddImage(old(State()), src, disk)
    {
      if StartsWith(src, "http://") || StartsWith(src, "https://") {
        return;
      }
      var path := disk.inChapter(src);
      if !disk.exists_(path) {
        path := disk.inBook(src);
      }
      if disk.exists_(path) {
        FinishParagraph();
        AddParagraph(Para(Picture(path), 0, []));
        FinishParagraph();
      }
    }

    /** handle_starttag. */
    method HandleStartTag(tag: string, attrs: seq<(string, string)>)
      requires Valid()
      modifies this
      ensures Valid()
      ensures State() == StartStep(old(State()), tag, attrs, disk)
    {
      tagStack := tagStack + [tag];
      if tag == "h1" || tag == "h2" || tag == "h3" {
        FinishParagraph();
        AddParagraph(Para(Heading(HeadingLevel(tag)), 0, []));
      } else if tag == "p" {
        FinishParagraph();
        AddParagraph(Para(if inBlockquote then Quote else Normal, 0, []));
      } else if tag == "blockquote" {
        inBlockquote := true;
        isEpigraph := Contains(Attr(attrs, "class", ""), "epigraph");
      } else if tag == "ul" || tag == "ol" {
        listStack := listStack + [(tag, 0)];
      } else if tag == "li" {
        StartListItem();
      } else if tag == "pre" {
        inCodeBlock := true;
        FinishParagraph();
      } else if tag == "img" {
        AddImageOf(Attr(attrs, "src", ""));
      } else if tag == "hr" {
        FinishParagraph();
        AddParagraph(RulePara);
        FinishParagraph();
      } else if tag == "br" {
        EnsureParagraph();
        AddRunToParagraph(Run("\n", false, false, false));
      }
    }

    /** handle_endtag. */
    method HandleEndTag(tag: string)
      requires Valid()
      modifies this
      ensures Valid()
      ensures State() == EndStep(old(State()), tag)
    {
      if tagStack != [] && tagStack[|tagStack| - 1] == tag {
        tagStack := tagStack[..|tagStack| - 1];
      }
      if tag == "h1" || tag == "h2" || tag == "h3" || tag == "p" || tag == "li" {
        FinishParagraph();
      } else if tag == "blockquote" {
        inBlockquote := false;
        isEpigraph := false;
      } else if tag == "ul" || tag == "ol" {
        if listStack != [] {
          listStack := listStack[..|listStack| - 1];
        }
      } else if tag == "pre" {
        inCodeBlock := false;
        FinishParagraph();
      }
    }

    /** handle_data. */
    method HandleData(data: string)
      requires Valid()
      modifies this
      ensures Valid()
      ensures State() == DataStep(old(State()), data)
    {
      if IsBlank(data) && !inCodeBlock {
        if data == " " && paragraph.Some? {
          AddRunToParagraph(Run(" ", false, false, false));
        }
        return;
      }
      if inCodeBlock {
        FinishParagraph();
        AddParagraph(Para(CodeBlock, 0, [Run(data, false, false, true)]));
        return;
      }
      var run := RunFor(State(), data);
      EnsureParagraph();
      AddRunToParagraph(run);
    }

    /** feed: every event in turn. */
    method FeedEvents(events: seq<Event>)
      requires Valid()
      modifies this
      ensures Valid()
      ensures State() == Feed(old(State()), events, disk)
    {
      for i := 0 to |events|
        invariant Valid()
        invariant State() == Feed(old(State()), events[..i], disk)
      {
        assert events[..i + 1][..i] == events[..i];
        match events[i] {
          case StartTag(tag, attrs) => HandleStartTag(tag, attrs);
          case EndTag(tag) => HandleEndTag(tag);
          case Data(text) => HandleData(text);
        }
      }
      assert events[..|events|] == events;
    }
  }
}
