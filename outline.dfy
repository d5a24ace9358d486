/** The outline parser and the chapter numbering pass that all three
    exporters carry as identical copies (parse_index, assign_chapter_numbers).
    Reading index.md is left to the caller: the parser takes its text. The
    regular expressions of the source are written out as string predicates;
    each carries, as its contract, the regex-level description it decides. */
module Outline {
  import opened Text

  /** One entry of the chapter list. chapterNum is None until
      AssignChapterNumbers has run (the source's dictionaries lack the key,
      and dict.get answers None). */
  datatype Chapter = Chapter(
    part: Option<string>,
    section: Option<string>,
    title: string,
    file: string,
    isPartHeader: bool,
    chapterNum: Option<nat>)

  /** The book title used when the outline has no title line. */
  const DefaultTitle: string := "夹缝生长"

  /** Front and back matter that never receives a chapter number. */
  const SpecialFiles: set<string> := {"restart.md", "crack.md", "acknowledgments.md"}

  // ---------------------------------------------------------------------
  // The part-line pattern  ^-\s+(第.+部分：.+|前言：|后记：|第.+部分：)
  // ---------------------------------------------------------------------

  /** rest begins with one of the four alternatives of the part pattern. */
  ghost predicate PartAlternative(rest: string) {
    || (|rest| >= 1 && rest[0] == '第' && exists j: nat :: 2 <= j && OccursAt(rest, "部分：", j))
    || StartsWith(rest, "前言：")
    || StartsWith(rest, "后记：")
  }

  /** The part pattern matches line with its group starting at index p. */
  ghost predicate PartMatchAt(line: string, p: nat) {
    && 2 <= p <= |line|
    && line[0] == '-'
    && (forall i :: 1 <= i < p ==> IsSpace(line[i]))
    && PartAlternative(line[p..])
  }

  /** The group the part pattern captures on a line, if it matches: \s+ takes
      the whole whitespace run after '-', and a 第 alternative captures the
      rest of the line. */
  function PartGroup(line: string): Option<string> {
    if |line| >= 2 && line[0] == '-' && IsSpace(line[1]) then
      var rest := LStrip(line[1..]);
      if |rest| >= 1 && rest[0] == '第' && FindFrom(rest, "部分：", 2).Some? then Some(rest)
      else if StartsWith(rest, "前言：") then Some("前言：")
      else if StartsWith(rest, "后记：") then Some("后记：")
      else None
    else None
  }

  /** PartGroup decides the part pattern, and answers the group of its
      (unique) match: the rest of the line for the 第 alternatives, the
      three characters 前言： or 后记： otherwise. */
  lemma PartGroupMatches(line: string)
    ensures PartGroup(line).Some? <==> exists p: nat :: PartMatchAt(line, p)
    ensures forall p: nat :: PartMatchAt(line, p) ==>
      PartGroup(line) == Some(if line[p] == '第' then line[p..] else line[p..p + 3])
  {
    forall p: nat | PartMatchAt(line, p)
      ensures PartGroup(line) == Some(if line[p] == '第' then line[p..] else line[p..p + 3])
    {
      PartGroupOfMatch(line, p);
    }
    if PartGroup(line).Some? {
      PartMatchOfGroup(line);
    }
  }

  /** PartGroup answers exactly when the part pattern matches. */
  lemma PartGroupDecides(line: string)
    ensures PartGroup(line).Some? <==> exists p: nat :: PartMatchAt(line, p)
  {
    forall p: nat | PartMatchAt(line, p) ensures PartGroup(line).Some? {
      PartGroupOfMatch(line, p);
    }
    if PartGroup(line).Some? {
      PartMatchOfGroup(line);
    }
  }

  /** A match of the part pattern yields the group PartGroup answers. */
  lemma PartGroupOfMatch(line: string, p: nat)
    requires PartMatchAt(line, p)
    ensures PartGroup(line) == Some(if line[p] == '第' then line[p..] else line[p..p + 3])
  {
    PartRest(line, p);
    var rest := line[p..];
    assert |rest| >= 3 ==> rest[..3] == line[p..p + 3];
    if rest[0] == '第' {
      assert !StartsWith(rest, "前言：") && !StartsWith(rest, "后记：");
      var j: nat :| 2 <= j && OccursAt(rest, "部分：", j);
      assert FindFrom(rest, "部分：", 2).Some?;
    }
  }

  /** In a match, the text after the whitespace run is the group's start. */
  lemma PartRest(line: string, p: nat)
    requires PartMatchAt(line, p)
    ensures |line| >= 2 && line[0] == '-' && IsSpace(line[1])
    ensures LStrip(line[1..]) == line[p..]
  {
    var tail := line[1..];
    assert IsSpace(line[1]);
    assert forall i :: 0 <= i < p - 1 ==> IsSpace(tail[i]) by {
      forall i | 0 <= i < p - 1 ensures IsSpace(tail[i]) { assert tail[i] == line[i + 1]; }
    }
    assert p < |line| ==> tail[p - 1] == line[p] && !IsSpace(line[p]);
    SpaceRunIs(tail, p - 1);
  }

  /** When PartGroup answers, the pattern matches after the whitespace run. */
  lemma PartMatchOfGroup(line: string)
    requires PartGroup(line).Some?
    ensures |line| >= 1 && PartMatchAt(line, 1 + SpaceRun(line[1..]))
  {
    var p := 1 + SpaceRun(line[1..]);
    assert forall i :: 1 <= i < p ==> IsSpace(line[i]) by {
      forall i | 1 <= i < p ensures IsSpace(line[i]) { assert line[1..][i - 1] == line[i]; }
    }
    var rest := line[p..];
    if |rest| >= 1 && rest[0] == '第' && FindFrom(rest, "部分：", 2).Some? {
      var j := FindFrom(rest, "部分：", 2).value;
      assert OccursAt(rest, "部分：", j);
    }
  }

  // ---------------------------------------------------------------------
  // The sub-section pattern  ^\s*-\s+(.+?)$
  // ---------------------------------------------------------------------

  /** The sub-section pattern matches line with its '-' at a and its group
      starting at b. */
  ghost predicate SectionMatchAt(line: string, a: nat, b: nat) {
    && a + 2 <= b < |line|
    && line[a] == '-'
    && (forall i :: 0 <= i < a ==> IsSpace(line[i]))
    && (forall i :: a < i < b ==> IsSpace(line[i]))
  }

  /** Where the '-' and the group of the sub-section pattern fall: \s* takes
      the leading run, and greedy \s+ gives back one character only when the
      run reaches the end of the line. */
  function SectionSpan(line: string): Option<(nat, nat)> {
    var a := SpaceRun(line);
    if a < |line| && line[a] == '-' then
      var w := SpaceRun(line[a + 1..]);
      var b := if a + 1 + w < |line| then a + 1 + w else |line| - 1;
      if w >= 1 && a + 2 <= b then Some((a, b)) else None
    else None
  }

  /** The stripped group of the sub-section pattern, if it matches. */
  function SectionItem(line: string): Option<string> {
    match SectionSpan(line)
    case Some((a, b)) => if b <= |line| then Some(Strip(line[b..])) else None
    case None => None
  }

  /** SectionSpan finds a match exactly when there is one, and then the one
      the regex engine reports: the only possible '-' and the latest start of
      the group. */
  lemma SectionSpanMatches(line: string)
    ensures SectionSpan(line).None? ==> forall a: nat, b: nat :: !SectionMatchAt(line, a, b)
    ensures SectionSpan(line).Some? ==>
      var (a, b) := SectionSpan(line).value;
      SectionMatchAt(line, a, b) &&
      forall a': nat, b': nat :: SectionMatchAt(line, a', b') ==> a' == a && b' <= b
  {
    var a := SpaceRun(line);
    forall a': nat, b': nat | SectionMatchAt(line, a', b')
      ensures a' == a && SectionSpan(line).Some? && b' <= SectionSpan(line).value.1
    {
      assert !IsSpace(line[a']);
      SpaceRunIs(line, a');
      var tail := line[a + 1..];
      var w := SpaceRun(tail);
      assert forall i :: 0 <= i < b' - a - 1 ==> IsSpace(tail[i]) by {
        forall i | 0 <= i < b' - a - 1 ensures IsSpace(tail[i]) { assert tail[i] == line[a + 1 + i]; }
      }
      SpaceRunAtLeast(tail, b' - a - 1);
    }
    if SectionSpan(line).Some? {
      var tail := line[a + 1..];
      var w := SpaceRun(tail);
      var b := SectionSpan(line).value.1;
      assert forall i :: a < i < b ==> IsSpace(line[i]) by {
        forall i | a < i < b ensures IsSpace(line[i]) { assert tail[i - a - 1] == line[i]; }
      }
      assert SectionMatchAt(line, a, b);
    }
  }

  // ---------------------------------------------------------------------
  // The link pattern  \[(.+?)\]\((.+?)\)  (re.search: leftmost match)
  // ---------------------------------------------------------------------

  /** The link pattern matches line at i, its label ending at k and its path
      at m; the lazy path group stops at the first ')' it can. */
  ghost predicate LinkMatchAt(line: string, i: nat, k: nat, m: nat) {
    && i + 2 <= k && k + 3 <= m < |line|
    && line[i] == '[' && line[k] == ']' && line[k + 1] == '(' && line[m] == ')'
    && forall t :: k + 3 <= t < m ==> line[t] != ')'
  }

  /** Where the first link of a line falls. Only the leftmost '[' matters:
      when the first "](" after it has no ')' behind it, no later '[' can do
      better. */
  function LinkSpan(line: string): Option<(nat, nat, nat)> {
    match FindFrom(line, "[", 0)
    case None => None
    case Some(i) =>
      match FindFrom(line, "](", i + 2)
      case None => None
      case Some(k) =>
        match FindFrom(line, ")", k + 3)
        case None => None
        case Some(m) => Some((i, k, m))
  }

  /** The (label, path) of the first link on a line. */
  function FindLink(line: string): Option<(string, string)> {
    match LinkSpan(line)
    case Some((i, k, m)) => if i < k <= m <= |line| then Some((line[i + 1..k], line[k + 2..m])) else None
    case None => None
  }

  /** LinkSpan finds a match exactly when there is one, and then the one
      re.search reports: leftmost start, then shortest label; the path runs
      to the first ')'. */
  lemma LinkSpanMatches(line: string)
    ensures LinkSpan(line).None? ==> forall i: nat, k: nat, m: nat :: !LinkMatchAt(line, i, k, m)
    ensures LinkSpan(line).Some? ==>
      var (i, k, m) := LinkSpan(line).value;
      LinkMatchAt(line, i, k, m) &&
      forall i': nat, k': nat, m': nat :: LinkMatchAt(line, i', k', m') ==>
        i <= i' && (i' == i ==> k <= k' && (k' == k ==> m' == m))
  {
    forall i': nat, k': nat, m': nat | LinkMatchAt(line, i', k', m')
      ensures LinkSpan(line).Some?
      ensures var (i, k, m) := LinkSpan(line).value;
        i <= i' && (i' == i ==> k <= k' && (k' == k ==> m' == m))
    {
      LinkFoundWhenMatching(line, i', k', m');
    }
    if LinkSpan(line).Some? {
      var (i, k, m) := LinkSpan(line).value;
      LinkSpanIsMatch(line, i, k, m);
    }
  }

  lemma LinkFoundWhenMatching(line: string, i': nat, k': nat, m': nat)
    requires LinkMatchAt(line, i', k', m')
    ensures LinkSpan(line).Some?
    ensures var (i, k, m) := LinkSpan(line).value;
      i <= i' && (i' == i ==> k <= k' && (k' == k ==> m' == m))
  {
    OccursChar(line, '[', i');
    assert line[k'..k' + 2] == "](";
    assert OccursAt(line, "](", k');
    OccursChar(line, ')', m');
    var i := FindFrom(line, "[", 0).value;
    assert i <= i';
    var k := FindFrom(line, "](", i + 2).value;
    var m := FindFrom(line, ")", k + 3).value;
    OccursChar(line, ')', m);
    OccursChar(line, ')', m');
  }

  lemma LinkSpanIsMatch(line: string, i: nat, k: nat, m: nat)
    requires LinkSpan(line) == Some((i, k, m))
    ensures LinkMatchAt(line, i, k, m)
  {
    OccursChar(line, '[', i);
    assert line[k..k + 2] == "](";
    assert line[k] == line[k..k + 2][0] == ']' && line[k + 1] == line[k..k + 2][1] == '(';
    OccursChar(line, ')', m);
    forall t | k + 3 <= t < m ensures line[t] != ')' {
      OccursChar(line, ')', t);
    }
  }

  // ---------------------------------------------------------------------
  // The title pattern  ^#\s+(.+)  (re.search with MULTILINE)
  // ---------------------------------------------------------------------

  /** Index of the first newline at or after q, or the end of s. */
  function LineEnd(s: string, q: nat): (e: nat)
    requires q <= |s|
    ensures q <= e <= |s| && '\n' !in s[q..e]
    ensures e < |s| ==> s[e] == '\n'
    decreases |s| - q
  {
    if q == |s| || s[q] == '\n' then q
    else
      var e := LineEnd(s, q + 1);
      assert s[q..e] == [s[q]] + s[q + 1..e];
      e
  }

  /** The title pattern matches at p with gap whitespace characters (which
      may include newlines) taken by \s+ and a non-empty group. */
  ghost predicate TitleMatch(s: string, p: nat, gap: nat) {
    && p + 1 + gap < |s|
    && s[p] == '#'
    && gap >= 1
    && (forall i :: p + 1 <= i < p + 1 + gap ==> IsSpace(s[i]))
    && s[p + 1 + gap] != '\n'
  }

  /** The largest gap at most L after which a group can start; \s+ is greedy
      and gives characters back only to let the group start. */
  function TitleGap(s: string, p: nat, L: nat): Option<nat> {
    if L == 0 then None
    else if p + 1 + L < |s| && s[p + 1 + L] != '\n' then Some(L)
    else TitleGap(s, p, L - 1)
  }

  /** The gap of the title-pattern match at p, if any. */
  function TitleSpan(s: string, p: nat): Option<nat> {
    if p < |s| && s[p] == '#' then TitleGap(s, p, SpaceRun(s[p + 1..])) else None
  }

  /** The stripped title group when the pattern matches at p. */
  function TitleAt(s: string, p: nat): Option<string> {
    match TitleSpan(s, p)
    case Some(g) => if p + 1 + g <= |s| then Some(Strip(s[p + 1 + g..LineEnd(s, p + 1 + g)])) else None
    case None => None
  }

  lemma {:induction false} TitleGapIsLargest(s: string, p: nat, L: nat)
    requires p < |s| && s[p] == '#'
    requires forall i :: p + 1 <= i < p + 1 + L && i < |s| ==> IsSpace(s[i])
    ensures TitleGap(s, p, L).Some? ==> TitleMatch(s, p, TitleGap(s, p, L).value)
    ensures forall g: nat :: g <= L && TitleMatch(s, p, g) ==>
      TitleGap(s, p, L).Some? && g <= TitleGap(s, p, L).value
  {
    if L > 0 && !(p + 1 + L < |s| && s[p + 1 + L] != '\n') {
      TitleGapIsLargest(s, p, L - 1);
    }
  }

  /** TitleSpan finds a match at p exactly when there is one, and then the
      longest gap, as greedy \s+ does. */
  lemma TitleSpanMatches(s: string, p: nat)
    ensures TitleSpan(s, p).None? ==> forall g: nat :: !TitleMatch(s, p, g)
    ensures TitleSpan(s, p).Some? ==>
      (TitleMatch(s, p, TitleSpan(s, p).value) &&
       forall g: nat :: TitleMatch(s, p, g) ==> g <= TitleSpan(s, p).value)
  {
    if p < |s| && s[p] == '#' {
      var tail := s[p + 1..];
      var w := SpaceRun(tail);
      assert forall i :: p + 1 <= i < p + 1 + w && i < |s| ==> IsSpace(s[i]) by {
        forall i | p + 1 <= i < p + 1 + w && i < |s| ensures IsSpace(s[i]) { assert tail[i - p - 1] == s[i]; }
      }
      forall g: nat | TitleMatch(s, p, g) ensures g <= w {
        assert forall i :: 0 <= i < g ==> IsSpace(tail[i]) by {
          forall i | 0 <= i < g ensures IsSpace(tail[i]) { assert tail[i] == s[p + 1 + i]; }
        }
        SpaceRunAtLeast(tail, g);
      }
      TitleGapIsLargest(s, p, w);
    }
  }

  /** p is the start of a line of s. */
  predicate LineStart(s: string, p: nat) {
    p <= |s| && (p == 0 || s[p - 1] == '\n')
  }

  /** The first title-pattern match at a line start at or after p. */
  function TitleFrom(s: string, p: nat): Option<string>
    requires LineStart(s, p)
    decreases |s| - p
  {
    match TitleAt(s, p)
    case Some(t) => Some(t)
    case None =>
      match FindFrom(s, "\n", p)
      case Some(n) => assert s[n..n + 1] == "\n"; TitleFrom(s, n + 1)
      case None => None
  }

  /** The book title parse_index reports: the stripped group of the first
      title-pattern match, or the default title. */
  function BookTitle(content: string): string {
    match TitleFrom(content, 0)
    case Some(t) => t
    case None => DefaultTitle
  }

  /** Lines that do not start with '#' are skipped by the title search. */
  lemma {:induction false} TitleSkips(s: string, p: nat, h: nat)
    requires LineStart(s, p) && LineStart(s, h) && p <= h
    requires forall q: nat :: p <= q < h && LineStart(s, q) ==> s[q] != '#'
    ensures TitleFrom(s, p) == TitleFrom(s, h)
    decreases h - p
  {
    if p < h {
      assert TitleSpan(s, p).None?;
      OccursChar(s, '\n', h - 1);
      var n := FindFrom(s, "\n", p).value;
      OccursChar(s, '\n', n);
      TitleSkips(s, n + 1, h);
    }
  }

  /** An outline in which no line starts with '#' is titled 夹缝生长. */
  lemma TitleFallsBack(content: string)
    requires forall q: nat :: q < |content| && LineStart(content, q) ==> content[q] != '#'
    ensures BookTitle(content) == DefaultTitle
  {
    NoHashNoTitle(content, 0);
  }

  lemma {:induction false} NoHashNoTitle(s: string, p: nat)
    requires LineStart(s, p)
    requires forall q: nat :: p <= q < |s| && LineStart(s, q) ==> s[q] != '#'
    ensures TitleFrom(s, p).None?
    decreases |s| - p
  {
    match FindFrom(s, "\n", p)
    case Some(n) =>
      OccursChar(s, '\n', n);
      NoHashNoTitle(s, n + 1);
    case None =>
  }

  /** A title line "# T" (T starting with a non-space) preceded only by lines
      that do not start with '#' gives the title strip(T). */
  lemma TitleFromFirstHeading(pre: string, t: string, rest: string)
    requires LineStart(pre, |pre|)
    requires forall q: nat :: q < |pre| && LineStart(pre, q) ==> pre[q] != '#'
    requires '\n' !in t && t != [] && !IsSpace(t[0])
    requires rest == [] || rest[0] == '\n'
    ensures BookTitle(pre + "# " + t + rest) == Strip(t)
  {
    var s := pre + "# " + t + rest;
    HeadingAfterPrefix(pre, t, rest);
    PrefixSkipped(pre, s);
  }

  lemma HeadingAfterPrefix(pre: string, t: string, rest: string)
    requires '\n' !in t && t != [] && !IsSpace(t[0])
    requires rest == [] || rest[0] == '\n'
    ensures TitleAt(pre + "# " + t + rest, |pre|) == Some(Strip(t))
  {
    var s := pre + "# " + t + rest;
    var p := |pre|;
    assert s[p] == '#' && s[p + 1] == ' ' && s[p + 2..p + 2 + |t|] == t;
    assert p + 2 + |t| < |s| ==> s[p + 2 + |t|] == rest[0];
    HeadingLineTitle(s, p, t);
  }

  lemma PrefixSkipped(pre: string, s: string)
    requires StartsWith(s, pre) && LineStart(pre, |pre|)
    requires forall q: nat :: q < |pre| && LineStart(pre, q) ==> pre[q] != '#'
    ensures TitleFrom(s, 0) == TitleFrom(s, |pre|)
  {
    var p := |pre|;
    forall q: nat | q < p && LineStart(s, q) ensures s[q] != '#' {
      assert s[q] == pre[q];
      assert q > 0 ==> s[q - 1] == pre[q - 1];
      assert LineStart(pre, q);
    }
    assert p > 0 ==> s[p - 1] == pre[p - 1];
    TitleSkips(s, 0, p);
  }

  /** A line "# T" at p, T starting with a non-space, has the title strip(T). */
  lemma HeadingLineTitle(s: string, p: nat, t: string)
    requires p + 2 + |t| <= |s| && s[p] == '#' && s[p + 1] == ' ' && s[p + 2..p + 2 + |t|] == t
    requires '\n' !in t && t != [] && !IsSpace(t[0])
    requires p + 2 + |t| == |s| || s[p + 2 + |t|] == '\n'
    ensures TitleAt(s, p) == Some(Strip(t))
  {
    var tail := s[p + 1..];
    assert tail[0] == ' ' && tail[1] == t[0];
    SpaceRunIs(tail, 1);
    assert TitleSpan(s, p) == Some(1);
    LineEndIs(s, p + 2, p + 2 + |t|);
  }

  lemma {:induction false} LineEndIs(s: string, q: nat, e: nat)
    requires q <= e <= |s| && '\n' !in s[q..e]
    requires e == |s| || s[e] == '\n'
    ensures LineEnd(s, q) == e
    decreases e - q
  {
    if q < e {
      assert s[q] == s[q..e][0];
      assert s[q + 1..e] == s[q..e][1..];
      LineEndIs(s, q + 1, e);
    }
  }

  // ---------------------------------------------------------------------
  // parse_index
  // ---------------------------------------------------------------------

  /** What one outline line is to parse_index, decided from its rstripped
      text: a part line (with the link it may carry), a sub-section line
      without a link, a line with a link, or anything else. */
  datatype LineKind =
    | PartLine(part: string, link: Option<(string, string)>)
    | SectionLine(name: string)
    | LinkLine(title: string, file: string)
    | OtherLine

  /** The label a part line gives its part: the group with trailing full-width
      and then ASCII colons removed. */
  function PartLabel(group: string): string {
    RStripChar(RStripChar(group, '：'), ':')
  }

  /** The order of tests in parse_index's loop: the part pattern first, then
      the sub-section pattern on a line without '[', then the link pattern. */
  function Classify(raw: string): LineKind {
    var line := RStrip(raw);
    match PartGroup(line)
    case Some(g) => PartLine(PartLabel(g), FindLink(line))
    case None =>
      if SectionItem(line).Some? && '[' !in line then SectionLine(SectionItem(line).value)
      else match FindLink(line)
        case Some((title, file)) => LinkLine(title, file)
        case None => OtherLine
  }

  /** The kind of every line. */
  function Kinds(lines: seq<string>): (kinds: seq<LineKind>)
    ensures |kinds| == |lines|
  {
    if lines == [] then [] else [Classify(lines[0])] + Kinds(lines[1..])
  }

  lemma {:induction false} KindAt(lines: seq<string>, i: nat)
    requires i < |lines|
    ensures Kinds(lines)[i] == Classify(lines[i])
  {
    if i > 0 {
      KindAt(lines[1..], i - 1);
    }
  }

  /** The loop's step on line n. */
  lemma ReadPrefixStep(kinds: seq<LineKind>, n: nat)
    requires n < |kinds|
    ensures ReadPrefix(kinds, n + 1) ==
      (Step(ReadPrefix(kinds, n).0, kinds[n]).0, ReadPrefix(kinds, n).1 + Step(ReadPrefix(kinds, n).0, kinds[n]).1)
  {
  }

  /** The two variables parse_index carries from line to line. */
  datatype Cursor = Cursor(part: Option<string>, section: Option<string>)

  /** The line emits a chapter entry, whatever the cursor. */
  predicate Emits(kind: LineKind) {
    kind.LinkLine? || (kind.PartLine? && kind.link.Some?)
  }

  /** One iteration of the parse_index loop: the new cursor and the entries
      the line emits. */
  function Step(cur: Cursor, kind: LineKind): (Cursor, seq<Chapter>) {
    match kind
    case PartLine(part, link) =>
      var entries := if link.Some? then [Chapter(Some(part), None, link.value.0, link.value.1, true, None)] else [];
      (Cursor(Some(part), None), entries)
    case SectionLine(name) => (cur.(section := Some(name)), [])
    case LinkLine(title, file) => (cur, [Chapter(cur.part, cur.section, title, file, false, None)])
    case OtherLine => (cur, [])
  }

  /** The loop over the first n lines: the cursor reached and the entries
      emitted so far. */
  function ReadPrefix(kinds: seq<LineKind>, n: nat): (Cursor, seq<Chapter>)
    requires n <= |kinds|
  {
    if n == 0 then (Cursor(None, None), [])
    else
      var prev := ReadPrefix(kinds, n - 1);
      var step := Step(prev.0, kinds[n - 1]);
      (step.0, prev.1 + step.1)
  }

  /** The label of the last part line among the first n lines. */
  function LastPart(kinds: seq<LineKind>, n: nat): Option<string>
    requires n <= |kinds|
  {
    if n == 0 then None
    else if kinds[n - 1].PartLine? then Some(kinds[n - 1].part)
    else LastPart(kinds, n - 1)
  }

  /** The name on the last sub-section line among the first n lines that no
      part line follows. */
  function LastSection(kinds: seq<LineKind>, n: nat): Option<string>
    requires n <= |kinds|
  {
    if n == 0 then None
    else if kinds[n - 1].PartLine? then None
    else if kinds[n - 1].SectionLine? then Some(kinds[n - 1].name)
    else LastSection(kinds, n - 1)
  }

  /** The parser's cursor is the most recent part and the most recent
      sub-section of that part. */
  lemma {:induction false} CursorIsLatest(kinds: seq<LineKind>, n: nat)
    requires n <= |kinds|
    ensures ReadPrefix(kinds, n).0 == Cursor(LastPart(kinds, n), LastSection(kinds, n))
  {
    if n > 0 {
      CursorIsLatest(kinds, n - 1);
    }
  }

  /** Number of emitting lines among the first n. */
  function CountEmitting(kinds: seq<LineKind>, n: nat): nat
    requires n <= |kinds|
  {
    if n == 0 then 0 else CountEmitting(kinds, n - 1) + (if Emits(kinds[n - 1]) then 1 else 0)
  }

  /** One entry per emitting line. */
  lemma {:induction false} EntryCount(kinds: seq<LineKind>, n: nat)
    requires n <= |kinds|
    ensures |ReadPrefix(kinds, n).1| == CountEmitting(kinds, n)
  {
    if n > 0 {
      EntryCount(kinds, n - 1);
    }
  }

  /** Entries appear in the order of their lines and later lines leave them in
      place: the entry of emitting line i follows the entries of the emitting
      lines before it. */
  lemma {:induction false} EntriesFollowLines(kinds: seq<LineKind>, i: nat, n: nat)
    requires i < n <= |kinds| && Emits(kinds[i])
    ensures CountEmitting(kinds, i) < |ReadPrefix(kinds, n).1|
    ensures ReadPrefix(kinds, n).1[CountEmitting(kinds, i)] == Step(ReadPrefix(kinds, i).0, kinds[i]).1[0]
    decreases n
  {
    EntryCount(kinds, i);
    if n > i + 1 {
      EntriesFollowLines(kinds, i, n - 1);
    }
  }

  /** Each emitting line yields one entry, at the position given by the
      emitting lines before it, with the link's title and file, not yet
      numbered; a part header carries its own part and no sub-section, any
      other entry the most recent part and sub-section above it. */
  lemma EntryOfLine(kinds: seq<LineKind>, i: nat)
    requires i < |kinds| && Emits(kinds[i])
    ensures |ReadPrefix(kinds, |kinds|).1| == CountEmitting(kinds, |kinds|)
    ensures CountEmitting(kinds, i) < |ReadPrefix(kinds, |kinds|).1|
    ensures var e := ReadPrefix(kinds, |kinds|).1[CountEmitting(kinds, i)];
      && e.chapterNum.None?
      && (e.isPartHeader <==> kinds[i].PartLine?)
      && (kinds[i].PartLine? ==>
            Some((e.title, e.file)) == kinds[i].link && e.part == Some(kinds[i].part) && e.section.None?)
      && (kinds[i].LinkLine? ==>
            (e.title, e.file) == (kinds[i].title, kinds[i].file) &&
            e.part == LastPart(kinds, i) && e.section == LastSection(kinds, i))
  {
    EntryCount(kinds, |kinds|);
    EntriesFollowLines(kinds, i, |kinds|);
    CursorIsLatest(kinds, i);
  }

  /** Classify follows the patterns: a part line is one the part pattern
      matches, labelled by its group; a sub-section line is one the
      sub-section pattern matches and that has no '[' and is no part line;
      a link line carries the first link of the line. */
  lemma ClassifyMatches(raw: string)
    ensures var line := RStrip(raw);
      && (Classify(raw).PartLine? <==> exists p: nat :: PartMatchAt(line, p))
      && (Classify(raw).SectionLine? <==>
            (forall p: nat :: !PartMatchAt(line, p)) && '[' !in line &&
            exists a: nat, b: nat :: SectionMatchAt(line, a, b))
      && (Classify(raw).LinkLine? ==> exists i: nat, k: nat, m: nat :: LinkMatchAt(line, i, k, m))
      && (Classify(raw).OtherLine? ==>
            (forall p: nat :: !PartMatchAt(line, p)) &&
            (forall i: nat, k: nat, m: nat :: !LinkMatchAt(line, i, k, m)))
  {
    ClassifyPart(raw);
    PartGroupDecides(RStrip(raw));
    ClassifySection(raw);
    ClassifyLink(raw);
    ClassifyOther(raw);
  }

  lemma ClassifyPart(raw: string)
    ensures Classify(raw).PartLine? <==> PartGroup(RStrip(raw)).Some?
  {
  }

  lemma ClassifySection(raw: string)
    ensures var line := RStrip(raw);
      Classify(raw).SectionLine? <==>
        (forall p: nat :: !PartMatchAt(line, p)) && '[' !in line &&
        exists a: nat, b: nat :: SectionMatchAt(line, a, b)
  {
    PartGroupDecides(RStrip(raw));
    SectionSpanMatches(RStrip(raw));
  }

  lemma ClassifyLink(raw: string)
    ensures Classify(raw).LinkLine? ==> exists i: nat, k: nat, m: nat :: LinkMatchAt(RStrip(raw), i, k, m)
  {
    var line := RStrip(raw);
    if Classify(raw).LinkLine? {
      var (i, k, m) := LinkSpan(line).value;
      LinkSpanIsMatch(line, i, k, m);
    }
  }

  lemma ClassifyOther(raw: string)
    ensures var line := RStrip(raw);
      Classify(raw).OtherLine? ==>
        (forall p: nat :: !PartMatchAt(line, p)) &&
        (forall i: nat, k: nat, m: nat :: !LinkMatchAt(line, i, k, m))
  {
    PartGroupDecides(RStrip(raw));
    LinkSpanMatches(RStrip(raw));
  }

  /** parse_index over the text of the outline. */
  method ParseIndex(content: string) returns (bookTitle: string, chapters: seq<Chapter>)
    ensures bookTitle == BookTitle(content)
    ensures chapters == ReadPrefix(Kinds(SplitLines(content)), |SplitLines(content)|).1
  {
    bookTitle := BookTitle(content);
    var lines := SplitLines(content);
    ghost var kinds := Kinds(lines);
    var currentPart: Option<string> := None;
    var currentSection: Option<string> := None;
    chapters := [];
    for n := 0 to |lines|
      invariant ReadPrefix(kinds, n) == (Cursor(currentPart, currentSection), chapters)
    {
      KindAt(lines, n);
      ReadPrefixStep(kinds, n);
      currentPart, currentSection, chapters := ParseLine(lines[n], currentPart, currentSection, chapters);
    }
  }

  /** One turn of parse_index's loop: the line updates the current part and
      sub-section and appends the entries it emits. */
  method ParseLine(raw: string, part: Option<string>, section: Option<string>, chapters: seq<Chapter>)
    returns (currentPart: Option<string>, currentSection: Option<string>, out: seq<Chapter>)
    ensures Cursor(currentPart, currentSection) == Step(Cursor(part, section), Classify(raw)).0
    ensures out == chapters + Step(Cursor(part, section), Classify(raw)).1
  {
    currentPart, currentSection := part, section;
    out := chapters;
    var line := RStrip(raw);
    var partMatch := PartGroup(line);
    if partMatch.Some? {
      var partText := PartLabel(partMatch.value);
      var linkMatch := FindLink(line);
      currentPart := Some(partText);
      currentSection := None;
      if linkMatch.Some? {
        out := out + [Chapter(currentPart, None, linkMatch.value.0, linkMatch.value.1, true, None)];
      } else {
        assert out + [] == out;
      }
      assert Classify(raw) == PartLine(partText, linkMatch);
      return;
    }
    var sectionMatch := SectionItem(line);
    if sectionMatch.Some? && '[' !in line {
      currentSection := sectionMatch;
      assert out + [] == out;
      assert Classify(raw) == SectionLine(sectionMatch.value);
      return;
    }
    var linkMatch := FindLink(line);
    if linkMatch.Some? {
      assert Classify(raw) == LinkLine(linkMatch.value.0, linkMatch.value.1);
      out := out + [Chapter(currentPart, currentSection, linkMatch.value.0, linkMatch.value.1, false, None)];
    } else {
      assert Classify(raw) == OtherLine;
      assert out + [] == out;
    }
  }

  // ---------------------------------------------------------------------
  // assign_chapter_numbers
  // ---------------------------------------------------------------------

  /** re.match(r"第.+部分", part): 第, at least one character other than a
      newline, then 部分. */
  predicate IsNumberedPart(part: string) {
    && |part| >= 1 && part[0] == '第'
    && match FindFrom(part, "部分", 2)
       case Some(j) => '\n' !in part[1..j]
       case None => false
  }

  /** The entry receives a chapter number. */
  predicate Numbered(ch: Chapter) {
    && BaseName(ch.file) !in SpecialFiles
    && !ch.isPartHeader
    && ch.part.Some? && IsNumberedPart(ch.part.value)
  }

  /** Which entries receive a number. */
  function NumberedFlags(chs: seq<Chapter>): (flags: seq<bool>)
    ensures |flags| == |chs|
  {
    seq(|chs|, i requires 0 <= i < |chs| => Numbered(chs[i]))
  }

  /** Number of set flags among the first i. */
  function CountSet(flags: seq<bool>, i: nat): nat
    requires i <= |flags|
  {
    if i == 0 then 0 else CountSet(flags, i - 1) + (if flags[i - 1] then 1 else 0)
  }

  /** The number entry i receives: one more than the numbered entries before
      it, or none. */
  function NumberAt(flags: seq<bool>, i: nat): Option<nat>
    requires i < |flags|
  {
    if flags[i] then Some(CountSet(flags, i) + 1) else None
  }

  /** assign_chapter_numbers: writes chapterNum into every entry in place;
      the numbered entries receive 1, 2, 3, ... in list order, the others
      None. */
  method AssignChapterNumbers(chapters: array<Chapter>)
    modifies chapters
    ensures forall i :: 0 <= i < chapters.Length ==>
      chapters[i] == old(chapters[i]).(chapterNum := NumberAt(NumberedFlags(old(chapters[..])), i))
  {
    ghost var flags := NumberedFlags(chapters[..]);
    ghost var before := chapters[..];
    var num := 0;
    for i := 0 to chapters.Length
      invariant num == CountSet(flags, i)
      invariant chapters[..] == Renumbered(before, flags, i) + before[i..]
    {
      FlagAt(before, i);
      num := RenumberEntryAt(chapters, i, num, before, flags);
    }
    RenumberedAt(before, flags, chapters.Length);
  }

  /** One turn of the loop of assign_chapter_numbers, on the array. */
  method RenumberEntryAt(chapters: array<Chapter>, i: nat, count: nat,
                         ghost before: seq<Chapter>, ghost flags: seq<bool>) returns (num: nat)
    requires i < chapters.Length == |before| == |flags| && flags[i] == Numbered(before[i])
    requires count == CountSet(flags, i)
    requires chapters[..] == Renumbered(before, flags, i) + before[i..]
    modifies chapters
    ensures num == CountSet(flags, i + 1)
    ensures chapters[..] == Renumbered(before, flags, i + 1) + before[i + 1..]
  {
    ghost var current := chapters[..];
    var ch := chapters[i];
    assert ch == before[i];
    var chapterNum;
    chapterNum, num := NumberEntry(ch, count);
    assert chapterNum == NumberAt(flags, i);
    chapters[i] := ch.(chapterNum := chapterNum);
    RenumberStep(current, chapters[..], before, flags, i);
  }

  /** The first n entries with their numbers written in. */
  ghost function Renumbered(before: seq<Chapter>, flags: seq<bool>, n: nat): (r: seq<Chapter>)
    requires n <= |before| && |flags| == |before|
    ensures |r| == n
  {
    if n == 0 then [] else Renumbered(before, flags, n - 1) + [before[n - 1].(chapterNum := NumberAt(flags, n - 1))]
  }

  lemma FlagAt(chs: seq<Chapter>, i: nat)
    requires i < |chs|
    ensures NumberedFlags(chs)[i] == Numbered(chs[i])
  { }

  /** One array write extends the renumbered prefix by one entry. */
  lemma RenumberStep(s: seq<Chapter>, t: seq<Chapter>, before: seq<Chapter>, flags: seq<bool>, i: nat)
    requires i < |before| && |flags| == |before|
    requires s == Renumbered(before, flags, i) + before[i..]
    requires |t| == |s| && t[i] == before[i].(chapterNum := NumberAt(flags, i))
    requires forall k :: 0 <= k < |s| && k != i ==> t[k] == s[k]
    ensures t == Renumbered(before, flags, i + 1) + before[i + 1..]
  {
    var u := Renumbered(before, flags, i + 1) + before[i + 1..];
    assert |t| == |u|;
    forall k | 0 <= k < |t| ensures t[k] == u[k] {
      if k < i {
        assert t[k] == Renumbered(before, flags, i)[k];
      } else if k > i {
        assert t[k] == before[k];
      }
    }
  }

  lemma {:induction false} RenumberedAt(before: seq<Chapter>, flags: seq<bool>, n: nat)
    requires n <= |before| && |flags| == |before|
    ensures forall j :: 0 <= j < n ==> Renumbered(before, flags, n)[j] == before[j].(chapterNum := NumberAt(flags, j))
  {
    if n > 0 {
      RenumberedAt(before, flags, n - 1);
    }
  }

  /** One turn of assign_chapter_numbers: the number an entry receives and
      the running count after it. */
  method NumberEntry(ch: Chapter, count: nat) returns (chapterNum: Option<nat>, num: nat)
    ensures Numbered(ch) ==> chapterNum == Some(count + 1) && num == count + 1
    ensures !Numbered(ch) ==> chapterNum.None? && num == count
  {
    num := count;
    var basename := BaseName(ch.file);
    if basename in SpecialFiles || ch.isPartHeader {
      chapterNum := None;
    } else if ch.part.Some? && IsNumberedPart(ch.part.value) {
      num := num + 1;
      chapterNum := Some(num);
    } else {
      chapterNum := None;
    }
  }

  /** Numbers grow strictly along the list. */
  lemma NumbersIncrease(flags: seq<bool>, i: nat, j: nat)
    requires i < j < |flags| && flags[i] && flags[j]
    ensures NumberAt(flags, i).value < NumberAt(flags, j).value
  {
    CountGrows(flags, i, j);
  }

  lemma {:induction false} CountGrows(flags: seq<bool>, i: nat, j: nat)
    requires i < j <= |flags| && flags[i]
    ensures CountSet(flags, i) < CountSet(flags, j)
    decreases j
  {
    if j > i + 1 {
      CountGrows(flags, i, j - 1);
    }
  }

  /** No number is skipped: each of 1 .. CountSet(flags, j) goes to one of
      the first j entries. */
  lemma {:induction false} EveryNumberUsed(flags: seq<bool>, j: nat, n: nat)
    requires j <= |flags| && 1 <= n <= CountSet(flags, j)
    ensures exists i :: 0 <= i < j && NumberAt(flags, i) == Some(n)
  {
    if n <= CountSet(flags, j - 1) {
      EveryNumberUsed(flags, j - 1, n);
    } else {
      assert NumberAt(flags, j - 1) == Some(n);
    }
  }
}
