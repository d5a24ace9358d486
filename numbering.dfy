/** The per-chapter markdown passes the exporters apply before rendering:
    heading numbering (add_numbering_to_content, two levels in the DOCX and
    EPUB exporters, three in the PDF exporter), the list of second-level
    headings the tables of contents show (extract_h2_headings), and the split
    of a chapter into its guiding question and its body (extract_question). */
module Numbering {
  import opened Text

  /** How many heading levels receive numbers. */
  datatype Depth = TwoLevels | ThreeLevels

  /** The line starts with "# " (re.match(r"^# ", line)). */
  predicate IsH1(line: string) {
    |line| >= 2 && line[0] == '#' && line[1] == ' '
  }

  /** The line starts with "## ". */
  predicate IsH2(line: string) {
    |line| >= 3 && line[0] == '#' && line[1] == '#' && line[2] == ' '
  }

  /** The line starts with "### ". */
  predicate IsH3(line: string) {
    |line| >= 4 && line[0] == '#' && line[1] == '#' && line[2] == '#' && line[3] == ' '
  }

  /** Number of "## " lines among the first i lines. */
  function H2Count(lines: seq<string>, i: nat): nat
    requires i <= |lines|
  {
    if i == 0 then 0 else H2Count(lines, i - 1) + (if IsH2(lines[i - 1]) then 1 else 0)
  }

  /** Number of "### " lines among the first i lines since the last "## "
      line. */
  function H3Count(lines: seq<string>, i: nat): nat
    requires i <= |lines|
  {
    if i == 0 then 0
    else if IsH2(lines[i - 1]) then 0
    else H3Count(lines, i - 1) + (if IsH3(lines[i - 1]) then 1 else 0)
  }

  /** Line k of a chapter numbered n. A heading marker followed by nothing is
      left alone (the substitution needs one character), but a bare "## " or
      "### " still counts. */
  function NumberedLine(n: nat, depth: Depth, lines: seq<string>, k: nat): string
    requires k < |lines|
  {
    var line := lines[k];
    if IsH1(line) then
      if |line| > 2 then "# " + Digits(n) + ". " + line[2..] else line
    else if IsH2(line) then
      if |line| > 3 then "## " + Digits(n) + "." + Digits(H2Count(lines, k + 1)) + " " + line[3..] else line
    else if depth == ThreeLevels && IsH3(line) then
      if |line| > 4 then
        "### " + Digits(n) + "." + Digits(H2Count(lines, k + 1)) + "." + Digits(H3Count(lines, k + 1)) + " " + line[4..]
      else line
    else line
  }

  /** Every line of a chapter numbered n. */
  function NumberedLines(n: nat, depth: Depth, lines: seq<string>): (r: seq<string>)
    ensures |r| == |lines|
    ensures forall k :: 0 <= k < |lines| ==> r[k] == NumberedLine(n, depth, lines, k)
  {
    seq(|lines|, k requires 0 <= k < |lines| => NumberedLine(n, depth, lines, k))
  }

  /** add_numbering_to_content: a chapter without a number is returned as it
      is; otherwise every heading line is numbered, the counters running
      over the lines in order. */
  method AddNumbering(content: string, chapterNum: Option<nat>, depth: Depth) returns (r: string)
    ensures chapterNum.None? ==> r == content
    ensures chapterNum.Some? ==> r == JoinLines(NumberedLines(chapterNum.value, depth, SplitLines(content)))
  {
    if chapterNum.None? {
      return content;
    }
    var n := chapterNum.value;
    var h2Counter := 0;
    var h3Counter := 0;
    var lines := SplitLines(content);
    var result: seq<string> := [];
    for i := 0 to |lines|
      invariant h2Counter == H2Count(lines, i)
      invariant depth == ThreeLevels ==> h3Counter == H3Count(lines, i)
      invariant result == NumberedLines(n, depth, lines)[..i]
    {
      var line := lines[i];
      if IsH1(line) {
        if |line| > 2 {
          line := "# " + Digits(n) + ". " + line[2..];
        }
      } else if IsH2(line) {
        h2Counter := h2Counter + 1;
        if depth == ThreeLevels {
          h3Counter := 0;
        }
        if |line| > 3 {
          line := "## " + Digits(n) + "." + Digits(h2Counter) + " " + line[3..];
        }
      } else if depth == ThreeLevels && IsH3(line) {
        h3Counter := h3Counter + 1;
        if |line| > 4 {
          line := "### " + Digits(n) + "." + Digits(h2Counter) + "." + Digits(h3Counter) + " " + line[4..];
        }
      }
      assert line == NumberedLine(n, depth, lines, i);
      assert NumberedLines(n, depth, lines)[..i + 1] == NumberedLines(n, depth, lines)[..i] + [line];
      result := result + [line];
    }
    assert NumberedLines(n, depth, lines)[..|lines|] == NumberedLines(n, depth, lines);
    r := JoinLines(result);
  }

  /** Numbering never merges or splits lines: the numbered text has as many
      lines as the original, and line k of it is the numbered line k. */
  lemma NumberingKeepsLines(n: nat, depth: Depth, content: string)
    ensures SplitLines(JoinLines(NumberedLines(n, depth, SplitLines(content)))) == NumberedLines(n, depth, SplitLines(content))
  {
    var lines := SplitLines(content);
    var r := NumberedLines(n, depth, lines);
    forall k | 0 <= k < |r| ensures '\n' !in r[k] {
      var line := lines[k];
      assert '\n' !in line;
      DigitsNoNewline(n);
      DigitsNoNewline(H2Count(lines, k + 1));
      DigitsNoNewline(H3Count(lines, k + 1));
      assert |line| > 2 ==> '\n' !in line[2..];
      assert |line| > 3 ==> '\n' !in line[3..];
      assert |line| > 4 ==> '\n' !in line[4..];
    }
    SplitJoin(r);
  }

  lemma DigitsNoNewline(n: nat)
    ensures '\n' !in Digits(n) && ' ' !in Digits(n)
  {
    var d := Digits(n);
    assert forall i :: 0 <= i < |d| ==> d[i] != '\n' && d[i] != ' ';
  }

  /** Lines that are not headings of a numbered level pass unchanged, and so
      does every line of an unnumbered chapter. */
  lemma PlainLinesUnchanged(n: nat, depth: Depth, lines: seq<string>, k: nat)
    requires k < |lines|
    requires !IsH1(lines[k]) && !IsH2(lines[k]) && (depth == ThreeLevels ==> !IsH3(lines[k]))
    ensures NumberedLine(n, depth, lines, k) == lines[k]
  {
  }

  /** Second-level numbers run 1, 2, 3, ... down the chapter. */
  lemma {:induction false} H2NumbersIncrease(lines: seq<string>, i: nat, j: nat)
    requires i < j < |lines| && IsH2(lines[j])
    ensures H2Count(lines, i + 1) < H2Count(lines, j + 1)
    decreases j - i
  {
    if j > i + 1 {
      if IsH2(lines[j - 1]) {
        H2NumbersIncrease(lines, i, j - 1);
      } else {
        H2CountMonotone(lines, i + 1, j);
      }
    }
  }

  lemma {:induction false} H2CountMonotone(lines: seq<string>, i: nat, j: nat)
    requires i <= j <= |lines|
    ensures H2Count(lines, i) <= H2Count(lines, j)
    decreases j - i
  {
    if i < j {
      H2CountMonotone(lines, i, j - 1);
    }
  }

  /** In the three-level numbering a "### " line carries the number of the
      "## " line above it, and its own number counts the "### " lines since
      that one, from 1. */
  lemma H3UnderH2(n: nat, lines: seq<string>, i: nat, j: nat)
    requires i < j < |lines| && IsH2(lines[i]) && IsH3(lines[j]) && |lines[j]| > 4
    requires forall k :: i < k < j ==> !IsH2(lines[k])
    ensures 1 <= H3Count(lines, j + 1) <= j - i
    ensures NumberedLine(n, ThreeLevels, lines, j) ==
      "### " + Digits(n) + "." + Digits(H2Count(lines, i + 1)) + "." + Digits(H3Count(lines, j + 1)) + " " + lines[j][4..]
  {
    H3Since(lines, i, j - 1);
  }

  lemma {:induction false} H3Since(lines: seq<string>, i: nat, j: nat)
    requires i <= j < |lines| && IsH2(lines[i])
    requires forall k :: i < k <= j ==> !IsH2(lines[k])
    ensures H2Count(lines, j + 1) == H2Count(lines, i + 1)
    ensures H3Count(lines, j + 1) <= j - i
    decreases j - i
  {
    if i < j {
      H3Since(lines, i, j - 1);
    }
  }

  // ---------------------------------------------------------------------
  // extract_h2_headings
  // ---------------------------------------------------------------------

  /** What extract_h2_headings takes from one line: the stripped text after
      "## ", when the line starts with "## " and has something after it. */
  function HeadingOf(line: string): Option<string> {
    if IsH2(line) && |line| > 3 then Some(Strip(line[3..])) else None
  }

  /** HeadingOf for every line. */
  function HeadingsOf(lines: seq<string>): (r: seq<Option<string>>)
    ensures |r| == |lines|
    ensures forall k :: 0 <= k < |lines| ==> r[k] == HeadingOf(lines[k])
  {
    seq(|lines|, k requires 0 <= k < |lines| => HeadingOf(lines[k]))
  }

  /** The headings found among the first i lines, in order. */
  function Collected(found: seq<Option<string>>, i: nat): seq<string>
    requires i <= |found|
  {
    if i == 0 then []
    else Collected(found, i - 1) + (if found[i - 1].Some? then [found[i - 1].value] else [])
  }

  /** extract_h2_headings. */
  method ExtractH2Headings(content: string) returns (headings: seq<string>)
    ensures headings == Collected(HeadingsOf(SplitLines(content)), |SplitLines(content)|)
  {
    var lines := SplitLines(content);
    ghost var found := HeadingsOf(lines);
    headings := [];
    for i := 0 to |lines|
      invariant headings == Collected(found, i)
    {
      var line := lines[i];
      CollectedNext(found, i);
      HeadingAt(lines, i);
      if IsH2(line) && |line| > 3 {
        headings := headings + [Strip(line[3..])];
      }
    }
  }

  lemma HeadingAt(lines: seq<string>, i: nat)
    requires i < |lines|
    ensures HeadingsOf(lines)[i] == if IsH2(lines[i]) && |lines[i]| > 3 then Some(Strip(lines[i][3..])) else None
  {
  }

  lemma CollectedNext(found: seq<Option<string>>, i: nat)
    requires i < |found|
    ensures found[i].None? ==> Collected(found, i + 1) == Collected(found, i)
    ensures found[i].Some? ==> Collected(found, i + 1) == Collected(found, i) + [found[i].value]
  {
  }

  /** Number of found headings among the first i entries. */
  function FoundCount(found: seq<Option<string>>, i: nat): nat
    requires i <= |found|
  {
    if i == 0 then 0 else FoundCount(found, i - 1) + (if found[i - 1].Some? then 1 else 0)
  }

  lemma {:induction false} CollectedCount(found: seq<Option<string>>, i: nat)
    requires i <= |found|
    ensures |Collected(found, i)| == FoundCount(found, i)
  {
    if i > 0 {
      CollectedCount(found, i - 1);
    }
  }

  /** The entry of line i is the FoundCount(found, i + 1)-th heading. */
  lemma {:induction false} CollectedAt(found: seq<Option<string>>, i: nat, j: nat)
    requires i < j <= |found| && found[i].Some?
    ensures 1 <= FoundCount(found, i + 1) <= |Collected(found, j)|
    ensures Collected(found, j)[FoundCount(found, i + 1) - 1] == found[i].value
    decreases j
  {
    var k := FoundCount(found, i + 1);
    if j == i + 1 {
      CollectedCount(found, i);
      assert Collected(found, j) == Collected(found, i) + [found[i].value];
    } else {
      CollectedAt(found, i, j - 1);
      var prev := Collected(found, j - 1);
      assert Collected(found, j)[..|prev|] == prev;
    }
  }

  /** Every "## " line carries some text. */
  predicate HeadedH2s(lines: seq<string>) {
    forall k :: 0 <= k < |lines| && IsH2(lines[k]) ==> |lines[k]| > 3
  }

  /** When every "## " line has text, the found headings are counted exactly
      as the body numbering counts "## " lines. */
  lemma FoundCountIsH2Count(lines: seq<string>, i: nat)
    requires i <= |lines| && HeadedH2s(lines)
    ensures FoundCount(HeadingsOf(lines), i) == H2Count(lines, i)
  {
    var found := HeadingsOf(lines);
    forall k | 0 <= k < |lines| ensures found[k].Some? <==> IsH2(lines[k]) {
      HeadingAt(lines, k);
    }
    FlagsCount(found, lines, i);
  }

  lemma {:induction false} FlagsCount(found: seq<Option<string>>, lines: seq<string>, i: nat)
    requires |found| == |lines| && i <= |lines|
    requires forall k :: 0 <= k < |lines| ==> (found[k].Some? <==> IsH2(lines[k]))
    ensures FoundCount(found, i) == H2Count(lines, i)
  {
    if i > 0 {
      FlagsCount(found, lines, i - 1);
    }
  }

  /** The contents list and the body agree: when every "## " line has text,
      the k-th heading extract_h2_headings reports (listed as "n.k heading")
      is the stripped text of the body line numbered "## n.k text". */
  lemma HeadingsMatchNumbering(n: nat, depth: Depth, lines: seq<string>, i: nat)
    requires i < |lines| && IsH2(lines[i]) && HeadedH2s(lines)
    ensures var k := H2Count(lines, i + 1);
      && 1 <= k <= |Collected(HeadingsOf(lines), |lines|)|
      && Collected(HeadingsOf(lines), |lines|)[k - 1] == Strip(lines[i][3..])
      && NumberedLine(n, depth, lines, i) == "## " + Digits(n) + "." + Digits(k) + " " + lines[i][3..]
  {
    var found := HeadingsOf(lines);
    assert found[i] == Some(Strip(lines[i][3..]));
    CollectedAt(found, i, |lines|);
    FoundCountIsH2Count(lines, i + 1);
  }

  /** A bare "## " line counts for the body's numbering but gives no entry
      in the heading list, so the two drift apart after it. */
  lemma BareH2ShiftsNumbering()
    ensures var lines := ["## ", "## A"];
      && Collected(HeadingsOf(lines), 2) == ["A"]
      && NumberedLine(1, TwoLevels, lines, 1) == "## 1.2 A"
  {
    var lines := ["## ", "## A"];
    assert lines[1][3..] == "A";
    StripTrimmed("A");
    var found := HeadingsOf(lines);
    assert found[0] == None && found[1] == Some("A");
    assert Collected(found, 1) == [];
    assert Collected(found, 2) == ["A"];
    assert H2Count(lines, 1) == 1 && H2Count(lines, 2) == 2;
    assert Digits(1) == "1" && Digits(2) == "2";
    assert NumberedLine(1, TwoLevels, lines, 1) == "## " + "1" + "." + "2" + " " + "A";
  }

  // ---------------------------------------------------------------------
  // extract_question
  // ---------------------------------------------------------------------

  /** The line pair and rule that close a guiding question. */
  const Separator: string := "\n\n---\n"

  /** Files without a question page in the DOCX and EPUB exporters. */
  const SkipQuestionFiles: set<string> := {"restart.md", "crack.md", "flomo.md", "acknowledgments.md"}

  /** Files without a question page in the PDF exporter, which lacks
      acknowledgments.md. */
  const SkipQuestionFilesPdf: set<string> := {"restart.md", "crack.md", "flomo.md"}

  /** extract_question with the exporter's skip list: the lazy group ends at
      the first separator that leaves it at least one character. */
  function ExtractQuestion(content: string, file: string, skip: set<string>): (r: (Option<string>, string))
    ensures BaseName(file) in skip ==> r == (None, content)
    ensures r.0.None? ==> r.1 == content
    ensures r.0.None? && BaseName(file) !in skip ==> forall j :: 1 <= j ==> !OccursAt(content, Separator, j)
    ensures r.0.Some? ==> exists j :: (1 <= j <= |content| && content == content[..j] + Separator + r.1
      && r.0.value == Strip(content[..j])
      && forall j' :: 1 <= j' < j ==> !OccursAt(content, Separator, j'))
  {
    if BaseName(file) in skip then (None, content)
    else
      match FindFrom(content, Separator, 1)
      case Some(j) =>
        var body := content[j + |Separator|..];
        assert content == content[..j] + content[j..j + |Separator|] + body;
        (Some(Strip(content[..j])), body)
      case None => (None, content)
  }

  /** Question and body put back together with the separator give back the
      chapter. */
  lemma QuestionRoundTrip(question: string, body: string, file: string, skip: set<string>)
    requires question != [] && !IsSpace(question[0]) && !IsSpace(question[|question| - 1])
    requires BaseName(file) !in skip
    requires forall j :: 1 <= j < |question| ==> !OccursAt(question + Separator, Separator, j)
    ensures ExtractQuestion(question + Separator + body, file, skip) == (Some(question), body)
  {
    var content := question + Separator + body;
    SeparatorAfterQuestion(question, body);
    assert content[..|question|] == question;
    assert content[|question| + |Separator|..] == body;
    StripTrimmed(question);
  }

  /** The first separator after the first character of question + separator
      + body is the one after the question, when the question holds none. */
  lemma SeparatorAfterQuestion(question: string, body: string)
    requires question != []
    requires forall j :: 1 <= j < |question| ==> !OccursAt(question + Separator, Separator, j)
    ensures FindFrom(question + Separator + body, Separator, 1) == Some(|question|)
  {
    var content := question + Separator + body;
    assert content[|question|..|question| + |Separator|] == Separator;
    forall j | 1 <= j < |question| ensures !OccursAt(content, Separator, j) {
      assert !OccursAt(question + Separator, Separator, j);
      assert content[j..j + |Separator|] == (question + Separator)[j..j + |Separator|];
    }
    FindIs(content, Separator, 1, |question|);
  }

  /** The file name of the acknowledgments chapter. */
  const Acknowledgments: string := "acknowledgments.md"

  /** The PDF exporter gives acknowledgments.md a question page; the DOCX and
      EPUB exporters do not. */
  lemma AcknowledgmentsDiffer()
    ensures ExtractQuestion("Q" + Separator + "B", Acknowledgments, SkipQuestionFiles) == (None, "Q" + Separator + "B")
    ensures ExtractQuestion("Q" + Separator + "B", Acknowledgments, SkipQuestionFilesPdf) == (Some("Q"), "B")
  {
    AcknowledgmentsListed();
    QuestionRoundTrip("Q", "B", Acknowledgments, SkipQuestionFilesPdf);
  }

  /** acknowledgments.md is its own base name, on the DOCX and EPUB skip
      list and not on the PDF one. */
  /** Whatever its text, the DOCX exporter leaves acknowledgments.md whole,
      while the PDF exporter splits it exactly as it would a chapter with no
      skip list at all. */
  lemma AcknowledgmentsSkipped(content: string)
    ensures ExtractQuestion(content, Acknowledgments, SkipQuestionFiles) == (None, content)
    ensures ExtractQuestion(content, Acknowledgments, SkipQuestionFilesPdf) == ExtractQuestion(content, Acknowledgments, {})
  {
    AcknowledgmentsListed();
  }

  lemma AcknowledgmentsListed()
    ensures BaseName(Acknowledgments) == Acknowledgments
    ensures Acknowledgments in SkipQuestionFiles && Acknowledgments !in SkipQuestionFilesPdf
  {
    assert '/' !in Acknowledgments;
  }

}
