/** The rewrites the exporters apply to a chapter's HTML after markdown
    conversion. Each is a left-to-right substitution of one pattern
    (re.sub): the text is cut into the stretches between matches and the
    matches themselves, and only the matches are replaced.

    - fix_image_paths:  src="([^"]+)"  made absolute unless remote;
    - mark_epigraphs:   </h1> followed by a run of blockquotes, whose
                        <blockquote> tags get class="epigraph";
    - heading ids:      every <h2...> tag numbered, the first <h1...> tag
                        given the chapter id. */
module HtmlRewrite {
  import opened Text

  const SrcOpen: string := "src=\""
  const H1Close: string := "</h1>"
  const BlockOpen: string := "<blockquote>"
  const BlockClose: string := "</blockquote>"
  const EpigraphOpen: string := "<blockquote class=\"epigraph\">"

  // ---------------------------------------------------------------------
  // Matching at the head of a text
  // ---------------------------------------------------------------------

  /** Index just past the first c at or after i. */
  function PastChar(s: string, c: char, i: nat): (r: Option<nat>)
    requires i <= |s|
    ensures r.Some? ==> i < r.value <= |s|
    decreases |s| - i
  {
    if i == |s| then None
    else if s[i] == c then Some(i + 1)
    else PastChar(s, c, i + 1)
  }

  /** PastChar finds the first c: none before it, c at it. */
  lemma {:induction false} PastCharIs(s: string, c: char, i: nat, e: nat)
    requires i <= |s|
    ensures PastChar(s, c, i) == Some(e)
      <==> i < e <= |s| && s[e - 1] == c && forall j :: i <= j < e - 1 ==> s[j] != c
    decreases |s| - i
  {
    if i < |s| && s[i] != c {
      PastCharIs(s, c, i + 1, e);
    }
  }

  /** PastChar finds nothing exactly when no c follows i. */
  lemma {:induction false} PastCharNone(s: string, c: char, i: nat)
    requires i <= |s|
    ensures PastChar(s, c, i).None? <==> forall j :: i <= j < |s| ==> s[j] != c
    decreases |s| - i
  {
    if i < |s| && s[i] != c {
      PastCharNone(s, c, i + 1);
    }
  }

  /** src="([^"]+)" at the head of s: the value runs to the next double
      quote and must not be empty. */
  function SrcLen(s: string): (r: Option<nat>)
    ensures r.Some? ==> 7 <= r.value <= |s|
  {
    if |s| >= 5 && s[0] == 's' && s[1] == 'r' && s[2] == 'c' && s[3] == '=' && s[4] == '"' then
      match PastChar(s, '"', 5)
      case Some(e) => if e > 6 then Some(e) else None
      case None => None
    else None
  }

  /** The regex's own account of a match of src="([^"]+)" of length n. */
  ghost predicate SrcMatch(s: string, n: nat) {
    7 <= n <= |s| && s[..5] == SrcOpen && s[n - 1] == '"'
    && forall i :: 5 <= i < n - 1 ==> s[i] != '"'
  }

  /** SrcLen finds exactly the regex's match. */
  lemma SrcLenMatches(s: string, n: nat)
    ensures SrcLen(s) == Some(n) <==> SrcMatch(s, n)
  {
    if |s| >= 5 {
      PastCharIs(s, '"', 5, n);
    }
  }

  /** <hD[^>]*> at the head of s, for the level digit D: the tag runs to
      the next '>'. */
  function TagLen(s: string, level: char): (r: Option<nat>)
    ensures r.Some? ==> 4 <= r.value <= |s|
  {
    if |s| >= 3 && s[0] == '<' && s[1] == 'h' && s[2] == level then PastChar(s, '>', 3) else None
  }

  /** The regex's own account of a match of <hD[^>]*> of length n. */
  ghost predicate TagMatch(s: string, level: char, n: nat) {
    4 <= n <= |s| && s[..3] == ['<', 'h', level] && s[n - 1] == '>'
    && forall i :: 3 <= i < n - 1 ==> s[i] != '>'
  }

  lemma TagLenMatches(s: string, level: char, n: nat)
    ensures TagLen(s, level) == Some(n) <==> TagMatch(s, level, n)
  {
    if |s| >= 3 {
      PastCharIs(s, '>', 3, n);
      if s[..3] == ['<', 'h', level] {
        assert s[0] == s[..3][0] && s[1] == s[..3][1] && s[2] == s[..3][2];
      }
    }
  }

  /** One repetition of (?:<blockquote>\s*.*?</blockquote>\s*) starting at
      p: the lazy body ends at the first </blockquote>, the trailing
      whitespace is taken whole. */
  function BlockEnd(s: string, p: nat): (r: Option<nat>)
    ensures r.Some? ==> p + 25 <= r.value <= |s|
  {
    if OccursAt(s, BlockOpen, p) then
      match FindFrom(s, BlockClose, p + 12)
      case Some(c) => Some(c + 13 + SpaceRun(s[c + 13..]))
      case None => None
    else None
  }

  /** The greedy repetition: blocks are taken while one follows. */
  function RunEnd(s: string, p: nat): (e: nat)
    requires p <= |s|
    ensures p <= e <= |s|
    decreases |s| - p
  {
    match BlockEnd(s, p)
    case Some(e) => RunEnd(s, e)
    case None => p
  }

  /** (</h1>\s*)((?:<blockquote>\s*.*?</blockquote>\s*)+) at the head of s. */
  function EpigraphLen(s: string): (r: Option<nat>)
    ensures r.Some? ==> 30 <= r.value <= |s|
  {
    if OccursAt(s, H1Close, 0) then
      var p := 5 + SpaceRun(s[5..]);
      if BlockEnd(s, p).Some? then Some(RunEnd(s, p)) else None
    else None
  }

  /** The run a match takes ends where no further complete block starts. */
  lemma {:induction false} RunIsMaximal(s: string, p: nat)
    requires p <= |s|
    ensures BlockEnd(s, RunEnd(s, p)).None?
    decreases |s| - p
  {
    match BlockEnd(s, p)
    case Some(e) => RunIsMaximal(s, e);
    case None =>
  }

  /** <h2[^>]*> at the head of s. */
  function H2Len(s: string): (r: Option<nat>)
    ensures r.Some? ==> 4 <= r.value <= |s|
  {
    TagLen(s, '2')
  }

  /** <h1[^>]*> at the head of s. */
  function H1Len(s: string): (r: Option<nat>)
    ensures r.Some? ==> 4 <= r.value <= |s|
  {
    TagLen(s, '1')
  }

  /** m finds non-empty matches at the head of a text. */
  ghost predicate Sound(m: string -> Option<nat>) {
    forall t :: m(t).Some? ==> 1 <= m(t).value <= |t|
  }

  lemma SrcSound()
    ensures Sound(SrcLen)
  {
  }

  lemma H2Sound()
    ensures Sound(H2Len)
  {
  }

  lemma H1Sound()
    ensures Sound(H1Len)
  {
  }

  lemma EpigraphSound()
    ensures Sound(EpigraphLen)
  {
  }

  // ---------------------------------------------------------------------
  // Scanning: the stretches between matches and the matches
  // ---------------------------------------------------------------------

  /** A text cut by a pattern: plains[0] tokens[0] plains[1] ... tokens[m-1]
      plains[m]. */
  datatype Cut = Cut(plains: seq<string>, tokens: seq<string>)

  /** The cut re.finditer and re.sub make with the matcher m: a match is
      tried at every position from the left, and scanning resumes after
      each match. */
  function Scan(m: string -> Option<nat>, s: string): (c: Cut)
    requires Sound(m)
    ensures |c.plains| == |c.tokens| + 1
    decreases |s|
  {
    if s == [] then Cut([[]], [])
    else
      match m(s)
      case Some(n) =>
        var c := Scan(m, s[n..]);
        Cut([[]] + c.plains, [s[..n]] + c.tokens)
      case None =>
        var c := Scan(m, s[1..]);
        Cut([[s[0]] + c.plains[0]] + c.plains[1..], c.tokens)
  }

  /** Puts plains and tokens back together in turn. */
  function Interleave(plains: seq<string>, tokens: seq<string>): string
    requires |plains| == |tokens| + 1
  {
    if tokens == [] then plains[0] else plains[0] + tokens[0] + Interleave(plains[1..], tokens[1..])
  }

  lemma InterleaveCons(x: char, plains: seq<string>, tokens: seq<string>)
    requires |plains| == |tokens| + 1
    ensures Interleave([[x] + plains[0]] + plains[1..], tokens) == [x] + Interleave(plains, tokens)
  {
    var ps := [[x] + plains[0]] + plains[1..];
    assert ps[1..] == plains[1..];
  }

  lemma InterleaveMatch(plains: seq<string>, tokens: seq<string>)
    requires |plains| == |tokens| && tokens != []
    ensures Interleave([[]] + plains, tokens) == tokens[0] + Interleave(plains, tokens[1..])
  {
    var ps: seq<string> := [[]] + plains;
    assert ps[0] == [] && ps[1..] == plains;
    calc {
      Interleave(ps, tokens);
      ps[0] + tokens[0] + Interleave(ps[1..], tokens[1..]);
      { assert [] + tokens[0] == tokens[0]; }
      tokens[0] + Interleave(plains, tokens[1..]);
    }
  }

  /** The cut loses nothing: plains and matches together are the text. */
  lemma {:induction false} ScanJoin(m: string -> Option<nat>, s: string)
    requires Sound(m)
    ensures Interleave(Scan(m, s).plains, Scan(m, s).tokens) == s
    decreases |s|
  {
    if s != [] {
      match m(s)
      case Some(n) =>
        var c := Scan(m, s[n..]);
        ScanJoin(m, s[n..]);
        var ts := [s[..n]] + c.tokens;
        InterleaveMatch(c.plains, ts);
        assert ts[1..] == c.tokens;
        assert s[..n] + s[n..] == s;
      case None =>
        var c := Scan(m, s[1..]);
        ScanJoin(m, s[1..]);
        InterleaveCons(s[0], c.plains, c.tokens);
        assert [s[0]] + s[1..] == s;
    }
  }

  // ---------------------------------------------------------------------
  // Substitution
  // ---------------------------------------------------------------------

  /** re.sub(m, f, s): the k-th match (counting from 1) is replaced by
      f(match, k); k matches have been made before s. */
  function Rewrite(m: string -> Option<nat>, f: (string, nat) -> string, s: string, k: nat): string
    requires Sound(m)
    decreases |s|
  {
    if s == [] then []
    else
      match m(s)
      case Some(n) => f(s[..n], k + 1) + Rewrite(m, f, s[n..], k + 1)
      case None => [s[0]] + Rewrite(m, f, s[1..], k)
  }

  /** The replacements of a list of matches, numbered from k + 1. */
  function Replaced(f: (string, nat) -> string, tokens: seq<string>, k: nat): (r: seq<string>)
    ensures |r| == |tokens|
  {
    seq(|tokens|, j requires 0 <= j < |tokens| => f(tokens[j], k + j + 1))
  }

  lemma ReplacedCons(f: (string, nat) -> string, t: string, ts: seq<string>, k: nat)
    ensures var rs := Replaced(f, [t] + ts, k);
      rs[0] == f(t, k + 1) && rs[1..] == Replaced(f, ts, k + 1)
  {
    var rs := Replaced(f, [t] + ts, k);
    forall j | 0 <= j < |ts| ensures rs[1..][j] == Replaced(f, ts, k + 1)[j] {
      assert ([t] + ts)[j + 1] == ts[j];
    }
  }

  /** Replaced is pinned down by its elements. */
  lemma ReplacedIs(f: (string, nat) -> string, tokens: seq<string>, k: nat, want: seq<string>)
    requires |want| == |tokens|
    requires forall j :: 0 <= j < |tokens| ==> f(tokens[j], k + j + 1) == want[j]
    ensures Replaced(f, tokens, k) == want
  {
  }

  /** A substitution changes the matches and nothing else: the text between
      them is kept, and the j-th match is replaced as the (k + j + 1)-th. */
  lemma {:induction false} RewriteInterleave(m: string -> Option<nat>, f: (string, nat) -> string, s: string, k: nat)
    requires Sound(m)
    ensures var c := Scan(m, s);
      Rewrite(m, f, s, k) == Interleave(c.plains, Replaced(f, c.tokens, k))
    decreases |s|
  {
    if s != [] {
      match m(s)
      case Some(n) =>
        var c := Scan(m, s[n..]);
        RewriteInterleave(m, f, s[n..], k + 1);
        ReplacedCons(f, s[..n], c.tokens, k);
        InterleaveMatch(c.plains, Replaced(f, [s[..n]] + c.tokens, k));
      case None =>
        var c := Scan(m, s[1..]);
        RewriteInterleave(m, f, s[1..], k);
        InterleaveCons(s[0], c.plains, Replaced(f, c.tokens, k));
    }
  }

  /** One step of a left-to-right substitution: a match at i. */
  lemma RewriteMatchStep(m: string -> Option<nat>, f: (string, nat) -> string, s: string, i: nat, n: nat, k: nat, done: string, total: string)
    requires Sound(m) && i < |s| && m(s[i..]) == Some(n)
    requires done + Rewrite(m, f, s[i..], k) == total
    ensures 0 < n && i + n <= |s|
    ensures (done + f(s[i..][..n], k + 1)) + Rewrite(m, f, s[i + n..], k + 1) == total
  {
    assert s[i..][n..] == s[i + n..];
  }

  /** One step of a left-to-right substitution: no match at i. */
  lemma RewriteSkipStep(m: string -> Option<nat>, f: (string, nat) -> string, s: string, i: nat, k: nat, done: string, total: string)
    requires Sound(m) && i < |s| && m(s[i..]).None?
    requires done + Rewrite(m, f, s[i..], k) == total
    ensures (done + [s[i]]) + Rewrite(m, f, s[i + 1..], k) == total
  {
    assert s[i..][1..] == s[i + 1..];
  }

  /** re.sub driving a callback that counts its calls: the scan tries a
      match at each position and resumes after every match, handing the
      callback the match and the number of calls so far. */
  method SubstituteCounting(m: string -> Option<nat>, f: (string, nat) -> string, s: string) returns (r: string)
    requires Sound(m)
    ensures r == Rewrite(m, f, s, 0)
  {
    var count := 0;
    var i := 0;
    r := [];
    ghost var total := Rewrite(m, f, s, 0);
    assert s[i..] == s;
    while i < |s|
      invariant i <= |s|
      invariant r + Rewrite(m, f, s[i..], count) == total
      decreases |s| - i
    {
      match m(s[i..])
      case Some(n) =>
        RewriteMatchStep(m, f, s, i, n, count, r, total);
        count := count + 1;
        r := r + f(s[i..][..n], count);
        i := i + n;
        assert r + Rewrite(m, f, s[i..], count) == total;
      case None =>
        RewriteSkipStep(m, f, s, i, count, r, total);
        r := r + [s[i]];
        i := i + 1;
        assert r + Rewrite(m, f, s[i..], count) == total;
    }
    assert s[i..] == [];
  }

  /** str.replace as a substitution: the literal matcher of target and the
      callback that always answers repl. */
  function LiteralLen(target: string): string -> Option<nat> {
    (x: string) => if |target| > 0 && StartsWith(x, target) then Some(|target|) else None
  }

  function Constant(repl: string): (string, nat) -> string {
    (x: string, k: nat) => repl
  }

  lemma LiteralSound(target: string)
    ensures Sound(LiteralLen(target))
  {
  }

  /** str.replace is re.sub with the literal pattern. */
  lemma {:induction false} ReplaceAllIsRewrite(s: string, target: string, repl: string, k: nat)
    requires |target| > 0
    ensures Sound(LiteralLen(target))
    ensures ReplaceAll(s, target, repl) == Rewrite(LiteralLen(target), Constant(repl), s, k)
    decreases |s|
  {
    LiteralSound(target);
    if s != [] {
      if StartsWith(s, target) {
        ReplaceAllIsRewrite(s[|target|..], target, repl, k + 1);
        assert s[..|target|] == target;
      } else {
        ReplaceAllIsRewrite(s[1..], target, repl, k);
      }
    }
  }

  /** Every piece the literal matcher cuts out is the target itself. */
  lemma {:induction false} LiteralTokens(s: string, target: string)
    requires |target| > 0
    ensures Sound(LiteralLen(target))
    ensures forall j :: 0 <= j < |Scan(LiteralLen(target), s).tokens| ==> Scan(LiteralLen(target), s).tokens[j] == target
    decreases |s|
  {
    LiteralSound(target);
    if s != [] {
      if StartsWith(s, target) {
        LiteralTokens(s[|target|..], target);
      } else {
        LiteralTokens(s[1..], target);
      }
    }
  }

  /** str.replace(target, repl) cuts the text at the left-to-right,
      non-overlapping occurrences of target, keeps the text between them and
      puts repl in place of each. */
  lemma ReplaceAllPieces(s: string, target: string, repl: string)
    requires |target| > 0
    ensures Sound(LiteralLen(target))
    ensures var c := Scan(LiteralLen(target), s);
      && (forall j :: 0 <= j < |c.tokens| ==> c.tokens[j] == target)
      && Interleave(c.plains, c.tokens) == s
      && ReplaceAll(s, target, repl) == Interleave(c.plains, seq(|c.tokens|, j => repl))
  {
    LiteralSound(target);
    var c := Scan(LiteralLen(target), s);
    LiteralTokens(s, target);
    ScanJoin(LiteralLen(target), s);
    ReplaceAllIsRewrite(s, target, repl, 0);
    RewriteInterleave(LiteralLen(target), Constant(repl), s, 0);
    ReplacedIs(Constant(repl), c.tokens, 0, seq(|c.tokens|, j => repl));
  }

  // ---------------------------------------------------------------------
  // The replacements
  // ---------------------------------------------------------------------

  /** The value of a src="..." match. */
  function SrcValue(token: string): string
    requires |token| >= 6
  {
    token[5..|token| - 1]
  }

  /** The prefixes fix_image_paths leaves alone. */
  predicate IsRemoteOrFile(src: string) {
    StartsWith(src, "http://") || StartsWith(src, "https://") || StartsWith(src, "file://")
  }

  /** replace_src: a local value becomes the file:// URI of its absolute
      path (resolve stands for os.path.abspath(os.path.join(base_dir, src))). */
  function AbsoluteToken(token: string, resolve: string -> string): string {
    if |token| >= 6 && !IsRemoteOrFile(SrcValue(token)) then
      SrcOpen + "file://" + resolve(SrcValue(token)) + "\""
    else token
  }

  /** The id the k-th <h2> of chapter cid receives. */
  function H2Id(cid: string, k: nat): string {
    cid + "-h2-" + Digits(k)
  }

  /** The id tag of the k-th <h2> of chapter cid. */
  function H2IdTag(cid: string, k: nat): string {
    "<h2 id=\"" + H2Id(cid, k) + "\">"
  }

  /** The id tag of a chapter's first <h1>. */
  function H1IdTag(cid: string): string {
    "<h1 id=\"" + cid + "\">"
  }

  /** Where the blockquote run of an epigraph match begins: after </h1> and
      the whitespace that follows it. */
  function RunStart(token: string): (p: nat)
    ensures p <= |token|
  {
    if |token| < 5 then |token| else 5 + SpaceRun(token[5..])
  }

  /** The epigraph replacement: group 1 unchanged, every <blockquote> of
      group 2 given the epigraph class. */
  function MarkRun(token: string): string {
    var p := RunStart(token);
    token[..p] + ReplaceAll(token[p..], BlockOpen, EpigraphOpen)
  }

  /** The replacement callbacks, as functions of the match and its number. */
  function AbsoluteSrc(resolve: string -> string): (string, nat) -> string {
    (t: string, k: nat) => AbsoluteToken(t, resolve)
  }

  function H2Ids(cid: string): (string, nat) -> string {
    (t: string, k: nat) => H2IdTag(cid, k)
  }

  /** count=1: only the first match is replaced. */
  lemma H2IdsApply(cid: string, t: string, k: nat)
    ensures H2Ids(cid)(t, k) == H2IdTag(cid, k)
  {
  }

  function FirstH1Id(cid: string): (string, nat) -> string {
    (t: string, k: nat) => if k == 1 then H1IdTag(cid) else t
  }

  function Epigraphs(): (string, nat) -> string {
    (t: string, k: nat) => MarkRun(t)
  }

  /** A matcher whose matches are all at least min long cuts the text into
      matches at least min long. */
  lemma {:induction false} ScanTokensAtLeast(m: string -> Option<nat>, min: nat, s: string)
    requires Sound(m)
    requires forall t :: m(t).Some? ==> min <= m(t).value
    ensures forall j :: 0 <= j < |Scan(m, s).tokens| ==> min <= |Scan(m, s).tokens[j]|
    decreases |s|
  {
    if s != [] {
      match m(s)
      case Some(n) => ScanTokensAtLeast(m, min, s[n..]);
      case None => ScanTokensAtLeast(m, min, s[1..]);
    }
  }

  // ---------------------------------------------------------------------
  // fix_image_paths
  // ---------------------------------------------------------------------

  /** fix_image_paths: every local src value becomes a file:// URI of its
      absolute path. */
  function FixImagePaths(html: string, resolve: string -> string): string {
    Fix(html, resolve, 0)
  }

  /** The src="..." matches of a text and the text between them. */
  function SrcCut(html: string): (c: Cut)
    ensures |c.plains| == |c.tokens| + 1
    ensures forall j :: 0 <= j < |c.tokens| ==> |c.tokens[j]| >= 7
  {
    SrcSound();
    ScanTokensAtLeast(SrcLen, 7, html);
    Scan(SrcLen, html)
  }

  /** re.sub(r'src="([^"]+)"', replace_src, t) after k earlier matches. */
  function Fix(t: string, resolve: string -> string, k: nat): string {
    SrcSound();
    Rewrite(SrcLen, AbsoluteSrc(resolve), t, k)
  }

  /** The src tokens after fix_image_paths. */
  function FixedTokens(tokens: seq<string>, resolve: string -> string): (r: seq<string>)
    ensures |r| == |tokens|
  {
    seq(|tokens|, j requires 0 <= j < |tokens| => AbsoluteToken(tokens[j], resolve))
  }

  /** fix_image_paths changes the src="..." matches and nothing else. */
  lemma FixPieces(html: string, resolve: string -> string)
    ensures var c := SrcCut(html);
      FixImagePaths(html, resolve) == Interleave(c.plains, FixedTokens(c.tokens, resolve))
  {
    var c := SrcCut(html);
    SrcSound();
    RewriteInterleave(SrcLen, AbsoluteSrc(resolve), html, 0);
    var rs := Replaced(AbsoluteSrc(resolve), c.tokens, 0);
    forall j | 0 <= j < |c.tokens| ensures rs[j] == FixedTokens(c.tokens, resolve)[j] {
    }
    assert rs == FixedTokens(c.tokens, resolve);
  }

  /** HTML whose every src value is remote (or already a file:// URI) comes
      back unchanged. */
  lemma FixKeepsRemote(html: string, resolve: string -> string)
    requires var c := SrcCut(html);
      forall j :: 0 <= j < |c.tokens| ==> IsRemoteOrFile(SrcValue(c.tokens[j]))
    ensures FixImagePaths(html, resolve) == html
  {
    var c := SrcCut(html);
    FixPieces(html, resolve);
    assert FixedTokens(c.tokens, resolve) == c.tokens;
    SrcSound();
    ScanJoin(SrcLen, html);
  }

  /** A local src value is replaced by the file:// URI of its absolute path. */
  lemma FixMakesLocalAbsolute(html: string, resolve: string -> string, j: nat)
    requires var c := SrcCut(html);
      j < |c.tokens| && !IsRemoteOrFile(SrcValue(c.tokens[j]))
    ensures var c := SrcCut(html);
      FixImagePaths(html, resolve) == Interleave(c.plains, FixedTokens(c.tokens, resolve))
      && FixedTokens(c.tokens, resolve)[j] == "src=\"file://" + resolve(SrcValue(c.tokens[j])) + "\""
  {
    FixPieces(html, resolve);
  }

  /** No match starts before n, so the rewrite keeps the first n + 5
      characters (a match itself begins with its unchanged src=" ). */
  lemma {:induction false} FixKeepsHead(t: string, resolve: string -> string, k: nat, n: nat)
    requires n <= |t|
    requires forall j :: 0 <= j && j + 5 < n ==> SrcLen(t[j..]).None?
    ensures n <= |Fix(t, resolve, k)|
    ensures Fix(t, resolve, k)[..n] == t[..n]
    decreases |t|
  {
    if t != [] {
      match SrcLen(t)
      case Some(m) =>
        assert t[0..] == t;
        FixHeadAtMatch(t, resolve, k, n, m);
      case None =>
        if n > 0 {
          forall j | 0 <= j && j + 5 < n - 1 ensures SrcLen(t[1..][j..]).None? {
            assert t[1..][j..] == t[j + 1..];
          }
          FixKeepsHead(t[1..], resolve, k, n - 1);
          FixHeadSkip(t, resolve, k, n);
        }
    }
  }

  /** A match at the very start keeps its src=" opening. */
  lemma FixHeadAtMatch(t: string, resolve: string -> string, k: nat, n: nat, m: nat)
    requires n <= 5 && n <= |t| && SrcLen(t) == Some(m)
    ensures n <= |Fix(t, resolve, k)|
    ensures Fix(t, resolve, k)[..n] == t[..n]
  {
    SrcSound();
    SrcMatchOpens(t);
    var token := t[..m];
    assert token[..5] == t[..5];
    TokenKeepsOpen(token, resolve);
    var rep := AbsoluteToken(token, resolve);
    var rest := Fix(t[m..], resolve, k + 1);
    assert Fix(t, resolve, k) == rep + rest;
    SharedHead(t, rep, rest, n);
  }

  /** Texts that agree on their first five characters agree on any shorter
      head. */
  lemma SharedHead(t: string, rep: string, rest: string, n: nat)
    requires n <= 5 <= |t| && 5 <= |rep| && rep[..5] == t[..5]
    ensures n <= |rep + rest| && (rep + rest)[..n] == t[..n]
  {
    assert (rep + rest)[..n] == rep[..5][..n];
    assert t[..n] == t[..5][..n];
  }

  /** A src match begins with src=" . */
  lemma SrcMatchOpens(s: string)
    requires SrcLen(s).Some?
    ensures |s| >= 5 && s[..5] == SrcOpen
  {
  }

  /** fix_image_paths' replacement keeps the src=" opening of a match. */
  lemma TokenKeepsOpen(token: string, resolve: string -> string)
    requires |token| >= 5 && token[..5] == SrcOpen
    ensures |AbsoluteToken(token, resolve)| >= 5 && AbsoluteToken(token, resolve)[..5] == SrcOpen
  {
  }

  /** No match at the start: the first character stays and the rest is
      rewritten. */
  lemma FixHeadSkip(t: string, resolve: string -> string, k: nat, n: nat)
    requires 0 < n <= |t| && SrcLen(t).None?
    requires n - 1 <= |Fix(t[1..], resolve, k)| && Fix(t[1..], resolve, k)[..n - 1] == t[1..][..n - 1]
    ensures n <= |Fix(t, resolve, k)|
    ensures Fix(t, resolve, k)[..n] == t[..n]
  {
    SrcSound();
    var rest := Fix(t[1..], resolve, k);
    assert Fix(t, resolve, k) == [t[0]] + rest;
    ConsHead(t, rest, n);
  }

  /** Putting back the first character extends an agreeing head by one. */
  lemma ConsHead(t: string, rest: string, n: nat)
    requires 0 < n <= |t| && n - 1 <= |rest| && rest[..n - 1] == t[1..][..n - 1]
    ensures n <= |[t[0]] + rest| && ([t[0]] + rest)[..n] == t[..n]
  {
    assert t[..n] == [t[0]] + t[1..][..n - 1];
    assert ([t[0]] + rest)[..n] == [t[0]] + rest[..n - 1];
  }

  /** A text in which no match starts is its own rewrite. */
  lemma {:induction false} FixNoMatch(t: string, resolve: string -> string, k: nat)
    requires forall j :: 0 <= j <= |t| ==> SrcLen(t[j..]).None?
    ensures Fix(t, resolve, k) == t
    decreases |t|
  {
    if t != [] {
      assert t[0..] == t;
      forall j | 0 <= j <= |t| - 1 ensures SrcLen(t[1..][j..]).None? {
        assert t[1..][j..] == t[j + 1..];
      }
      FixNoMatch(t[1..], resolve, k);
      assert [t[0]] + t[1..] == t;
    }
  }

  /** The replacement of a match is itself a match whose value is a file://
      URI or remote, so a second pass keeps it. */
  lemma FixedTokenIsStable(token: string, rest: string, resolve: string -> string)
    requires SrcLen(token + rest) == Some(|token|)
    requires forall v :: '"' !in resolve(v)
    ensures var rep := AbsoluteToken(token, resolve);
      SrcLen(rep + rest) == Some(|rep|) && AbsoluteToken(rep, resolve) == rep
  {
    var s := token + rest;
    var n := |token|;
    SrcLenMatches(s, n);
    assert token == s[..n];
    var src := SrcValue(token);
    var rep := AbsoluteToken(token, resolve);
    var t := rep + rest;
    if IsRemoteOrFile(src) {
      assert rep == token;
      assert SrcMatch(t, |rep|) by {
        assert t[..|rep|] == s[..n];
      }
    } else {
      var path := resolve(src);
      assert rep == SrcOpen + "file://" + path + "\"";
      assert '"' !in path;
      assert SrcMatch(t, |rep|) by {
        forall i | 5 <= i < |rep| - 1 ensures t[i] != '"' {
          if i < 12 {
            assert t[i] == "file://"[i - 5];
          } else {
            assert t[i] == path[i - 12];
          }
        }
      }
      assert SrcValue(rep) == "file://" + path;
      assert StartsWith(SrcValue(rep), "file://");
    }
    SrcLenMatches(t, |rep|);
  }

  /** Where no match starts at the head, none starts at the head of the
      rewritten text either. */
  lemma FixNoNewMatch(s: string, resolve: string -> string, k: nat)
    requires s != [] && SrcLen(s).None?
    ensures SrcLen([s[0]] + Fix(s[1..], resolve, k)).None?
  {
    var t := s[1..];
    var x := [s[0]] + Fix(t, resolve, k);
    if |s| < 6 {
      FixNoMatch(t, resolve, k);
      assert x == s;
    } else if !StartsWith(s, SrcOpen) {
      FixKeepsHead(t, resolve, k, 4);
      assert x[..5] == s[..5];
    } else if s[5] == '"' {
      FixKeepsHead(t, resolve, k, 5);
      assert x[..6] == s[..6];
    } else {
      // no closing quote at all: nothing after the head can match
      PastCharNone(s, '"', 5);
      forall j | 0 <= j <= |t| ensures SrcLen(t[j..]).None? {
        forall e: nat ensures SrcLen(t[j..]) != Some(e) {
          SrcLenMatches(t[j..], e);
          if 7 <= e <= |t[j..]| {
            assert t[j..][e - 1] == s[j + e];
          }
        }
      }
      FixNoMatch(t, resolve, k);
      assert x == s;
    }
  }

  /** fix_image_paths is idempotent, provided absolute paths contain no
      double quote. */
  lemma {:induction false} FixIdempotent(s: string, resolve: string -> string, k: nat, k': nat)
    requires forall v :: '"' !in resolve(v)
    ensures Fix(Fix(s, resolve, k), resolve, k') == Fix(s, resolve, k)
    decreases |s|
  {
    if s != [] {
      match SrcLen(s)
      case Some(n) =>
        var token := s[..n];
        var rest := Fix(s[n..], resolve, k + 1);
        assert s == token + s[n..];
        SrcLenMatches(s, n);
        SrcLenMatches(token + rest, n);
        FixedTokenIsStable(token, rest, resolve);
        var rep := AbsoluteToken(token, resolve);
        var t := rep + rest;
        assert t[..|rep|] == rep && t[|rep|..] == rest;
        FixIdempotent(s[n..], resolve, k + 1, k' + 1);
      case None =>
        var rest := Fix(s[1..], resolve, k);
        FixNoNewMatch(s, resolve, k);
        var x := [s[0]] + rest;
        assert x[1..] == rest;
        FixIdempotent(s[1..], resolve, k, k');
    }
  }

  /** Applying fix_image_paths twice is applying it once. */
  lemma FixImagePathsIdempotent(html: string, resolve: string -> string)
    requires forall v :: '"' !in resolve(v)
    ensures FixImagePaths(FixImagePaths(html, resolve), resolve) == FixImagePaths(html, resolve)
  {
    FixIdempotent(html, resolve, 0, 0);
  }

  // ---------------------------------------------------------------------
  // mark_epigraphs
  // ---------------------------------------------------------------------

  /** mark_epigraphs. */
  function MarkEpigraphs(html: string): string {
    EpigraphSound();
    Rewrite(EpigraphLen, Epigraphs(), html, 0)
  }

  /** The epigraph runs of a text and the text between them. */
  function RunCut(html: string): (c: Cut)
    ensures |c.plains| == |c.tokens| + 1
  {
    EpigraphSound();
    Scan(EpigraphLen, html)
  }

  /** The epigraph runs once marked. */
  function MarkedRuns(tokens: seq<string>): (r: seq<string>)
    ensures |r| == |tokens|
  {
    seq(|tokens|, j requires 0 <= j < |tokens| => MarkRun(tokens[j]))
  }

  /** Only the runs after </h1> change, each as MarkRun says. */
  lemma MarkEpigraphsPieces(html: string)
    ensures var c := RunCut(html);
      MarkEpigraphs(html) == Interleave(c.plains, MarkedRuns(c.tokens))
  {
    var c := RunCut(html);
    EpigraphSound();
    RewriteInterleave(EpigraphLen, Epigraphs(), html, 0);
    var rs := Replaced(Epigraphs(), c.tokens, 0);
    forall j | 0 <= j < |c.tokens| ensures rs[j] == MarkedRuns(c.tokens)[j] {
    }
    assert rs == MarkedRuns(c.tokens);
  }

  /** A marked run does not match again: after </h1> and its whitespace it
      begins with a marked tag, which is not <blockquote>. */
  lemma MarkedRunNotRematched(s: string, n: nat)
    requires EpigraphLen(s) == Some(n)
    ensures EpigraphLen(MarkRun(s[..n]) + s[n..]).None?
  {
    RunHead(s, n);
    MarkedHeadNoRun(s[..n], s[n..]);
  }

  lemma MarkedHeadNoRun(token: string, rest: string)
    requires var p := RunStart(token);
      5 <= p && p + 12 <= |token| && StartsWith(token[p..], BlockOpen)
      && token[..5] == H1Close && (forall i :: 5 <= i < p ==> IsSpace(token[i]))
    ensures EpigraphLen(MarkRun(token) + rest).None?
  {
    var p := RunStart(token);
    var g := token[p..];
    var y := ReplaceAll(g, BlockOpen, EpigraphOpen);
    assert y == EpigraphOpen + ReplaceAll(g[12..], BlockOpen, EpigraphOpen);
    assert y[0] == '<' && y[11] == ' ';
    var x := MarkRun(token) + rest;
    assert x == token[..p] + y + rest;
    assert x[..p] == token[..p] && x[p] == y[0] && x[p + 11] == y[11];
    forall i | 0 <= i < p - 5 ensures IsSpace(x[5..][i]) {
      assert x[5..][i] == token[i + 5];
    }
    SpaceRunIs(x[5..], p - 5);
    assert x[p..p + 12][11] == x[p + 11];
    assert x[..5] == token[..5];
    NoRunWithoutOpen(x);
  }

  /** In a matched run, the blockquotes begin where the whitespace after
      </h1> ends. */
  lemma RunHead(s: string, n: nat)
    requires EpigraphLen(s) == Some(n)
    ensures var token := s[..n]; var p := RunStart(token);
      5 <= p && p + 12 <= n && StartsWith(token[p..], BlockOpen)
      && token[..5] == H1Close && (forall i :: 5 <= i < p ==> IsSpace(token[i]))
  {
    var token := s[..n];
    var q := 5 + SpaceRun(s[5..]);
    assert OccursAt(s, BlockOpen, q);
    assert q + 12 <= n;
    SpaceRunIs(token[5..], q - 5);
    assert RunStart(token) == q;
    OccursInHead(s, n, BlockOpen, q);
    OccursInHead(s, n, H1Close, 0);
    forall i | 5 <= i < q ensures IsSpace(token[i]) {
      assert token[i] == s[5..][i - 5];
    }
  }

  /** An occurrence inside the first n characters is one in the head too. */
  lemma OccursInHead(s: string, n: nat, pat: string, q: nat)
    requires n <= |s| && q + |pat| <= n && OccursAt(s, pat, q)
    ensures StartsWith(s[..n][q..], pat) && s[..n][q..q + |pat|] == pat
  {
    assert s[..n][q..][..|pat|] == s[q..q + |pat|];
    assert s[..n][q..q + |pat|] == s[q..q + |pat|];
  }

  /** No epigraph run starts where no <blockquote> follows </h1> and its
      whitespace. */
  lemma NoRunWithoutOpen(s: string)
    requires |s| >= 5 && !OccursAt(s, BlockOpen, 5 + SpaceRun(s[5..]))
    ensures EpigraphLen(s).None?
  {
  }

  /** A chapter without </h1> is left as it is. */
  lemma MarkWithoutH1(html: string)
    requires forall i :: 0 <= i ==> !OccursAt(html, H1Close, i)
    ensures MarkEpigraphs(html) == html
  {
    var c := RunCut(html);
    NoH1NoRun(html);
    MarkEpigraphsPieces(html);
    EpigraphSound();
    ScanJoin(EpigraphLen, html);
  }

  lemma {:induction false} NoH1NoRun(s: string)
    requires forall i :: 0 <= i ==> !OccursAt(s, H1Close, i)
    ensures RunCut(s).tokens == []
    decreases |s|
  {
    if s != [] {
      assert !OccursAt(s, H1Close, 0);
      forall i | 0 <= i ensures !OccursAt(s[1..], H1Close, i) {
        assert !OccursAt(s, H1Close, i + 1);
        if i + 5 <= |s[1..]| {
          assert s[1..][i..i + 5] == s[i + 1..i + 6];
        }
      }
      NoH1NoRun(s[1..]);
    }
  }

  /** Taking the class back out of the marked tags gives the text back:
      marking changes nothing but the <blockquote> tags. */
  lemma {:induction false} UnmarkMark(g: string)
    requires forall i :: 0 <= i ==> !OccursAt(g, EpigraphOpen, i)
    ensures ReplaceAll(ReplaceAll(g, BlockOpen, EpigraphOpen), EpigraphOpen, BlockOpen) == g
    decreases |g|
  {
    if g != [] {
      var m := ReplaceAll(g, BlockOpen, EpigraphOpen);
      if StartsWith(g, BlockOpen) {
        var t := g[12..];
        NoOccurrenceSuffix(g, EpigraphOpen, 12);
        UnmarkMark(t);
        var x := ReplaceAll(t, BlockOpen, EpigraphOpen);
        assert m == EpigraphOpen + x;
        assert StartsWith(m, EpigraphOpen);
        assert m[|EpigraphOpen|..] == x;
        assert BlockOpen + t == g;
      } else {
        var t := g[1..];
        NoOccurrenceSuffix(g, EpigraphOpen, 1);
        UnmarkMark(t);
        var x := ReplaceAll(t, BlockOpen, EpigraphOpen);
        assert m == [g[0]] + x;
        MarkedHeadNotMarker(g);
        assert m[1..] == x;
        assert [g[0]] + t == g;
      }
    }
  }

  lemma NoOccurrenceSuffix(g: string, pat: string, d: nat)
    requires d <= |g|
    requires forall i :: 0 <= i ==> !OccursAt(g, pat, i)
    ensures forall i :: 0 <= i ==> !OccursAt(g[d..], pat, i)
  {
    forall i | 0 <= i ensures !OccursAt(g[d..], pat, i) {
      assert !OccursAt(g, pat, i + d);
      if i + |pat| <= |g[d..]| {
        assert g[d..][i..i + |pat|] == g[i + d..i + d + |pat|];
      }
    }
  }

  /** Up to its first '<', a marked text is the text itself: marking only
      ever writes a tag that begins with '<'. */
  lemma {:induction false} MarkKeepsLtFree(t: string, n: nat)
    requires n <= |ReplaceAll(t, BlockOpen, EpigraphOpen)|
    requires forall i :: 0 <= i < n ==> ReplaceAll(t, BlockOpen, EpigraphOpen)[i] != '<'
    ensures n <= |t| && ReplaceAll(t, BlockOpen, EpigraphOpen)[..n] == t[..n]
    decreases |t|
  {
    if n > 0 {
      var r := ReplaceAll(t, BlockOpen, EpigraphOpen);
      assert r[0] != '<';
      assert !StartsWith(t, BlockOpen);
      var x := ReplaceAll(t[1..], BlockOpen, EpigraphOpen);
      assert r == [t[0]] + x;
      assert forall i :: 0 <= i < n - 1 ==> x[i] == r[i + 1];
      MarkKeepsLtFree(t[1..], n - 1);
      assert r[..n] == [t[0]] + x[..n - 1];
      assert t[..n] == [t[0]] + t[1..][..n - 1];
    }
  }

  /** A marked text can begin with a marked tag only if the text did,
      when the text does not begin with <blockquote>. */
  lemma MarkedHeadWasMarker(g: string)
    requires g != [] && !StartsWith(g, BlockOpen)
    requires StartsWith(ReplaceAll(g, BlockOpen, EpigraphOpen), EpigraphOpen)
    ensures OccursAt(g, EpigraphOpen, 0)
  {
    var m := ReplaceAll(g, BlockOpen, EpigraphOpen);
    var t := g[1..];
    var x := ReplaceAll(t, BlockOpen, EpigraphOpen);
    assert m == [g[0]] + x;
    forall i | 0 <= i < 28 ensures x[i] != '<' {
      assert x[i] == m[i + 1] == EpigraphOpen[i + 1];
    }
    MarkKeepsLtFree(t, 28);
    assert g[..29] == [g[0]] + t[..28];
    assert m[..29] == [g[0]] + x[..28];
  }

  /** A text that does not begin with <blockquote> and has no marked tag
      does not begin with a marked tag once marked. */
  lemma MarkedHeadNotMarker(g: string)
    requires g != [] && !StartsWith(g, BlockOpen)
    requires forall i :: 0 <= i ==> !OccursAt(g, EpigraphOpen, i)
    ensures !StartsWith(ReplaceAll(g, BlockOpen, EpigraphOpen), EpigraphOpen)
  {
    if StartsWith(ReplaceAll(g, BlockOpen, EpigraphOpen), EpigraphOpen) {
      MarkedHeadWasMarker(g);
    }
  }

  /** The text of an epigraph run outside the tags it marks is unchanged. */
  lemma MarkRunOnlyAddsClass(token: string)
    requires forall i :: 0 <= i ==> !OccursAt(token, EpigraphOpen, i)
    ensures var p := RunStart(token);
      MarkRun(token)[..p] == token[..p]
      && ReplaceAll(MarkRun(token)[p..], EpigraphOpen, BlockOpen) == token[p..]
  {
    var p := RunStart(token);
    NoOccurrenceSuffix(token, EpigraphOpen, p);
    UnmarkMark(token[p..]);
    var m := MarkRun(token);
    assert m[..p] == token[..p];
    assert m[p..] == ReplaceAll(token[p..], BlockOpen, EpigraphOpen);
  }

  // ---------------------------------------------------------------------
  // Heading ids (build_html and the EPUB main loop)
  // ---------------------------------------------------------------------

  /** The numbered <h2> ids of one chapter, 1 to m. */
  function H2IdTags(cid: string, m: nat): (r: seq<string>)
    ensures |r| == m
  {
    seq(m, j requires 0 <= j < m => H2IdTag(cid, j + 1))
  }

  /** The <h2...> tags of a text and the text between them. */
  function H2Cut(html: string): (c: Cut)
    ensures |c.plains| == |c.tokens| + 1
  {
    H2Sound();
    Scan(H2Len, html)
  }

  /** re.sub(r'<h2[^>]*>', replace_h2_tag, html): the callback's counter
      cell numbers the tags in order. */
  method NumberH2Tags(html: string, cid: string) returns (r: string)
    ensures var c := H2Cut(html);
      r == Interleave(c.plains, H2IdTags(cid, |c.tokens|))
  {
    H2Sound();
    r := SubstituteCounting(H2Len, H2Ids(cid), html);
    NumberedH2Pieces(html, cid);
  }

  /** The counting callback numbers the <h2> tags 1, 2, ... in order. */
  lemma NumberedH2Pieces(html: string, cid: string)
    ensures Sound(H2Len)
    ensures var c := H2Cut(html);
      Rewrite(H2Len, H2Ids(cid), html, 0) == Interleave(c.plains, H2IdTags(cid, |c.tokens|))
  {
    H2Sound();
    RewriteInterleave(H2Len, H2Ids(cid), html, 0);
    H2IdsReplaced(cid, H2Cut(html).tokens);
  }

  lemma H2IdsReplaced(cid: string, tokens: seq<string>)
    ensures Replaced(H2Ids(cid), tokens, 0) == H2IdTags(cid, |tokens|)
  {
    forall j | 0 <= j < |tokens| ensures H2Ids(cid)(tokens[j], j + 1) == H2IdTags(cid, |tokens|)[j] {
      H2IdsApply(cid, tokens[j], j + 1);
    }
    ReplacedIs(H2Ids(cid), tokens, 0, H2IdTags(cid, |tokens|));
  }

  /** re.sub(r'<h1[^>]*>', f'<h1 id="{chapter_id}">', html, count=1). */
  function SetFirstH1Id(html: string, cid: string): string {
    H1Sound();
    Rewrite(H1Len, FirstH1Id(cid), html, 0)
  }

  /** The <h1...> tags of a text and the text between them. */
  function H1Cut(html: string): (c: Cut)
    ensures |c.plains| == |c.tokens| + 1
  {
    H1Sound();
    Scan(H1Len, html)
  }

  /** Only the first <h1...> tag changes; a chapter without one is kept. */
  lemma FirstH1IdOnly(html: string, cid: string)
    ensures var c := H1Cut(html);
      && (c.tokens == [] ==> SetFirstH1Id(html, cid) == html)
      && (c.tokens != [] ==> SetFirstH1Id(html, cid) == Interleave(c.plains, [H1IdTag(cid)] + c.tokens[1..]))
  {
    var c := H1Cut(html);
    H1Sound();
    RewriteInterleave(H1Len, FirstH1Id(cid), html, 0);
    FirstIdReplaced(cid, c.tokens);
    if c.tokens == [] {
      ScanJoin(H1Len, html);
    }
  }

  /** The callback of set_first_h1_id rewrites the first match only. */
  lemma FirstIdReplaced(cid: string, tokens: seq<string>)
    ensures tokens == [] ==> Replaced(FirstH1Id(cid), tokens, 0) == []
    ensures tokens != [] ==> Replaced(FirstH1Id(cid), tokens, 0) == [H1IdTag(cid)] + tokens[1..]
  {
    var rs := Replaced(FirstH1Id(cid), tokens, 0);
    if tokens != [] {
      var want := [H1IdTag(cid)] + tokens[1..];
      forall j | 0 <= j < |tokens| ensures rs[j] == want[j] {
      }
      assert rs == want;
    }
  }
}
