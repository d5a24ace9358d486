/** The EPUB exporter's image bookkeeping: collect_images picks the local,
    existing image sources of one chapter, and the main loop registers
    them book-wide under images/<basename> (the first file registered under
    a name wins) and points the chapter's src attributes at those names.
    The file system is an oracle: resolve gives the absolute path of a
    source relative to the chapter's directory, onDisk says whether a file
    is there. */
module Images {
  import opened Text
  import opened HtmlRewrite

  /** What collect_images records for one source. */
  datatype ImageInfo = ImageInfo(absPath: string, fileName: string)

  /** The sources collect_images skips without looking at the disk (unlike
      fix_image_paths, file:// is not among them). */
  predicate IsRemote(src: string) {
    StartsWith(src, "http://") || StartsWith(src, "https://")
  }

  /** The values of the src="..." attributes of a text, in order. */
  function SrcValues(html: string): (r: seq<string>)
    ensures |r| == |SrcCut(html).tokens|
  {
    var tokens := SrcCut(html).tokens;
    seq(|tokens|, j requires 0 <= j < |tokens| => SrcValue(tokens[j]))
  }

  /** A source that is collected. */
  predicate Wanted(src: string, resolve: string -> string, onDisk: string -> bool) {
    !IsRemote(src) && onDisk(resolve(src))
  }

  /** The record of a collected source: its absolute path and its name in
      the book. */
  function InfoFor(src: string, resolve: string -> string): ImageInfo {
    ImageInfo(resolve(src), "images/" + BaseName(resolve(src)))
  }

  predicate Distinct(xs: seq<string>) {
    forall i, j :: 0 <= i < j < |xs| ==> xs[i] != xs[j]
  }

  /** The collected sources in the order the dictionary keeps them: by
      first occurrence. */
  function FirstKeys(srcs: seq<string>, resolve: string -> string, onDisk: string -> bool): (keys: seq<string>)
    ensures Distinct(keys)
    ensures forall x :: x in keys <==> x in srcs && Wanted(x, resolve, onDisk)
  {
    if srcs == [] then []
    else
      var keys := FirstKeys(srcs[..|srcs| - 1], resolve, onDisk);
      var src := srcs[|srcs| - 1];
      assert srcs == srcs[..|srcs| - 1] + [src];
      if Wanted(src, resolve, onDisk) && src !in keys then keys + [src] else keys
  }

  /** collect_images: the dictionary from source to record, with its key
      order. */
  method CollectImages(html: string, resolve: string -> string, onDisk: string -> bool)
    returns (keys: seq<string>, images: map<string, ImageInfo>)
    ensures keys == FirstKeys(SrcValues(html), resolve, onDisk)
    ensures forall x :: x in images <==> x in keys
    ensures forall x :: x in images ==> images[x] == InfoFor(x, resolve)
  {
    var srcs := SrcValues(html);
    keys := [];
    images := map[];
    for i := 0 to |srcs|
      invariant keys == FirstKeys(srcs[..i], resolve, onDisk)
      invariant forall x :: x in images <==> x in keys
      invariant forall x :: x in images ==> images[x] == InfoFor(x, resolve)
    {
      var src := srcs[i];
      assert srcs[..i + 1][..i] == srcs[..i];
      if !(StartsWith(src, "http://") || StartsWith(src, "https://")) {
        var absPath := resolve(src);
        if onDisk(absPath) {
          if src !in images {
            keys := keys + [src];
          }
          images := images[src := ImageInfo(absPath, "images/" + BaseName(absPath))];
        }
      }
    }
    assert srcs[..|srcs|] == srcs;
  }

  /** Every collected source is named in the book after the basename of
      its file, under images/. */
  lemma CollectedNames(srcs: seq<string>, resolve: string -> string, onDisk: string -> bool, x: string)
    requires x in FirstKeys(srcs, resolve, onDisk)
    ensures !IsRemote(x) && onDisk(resolve(x)) && x in srcs
    ensures StartsWith(InfoFor(x, resolve).fileName, "images/")
    ensures '/' !in InfoFor(x, resolve).fileName[7..]
  {
    var name := InfoFor(x, resolve).fileName;
    assert name[..7] == "images/";
    assert name[7..] == BaseName(resolve(x));
  }

  // ---------------------------------------------------------------------
  // Book-wide registration (the main loop's all_images)
  // ---------------------------------------------------------------------

  /** all_images: book paths in insertion order and the file behind each. */
  datatype Registry = Registry(paths: seq<string>, files: map<string, string>)

  ghost predicate RegistryValid(r: Registry) {
    Distinct(r.paths) && forall p :: p in r.files <==> p in r.paths
  }

  /** Registering (path, file) pairs in turn: a path already known keeps
      its file. */
  function Register(r: Registry, entries: seq<(string, string)>): Registry
    decreases |entries|
  {
    if entries == [] then r
    else
      var (p, f) := entries[0];
      if p in r.files then Register(r, entries[1..])
      else Register(Registry(r.paths + [p], r.files[p := f]), entries[1..])
  }

  /** The pairs one chapter contributes, in the dictionary's order. */
  function ChapterEntries(keys: seq<string>, images: map<string, ImageInfo>): (es: seq<(string, string)>)
    requires forall x :: x in keys ==> x in images
    ensures |es| == |keys|
  {
    seq(|keys|, j requires 0 <= j < |keys| => (images[keys[j]].fileName, images[keys[j]].absPath))
  }

  lemma {:induction false} RegisterValid(r: Registry, entries: seq<(string, string)>)
    requires RegistryValid(r)
    ensures RegistryValid(Register(r, entries))
    decreases |entries|
  {
    if entries != [] {
      var (p, f) := entries[0];
      if p in r.files {
        RegisterValid(r, entries[1..]);
      } else {
        var r' := Registry(r.paths + [p], r.files[p := f]);
        assert RegistryValid(r');
        RegisterValid(r', entries[1..]);
      }
    }
  }

  /** The first file registered under a path wins: a known path keeps its
      file, and the paths known before stay first, in their order. */
  lemma {:induction false} RegisterKeepsKnown(r: Registry, entries: seq<(string, string)>)
    ensures var r' := Register(r, entries);
      && (forall p :: p in r.files ==> p in r'.files && r'.files[p] == r.files[p])
      && |r.paths| <= |r'.paths| && r'.paths[..|r.paths|] == r.paths
    decreases |entries|
  {
    if entries != [] {
      var (p, f) := entries[0];
      if p in r.files {
        RegisterKeepsKnown(r, entries[1..]);
      } else {
        var r1 := Registry(r.paths + [p], r.files[p := f]);
        RegisterKeepsKnown(r1, entries[1..]);
        var r' := Register(r1, entries[1..]);
        assert r'.paths[..|r1.paths|][..|r.paths|] == r'.paths[..|r.paths|];
      }
    }
  }

  /** A path first seen in entries gets the file of its first entry. */
  lemma {:induction false} RegisterFirstEntry(r: Registry, entries: seq<(string, string)>, i: nat)
    requires i < |entries| && entries[i].0 !in r.files
    requires forall j :: 0 <= j < i ==> entries[j].0 != entries[i].0
    ensures var r' := Register(r, entries);
      entries[i].0 in r'.files && r'.files[entries[i].0] == entries[i].1
    decreases |entries|
  {
    var (p, f) := entries[0];
    if i == 0 {
      RegisterKeepsKnown(Registry(r.paths + [p], r.files[p := f]), entries[1..]);
    } else if p in r.files {
      RegisterFirstEntry(r, entries[1..], i - 1);
    } else {
      RegisterFirstEntry(Registry(r.paths + [p], r.files[p := f]), entries[1..], i - 1);
    }
  }

  /** The chapter's html_content.replace calls, one per collected source,
      in the dictionary's order. */
  function PointSrcs(html: string, keys: seq<string>, images: map<string, ImageInfo>): string
    requires forall x :: x in keys ==> x in images
    decreases |keys|
  {
    if keys == [] then html
    else
      var src := keys[0];
      var html' := ReplaceAll(html, SrcOpen + src + "\"", SrcOpen + images[src].fileName + "\"");
      PointSrcs(html', keys[1..], images)
  }

  /** The first replacement: every occurrence of the first key's src
      attribute, and nothing else, is rewritten to point at its stored file
      before the remaining keys are applied. */
  lemma PointSrcsStep(html: string, k: string, ks: seq<string>, images: map<string, ImageInfo>)
    requires k in images && forall x :: x in ks ==> x in images
    ensures var target := SrcOpen + k + "\"";
      var c := Scan(LiteralLen(target), html);
      && (forall j :: 0 <= j < |c.tokens| ==> c.tokens[j] == target)
      && Interleave(c.plains, c.tokens) == html
      && PointSrcs(html, [k] + ks, images)
        == PointSrcs(Interleave(c.plains, seq(|c.tokens|, j => SrcOpen + images[k].fileName + "\"")), ks, images)
  {
    var keys := [k] + ks;
    assert keys[0] == k && keys[1..] == ks;
    ReplaceAllPieces(html, SrcOpen + k + "\"", SrcOpen + images[k].fileName + "\"");
  }

  /** A chapter whose text names no collected source is left as it is. */
  lemma {:induction false} PointSrcsAbsent(html: string, keys: seq<string>, images: map<string, ImageInfo>)
    requires forall x :: x in keys ==> x in images
    requires forall x :: x in keys ==> !Contains(html, SrcOpen + x + "\"")
    ensures PointSrcs(html, keys, images) == html
    decreases |keys|
  {
    if keys != [] {
      var src := keys[0];
      ReplaceAbsent(html, SrcOpen + src + "\"", SrcOpen + images[src].fileName + "\"");
      PointSrcsAbsent(html, keys[1..], images);
    }
  }

  /** str.replace of a pattern that does not occur changes nothing. */
  lemma {:induction false} ReplaceAbsent(s: string, target: string, repl: string)
    requires |target| > 0 && !Contains(s, target)
    ensures ReplaceAll(s, target, repl) == s
    decreases |s|
  {
    if s != [] {
      assert !OccursAt(s, target, 0);
      assert !Contains(s[1..], target) by {
        if Contains(s[1..], target) {
          var i := FindFrom(s[1..], target, 0).value;
          assert s[1..][i..i + |target|] == s[i + 1..i + 1 + |target|];
          assert OccursAt(s, target, i + 1);
        }
      }
      ReplaceAbsent(s[1..], target, repl);
      assert [s[0]] + s[1..] == s;
    }
  }

  /** The main loop's record of the book's images. */
  class ImageStore {
    var paths: seq<string>
    var files: map<string, string>

    ghost predicate Valid()
      reads this
    {
      RegistryValid(Registry(paths, files))
    }

    constructor()
      ensures Valid() && paths == [] && files == map[]
    {
      paths := [];
      files := map[];
    }

    /** One chapter's turn: register each collected image whose book path
        is new, and point the chapter's src attributes at the book paths. */
    method AddChapter(keys: seq<string>, images: map<string, ImageInfo>, html: string) returns (out: string)
      requires Valid()
      requires forall x :: x in keys ==> x in images
      modifies this
      ensures Valid()
      ensures Registry(paths, files) == Register(old(Registry(paths, files)), ChapterEntries(keys, images))
      ensures out == PointSrcs(html, keys, images)
    {
      ghost var entries := ChapterEntries(keys, images);
      ghost var start := Registry(paths, files);
      RegisterValid(start, entries);
      out := html;
      var i := 0;
      while i < |keys|
        invariant i <= |keys|
        invariant Register(start, entries) == Register(Registry(paths, files), entries[i..])
        invariant PointSrcs(html, keys, images) == PointSrcs(out, keys[i..], images)
        decreases |keys| - i
      {
        var src := keys[i];
        var info := images[src];
        assert entries[i..][0] == (info.fileName, info.absPath);
        assert entries[i..][1..] == entries[i + 1..];
        assert keys[i..][0] == src && keys[i..][1..] == keys[i + 1..];
        if info.fileName !in files {
          paths := paths + [info.fileName];
          files := files[info.fileName := info.absPath];
        }
        out := ReplaceAll(out, SrcOpen + src + "\"", SrcOpen + info.fileName + "\"");
        i := i + 1;
      }
    }
  }

  // ---------------------------------------------------------------------
  // Media types
  // ---------------------------------------------------------------------

  /** The media type of an image, looked up by lower-cased extension. */
  function MediaType(absPath: string): (r: string)
    ensures r == "application/octet-stream" <==>
      LowerAscii(Extension(absPath)) !in {".png", ".jpg", ".jpeg", ".gif", ".svg", ".webp"}
  {
    var ext := LowerAscii(Extension(absPath));
    if ext == ".png" then "image/png"
    else if ext == ".jpg" || ext == ".jpeg" then "image/jpeg"
    else if ext == ".gif" then "image/gif"
    else if ext == ".svg" then "image/svg+xml"
    else if ext == ".webp" then "image/webp"
    else "application/octet-stream"
  }
}
