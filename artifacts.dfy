/** Choosing and packaging the build outputs: the Accept header gives MIME
    types, the MIME types give extra file-name patterns after the configured
    ones, the patterns are expanded in the workspace, and every path found
    becomes one entry of the answer's zip archive. */
module Artifacts {
  import opened Basics
  import opened Text

  // ---------------------------------------------------------------------
  // make_server.py:63: MIME types of the Accept header
  // ---------------------------------------------------------------------

  /** `headers.get('Accept', '')`. */
  function AcceptText(accept: Option<string>): string
  {
    match accept
    case None => ""
    case Some(v) => v
  }

  /** `[val.split(';', 1)[0] for val in accept.split(',')]`: one MIME type
      per comma-separated item, the item's text before its first `;`, with
      no white space removed. An absent header gives one empty MIME type. */
  function AcceptMimes(accept: Option<string>): (mimes: seq<string>)
    ensures var items := Split(AcceptText(accept), ',');
      |mimes| == |items| &&
      forall i :: 0 <= i < |items| ==>
        mimes[i] <= items[i] && ';' !in mimes[i] &&
        (|mimes[i]| < |items[i]| ==> items[i][|mimes[i]|] == ';')
    ensures accept.None? ==> mimes == [""]
  {
    var items := Split(AcceptText(accept), ',');
    MapSeq(items, (item: string) => PrefixBefore(item, ';'))
  }

  lemma {:induction false} PrefixBeforeAbsent(s: string, c: char)
    requires c !in s
    ensures PrefixBefore(s, c) == s
  {
    if s != [] {
      PrefixBeforeAbsent(s[1..], c);
      assert s == [s[0]] + s[1..];
    }
  }

  /** An Accept header listing plain MIME types, with or without parameters,
      gives back each item up to its parameters. */
  lemma AcceptMimesOfList(items: seq<string>)
    requires |items| >= 1
    requires forall i :: 0 <= i < |items| ==> ',' !in items[i]
    ensures |AcceptMimes(Some(JoinWith(items, ',')))| == |items|
    ensures forall i :: 0 <= i < |items| ==>
      AcceptMimes(Some(JoinWith(items, ',')))[i] == PrefixBefore(items[i], ';')
  {
    SplitJoin(items, ',');
  }

  /** An Accept header listing MIME types without parameters gives them back. */
  lemma AcceptMimesOfTypes(types: seq<string>)
    requires |types| >= 1
    requires forall i :: 0 <= i < |types| ==> ',' !in types[i] && ';' !in types[i]
    ensures AcceptMimes(Some(JoinWith(types, ','))) == types
  {
    AcceptMimesOfList(types);
    forall i | 0 <= i < |types| ensures PrefixBefore(types[i], ';') == types[i] {
      PrefixBeforeAbsent(types[i], ';');
    }
  }

  // ---------------------------------------------------------------------
  // make_server.py:64-66: the output patterns
  // ---------------------------------------------------------------------

  /** Each extension turned into a wildcard pattern: `f"*{ext}"`. */
  function Starred(exts: seq<string>): (ps: seq<string>)
    ensures |ps| == |exts| && forall i :: 0 <= i < |exts| ==> ps[i] == "*" + exts[i]
  {
    MapSeq(exts, (ext: string) => "*" + ext)
  }

  /** `[f"*{ext}" for mime in mimes for ext in guess(mime)]`. */
  function DerivedPatterns(mimes: seq<string>, guess: string -> seq<string>): (ps: seq<string>)
    ensures var exts := FlatMap(mimes, guess);
      |ps| == |exts| && forall i :: 0 <= i < |exts| ==> ps[i] == "*" + exts[i]
  {
    Starred(FlatMap(mimes, guess))
  }

  /** `args.output + [...]`: the configured patterns first, untouched and in
      order, then one `*ext` per extension of each accepted MIME type. */
  function OutputPatterns(outputs: seq<string>, mimes: seq<string>, guess: string -> seq<string>): (globs: seq<string>)
    ensures |globs| >= |outputs| && globs[..|outputs|] == outputs
    ensures forall k :: |outputs| <= k < |globs| ==> |globs[k]| >= 1 && globs[k][0] == '*'
  {
    outputs + DerivedPatterns(mimes, guess)
  }

  /** The derived patterns follow the MIME types in order. */
  lemma DerivedPatternsAppend(a: seq<string>, b: seq<string>, guess: string -> seq<string>)
    ensures DerivedPatterns(a + b, guess) == DerivedPatterns(a, guess) + DerivedPatterns(b, guess)
  {
    FlatMapAppend(a, b, guess);
    var x, y := FlatMap(a, guess), FlatMap(b, guess);
    assert Starred(x + y) == Starred(x) + Starred(y);
  }

  /** One MIME type contributes `*ext` for each of its extensions, in lookup order. */
  lemma DerivedPatternsOfMime(mime: string, guess: string -> seq<string>)
    ensures DerivedPatterns([mime], guess) == Starred(guess(mime))
  {
    FlatMapSingleton(mime, guess);
  }

  /** A pattern is used exactly when it is configured or is `*` followed by
      an extension that the lookup gives for one of the accepted MIME types. */
  lemma InOutputPatterns(outputs: seq<string>, mimes: seq<string>, guess: string -> seq<string>, p: string)
    ensures p in OutputPatterns(outputs, mimes, guess) <==>
      p in outputs || exists ext :: ext in FlatMap(mimes, guess) && p == "*" + ext
  {
    var exts := FlatMap(mimes, guess);
    if p in DerivedPatterns(mimes, guess) {
      var k :| 0 <= k < |exts| && Starred(exts)[k] == p;
      assert exts[k] in exts;
    }
    if exists ext :: ext in exts && p == "*" + ext {
      var ext :| ext in exts && p == "*" + ext;
      var k :| 0 <= k < |exts| && exts[k] == ext;
      assert Starred(exts)[k] == p;
    }
  }

  /** The extensions behind the derived patterns are those of the accepted MIME types. */
  lemma InExtensions(mimes: seq<string>, guess: string -> seq<string>, ext: string)
    ensures ext in FlatMap(mimes, guess) <==> exists i :: 0 <= i < |mimes| && ext in guess(mimes[i])
  {
    InFlatMap(mimes, guess, ext);
  }

  // ---------------------------------------------------------------------
  // make_server.py:67: the output paths
  // ---------------------------------------------------------------------

  /** `[path for name in globs for path in glob(name)]`: each pattern's
      matches, pattern by pattern, with no path dropped as a repeat. */
  function CollectPaths(globs: seq<string>, glob: string -> seq<string>): (paths: seq<string>)
    ensures |paths| == TotalLength(MapSeq(globs, glob))
  {
    ConcatLength(MapSeq(globs, glob));
    FlatMap(globs, glob)
  }

  /** The paths follow the patterns in order. */
  lemma CollectPathsOrder(a: seq<string>, b: seq<string>, glob: string -> seq<string>)
    ensures CollectPaths(a + b, glob) == CollectPaths(a, glob) + CollectPaths(b, glob)
  {
    FlatMapAppend(a, b, glob);
  }

  /** One pattern contributes exactly what matching it gives. */
  lemma CollectPathsOfPattern(name: string, glob: string -> seq<string>)
    ensures CollectPaths([name], glob) == glob(name)
  {
    FlatMapSingleton(name, glob);
  }

  /** Repeats are kept: a pattern listed twice contributes its matches twice. */
  lemma CollectPathsKeepsRepeats(name: string, glob: string -> seq<string>)
    ensures CollectPaths([name, name], glob) == glob(name) + glob(name)
  {
    CollectPathsOrder([name], [name], glob);
    CollectPathsOfPattern(name, glob);
    assert [name] + [name] == [name, name];
  }

  /** A path is collected exactly when some pattern matches it. */
  lemma InCollectPaths(globs: seq<string>, glob: string -> seq<string>, path: string)
    ensures path in CollectPaths(globs, glob) <==> exists i :: 0 <= i < |globs| && path in glob(globs[i])
  {
    InFlatMap(globs, glob, path);
  }

  // ---------------------------------------------------------------------
  // make_server.py:69-72: the archive
  // ---------------------------------------------------------------------

  /** One `zipf.write(file, arcname)`: the file read from disk and the name
      it is stored under. */
  datatype ZipEntry = ZipEntry(file: string, arcname: string)

  /** The entries the loop of make_server.py:71-72 writes, one per path, in
      order: entry i stores workspace file `dpath/paths[i]` under the name
      `paths[i]`. */
  function ArchiveEntries(dpath: string, paths: seq<string>): (es: seq<ZipEntry>)
    ensures |es| == |paths|
    ensures forall i :: 0 <= i < |paths| ==> es[i] == ZipEntry(PathJoin(dpath, paths[i]), paths[i])
  {
    if paths == [] then []
    else
      var init := paths[..|paths| - 1];
      assert forall i :: 0 <= i < |init| ==> init[i] == paths[i];
      ArchiveEntries(dpath, init) + [ZipEntry(PathJoin(dpath, paths[|paths| - 1]), paths[|paths| - 1])]
  }

  function ArcNames(entries: seq<ZipEntry>): seq<string>
  {
    MapSeq(entries, (e: ZipEntry) => e.arcname)
  }

  /** Reading the entry names back gives the collected paths, repeats and order included. */
  lemma ArchiveNamesArePaths(dpath: string, paths: seq<string>)
    ensures ArcNames(ArchiveEntries(dpath, paths)) == paths
  {
  }

  /** `os.path.join` lets an absolute match replace the workspace path, so
      such an entry reads its file from outside the workspace. */
  lemma AbsoluteMatchLeavesWorkspace(dpath: string, paths: seq<string>, i: int)
    requires 0 <= i < |paths| && |paths[i]| > 0 && paths[i][0] == '/'
    ensures |ArchiveEntries(dpath, paths)| == |paths| && ArchiveEntries(dpath, paths)[i].file == paths[i]
  {
  }

  /** `zipfile.ZipFile(ozpath, 'w')` while it is being written. */
  class ZipArchive {
    var entries: seq<ZipEntry>

    constructor ()
      ensures entries == []
    {
      entries := [];
    }

    /** `zipf.write(file, arcname)`: appends one entry; a repeated name is
        written again, not replaced. */
    method Write(file: string, arcname: string)
      modifies this
      ensures entries == old(entries) + [ZipEntry(file, arcname)]
    {
      entries := entries + [ZipEntry(file, arcname)];
    }
  }

  /** make_server.py:70-72: writes one entry per collected path into a new archive. */
  method Package(dpath: string, paths: seq<string>) returns (entries: seq<ZipEntry>)
    ensures entries == ArchiveEntries(dpath, paths)
  {
    var zipf := new ZipArchive();
    for i := 0 to |paths|
      invariant zipf.entries == ArchiveEntries(dpath, paths[..i])
    {
      assert paths[..i + 1][..i] == paths[..i];
      zipf.Write(PathJoin(dpath, paths[i]), paths[i]);
    }
    assert paths[..|paths|] == paths;
    entries := zipf.entries;
  }
}
