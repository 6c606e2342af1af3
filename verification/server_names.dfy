/** What the server derives for one upload before starting the encoder
    (server.js:34-37): the bitrate, the output file name and the output
    path. The file name comes from Node's `path.parse(...).name` with POSIX
    separators. */
module ServerNames {
  import opened Wrappers
  import opened Text
  import BrowserNames

  /** The bitrate used when the form sends none (server.js:34). */
  const DefaultBitrate: string := "30"

  // ------------------------------------------------------------------
  // bitrate: req.body.bitrate || '30'
  // ------------------------------------------------------------------

  /** `req.body.bitrate || '30'`: the form field when it is present and
      non-empty (a string is falsy only when empty), otherwise `"30"`. The
      value is passed on as text, never parsed or checked. */
  function ResolveBitrate(field: Option<string>): (b: string)
    ensures b != ""
    ensures field.Some? && field.value != "" ==> b == field.value
    ensures field.None? || field.value == "" ==> b == DefaultBitrate
  {
    if field.Some? && field.value != "" then field.value else DefaultBitrate
  }

  // ------------------------------------------------------------------
  // path.parse(originalname).name
  // ------------------------------------------------------------------

  /** `p` without its trailing `/` characters. */
  function TrimTrailingSlashes(p: string): (r: string)
    ensures |r| <= |p| && r == p[..|r|]
    ensures r == "" || r[|r| - 1] != '/'
    ensures forall j :: |r| <= j < |p| ==> p[j] == '/'
    decreases |p|
  {
    if |p| > 0 && p[|p| - 1] == '/' then TrimTrailingSlashes(p[..|p| - 1]) else p
  }

  /** `path.parse(p).base`: the last component, trailing separators ignored. */
  function BaseName(p: string): string
  {
    LastSegment(TrimTrailingSlashes(p), '/')
  }

  /** `path.parse(p).name`: the base without its extension. The extension
      starts at the last dot of the base, except that a dot in first
      position (a hidden file) and the base `..` give no extension. */
  function ParsedName(p: string): string
  {
    var base := BaseName(p);
    var k := LastIndexOf(base, '.');
    if base == ".." || k <= 0 then base else base[..k]
  }

  /** A file name that `path.join` leaves as it is: one component that is
      neither empty nor `.` nor `..`. */
  predicate IsPlainName(f: string)
  {
    f != "" && '/' !in f && f != "." && f != ".."
  }

  /** `${originalName}.mp4` (server.js:35-36). */
  function OutputFileName(originalName: string): string
  {
    ParsedName(originalName) + BrowserNames.Mp4Suffix
  }

  /** `path.join(uploadsDir, outputFileName)` (server.js:37), for an
      already normalised `uploadsDir` and a plain file name. */
  function OutputPath(uploadsDir: string, originalName: string): string
  {
    uploadsDir + "/" + OutputFileName(originalName)
  }

  /** The parsed name is a prefix of the last component and never holds a
      directory separator. */
  lemma ParsedNameSpec(p: string)
    ensures '/' !in BaseName(p)
    ensures ParsedName(p) == BaseName(p)[..|ParsedName(p)|]
    ensures '/' !in ParsedName(p)
  {
    LastSegmentSpec(TrimTrailingSlashes(p), '/');
  }

  /** The output file name is a single plain component ending in `.mp4`,
      so `path.join` has nothing to normalise and the output path lies
      directly inside the uploads directory, whatever the uploaded name
      (`../x.mov` included). The output path depends on the original name
      only, never on the staged input's path. */
  lemma OutputPathInUploadsDir(uploadsDir: string, originalName: string)
    ensures IsPlainName(OutputFileName(originalName))
    ensures var f := OutputFileName(originalName);
      f[|f| - |BrowserNames.Mp4Suffix|..] == BrowserNames.Mp4Suffix
    ensures var out := OutputPath(uploadsDir, originalName);
      && out[..|uploadsDir| + 1] == uploadsDir + "/"
      && '/' !in out[|uploadsDir| + 1..]
  {
    ParsedNameSpec(originalName);
    var f := OutputFileName(originalName);
    assert f[|f| - 1] == '4';
    assert '/' !in BrowserNames.Mp4Suffix;
    var out := OutputPath(uploadsDir, originalName);
    assert out[|uploadsDir| + 1..] == f;
  }

  /** Only the last extension goes: `stem.ext` parses to `stem` when
      `ext` holds no dot (`archive.tar.gz` gives `archive.tar`; a trailing
      dot is an empty extension, so `a.` gives `a`). */
  lemma ParsedNameDropsLastExtension(stem: string, ext: string)
    requires stem != "" && '/' !in stem && '/' !in ext && '.' !in ext
    requires stem + "." + ext != ".."
    ensures ParsedName(stem + "." + ext) == stem
  {
    var name := stem + "." + ext;
    assert '/' !in name;
    ParsedNameOfPlainBase(name);
    LastIndexOfAt(name, '.', |stem|);
    assert name[..|stem|] == stem;
  }

  /** A hidden file keeps its whole name: `.bashrc` parses to `.bashrc`. */
  lemma ParsedNameHiddenFile(rest: string)
    requires '/' !in rest && '.' !in rest
    ensures ParsedName("." + rest) == "." + rest
  {
    var name := "." + rest;
    assert '/' !in name;
    ParsedNameOfPlainBase(name);
    LastIndexOfAt(name, '.', 0);
  }

  /** Directories are dropped, whatever they hold (`../../etc/passwd.x`
      parses like `passwd.x`). */
  lemma ParsedNameDropsDirectories(dir: string, base: string)
    requires base != "" && '/' !in base
    ensures BaseName(dir + "/" + base) == base
    ensures ParsedName(dir + "/" + base) == ParsedName(base)
  {
    var p := dir + "/" + base;
    assert TrimTrailingSlashes(p) == p;
    assert IsLastSegment(p, '/', base) by {
      assert p[|p| - |base|..] == base;
      assert p[|p| - |base| - 1] == '/';
    }
    LastSegmentSpec(p, '/');
    IsLastSegmentUnique(p, '/', base, LastSegment(p, '/'));
    ParsedNameOfPlainBase(base);
  }

  /** For a name without a separator, the base is the name itself. */
  lemma ParsedNameOfPlainBase(name: string)
    requires '/' !in name
    ensures BaseName(name) == name
    ensures ParsedName(name) ==
      var k := LastIndexOf(name, '.');
      if name == ".." || k <= 0 then name else name[..k]
  {
    assert TrimTrailingSlashes(name) == name;
    LastSegmentSpec(name, '/');
    assert IsLastSegment(name, '/', name);
    IsLastSegmentUnique(name, '/', name, LastSegment(name, '/'));
  }

  /** The browser's download name and the server's output name agree for
      a plain name whose extension is a non-empty tail after a dot that is
      not in first position, and for a name with no dot at all. */
  lemma BrowserAndServerNamesAgree(name: string)
    requires '/' !in name
    requires var k := LastIndexOf(name, '.'); k == -1 || 0 < k < |name| - 1
    ensures BrowserNames.DownloadName(name) == OutputFileName(name)
  {
    var k := LastIndexOf(name, '.');
    ParsedNameOfPlainBase(name);
    if k == -1 {
      forall i: nat ensures !BrowserNames.ExtensionAt(name, i) {
        BrowserNames.ExtensionAtLastDot(name, i);
      }
    } else {
      assert name != "..";
      BrowserNames.ExtensionAtLastDot(name, k);
      assert '/' !in name[k + 1..];
      assert BrowserNames.ExtensionAt(name, k);
    }
  }

  /** ... and they disagree on hidden files, where the browser keeps
      only `.mp4` and the server keeps the whole name, and on a trailing
      dot, which the browser keeps and the server drops. */
  lemma BrowserAndServerNamesDiffer(rest: string, stem: string)
    requires rest != "" && '/' !in rest && '.' !in rest
    requires stem != "" && '/' !in stem && stem != "."
    ensures BrowserNames.DownloadName("." + rest) == ".mp4"
    ensures OutputFileName("." + rest) == "." + rest + ".mp4"
    ensures BrowserNames.DownloadName(stem + ".") == stem + "..mp4"
    ensures OutputFileName(stem + ".") == stem + ".mp4"
  {
    assert BrowserNames.ExtensionAt("." + rest, 0);
    ParsedNameHiddenFile(rest);
    var t := stem + ".";
    forall i: nat ensures !BrowserNames.ExtensionAt(t, i) {
      assert t[|t| - 1] == '.';
    }
    assert stem + "." + "" == t;
    assert |t| == 2 ==> t[0] == stem[0];
    ParsedNameDropsLastExtension(stem, "");
  }
}
