/** The names the browser page derives from the chosen file (script.js):
    the name offered for download, the encoder's virtual input and output
    file names, and the encoder's argument list. */
module BrowserNames {
  import opened Wrappers
  import opened Text

  /** The fixed virtual output file (script.js:89). */
  const OutputName: string := "output.mp4"

  const Mp4Suffix: string := ".mp4"

  // ------------------------------------------------------------------
  // download name: name.replace(/\.[^/.]+$/, "") + ".mp4"
  // ------------------------------------------------------------------

  /** The pattern /\.[^/.]+$/ matches `name` starting at index `i`: a dot,
      then one or more characters that are neither `.` nor `/`, up to the
      end of the name. */
  predicate ExtensionAt(name: string, i: nat)
  {
    && i + 1 < |name|
    && name[i] == '.'
    && forall j :: i < j < |name| ==> name[j] != '.' && name[j] != '/'
  }

  /** The regular-expression engine's leftmost search for the pattern,
      trying start positions from `from` onwards: it finds the first
      matching position, and finds none only when no position matches. */
  function MatchFrom(name: string, from: nat): (r: Option<nat>)
    ensures r.Some? ==> from <= r.value && ExtensionAt(name, r.value)
    ensures r.Some? ==> forall j :: from <= j < r.value ==> !ExtensionAt(name, j)
    ensures r.None? ==> forall j: nat :: from <= j ==> !ExtensionAt(name, j)
    decreases |name| - from
  {
    if from >= |name| then None
    else if ExtensionAt(name, from) then Some(from)
    else MatchFrom(name, from + 1)
  }

  /** `name.replace(/\.[^/.]+$/, "")`: the first match, if any, is cut off. */
  function StripExtension(name: string): string
  {
    match MatchFrom(name, 0)
    case Some(i) => name[..i]
    case None => name
  }

  /** The download name (script.js:39): a trailing extension made of a dot
      and one or more characters other than `.` and `/` is replaced by
      `.mp4`; a name without one just gets `.mp4` appended. */
  function DownloadName(name: string): (d: string)
    ensures forall i: nat :: ExtensionAt(name, i) ==> d == name[..i] + Mp4Suffix
    ensures (forall i: nat :: !ExtensionAt(name, i)) ==> d == name + Mp4Suffix
  {
    StripExtension(name) + Mp4Suffix
  }

  /** The pattern can match at one place only: the last dot. */
  lemma ExtensionAtLastDot(name: string, i: nat)
    ensures ExtensionAt(name, i) <==>
      && i == LastIndexOf(name, '.')
      && i + 1 < |name|
      && '/' !in name[i + 1..]
  {
    var k := LastIndexOf(name, '.');
    if ExtensionAt(name, i) {
      assert name[i] == '.';
      assert k >= i;
    }
    if i == k && i + 1 < |name| && '/' !in name[i + 1..] {
      forall j | i < j < |name|
        ensures name[j] != '.' && name[j] != '/'
      {
        assert name[j] == name[i + 1..][j - i - 1];
      }
    }
  }

  /** The download name always ends in `.mp4`, and every matched
      extension is a dot-free, slash-free tail of the name. */
  lemma DownloadNameEndsInMp4(name: string)
    ensures |DownloadName(name)| >= |Mp4Suffix|
    ensures DownloadName(name)[|DownloadName(name)| - |Mp4Suffix|..] == Mp4Suffix
  {
  }

  /** Worked cases of the download name. A hidden-file name such as
      `.bashrc` is all extension, so only `.mp4` is left; a trailing dot
      or a dot before a directory separator is not an extension. */
  lemma DownloadNameExamples()
    ensures DownloadName("clip.MOV") == "clip.mp4"
    ensures DownloadName("archive.tar.gz") == "archive.tar.mp4"
    ensures DownloadName("video") == "video.mp4"
    ensures DownloadName("a.") == "a..mp4"
    ensures DownloadName(".bashrc") == ".mp4"
    ensures DownloadName("dir.v/clip") == "dir.v/clip.mp4"
  {
    assert ExtensionAt("clip.MOV", 4);
    assert "clip.MOV"[..4] == "clip";
    assert ExtensionAt("archive.tar.gz", 11);
    assert "archive.tar.gz"[..11] == "archive.tar";
    assert ExtensionAt(".bashrc", 0);
    forall i: nat ensures !ExtensionAt("video", i) {
    }
    forall i: nat ensures !ExtensionAt("a.", i) {
    }
    forall i: nat ensures !ExtensionAt("dir.v/clip", i) {
      assert "dir.v/clip"[5] == '/';
    }
  }

  // ------------------------------------------------------------------
  // virtual input name: "input." + name.split('.').pop().toLowerCase()
  // ------------------------------------------------------------------

  /** The virtual input name (script.js:87-88). */
  function InputName(name: string): string
  {
    "input." + ToLower(LastSegment(name, '.'))
  }

  /** The input name is `input.` followed by the lower-cased text after
      the last dot of the chosen name, or the lower-cased whole name when
      it has no dot; so the virtual file keeps the chosen file's extension,
      lower-cased, as its own (and only) extension. */
  lemma InputNameSpec(name: string)
    ensures forall e :: IsLastSegment(name, '.', e) ==> InputName(name) == "input." + ToLower(e)
    ensures '.' !in name ==> InputName(name) == "input." + ToLower(name)
    ensures LastSegment(InputName(name), '.') == ToLower(LastSegment(name, '.'))
  {
    var e := LastSegment(name, '.');
    LastSegmentSpec(name, '.');
    forall e' | IsLastSegment(name, '.', e')
      ensures InputName(name) == "input." + ToLower(e')
    {
      IsLastSegmentUnique(name, '.', e, e');
    }
    if '.' !in name {
      assert IsLastSegment(name, '.', name);
    }
    var n := InputName(name);
    var x := ToLower(e);
    assert '.' !in x by {
      forall i | 0 <= i < |x| ensures x[i] != '.' {
        assert x[i] == LowerChar(e[i]);
      }
    }
    assert n == "input." + x;
    assert IsLastSegment(n, '.', x) by {
      assert n[|n| - |x|..] == x;
      assert n[|n| - |x| - 1] == '.';
    }
    LastSegmentSpec(n, '.');
    IsLastSegmentUnique(n, '.', x, LastSegment(n, '.'));
  }

  /** Writing the input can never overwrite the output: the two virtual
      names always differ. */
  lemma InputNameIsNotOutputName(name: string)
    ensures InputName(name) != OutputName
  {
    assert InputName(name)[0] == 'i' && OutputName[0] == 'o';
  }

  /** Worked case: the extension is lower-cased. */
  lemma InputNameLowerCasesExtension()
    ensures InputName("Clip.MOV") == "input.mov"
  {
    assert IsLastSegment("Clip.MOV", '.', "MOV");
    assert ToLower("MOV") == "mov";
    InputNameSpec("Clip.MOV");
  }

  /** Worked case: only the text after the last dot counts. */
  lemma InputNameTakesLastDot()
    ensures InputName("archive.tar.GZ") == "input.gz"
  {
    assert IsLastSegment("archive.tar.GZ", '.', "GZ");
    assert ToLower("GZ") == "gz";
    InputNameSpec("archive.tar.GZ");
  }

  /** Worked case: a name without a dot becomes the extension itself. */
  lemma InputNameWithoutDot()
    ensures InputName("video") == "input.video"
  {
    assert ToLower("video") == "video";
    assert IsLastSegment("video", '.', "video");
    InputNameSpec("video");
  }

  /** Worked case: a trailing dot leaves an empty extension. */
  lemma InputNameTrailingDot()
    ensures InputName("a.") == "input."
  {
    assert IsLastSegment("a.", '.', "");
    assert ToLower("") == "";
    InputNameSpec("a.");
  }

  // ------------------------------------------------------------------
  // the encoder's argument list
  // ------------------------------------------------------------------

  /** How the encoder reads an odd-length command line: `-flag value`
      pairs, followed by the output file as the last word. */
  function OptionPairs(args: seq<string>): seq<(string, string)>
    requires |args| % 2 == 1
  {
    seq((|args| - 1) / 2, k requires 0 <= k < (|args| - 1) / 2 => (args[2 * k], args[2 * k + 1]))
  }

  /** The argument list passed to the encoder (script.js:95-104): fifteen
      words, read as seven option pairs (input, H.264 video at preset
      `fast` and quality 22, AAC audio at `bitrate` kilobits, fast start)
      and the output name last. */
  function EncoderArgs(inputName: string, bitrate: string, outputName: string): (args: seq<string>)
    ensures |args| == 15 && args[14] == outputName
    ensures OptionPairs(args) == [
      ("-i", inputName), ("-c:v", "libx264"), ("-preset", "fast"), ("-crf", "22"),
      ("-c:a", "aac"), ("-b:a", bitrate + "k"), ("-movflags", "+faststart")]
  {
    [ "-i", inputName,
      "-c:v", "libx264",
      "-preset", "fast",
      "-crf", "22",
      "-c:a", "aac",
      "-b:a", bitrate + "k",
      "-movflags", "+faststart",
      outputName ]
  }
}
