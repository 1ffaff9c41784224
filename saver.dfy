/**
  The saver: chooses the output file's name, puts the video URL in front
  of the generated document, resolves the path under an optional folder
  and writes the file (src/saver.rs).
 */
module Saver {
  import opened Outcomes
  import opened Text
  import opened Paths
  import opened FileSystems

  /** What the caller asks of a save: a file name to use as it is, a source URL, a target folder. */
  datatype SaverConfig = SaverConfig(customName: Option<string>, url: Option<string>, folder: Option<string>)

  /** The failures `save` reports, one per effect that can fail. */
  datatype SaveError =
    | CreateDirFailed(folder: string)  // "Failed to create directory: <folder>"
    | WriteFailed                      // "Something went wrong!"

  /** The Markdown heading marker removed from the first line. */
  const HeadingMarker: string := "# "
  /** The extension of every name the saver derives or generates. */
  const Extension: string := ".md"
  /** The label in front of the video URL. */
  const UrlLabel: string := "Video URL: "
  /** What separates the URL line from the document: the line's end and two blank lines. */
  const HeaderSeparator: string := "\n\n\n"

  // ---------------------------------------------------------------------
  // File name
  // ---------------------------------------------------------------------

  /**
    The base name derived from a document: its first line with every
    heading marker removed, spaces turned into hyphens, lower-cased.
   */
  function DerivedName(content: string): (name: string)
  {
    ToLowerAscii(ReplaceAll(ReplaceAll(FirstLine(content), HeadingMarker, ""), " ", "-"))
  }

  /**
    A derived name holds no space, hence no heading marker, no line feed
    and no capital letter, and is no longer than the document.
   */
  lemma DerivedNameIsClean(content: string)
    ensures var name := DerivedName(content);
      ' ' !in name && !Contains(name, HeadingMarker) && '\n' !in name
      && (forall k :: 0 <= k < |name| ==> !IsAsciiUpper(name[k]))
      && |name| <= |content|
  {
    var line := FirstLine(content);
    var unmarked := ReplaceAll(line, HeadingMarker, "");
    var hyphenated := ReplaceAll(unmarked, " ", "-");
    var name := ToLowerAscii(hyphenated);
    ReplaceCharAt(unmarked, ' ', '-');
    assert ' ' !in hyphenated by {
      forall k | 0 <= k < |hyphenated| ensures hyphenated[k] != ' ' {
      }
    }
    ReplaceAllChars(line, HeadingMarker, "", '\n');
    ReplaceAllChars(unmarked, " ", "-", '\n');
    LowerAsciiAddsNothing(hyphenated, ' ');
    LowerAsciiAddsNothing(hyphenated, '\n');
    forall k: nat | k <= |name|
      ensures !OccursAt(name, HeadingMarker, k)
    {
      assert k + 2 <= |name| ==> name[k..k + 2][1] == name[k + 1];
    }
  }

  /** Every heading marker is removed, wherever it stands in the line, not only a leading one. */
  lemma {:induction false} RemoveMarkerSplits(a: string, b: string)
    ensures ReplaceAll(a + HeadingMarker + b, HeadingMarker, "")
         == ReplaceAll(a, HeadingMarker, "") + ReplaceAll(b, HeadingMarker, "")
    decreases |a|, 1
  {
    if a == [] {
      assert a + HeadingMarker + b == HeadingMarker + b;
      MarkerStep(HeadingMarker + b);
      assert (HeadingMarker + b)[2..] == b;
    } else if |a| == 1 || a[..2] != HeadingMarker {
      SplitAfterCharacter(a, b);
    } else {
      SplitAfterMarker(a, b);
    }
  }

  /** The case of `RemoveMarkerSplits` where `a` does not start with a marker. */
  lemma {:induction false} SplitAfterCharacter(a: string, b: string)
    requires a != [] && (|a| == 1 || a[..2] != HeadingMarker)
    ensures ReplaceAll(a + HeadingMarker + b, HeadingMarker, "")
         == ReplaceAll(a, HeadingMarker, "") + ReplaceAll(b, HeadingMarker, "")
    decreases |a|, 0
  {
    var s := a + HeadingMarker + b;
    var tail := a[1..] + HeadingMarker + b;
    assert s[..2] != HeadingMarker && s[1..] == tail by {
      if |a| == 1 {
        assert s[1] == '#';
      } else {
        assert s[..2] == a[..2];
      }
    }
    CharacterStep(s);
    RemoveMarkerSplits(a[1..], b);
    assert ReplaceAll(a, HeadingMarker, "") == [a[0]] + ReplaceAll(a[1..], HeadingMarker, "") by {
      if |a| >= 2 {
        CharacterStep(a);
      } else {
        assert a[1..] == [];
      }
    }
  }

  /** The case of `RemoveMarkerSplits` where `a` starts with a marker. */
  lemma {:induction false} SplitAfterMarker(a: string, b: string)
    requires |a| >= 2 && a[..2] == HeadingMarker
    ensures ReplaceAll(a + HeadingMarker + b, HeadingMarker, "")
         == ReplaceAll(a, HeadingMarker, "") + ReplaceAll(b, HeadingMarker, "")
    decreases |a|, 0
  {
    var s := a + HeadingMarker + b;
    assert s[..2] == HeadingMarker;
    MarkerStep(s);
    MarkerStep(a);
    assert s[2..] == a[2..] + HeadingMarker + b;
    RemoveMarkerSplits(a[2..], b);
  }

  /** Removing markers from a text that starts with one drops it and goes on after it. */
  lemma MarkerStep(s: string)
    requires |s| >= 2 && s[..2] == HeadingMarker
    ensures ReplaceAll(s, HeadingMarker, "") == ReplaceAll(s[2..], HeadingMarker, "")
  {
  }

  /** Removing markers from a text that does not start with one keeps its first character. */
  lemma CharacterStep(s: string)
    requires |s| >= 2 && s[..2] != HeadingMarker
    ensures ReplaceAll(s, HeadingMarker, "") == [s[0]] + ReplaceAll(s[1..], HeadingMarker, "")
  {
  }

  /** A first line written as a Markdown heading gives the same name as its bare title. */
  lemma HeadingDerivesTitle(t: string)
    ensures DerivedName(HeadingMarker + t) == DerivedName(t)
  {
    FirstLineOfPrefixed(HeadingMarker, t);
    var line := FirstLine(t);
    RemoveMarkerSplits([], line);
    assert [] + HeadingMarker + line == HeadingMarker + line;
    assert ReplaceAll([], HeadingMarker, "") == [];
    assert ReplaceAll(HeadingMarker + line, HeadingMarker, "") == ReplaceAll(line, HeadingMarker, "");
  }

  /**
    A heading whose title holds no heading marker and no line break, on a
    line of its own, gives the title with hyphens for spaces, lower-cased.
   */
  lemma HeadingLineName(title: string, rest: string)
    requires !Contains(title, HeadingMarker) && '\n' !in title && (title == [] || title[|title| - 1] != '\r')
    ensures DerivedName(HeadingMarker + (title + "\n" + rest)) == ToLowerAscii(ReplaceAll(title, " ", "-"))
  {
    var t := title + "\n" + rest;
    assert DerivedName(t) == ToLowerAscii(ReplaceAll(title, " ", "-")) by {
      FirstLineOfTerminated(title, rest);
      ReplaceAbsent(title, HeadingMarker, "");
    }
    assert DerivedName(HeadingMarker + t) == DerivedName(t) by {
      HeadingDerivesTitle(t);
    }
  }

  /**
    The output file name: a caller-supplied name verbatim; otherwise the
    name derived from the document, unless it is empty or something of
    that bare name exists, in which case the fresh id (a UUID) is used;
    either of the last two gets the extension.
   */
  function Filename(customName: Option<string>, content: string, existing: set<string>, id: string): (filename: string)
    ensures customName.Some? ==> filename == customName.value
    ensures customName.None? ==> |filename| >= |Extension| && filename[|filename| - |Extension|..] == Extension
  {
    match customName
    case Some(name) => name
    case None =>
      var name := DerivedName(content);
      if name in existing || |name| < 1 then id + Extension else name + Extension
  }

  /**
    Without a custom name, and with a fresh id that differs from the
    derived name, the file is named after the id exactly when the derived
    name is empty or something of that bare name exists.
   */
  lemma DefaultFilename(content: string, existing: set<string>, id: string)
    requires id != DerivedName(content)
    ensures Filename(None, content, existing, id) == id + Extension
        <==> (DerivedName(content) == [] || DerivedName(content) in existing)
  {
  }

  /**
    Without a custom name the fresh id shapes the file name exactly when
    the derived name is empty or something of that bare name exists.
   */
  lemma FreshIdUsedExactlyWhen(content: string, existing: set<string>)
    ensures (forall id1: string, id2: string ::
               Filename(None, content, existing, id1) == Filename(None, content, existing, id2))
        <==> (DerivedName(content) != [] && DerivedName(content) !in existing)
  {
    var name := DerivedName(content);
    if name == [] || name in existing {
      assert Filename(None, content, existing, "a")[0] == 'a';
      assert Filename(None, content, existing, "b")[0] == 'b';
    }
  }

  /** "# My Great Guide" with nothing of the derived name present is saved as "my-great-guide.md". */
  lemma HeadingScenario(rest: string, existing: set<string>, id: string)
    requires "my-great-guide" !in existing
    ensures Filename(None, HeadingMarker + ("My Great Guide" + "\n" + rest), existing, id) == "my-great-guide.md"
  {
    MyGreatGuideName(rest);
    MyGreatGuideFile();
  }

  // The steps of HeadingScenario, one per stage of the derivation.

  lemma MyGreatGuideName(rest: string)
    ensures DerivedName(HeadingMarker + ("My Great Guide" + "\n" + rest)) == "my-great-guide"
  {
    MyGreatGuideHasNoMarker();
    HeadingLineName("My Great Guide", rest);
    HyphenateMyGreatGuide();
    LowerMyGreatGuide();
  }

  lemma MyGreatGuideHasNoMarker()
    ensures !Contains("My Great Guide", HeadingMarker)
  {
    AbsentWithoutFirst("My Great Guide", HeadingMarker);
  }

  lemma HyphenateMyGreatGuide()
    ensures ReplaceAll("My Great Guide", " ", "-") == "My-Great-Guide"
  {
    ReplaceCharAt("My Great Guide", ' ', '-');
    var r := ReplaceAll("My Great Guide", " ", "-");
    forall k | 0 <= k < 14 ensures r[k] == "My-Great-Guide"[k] {}
  }

  lemma LowerMyGreatGuide()
    ensures ToLowerAscii("My-Great-Guide") == "my-great-guide"
  {
    var r := ToLowerAscii("My-Great-Guide");
    forall k | 0 <= k < 14 ensures r[k] == "my-great-guide"[k] {}
  }

  lemma MyGreatGuideFile()
    ensures "my-great-guide" + Extension == "my-great-guide.md"
  {
  }

  /** An empty document always falls back to the fresh id. */
  lemma EmptyDocumentScenario(existing: set<string>, id: string)
    ensures Filename(None, "", existing, id) == id + Extension
  {
  }

  // ---------------------------------------------------------------------
  // Document composition
  // ---------------------------------------------------------------------

  /** The line naming the video, followed by two blank lines. */
  function Header(url: string): string
  {
    UrlLabel + url + HeaderSeparator
  }

  /** The text written: the document alone, or the URL header in front of it. */
  function Compose(content: string, url: Option<string>): (output: string)
    ensures url.None? ==> output == content
    ensures url.Some? ==> Header(url.value) <= output && output[|Header(url.value)|..] == content
    ensures url.Some? ==> |output| == |UrlLabel| + |url.value| + |HeaderSeparator| + |content|
  {
    match url
    case None => content
    case Some(u) => Header(u) + content
  }

  /** The document under a URL header, or nothing when the header is not there. */
  function StripHeader(output: string, url: string): Option<string>
  {
    var h := Header(url);
    if h <= output then Some(output[|h|..]) else None
  }

  /** Stripping the header from a composed text gives the document back, and only composed texts have a header. */
  lemma StripHeaderInvertsCompose(content: string, output: string, url: string)
    ensures StripHeader(Compose(content, Some(url)), url) == Some(content)
    ensures StripHeader(output, url) == Some(content) <==> Compose(content, Some(url)) == output
  {
  }

  // ---------------------------------------------------------------------
  // Path and effects
  // ---------------------------------------------------------------------

  /** The target path: the file name joined onto the folder, or the file name alone. */
  function ResolvePath(folder: Option<string>, filename: string): (path: string)
    ensures |filename| <= |path| && path[|path| - |filename|..] == filename
    ensures folder.None? ==> path == filename
  {
    match folder
    case Some(f) => Join(f, filename)
    case None => filename
  }

  /** Whatever the folder, a file name without '/' is the last segment of the path. */
  lemma ResolveKeepsFileName(folder: Option<string>, filename: string)
    requires '/' !in filename
    ensures LastSegment(ResolvePath(folder, filename)) == filename
  {
    match folder
    case Some(f) => JoinKeepsFileName(f, filename);
    case None =>
      LastSegmentAfterSlash([], filename);
      assert [] + filename == filename;
  }

  /**
    The existence check looks at the bare derived name only: a file
    already at the very path the document will be written to, with its
    extension and under its folder, does not change the choice, and the
    save then overwrites it.
   */
  lemma ExistingTargetNotDetected(content: string, existing: set<string>, folder: Option<string>, id: string)
    requires DerivedName(content) != [] && DerivedName(content) !in existing
    ensures var filename := DerivedName(content) + Extension;
      Filename(None, content, existing + {ResolvePath(folder, filename)}, id) == filename
  {
  }

  /**
    `prepare_folder`: creates the folder only when nothing exists at that
    path; whenever it succeeds it gives the folder back unchanged.
   */
  method PrepareFolder(fs: FileSystem, folder: string) returns (r: Result<string, SaveError>)
    modifies fs
    ensures fs.files == old(fs.files)
    ensures old(fs.Exists(folder)) ==> r == Ok(folder) && fs.dirs == old(fs.dirs)
    ensures !old(fs.Exists(folder)) && folder in fs.denied ==>
              r == Err(CreateDirFailed(folder)) && fs.dirs == old(fs.dirs)
    ensures !old(fs.Exists(folder)) && folder !in fs.denied ==>
              r == Ok(folder) && fs.dirs == old(fs.dirs) + {folder}
    ensures r.Ok? ==> r.value == folder && fs.Exists(folder)
  {
    if !fs.Exists(folder) {
      var ok := fs.CreateDirAll(folder);
      if !ok {
        return Err(CreateDirFailed(folder));
      }
    }
    r := Ok(folder);
  }

  /**
    `save`: chooses the file name from the document as it came in and
    from what exists before anything is created, puts the URL header in
    front, prepares the folder, and writes the file. `shown` is the path
    it reports, which it does once the folder is ready, even if the write
    then fails.
   */
  method Save(fs: FileSystem, config: SaverConfig, content: string, id: string)
    returns (result: Result<(), SaveError>, shown: Option<string>)
    modifies fs
    ensures var filename := Filename(config.customName, content, old(fs.Existing()), id);
            var path := ResolvePath(config.folder, filename);
            var create := config.folder.Some? && !old(fs.Exists(config.folder.value));
            if create && config.folder.value in fs.denied then
              result == Err(CreateDirFailed(config.folder.value)) && shown == None
              && fs.files == old(fs.files) && fs.dirs == old(fs.dirs)
            else
              var dirs := if create then old(fs.dirs) + {config.folder.value} else old(fs.dirs);
              var written := path !in fs.denied && path !in dirs;
              shown == Some(path) && fs.dirs == dirs
              && result == (if written then Ok(()) else Err(WriteFailed))
              && fs.files == if written then old(fs.files)[path := Compose(content, config.url)] else old(fs.files)
  {
    var output := content;
    var filename := Filename(config.customName, content, fs.Existing(), id);
    if config.url.Some? {
      output := Header(config.url.value) + output;
    }
    var path: string;
    match config.folder {
      case Some(folder) =>
        var prepared := PrepareFolder(fs, folder);
        if prepared.Err? {
          return Err(prepared.error), None;
        }
        path := Join(folder, filename);
      case None =>
        path := filename;
    }
    var ok := fs.Write(path, output);
    shown := Some(path);
    result := if ok then Ok(()) else Err(WriteFailed);
  }
}
