/** The decision logic of the desktop window (src/App.tsx): file classification
    by extension, the drop decision, the display name of a path, the bounded
    install log, the folds over what the sidecar prints, and the default preset
    selection. React state becomes fields of `AppState` or `PresetPicker`; a
    sidecar process becomes the sequence of lines it prints and its exit code. */
module App {
  import opened Wrappers
  import opened Seqs
  import opened Text
  import Presets

  // ---------------------------------------------------------------------------
  // File classification (src/App.tsx:21-35)

  const VideoExts: seq<string> := ["mp4", "mkv", "avi", "mov", "flv", "wmv", "webm", "m4v"]
  const AudioExts: seq<string> := ["mp3", "wav", "flac", "m4a", "aac", "ogg", "wma"]

  /** No extension is both a video and an audio extension. */
  lemma {:induction false} ExtListsDisjoint()
    ensures forall e :: e in VideoExts ==> e !in AudioExts
  {
  }

  /** `getFileExt`: the lower-cased text after the last dot, or "" without a dot. */
  function GetFileExt(path: string): (r: string)
    ensures '.' !in path ==> r == ""
  {
    var dot := LastIndexOf(path, '.');
    if dot >= 0 then ToLower(path[dot + 1..]) else ""
  }

  /** Lower-casing neither adds nor removes dots. */
  lemma {:induction false} LowerKeepsDots(s: string)
    ensures '.' in ToLower(s) <==> '.' in s
  {
    var r := ToLower(s);
    assert forall c :: LowerChar(c) == '.' <==> c == '.';
    if '.' in s {
      var i :| 0 <= i < |s| && s[i] == '.';
      assert r[i] == '.';
    }
    if '.' in r {
      var i :| 0 <= i < |r| && r[i] == '.';
      assert s[i] == '.';
    }
  }

  /** Lower-casing twice is lower-casing once. */
  lemma {:induction false} ToLowerIdempotent(s: string)
    ensures ToLower(ToLower(s)) == ToLower(s)
  {
    assert forall c :: LowerChar(LowerChar(c)) == LowerChar(c);
  }

  /** The extension of `stem.ext`, for an `ext` without dots, is `ext` lower-cased,
      whatever dots the stem holds. */
  lemma {:induction false} GetFileExtOfName(stem: string, ext: string)
    requires '.' !in ext
    ensures GetFileExt(stem + "." + ext) == ToLower(ext)
  {
    var s := stem + "." + ext;
    assert s[|stem|] == '.';
    assert forall i :: |stem| < i < |s| ==> s[i] == ext[i - |stem| - 1];
    assert LastIndexOf(s, '.') == |stem|;
    assert s[|stem| + 1..] == ext;
  }

  datatype FileType = Video | Audio | Unknown

  /** `xs.includes(x)`. */
  function Includes(xs: seq<string>, x: string): bool {
    if xs == [] then false else xs[0] == x || Includes(xs[1..], x)
  }

  lemma {:induction false} IncludesIff(xs: seq<string>, x: string)
    ensures Includes(xs, x) <==> x in xs
  {
    if xs != [] {
      IncludesIff(xs[1..], x);
      assert xs == [xs[0]] + xs[1..];
    }
  }

  /** The type an extension stands for: video first, then audio. */
  function ExtType(ext: string): FileType {
    if Includes(VideoExts, ext) then Video else if Includes(AudioExts, ext) then Audio else Unknown
  }

  /** `classifyFile`. */
  function ClassifyFile(path: string): FileType {
    ExtType(GetFileExt(path))
  }

  /** An extension is a video one exactly when it is in the video list, and an
      audio one exactly when it is in the audio list; the empty extension of a
      dotless path is neither. */
  lemma {:induction false} ExtTypeSpec(ext: string)
    ensures ExtType(ext) == Video <==> ext in VideoExts
    ensures ExtType(ext) == Audio <==> ext in AudioExts
    ensures ext == "" ==> ExtType(ext) == Unknown
  {
    ExtListsDisjoint();
    IncludesIff(VideoExts, ext);
    IncludesIff(AudioExts, ext);
  }

  /** The type of `stem.ext`, for an `ext` without dots, is that of `ext`
      lower-cased, whatever the stem; a path without a dot is unsupported. */
  lemma {:induction false} ClassifyByExtension(stem: string, ext: string, dotless: string)
    requires '.' !in ext && '.' !in dotless
    ensures ClassifyFile(stem + "." + ext) == ExtType(ToLower(ext))
    ensures ClassifyFile(dotless) == Unknown
  {
    GetFileExtOfName(stem, ext);
    ExtTypeSpec("");
  }

  // ---------------------------------------------------------------------------
  // The drop decision (src/App.tsx:324-370)

  /** One entry of `classified`: a dropped path with its type. */
  datatype Classified = Classified(path: string, kind: FileType)

  /** `paths.map((p) => ({ path: p, type: classifyFile(p) }))`. */
  function Classify(paths: seq<string>): (r: seq<Classified>)
    ensures |r| == |paths|
    ensures forall i :: 0 <= i < |r| ==> r[i].path == paths[i] && r[i].kind == ClassifyFile(paths[i])
  {
    seq(|paths|, i requires 0 <= i < |paths| => Classified(paths[i], ClassifyFile(paths[i])))
  }

  predicate IsSupported(c: Classified) {
    c.kind != Unknown
  }

  /** `c.path` for every entry. */
  function PathsOf(cs: seq<Classified>): (r: seq<string>)
    ensures |r| == |cs| && forall i :: 0 <= i < |cs| ==> r[i] == cs[i].path
  {
    seq(|cs|, i requires 0 <= i < |cs| => cs[i].path)
  }

  /** Some entry has type `t`. */
  predicate HasType(cs: seq<Classified>, t: FileType) {
    exists i :: 0 <= i < |cs| && cs[i].kind == t
  }

  /** A value of the `binaries` record: a presence flag, or the package
      manager's name under `pm`. */
  datatype BinaryValue = Flag(present: bool) | PmName(name: string)

  /** `binaries[key]` as a condition: a missing key, `false` and "" are falsy. */
  predicate Truthy(binaries: map<string, BinaryValue>, key: string) {
    key in binaries &&
    match binaries[key]
    case Flag(b) => b
    case PmName(s) => s != ""
  }

  const NoSupportedFiles := "No supported video or audio files found in the dropped items."
  const MixedTypes := "Mixed file types detected. Please drop either only video files or only audio files, not both."
  const NoHandBrake := "HandBrakeCLI is not installed. Cannot compress video files."
  const NoFfmpeg := "ffmpeg is not installed. Cannot compress audio files."

  datatype Drop = DropError(message: string) | DropAccepted(fileType: FileType, paths: seq<string>)

  /** What `handleDroppedFiles` decides on the classified drop, step by step
      as the source does: keep the supported entries, reject none or more than
      one type (`types.size > 1`), then require the encoder of that type. */
  function Decide(classified: seq<Classified>, binaries: map<string, BinaryValue>): (r: Drop)
    ensures r.DropAccepted? ==> r.paths == PathsOf(Filter(classified, IsSupported)) && r.paths != []
    ensures r.DropAccepted? ==> forall c :: c in classified && c.kind != Unknown ==> c.kind == r.fileType
    ensures r.DropAccepted? ==>
      (r.fileType == Video && Truthy(binaries, "HandBrakeCLI")) || (r.fileType == Audio && Truthy(binaries, "ffmpeg"))
  {
    var supported := Filter(classified, IsSupported);
    if |supported| == 0 then DropError(NoSupportedFiles)
    else if exists i :: 0 <= i < |supported| && supported[i].kind != supported[0].kind then DropError(MixedTypes)
    else
      var fileType := supported[0].kind;
      assert fileType != Unknown by {
        assert supported[0] in supported;
      }
      assert forall c :: c in classified && c.kind != Unknown ==> c.kind == fileType by {
        forall c | c in classified && c.kind != Unknown ensures c.kind == fileType {
          assert c in supported;
          var i :| 0 <= i < |supported| && supported[i] == c;
        }
      }
      if fileType == Video then
        if !Truthy(binaries, "HandBrakeCLI") then DropError(NoHandBrake) else DropAccepted(Video, PathsOf(supported))
      else
        if !Truthy(binaries, "ffmpeg") then DropError(NoFfmpeg) else DropAccepted(Audio, PathsOf(supported))
  }

  /** `handleDroppedFiles` on the dropped paths. */
  function DropDecision(paths: seq<string>, binaries: map<string, BinaryValue>): Drop {
    Decide(Classify(paths), binaries)
  }

  /** A supported type occurs among all entries exactly when it occurs among
      the supported ones. */
  lemma {:induction false} SupportedTypes(cs: seq<Classified>, t: FileType)
    requires t != Unknown
    ensures HasType(cs, t) <==> HasType(Filter(cs, IsSupported), t)
  {
    var supported := Filter(cs, IsSupported);
    if HasType(cs, t) {
      var i :| 0 <= i < |cs| && cs[i].kind == t;
      assert cs[i] in cs;
      assert cs[i] in supported;
      var j :| 0 <= j < |supported| && supported[j] == cs[i];
    }
    if HasType(supported, t) {
      var j :| 0 <= j < |supported| && supported[j].kind == t;
      assert supported[j] in supported;
      var i :| 0 <= i < |cs| && cs[i] == supported[j];
    }
  }

  /** Each outcome of a drop, characterised by the types present: nothing
      supported, both types, a missing encoder, or acceptance. */
  lemma {:induction false} DropOutcomes(classified: seq<Classified>, binaries: map<string, BinaryValue>)
    ensures Decide(classified, binaries) == DropError(NoSupportedFiles) <==>
      !HasType(classified, Video) && !HasType(classified, Audio)
    ensures Decide(classified, binaries) == DropError(MixedTypes) <==>
      HasType(classified, Video) && HasType(classified, Audio)
    ensures Decide(classified, binaries) == DropError(NoHandBrake) <==>
      HasType(classified, Video) && !HasType(classified, Audio) && !Truthy(binaries, "HandBrakeCLI")
    ensures Decide(classified, binaries) == DropError(NoFfmpeg) <==>
      !HasType(classified, Video) && HasType(classified, Audio) && !Truthy(binaries, "ffmpeg")
    ensures Decide(classified, binaries).DropAccepted? <==>
      (HasType(classified, Video) && !HasType(classified, Audio) && Truthy(binaries, "HandBrakeCLI")) ||
      (!HasType(classified, Video) && HasType(classified, Audio) && Truthy(binaries, "ffmpeg"))
  {
    var supported := Filter(classified, IsSupported);
    SupportedTypes(classified, Video);
    SupportedTypes(classified, Audio);
    assert NoSupportedFiles != MixedTypes && NoSupportedFiles != NoHandBrake && NoSupportedFiles != NoFfmpeg;
    assert MixedTypes != NoHandBrake && MixedTypes != NoFfmpeg && NoHandBrake != NoFfmpeg;
    if |supported| > 0 {
      assert supported[0] in supported;
      var t0 := supported[0].kind;
      if exists i :: 0 <= i < |supported| && supported[i].kind != t0 {
        var i :| 0 <= i < |supported| && supported[i].kind != t0;
        assert supported[i] in supported;
        assert HasType(supported, Video) && HasType(supported, Audio);
      } else {
        assert HasType(supported, t0);
      }
    }
  }

  /** The paths an accepted drop keeps are the supported dropped paths, in
      their original order. */
  lemma {:induction false} AcceptedKeepsOrder(classified: seq<Classified>, binaries: map<string, BinaryValue>)
    requires Decide(classified, binaries).DropAccepted?
    ensures IsSubsequence(Decide(classified, binaries).paths, PathsOf(classified))
    ensures forall p :: p in Decide(classified, binaries).paths <==>
      exists i :: 0 <= i < |classified| && classified[i].path == p && classified[i].kind != Unknown
  {
    var supported := Filter(classified, IsSupported);
    FilterIsSubsequence(classified, IsSupported);
    PathsOfSubsequence(supported, classified);
    forall p ensures p in PathsOf(supported) <==>
      exists i :: 0 <= i < |classified| && classified[i].path == p && classified[i].kind != Unknown
    {
      if p in PathsOf(supported) {
        var i :| 0 <= i < |supported| && supported[i].path == p;
        assert supported[i] in supported;
        var j :| 0 <= j < |classified| && classified[j] == supported[i];
      }
      if exists i :: 0 <= i < |classified| && classified[i].path == p && classified[i].kind != Unknown {
        var j :| 0 <= j < |classified| && classified[j].path == p && classified[j].kind != Unknown;
        assert classified[j] in classified;
        assert classified[j] in supported;
        var i :| 0 <= i < |supported| && supported[i] == classified[j];
        assert PathsOf(supported)[i] == p;
      }
    }
  }

  /** Taking the paths keeps a subsequence a subsequence. */
  lemma {:induction false} PathsOfSubsequence(a: seq<Classified>, b: seq<Classified>)
    requires IsSubsequence(a, b)
    ensures IsSubsequence(PathsOf(a), PathsOf(b))
    decreases |b|
  {
    if a != [] && b != [] {
      assert PathsOf(b)[1..] == PathsOf(b[1..]);
      if a[0] == b[0] {
        assert PathsOf(a)[1..] == PathsOf(a[1..]);
        PathsOfSubsequence(a[1..], b[1..]);
      } else {
        PathsOfSubsequence(a, b[1..]);
        if PathsOf(a)[0] == PathsOf(b)[0] {
          SubsequenceDropHead(PathsOf(a), PathsOf(b[1..]), PathsOf(b)[0]);
        }
      }
    }
  }

  /** Unsupported paths are dropped silently: adding them to a drop changes
      nothing. */
  lemma {:induction false} UnknownPathsIgnored(classified: seq<Classified>, unknown: seq<Classified>, binaries: map<string, BinaryValue>)
    requires forall i :: 0 <= i < |unknown| ==> unknown[i].kind == Unknown
    ensures Decide(classified + unknown, binaries) == Decide(classified, binaries)
  {
    FilterAppend(classified, unknown, IsSupported);
    FilterAllOrNothing(unknown, IsSupported);
    var kept := Filter(classified + unknown, IsSupported);
    assert kept == Filter(classified, IsSupported) + [];
    assert kept == Filter(classified, IsSupported);
  }

  /** Classifying distributes over concatenation of drops. */
  lemma {:induction false} ClassifyAppend(a: seq<string>, b: seq<string>)
    ensures Classify(a + b) == Classify(a) + Classify(b)
  {
  }

  datatype Mode = Home | VideoMode | AudioMode

  /** The part of the window's state a drop touches. */
  class AppState {
    var mode: Mode
    var binaries: map<string, BinaryValue>
    var videoFiles: seq<string>
    var audioFiles: seq<string>
    var dragError: Option<string>

    constructor (binaries: map<string, BinaryValue>)
      ensures this.binaries == binaries
      ensures mode == Home && videoFiles == [] && audioFiles == [] && dragError == None
    {
      this.binaries := binaries;
      mode := Home;
      videoFiles := [];
      audioFiles := [];
      dragError := None;
    }

    /** `handleDroppedFiles`; `loadPresets` tells whether the preset list is
        requested, which the source does on every accepted video drop. */
    method HandleDroppedFiles(paths: seq<string>) returns (loadPresets: bool)
      modifies this
      ensures binaries == old(binaries)
      ensures var d := DropDecision(paths, binaries);
        d.DropError? ==> (dragError == Some(d.message) && !loadPresets &&
          mode == old(mode) && videoFiles == old(videoFiles) && audioFiles == old(audioFiles))
      ensures var d := DropDecision(paths, binaries);
        d.DropAccepted? && d.fileType == Video ==> (dragError == None && loadPresets &&
          mode == VideoMode && videoFiles == d.paths && audioFiles == old(audioFiles))
      ensures var d := DropDecision(paths, binaries);
        d.DropAccepted? && d.fileType == Audio ==> (dragError == None && !loadPresets &&
          mode == AudioMode && audioFiles == d.paths && videoFiles == old(videoFiles))
    {
      var classified := Classify(paths);
      loadPresets := HandleClassified(classified);
    }

    /** The body of `handleDroppedFiles` after `paths.map(...)`. */
    method HandleClassified(classified: seq<Classified>) returns (loadPresets: bool)
      modifies this
      ensures binaries == old(binaries)
      ensures var d := Decide(classified, binaries);
        d.DropError? ==> (dragError == Some(d.message) && !loadPresets &&
          mode == old(mode) && videoFiles == old(videoFiles) && audioFiles == old(audioFiles))
      ensures var d := Decide(classified, binaries);
        d.DropAccepted? && d.fileType == Video ==> (dragError == None && loadPresets &&
          mode == VideoMode && videoFiles == d.paths && audioFiles == old(audioFiles))
      ensures var d := Decide(classified, binaries);
        d.DropAccepted? && d.fileType == Audio ==> (dragError == None && !loadPresets &&
          mode == AudioMode && audioFiles == d.paths && videoFiles == old(videoFiles))
    {
      dragError := None;
      loadPresets := false;
      var supported := Filter(classified, IsSupported);
      if |supported| == 0 {
        dragError := Some(NoSupportedFiles);
        return;
      }
      var mixed := exists i :: 0 <= i < |supported| && supported[i].kind != supported[0].kind;
      if mixed {
        dragError := Some(MixedTypes);
        return;
      }
      var fileType := supported[0].kind;
      var filePaths := PathsOf(supported);
      assert supported[0] in supported;
      if fileType == Video {
        if !Truthy(binaries, "HandBrakeCLI") {
          dragError := Some(NoHandBrake);
          return;
        }
        videoFiles := filePaths;
        mode := VideoMode;
        loadPresets := true;
      } else if fileType == Audio {
        if !Truthy(binaries, "ffmpeg") {
          dragError := Some(NoFfmpeg);
          return;
        }
        audioFiles := filePaths;
        mode := AudioMode;
      }
    }
  }

  // ---------------------------------------------------------------------------
  // Display name of a path (src/App.tsx:512-516)

  /** The separator `fileName` splits on: `\` when the path holds one, else `/`. */
  function Separator(p: string): char {
    if '\\' in p then '\\' else '/'
  }

  /** `p.split(sep).pop() ?? p`; `split` never returns an empty array, so the
      fallback is never taken. */
  function FileName(p: string): (r: string)
    ensures Separator(p) !in r
    ensures r == p[LastIndexOf(p, Separator(p)) + 1..]
  {
    var sep := Separator(p);
    SplitLast(p, sep);
    LastOf(Split(p, sep))
  }

  function LastOf(parts: seq<string>): string
    requires |parts| >= 1
  {
    parts[|parts| - 1]
  }

  /** Where the last occurrence of `c` in `s` lies relative to that in `s[1..]`. */
  lemma {:induction false} LastIndexOfTail(s: string, c: char)
    requires s != []
    ensures c in s[1..] ==> LastIndexOf(s, c) == LastIndexOf(s[1..], c) + 1
    ensures c !in s[1..] ==> LastIndexOf(s, c) == if s[0] == c then 0 else -1
  {
    var k := LastIndexOf(s, c);
    var j := LastIndexOf(s[1..], c);
    if c in s[1..] {
      assert s[j + 1] == c;
      if k >= 1 {
        assert s[1..][k - 1] == c;
      }
    } else {
      assert forall i :: 1 <= i < |s| ==> s[i] == s[1..][i - 1];
    }
  }

  /** The last piece of `split` is what follows the last separator. */
  lemma {:induction false} SplitLast(s: string, sep: char)
    ensures LastOf(Split(s, sep)) == s[LastIndexOf(s, sep) + 1..]
  {
    if s != [] {
      SplitLast(s[1..], sep);
      if s[0] == sep {
        SplitLastAtSeparator(s, sep);
      } else if |Split(s[1..], sep)| == 1 {
        SplitLastNoSeparator(s, sep);
      } else {
        SplitLastLater(s, sep);
      }
    }
  }

  /** `SplitLast` when `s` starts with the separator. */
  lemma {:induction false} SplitLastAtSeparator(s: string, sep: char)
    requires s != [] && s[0] == sep
    requires LastOf(Split(s[1..], sep)) == s[1..][LastIndexOf(s[1..], sep) + 1..]
    ensures LastOf(Split(s, sep)) == s[LastIndexOf(s, sep) + 1..]
  {
    LastIndexOfTail(s, sep);
    var rest := Split(s[1..], sep);
    var j := LastIndexOf(s[1..], sep);
    assert Split(s, sep) == [""] + rest;
    assert s[1..][j + 1..] == s[j + 2..];
  }

  /** `SplitLast` when the separator does not occur at all. */
  lemma {:induction false} SplitLastNoSeparator(s: string, sep: char)
    requires s != [] && s[0] != sep && |Split(s[1..], sep)| == 1
    requires LastOf(Split(s[1..], sep)) == s[1..][LastIndexOf(s[1..], sep) + 1..]
    ensures LastOf(Split(s, sep)) == s[LastIndexOf(s, sep) + 1..]
  {
    SplitCount(s[1..], sep);
    LastIndexOfTail(s, sep);
    var rest := Split(s[1..], sep);
    assert LastIndexOf(s[1..], sep) == -1;
    assert rest[0] == LastOf(rest) == s[1..];
    assert LastIndexOf(s, sep) == -1;
    assert Split(s, sep) == [[s[0]] + rest[0]];
    assert [s[0]] + s[1..] == s[0..];
  }

  /** `SplitLast` when the separator occurs after the first character. */
  lemma {:induction false} SplitLastLater(s: string, sep: char)
    requires s != [] && s[0] != sep && |Split(s[1..], sep)| > 1
    requires LastOf(Split(s[1..], sep)) == s[1..][LastIndexOf(s[1..], sep) + 1..]
    ensures LastOf(Split(s, sep)) == s[LastIndexOf(s, sep) + 1..]
  {
    SplitCount(s[1..], sep);
    LastIndexOfTail(s, sep);
    var rest := Split(s[1..], sep);
    var j := LastIndexOf(s[1..], sep);
    assert LastOf(Split(s, sep)) == LastOf(rest);
    assert s[1..][j + 1..] == s[j + 2..];
  }

  /** `split` gives more than one piece exactly when the separator occurs. */
  lemma {:induction false} SplitCount(s: string, sep: char)
    ensures |Split(s, sep)| > 1 <==> sep in s
  {
    if s != [] {
      SplitCount(s[1..], sep);
      assert sep in s <==> s[0] == sep || sep in s[1..];
    }
  }

  /** The name `path.join` puts after a directory is the name shown, when
      neither holds a backslash and the name holds no slash. */
  lemma {:induction false} FileNameOfJoinPath(dir: string, name: string)
    requires '\\' !in dir && '\\' !in name && '/' !in name
    ensures FileName(JoinPath(dir, name)) == name
  {
    var p := JoinPath(dir, name);
    assert '\\' !in p by {
      assert forall i :: 0 <= i < |p| ==> p[i] != '\\' by {
        forall i | 0 <= i < |p| ensures p[i] != '\\' {
          if i < |dir| { assert p[i] == dir[i]; }
          else if i > |dir| { assert p[i] == name[i - |dir| - 1]; }
        }
      }
    }
    assert forall i :: |dir| < i < |p| ==> p[i] == name[i - |dir| - 1];
    assert LastIndexOf(p, '/') == |dir|;
  }

  /** A Windows path shows its last component. */
  lemma {:induction false} FileNameOfWindowsPath(dir: string, name: string)
    requires '\\' !in name
    ensures FileName(dir + "\\" + name) == name
  {
    var p := dir + "\\" + name;
    assert p[|dir|] == '\\';
    assert forall i :: |dir| < i < |p| ==> p[i] == name[i - |dir| - 1];
    assert LastIndexOf(p, '\\') == |dir|;
    assert p[|dir| + 1..] == name;
  }

  // ---------------------------------------------------------------------------
  // The install log (src/App.tsx:275, 294)

  /** `xs.slice(-n)` for a positive `n`: the last `n` elements, or all of them
      when there are fewer. */
  function LastN(xs: seq<string>, n: nat): (r: seq<string>)
    ensures |r| == if |xs| < n then |xs| else n
    ensures r == xs[|xs| - |r|..]
  {
    if |xs| <= n then xs else xs[|xs| - n..]
  }

  /** How many earlier lines `slice(-50)` keeps. */
  const LogKept := 50

  /** The setter `prev => [...prev.slice(-50), line]`. */
  function AppendLog(prev: seq<string>, line: string): (r: seq<string>)
    ensures 1 <= |r| <= LogKept + 1 && r[|r| - 1] == line
    ensures r == LastN(prev + [line], LogKept + 1)
  {
    var r := LastN(prev, LogKept) + [line];
    assert r == (prev + [line])[|prev| + 1 - |r|..];
    r
  }

  /** Keeping the last `n`, appending, and keeping the last `n` again is
      appending then keeping the last `n`. */
  lemma {:induction false} LastNSnoc(xs: seq<string>, x: string, n: nat)
    requires n >= 1
    ensures LastN(LastN(xs, n) + [x], n) == LastN(xs + [x], n)
  {
    var a := LastN(LastN(xs, n) + [x], n);
    var b := LastN(xs + [x], n);
    assert |a| == |b|;
    forall i | 0 <= i < |a| ensures a[i] == b[i] {
      if i == |a| - 1 {
      } else {
        assert a[i] == LastN(xs, n)[|LastN(xs, n)| + 1 - |a| + i];
      }
    }
  }

  /** The log after appending `lines` one at a time to `prev`. */
  function AppendLogs(prev: seq<string>, lines: seq<string>): seq<string>
    decreases |lines|
  {
    if lines == [] then prev else AppendLog(AppendLogs(prev, lines[..|lines| - 1]), lines[|lines| - 1])
  }

  /** One more line is one more `AppendLog`. */
  lemma {:induction false} AppendLogsSnoc(prev: seq<string>, init: seq<string>, x: string)
    ensures AppendLogs(prev, init + [x]) == AppendLog(AppendLogs(prev, init), x)
  {
    var lines := init + [x];
    assert lines[..|lines| - 1] == init;
  }

  /** The step of `LogIsLastLines`: a log that holds the last lines still
      does after one more. */
  lemma {:induction false} LogKeepsLastLines(prev: seq<string>, init: seq<string>, x: string)
    requires AppendLogs(prev, init) == LastN(prev + init, LogKept + 1)
    ensures AppendLogs(prev, init + [x]) == LastN(prev + (init + [x]), LogKept + 1)
  {
    AppendLogsSnoc(prev, init, x);
    LastNSnoc(prev + init, x, LogKept + 1);
    assert prev + (init + [x]) == (prev + init) + [x];
  }

  /** However many lines arrive, the log holds the last 51 of everything
      seen, oldest first. */
  lemma {:induction false} LogIsLastLines(prev: seq<string>, lines: seq<string>)
    requires lines != []
    ensures AppendLogs(prev, lines) == LastN(prev + lines, LogKept + 1)
    decreases |lines|
  {
    var init := lines[..|lines| - 1];
    var x := lines[|lines| - 1];
    assert lines == init + [x];
    if init == [] {
      AppendLogsSnoc(prev, init, x);
    } else {
      LogIsLastLines(prev, init);
      LogKeepsLastLines(prev, init, x);
    }
  }

  // ---------------------------------------------------------------------------
  // Promise settlement and exit codes

  /** The state of a promise: the first `resolve` or `reject` wins. */
  datatype Settlement<T> = Pending | Resolved(value: T) | Rejected(message: string)

  function Settle<T>(s: Settlement<T>, next: Settlement<T>): (r: Settlement<T>)
    ensures s.Pending? ==> r == next
    ensures !s.Pending? ==> r == s
  {
    if s.Pending? then next else s
  }

  /** `${data.code}`: None stands for a `null` code (a process ended by a signal). */
  function CodeText(code: Option<int>): string {
    match code
    case None => "null"
    case Some(n) => IntText(n)
  }

  /** `line.trim()` is empty, and the line is skipped before parsing. */
  predicate Blank(line: string) {
    Trim(line) == ""
  }

  // ---------------------------------------------------------------------------
  // Installing a dependency (src/App.tsx:263-314)

  /** What `JSON.parse` gives for an install line, by its `type`. */
  datatype InstallEvent =
    | InstallLogEvent(line: string)
    | InstallDoneEvent(success: bool, error: Option<string>)
    | InstallErrorEvent(message: string)
    | OtherInstallEvent

  /** A line of the installer's standard output or standard error. */
  datatype Output = Stdout(line: string) | Stderr(line: string)

  /** The lines one output adds to the log: every standard-error line, and
      the text of an `install_log` event. `parse` is `JSON.parse` with the
      switch on `type`; None stands for text that is not JSON. */
  function LogOf(o: Output, parse: string -> Option<InstallEvent>): (r: seq<string>)
    ensures |r| <= 1
  {
    match o
    case Stderr(line) => [line]
    case Stdout(line) =>
      if Blank(line) then []
      else match parse(line)
        case Some(InstallLogEvent(text)) => [text]
        case _ => []
  }

  /** Every line the log receives, in arrival order. */
  function LogLines(outs: seq<Output>, parse: string -> Option<InstallEvent>): seq<string>
    decreases |outs|
  {
    if outs == [] then [] else LogLines(outs[..|outs| - 1], parse) + LogOf(outs[|outs| - 1], parse)
  }

  /** The settlement one output asks for, if any. */
  function InstallSettlement(o: Output, parse: string -> Option<InstallEvent>): Option<Settlement<()>> {
    match o
    case Stderr(_) => None
    case Stdout(line) =>
      if Blank(line) then None
      else match parse(line)
        case Some(InstallDoneEvent(success, error)) =>
          Some(if success then Resolved(()) else Rejected(match error case Some(e) => e case None => "Installation failed"))
        case Some(InstallErrorEvent(message)) => Some(Rejected(message))
        case _ => None
  }

  /** The install promise after the outputs, before the process closes. */
  function InstallOutcome(outs: seq<Output>, parse: string -> Option<InstallEvent>): Settlement<()>
    decreases |outs|
  {
    if outs == [] then Pending
    else
      var s := InstallOutcome(outs[..|outs| - 1], parse);
      match InstallSettlement(outs[|outs| - 1], parse)
      case None => s
      case Some(next) => Settle(s, next)
  }

  /** The `close` handler: a non-zero (or null) code rejects; code 0 settles nothing. */
  function InstallClose(s: Settlement<()>, code: Option<int>): Settlement<()> {
    if code != Some(0) then Settle(s, Rejected("Install process exited with code " + CodeText(code))) else s
  }

  /** The folds over one more output. */
  lemma {:induction false} InstallPrefixStep(outs: seq<Output>, i: nat, parse: string -> Option<InstallEvent>)
    requires i < |outs|
    ensures LogLines(outs[..i + 1], parse) == LogLines(outs[..i], parse) + LogOf(outs[i], parse)
    ensures InstallOutcome(outs[..i + 1], parse) ==
      match InstallSettlement(outs[i], parse) case None => InstallOutcome(outs[..i], parse) case Some(next) => Settle(InstallOutcome(outs[..i], parse), next)
  {
    assert outs[..i + 1][..i] == outs[..i];
  }

  /** The kept log after at most one more line. */
  lemma {:induction false} LogAfterOutput(before: seq<string>, added: seq<string>)
    requires |added| <= 1
    ensures LastN(before + added, LogKept + 1) ==
      if added == [] then LastN(before, LogKept + 1) else AppendLog(LastN(before, LogKept + 1), added[0])
  {
    if added == [] {
      assert before + added == before;
    } else {
      assert added == [added[0]];
      LastNSnoc(before, added[0], LogKept + 1);
    }
  }

  /** One output handled: the loop's invariants hold for one more output. */
  lemma {:induction false} InstallStep(outs: seq<Output>, i: nat, parse: string -> Option<InstallEvent>,
                    logs: seq<string>, outcome: Settlement<()>, logs': seq<string>, outcome': Settlement<()>)
    requires i < |outs|
    requires logs == LastN(LogLines(outs[..i], parse), LogKept + 1)
    requires outcome == InstallOutcome(outs[..i], parse)
    requires logs' == if LogOf(outs[i], parse) == [] then logs else AppendLog(logs, LogOf(outs[i], parse)[0])
    requires outcome' == match InstallSettlement(outs[i], parse) case None => outcome case Some(next) => Settle(outcome, next)
    ensures logs' == LastN(LogLines(outs[..i + 1], parse), LogKept + 1)
    ensures outcome' == InstallOutcome(outs[..i + 1], parse)
  {
    InstallPrefixStep(outs, i, parse);
    LogAfterOutput(LogLines(outs[..i], parse), LogOf(outs[i], parse));
  }

  /** `installDep` as a sequential fold over the installer's outputs, from
      the reset log (`setInstallLogs([])`) to the `close` event. */
  method InstallDep(outs: seq<Output>, parse: string -> Option<InstallEvent>, code: Option<int>)
    returns (logs: seq<string>, outcome: Settlement<()>)
    ensures |logs| <= LogKept + 1
    ensures logs == LastN(LogLines(outs, parse), LogKept + 1)
    ensures outcome == InstallClose(InstallOutcome(outs, parse), code)
  {
    logs := [];
    outcome := Pending;
    for i := 0 to |outs|
      invariant logs == LastN(LogLines(outs[..i], parse), LogKept + 1)
      invariant outcome == InstallOutcome(outs[..i], parse)
    {
      var logs', outcome' := OnInstallOutput(logs, outcome, outs[i], parse);
      InstallStep(outs, i, parse, logs, outcome, logs', outcome');
      logs, outcome := logs', outcome';
    }
    assert outs[..|outs|] == outs;
    if code != Some(0) {
      outcome := Settle(outcome, Rejected("Install process exited with code " + CodeText(code)));
    }
  }

  /** The `stdout` and `stderr` handlers of `installDep` for one output. */
  method OnInstallOutput(logs: seq<string>, outcome: Settlement<()>, o: Output, parse: string -> Option<InstallEvent>)
    returns (logs': seq<string>, outcome': Settlement<()>)
    ensures logs' == if LogOf(o, parse) == [] then logs else AppendLog(logs, LogOf(o, parse)[0])
    ensures outcome' == match InstallSettlement(o, parse) case None => outcome case Some(next) => Settle(outcome, next)
  {
    logs', outcome' := logs, outcome;
    match o {
      case Stderr(line) =>
        assert LogOf(o, parse) == [line] && InstallSettlement(o, parse).None?;
        logs' := AppendLog(logs, line);
      case Stdout(line) =>
        if !Blank(line) {
          var event := parse(line);
          match event {
            case Some(InstallLogEvent(text)) =>
              assert LogOf(o, parse) == [text] && InstallSettlement(o, parse).None?;
              logs' := AppendLog(logs, text);
            case Some(InstallDoneEvent(success, error)) =>
              assert LogOf(o, parse) == [];
              if success {
                assert InstallSettlement(o, parse) == Some(Resolved(()));
                outcome' := Settle(outcome, Resolved(()));
              } else {
                var message := match error case Some(e) => e case None => "Installation failed";
                assert InstallSettlement(o, parse) == Some(Rejected(message));
                outcome' := Settle(outcome, Rejected(message));
              }
            case Some(InstallErrorEvent(message)) =>
              assert LogOf(o, parse) == [] && InstallSettlement(o, parse) == Some(Rejected(message));
              outcome' := Settle(outcome, Rejected(message));
            case _ =>
              assert LogOf(o, parse) == [] && InstallSettlement(o, parse).None?;
          }
        } else {
          assert LogOf(o, parse) == [] && InstallSettlement(o, parse).None?;
        }
    }
  }

  /** Whether an output asks to settle the install promise. */
  predicate InstallSettles(o: Output, parse: string -> Option<InstallEvent>) {
    InstallSettlement(o, parse).Some?
  }

  /** The first output that settles the promise decides it, whatever follows
      and whatever the exit code. */
  lemma {:induction false} InstallFirstSettlementWins(outs: seq<Output>, parse: string -> Option<InstallEvent>, k: nat, code: Option<int>)
    requires k < |outs| && InstallSettles(outs[k], parse)
    requires forall j :: 0 <= j < k ==> !InstallSettles(outs[j], parse)
    ensures InstallClose(InstallOutcome(outs, parse), code) == InstallSettlement(outs[k], parse).value
    decreases |outs|
  {
    var pre := outs[..k];
    assert forall j :: 0 <= j < |pre| ==> pre[j] == outs[j];
    InstallPendingBefore(pre, parse);
    InstallPrefixStep(outs, k, parse);
    InstallSettledStays(outs, parse, k + 1);
  }

  /** Before any settling output the promise is pending. */
  lemma {:induction false} InstallPendingBefore(outs: seq<Output>, parse: string -> Option<InstallEvent>)
    requires forall j :: 0 <= j < |outs| ==> !InstallSettles(outs[j], parse)
    ensures InstallOutcome(outs, parse) == Pending
    decreases |outs|
  {
    if outs != [] {
      var init := outs[..|outs| - 1];
      assert forall j :: 0 <= j < |init| ==> init[j] == outs[j];
      InstallPendingBefore(init, parse);
    }
  }

  /** Once settled after the first `n` outputs, the promise stays so. */
  lemma {:induction false} InstallSettledStays(outs: seq<Output>, parse: string -> Option<InstallEvent>, n: nat)
    requires n <= |outs| && !InstallOutcome(outs[..n], parse).Pending?
    ensures InstallOutcome(outs, parse) == InstallOutcome(outs[..n], parse)
    decreases |outs|
  {
    if n < |outs| {
      var init := outs[..|outs| - 1];
      assert init[..n] == outs[..n];
      InstallSettledStays(init, parse, n);
    } else {
      assert outs[..n] == outs;
    }
  }

  /** Without any settling output the exit code alone decides: a non-zero
      code rejects, and code 0 leaves the promise pending for ever. */
  lemma {:induction false} InstallWithoutSettlement(outs: seq<Output>, parse: string -> Option<InstallEvent>, code: Option<int>)
    requires forall j :: 0 <= j < |outs| ==> !InstallSettles(outs[j], parse)
    ensures code == Some(0) ==> InstallClose(InstallOutcome(outs, parse), code) == Pending
    ensures code != Some(0) ==>
      InstallClose(InstallOutcome(outs, parse), code) == Rejected("Install process exited with code " + CodeText(code))
  {
    InstallPendingBefore(outs, parse);
  }

  // ---------------------------------------------------------------------------
  // Running the sidecar (src/App.tsx:83-160)

  datatype CompressionResult = CompressionResult(
    success: bool, fileName: string, originalSizeMB: real, outputSizeMB: real,
    outputPath: string, error: Option<string>)

  /** What `JSON.parse` gives for a sidecar line, by its `type`. */
  datatype SidecarEvent =
    | ProgressEvent(file: string, percent: real, eta: Option<string>)
    | FileDoneEvent(result: CompressionResult)
    | DoneEvent
    | ErrorEvent(message: string)
    | ResultEvent(data: string)
    | OtherSidecarEvent

  /** What the `runSidecar` promise resolves with: the collected results,
      or the `data` of a `result` event. */
  datatype SidecarValue = Collected(results: seq<CompressionResult>) | Data(payload: string)

  /** A non-blank line that parses to a `file_done` event. */
  function IsFileDoneLine(parse: string -> Option<SidecarEvent>): string -> bool {
    (line: string) => !Blank(line) && parse(line).Some? && parse(line).value.FileDoneEvent?
  }

  /** `collected` after the lines: one result per `file_done` event. */
  function Collect(lines: seq<string>, parse: string -> Option<SidecarEvent>): seq<CompressionResult>
    decreases |lines|
  {
    if lines == [] then []
    else
      var line := lines[|lines| - 1];
      Collect(lines[..|lines| - 1], parse) + CollectedBy(line, parse)
  }

  /** The results carried by lines that are all `file_done` lines. */
  function ResultsOf(lines: seq<string>, parse: string -> Option<SidecarEvent>): (r: seq<CompressionResult>)
    requires forall i :: 0 <= i < |lines| ==> IsFileDoneLine(parse)(lines[i])
    ensures |r| == |lines|
  {
    seq(|lines|, i requires 0 <= i < |lines| && IsFileDoneLine(parse)(lines[i]) => parse(lines[i]).value.result)
  }

  /** The settlement a sidecar line asks for, if any. */
  function SidecarSettlement(line: string, parse: string -> Option<SidecarEvent>): Option<Settlement<SidecarValue>> {
    if Blank(line) then None
    else match parse(line)
      case Some(ErrorEvent(message)) => Some(Rejected(message))
      case Some(ResultEvent(data)) => Some(Resolved(Data(data)))
      case _ => None
  }

  /** The promise after the lines, before the process closes. */
  function SidecarOutcome(lines: seq<string>, parse: string -> Option<SidecarEvent>): Settlement<SidecarValue>
    decreases |lines|
  {
    if lines == [] then Pending
    else
      var s := SidecarOutcome(lines[..|lines| - 1], parse);
      match SidecarSettlement(lines[|lines| - 1], parse)
      case None => s
      case Some(next) => Settle(s, next)
  }

  /** The `close` handler. */
  function SidecarClose(s: Settlement<SidecarValue>, collected: seq<CompressionResult>, code: Option<int>): Settlement<SidecarValue> {
    if code != Some(0) && |collected| == 0 then Settle(s, Rejected("Sidecar exited with code " + CodeText(code)))
    else Settle(s, Resolved(Collected(collected)))
  }

  /** What one line adds to `collected`. */
  function CollectedBy(line: string, parse: string -> Option<SidecarEvent>): seq<CompressionResult> {
    if IsFileDoneLine(parse)(line) then [parse(line).value.result] else []
  }

  /** The `stdout` handler of `runSidecar` for one line. */
  method OnSidecarLine(collected: seq<CompressionResult>, outcome: Settlement<SidecarValue>, line: string,
                       parse: string -> Option<SidecarEvent>)
    returns (collected': seq<CompressionResult>, outcome': Settlement<SidecarValue>)
    ensures collected' == collected + CollectedBy(line, parse)
    ensures outcome' == match SidecarSettlement(line, parse) case None => outcome case Some(next) => Settle(outcome, next)
  {
    collected', outcome' := collected, outcome;
    if !Blank(line) {
      var event := parse(line);
      match event {
        case Some(FileDoneEvent(r)) =>
          assert CollectedBy(line, parse) == [r] && SidecarSettlement(line, parse).None?;
          collected' := collected + [r];
        case Some(ErrorEvent(message)) =>
          assert CollectedBy(line, parse) == [] && SidecarSettlement(line, parse) == Some(Rejected(message));
          assert collected + [] == collected;
          outcome' := Settle(outcome, Rejected(message));
        case Some(ResultEvent(data)) =>
          assert CollectedBy(line, parse) == [] && SidecarSettlement(line, parse) == Some(Resolved(Data(data)));
          assert collected + [] == collected;
          outcome' := Settle(outcome, Resolved(Data(data)));
        case _ =>
          assert CollectedBy(line, parse) == [] && SidecarSettlement(line, parse).None?;
          assert collected + [] == collected;
      }
    } else {
      assert CollectedBy(line, parse) == [] && SidecarSettlement(line, parse).None?;
      assert collected + [] == collected;
    }
  }

  /** The fold of `collected` over one more line. */
  lemma {:induction false} CollectStep(lines: seq<string>, i: nat, parse: string -> Option<SidecarEvent>)
    requires i < |lines|
    ensures Collect(lines[..i + 1], parse) == Collect(lines[..i], parse) + CollectedBy(lines[i], parse)
  {
    assert lines[..i + 1][..i] == lines[..i];
  }

  /** The fold of the promise over one more line. */
  lemma {:induction false} SidecarOutcomeStep(lines: seq<string>, i: nat, parse: string -> Option<SidecarEvent>)
    requires i < |lines|
    ensures SidecarOutcome(lines[..i + 1], parse) ==
      match SidecarSettlement(lines[i], parse) case None => SidecarOutcome(lines[..i], parse) case Some(next) => Settle(SidecarOutcome(lines[..i], parse), next)
  {
    assert lines[..i + 1][..i] == lines[..i];
  }

  /** One line handled: the loop's invariants hold for one more line. */
  lemma {:induction false} SidecarStep(lines: seq<string>, i: nat, parse: string -> Option<SidecarEvent>,
                    collected: seq<CompressionResult>, outcome: Settlement<SidecarValue>,
                    collected': seq<CompressionResult>, outcome': Settlement<SidecarValue>)
    requires i < |lines|
    requires collected == Collect(lines[..i], parse)
    requires outcome == SidecarOutcome(lines[..i], parse)
    requires collected' == collected + CollectedBy(lines[i], parse)
    requires outcome' == match SidecarSettlement(lines[i], parse) case None => outcome case Some(next) => Settle(outcome, next)
    ensures collected' == Collect(lines[..i + 1], parse)
    ensures outcome' == SidecarOutcome(lines[..i + 1], parse)
  {
    CollectStep(lines, i, parse);
    SidecarOutcomeStep(lines, i, parse);
  }

  /** `runSidecar` as a sequential fold over the lines the sidecar prints,
      followed by its `close` event. */
  method RunSidecar(lines: seq<string>, parse: string -> Option<SidecarEvent>, code: Option<int>)
    returns (collected: seq<CompressionResult>, outcome: Settlement<SidecarValue>)
    ensures collected == Collect(lines, parse)
    ensures outcome == SidecarClose(SidecarOutcome(lines, parse), collected, code)
  {
    collected := [];
    outcome := Pending;
    for i := 0 to |lines|
      invariant collected == Collect(lines[..i], parse)
      invariant outcome == SidecarOutcome(lines[..i], parse)
    {
      var collected', outcome' := OnSidecarLine(collected, outcome, lines[i], parse);
      SidecarStep(lines, i, parse, collected, outcome, collected', outcome');
      collected, outcome := collected', outcome';
    }
    assert lines[..|lines|] == lines;
    if code != Some(0) && |collected| == 0 {
      outcome := Settle(outcome, Rejected("Sidecar exited with code " + CodeText(code)));
    } else {
      outcome := Settle(outcome, Resolved(Collected(collected)));
    }
  }

  /** The lines the `file_done` filter keeps are `file_done` lines. */
  lemma {:induction false} FileDoneLinesOnly(lines: seq<string>, parse: string -> Option<SidecarEvent>)
    ensures var done := Filter(lines, IsFileDoneLine(parse));
      forall i :: 0 <= i < |done| ==> IsFileDoneLine(parse)(done[i])
  {
    var done := Filter(lines, IsFileDoneLine(parse));
    assert forall i :: 0 <= i < |done| ==> done[i] in done;
  }

  lemma {:induction false} ResultsOfAppend(a: seq<string>, b: seq<string>, parse: string -> Option<SidecarEvent>)
    requires forall i :: 0 <= i < |a| ==> IsFileDoneLine(parse)(a[i])
    requires forall i :: 0 <= i < |b| ==> IsFileDoneLine(parse)(b[i])
    ensures forall i :: 0 <= i < |a + b| ==> IsFileDoneLine(parse)((a + b)[i])
    ensures ResultsOf(a + b, parse) == ResultsOf(a, parse) + ResultsOf(b, parse)
  {
    assert forall i :: 0 <= i < |a + b| ==> (a + b)[i] == if i < |a| then a[i] else b[i - |a|];
  }

  /** The collected results are those of the `file_done` lines, in arrival
      order; blank lines, text that is not JSON and other events add nothing. */
  lemma {:induction false} CollectedInArrivalOrder(lines: seq<string>, parse: string -> Option<SidecarEvent>)
    ensures var done := Filter(lines, IsFileDoneLine(parse));
      (forall i :: 0 <= i < |done| ==> IsFileDoneLine(parse)(done[i])) &&
      Collect(lines, parse) == ResultsOf(done, parse)
    decreases |lines|
  {
    FileDoneLinesOnly(lines, parse);
    if lines != [] {
      var init := lines[..|lines| - 1];
      var line := lines[|lines| - 1];
      assert lines == init + [line];
      CollectedInArrivalOrder(init, parse);
      CollectedStep(init, line, parse);
    }
  }

  /** The step of `CollectedInArrivalOrder`: one more line. */
  lemma {:induction false} CollectedStep(init: seq<string>, line: string, parse: string -> Option<SidecarEvent>)
    requires forall i :: 0 <= i < |Filter(init, IsFileDoneLine(parse))| ==>
      IsFileDoneLine(parse)(Filter(init, IsFileDoneLine(parse))[i])
    requires Collect(init, parse) == ResultsOf(Filter(init, IsFileDoneLine(parse)), parse)
    ensures forall i :: 0 <= i < |Filter(init + [line], IsFileDoneLine(parse))| ==>
      IsFileDoneLine(parse)(Filter(init + [line], IsFileDoneLine(parse))[i])
    ensures Collect(init + [line], parse) == ResultsOf(Filter(init + [line], IsFileDoneLine(parse)), parse)
  {
    var p := IsFileDoneLine(parse);
    FilterAppend(init, [line], p);
    FileDoneLinesOnly(init + [line], parse);
    OneLineResults(line, parse);
    ResultsOfAppend(Filter(init, p), Filter([line], p), parse);
    CollectSnoc(init, line, parse);
  }

  /** What one line contributes through the filter. */
  lemma {:induction false} OneLineResults(line: string, parse: string -> Option<SidecarEvent>)
    ensures forall i :: 0 <= i < |Filter([line], IsFileDoneLine(parse))| ==>
      IsFileDoneLine(parse)(Filter([line], IsFileDoneLine(parse))[i])
    ensures ResultsOf(Filter([line], IsFileDoneLine(parse)), parse) == CollectedBy(line, parse)
  {
    var p := IsFileDoneLine(parse);
    assert Filter([line], p) == (if p(line) then [line] else []) + Filter([], p);
  }

  lemma {:induction false} CollectSnoc(init: seq<string>, line: string, parse: string -> Option<SidecarEvent>)
    ensures Collect(init + [line], parse) == Collect(init, parse) + CollectedBy(line, parse)
  {
    assert (init + [line])[..|init|] == init;
  }

  /** Whether a line asks to settle the sidecar promise. */
  predicate SidecarSettles(line: string, parse: string -> Option<SidecarEvent>) {
    SidecarSettlement(line, parse).Some?
  }

  /** Before any `error` or `result` line the promise is pending. */
  lemma {:induction false} SidecarPendingBefore(lines: seq<string>, parse: string -> Option<SidecarEvent>)
    requires forall j :: 0 <= j < |lines| ==> !SidecarSettles(lines[j], parse)
    ensures SidecarOutcome(lines, parse) == Pending
    decreases |lines|
  {
    if lines != [] {
      var init := lines[..|lines| - 1];
      assert forall j :: 0 <= j < |init| ==> init[j] == lines[j];
      SidecarPendingBefore(init, parse);
    }
  }

  /** Before the first `error` or `result` line the promise is pending. */
  lemma {:induction false} SidecarPendingUpTo(lines: seq<string>, parse: string -> Option<SidecarEvent>, k: nat)
    requires k <= |lines|
    requires forall j :: 0 <= j < k ==> !SidecarSettles(lines[j], parse)
    ensures SidecarOutcome(lines[..k], parse) == Pending
  {
    if k > 0 {
      SidecarPendingUpTo(lines, parse, k - 1);
      SidecarOutcomeStep(lines, k - 1, parse);
    }
  }

  /** The first `error` or `result` line settles the promise. */
  lemma {:induction false} SidecarSettlesFirst(lines: seq<string>, parse: string -> Option<SidecarEvent>, k: nat)
    requires k < |lines| && SidecarSettles(lines[k], parse)
    requires forall j :: 0 <= j < k ==> !SidecarSettles(lines[j], parse)
    ensures SidecarOutcome(lines[..k + 1], parse) == SidecarSettlement(lines[k], parse).value
    ensures !SidecarOutcome(lines[..k + 1], parse).Pending?
  {
    SidecarPendingUpTo(lines, parse, k);
    SettlesAfterPending(lines, parse, k);
  }

  /** A settling line met while pending settles the promise. */
  lemma {:induction false} SettlesAfterPending(lines: seq<string>, parse: string -> Option<SidecarEvent>, k: nat)
    requires k < |lines| && SidecarSettles(lines[k], parse) && SidecarOutcome(lines[..k], parse) == Pending
    ensures SidecarOutcome(lines[..k + 1], parse) == SidecarSettlement(lines[k], parse).value
    ensures !SidecarOutcome(lines[..k + 1], parse).Pending?
  {
    SidecarOutcomeStep(lines, k, parse);
    SettlementNotPending(lines[k], parse);
  }

  lemma {:induction false} SettlementNotPending(line: string, parse: string -> Option<SidecarEvent>)
    requires SidecarSettles(line, parse)
    ensures !SidecarSettlement(line, parse).value.Pending?
  {
  }

  /** Once settled after the first `n` lines, the promise stays so. */
  lemma {:induction false} SidecarSettledStays(lines: seq<string>, parse: string -> Option<SidecarEvent>, n: nat)
    requires n <= |lines| && !SidecarOutcome(lines[..n], parse).Pending?
    ensures SidecarOutcome(lines, parse) == SidecarOutcome(lines[..n], parse)
    decreases |lines|
  {
    if n < |lines| {
      var init := lines[..|lines| - 1];
      assert init[..n] == lines[..n];
      SidecarSettledStays(init, parse, n);
    } else {
      assert lines[..n] == lines;
    }
  }

  /** The first `error` or `result` line decides the promise, whatever the
      exit code and whatever was collected. */
  lemma {:induction false} SidecarFirstSettlementWins(lines: seq<string>, parse: string -> Option<SidecarEvent>, k: nat, code: Option<int>)
    requires k < |lines| && SidecarSettles(lines[k], parse)
    requires forall j :: 0 <= j < k ==> !SidecarSettles(lines[j], parse)
    ensures SidecarClose(SidecarOutcome(lines, parse), Collect(lines, parse), code) == SidecarSettlement(lines[k], parse).value
  {
    SidecarSettledAt(lines, parse, k);
  }

  lemma {:induction false} SidecarSettledAt(lines: seq<string>, parse: string -> Option<SidecarEvent>, k: nat)
    requires k < |lines| && SidecarSettles(lines[k], parse)
    requires forall j :: 0 <= j < k ==> !SidecarSettles(lines[j], parse)
    ensures SidecarOutcome(lines, parse) == SidecarSettlement(lines[k], parse).value
    ensures !SidecarOutcome(lines, parse).Pending?
  {
    SidecarSettlesFirst(lines, parse, k);
    SidecarSettledStays(lines, parse, k + 1);
  }

  /** Without `error` or `result` lines the close decides: a non-zero (or
      null) exit with no `file_done` line rejects, and every other close
      resolves with the results in arrival order. */
  lemma {:induction false} SidecarCloseRule(lines: seq<string>, parse: string -> Option<SidecarEvent>, code: Option<int>)
    requires forall j :: 0 <= j < |lines| ==> !SidecarSettles(lines[j], parse)
    ensures var done := Filter(lines, IsFileDoneLine(parse));
      code != Some(0) && done == [] ==>
        SidecarClose(SidecarOutcome(lines, parse), Collect(lines, parse), code) == Rejected("Sidecar exited with code " + CodeText(code))
    ensures var done := Filter(lines, IsFileDoneLine(parse));
      !(code != Some(0) && done == []) ==>
        SidecarClose(SidecarOutcome(lines, parse), Collect(lines, parse), code) == Resolved(Collected(ResultsOf(done, parse)))
  {
    SidecarPendingBefore(lines, parse);
    CollectedInArrivalOrder(lines, parse);
  }

  // ---------------------------------------------------------------------------
  // Default preset selection (src/App.tsx:393-405, 805-808)

  /** `Object.keys(p)[0]` when it is truthy (an empty record has none, and
      "" is falsy). */
  function DefaultCategory(p: Presets.Record): (r: Option<string>)
    ensures r.Some? <==> |p.keys| > 0 && p.keys[0] != ""
    ensures r.Some? ==> r.value == p.keys[0]
  {
    if |p.keys| > 0 && p.keys[0] != "" then Some(p.keys[0]) else None
  }

  /** The first preset of `category`, when it has a non-empty list. */
  function FirstPreset(p: Presets.Record, category: string): (r: Option<string>)
    ensures r.Some? <==> Presets.Get(p, category).Some? && |Presets.Get(p, category).value| > 0
    ensures r.Some? ==> r.value == Presets.Get(p, category).value[0]
  {
    match Presets.Get(p, category)
    case Some(ps) => if |ps| > 0 then Some(ps[0]) else None
    case None => None
  }

  /** The preset choices of the video screen. */
  class PresetPicker {
    var presets: Presets.Record
    var selectedCategory: string
    var selectedPreset: string

    constructor ()
      ensures presets == Presets.Empty && selectedCategory == "" && selectedPreset == ""
    {
      presets := Presets.Empty;
      selectedCategory := "";
      selectedPreset := "";
    }

    /** `loadPresets` once the sidecar has answered with `p`. */
    method LoadPresets(p: Presets.Record)
      modifies this
      ensures presets == p
      ensures selectedCategory == match DefaultCategory(p) case Some(c) => c case None => old(selectedCategory)
      ensures selectedPreset ==
        match DefaultCategory(p)
        case Some(c) => (match FirstPreset(p, c) case Some(q) => q case None => old(selectedPreset))
        case None => old(selectedPreset)
    {
      presets := p;
      if |p.keys| > 0 {
        var firstCat := p.keys[0];
        if firstCat != "" {
          selectedCategory := firstCat;
          var list := Presets.Get(p, firstCat);
          if list.Some? && |list.value| > 0 {
            selectedPreset := list.value[0];
          }
        }
      }
    }

    /** The category `onChange` handler. */
    method ChangeCategory(v: string)
      modifies this
      ensures presets == old(presets) && selectedCategory == v
      ensures selectedPreset == match FirstPreset(presets, v) case Some(q) => q case None => old(selectedPreset)
    {
      selectedCategory := v;
      var ps := Presets.Get(presets, v);
      if ps.Some? && |ps.value| > 0 {
        selectedPreset := ps.value[0];
      }
    }
  }

  /** Each parser step keeps the keys seen so far, in order, at the front. */
  lemma {:induction false} StepKeysGrow(s: Presets.State, line: string)
    ensures s.presetMap.keys <= Presets.Step(s, line).presetMap.keys
  {
  }

  lemma {:induction false} RunKeysGrow(s: Presets.State, lines: seq<string>)
    ensures s.presetMap.keys <= Presets.RunFrom(s, lines).presetMap.keys
    decreases |lines|
  {
    if lines != [] {
      StepKeysGrow(s, lines[0]);
      RunKeysGrow(Presets.Step(s, lines[0]), lines[1..]);
    }
  }

  /** The first category line opens the record's first key. */
  lemma {:induction false} FirstKeyOpened(before: seq<string>, open: string, section: seq<string>, later: seq<string>)
    requires forall i :: 0 <= i < |before| ==> !Presets.IsCategoryLine(before[i])
    requires Presets.IsCategoryLine(open)
    ensures var keys := Presets.GetPresetsSpec(before + [open] + section + later).keys;
      |keys| > 0 && keys[0] == Presets.CategoryName(open)
  {
    var rest := section + later;
    assert before + [open] + section + later == before + [open] + rest;
    Presets.NothingBeforeFirstCategory(before);
    Presets.RunFromSnoc(Presets.Init, before, open);
    var s1 := Presets.Step(Presets.Init, open);
    assert s1.presetMap.keys == [Presets.CategoryName(open)];
    Presets.RunFromAppend(Presets.Init, before + [open], rest);
    RunKeysGrow(s1, rest);
  }

  /** After parsing `HandBrakeCLI -z` output, the default selection is the
      first category the output opens, and the first preset of its last
      section. */
  lemma {:induction false} DefaultSelectionAfterParse(before: seq<string>, open: string, section: seq<string>, later: seq<string>)
    requires forall i :: 0 <= i < |before| ==> !Presets.IsCategoryLine(before[i])
    requires Presets.IsCategoryLine(open) && Presets.CategoryName(open) != ""
    requires forall i :: 0 <= i < |section| ==> !Presets.IsCategoryLine(section[i])
    requires later == [] || Presets.IsCategoryLine(later[0])
    requires forall i :: 0 <= i < |later| ==>
      Presets.IsCategoryLine(later[i]) ==> Presets.CategoryName(later[i]) != Presets.CategoryName(open)
    ensures var m := Presets.GetPresetsSpec(before + [open] + section + later);
      DefaultCategory(m) == Some(Presets.CategoryName(open))
    ensures var m := Presets.GetPresetsSpec(before + [open] + section + later);
      var list := Presets.PresetText(open) + Presets.PresetTexts(section);
      FirstPreset(m, Presets.CategoryName(open)) == if list == [] then None else Some(list[0])
  {
    Presets.CategoryIsLastSection(before, open, section, later);
    FirstKeyOpened(before, open, section, later);
  }
}
