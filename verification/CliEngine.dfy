/** `compressVideo` and `compressAudio` of cli/engine.ts. The encoders, the
    file system and the size and duration probes are oracles handed in as
    values: the lines HandBrakeCLI prints for each file, the size in MB of
    the file at a path or its absence, and per audio file the outcome of each
    ffmpeg run. */
module CliEngine {
  import opened Wrappers
  import opened Seqs
  import opened Text
  import opened Shell
  import opened Progress
  import opened Bitrate
  import opened AudioSplit

  /** The platform `IS_WINDOWS` and `process.platform` describe. */
  datatype Platform = Windows | MacOS | OtherOS

  /** An input file of the batch (its path parts come from cli/blueprints.ts,
      which is not part of this model); the engine fills in `outputFullPath`
      and `cmd`, the empty string standing for "not yet set". */
  class File {
    const originalFullPath: string
    const dir: string
    const baseName: string
    const alias: string
    var outputFullPath: string
    var cmd: string

    constructor(originalFullPath: string, dir: string, baseName: string, alias: string)
      ensures this.originalFullPath == originalFullPath && this.dir == dir
      ensures this.baseName == baseName && this.alias == alias
      ensures outputFullPath == "" && cmd == ""
    {
      this.originalFullPath := originalFullPath;
      this.dir := dir;
      this.baseName := baseName;
      this.alias := alias;
      outputFullPath := "";
      cmd := "";
    }
  }

  datatype FileResult = FileResult(fileName: string, success: bool, originalSizeMB: real,
                                   outputSizeMB: real, outputPath: string)

  /** What the callbacks receive: `onProgress(percent, fileName, eta)` and
      `onFileDone(result)`. */
  datatype Event =
    | Progress(percent: real, fileName: string, eta: Option<string>)
    | FileDone(result: FileResult)

  predicate IsDone(e: Event) {
    e.FileDone?
  }

  // ---------------------------------------------------------------------------
  // compressVideo: names and commands (cli/engine.ts:159-166)

  /** `<dir>/<base>__HardBraked__<preset>.mp4`. */
  function VideoOutputPath(dir: string, baseName: string, preset: string): (r: string)
  {
    JoinPath(dir, baseName + "__HardBraked__" + preset + ".mp4")
  }

  /** `keepAudio` defaults to true: only an explicit false drops the audio. */
  function AudioFlag(keepAudio: Option<bool>): string {
    if keepAudio == Some(false) then "-a none" else ""
  }

  /** The flag is present only for an explicit false; an absent setting keeps
      the audio. */
  lemma {:induction false} AudioKeptByDefault(keepAudio: Option<bool>)
    ensures AudioFlag(keepAudio) != "" <==> keepAudio == Some(false)
    ensures AudioFlag(None) == "" && AudioFlag(Some(true)) == ""
  {
  }

  /** `-a none` is the two words `-a` and `none`. */
  lemma {:induction false} AudioFlagWords(rest: string)
    ensures "-a none" + (" " + rest) == "-a" + (" " + ("none" + (" " + rest)))
  {
    assert "-a none" == "-a" + (" " + "none");
    AppendAssoc("-a", " " + "none", " " + rest);
    AppendAssoc(" ", "none", " " + rest);
  }

  /** The template string before `.trim()`. */
  function RawVideoCommand(src: string, out: string, preset: string, flag: string, isWindows: bool): string {
    "HandBrakeCLI -i " + (ShellQuote(src, isWindows) + (" " + (flag + (" -o " +
      (ShellQuote(out, isWindows) + (" -Z " + ShellQuote(preset, isWindows)))))))
  }

  /** `file.cmd` as compressVideo assigns it: the template string with the
      trailing blank the last Unix `shellQuote` leaves dropped (that this is
      what `.trim()` does is `VideoCommandIsTrimmed`). */
  function VideoCommand(src: string, out: string, preset: string, keepAudio: Option<bool>, isWindows: bool): string {
    if isWindows then RawVideoCommand(src, out, preset, AudioFlag(keepAudio), true)
    else
      var raw := RawVideoCommand(src, out, preset, AudioFlag(keepAudio), false);
      raw[..|raw| - 1]
  }

  /** The argument vector HandBrakeCLI should receive. */
  function VideoArgv(src: string, out: string, preset: string, keepAudio: Option<bool>): seq<Token> {
    [Word("HandBrakeCLI"), Word("-i"), Word(src)] +
    (if keepAudio == Some(false) then [Word("-a"), Word("none")] else []) +
    [Word("-o"), Word(out), Word("-Z"), Word(preset)]
  }

  /** `trim()` of a string whose only edge blank is one trailing space. */
  lemma {:induction false} TrimOneTrailingSpace(s: string)
    requires |s| >= 2 && !IsJsSpace(s[0]) && s[|s| - 1] == ' ' && !IsJsSpace(s[|s| - 2])
    ensures Trim(s) == s[..|s| - 1]
  {
    assert TrimStart(s) == s;
    assert TrimEnd(s) == TrimEnd(s[..|s| - 1]);
  }

  /** `trim()` of a string with no blank at either edge. */
  lemma {:induction false} TrimNoEdgeSpace(s: string)
    requires s != [] && !IsJsSpace(s[0]) && !IsJsSpace(s[|s| - 1])
    ensures Trim(s) == s
  {
    assert TrimStart(s) == s;
  }

  /** The fixed words of the template are plain words: no blank, operator,
      quote or expansion in them. */
  lemma {:induction false} TemplateWordsPlain()
    ensures PlainText("HandBrakeCLI") && PlainText("-i") && PlainText("-o") && PlainText("-Z")
    ensures PlainText("-a") && PlainText("none")
  {
  }

  /** A blank, an option word such as `-o`, a blank, then the rest. */
  lemma {:induction false} OptionWord(w: string, rest: string)
    requires PlainText(w)
    ensures Lex(" " + (w + (" " + rest)), None, false) == Prepend([Word(w)], Lex(rest, None, false))
  {
    BlankSeparates(w + (" " + rest));
    PlainWord(w, rest);
  }

  /** A blank, an option word, a blank, then a quoted argument and the rest. */
  lemma {:induction false} OptionWithQuoted(w: string, p: string, rest: string)
    requires PlainText(w)
    ensures Lex(" " + (w + (" " + (ShellQuoteUnix(p) + rest))), None, false) ==
            Prepend([Word(w), Word(p)], Lex(rest, None, false))
  {
    var r := Lex(rest, None, false);
    OptionWord(w, ShellQuoteUnix(p) + rest);
    ShellQuoteUnixReadsBack(p, rest);
    assert Lex(ShellQuoteUnix(p) + rest, None, false) == Prepend([Word(p)], r);
    PrependTwice([Word(w)], [Word(p)], r);
    assert [Word(w)] + [Word(p)] == [Word(w), Word(p)];
  }

  /** The `-Z` option closing the command, after trimming. */
  lemma {:induction false} PresetOption(preset: string)
    ensures Lex(" -Z " + ("'" + EscapeSingleQuotes(preset) + "'"), None, false) == Some([Word("-Z"), Word(preset)])
  {
    var q := "'" + EscapeSingleQuotes(preset) + "'";
    assert " -Z " + q == " " + ("-Z" + (" " + q));
    TemplateWordsPlain();
    OptionWord("-Z", q);
    ShellQuoteUnixReadsBackAtEnd(preset);
    assert Lex(q, None, false) == Some([Word(preset)]);
    assert Lex(" -Z " + q, None, false) == Some([Word("-Z")] + [Word(preset)]);
    assert [Word("-Z")] + [Word(preset)] == [Word("-Z"), Word(preset)];
  }

  /** The `-o` option followed by the `-Z` option. */
  lemma {:induction false} OutputOption(out: string, preset: string)
    ensures Lex(" -o " + (ShellQuoteUnix(out) + (" -Z " + ("'" + EscapeSingleQuotes(preset) + "'"))), None, false) ==
            Some([Word("-o"), Word(out), Word("-Z"), Word(preset)])
  {
    var rest := " -Z " + ("'" + EscapeSingleQuotes(preset) + "'");
    var s := " -o " + (ShellQuoteUnix(out) + rest);
    assert s == " " + ("-o" + (" " + (ShellQuoteUnix(out) + rest)));
    TemplateWordsPlain();
    OptionWithQuoted("-o", out, rest);
    PresetOption(preset);
    assert Lex(s, None, false) == Some([Word("-o"), Word(out)] + [Word("-Z"), Word(preset)]);
    assert [Word("-o"), Word(out)] + [Word("-Z"), Word(preset)] == [Word("-o"), Word(out), Word("-Z"), Word(preset)];
  }

  /** The audio flag between the input and the `-o` option. */
  lemma {:induction false} FlagOption(keepAudio: Option<bool>, rest: string)
    requires rest != [] && rest[0] == ' '
    ensures Lex(" " + (AudioFlag(keepAudio) + rest), None, false) ==
            Prepend(if keepAudio == Some(false) then [Word("-a"), Word("none")] else [], Lex(rest, None, false))
  {
    if keepAudio == Some(false) {
      assert rest == " " + rest[1..];
      FlagDropped(rest[1..]);
    } else {
      FlagAbsent(rest);
    }
  }

  lemma {:induction false} FlagDropped(t: string)
    ensures Lex(" " + ("-a none" + (" " + t)), None, false) ==
            Prepend([Word("-a"), Word("none")], Lex(" " + t, None, false))
  {
    AudioFlagWords(t);
    TemplateWordsPlain();
    BlankSeparates("-a" + (" " + ("none" + (" " + t))));
    TwoWords("-a", "none", t);
    BlankSeparates(t);
  }

  lemma {:induction false} FlagAbsent(rest: string)
    ensures Lex(" " + ("" + rest), None, false) == Prepend([], Lex(rest, None, false))
  {
    assert "" + rest == rest;
    BlankSeparates(rest);
    var r := Lex(rest, None, false);
    if r.Some? {
      assert [] + r.value == r.value;
    }
  }

  /** The program name, `-i` and the quoted input. */
  lemma {:induction false} InputOption(src: string, rest: string)
    ensures Lex("HandBrakeCLI -i " + (ShellQuoteUnix(src) + rest), None, false) ==
            Prepend([Word("HandBrakeCLI"), Word("-i"), Word(src)], Lex(rest, None, false))
  {
    var r := Lex(rest, None, false);
    var t := ShellQuoteUnix(src) + rest;
    var s := "HandBrakeCLI -i " + t;
    assert "HandBrakeCLI -i " == "HandBrakeCLI" + (" " + ("-i" + " "));
    AppendAssoc("HandBrakeCLI", " " + ("-i" + " "), t);
    AppendAssoc(" ", "-i" + " ", t);
    AppendAssoc("-i", " ", t);
    TemplateWordsPlain();
    PlainWord("HandBrakeCLI", "-i" + (" " + t));
    PlainWord("-i", t);
    ShellQuoteUnixReadsBack(src, rest);
    assert Lex(s, None, false) == Prepend([Word("HandBrakeCLI")], Prepend([Word("-i")], Prepend([Word(src)], r)));
    PrependTwice([Word("-i")], [Word(src)], r);
    PrependTwice([Word("HandBrakeCLI")], [Word("-i")] + [Word(src)], r);
    assert [Word("HandBrakeCLI")] + ([Word("-i")] + [Word(src)]) == [Word("HandBrakeCLI"), Word("-i"), Word(src)];
  }

  /** On Unix the command, read back under the POSIX shell quoting rules, is
      exactly HandBrakeCLI's intended argument vector, whatever characters the
      paths and the preset name hold. */
  lemma {:induction false} VideoCommandUnixArgv(src: string, out: string, preset: string, keepAudio: Option<bool>)
    ensures Tokens(VideoCommand(src, out, preset, keepAudio, false)) == Some(VideoArgv(src, out, preset, keepAudio))
  {
    var flag := AudioFlag(keepAudio);
    var z := " -Z " + ("'" + EscapeSingleQuotes(preset) + "'");
    var o := " -o " + (ShellQuoteUnix(out) + z);
    var cmd := "HandBrakeCLI -i " + (ShellQuoteUnix(src) + (" " + (flag + o)));
    var raw := RawVideoCommand(src, out, preset, flag, false);
    assert raw == cmd + " ";
    assert raw[..|raw| - 1] == cmd;
    OutputOption(out, preset);
    FlagOption(keepAudio, o);
    InputOption(src, " " + (flag + o));
    var tail := [Word("-o"), Word(out), Word("-Z"), Word(preset)];
    var mid := if keepAudio == Some(false) then [Word("-a"), Word("none")] else [];
    PrependTwice([Word("HandBrakeCLI"), Word("-i"), Word(src)], mid, Some(tail));
    assert [Word("HandBrakeCLI"), Word("-i"), Word(src)] + mid + tail == VideoArgv(src, out, preset, keepAudio);
  }

  lemma {:induction false} ProgramNameFirst(tail: string)
    ensures ("HandBrakeCLI -i " + tail)[..12] == "HandBrakeCLI"
  {
  }

  /** A string that starts with the program name's first letter and ends in
      the closing quote of the platform's `shellQuote`, followed on Unix by
      its trailing blank. */
  predicate QuotedEdges(raw: string, isWindows: bool) {
    |raw| >= 18 && raw[0] == 'H' &&
    (isWindows ==> raw[|raw| - 1] == '"') &&
    (!isWindows ==> raw[|raw| - 1] == ' ' && raw[|raw| - 2] == '\'')
  }

  /** The last two characters of a concatenation are those of its second
      part, when that has two. */
  lemma {:induction false} LastTwoOfAppend(a: string, b: string)
    requires |b| >= 2
    ensures |a + b| >= 2 && (a + b)[|a + b| - 1] == b[|b| - 1] && (a + b)[|a + b| - 2] == b[|b| - 2]
  {
  }

  /** The first and last characters of the template string. */
  lemma {:induction false} RawVideoCommandEdges(src: string, out: string, preset: string, flag: string, isWindows: bool)
    ensures QuotedEdges(RawVideoCommand(src, out, preset, flag, isWindows), isWindows)
  {
    var z := ShellQuote(preset, isWindows);
    var t1 := " -Z " + z;
    LastTwoOfAppend(" -Z ", z);
    var t2 := ShellQuote(out, isWindows) + t1;
    LastTwoOfAppend(ShellQuote(out, isWindows), t1);
    var t3 := " -o " + t2;
    LastTwoOfAppend(" -o ", t2);
    var t4 := flag + t3;
    LastTwoOfAppend(flag, t3);
    var t5 := " " + t4;
    LastTwoOfAppend(" ", t4);
    var t6 := ShellQuote(src, isWindows) + t5;
    LastTwoOfAppend(ShellQuote(src, isWindows), t5);
    LastTwoOfAppend("HandBrakeCLI -i ", t6);
    ProgramNameFirst(t6);
  }

  /** `.trim()` removes from the template string exactly the trailing blank
      of a Unix quote: the string starts with the program name and ends in a
      quote character. */
  lemma {:induction false} VideoCommandIsTrimmed(src: string, out: string, preset: string, keepAudio: Option<bool>, isWindows: bool)
    ensures VideoCommand(src, out, preset, keepAudio, isWindows) ==
            Trim(RawVideoCommand(src, out, preset, AudioFlag(keepAudio), isWindows))
  {
    var flag := AudioFlag(keepAudio);
    if isWindows {
      assert VideoCommand(src, out, preset, keepAudio, true) == Trim(RawVideoCommand(src, out, preset, flag, true)) by {
        RawTrimmed(src, out, preset, flag, true);
      }
    } else {
      assert VideoCommand(src, out, preset, keepAudio, false) == Trim(RawVideoCommand(src, out, preset, flag, false)) by {
        RawTrimmed(src, out, preset, flag, false);
      }
    }
  }

  lemma {:induction false} RawTrimmed(src: string, out: string, preset: string, flag: string, isWindows: bool)
    ensures var raw := RawVideoCommand(src, out, preset, flag, isWindows);
      Trim(raw) == if isWindows then raw else raw[..|raw| - 1]
  {
    RawVideoCommandEdges(src, out, preset, flag, isWindows);
    TrimQuoted(RawVideoCommand(src, out, preset, flag, isWindows), isWindows);
  }

  lemma {:induction false} TrimQuoted(raw: string, isWindows: bool)
    requires QuotedEdges(raw, isWindows)
    ensures Trim(raw) == if isWindows then raw else raw[..|raw| - 1]
  {
    if isWindows {
      TrimNoEdgeSpace(raw);
    } else {
      TrimOneTrailingSpace(raw);
    }
  }

  /** The command is never empty and starts with the program name, so the
      `Command not found` guard of the second loop (cli/engine.ts:169) never
      fires. */
  lemma {:induction false} VideoCommandNonEmpty(src: string, out: string, preset: string, keepAudio: Option<bool>, isWindows: bool)
    ensures |VideoCommand(src, out, preset, keepAudio, isWindows)| >= 12
    ensures VideoCommand(src, out, preset, keepAudio, isWindows)[..12] == "HandBrakeCLI"
  {
    var raw := RawVideoCommand(src, out, preset, AudioFlag(keepAudio), isWindows);
    ProgramNameFirst(raw[16..]);
    assert raw == "HandBrakeCLI -i " + raw[16..];
  }

  // ---------------------------------------------------------------------------
  // compressVideo: events (cli/engine.ts:168-189)

  /** The progress callback for one line: only a truthy percent is reported,
      with the ETA when there is one. */
  function LineEvents(line: string, fileName: string): (r: seq<Event>)
    ensures |r| <= 1
    ensures r == [] <==> GetProgressAndRemainingTime(line).progress in {None, Some(0.0)}
    ensures r != [] ==> r[0] == Progress(GetProgressAndRemainingTime(line).progress.value, fileName,
                                         GetProgressAndRemainingTime(line).remainingTime)
  {
    var info := GetProgressAndRemainingTime(line);
    if info.progress.Some? && info.progress.value != 0.0 then
      [Progress(info.progress.value, fileName, info.remainingTime)]
    else []
  }

  function LinesEvents(lines: seq<string>, fileName: string): (r: seq<Event>)
    ensures forall e :: e in r ==> e.Progress? && e.fileName == fileName && e.percent > 0.0
  {
    if lines == [] then []
    else LinesEvents(lines[..|lines| - 1], fileName) + LineEvents(lines[|lines| - 1], fileName)
  }

  /** `getFileSizeInMB` (cli/utils.ts:127-132): the size in MB of the file at
      a path, or nothing when there is no file there, in which case the call
      throws `File not found: <path>`. The probe answers for the file system
      as the engine finds it when it reads. */
  type SizeProbe = string -> Option<real>

  function NotFound(path: string): string {
    "File not found: " + path
  }

  /** Both files whose sizes the video loop reads exist. */
  predicate SizesFound(f: File, preset: string, sizeMB: SizeProbe) {
    sizeMB(f.originalFullPath).Some? && sizeMB(OutputOf(f, preset)).Some?
  }

  predicate AllSizesFound(files: seq<File>, preset: string, sizeMB: SizeProbe) {
    forall i :: 0 <= i < |files| ==> SizesFound(files[i], preset, sizeMB)
  }

  /** The sizes are found for a batch exactly when they are for all files but
      the last, and for the last. */
  lemma {:induction false} AllSizesFoundSnoc(files: seq<File>, preset: string, sizeMB: SizeProbe)
    requires files != []
    ensures AllSizesFound(files, preset, sizeMB) <==>
      AllSizesFound(files[..|files| - 1], preset, sizeMB) && SizesFound(files[|files| - 1], preset, sizeMB)
  {
    assert forall i :: 0 <= i < |files| - 1 ==> files[..|files| - 1][i] == files[i];
  }

  function VideoResult(f: File, preset: string, sizeMB: SizeProbe): FileResult
    requires SizesFound(f, preset, sizeMB)
  {
    var out := OutputOf(f, preset);
    FileResult(f.baseName, true, sizeMB(f.originalFullPath).value, sizeMB(out).value, out)
  }

  /** The path whose size read throws first: the input, read before the
      encode, or else the output, read after it. */
  function MissingPath(f: File, preset: string, sizeMB: SizeProbe): string {
    if sizeMB(f.originalFullPath).None? then f.originalFullPath else OutputOf(f, preset)
  }

  /** One iteration of the second loop. A missing input throws before
      HandBrakeCLI runs; an encode that leaves no output (HandBrakeCLI's exit
      code is not looked at) throws after the progress and before the
      completion. */
  function FileVideoRun(f: File, preset: string, lines: seq<string>, sizeMB: SizeProbe): (seq<Event>, Outcome) {
    if sizeMB(f.originalFullPath).None? then ([], Rejected(NotFound(f.originalFullPath)))
    else if sizeMB(OutputOf(f, preset)).None? then
      (LinesEvents(lines, f.baseName), Rejected(NotFound(OutputOf(f, preset))))
    else (LinesEvents(lines, f.baseName) + [FileDone(VideoResult(f, preset, sizeMB))], Completed)
  }

  /** The events and outcome of the whole batch, file after file; the first
      file that does not complete ends it, as nothing catches the throw. */
  function VideoBatch(files: seq<File>, preset: string, output: seq<seq<string>>, sizeMB: SizeProbe)
    : (r: (seq<Event>, Outcome))
    requires |output| == |files|
    ensures r.1 == Completed || r.1.Rejected?
  {
    if files == [] then ([], Completed)
    else
      var n := |files| - 1;
      var before := VideoBatch(files[..n], preset, output[..n], sizeMB);
      if before.1 != Completed then before
      else
        var last := FileVideoRun(files[n], preset, output[n], sizeMB);
        (before.0 + last.0, last.1)
  }

  /** `compressVideo`: the first loop names every output and builds its
      command, the second runs the commands in order and reports. `output[i]`
      is what HandBrakeCLI prints for `files[i]`. */
  method CompressVideo(files: seq<File>, preset: string, keepAudio: Option<bool>, isWindows: bool,
                       output: seq<seq<string>>, sizeMB: SizeProbe)
    returns (events: seq<Event>, outcome: Outcome)
    requires |output| == |files|
    modifies files
    ensures forall i :: 0 <= i < |files| ==> Prepared(files[i], preset, keepAudio, isWindows)
    ensures (events, outcome) == VideoBatch(files, preset, output, sizeMB)
  {
    PrepareVideo(files, preset, keepAudio, isWindows);
    events, outcome := RunVideo(files, preset, output, sizeMB);
  }

  /** The output path the first loop gives a file. */
  function OutputOf(f: File, preset: string): string {
    VideoOutputPath(f.dir, f.baseName, preset)
  }

  /** The command the first loop gives a file. */
  function CommandOf(f: File, preset: string, keepAudio: Option<bool>, isWindows: bool): string {
    VideoCommand(f.originalFullPath, OutputOf(f, preset), preset, keepAudio, isWindows)
  }

  predicate Prepared(f: File, preset: string, keepAudio: Option<bool>, isWindows: bool)
    reads f
  {
    f.outputFullPath == OutputOf(f, preset) && f.cmd == CommandOf(f, preset, keepAudio, isWindows)
  }

  /** The first loop of `compressVideo` (cli/engine.ts:162-166). A file listed
      twice is simply given the same values twice. */
  method PrepareVideo(files: seq<File>, preset: string, keepAudio: Option<bool>, isWindows: bool)
    modifies files
    ensures forall i :: 0 <= i < |files| ==> Prepared(files[i], preset, keepAudio, isWindows)
  {
    var audioFlag := if keepAudio == Some(false) then "-a none" else "";
    for i := 0 to |files|
      invariant forall j :: 0 <= j < i ==> Prepared(files[j], preset, keepAudio, isWindows)
    {
      PrepareFile(files[i], preset, audioFlag, keepAudio, isWindows);
    }
  }

  /** One iteration of that loop. */
  method PrepareFile(file: File, preset: string, audioFlag: string, keepAudio: Option<bool>, isWindows: bool)
    requires audioFlag == AudioFlag(keepAudio)
    modifies file
    ensures Prepared(file, preset, keepAudio, isWindows)
  {
    var outputFileName := file.baseName + "__HardBraked__" + preset + ".mp4";
    file.outputFullPath := JoinPath(file.dir, outputFileName);
    var cmd := Trim(RawVideoCommand(file.originalFullPath, file.outputFullPath, preset, audioFlag, isWindows));
    assert cmd == CommandOf(file, preset, keepAudio, isWindows) by {
      VideoCommandIsTrimmed(file.originalFullPath, OutputOf(file, preset), preset, keepAudio, isWindows);
    }
    file.cmd := cmd;
  }

  /** The second loop of `compressVideo` (cli/engine.ts:168-189). */
  method RunVideo(files: seq<File>, preset: string, output: seq<seq<string>>, sizeMB: SizeProbe)
    returns (events: seq<Event>, outcome: Outcome)
    requires |output| == |files|
    requires forall i :: 0 <= i < |files| ==> files[i].outputFullPath == OutputOf(files[i], preset)
    ensures (events, outcome) == VideoBatch(files, preset, output, sizeMB)
  {
    events := [];
    for i := 0 to |files|
      invariant (events, Completed) == VideoBatch(files[..i], preset, output[..i], sizeMB)
    {
      var file := files[i];
      var e, o := RunVideoFile(file, preset, output[i], sizeMB);
      events := events + e;
      assert files[..i + 1][..i] == files[..i] && output[..i + 1][..i] == output[..i];
      assert files[..i + 1][i] == file && output[..i + 1][i] == output[i];
      if o != Completed {
        outcome := o;
        VideoStopsAtFailure(files, preset, output, sizeMB, i + 1);
        assert files[..|files|] == files && output[..|output|] == output;
        return;
      }
    }
    outcome := Completed;
    assert files[..|files|] == files && output[..|output|] == output;
  }

  /** One iteration of that loop (cli/engine.ts:169-188). */
  method RunVideoFile(file: File, preset: string, lines: seq<string>, sizeMB: SizeProbe)
    returns (events: seq<Event>, outcome: Outcome)
    requires file.outputFullPath == OutputOf(file, preset)
    ensures (events, outcome) == FileVideoRun(file, preset, lines, sizeMB)
  {
    var originalSizeMB := sizeMB(file.originalFullPath);
    if originalSizeMB.None? {
      return [], Rejected(NotFound(file.originalFullPath));
    }
    events := RunVideoLines(lines, file.baseName);
    var outputSizeMB := if file.outputFullPath != "" then sizeMB(file.outputFullPath) else Some(0.0);
    if outputSizeMB.None? {
      return events, Rejected(NotFound(file.outputFullPath));
    }
    events := events + [FileDone(FileResult(file.baseName, true, originalSizeMB.value, outputSizeMB.value,
                                            file.outputFullPath))];
    outcome := Completed;
  }

  /** Once a prefix of the batch has failed, the rest adds nothing. */
  lemma {:induction false} VideoStopsAtFailure(files: seq<File>, preset: string, output: seq<seq<string>>,
                                               sizeMB: SizeProbe, k: nat)
    requires |output| == |files| && k <= |files|
    requires VideoBatch(files[..k], preset, output[..k], sizeMB).1 != Completed
    ensures VideoBatch(files, preset, output, sizeMB) == VideoBatch(files[..k], preset, output[..k], sizeMB)
    decreases |files| - k
  {
    if k < |files| {
      var n := |files| - 1;
      assert files[..k] == files[..n][..k] && output[..k] == output[..n][..k];
      VideoStopsAtFailure(files[..n], preset, output[..n], sizeMB, k);
    } else {
      assert files[..k] == files && output[..k] == output;
    }
  }

  /** The line callback of one HandBrakeCLI run. */
  method RunVideoLines(lines: seq<string>, fileName: string) returns (events: seq<Event>)
    ensures events == LinesEvents(lines, fileName)
  {
    events := [];
    for k := 0 to |lines|
      invariant events == LinesEvents(lines[..k], fileName)
    {
      var line := lines[k];
      var info := GetProgressAndRemainingTime(line);
      LinesEventsSnoc(lines, k, fileName);
      if info.progress.Some? && info.progress.value != 0.0 {
        events := events + [Progress(info.progress.value, fileName, info.remainingTime)];
      }
    }
    assert lines[..|lines|] == lines;
  }

  lemma {:induction false} LinesEventsSnoc(lines: seq<string>, k: nat, fileName: string)
    requires k < |lines|
    ensures LinesEvents(lines[..k + 1], fileName) == LinesEvents(lines[..k], fileName) + LineEvents(lines[k], fileName)
  {
    assert lines[..k + 1][..k] == lines[..k];
  }

  /** The completions of a batch whose files are all found, one per file in
      input order. */
  function Completions(files: seq<File>, preset: string, sizeMB: SizeProbe): (r: seq<Event>)
    requires AllSizesFound(files, preset, sizeMB)
    ensures |r| == |files|
    ensures forall i :: 0 <= i < |files| ==> r[i] == FileDone(VideoResult(files[i], preset, sizeMB))
  {
    if files == [] then []
    else
      var n := |files| - 1;
      assert forall i :: 0 <= i < n ==> files[..n][i] == files[i];
      Completions(files[..n], preset, sizeMB) + [FileDone(VideoResult(files[n], preset, sizeMB))]
  }

  lemma {:induction false} ProgressOnlyNoDone(lines: seq<string>, fileName: string)
    ensures Filter(LinesEvents(lines, fileName), IsDone) == []
  {
    var evs := LinesEvents(lines, fileName);
    FilterAllOrNothing(evs, IsDone);
    assert forall i :: 0 <= i < |evs| ==> evs[i] in evs;
  }

  /** One file's events hold its completion exactly when it completes. */
  lemma {:induction false} FileVideoRunDones(f: File, preset: string, lines: seq<string>, sizeMB: SizeProbe)
    ensures var last := FileVideoRun(f, preset, lines, sizeMB);
      (last.1 == Completed <==> SizesFound(f, preset, sizeMB)) &&
      (SizesFound(f, preset, sizeMB) ==> Filter(last.0, IsDone) == [FileDone(VideoResult(f, preset, sizeMB))]) &&
      (!SizesFound(f, preset, sizeMB) ==>
         Filter(last.0, IsDone) == [] && last.1 == Rejected(NotFound(MissingPath(f, preset, sizeMB))))
  {
    ProgressOnlyNoDone(lines, f.baseName);
    if SizesFound(f, preset, sizeMB) {
      var done := FileDone(VideoResult(f, preset, sizeMB));
      FilterAppend(LinesEvents(lines, f.baseName), [done], IsDone);
      assert Filter([done], IsDone) == [done] + Filter([], IsDone);
    } else if sizeMB(f.originalFullPath).None? {
      assert Filter([], IsDone) == [];
    }
  }

  /** The batch completes exactly when every size read finds its file, and
      then `onFileDone` has fired exactly once per file, in input order,
      always with `success: true`. */
  lemma {:induction false} VideoDoneOncePerFile(files: seq<File>, preset: string, output: seq<seq<string>>,
                                                sizeMB: SizeProbe)
    requires |output| == |files|
    ensures VideoBatch(files, preset, output, sizeMB).1 == Completed <==> AllSizesFound(files, preset, sizeMB)
    ensures AllSizesFound(files, preset, sizeMB) ==>
      Filter(VideoBatch(files, preset, output, sizeMB).0, IsDone) == Completions(files, preset, sizeMB)
    decreases |files|
  {
    if files == [] {
      assert Filter([], IsDone) == [];
    } else {
      var n := |files| - 1;
      var f := files[n];
      VideoDoneOncePerFile(files[..n], preset, output[..n], sizeMB);
      AllSizesFoundSnoc(files, preset, sizeMB);
      var before := VideoBatch(files[..n], preset, output[..n], sizeMB);
      if before.1 == Completed {
        var last := FileVideoRun(f, preset, output[n], sizeMB);
        FileVideoRunDones(f, preset, output[n], sizeMB);
        FilterAppend(before.0, last.0, IsDone);
      }
    }
  }

  /** A file whose input or output is missing stops the batch with `File not
      found: <path>`: each file before it has been reported once, it is not
      reported, and the files after it are never encoded. */
  lemma {:induction false} VideoStopsAtMissing(files: seq<File>, preset: string, output: seq<seq<string>>,
                                               sizeMB: SizeProbe, k: nat)
    requires |output| == |files| && k < |files|
    requires AllSizesFound(files[..k], preset, sizeMB) && !SizesFound(files[k], preset, sizeMB)
    ensures VideoBatch(files, preset, output, sizeMB) == VideoBatch(files[..k + 1], preset, output[..k + 1], sizeMB)
    ensures VideoBatch(files, preset, output, sizeMB).1 == Rejected(NotFound(MissingPath(files[k], preset, sizeMB)))
    ensures Filter(VideoBatch(files, preset, output, sizeMB).0, IsDone) == Completions(files[..k], preset, sizeMB)
  {
    var pre, preOut := files[..k + 1], output[..k + 1];
    assert pre[..k] == files[..k] && preOut[..k] == output[..k];
    assert pre[k] == files[k] && preOut[k] == output[k];
    VideoDoneOncePerFile(files[..k], preset, output[..k], sizeMB);
    FileVideoRunDones(files[k], preset, output[k], sizeMB);
    var before := VideoBatch(files[..k], preset, output[..k], sizeMB);
    var last := FileVideoRun(files[k], preset, output[k], sizeMB);
    assert VideoBatch(pre, preset, preOut, sizeMB) == (before.0 + last.0, last.1);
    VideoStopsAtFailure(files, preset, output, sizeMB, k + 1);
    FilterAppend(before.0, last.0, IsDone);
    assert Completions(files[..k], preset, sizeMB) + [] == Completions(files[..k], preset, sizeMB);
  }

  /** A status line reports the percent of its first progress match, and
      reports nothing exactly when that percent is written with zeros only
      (`0.00 %` is falsy). */
  lemma {:induction false} StatusLineReported(line: string, k: nat, p: Percent, fileName: string)
    requires k <= |line| && ProgressAt(line[k..], p.whole, p.frac)
    requires forall j :: 0 <= j < k ==> MatchProgress(line[j..]).None?
    ensures LineEvents(line, fileName) == [] <==>
      (forall i :: 0 <= i < |p.whole| ==> p.whole[i] == '0') && (forall i :: 0 <= i < |p.frac| ==> p.frac[i] == '0')
    ensures LineEvents(line, fileName) != [] ==>
      LineEvents(line, fileName)[0].percent == PercentValue(p)
  {
    ProgressReported(line, k, p);
    PercentZero(p);
  }

  // ---------------------------------------------------------------------------
  // The crash message of compressAudioAsync (cli/engine.ts:28-47)

  function CrashHint(platform: Platform): string {
    match platform
    case Windows => "Try reinstalling ffmpeg: winget install Gyan.FFmpeg"
    case MacOS => "Try running: brew reinstall ffmpeg"
    case OtherOS => "Try reinstalling ffmpeg via your package manager"
  }

  /** The opening of the crash explanation, naming the signal. */
  function CrashLead(signal: string): string {
    "ffmpeg crashed (" + signal + "). "
  }

  /** The message an ffmpeg failure is rejected with. */
  function CrashMessage(msg: string, platform: Platform): string {
    if Contains(msg, "SIGABRT") || Contains(msg, "SIGKILL") then
      var signal := if Contains(msg, "SIGABRT") then "SIGABRT" else "SIGKILL";
      CrashLead(signal) + "This usually means ffmpeg has broken library dependencies. " + CrashHint(platform)
    else msg
  }

  lemma {:induction false} PrefixAndSuffix(a: string, b: string, c: string)
    ensures a <= (a + b) + c
    ensures |(a + b) + c| >= |c| && ((a + b) + c)[|(a + b) + c| - |c|..] == c
  {
    assert ((a + b) + c)[..|a|] == a;
  }

  /** A crash by SIGABRT or SIGKILL is explained, naming SIGABRT when both
      occur and ending with the platform's hint; any other message is passed
      on unchanged. */
  lemma {:induction false} CrashMessageExplains(msg: string, platform: Platform)
    ensures !Contains(msg, "SIGABRT") && !Contains(msg, "SIGKILL") ==> CrashMessage(msg, platform) == msg
    ensures Contains(msg, "SIGABRT") ==> CrashLead("SIGABRT") <= CrashMessage(msg, platform)
    ensures !Contains(msg, "SIGABRT") && Contains(msg, "SIGKILL") ==> CrashLead("SIGKILL") <= CrashMessage(msg, platform)
    ensures Contains(msg, "SIGABRT") || Contains(msg, "SIGKILL") ==>
      var r := CrashMessage(msg, platform);
      |r| >= |CrashHint(platform)| && r[|r| - |CrashHint(platform)|..] == CrashHint(platform)
  {
    if Contains(msg, "SIGABRT") || Contains(msg, "SIGKILL") {
      var signal := if Contains(msg, "SIGABRT") then "SIGABRT" else "SIGKILL";
      PrefixAndSuffix(CrashLead(signal), "This usually means ffmpeg has broken library dependencies. ", CrashHint(platform));
    }
  }

  // ---------------------------------------------------------------------------
  // compressAudio (cli/engine.ts:76-146)

  /** What the outside world contributes to the processing of one audio file:
      the lab directory `file.createLabDir()` makes, the percents ffmpeg's
      progress events give after `parseInt`, the message of a failed encode,
      the size of the encoded file, what ffprobe says about its duration, and
      the index and message of the first failing part extraction, if any. */
  datatype AudioRun = AudioRun(labDir: string, progress: seq<int>, encodeError: Option<string>,
                               outputSizeMB: real, duration: Result<real>,
                               splitFailure: Option<(nat, string)>)

  /** ffprobe reports no negative duration. */
  predicate ValidRun(run: AudioRun) {
    run.duration.Ok? ==> run.duration.value >= 0.0
  }

  /** What compressAudio does, in order. `Notify` is a callback. */
  datatype Action =
    | Encode(input: string, bitrate: string, output: string)
    | MakeDir(path: string)
    | Probe(path: string)
    | Extract(cmd: SplitCommand)
    | Remove(path: string)
    | Rename(from: string, to: string)
    | RemoveDir(path: string)
    | Notify(event: Event)

  /** How the processing of a file, or of the batch, ends: normally, with the
      promise rejected, or never (the part loop with zero-second parts). */
  datatype Outcome = Completed | Rejected(message: string) | Hangs

  function TempPath(labDir: string, alias: string): string {
    JoinPath(labDir, alias + ".mp3")
  }

  function RenamedPath(dir: string, baseName: string, bitrate: string): string {
    JoinPath(dir, baseName + "__HardBraked__" + bitrate + ".mp3")
  }

  function SplitDir(dir: string, baseName: string): string {
    JoinPath(dir, baseName + "_split")
  }

  /** `onProgress(percent, file.baseName)`, without an ETA. */
  function ProgressActions(percents: seq<int>, fileName: string): (r: seq<Action>)
    ensures |r| == |percents|
    ensures forall i :: 0 <= i < |r| ==> r[i] == Notify(Progress(percents[i] as real, fileName, None))
  {
    seq(|percents|, i requires 0 <= i < |percents| => Notify(Progress(percents[i] as real, fileName, None)))
  }

  /** The first `n` extractions of the part loop. */
  function Extracts(temp: string, outputDir: string, m: int, n: nat): (r: seq<Action>)
    ensures |r| == n && forall i :: 0 <= i < n ==> r[i].Extract?
  {
    if n == 0 then [] else Extracts(temp, outputDir, m, n - 1) + [Extract(PartCommand(temp, outputDir, m, n - 1))]
  }

  /** Extraction `i` runs the command for part `i`: its own start and its own
      output file. */
  lemma {:induction false} ExtractsAt(temp: string, outputDir: string, m: int, n: nat)
    ensures forall i :: 0 <= i < n ==> Extracts(temp, outputDir, m, n)[i] == Extract(PartCommand(temp, outputDir, m, i))
  {
    if n > 0 {
      var prev := Extracts(temp, outputDir, m, n - 1);
      var last := Extract(PartCommand(temp, outputDir, m, n - 1));
      ExtractsAt(temp, outputDir, m, n - 1);
      assert Extracts(temp, outputDir, m, n) == prev + [last];
      forall i | 0 <= i < n
        ensures Extracts(temp, outputDir, m, n)[i] == Extract(PartCommand(temp, outputDir, m, i))
      {
        if i < n - 1 {
          assert (prev + [last])[i] == prev[i];
        }
      }
    }
  }

  /** The part length as a number of seconds the loop can use (only a finite
      one ever reaches an extraction). */
  function ChunkSeconds(maxChunk: Num): int {
    if maxChunk.Finite? then maxChunk.v else 0
  }

  function Done(f: File, originalSizeMB: real, outputSizeMB: real, outputPath: string): Action {
    Notify(FileDone(FileResult(f.baseName, true, originalSizeMB, outputSizeMB, outputPath)))
  }

  /** The actions and outcome of one iteration of compressAudio's loop. */
  function AudioFileTrace(f: File, bitrate: string, splitByMB: int, run: AudioRun, originalSizeMB: real,
                          platform: Platform): (seq<Action>, Outcome)
    requires ValidRun(run)
  {
    var temp := TempPath(run.labDir, f.alias);
    var start := [Encode(f.originalFullPath, bitrate, temp)] + ProgressActions(run.progress, f.baseName);
    if run.encodeError.Some? then
      (start, Rejected(CrashMessage(run.encodeError.value, platform)))
    else if !ShouldSplit(splitByMB, run.outputSizeMB) then
      var newLoc := RenamedPath(f.dir, f.baseName, bitrate);
      (start + [Rename(temp, newLoc), RemoveDir(run.labDir), Done(f, originalSizeMB, run.outputSizeMB, newLoc)],
       Completed)
    else
      var outputDir := SplitDir(f.dir, f.baseName);
      var probing := start + [MakeDir(outputDir), Probe(temp)];
      match run.duration
      case Err(e) => (probing, Rejected(e))
      case Ok(d) =>
        var maxChunk := MaxChunkSeconds(splitByMB, ParseBitrateToBps(bitrate));
        AfterParts(probing, PartsTrace(temp, outputDir, maxChunk, d, run.splitFailure, platform),
                   [Remove(temp), RemoveDir(run.labDir), Done(f, originalSizeMB, run.outputSizeMB, outputDir)])
  }

  /** The part loop after the probe: a loop that does not complete ends the
      iteration there, one that completes is followed by the clean-up and the
      report. */
  function AfterParts(probing: seq<Action>, parts: (seq<Action>, Outcome), ending: seq<Action>): (seq<Action>, Outcome) {
    if parts.1 != Completed then (probing + parts.0, parts.1) else (probing + parts.0 + ending, Completed)
  }

  /** The part loop (cli/engine.ts:114-125): its extractions, and whether it
      ends, stops at a failing extraction or never ends. */
  function PartsTrace(temp: string, outputDir: string, maxChunk: Num, duration: real,
                      failure: Option<(nat, string)>, platform: Platform): (r: (seq<Action>, Outcome))
    requires duration >= 0.0
    ensures r.1 != Completed ==> r.1.Hangs? || failure.Some?
  {
    var m := ChunkSeconds(maxChunk);
    match ChunkCount(duration, maxChunk)
    case Unbounded =>
      if failure.Some? then
        (Extracts(temp, outputDir, m, failure.value.0 + 1), Rejected(CrashMessage(failure.value.1, platform)))
      else ([], Hangs)
    case Count(n) =>
      if failure.Some? && failure.value.0 < n then
        (Extracts(temp, outputDir, m, failure.value.0 + 1), Rejected(CrashMessage(failure.value.1, platform)))
      else (Extracts(temp, outputDir, m, n), Completed)
  }

  /** The actions and outcome of compressAudio over a batch: the files in
      order, the first one that does not complete ending the batch. */
  function AudioBatch(files: seq<File>, bitrate: string, splitByMB: int, runs: seq<AudioRun>,
                      sizeMB: SizeProbe, platform: Platform): (r: (seq<Action>, Outcome))
    requires |runs| == |files| && forall i :: 0 <= i < |runs| ==> ValidRun(runs[i])
    ensures files == [] ==> r == ([], Completed)
  {
    if files == [] then ([], Completed)
    else
      var n := |files| - 1;
      var before := AudioBatch(files[..n], bitrate, splitByMB, runs[..n], sizeMB, platform);
      if before.1 != Completed then before
      else
        var last := AudioStep(files[n], bitrate, splitByMB, runs[n], sizeMB, platform);
        (before.0 + last.0, last.1)
  }

  /** One iteration of compressAudio's loop, from the read of the input's
      size: a missing input throws before anything else is done. */
  function AudioStep(f: File, bitrate: string, splitByMB: int, run: AudioRun, sizeMB: SizeProbe,
                     platform: Platform): (seq<Action>, Outcome)
    requires ValidRun(run)
  {
    match sizeMB(f.originalFullPath)
    case None => ([], Rejected(NotFound(f.originalFullPath)))
    case Some(originalSizeMB) => AudioFileTrace(f, bitrate, splitByMB, run, originalSizeMB, platform)
  }

  /** `compressAudio`: `runs[i]` is what the outside world does for `files[i]`.
      A rejection ends the batch, as the awaited promise throws. */
  method CompressAudio(files: seq<File>, bitrate: string, splitByMB: int, runs: seq<AudioRun>,
                       sizeMB: SizeProbe, platform: Platform)
    returns (trace: seq<Action>, outcome: Outcome)
    requires |runs| == |files| && forall i :: 0 <= i < |runs| ==> ValidRun(runs[i])
    ensures (trace, outcome) == AudioBatch(files, bitrate, splitByMB, runs, sizeMB, platform)
  {
    trace := [];
    for i := 0 to |files|
      invariant (trace, Completed) == AudioBatch(files[..i], bitrate, splitByMB, runs[..i], sizeMB, platform)
    {
      var file := files[i];
      var originalSizeMB := sizeMB(file.originalFullPath);
      var t, o;
      if originalSizeMB.None? {
        t, o := [], Rejected(NotFound(file.originalFullPath));
      } else {
        t, o := CompressAudioFile(file, bitrate, splitByMB, runs[i], originalSizeMB.value, platform);
      }
      trace := trace + t;
      assert files[..i + 1][..i] == files[..i] && runs[..i + 1][..i] == runs[..i];
      assert files[..i + 1][i] == file && runs[..i + 1][i] == runs[i];
      if o != Completed {
        outcome := o;
        BatchStopsAtFailure(files, bitrate, splitByMB, runs, sizeMB, platform, i + 1);
        assert files[..|files|] == files && runs[..|runs|] == runs;
        return;
      }
    }
    outcome := Completed;
    assert files[..|files|] == files && runs[..|runs|] == runs;
  }

  /** Once a prefix of the batch has failed, the rest adds nothing. */
  lemma {:induction false} BatchStopsAtFailure(files: seq<File>, bitrate: string, splitByMB: int, runs: seq<AudioRun>,
                                              sizeMB: SizeProbe, platform: Platform, k: nat)
    requires |runs| == |files| && forall i :: 0 <= i < |runs| ==> ValidRun(runs[i])
    requires k <= |files|
    requires AudioBatch(files[..k], bitrate, splitByMB, runs[..k], sizeMB, platform).1 != Completed
    ensures AudioBatch(files, bitrate, splitByMB, runs, sizeMB, platform) ==
            AudioBatch(files[..k], bitrate, splitByMB, runs[..k], sizeMB, platform)
    decreases |files| - k
  {
    if k < |files| {
      var n := |files| - 1;
      assert files[..k] == files[..n][..k] && runs[..k] == runs[..n][..k];
      BatchStopsAtFailure(files[..n], bitrate, splitByMB, runs[..n], sizeMB, platform, k);
    } else {
      assert files[..k] == files && runs[..k] == runs;
    }
  }

  /** An input that is missing when its size is read stops the batch there
      with `File not found: <path>`, before its encode: nothing is done for it
      or for the files after it. */
  lemma {:induction false} AudioInputNotFound(files: seq<File>, bitrate: string, splitByMB: int, runs: seq<AudioRun>,
                                              sizeMB: SizeProbe, platform: Platform, k: nat)
    requires |runs| == |files| && forall i :: 0 <= i < |runs| ==> ValidRun(runs[i])
    requires k < |files| && sizeMB(files[k].originalFullPath).None?
    requires AudioBatch(files[..k], bitrate, splitByMB, runs[..k], sizeMB, platform).1 == Completed
    ensures AudioBatch(files, bitrate, splitByMB, runs, sizeMB, platform) ==
            (AudioBatch(files[..k], bitrate, splitByMB, runs[..k], sizeMB, platform).0,
             Rejected(NotFound(files[k].originalFullPath)))
  {
    var pre, preRuns := files[..k + 1], runs[..k + 1];
    assert pre[..k] == files[..k] && preRuns[..k] == runs[..k] && pre[k] == files[k];
    var before := AudioBatch(files[..k], bitrate, splitByMB, runs[..k], sizeMB, platform);
    assert AudioStep(files[k], bitrate, splitByMB, preRuns[k], sizeMB, platform) ==
      ([], Rejected(NotFound(files[k].originalFullPath)));
    assert AudioBatch(pre, bitrate, splitByMB, preRuns, sizeMB, platform) ==
      (before.0 + [], Rejected(NotFound(files[k].originalFullPath)));
    assert before.0 + [] == before.0;
    BatchStopsAtFailure(files, bitrate, splitByMB, runs, sizeMB, platform, k + 1);
  }

  /** The part loop: one extraction per part, awaited in turn. The loop that
      never ends is reported as such, after the extractions up to a failing
      one. */
  method RunParts(temp: string, outputDir: string, maxChunk: Num, duration: real,
                  failure: Option<(nat, string)>, platform: Platform)
    returns (actions: seq<Action>, outcome: Outcome)
    requires duration >= 0.0
    ensures (actions, outcome) == PartsTrace(temp, outputDir, maxChunk, duration, failure, platform)
  {
    var numChunks := ChunkCount(duration, maxChunk);
    var m := ChunkSeconds(maxChunk);
    var bound: nat;
    if numChunks.Unbounded? {
      if failure.None? {
        return [], Hangs;
      }
      bound := failure.value.0 + 1;
    } else {
      bound := numChunks.n;
    }
    actions := [];
    for i := 0 to bound
      invariant actions == Extracts(temp, outputDir, m, i)
      invariant numChunks.Unbounded? ==> failure.Some?
      invariant failure.Some? ==> i <= failure.value.0
    {
      var startSec := PartStart(i, m);
      var partOutputPath := JoinPath(outputDir, PartName(i));
      actions := actions + [Extract(SplitCommand(temp, startSec, m, "copy", partOutputPath))];
      if failure.Some? && failure.value.0 == i {
        return actions, Rejected(CrashMessage(failure.value.1, platform));
      }
    }
    outcome := Completed;
  }

  /** One iteration of compressAudio's loop (cli/engine.ts:79-145). */
  method CompressAudioFile(file: File, bitrate: string, splitByMB: int, run: AudioRun, originalSizeMB: real,
                           platform: Platform)
    returns (trace: seq<Action>, outcome: Outcome)
    requires ValidRun(run)
    ensures (trace, outcome) == AudioFileTrace(file, bitrate, splitByMB, run, originalSizeMB, platform)
  {
    var outputFileName := file.alias + ".mp3";
    var outputFullPathTemp := JoinPath(run.labDir, outputFileName);
    trace := [Encode(file.originalFullPath, bitrate, outputFullPathTemp)];
    ghost var encoding := trace;
    for k := 0 to |run.progress|
      invariant trace == encoding + ProgressActions(run.progress[..k], file.baseName)
    {
      trace := trace + [Notify(Progress(run.progress[k] as real, file.baseName, None))];
    }
    assert run.progress[..|run.progress|] == run.progress;
    if run.encodeError.Some? {
      return trace, Rejected(CrashMessage(run.encodeError.value, platform));
    }
    var outputSize := run.outputSizeMB;
    if splitByMB != 0 && outputSize > splitByMB as real {
      var outputDir := JoinPath(file.dir, file.baseName + "_split");
      trace := trace + [MakeDir(outputDir), Probe(outputFullPathTemp)];
      if run.duration.Err? {
        return trace, Rejected(run.duration.message);
      }
      var totalDuration := run.duration.value;
      var bps := ParseBitrateToBps(bitrate);
      var maxChunkDurationSec := MaxChunkSeconds(splitByMB, bps);
      var parts, partsOutcome := RunParts(outputFullPathTemp, outputDir, maxChunkDurationSec, totalDuration,
                                          run.splitFailure, platform);
      trace := trace + parts;
      if partsOutcome != Completed {
        return trace, partsOutcome;
      }
      trace := trace + [Remove(outputFullPathTemp), RemoveDir(run.labDir),
                        Notify(FileDone(FileResult(file.baseName, true, originalSizeMB, outputSize, outputDir)))];
    } else {
      var newLoc := JoinPath(file.dir, file.baseName + "__HardBraked__" + bitrate + ".mp3");
      trace := trace + [Rename(outputFullPathTemp, newLoc), RemoveDir(run.labDir),
                        Notify(FileDone(FileResult(file.baseName, true, originalSizeMB, outputSize, newLoc)))];
    }
    outcome := Completed;
  }

  // ---------------------------------------------------------------------------
  // Properties of compressAudio

  /** An encoded file within the limit (or with no limit) is renamed next to
      its input as `<base>__HardBraked__<bitrate>.mp3`, and that is what is
      reported. */
  lemma {:induction false} AudioRenamedWhenSmall(f: File, bitrate: string, splitByMB: int, run: AudioRun, originalSizeMB: real,
                              platform: Platform)
    requires ValidRun(run) && run.encodeError.None? && !ShouldSplit(splitByMB, run.outputSizeMB)
    ensures var r := AudioFileTrace(f, bitrate, splitByMB, run, originalSizeMB, platform);
      var newLoc := RenamedPath(f.dir, f.baseName, bitrate);
      r.1 == Completed && |r.0| >= 3 &&
      r.0[|r.0| - 3] == Rename(TempPath(run.labDir, f.alias), newLoc) &&
      r.0[|r.0| - 1] == Done(f, originalSizeMB, run.outputSizeMB, newLoc) &&
      forall a :: a in r.0 ==> !a.Extract? && !a.MakeDir?
  {
  }

  /** An encoded file over the limit with a usable bitrate is cut into
      `ceil(duration / maxChunk)` parts, exactly the extractions
      `PartCommand(i)` in order; the encoded file is then removed and the split
      directory is reported. */
  lemma {:induction false} AudioSplitIntoParts(f: File, bitrate: string, splitByMB: int, run: AudioRun, originalSizeMB: real,
                            platform: Platform, m: int)
    requires ValidRun(run) && run.encodeError.None? && ShouldSplit(splitByMB, run.outputSizeMB)
    requires run.duration.Ok? && run.splitFailure.None?
    requires MaxChunkSeconds(splitByMB, ParseBitrateToBps(bitrate)) == Finite(m) && m >= 1
    ensures var r := AudioFileTrace(f, bitrate, splitByMB, run, originalSizeMB, platform);
      var temp := TempPath(run.labDir, f.alias);
      var outputDir := SplitDir(f.dir, f.baseName);
      var n := Ceil(run.duration.value / m as real);
      var k := 3 + |run.progress|;
      r.1 == Completed && |r.0| == k + n + 3 &&
      r.0[k..k + n] == Extracts(temp, outputDir, m, n) &&
      r.0[k + n..] == [Remove(temp), RemoveDir(run.labDir), Done(f, originalSizeMB, run.outputSizeMB, outputDir)]
  {
    var r := AudioFileTrace(f, bitrate, splitByMB, run, originalSizeMB, platform);
    var temp := TempPath(run.labDir, f.alias);
    var outputDir := SplitDir(f.dir, f.baseName);
    var n := Ceil(run.duration.value / m as real);
    ChunkCountMinimal(run.duration.value, m);
    var probing := [Encode(f.originalFullPath, bitrate, temp)] + ProgressActions(run.progress, f.baseName) +
                   [MakeDir(outputDir), Probe(temp)];
    var tail := [Remove(temp), RemoveDir(run.labDir), Done(f, originalSizeMB, run.outputSizeMB, outputDir)];
    assert r.0 == probing + Extracts(temp, outputDir, m, n) + tail;
  }

  /** When the bitrate leaves zero seconds per part and the file is not empty,
      the part loop never ends unless an extraction fails. */
  lemma {:induction false} AudioZeroSecondPartsHang(f: File, bitrate: string, splitByMB: int, run: AudioRun, originalSizeMB: real,
                                 platform: Platform)
    requires ValidRun(run) && run.encodeError.None? && ShouldSplit(splitByMB, run.outputSizeMB)
    requires run.duration.Ok? && run.duration.value > 0.0 && run.splitFailure.None?
    requires MaxChunkSeconds(splitByMB, ParseBitrateToBps(bitrate)) == Finite(0)
    ensures AudioFileTrace(f, bitrate, splitByMB, run, originalSizeMB, platform).1 == Hangs
  {
  }

  /** An empty encoded file over the limit gives an empty split directory,
      which is still what is reported. */
  lemma {:induction false} AudioEmptySplit(f: File, bitrate: string, splitByMB: int, run: AudioRun, originalSizeMB: real,
                        platform: Platform)
    requires ValidRun(run) && run.encodeError.None? && ShouldSplit(splitByMB, run.outputSizeMB)
    requires run.duration == Ok(0.0)
    ensures var r := AudioFileTrace(f, bitrate, splitByMB, run, originalSizeMB, platform);
      r.1 == Completed && r.0[|r.0| - 1] == Done(f, originalSizeMB, run.outputSizeMB, SplitDir(f.dir, f.baseName)) &&
      forall a :: a in r.0 ==> !a.Extract?
  {
    var temp := TempPath(run.labDir, f.alias);
    var outputDir := SplitDir(f.dir, f.baseName);
    var start := [Encode(f.originalFullPath, bitrate, temp)] + ProgressActions(run.progress, f.baseName);
    var ending := [Remove(temp), RemoveDir(run.labDir), Done(f, originalSizeMB, run.outputSizeMB, outputDir)];
    EmptySplitShape(f, bitrate, splitByMB, run, originalSizeMB, platform);
    StartNoExtract(f, bitrate, temp, run.progress);
    assert forall a :: a in [MakeDir(outputDir), Probe(temp)] + ending ==> !a.Extract?;
  }

  /** The actions of an iteration whose encoded file is over the limit and
      whose duration was read: the encode, the probe, then the part loop. */
  lemma {:induction false} SplitShape(f: File, bitrate: string, splitByMB: int, run: AudioRun, originalSizeMB: real,
                   platform: Platform)
    requires ValidRun(run) && run.encodeError.None? && ShouldSplit(splitByMB, run.outputSizeMB)
    requires run.duration.Ok?
    ensures var temp := TempPath(run.labDir, f.alias);
      var outputDir := SplitDir(f.dir, f.baseName);
      AudioFileTrace(f, bitrate, splitByMB, run, originalSizeMB, platform) ==
        AfterParts([Encode(f.originalFullPath, bitrate, temp)] + ProgressActions(run.progress, f.baseName) +
                   [MakeDir(outputDir), Probe(temp)],
                   PartsTrace(temp, outputDir, MaxChunkSeconds(splitByMB, ParseBitrateToBps(bitrate)),
                              run.duration.value, run.splitFailure, platform),
                   [Remove(temp), RemoveDir(run.labDir), Done(f, originalSizeMB, run.outputSizeMB, outputDir)])
  {
  }

  /** The actions of an iteration whose encoded file is empty and over the
      limit: the encode, the probe and the clean-up, with no part between. */
  lemma {:induction false} EmptySplitShape(f: File, bitrate: string, splitByMB: int, run: AudioRun, originalSizeMB: real,
                        platform: Platform)
    requires ValidRun(run) && run.encodeError.None? && ShouldSplit(splitByMB, run.outputSizeMB)
    requires run.duration == Ok(0.0)
    ensures var temp := TempPath(run.labDir, f.alias);
      var outputDir := SplitDir(f.dir, f.baseName);
      AudioFileTrace(f, bitrate, splitByMB, run, originalSizeMB, platform) ==
        ([Encode(f.originalFullPath, bitrate, temp)] + ProgressActions(run.progress, f.baseName) +
         ([MakeDir(outputDir), Probe(temp)] +
          [Remove(temp), RemoveDir(run.labDir), Done(f, originalSizeMB, run.outputSizeMB, outputDir)]),
         Completed)
  {
    var maxChunk := MaxChunkSeconds(splitByMB, ParseBitrateToBps(bitrate));
    var temp := TempPath(run.labDir, f.alias);
    var outputDir := SplitDir(f.dir, f.baseName);
    EmptyParts(temp, outputDir, maxChunk, run.splitFailure, platform);
    var start := [Encode(f.originalFullPath, bitrate, temp)] + ProgressActions(run.progress, f.baseName);
    var ending := [Remove(temp), RemoveDir(run.labDir), Done(f, originalSizeMB, run.outputSizeMB, outputDir)];
    var probing := start + [MakeDir(outputDir), Probe(temp)];
    SplitShape(f, bitrate, splitByMB, run, originalSizeMB, platform);
    assert probing + [] == probing;
    AppendAssoc(start, [MakeDir(outputDir), Probe(temp)], ending);
  }

  /** The encode and its progress reports extract nothing. */
  lemma {:induction false} StartNoExtract(f: File, bitrate: string, temp: string, percents: seq<int>)
    ensures forall a :: a in [Encode(f.originalFullPath, bitrate, temp)] + ProgressActions(percents, f.baseName) ==> !a.Extract?
  {
    var ps := ProgressActions(percents, f.baseName);
    forall a | a in ps
      ensures !a.Extract?
    {
      var i :| 0 <= i < |ps| && ps[i] == a;
    }
  }

  /** A zero-length recording gives no parts and a loop that completes. */
  lemma {:induction false} EmptyParts(temp: string, outputDir: string, maxChunk: Num, failure: Option<(nat, string)>, platform: Platform)
    ensures PartsTrace(temp, outputDir, maxChunk, 0.0, failure, platform) == ([], Completed)
  {
    ZeroDurationNoParts(maxChunk);
    assert Extracts(temp, outputDir, ChunkSeconds(maxChunk), 0) == [];
  }

  predicate IsDoneAction(a: Action) {
    a.Notify? && a.event.FileDone?
  }

  lemma {:induction false} NoDoneActions(xs: seq<Action>)
    requires forall i :: 0 <= i < |xs| ==> !IsDoneAction(xs[i])
    ensures Filter(xs, IsDoneAction) == []
  {
    FilterAllOrNothing(xs, IsDoneAction);
  }

  /** The completion report a `Notify(FileDone(...))` action carries. */
  function ResultOf(a: Action): FileResult
    requires IsDoneAction(a)
  {
    a.event.result
  }

  /** Appending one report to actions without reports. */
  lemma {:induction false} OneDoneAtEnd(xs: seq<Action>, last: Action)
    requires Filter(xs, IsDoneAction) == [] && IsDoneAction(last)
    ensures Filter(xs + [last], IsDoneAction) == [last]
  {
    FilterAppend(xs, [last], IsDoneAction);
  }

  /** The encode and its progress reports, before anything else. */
  lemma {:induction false} StartHasNoDone(f: File, bitrate: string, temp: string, percents: seq<int>)
    ensures Filter([Encode(f.originalFullPath, bitrate, temp)] + ProgressActions(percents, f.baseName), IsDoneAction) == []
  {
    var ps := ProgressActions(percents, f.baseName);
    NoDoneActions([Encode(f.originalFullPath, bitrate, temp)]);
    NoDoneActions(ps);
    FilterAppend([Encode(f.originalFullPath, bitrate, temp)], ps, IsDoneAction);
  }

  /** The encode, its progress reports, the new directory and the probe. */
  lemma {:induction false} ProbingHasNoDone(f: File, bitrate: string, temp: string, outputDir: string, percents: seq<int>)
    ensures Filter([Encode(f.originalFullPath, bitrate, temp)] + ProgressActions(percents, f.baseName) +
                   [MakeDir(outputDir), Probe(temp)], IsDoneAction) == []
  {
    StartHasNoDone(f, bitrate, temp, percents);
    NoDoneAppend([Encode(f.originalFullPath, bitrate, temp)] + ProgressActions(percents, f.baseName),
                 [MakeDir(outputDir), Probe(temp)]);
  }

  /** Actions without reports, then more actions without reports. */
  lemma {:induction false} NoDoneAppend(xs: seq<Action>, ys: seq<Action>)
    requires Filter(xs, IsDoneAction) == []
    requires forall i :: 0 <= i < |ys| ==> !IsDoneAction(ys[i])
    ensures Filter(xs + ys, IsDoneAction) == []
  {
    NoDoneActions(ys);
    FilterAppend(xs, ys, IsDoneAction);
  }

  lemma {:induction false} ExtractsNoDone(temp: string, outputDir: string, m: int, n: nat)
    ensures Filter(Extracts(temp, outputDir, m, n), IsDoneAction) == []
  {
    NoDoneActions(Extracts(temp, outputDir, m, n));
  }

  lemma {:induction false} RenamedReportedOnce(f: File, bitrate: string, splitByMB: int, run: AudioRun,
                            originalSizeMB: real, platform: Platform)
    requires ValidRun(run) && run.encodeError.None? && !ShouldSplit(splitByMB, run.outputSizeMB)
    ensures var r := AudioFileTrace(f, bitrate, splitByMB, run, originalSizeMB, platform);
      var done := Done(f, originalSizeMB, run.outputSizeMB, RenamedPath(f.dir, f.baseName, bitrate));
      r.1 == Completed && r.0 != [] && r.0[|r.0| - 1] == done && Filter(r.0, IsDoneAction) == [done]
  {
    var r := AudioFileTrace(f, bitrate, splitByMB, run, originalSizeMB, platform);
    var temp := TempPath(run.labDir, f.alias);
    var newLoc := RenamedPath(f.dir, f.baseName, bitrate);
    var start := [Encode(f.originalFullPath, bitrate, temp)] + ProgressActions(run.progress, f.baseName);
    StartHasNoDone(f, bitrate, temp, run.progress);
    NoDoneAppend(start, [Rename(temp, newLoc), RemoveDir(run.labDir)]);
    var pre := start + [Rename(temp, newLoc), RemoveDir(run.labDir)];
    OneDoneAtEnd(pre, Done(f, originalSizeMB, run.outputSizeMB, newLoc));
    assert r.0 == pre + [Done(f, originalSizeMB, run.outputSizeMB, newLoc)];
  }

  lemma {:induction false} SplitReportedOnce(f: File, bitrate: string, splitByMB: int, run: AudioRun,
                          originalSizeMB: real, platform: Platform)
    requires ValidRun(run) && run.encodeError.None? && ShouldSplit(splitByMB, run.outputSizeMB) && run.duration.Ok?
    ensures var r := AudioFileTrace(f, bitrate, splitByMB, run, originalSizeMB, platform);
      var done := Done(f, originalSizeMB, run.outputSizeMB, SplitDir(f.dir, f.baseName));
      (r.1 == Completed ==> r.0 != [] && r.0[|r.0| - 1] == done && Filter(r.0, IsDoneAction) == [done]) &&
      (r.1 != Completed ==> Filter(r.0, IsDoneAction) == [])
  {
    var temp := TempPath(run.labDir, f.alias);
    var outputDir := SplitDir(f.dir, f.baseName);
    var maxChunk := MaxChunkSeconds(splitByMB, ParseBitrateToBps(bitrate));
    ProbingHasNoDone(f, bitrate, temp, outputDir, run.progress);
    PartsNoDone(temp, outputDir, maxChunk, run.duration.value, run.splitFailure, platform);
    ReportedAfterParts([Encode(f.originalFullPath, bitrate, temp)] + ProgressActions(run.progress, f.baseName) +
                       [MakeDir(outputDir), Probe(temp)],
                       PartsTrace(temp, outputDir, maxChunk, run.duration.value, run.splitFailure, platform),
                       [Remove(temp), RemoveDir(run.labDir), Done(f, originalSizeMB, run.outputSizeMB, outputDir)]);
    SplitShape(f, bitrate, splitByMB, run, originalSizeMB, platform);
  }

  /** The part loop reports nothing: it only extracts. */
  lemma {:induction false} PartsNoDone(temp: string, outputDir: string, maxChunk: Num, duration: real,
                    failure: Option<(nat, string)>, platform: Platform)
    requires duration >= 0.0
    ensures Filter(PartsTrace(temp, outputDir, maxChunk, duration, failure, platform).0, IsDoneAction) == []
  {
    var m := ChunkSeconds(maxChunk);
    match ChunkCount(duration, maxChunk)
    case Unbounded =>
      if failure.Some? {
        ExtractsNoDone(temp, outputDir, m, failure.value.0 + 1);
      }
    case Count(n) =>
      if failure.Some? && failure.value.0 < n {
        ExtractsNoDone(temp, outputDir, m, failure.value.0 + 1);
      } else {
        ExtractsNoDone(temp, outputDir, m, n);
      }
  }

  /** Two stretches without reports, then, when the part loop completes, an
      ending whose only report is its last action. */
  lemma {:induction false} ReportedAfterParts(probing: seq<Action>, parts: (seq<Action>, Outcome), ending: seq<Action>)
    requires Filter(probing, IsDoneAction) == [] && Filter(parts.0, IsDoneAction) == []
    requires |ending| > 0 && IsDoneAction(ending[|ending| - 1])
    requires forall i :: 0 <= i < |ending| - 1 ==> !IsDoneAction(ending[i])
    ensures var r := AfterParts(probing, parts, ending);
      (r.1 == Completed ==> r.0 != [] && r.0[|r.0| - 1] == ending[|ending| - 1] && Filter(r.0, IsDoneAction) == [ending[|ending| - 1]]) &&
      (r.1 != Completed ==> Filter(r.0, IsDoneAction) == [])
  {
    var pre := probing + parts.0;
    FilterAppend(probing, parts.0, IsDoneAction);
    var init, last := ending[..|ending| - 1], ending[|ending| - 1];
    assert init + [last] == ending;
    NoDoneAppend(pre, init);
    OneDoneAtEnd(pre + init, last);
    AppendAssoc(pre, init, [last]);
  }

  /** A file whose processing completes is reported exactly once, as its last
      action, successful and under its base name; a file that does not
      complete is not reported. */
  lemma {:induction false} AudioFileReportedOnce(f: File, bitrate: string, splitByMB: int, run: AudioRun,
                              originalSizeMB: real, platform: Platform)
    requires ValidRun(run)
    ensures var r := AudioFileTrace(f, bitrate, splitByMB, run, originalSizeMB, platform);
      r.1 == Completed ==>
        r.0 != [] && IsDoneAction(r.0[|r.0| - 1]) &&
        Filter(r.0, IsDoneAction) == [r.0[|r.0| - 1]] &&
        ResultOf(r.0[|r.0| - 1]).fileName == f.baseName && ResultOf(r.0[|r.0| - 1]).success
    ensures var r := AudioFileTrace(f, bitrate, splitByMB, run, originalSizeMB, platform);
      r.1 != Completed ==> Filter(r.0, IsDoneAction) == []
  {
    var temp := TempPath(run.labDir, f.alias);
    if run.encodeError.Some? {
      StartHasNoDone(f, bitrate, temp, run.progress);
    } else if !ShouldSplit(splitByMB, run.outputSizeMB) {
      RenamedReportedOnce(f, bitrate, splitByMB, run, originalSizeMB, platform);
    } else if run.duration.Err? {
      StartHasNoDone(f, bitrate, temp, run.progress);
      NoDoneAppend([Encode(f.originalFullPath, bitrate, temp)] + ProgressActions(run.progress, f.baseName),
                   [MakeDir(SplitDir(f.dir, f.baseName)), Probe(temp)]);
    } else {
      SplitReportedOnce(f, bitrate, splitByMB, run, originalSizeMB, platform);
    }
  }

  /** The reports `dones` name the first `|dones|` files, in order, as successes. */
  predicate ReportsFiles(dones: seq<Action>, files: seq<File>) {
    |dones| <= |files| &&
    forall i :: 0 <= i < |dones| ==>
      (IsDoneAction(dones[i]) && ResultOf(dones[i]).fileName == files[i].baseName && ResultOf(dones[i]).success)
  }

  lemma {:induction false} ReportsFilesStep(d0: seq<Action>, d1: seq<Action>, files: seq<File>)
    requires files != [] && ReportsFiles(d0, files[..|files| - 1])
    requires d1 != [] ==>
      (|d0| == |files| - 1 && |d1| == 1 && IsDoneAction(d1[0]) &&
       ResultOf(d1[0]).fileName == files[|files| - 1].baseName && ResultOf(d1[0]).success)
    requires |d1| <= 1
    ensures ReportsFiles(d0 + d1, files)
  {
    assert forall i :: 0 <= i < |d0| ==> files[..|files| - 1][i] == files[i];
  }

  /** A batch that completes reports every file once, in input order, all
      successful; a batch that stops reports only the files before the one
      that stopped it. */
  lemma {:induction false} AudioBatchReports(files: seq<File>, bitrate: string, splitByMB: int, runs: seq<AudioRun>,
                                             sizeMB: SizeProbe, platform: Platform)
    requires |runs| == |files| && forall i :: 0 <= i < |runs| ==> ValidRun(runs[i])
    ensures var r := AudioBatch(files, bitrate, splitByMB, runs, sizeMB, platform);
      var dones := Filter(r.0, IsDoneAction);
      ReportsFiles(dones, files) &&
      (r.1 == Completed ==> |dones| == |files|) &&
      (r.1 != Completed ==> |dones| < |files|)
    decreases |files|
  {
    if files != [] {
      var n := |files| - 1;
      AudioBatchReports(files[..n], bitrate, splitByMB, runs[..n], sizeMB, platform);
      var before := AudioBatch(files[..n], bitrate, splitByMB, runs[..n], sizeMB, platform);
      var d0 := Filter(before.0, IsDoneAction);
      var last := AudioStep(files[n], bitrate, splitByMB, runs[n], sizeMB, platform);
      if before.1 != Completed {
        ReportsFilesStep(d0, [], files);
        assert d0 + [] == d0;
      } else {
        assert AudioBatch(files, bitrate, splitByMB, runs, sizeMB, platform) == (before.0 + last.0, last.1);
        FilterAppend(before.0, last.0, IsDoneAction);
        if sizeMB(files[n].originalFullPath).Some? {
          AudioFileReportedOnce(files[n], bitrate, splitByMB, runs[n], sizeMB(files[n].originalFullPath).value, platform);
          ReportsFilesStep(d0, Filter(last.0, IsDoneAction), files);
        } else {
          assert Filter(last.0, IsDoneAction) == [];
          ReportsFilesStep(d0, [], files);
        }
      }
    }
  }
}
