/** `compressVideo` and `compressAudio` of src/engine.ts, the older engine of
    the desktop app. The processes it runs, the progress bar and the prompts
    are oracles or recorded calls: what HandBrakeCLI prints for each file, the
    answers given to the two prompts, and the directory listings `readdirSync`
    returns. */
module SrcEngine {
  import opened Wrappers
  import opened Seqs
  import opened Text
  import opened Shell
  import opened Progress
  import CliEngine

  /** An input file as src/engine.ts uses it (src/blueprints.ts is not part
      of this model); the engine fills in `outputFullPath` and `cmd`, the
      empty string standing for "not yet set". */
  class File {
    const originalFullPath: string
    const dir: string
    const fileNameWithoutExtension: string
    var outputFullPath: string
    var cmd: string

    constructor(originalFullPath: string, dir: string, fileNameWithoutExtension: string)
      ensures this.originalFullPath == originalFullPath && this.dir == dir
      ensures this.fileNameWithoutExtension == fileNameWithoutExtension
      ensures outputFullPath == "" && cmd == ""
    {
      this.originalFullPath := originalFullPath;
      this.dir := dir;
      this.fileNameWithoutExtension := fileNameWithoutExtension;
      outputFullPath := "";
      cmd := "";
    }
  }

  // ---------------------------------------------------------------------------
  // compressVideo: names and commands (src/engine.ts:19-26)

  /** `<dir>/<base>__HandBraked__<preset>.mp4`. */
  function VideoOutputPath(dir: string, name: string, preset: string): string {
    JoinPath(dir, name + "__HandBraked__" + preset + ".mp4")
  }

  /** The command template: every path between single quotes, none escaped. */
  function VideoCommand(src: string, out: string, preset: string, flag: string): string {
    "HandBrakeCLI -i '" + (src + ("' " + (flag + (" -o '" + (out + ("' -Z '" + (preset + "'")))))))
  }

  /** The command starts with the program name, so the `Command not found`
      guard of the second loop (src/engine.ts:31) never fires. */
  lemma {:induction false} VideoCommandNonEmpty(src: string, out: string, preset: string, flag: string)
    ensures |VideoCommand(src, out, preset, flag)| >= 12
    ensures VideoCommand(src, out, preset, flag)[..12] == "HandBrakeCLI"
  {
    var cmd := VideoCommand(src, out, preset, flag);
    assert cmd == "HandBrakeCLI" + cmd[12..];
  }

  /** The `-Z` option closing the command. */
  lemma {:induction false} PresetAtEnd(preset: string)
    ensures Lex("-Z " + ("'" + EscapeSingleQuotes(preset) + "'"), None, false) == Some([Word("-Z"), Word(preset)])
  {
    var e := "'" + EscapeSingleQuotes(preset) + "'";
    ShellQuoteUnixReadsBackAtEnd(preset);
    assert "-Z " == "-Z" + " ";
    AppendAssoc("-Z", " ", e);
    CliEngine.TemplateWordsPlain();
    PlainWord("-Z", e);
    assert Lex("-Z " + e, None, false) == Some([Word("-Z")] + [Word(preset)]);
    assert [Word("-Z")] + [Word(preset)] == [Word("-Z"), Word(preset)];
  }

  /** The quoted output path followed by the `-Z` option. */
  lemma {:induction false} OutputThenPreset(out: string, preset: string)
    ensures Lex(ShellQuoteUnix(out) + ("-Z " + ("'" + EscapeSingleQuotes(preset) + "'")), None, false) ==
            Some([Word(out), Word("-Z"), Word(preset)])
  {
    var z := "-Z " + ("'" + EscapeSingleQuotes(preset) + "'");
    PresetAtEnd(preset);
    ShellQuoteUnixReadsBack(out, z);
    assert Lex(ShellQuoteUnix(out) + z, None, false) == Some([Word(out)] + [Word("-Z"), Word(preset)]);
    assert [Word(out)] + [Word("-Z"), Word(preset)] == [Word(out), Word("-Z"), Word(preset)];
  }

  /** The `-o` and `-Z` options at the end of the command. */
  lemma {:induction false} OutputAndPreset(out: string, preset: string)
    ensures Lex("-o " + (ShellQuoteUnix(out) + ("-Z " + ("'" + EscapeSingleQuotes(preset) + "'"))), None, false) ==
            Some([Word("-o"), Word(out), Word("-Z"), Word(preset)])
  {
    var o := ShellQuoteUnix(out) + ("-Z " + ("'" + EscapeSingleQuotes(preset) + "'"));
    OutputThenPreset(out, preset);
    assert "-o " == "-o" + " ";
    AppendAssoc("-o", " ", o);
    CliEngine.TemplateWordsPlain();
    PlainWord("-o", o);
    assert Lex("-o " + o, None, false) == Some([Word("-o")] + [Word(out), Word("-Z"), Word(preset)]);
    assert [Word("-o")] + [Word(out), Word("-Z"), Word(preset)] == [Word("-o"), Word(out), Word("-Z"), Word(preset)];
  }

  /** The audio flag (possibly empty) in front of the `-o` option. */
  lemma {:induction false} FlagWords(rest: string)
    ensures Lex("-a none" + (" " + rest), None, false) == Prepend([Word("-a"), Word("none")], Lex(rest, None, false))
  {
    CliEngine.AudioFlagWords(rest);
    CliEngine.TemplateWordsPlain();
    TwoWords("-a", "none", rest);
  }

  lemma {:induction false} NoFlag(rest: string)
    ensures Lex("" + (" " + rest), None, false) == Prepend([], Lex(rest, None, false))
  {
    assert "" + (" " + rest) == " " + rest;
    BlankSeparates(rest);
    var r := Lex(rest, None, false);
    if r.Some? {
      assert [] + r.value == r.value;
    }
  }

  // The literal pieces of the template, each split where a quoted span
  // opens or closes.

  lemma {:induction false} PresetPieceSplit(x: string)
    ensures "' -Z '" + x == "' " + ("-Z " + ("'" + x))
  {
    assert "' -Z '" == "' " + "-Z " + "'";
  }

  lemma {:induction false} OutputPieceSplit(x: string)
    ensures " -o '" + x == " " + ("-o " + ("'" + x))
  {
    assert " -o '" == " " + "-o " + "'";
  }

  lemma {:induction false} HeadPieceSplit(x: string)
    ensures "HandBrakeCLI -i '" + x == "HandBrakeCLI" + (" " + ("-i" + (" " + ("'" + x))))
  {
    assert "HandBrakeCLI -i '" == "HandBrakeCLI" + " " + "-i" + " " + "'";
  }

  /** A quoted span closed by the first character of what follows. */
  lemma {:induction false} QuotedSplit(p: string, y: string)
    requires '\'' !in p
    ensures "'" + (p + ("' " + y)) == ShellQuoteUnix(p) + y
  {
    assert ShellQuoteUnix(p) == "'" + p + "' ";
  }

  /** The end of the template regrouped around the quoted output and preset. */
  lemma {:induction false} OutputSpanSplit(out: string, preset: string)
    requires '\'' !in out && '\'' !in preset
    ensures " -o '" + (out + ("' -Z '" + (preset + "'"))) ==
            " " + ("-o " + (ShellQuoteUnix(out) + ("-Z " + ("'" + EscapeSingleQuotes(preset) + "'"))))
  {
    var e := "'" + EscapeSingleQuotes(preset) + "'";
    assert e == "'" + (preset + "'");
    PresetPieceSplit(preset + "'");
    QuotedSplit(out, "-Z " + e);
    OutputPieceSplit(out + ("' -Z '" + (preset + "'")));
  }

  /** The template regrouped around its quoted spans. */
  lemma {:induction false} VideoCommandSplit(src: string, out: string, preset: string, flag: string)
    requires '\'' !in src && '\'' !in out && '\'' !in preset
    ensures VideoCommand(src, out, preset, flag) ==
            "HandBrakeCLI" + (" " + ("-i" + (" " + (ShellQuoteUnix(src) + (flag + (" " +
              ("-o " + (ShellQuoteUnix(out) + ("-Z " + ("'" + EscapeSingleQuotes(preset) + "'"))))))))))
  {
    var of := " -o '" + (out + ("' -Z '" + (preset + "'")));
    OutputSpanSplit(out, preset);
    QuotedSplit(src, flag + of);
    HeadPieceSplit(src + ("' " + (flag + of)));
  }

  /** When no path and not the preset holds a single quote, the command reads
      back under the POSIX shell quoting rules as HandBrakeCLI's intended
      argument vector. */
  lemma {:induction false} VideoCommandArgv(src: string, out: string, preset: string, keepAudio: Option<bool>)
    requires '\'' !in src && '\'' !in out && '\'' !in preset
    ensures Tokens(VideoCommand(src, out, preset, CliEngine.AudioFlag(keepAudio))) ==
            Some(CliEngine.VideoArgv(src, out, preset, keepAudio))
  {
    var o := "-o " + (ShellQuoteUnix(out) + ("-Z " + ("'" + EscapeSingleQuotes(preset) + "'")));
    var tail := [Word("-o"), Word(out), Word("-Z"), Word(preset)];
    OutputAndPreset(out, preset);
    if keepAudio == Some(false) {
      FlagWords(o);
      CommandReadsBackWith(src, out, preset, "-a none", [Word("-a"), Word("none")]);
    } else {
      NoFlag(o);
      assert [] + tail == tail;
      CommandReadsBackWith(src, out, preset, "", []);
    }
  }

  /** The template reads back as the program name, `-i`, the source path, the
      words the flag stands for and the output and preset options, whatever
      the flag, provided the flag reads back as those words. */
  lemma {:induction false} CommandReadsBackWith(src: string, out: string, preset: string, flag: string, mid: seq<Token>)
    requires '\'' !in src && '\'' !in out && '\'' !in preset
    requires Lex(flag + (" " + ("-o " + (ShellQuoteUnix(out) + ("-Z " + ("'" + EscapeSingleQuotes(preset) + "'"))))), None, false) ==
             Some(mid + [Word("-o"), Word(out), Word("-Z"), Word(preset)])
    ensures Tokens(VideoCommand(src, out, preset, flag)) ==
            Some([Word("HandBrakeCLI"), Word("-i"), Word(src)] + mid + [Word("-o"), Word(out), Word("-Z"), Word(preset)])
  {
    var o := "-o " + (ShellQuoteUnix(out) + ("-Z " + ("'" + EscapeSingleQuotes(preset) + "'")));
    var tail := [Word("-o"), Word(out), Word("-Z"), Word(preset)];
    VideoCommandSplit(src, out, preset, flag);
    ShellQuoteUnixReadsBack(src, flag + (" " + o));
    CliEngine.TemplateWordsPlain();
    TwoWords("HandBrakeCLI", "-i", ShellQuoteUnix(src) + (flag + (" " + o)));
    assert [Word("HandBrakeCLI"), Word("-i")] + ([Word(src)] + (mid + tail)) ==
           [Word("HandBrakeCLI"), Word("-i"), Word(src)] + mid + tail;
  }

  /** A source path with a single quote in it is never read back as itself:
      the quote ends the quoted span instead of being part of the path, so the
      command either leaves the quoting unbalanced or passes HandBrakeCLI
      another argument vector. */
  lemma {:induction false} QuotedPathMisread(src: string, out: string, preset: string, keepAudio: Option<bool>)
    requires '\'' in src
    requires '\\' !in src && '\\' !in out && '\\' !in preset
    ensures Tokens(VideoCommand(src, out, preset, CliEngine.AudioFlag(keepAudio))) !=
            Some(CliEngine.VideoArgv(src, out, preset, keepAudio))
  {
    var flag := CliEngine.AudioFlag(keepAudio);
    var cmd := VideoCommand(src, out, preset, flag);
    assert '\\' !in flag;
    CommandWithoutBackslash(src, out, preset, flag);
    QuotesNeedBackslash(cmd, None, false);
    ArgvHoldsQuote(src, out, preset, keepAudio);
  }

  lemma {:induction false} CommandWithoutBackslash(src: string, out: string, preset: string, flag: string)
    requires '\\' !in src && '\\' !in out && '\\' !in preset && '\\' !in flag
    ensures '\\' !in VideoCommand(src, out, preset, flag)
  {
  }

  /** The argument vector wanted for a quoted source holds a quote. */
  lemma {:induction false} ArgvHoldsQuote(src: string, out: string, preset: string, keepAudio: Option<bool>)
    requires '\'' in src
    ensures !QuoteFree(CliEngine.VideoArgv(src, out, preset, keepAudio))
  {
    var argv := CliEngine.VideoArgv(src, out, preset, keepAudio);
    assert argv[2] == Word(src);
  }

  /** The same path misread with the quoting of cli/engine.ts: there every path
      reads back as itself (`CliEngine.VideoCommandUnixArgv`). */
  lemma {:induction false} QuotedPathFixedByShellQuote(src: string, out: string, preset: string, keepAudio: Option<bool>)
    requires '\'' in src
    requires '\\' !in src && '\\' !in out && '\\' !in preset
    ensures Tokens(VideoCommand(src, out, preset, CliEngine.AudioFlag(keepAudio))) !=
            Tokens(CliEngine.VideoCommand(src, out, preset, keepAudio, false))
  {
    QuotedPathMisread(src, out, preset, keepAudio);
    CliEngine.VideoCommandUnixArgv(src, out, preset, keepAudio);
  }

  // ---------------------------------------------------------------------------
  // compressVideo: the progress bar (src/engine.ts:28-43)

  /** The calls the engine makes on its `ProgressBar`. */
  datatype BarCall =
    | NewLine(percent: real, eta: string, name: string)
    | OneFileDone
    | Stop

  predicate IsOneFileDone(c: BarCall) {
    c.OneFileDone?
  }

  /** The line callback: the bar is updated only when the percent is truthy
      (present and not zero) and an ETA is present. */
  function LineCalls(line: string, name: string): (r: seq<BarCall>)
    ensures |r| <= 1
    ensures r != [] <==>
      GetProgressAndRemainingTime(line).progress.Some? && GetProgressAndRemainingTime(line).progress.value != 0.0 &&
      GetProgressAndRemainingTime(line).remainingTime.Some?
    ensures r != [] ==> r[0] == NewLine(GetProgressAndRemainingTime(line).progress.value,
                                        GetProgressAndRemainingTime(line).remainingTime.value, name)
  {
    var info := GetProgressAndRemainingTime(line);
    if info.progress.Some? && info.progress.value != 0.0 && info.remainingTime.Some? then
      [NewLine(info.progress.value, info.remainingTime.value, name)]
    else []
  }

  function LinesCalls(lines: seq<string>, name: string): (r: seq<BarCall>)
    ensures forall c :: c in r ==> c.NewLine? && c.name == name && c.percent > 0.0 && c.eta != []
  {
    if lines == [] then []
    else LinesCalls(lines[..|lines| - 1], name) + LineCalls(lines[|lines| - 1], name)
  }

  /** One file: its progress lines, then `handleOneFileDone`. */
  function FileCalls(f: File, lines: seq<string>): seq<BarCall> {
    LinesCalls(lines, f.fileNameWithoutExtension) + [OneFileDone]
  }

  function BatchCalls(files: seq<File>, output: seq<seq<string>>): seq<BarCall>
    requires |output| == |files|
  {
    if files == [] then []
    else
      var n := |files| - 1;
      BatchCalls(files[..n], output[..n]) + FileCalls(files[n], output[n])
  }

  /** Every file in order, then `stop`. */
  function VideoCalls(files: seq<File>, output: seq<seq<string>>): seq<BarCall>
    requires |output| == |files|
  {
    BatchCalls(files, output) + [Stop]
  }

  function OutputOf(f: File, preset: string): string {
    VideoOutputPath(f.dir, f.fileNameWithoutExtension, preset)
  }

  function CommandOf(f: File, preset: string, keepAudio: Option<bool>): string {
    VideoCommand(f.originalFullPath, OutputOf(f, preset), preset, CliEngine.AudioFlag(keepAudio))
  }

  predicate Prepared(f: File, preset: string, keepAudio: Option<bool>)
    reads f
  {
    f.outputFullPath == OutputOf(f, preset) && f.cmd == CommandOf(f, preset, keepAudio)
  }

  /** `compressVideo`: the first loop names every output and builds its
      command, the second runs them in order and drives the bar. `output[i]`
      is what HandBrakeCLI prints for `files[i]`. */
  method CompressVideo(files: seq<File>, preset: string, keepAudio: Option<bool>, output: seq<seq<string>>)
    returns (calls: seq<BarCall>)
    requires |output| == |files|
    modifies files
    ensures forall i :: 0 <= i < |files| ==> Prepared(files[i], preset, keepAudio)
    ensures calls == VideoCalls(files, output)
  {
    PrepareVideo(files, preset, keepAudio);
    calls := RunVideo(files, output);
    calls := calls + [Stop];
  }

  /** The first loop (src/engine.ts:22-26). */
  method PrepareVideo(files: seq<File>, preset: string, keepAudio: Option<bool>)
    modifies files
    ensures forall i :: 0 <= i < |files| ==> Prepared(files[i], preset, keepAudio)
  {
    var audioFlag := if keepAudio == Some(false) then "-a none" else "";
    ghost var outs := seq(|files|, j requires 0 <= j < |files| => OutputOf(files[j], preset));
    ghost var cmds := seq(|files|, j requires 0 <= j < |files| => CommandOf(files[j], preset, keepAudio));
    for i := 0 to |files|
      invariant forall j :: 0 <= j < i ==> files[j].outputFullPath == outs[j] && files[j].cmd == cmds[j]
    {
      var file := files[i];
      var outputFileName := file.fileNameWithoutExtension + "__HandBraked__" + preset + ".mp4";
      file.outputFullPath := JoinPath(file.dir, outputFileName);
      file.cmd := "HandBrakeCLI -i '" + (file.originalFullPath + ("' " + (audioFlag + (" -o '" +
                  (file.outputFullPath + ("' -Z '" + (preset + "'")))))));
    }
  }

  /** The second loop (src/engine.ts:30-41). */
  method RunVideo(files: seq<File>, output: seq<seq<string>>) returns (calls: seq<BarCall>)
    requires |output| == |files|
    ensures calls == BatchCalls(files, output)
  {
    calls := [];
    for i := 0 to |files|
      invariant calls == BatchCalls(files[..i], output[..i])
    {
      var file := files[i];
      var lines := output[i];
      var progress := RunVideoLines(lines, file.fileNameWithoutExtension);
      BatchStep(files, output, i, calls, progress);
      calls := calls + progress + [OneFileDone];
    }
    assert files[..|files|] == files && output[..|output|] == output;
  }

  /** The second loop's step: one more file's calls. */
  lemma {:induction false} BatchStep(files: seq<File>, output: seq<seq<string>>, i: nat, calls: seq<BarCall>,
                                     progress: seq<BarCall>)
    requires |output| == |files| && i < |files|
    requires calls == BatchCalls(files[..i], output[..i])
    requires progress == LinesCalls(output[i], files[i].fileNameWithoutExtension)
    ensures calls + progress + [OneFileDone] == BatchCalls(files[..i + 1], output[..i + 1])
  {
    TakeSnoc(files, i);
    TakeSnoc(output, i);
    assert files[..i + 1][..i] == files[..i] && output[..i + 1][..i] == output[..i];
    assert files[..i + 1][i] == files[i] && output[..i + 1][i] == output[i];
    AppendAssoc(calls, progress, [OneFileDone]);
  }

  /** The line callback of one HandBrakeCLI run. */
  method RunVideoLines(lines: seq<string>, name: string) returns (calls: seq<BarCall>)
    ensures calls == LinesCalls(lines, name)
  {
    calls := [];
    for k := 0 to |lines|
      invariant calls == LinesCalls(lines[..k], name)
    {
      var line := lines[k];
      var info := GetProgressAndRemainingTime(line);
      LinesCallsSnoc(lines, k, name);
      if info.progress.Some? && info.progress.value != 0.0 && info.remainingTime.Some? {
        calls := calls + [NewLine(info.progress.value, info.remainingTime.value, name)];
      }
    }
    assert lines[..|lines|] == lines;
  }

  lemma {:induction false} LinesCallsSnoc(lines: seq<string>, k: nat, name: string)
    requires k < |lines|
    ensures LinesCalls(lines[..k + 1], name) == LinesCalls(lines[..k], name) + LineCalls(lines[k], name)
  {
    assert lines[..k + 1][..k] == lines[..k];
  }

  lemma {:induction false} LinesNoDone(lines: seq<string>, name: string)
    ensures Filter(LinesCalls(lines, name), IsOneFileDone) == [] && Stop !in LinesCalls(lines, name)
  {
    var cs := LinesCalls(lines, name);
    FilterAllOrNothing(cs, IsOneFileDone);
    assert forall i :: 0 <= i < |cs| ==> cs[i] in cs;
  }

  /** `handleOneFileDone` is called exactly once per file, each time after the
      progress of that file, and `stop` once, last. */
  lemma {:induction false} OneFileDonePerFile(files: seq<File>, output: seq<seq<string>>)
    requires |output| == |files|
    ensures Filter(BatchCalls(files, output), IsOneFileDone) == seq(|files|, _ => OneFileDone)
    ensures Stop !in BatchCalls(files, output)
    ensures VideoCalls(files, output)[|VideoCalls(files, output)| - 1] == Stop
    ensures files != [] ==> BatchCalls(files, output)[|BatchCalls(files, output)| - 1] == OneFileDone
    decreases |files|
  {
    if files != [] {
      var n := |files| - 1;
      OneFileDonePerFile(files[..n], output[..n]);
      OneFileDoneStep(files, output);
    }
  }

  /** The last file adds its one `handleOneFileDone`, after its progress. */
  lemma {:induction false} OneFileDoneStep(files: seq<File>, output: seq<seq<string>>)
    requires |output| == |files| && files != []
    requires var n := |files| - 1; var prev := BatchCalls(files[..n], output[..n]);
      Filter(prev, IsOneFileDone) == seq(n, _ => OneFileDone) && Stop !in prev
    ensures Filter(BatchCalls(files, output), IsOneFileDone) == seq(|files|, _ => OneFileDone)
    ensures Stop !in BatchCalls(files, output)
    ensures BatchCalls(files, output)[|BatchCalls(files, output)| - 1] == OneFileDone
  {
    var n := |files| - 1;
    var f := files[n];
    var prev := BatchCalls(files[..n], output[..n]);
    var lines := LinesCalls(output[n], f.fileNameWithoutExtension);
    assert BatchCalls(files, output) == prev + (lines + [OneFileDone]);
    LinesNoDone(output[n], f.fileNameWithoutExtension);
    DoneCountStep(prev, lines, n);
  }

  /** Progress calls and one `handleOneFileDone` after `n` files' calls make
      `n + 1` completions, the last call among them. */
  lemma {:induction false} DoneCountStep(prev: seq<BarCall>, lines: seq<BarCall>, n: nat)
    requires Filter(prev, IsOneFileDone) == seq(n, _ => OneFileDone) && Stop !in prev
    requires Filter(lines, IsOneFileDone) == [] && Stop !in lines
    ensures var all := prev + (lines + [OneFileDone]);
      Filter(all, IsOneFileDone) == seq(n + 1, _ => OneFileDone) && Stop !in all && all[|all| - 1] == OneFileDone
  {
    var all := prev + (lines + [OneFileDone]);
    assert Filter(all, IsOneFileDone) == Filter(prev, IsOneFileDone) + [OneFileDone] by {
      FilterAppend(prev, lines + [OneFileDone], IsOneFileDone);
      FilterAppend(lines, [OneFileDone], IsOneFileDone);
      assert Filter([OneFileDone], IsOneFileDone) == [OneFileDone];
    }
    DonesSnoc(n);
  }

  lemma {:induction false} DonesSnoc(n: nat)
    ensures seq(n, _ => OneFileDone) + [OneFileDone] == seq(n + 1, _ => OneFileDone)
  {
  }

  // ---------------------------------------------------------------------------
  // compressAudio (src/engine.ts:46-98)

  /** `<dir>/<base>_compressed_<bitrate>.mp3`. */
  function AudioOutputPath(dir: string, name: string, bitrate: string): string {
    JoinPath(dir, name + "_compressed_" + bitrate + ".mp3")
  }

  /** The ffmpeg command, both paths passed through `escapePath`. */
  function AudioCommand(src: string, out: string, bitrate: string): string {
    "ffmpeg -i " + (EscapePath(src) + (" -map 0:a:0 -b:a " + (bitrate + (" " + (EscapePath(out) + " -y")))))
  }

  lemma {:induction false} EscapedThen(p: string, rest: string, ts: seq<Token>)
    requires EscapeSafe(p) && Lex(rest, None, false) == Some(ts)
    ensures Lex(EscapePath(p) + (" " + rest), None, false) == Some([Word(p)] + ts)
  {
    EscapePathReadsBack(p, rest);
  }

  lemma {:induction false} MapPieceSplit(x: string)
    ensures " -map 0:a:0 -b:a " + x == " " + ("-map" + (" " + ("0:a:0" + (" " + ("-b:a" + (" " + x))))))
  {
    assert " -map 0:a:0 -b:a " == " " + "-map" + " " + "0:a:0" + " " + "-b:a" + " ";
  }

  lemma {:induction false} FfmpegPieceSplit(x: string)
    ensures "ffmpeg -i " + x == "ffmpeg" + (" " + ("-i" + (" " + x)))
  {
    assert "ffmpeg -i " == "ffmpeg" + " " + "-i" + " ";
  }

  lemma {:induction false} PlainOptions()
    ensures PlainText("ffmpeg") && PlainText("-i") && PlainText("-map") && PlainText("0:a:0") && PlainText("-b:a")
    ensures PlainText("-c:a") && PlainText("copy") && PlainText("-y")
  {
  }

  /** The bitrate, the escaped output and `-y`. */
  lemma {:induction false} AudioTailArgv(out: string, bitrate: string)
    requires EscapeSafe(out) && PlainText(bitrate)
    ensures Lex(bitrate + (" " + (EscapePath(out) + " -y")), None, false) ==
            Some([Word(bitrate), Word(out), Word("-y")])
  {
    PlainOptions();
    WordThen("-y", "", []);
    assert "-y" + (" " + "") == "-y ";
    assert Lex("-y", None, false) == Some([Word("-y")]) by {
      assert "-y" == "-y" + "";
      OrdinaryRun("-y", None, "");
      assert Cur(None) + "-y" == "-y";
    }
    assert EscapePath(out) + " -y" == EscapePath(out) + (" " + "-y");
    EscapedThen(out, "-y", [Word("-y")]);
    WordThen(bitrate, EscapePath(out) + " -y", [Word(out)] + [Word("-y")]);
    assert [Word(bitrate)] + ([Word(out)] + [Word("-y")]) == [Word(bitrate), Word(out), Word("-y")];
  }

  /** For paths `escapePath` protects and a plain bitrate, the ffmpeg
      command reads back as the intended argument vector. */
  lemma {:induction false} AudioCommandArgv(src: string, out: string, bitrate: string)
    requires EscapeSafe(src) && EscapeSafe(out) && PlainText(bitrate)
    ensures Tokens(AudioCommand(src, out, bitrate)) ==
            Some([Word("ffmpeg"), Word("-i"), Word(src), Word("-map"), Word("0:a:0"), Word("-b:a"),
                  Word(bitrate), Word(out), Word("-y")])
  {
    PlainOptions();
    var t4 := bitrate + (" " + (EscapePath(out) + " -y"));
    var ts4 := [Word(bitrate), Word(out), Word("-y")];
    AudioTailArgv(out, bitrate);
    WordThen("-b:a", t4, ts4);
    var t3 := "-b:a" + (" " + t4);
    WordThen("0:a:0", t3, [Word("-b:a")] + ts4);
    var t2 := "0:a:0" + (" " + t3);
    WordThen("-map", t2, [Word("0:a:0")] + ([Word("-b:a")] + ts4));
    var t1 := "-map" + (" " + t2);
    var ts1 := [Word("-map")] + ([Word("0:a:0")] + ([Word("-b:a")] + ts4));
    MapPieceSplit(t4);
    assert " -map 0:a:0 -b:a " + t4 == " " + t1;
    EscapedThen(src, t1, ts1);
    var t0 := EscapePath(src) + (" -map 0:a:0 -b:a " + t4);
    WordThen("-i", t0, [Word(src)] + ts1);
    WordThen("ffmpeg", "-i" + (" " + t0), [Word("-i")] + ([Word(src)] + ts1));
    FfmpegPieceSplit(t0);
    assert [Word("ffmpeg")] + ([Word("-i")] + ([Word(src)] + ts1)) ==
           [Word("ffmpeg"), Word("-i"), Word(src), Word("-map"), Word("0:a:0"), Word("-b:a"),
            Word(bitrate), Word(out), Word("-y")];
  }

  /** The default answer of the split question: split when the output is
      larger than 4 MB. */
  function DefaultSplitAnswer(outputSizeMB: real): (r: string)
    ensures r == "true" <==> outputSizeMB > 4.0
    ensures r == "false" <==> outputSizeMB <= 4.0
  {
    if outputSizeMB > 4.0 then "true" else "false"
  }

  /** The directory the parts end up in, `<dir>/<base>_split`. */
  function SplitDirPath(dir: string, name: string): string {
    JoinPath(dir, name + "_split")
  }

  /** The part directory of `splitToPart`: a directory named by date and
      UUID (`stamp`) under the temporary directory passed through
      `escapePath`. */
  function PartDir(tmpDir: string, stamp: string): string {
    JoinPath(EscapePath(tmpDir), stamp)
  }

  /** The `split` command writing `rec_part_*` into the part directory. */
  function SplitPartsCommand(filePath: string, maxMb: int, partDir: string): string {
    "split -b " + IntText(maxMb) + "M " + EscapePath(filePath) + " \"" + JoinPath(partDir, "rec_part_") + "\""
  }

  /** `mp3Loc` of `convertPartToMp3`: the escaped part path with `.mp3` appended. */
  function Mp3Loc(fullFilePath: string): string {
    EscapePath(fullFilePath) + ".mp3"
  }

  /** `convertPartToMp3` for one part. */
  function ConvertCommand(fullFilePath: string): string {
    "ffmpeg -i " + (EscapePath(fullFilePath) + (" -c:a copy " + Mp3Loc(fullFilePath)))
  }

  lemma {:induction false} CopyPieceSplit(x: string)
    ensures " -c:a copy " + x == " " + ("-c:a" + (" " + ("copy" + (" " + x))))
  {
    assert " -c:a copy " == " " + "-c:a" + " " + "copy" + " ";
  }

  /** Appending `.mp3` after the escape is the escape of the path with `.mp3`
      appended, and reads back as that path. */
  lemma {:induction false} Mp3LocArgv(p: string)
    requires EscapeSafe(p)
    ensures Mp3Loc(p) == EscapePath(p + ".mp3")
    ensures Lex(Mp3Loc(p), None, false) == Some([Word(p + ".mp3")])
  {
    Mp3SuffixPlain();
    EscapePathPointwise(p, ".mp3", '.');
    Mp3LocReadsBack(p);
  }

  lemma {:induction false} Mp3SuffixPlain()
    ensures forall i :: 0 <= i < |".mp3"| ==> IsOrdinary(".mp3"[i]) && !IsEscaped(".mp3"[i])
  {
  }

  lemma {:induction false} Mp3LocReadsBack(p: string)
    requires EscapeSafe(p)
    ensures Lex(EscapePath(p) + ".mp3", None, false) == Some([Word(p + ".mp3")])
  {
    Mp3SuffixPlain();
    EscapeRun(p, ".mp3");
    assert ".mp3" + "" == ".mp3";
    OrdinaryRun(".mp3", Some(p), "");
    assert Cur(Some(p)) + ".mp3" == p + ".mp3";
  }

  /** For a part path `escapePath` protects, ffmpeg is asked to write exactly
      that path with `.mp3` appended. */
  lemma {:induction false} ConvertCommandArgv(p: string)
    requires EscapeSafe(p)
    ensures Tokens(ConvertCommand(p)) ==
            Some([Word("ffmpeg"), Word("-i"), Word(p), Word("-c:a"), Word("copy"), Word(p + ".mp3")])
  {
    PlainOptions();
    var last := Mp3Loc(p);
    Mp3LocArgv(p);
    WordThen("copy", last, [Word(p + ".mp3")]);
    var t2 := "copy" + (" " + last);
    WordThen("-c:a", t2, [Word("copy")] + [Word(p + ".mp3")]);
    var t1 := "-c:a" + (" " + t2);
    var ts1 := [Word("-c:a")] + ([Word("copy")] + [Word(p + ".mp3")]);
    CopyPieceSplit(last);
    EscapedThen(p, t1, ts1);
    var t0 := EscapePath(p) + (" -c:a copy " + last);
    WordThen("-i", t0, [Word(p)] + ts1);
    WordThen("ffmpeg", "-i" + (" " + t0), [Word("-i")] + ([Word(p)] + ts1));
    FfmpegPieceSplit(t0);
    assert [Word("ffmpeg")] + ([Word("-i")] + ([Word(p)] + ts1)) ==
           [Word("ffmpeg"), Word("-i"), Word(p), Word("-c:a"), Word("copy"), Word(p + ".mp3")];
  }

  /** `f.endsWith(".mp3")`. */
  predicate IsMp3(f: string) {
    |f| >= 4 && f[|f| - 4..] == ".mp3"
  }

  /** The names ffmpeg writes next to the parts. */
  function Converted(parts: seq<string>): (r: seq<string>)
    ensures |r| == |parts|
    ensures forall i :: 0 <= i < |parts| ==> r[i] == parts[i] + ".mp3" && IsMp3(r[i])
  {
    seq(|parts|, i requires 0 <= i < |parts| => parts[i] + ".mp3")
  }

  /** The `.mp3` filter over the second listing of the part directory. */
  function Mp3Files(listing: seq<string>): (r: seq<string>)
    ensures IsSubsequence(r, listing)
    ensures forall f :: f in r <==> f in listing && IsMp3(f)
  {
    FilterIsSubsequence(listing, IsMp3);
    Filter(listing, IsMp3)
  }

  /** When the part directory holds the parts `split` wrote (none of which
      ends in `.mp3`) and the files ffmpeg wrote from them, the filter keeps
      exactly the converted parts. */
  lemma {:induction false} Mp3FilterKeepsConverted(parts: seq<string>, listing: seq<string>)
    requires forall f :: f in listing <==> f in parts || f in Converted(parts)
    requires forall f :: f in parts ==> !IsMp3(f)
    ensures forall f :: f in Mp3Files(listing) <==> f in Converted(parts)
  {
    var c := Converted(parts);
    forall f | f in c
      ensures IsMp3(f)
    {
      var i :| 0 <= i < |c| && c[i] == f;
    }
  }

  /** What `compressAudio` does, in order. */
  datatype Action =
    | Run(cmd: string)
    | AskSplit(defaultAnswer: string)
    | RecreateDir(path: string)
    | AskSize(defaultSize: int)
    | MakeDir(path: string)
    | Move(from: string, to: string)
    | RemoveDir(path: string)

  function ConvertRuns(partDir: string, parts: seq<string>): (r: seq<Action>)
    ensures |r| == |parts|
    ensures forall i :: 0 <= i < |parts| ==> r[i] == Run(ConvertCommand(JoinPath(partDir, parts[i])))
  {
    if parts == [] then []
    else ConvertRuns(partDir, parts[..|parts| - 1]) + [Run(ConvertCommand(JoinPath(partDir, parts[|parts| - 1])))]
  }

  function Moves(partDir: string, dirLoc: string, names: seq<string>): (r: seq<Action>)
    ensures |r| == |names|
    ensures forall i :: 0 <= i < |names| ==> r[i] == Move(JoinPath(partDir, names[i]), JoinPath(dirLoc, names[i]))
  {
    if names == [] then []
    else
      var n := |names| - 1;
      Moves(partDir, dirLoc, names[..n]) + [Move(JoinPath(partDir, names[n]), JoinPath(dirLoc, names[n]))]
  }

  /** A file is moved from the part directory into the split directory under
      its own name exactly when it is one of the listed names. */
  lemma {:induction false} MovesIff(partDir: string, dirLoc: string, names: seq<string>, g: string)
    ensures Move(JoinPath(partDir, g), JoinPath(dirLoc, g)) in Moves(partDir, dirLoc, names) <==> g in names
  {
    var ms := Moves(partDir, dirLoc, names);
    if g in names {
      var k :| 0 <= k < |names| && names[k] == g;
      assert ms[k] == Move(JoinPath(partDir, g), JoinPath(dirLoc, g));
    }
    if Move(JoinPath(partDir, g), JoinPath(dirLoc, g)) in ms {
      var j :| 0 <= j < |ms| && ms[j] == Move(JoinPath(partDir, g), JoinPath(dirLoc, g));
      assert JoinPath(dirLoc, g)[|dirLoc| + 1..] == g;
      assert JoinPath(dirLoc, names[j])[|dirLoc| + 1..] == names[j];
    }
  }

  /** The actions after the question when the user asks for a split. */
  function SplitActions(outPath: string, dirLoc: string, partDir: string, splitByMB: int,
                        parts: seq<string>, listing: seq<string>): seq<Action>
  {
    SplitSetup(outPath, dirLoc, partDir, splitByMB) + ConvertRuns(partDir, parts) +
    Moves(partDir, dirLoc, Mp3Files(listing)) + [RemoveDir(partDir)]
  }

  /** The whole run for one file. `wantSplit` and `splitByMB` are the answers
      to the two prompts, `tmpDir` and `stamp` name the part directory, and
      `parts` and `listing` are what the first and second `readdirSync` of
      it return. */
  function AudioTrace(f: File, bitrate: string, outputSizeMB: real, wantSplit: bool, splitByMB: int,
                      tmpDir: string, stamp: string, parts: seq<string>, listing: seq<string>): seq<Action>
  {
    var out := AudioOutputPath(f.dir, f.fileNameWithoutExtension, bitrate);
    [Run(AudioCommand(f.originalFullPath, out, bitrate)), AskSplit(DefaultSplitAnswer(outputSizeMB))] +
    (if wantSplit
     then SplitActions(out, SplitDirPath(f.dir, f.fileNameWithoutExtension), PartDir(tmpDir, stamp),
                       splitByMB, parts, listing)
     else [])
  }

  /** `compressAudio`. */
  method CompressAudio(file: File, bitrate: string, outputSizeMB: real, wantSplit: bool, splitByMB: int,
                       tmpDir: string, stamp: string, parts: seq<string>, listing: seq<string>)
    returns (actions: seq<Action>)
    modifies file
    ensures file.outputFullPath == AudioOutputPath(file.dir, file.fileNameWithoutExtension, bitrate)
    ensures file.cmd == AudioCommand(file.originalFullPath, file.outputFullPath, bitrate)
    ensures actions == AudioTrace(file, bitrate, outputSizeMB, wantSplit, splitByMB, tmpDir, stamp, parts, listing)
  {
    var outputFileName := file.fileNameWithoutExtension + "_compressed_" + bitrate + ".mp3";
    file.outputFullPath := JoinPath(file.dir, outputFileName);
    file.cmd := "ffmpeg -i " + (EscapePath(file.originalFullPath) + (" -map 0:a:0 -b:a " + (bitrate + (" " +
                (EscapePath(file.outputFullPath) + " -y")))));
    var start := [Run(file.cmd), AskSplit(if outputSizeMB > 4.0 then "true" else "false")];
    var split := [];
    if wantSplit {
      var dirLoc := JoinPath(file.dir, file.fileNameWithoutExtension + "_split");
      var partDir := JoinPath(EscapePath(tmpDir), stamp);
      split := SplitSetup(file.outputFullPath, dirLoc, partDir, splitByMB);
      var converts := ConvertParts(partDir, parts);
      var mp3Files := Mp3Files(listing);
      var moves := MoveParts(partDir, dirLoc, mp3Files);
      split := split + converts + moves + [RemoveDir(partDir)];
    }
    actions := start + split;
  }

  /** The loop of `convertPartToMp3` (src/engine.ts:62-67). */
  method ConvertParts(partDir: string, parts: seq<string>) returns (actions: seq<Action>)
    ensures actions == ConvertRuns(partDir, parts)
  {
    actions := [];
    for i := 0 to |parts|
      invariant actions == ConvertRuns(partDir, parts[..i])
    {
      var fullFilePath := JoinPath(partDir, parts[i]);
      var mp3Loc := EscapePath(fullFilePath) + ".mp3";
      var cmd := "ffmpeg -i " + (EscapePath(fullFilePath) + (" -c:a copy " + mp3Loc));
      actions := actions + [Run(cmd)];
      assert parts[..i + 1][..i] == parts[..i] && parts[..i + 1][i] == parts[i];
    }
    assert parts[..|parts|] == parts;
  }

  /** The rename loop (src/engine.ts:90-94). */
  method MoveParts(partDir: string, dirLoc: string, mp3Files: seq<string>) returns (actions: seq<Action>)
    ensures actions == Moves(partDir, dirLoc, mp3Files)
  {
    actions := [];
    for i := 0 to |mp3Files|
      invariant actions == Moves(partDir, dirLoc, mp3Files[..i])
    {
      var mp3FileLoc := JoinPath(partDir, mp3Files[i]);
      var newLoc := JoinPath(dirLoc, mp3Files[i]);
      actions := actions + [Move(mp3FileLoc, newLoc)];
      assert mp3Files[..i + 1][..i] == mp3Files[..i] && mp3Files[..i + 1][i] == mp3Files[i];
    }
    assert mp3Files[..|mp3Files|] == mp3Files;
  }

  /** The four set-up actions of a split. */
  function SplitSetup(outPath: string, dirLoc: string, partDir: string, splitByMB: int): (r: seq<Action>)
    ensures |r| == 4 && forall a :: a in r ==> !a.Move?
  {
    [RecreateDir(dirLoc), AskSize(4), MakeDir(partDir), Run(SplitPartsCommand(outPath, splitByMB, partDir))]
  }

  lemma {:induction false} SplitConvertsAt(outPath: string, dirLoc: string, partDir: string, splitByMB: int,
                        parts: seq<string>, listing: seq<string>)
    ensures var s := SplitActions(outPath, dirLoc, partDir, splitByMB, parts, listing);
      |s| >= 5 + |parts| && s[|s| - 1] == RemoveDir(partDir) &&
      forall i :: 0 <= i < |parts| ==> s[4 + i] == Run(ConvertCommand(JoinPath(partDir, parts[i])))
  {
    var setup := SplitSetup(outPath, dirLoc, partDir, splitByMB);
    var conv := ConvertRuns(partDir, parts);
    var scm := setup + conv + Moves(partDir, dirLoc, Mp3Files(listing));
    var s := SplitActions(outPath, dirLoc, partDir, splitByMB, parts, listing);
    assert s == scm + [RemoveDir(partDir)];
    assert |setup| == 4;
    forall i | 0 <= i < |parts|
      ensures s[4 + i] == Run(ConvertCommand(JoinPath(partDir, parts[i])))
    {
      MiddleIndex(setup, conv, Moves(partDir, dirLoc, Mp3Files(listing)) + [RemoveDir(partDir)], i);
      AppendAssoc(setup + conv, Moves(partDir, dirLoc, Mp3Files(listing)), [RemoveDir(partDir)]);
    }
  }

  lemma {:induction false} SplitMovesIff(outPath: string, dirLoc: string, partDir: string, splitByMB: int,
                      parts: seq<string>, listing: seq<string>, g: string)
    requires forall g :: g in listing <==> g in parts || g in Converted(parts)
    requires forall g :: g in parts ==> !IsMp3(g)
    ensures Move(JoinPath(partDir, g), JoinPath(dirLoc, g)) in SplitActions(outPath, dirLoc, partDir, splitByMB, parts, listing)
            <==> g in Converted(parts)
  {
    var m := Move(JoinPath(partDir, g), JoinPath(dirLoc, g));
    var setup := SplitSetup(outPath, dirLoc, partDir, splitByMB);
    var conv := ConvertRuns(partDir, parts);
    var ms := Moves(partDir, dirLoc, Mp3Files(listing));
    assert SplitActions(outPath, dirLoc, partDir, splitByMB, parts, listing) == setup + conv + ms + [RemoveDir(partDir)];
    Mp3FilterKeepsConverted(parts, listing);
    MovesIff(partDir, dirLoc, Mp3Files(listing), g);
    assert m !in conv;
  }

  /** The split actions: the part conversions right after the four set-up
      actions, the moves of exactly the converted parts, the removal last. */
  lemma {:induction false} SplitActionsShape(outPath: string, dirLoc: string, partDir: string, splitByMB: int,
                          parts: seq<string>, listing: seq<string>)
    requires forall g :: g in listing <==> g in parts || g in Converted(parts)
    requires forall g :: g in parts ==> !IsMp3(g)
    ensures var s := SplitActions(outPath, dirLoc, partDir, splitByMB, parts, listing);
      |s| >= 5 + |parts| && s[|s| - 1] == RemoveDir(partDir) &&
      (forall i :: 0 <= i < |parts| ==> s[4 + i] == Run(ConvertCommand(JoinPath(partDir, parts[i])))) &&
      (forall g :: Move(JoinPath(partDir, g), JoinPath(dirLoc, g)) in s <==> g in Converted(parts))
  {
    SplitConvertsAt(outPath, dirLoc, partDir, splitByMB, parts, listing);
    forall g
      ensures Move(JoinPath(partDir, g), JoinPath(dirLoc, g)) in SplitActions(outPath, dirLoc, partDir, splitByMB, parts, listing)
              <==> g in Converted(parts)
    {
      SplitMovesIff(outPath, dirLoc, partDir, splitByMB, parts, listing, g);
    }
  }

  /** After a split, every part is converted once and in listing order, a
      file is moved into the split directory under its own name exactly when
      it is a converted part, and the part directory is removed last. */
  lemma {:induction false} SplitMovesConverted(f: File, bitrate: string, outputSizeMB: real, splitByMB: int,
                            tmpDir: string, stamp: string, parts: seq<string>, listing: seq<string>)
    requires forall g :: g in listing <==> g in parts || g in Converted(parts)
    requires forall g :: g in parts ==> !IsMp3(g)
    ensures var t := AudioTrace(f, bitrate, outputSizeMB, true, splitByMB, tmpDir, stamp, parts, listing);
      var dirLoc := SplitDirPath(f.dir, f.fileNameWithoutExtension);
      var partDir := PartDir(tmpDir, stamp);
      |t| >= 7 + |parts| && t[|t| - 1] == RemoveDir(partDir) &&
      (forall i :: 0 <= i < |parts| ==> t[6 + i] == Run(ConvertCommand(JoinPath(partDir, parts[i])))) &&
      (forall g :: Move(JoinPath(partDir, g), JoinPath(dirLoc, g)) in t <==> g in Converted(parts))
  {
    var out := AudioOutputPath(f.dir, f.fileNameWithoutExtension, bitrate);
    var dirLoc := SplitDirPath(f.dir, f.fileNameWithoutExtension);
    var partDir := PartDir(tmpDir, stamp);
    var start := [Run(AudioCommand(f.originalFullPath, out, bitrate)), AskSplit(DefaultSplitAnswer(outputSizeMB))];
    var s := SplitActions(out, dirLoc, partDir, splitByMB, parts, listing);
    SplitActionsShape(out, dirLoc, partDir, splitByMB, parts, listing);
    var t := AudioTrace(f, bitrate, outputSizeMB, true, splitByMB, tmpDir, stamp, parts, listing);
    assert t == start + s;
    assert forall i :: 0 <= i < |s| ==> t[2 + i] == s[i];
    forall g
      ensures Move(JoinPath(partDir, g), JoinPath(dirLoc, g)) in t <==> g in Converted(parts)
    {
      assert Move(JoinPath(partDir, g), JoinPath(dirLoc, g)) !in start;
    }
  }
}
