# hardbrake, modelled in Dafny

hardbrake batch-compresses media files by driving two external encoders:
HandBrakeCLI for video and ffmpeg for audio. It ships as a command-line tool
(`cli/`), a Tauri desktop app with a TypeScript sidecar (`src/*.ts`,
`src/App.tsx`) and a few Python helpers (`src/*.py`). Around the processes,
the filesystem and the UI sits a set of small deterministic rules. This
project models those rules and proves what they promise:

- the bitrate parser and the audio split planner: the chunk length, the
  chunk count, the start times and the zero-padded part names (`AudioSplit`,
  `Bitrate`, `CliEngine`);
- the progress extractor, which turns one line of HandBrakeCLI output into
  a percent and an ETA token, and the rules for when progress is emitted
  (`Progress`, `CliEngine`, `SrcEngine`);
- shell quoting (`shellQuote`, following section 2.2.2 "Single-Quotes" of
  the POSIX Shell Command Language) and `escapePath` (following section
  2.2.1 "Escape Character (Backslash)"), read back through a model of the
  POSIX word reader (`Shell`);
- the preset catalog parser over the lines of `HandBrakeCLI -z`
  (`Presets`);
- the output names, the encoder commands and the per-file result loops of
  both engines (`CliEngine`, `SrcEngine`);
- the line filter of `runShellCommandAndReturnOutput`, the `which` rule and
  the required-binary validators (`ShellOutput`, `BinaryCheck`);
- the desktop app's extension classification, drop decision, file name,
  bounded install log, sidecar event folds and preset selection (`App`);
- package-manager precedence, the winget→choco fallback, the asset choice
  and command dispatch of both bridges (`Bridge`);
- the file pickers' filters (`FileSelection`, `PyFile`);
- the byte-by-byte line assembler and progress callback of `src/event.py`
  (`PyEvent`) and the started/stopped guard of `src/loader.py` (`PyLoader`),
  with the Python string operations they rely on (`PyText`).

Processes, probes, directory listings, prompts and the network are inputs to
the model: the text a process prints, the exit code it returns, the names
`readdir` lists and the answers to prompts are parameters. Where the code
updates an object in place (the CLI engine's `File`, the app's drop state
and preset picker, event.py's `ProcessWithEvent` and its class-level line
list, loader.py's `Loader` and its shared task table), the model is a class
whose methods are proved against a specification function. `Wrappers`,
`Seqs` and `Text` hold the shared `Option`/`Result` types, sequence lemmas
and the JavaScript string operations.

Two consequences of the code are worth stating:
- the 0.95 factor in cli/engine.ts:111 gives 249 s parts for a 4 MB split at
  128 kb/s, rather than the 255 s of the bare budget
  (`AudioSplit.FourMegabyteExample`);
- a failure during a batch ends the whole batch, since there is no per-file
  catch in cli/engine.ts: an ffmpeg failure in `compressAudio`
  (`CliEngine.AudioBatchReports`), and a missing input or output file in
  either engine, which makes `getFileSizeInMB` throw
  (`CliEngine.VideoStopsAtMissing`, `CliEngine.AudioInputNotFound`).

## Model

| member | source | states |
|---|---|---|
| AudioSplit.MaxChunkSeconds | cli/engine.ts:108-111 | NaN when the bitrate does not parse, a non-finite value for a zero bitrate, and a non-negative whole number of seconds otherwise |
| AudioSplit.MaxChunkFits | cli/engine.ts:109-111 | the chunk length is the largest whole number of seconds whose bits fit in 95% of `splitByMB` mebibytes at the given bitrate |
| AudioSplit.ChunkCount | cli/engine.ts:112-114 | the part loop runs forever exactly when the chunk length is 0 and the duration positive; when it runs at least once the chunk length is at least one second |
| AudioSplit.ChunkCountMinimal | cli/engine.ts:112 | `Math.ceil(duration / maxChunk)` parts cover the duration, no fewer would, and there are none only for a zero duration |
| AudioSplit.PartsDisjoint | cli/engine.ts:115-121 | no instant of the audio lies in two parts: part `i` runs from `i * maxChunk` to where part `i + 1` starts |
| AudioSplit.PartsCoverInstant | cli/engine.ts:112-121 | every instant before the end lies in exactly one of the parts the loop extracts, the first starting at 0 and each starting where the previous one ends |
| AudioSplit.ClippedPartsSumToDuration | cli/engine.ts:112-121 | the parts, each clipped at the end of the audio, add up to the whole duration |
| AudioSplit.ClippedPartsNonEmpty | cli/engine.ts:112-121 | every extracted part, clipped at the end of the audio, is non-empty and no longer than the chunk length |
| AudioSplit.ZeroDurationNoParts | cli/engine.ts:112-114 | a zero-length recording yields no parts whatever the chunk length |
| AudioSplit.ZeroSecondPartsUnbounded | cli/engine.ts:111-114 | 1 MB at 8 Mb/s gives a 0-second chunk, and then the part loop never ends |
| AudioSplit.FourMegabyteExample | cli/engine.ts:111-112 | 4 MB at 128 kb/s gives 249-second chunks, and 600 s of audio gives three parts |
| AudioSplit.PaddedIndexValue | cli/engine.ts:116 | the zero-padded field reads back as `i + 1` |
| AudioSplit.PartNamesDistinct | cli/engine.ts:116 | different parts get different file names |
| AudioSplit.ThreeDigitField | cli/engine.ts:116 | up to part 999 the field is exactly three digits whose value is the part number |
| AudioSplit.PartNamesOrdered | cli/engine.ts:116 | up to part 999 the file names sort in part order |
| AudioSplit.PartOrderBreaksAt1000 | cli/engine.ts:116 | part 1000's name sorts before part 999's |
| AudioSplit.PartOutputsDistinct | cli/engine.ts:114-123 | no two iterations of the part loop write the same output file |
| Bitrate.ParseBitrateToBps | cli/engine.ts:60-64 | a `<digits>k` bitrate (either letter case) is its number times 1000 |
| Bitrate.ParseIntDigits | cli/engine.ts:63 | `parseInt` of a string of decimal digits is their value |
| Bitrate.PlainBitrate | cli/engine.ts:60-64 | a bitrate of plain digits is read as that number of bits per second |
| Bitrate.ParseIntNoDigits | cli/engine.ts:63 | `parseInt` of text that, after leading blanks, starts with neither a digit nor a sign is NaN |
| Bitrate.Examples | cli/engine.ts:60-64 | "128k" is 128000, "320K" is 320000 and "96000" is 96000 |
| Progress.Leftmost | cli/engine.ts:67 | the match found is the leftmost position where the pattern matches, and there is none exactly when it matches nowhere |
| Progress.RunThenCorrect | cli/engine.ts:67 | `(\d+)` followed by a non-digit character captures exactly a non-empty digit run followed by that character |
| Progress.MatchProgressCorrect | cli/engine.ts:67 | the anchored matcher accepts exactly the texts starting `Encoding: task 1 of 1, <digits>.<digits> %` and captures those digits |
| Progress.MatchEtaCorrect | cli/engine.ts:70 | the anchored matcher accepts exactly the texts starting `ETA <d+>h<d+>m<d+>s` and captures those fields |
| Progress.PercentZero | cli/engine.ts:173-176 | the parsed percentage is 0, and so is skipped by `if (progress)`, exactly when all its digits are zeros |
| Progress.GetProgressAndRemainingTime | cli/engine.ts:66-74 | any reported progress is non-negative and any reported remaining time non-empty |
| Progress.ProgressReported | cli/engine.ts:66-68 | a line whose leftmost progress match reads `<w>.<f>` reports the value of `w.f` |
| Progress.ProgressAbsent | cli/engine.ts:66-68 | a line with no progress match reports none |
| Progress.EtaReported | cli/engine.ts:70-71 | a line whose leftmost ETA match is `e` reports its text |
| Progress.EtaAbsent | cli/engine.ts:70-71 | a line with no ETA match reports none |
| Progress.ProgressExample | cli/engine.ts:66-68 | "Encoding: task 1 of 1, 45.67 %" reports 45.67 |
| BinaryCheck.CliRequired | cli/check.ts:4-34 | gum is required for every operation, HandBrakeCLI for video and ffmpeg for audio |
| BinaryCheck.SrcRequired | src/check.ts:10-44 | the desktop table adds `split` for audio and has no entry for the general operation |
| BinaryCheck.Missing | cli/check.ts:43-48 | the missing binaries are exactly the listed ones not found, in table order |
| BinaryCheck.Report | cli/check.ts:50-57 | the report is empty exactly when nothing is missing, and otherwise the header then a name-purpose line and a how-to line per missing binary |
| BinaryCheck.CheckBinaries | cli/check.ts:42-60 | returns the missing binaries, prints their report and exits with 1 exactly when some are missing |
| BinaryCheck.ExitIffSomeMissing | cli/check.ts:50-59 | the exit happens exactly when some listed binary is not found |
| BinaryCheck.CliRequirementsChecked | cli/check.ts:36-40 | a missing HandBrakeCLI is reported for video, a missing ffmpeg for audio, and nothing when gum is present for the general operation |
| BinaryCheck.CollectWhichLines | src/check.ts:4-8 | collects the non-empty lines `which` reports, in order |
| BinaryCheck.FoundByWhichIff | src/check.ts:4-8 | a binary counts as found exactly when `which` reported a non-empty line |
| ShellOutput.OutputLines | src/utils.ts:26-33 | the lines are non-empty, contain no line feed, and are the pieces between line feeds, in order |
| ShellOutput.OutputLinesOfJoinedLines | src/utils.ts:26-33 | non-empty lines joined by line feeds are read back as they were |
| ShellOutput.OutputLinesOfTerminatedLines | src/utils.ts:26-33 | the same with a final line feed |
| ShellOutput.OutputLinesEmpty | src/utils.ts:26-33 | no lines come back exactly when the output is nothing but line feeds |
| ShellOutput.BinaryExistsIff | src/utils.ts:81-84 | a binary counts as present exactly when `which` printed something other than line feeds |
| Shell.QuotesNeedBackslash | src/engine.ts:25 | text with no backslash can never produce a word holding a single quote, so a path with a `'` cannot survive bare single quotes |
| Shell.PlainWord | cli/engine.ts:165 | a run of ordinary characters followed by a blank is read as one word |
| Shell.EscapeSingleQuotes | cli/engine.ts:155 | the escape never shortens the path and leaves a path without `'` alone |
| Shell.ShellQuoteUnix | cli/engine.ts:154-155 | the quoted form opens with `'` and ends with `'` and a blank |
| Shell.ShellQuoteUnixReadsBack | cli/engine.ts:154-155 | a POSIX shell reads the quoted path back as exactly one word equal to the path, whatever characters it holds, and goes on reading the rest unchanged |
| Shell.ShellQuoteUnixReadsBackAtEnd | cli/engine.ts:154-165 | with the trailing blank removed by `trim()`, the quoted path is still the single word `p` |
| Shell.ShellQuoteUnixPlain | cli/engine.ts:155 | a path without `'` is just wrapped in single quotes |
| Shell.EscapeDoubleQuotes | cli/engine.ts:152 | the escape never shortens the path and leaves a path without `"` alone |
| Shell.ShellQuoteWindows | cli/engine.ts:150-153 | the quoted form opens and closes with `"` |
| Shell.DoubleQuotesEscaped | cli/engine.ts:152 | every `"` in the escaped path is preceded by a backslash |
| Shell.WindowsQuoteRoundTrip | cli/engine.ts:152 | undoing the `\"` escape gives the path back |
| Shell.EscapePathLength | cli/utils.ts:72-74 | one backslash is added per character of the escaped class |
| Shell.EscapePathUnchanged | cli/utils.ts:72-74 | a path with no character of the escaped class is unchanged |
| Shell.EscapePathRoundTrip | cli/utils.ts:72-74 | dropping the inserted backslashes gives the path back |
| Shell.EscapePathPointwise | cli/utils.ts:72-74 | the escape works character by character and distributes over concatenation |
| Shell.EscapePathReadsBack | src/utils.ts:66-68 | a path made only of characters the escape handles is read by a POSIX shell as the one word it was |
| Shell.EscapePathLeavesOperators | src/utils.ts:66-68 | an operator character between two plain words, as in `a&b.mp3`, is left unescaped, and the shell reads a word, the operator and a word |
| Shell.EscapePathLosesNewline | src/utils.ts:66-68 | a newline between two plain words is escaped into a line continuation, so `a` newline `b` is read as the one word `ab` |
| Shell.EscapePathSafe | src/utils.ts:66-68 | the corrected escape never shortens the path and leaves a path of bare-safe characters alone |
| Shell.EscapePathSafeReadsBack | src/utils.ts:66-68 | every non-empty path, whatever it holds, is read back by a POSIX shell as exactly that one word |
| Shell.EscapePathSafeAgrees | src/utils.ts:66-68 | on paths of bare-safe characters the corrected escape and the original both leave the path as it is |
| Text.PadStart | cli/engine.ts:116 | the result is `width` long (or `s` when longer), ends with `s` and is filled in front with `fill` |
| Text.NatToDecimal | cli/engine.ts:116 | `String(n)`: a non-empty digit string without leading zero whose value is `n` |
| Text.TrimStart | cli/utils.ts:52 | `trimStart` removes exactly the leading white space |
| Text.TrimEnd | cli/utils.ts:57 | `trimEnd` removes exactly the trailing white space |
| Text.LastIndexOf | src/file-selection.ts:9 | the index of the last occurrence of the character, -1 exactly when it does not occur |
| Text.LastPiece | src/file-selection.ts:9 | `split(c).pop()`: the text after the last `c`, the whole text when there is none |
| Text.Split | src/utils.ts:31 | `split(sep)` gives at least one piece and no piece holds the separator |
| Text.JoinSplit | src/utils.ts:31 | joining the pieces with the separator gives the text back |
| Text.SplitJoin | src/utils.ts:31 | splitting separator-free pieces joined by the separator gives the pieces back |
| Text.RemoveFirst | cli/utils.ts:57 | `replace("/", "")` cuts out the first `/` and keeps the rest in order, and leaves a text without `/` as it is |
| Text.IndexOf | cli/utils.ts:57 | the first position of the character, with none before it, and -1 exactly when it is absent |
| Presets.Assign | cli/utils.ts:58 | `m[k] = v` stores `v` under `k`, changes no other key, and appends `k` to the key order only when it is new |
| Presets.AssignWellFormed | cli/utils.ts:58 | assignment keeps every key listed once and exactly the keys with a value listed |
| Presets.StepValid | cli/utils.ts:51-64 | each iteration keeps the record well formed and the open category present, so `presetMap[category].push` never meets `undefined` |
| Presets.GetPresetsSpec | cli/utils.ts:41-67 | the record built from any output is well formed |
| Presets.GetPresets | cli/utils.ts:41-67 | the loop computes the record of `GetPresetsSpec` |
| Presets.IgnoredLine | cli/utils.ts:51-64 | a line with no `/` and not indented by exactly four characters changes nothing |
| Presets.NothingBeforeFirstCategory | cli/utils.ts:49-64 | preset lines before the first category line are dropped |
| Presets.CategoryLineOpens | cli/utils.ts:56-59 | a category line makes its name current and (re)sets its list, leaving other keys alone |
| Presets.CategoryNameOfHeader | cli/utils.ts:57 | a header `<name>/` (trimmed) names the category `<name>`, and only the first `/` is dropped |
| Presets.StepInCategory | cli/utils.ts:61-63 | inside a category a four-indented line appends its trimmed text to that category only |
| Presets.PresetsAppendInOrder | cli/utils.ts:51-64 | the preset lines of a section are appended to its category in order |
| Presets.OtherCategoriesKeep | cli/utils.ts:51-64 | lines that do not open category `c` leave `c`'s list alone when it is not current |
| Presets.CategoryIsLastSection | cli/utils.ts:41-67 | a category's final list is its last section's preset lines, a later category line of the same name resetting it |
| CliEngine.File.constructor | cli/engine.ts:162-166 | a fresh input file has its path parts and neither output path nor command yet |
| CliEngine.AudioKeptByDefault | cli/engine.ts:159-160 | the flag is `-a none` exactly when `keepAudio` is explicitly false, and empty otherwise (the default keeps the audio) |
| CliEngine.VideoCommandUnixArgv | cli/engine.ts:163-165 | on Unix, the command a POSIX shell reads is exactly `HandBrakeCLI -i <src> [-a none] -o <out> -Z <preset>`, one word per path and preset whatever characters they hold |
| CliEngine.VideoCommandIsTrimmed | cli/engine.ts:165 | `.trim()` of the template only drops the trailing blank the last Unix `shellQuote` leaves |
| CliEngine.VideoCommandNonEmpty | cli/engine.ts:165-169 | every command starts with `HandBrakeCLI`, so the `Command not found` guard never fires |
| CliEngine.LineEvents | cli/engine.ts:173-177 | a line raises one progress event exactly when it reports a non-zero percentage, carrying that percentage, the file's base name and the ETA |
| CliEngine.LinesEvents | cli/engine.ts:173-178 | the output of one file only raises progress events, with positive percentages and that file's name |
| CliEngine.VideoBatch | cli/engine.ts:168-189 | the batch either completes or is rejected; it never hangs |
| CliEngine.CompressVideo | cli/engine.ts:158-190 | every file gets its output path and command; the events and the outcome are those of `VideoBatch`: the files in order, each file's progress then its completion, up to the first file whose input or output is missing, which rejects with `File not found: <path>` |
| CliEngine.PrepareVideo | cli/engine.ts:162-166 | the first loop gives every file `<dir>/<base>__HardBraked__<preset>.mp4` as output and its quoted command |
| CliEngine.PrepareFile | cli/engine.ts:163-165 | one file's output path and command are set to the specified ones |
| CliEngine.RunVideo | cli/engine.ts:168-189 | the second loop produces the events and outcome of `VideoBatch`, stopping at the first rejection |
| CliEngine.RunVideoFile | cli/engine.ts:169-188 | one iteration: a missing input rejects before any event, a missing output rejects after the progress, otherwise progress then one completion |
| CliEngine.RunVideoLines | cli/engine.ts:173-178 | the line handler produces the progress events of the lines, in order |
| CliEngine.Completions | cli/engine.ts:180-188 | for files whose sizes are all found, one successful result per file, naming its base name, its two sizes and its output path |
| CliEngine.VideoDoneOncePerFile | cli/engine.ts:168-189 | the batch completes exactly when every input and output is found, and then `onFileDone` has been called exactly once per file, in file order, with that file's result |
| CliEngine.FileVideoRunDones | cli/engine.ts:171-188 | one file completes exactly when both its files are found, with exactly one completion; otherwise it is rejected with `File not found:` and the missing path, without a completion |
| CliEngine.VideoStopsAtMissing | cli/engine.ts:168-189 | at the first file whose input or output is missing the batch rejects with `File not found: <path>`, after exactly one completion for each earlier file; the later files are never encoded |
| CliEngine.StatusLineReported | cli/engine.ts:173-177 | a progress line is skipped exactly when its percentage is all zeros, and otherwise reports that percentage |
| CliEngine.CrashMessageExplains | cli/engine.ts:31-43 | messages without SIGABRT or SIGKILL pass unchanged; otherwise the message names the signal (SIGABRT first) and ends with the platform's reinstall hint |
| CliEngine.ProgressActions | cli/engine.ts:91-94 | each ffmpeg progress event becomes one `onProgress` call with that percent and the file's base name, in order |
| CliEngine.ExtractsAt | cli/engine.ts:114-125 | the part loop issues one extraction per part, part `i` with its own start and output |
| CliEngine.PartsTrace | cli/engine.ts:112-125 | the part loop only fails to complete by never ending or by a failing extraction |
| CliEngine.AudioBatch | cli/engine.ts:76-146 | an empty batch does nothing and completes |
| CliEngine.AudioInputNotFound | cli/engine.ts:79-80 | an input missing when its size is read rejects the batch with `File not found: <path>` before its encode, with nothing done for it or the later files |
| CliEngine.CompressAudio | cli/engine.ts:76-146 | the method performs the actions of `AudioBatch`, file after file, and ends as it does |
| CliEngine.BatchStopsAtFailure | cli/engine.ts:79-124 | once a file's processing does not complete, the later files are not touched |
| CliEngine.RunParts | cli/engine.ts:107-125 | the part loop's actions and ending are those of `PartsTrace` |
| CliEngine.CompressAudioFile | cli/engine.ts:79-145 | one iteration performs the actions of `AudioFileTrace` and ends as it does |
| CliEngine.AudioRenamedWhenSmall | cli/engine.ts:130-144 | an encoded file within the limit is renamed to `<base>__HardBraked__<bitrate>.mp3` next to its input, nothing is split, and that path is reported |
| CliEngine.AudioSplitIntoParts | cli/engine.ts:101-144 | an encoded file over the limit is cut into `ceil(duration / chunk)` parts, then the full file and the lab directory are removed and the split directory is reported |
| CliEngine.AudioZeroSecondPartsHang | cli/engine.ts:111-114 | a zero-second chunk length with a non-empty recording never finishes |
| CliEngine.AudioEmptySplit | cli/engine.ts:101-129 | a zero-length recording over the limit completes with no extraction and reports the split directory |
| CliEngine.RenamedReportedOnce | cli/engine.ts:130-144 | the renamed file is reported exactly once, as the last action |
| CliEngine.SplitReportedOnce | cli/engine.ts:101-144 | a split file is reported exactly once, last, when it completes, and not at all otherwise |
| CliEngine.AudioFileReportedOnce | cli/engine.ts:79-145 | a file that completes is reported exactly once, last, as a success under its base name; one that does not is never reported |
| CliEngine.AudioBatchReports | cli/engine.ts:76-146 | the reports name the files in order as successes, all of them when the batch completes and fewer otherwise |
| SrcEngine.File.constructor | src/engine.ts:22-26 | a fresh input file has its path parts and neither output path nor command yet |
| SrcEngine.VideoCommandNonEmpty | src/engine.ts:25-31 | every command starts with `HandBrakeCLI`, so the `Command not found` guard never fires |
| SrcEngine.VideoCommandArgv | src/engine.ts:23-25 | when neither path nor the preset holds a single quote, a POSIX shell reads the command as `HandBrakeCLI -i <src> [-a none] -o <out> -Z <preset>` |
| SrcEngine.QuotedPathMisread | src/engine.ts:25 | a source path holding a single quote (and no backslash anywhere) is never read back as itself: the shell sees another argument vector or none |
| SrcEngine.QuotedPathFixedByShellQuote | src/engine.ts:25 | for such a path the command as written and the one built with `shellQuote` are read differently |
| SrcEngine.LineCalls | src/engine.ts:33-37 | a line drives the bar exactly when it reports a non-zero percentage and an ETA, passing both and the file's name |
| SrcEngine.LinesCalls | src/engine.ts:33-38 | a file's output only produces `handleNewLine` calls, with positive percentages, non-empty ETAs and that file's name |
| SrcEngine.CompressVideo | src/engine.ts:19-44 | every file gets its `__HandBraked__` output path and command, and the bar receives each file's lines then `handleOneFileDone`, and `stop` at the end |
| SrcEngine.PrepareVideo | src/engine.ts:22-26 | the first loop gives every file its output path and command |
| SrcEngine.RunVideo | src/engine.ts:30-41 | the second loop drives the bar file by file |
| SrcEngine.RunVideoLines | src/engine.ts:33-38 | the line handler produces the bar calls of the lines, in order |
| SrcEngine.OneFileDonePerFile | src/engine.ts:28-43 | `handleOneFileDone` is called once per file, the last call for the batch is `stop`, and `stop` is called only then |
| SrcEngine.AudioCommandArgv | src/engine.ts:73 | for paths made of characters `escapePath` handles and a plain bitrate, the shell reads `ffmpeg -i <src> -map 0:a:0 -b:a <bitrate> <out> -y` |
| SrcEngine.DefaultSplitAnswer | src/engine.ts:79 | the split question defaults to "true" exactly when the output exceeds 4 MB |
| SrcEngine.Mp3LocArgv | src/engine.ts:64 | the escaped `.mp3` location equals the escape of the path plus `.mp3` and is read as that one word |
| SrcEngine.ConvertCommandArgv | src/engine.ts:65 | the shell reads `ffmpeg -i <part> -c:a copy <part>.mp3` |
| SrcEngine.Converted | src/engine.ts:62-67 | each part is converted to the same name with `.mp3` appended |
| SrcEngine.Mp3Files | src/engine.ts:89 | the listing filtered to the names ending in `.mp3`, in order |
| SrcEngine.Mp3FilterKeepsConverted | src/engine.ts:87-89 | when the directory holds the parts and their conversions, the `.mp3` filter keeps exactly the conversions |
| SrcEngine.ConvertRuns | src/engine.ts:62-67 | one ffmpeg conversion per part, in listing order |
| SrcEngine.Moves | src/engine.ts:90-94 | one rename per `.mp3` file from the part directory to the split directory, in order |
| SrcEngine.MovesIff | src/engine.ts:90-94 | a file is moved exactly when it is one of the names |
| SrcEngine.CompressAudio | src/engine.ts:70-98 | sets the file's `_compressed_` output path and escaped command, and performs the actions of `AudioTrace` |
| SrcEngine.ConvertParts | src/engine.ts:59-68 | the conversion loop performs `ConvertRuns` |
| SrcEngine.MoveParts | src/engine.ts:89-94 | the rename loop performs `Moves` |
| SrcEngine.SplitActionsShape | src/engine.ts:80-97 | after the setup, every part is converted in order, exactly the conversions are moved, and the part directory is removed last |
| SrcEngine.SplitMovesConverted | src/engine.ts:70-97 | a split run encodes, asks, converts every part, moves exactly the converted parts into the split directory and removes the part directory last |
| SrcEngine.SplitConvertsAt | src/engine.ts:83-96 | after the four set-up actions the i-th action converts the i-th part, and the part directory is removed last |
| SrcEngine.SplitMovesIff | src/engine.ts:89-94 | a part-directory file is moved into the split directory exactly when it is the conversion of a part |
| App.ExtListsDisjoint | src/App.tsx:21-22 | no extension is both a video and an audio extension |
| App.GetFileExt | src/App.tsx:25-28 | a path without a dot has the empty extension |
| App.GetFileExtOfName | src/App.tsx:25-28 | the extension of `<stem>.<ext>` is `ext` lower-cased |
| App.ExtTypeSpec | src/App.tsx:30-35 | an extension classifies as video exactly when it is in the video list, as audio exactly when in the audio list, and the empty one as unknown |
| App.ClassifyByExtension | src/App.tsx:25-35 | a path is classified by its lower-cased last extension, and a path without a dot is unknown |
| App.Classify | src/App.tsx:329 | every dropped path is paired with its classification, in order |
| App.Decide | src/App.tsx:330-367 | an accepted drop carries the supported paths in order, all of one type, and only when that type's encoder is present |
| App.SupportedTypes | src/App.tsx:330-338 | the types among the supported paths are the known types among all paths |
| App.DropOutcomes | src/App.tsx:333-367 | the drop fails with "no supported files" exactly when no path is known, with "mixed types" exactly when both kinds occur, with the missing-encoder message exactly when the one kind's encoder is absent, and is accepted otherwise |
| App.AcceptedKeepsOrder | src/App.tsx:330-346 | the accepted paths are exactly the known ones, in drop order |
| App.UnknownPathsIgnored | src/App.tsx:348-350 | adding unknown paths changes nothing about the decision |
| App.ClassifyAppend | src/App.tsx:329 | classification is element-wise |
| App.AppState.constructor | src/App.tsx:37-40 | the app starts at home with no files and no drop error |
| App.AppState.HandleDroppedFiles | src/App.tsx:324-370 | a rejected drop sets the error and changes nothing else; an accepted video drop clears the error, stores the paths, switches to video mode and loads presets; an accepted audio drop does the same for audio without loading presets |
| App.AppState.HandleClassified | src/App.tsx:330-367 | the same, from the classified paths |
| App.FileName | src/App.tsx:512-516 | the display name is the text after the last separator (a backslash when the path holds one, a slash otherwise) and holds no separator |
| App.FileNameOfJoinPath | src/App.tsx:512-516 | the display name of `<dir>/<name>` is `name` |
| App.FileNameOfWindowsPath | src/App.tsx:512-516 | the display name of `<dir>\<name>` is `name` |
| App.LastN | src/App.tsx:275 | the last `n` items, or all when there are fewer |
| App.AppendLog | src/App.tsx:275-294 | the new line is last and at most 51 lines are kept: the previous 50 and the new one |
| App.LogIsLastLines | src/App.tsx:275-294 | after any number of appends the log is the last 51 lines ever appended |
| App.Settle | src/App.tsx:265-311 | a promise settles once: the first settlement stays and later ones are ignored |
| App.LogOf | src/App.tsx:274-294 | each output line adds at most one log line |
| App.InstallDep | src/App.tsx:263-314 | the log ends as the last 51 log lines of the output, and the outcome is that of the output followed by the process's close |
| App.OnInstallOutput | src/App.tsx:269-295 | one output line appends its log line, if any, and settles the promise only if it was still pending |
| App.InstallFirstSettlementWins | src/App.tsx:277-286 | the first `install_done` or `error` line decides the outcome, whatever follows, the exit code included |
| App.InstallPendingBefore | src/App.tsx:269-291 | output without a settling line leaves the promise pending |
| App.InstallSettledStays | src/App.tsx:265-311 | once settled, later output changes nothing |
| App.InstallWithoutSettlement | src/App.tsx:297-301 | without a settling line, exit code 0 leaves the promise pending forever and any other code rejects it with the code |
| App.ResultsOf | src/App.tsx:105-115 | one result per `file_done` line |
| App.RunSidecar | src/App.tsx:83-160 | the collected results are those of the `file_done` lines, and the outcome is that of the lines followed by the close rule |
| App.CollectedInArrivalOrder | src/App.tsx:105-115 | the collected results are those of the `file_done` lines, in arrival order |
| App.SidecarPendingBefore | src/App.tsx:97-132 | lines without `error` or `result` leave the promise pending |
| App.OnSidecarLine | src/App.tsx:97-132 | one stdout line adds its result to `collected` exactly when it is a `file_done` line, and settles the promise only when it is an `error` or `result` line and the promise is still pending |
| App.SidecarSettledStays | src/App.tsx:91-157 | once settled, later lines change nothing |
| App.SidecarFirstSettlementWins | src/App.tsx:121-145 | the first `error` or `result` line decides the outcome, whatever follows |
| App.SidecarSettlesFirst | src/App.tsx:121-127 | when line k is the first `error` or `result` line, the promise is settled by it after line k and no longer pending |
| App.SidecarSettledAt | src/App.tsx:121-127 | the outcome after the lines is that first settlement |
| App.SidecarCloseRule | src/App.tsx:138-145 | without a settling line, a non-zero exit with nothing collected rejects with the code, and otherwise the collected results resolve the promise |
| App.DefaultCategory | src/App.tsx:397-399 | the first key is selected exactly when there is one and it is not empty |
| App.FirstPreset | src/App.tsx:398-401 | the first preset of a category, when it has one |
| App.PresetPicker.constructor | src/App.tsx:393-405 | no presets and nothing selected |
| App.PresetPicker.LoadPresets | src/App.tsx:393-405 | stores the presets, selects the first category when there is one, and its first preset when it has one; otherwise keeps the earlier selection |
| App.PresetPicker.ChangeCategory | src/App.tsx:805-808 | selects the category and, when it has presets, its first one |
| App.RunKeysGrow | cli/utils.ts:51-64 | parsing never drops a key once it is in the record |
| App.DefaultSelectionAfterParse | src/App.tsx:393-405 | after parsing `HandBrakeCLI -z` output the first category line selects its category and the first preset line of its last section |
| Bridge.Get | cli/bridge.ts:211 | `map[depName]` is defined exactly for the names the table holds |
| Bridge.FirstFound | cli/bridge.ts:208-231 | the first candidate found, none exactly when no candidate is found |
| Bridge.PreferredManager | cli/bridge.ts:204-231 | the manager is empty exactly when none of the platform's managers is found, and otherwise a found manager of the platform |
| Bridge.ChooseManager | cli/bridge.ts:204-231 | picks the preferred manager and that manager's entry for the dependency |
| Bridge.ManagerPrecedence | cli/bridge.ts:208-231 | Windows prefers winget then choco, macOS only brew, other systems brew then apt |
| Bridge.CatalogEntries | cli/bridge.ts:188-202 | the CLI tables hold only ffmpeg, the desktop tables HandBrakeCLI and ffmpeg, with the same ffmpeg entries, each run by its manager (`sudo` for apt) |
| Bridge.LogsOf | cli/bridge.ts:259-261 | one `install_log` event per line, in order |
| Bridge.RunLogsClean | cli/bridge.ts:257-269 | every logged line is non-empty and holds no line feed |
| Bridge.ChunkOfLinesLogged | cli/bridge.ts:257-262 | a chunk of non-empty lines, with or without a final line feed, logs exactly those lines |
| Bridge.OnData | cli/bridge.ts:257-262 | one output chunk appends the log events of its non-empty lines |
| Bridge.Stream | cli/bridge.ts:257-269 | the events of all chunks, in arrival order |
| Bridge.Attempt | cli/bridge.ts:243-279 | nothing is emitted exactly when the manager is missing (and not `sudo`), and the attempt succeeds exactly when it runs and exits with 0; a missing manager fails with "not found in PATH" |
| Bridge.TryInstall | cli/bridge.ts:243-279 | `tryInstall` emits the events of `Attempt` and ends as it does |
| Bridge.CliInstallDep | cli/bridge.ts:176-319 | `installDep` follows `CliInstall`: direct download for HandBrakeCLI, the winget-then-choco fallback, or one manager run |
| Bridge.RunFallback | cli/bridge.ts:282-307 | the fallback chain follows `Fallback` |
| Bridge.RunChoco | cli/bridge.ts:288-305 | after a winget failure, logs it and tries choco as `AfterWinget` says |
| Bridge.SrcInstallDep | src/bridge.ts:74-181 | the desktop `installDep` follows `SrcInstall` |
| Bridge.CliInstallEnds | cli/bridge.ts:233-319 | without a table entry the install fails with the platform hint and emits nothing; otherwise the events end with exactly one `install_done` |
| Bridge.FallbackEnds | cli/bridge.ts:282-307 | the fallback chain always ends with exactly one `install_done` |
| Bridge.FallbackOrder | cli/bridge.ts:282-307 | a winget success ends the chain at once; the chain fails exactly when winget and choco both fail, and then reports "winget and choco both failed" |
| Bridge.ChocoEntryFollowsWinget | cli/bridge.ts:192-198 | every winget entry has a choco entry, so the missing-choco branch never runs |
| Bridge.CliHandBrakeDirect | cli/bridge.ts:178-180 | HandBrakeCLI always takes the direct download, and no manager table lists it |
| Bridge.SrcInstallOutcome | src/bridge.ts:129-175 | nothing is emitted exactly when there is no entry or its manager is missing; otherwise `install_start` comes first and one `install_done` last; the install succeeds exactly when the run exits with 0 |
| Bridge.BridgesAgreeOnFfmpeg | cli/bridge.ts:309-317 | off Windows, both bridges install ffmpeg with the same events and the same success |
| Bridge.CheckBinaries | cli/bridge.ts:324-341 | reports the two encoders' presence, the preferred manager (empty when none) and, in the CLI, that HandBrakeCLI can always be installed |
| Bridge.EncoderFlags | cli/bridge.ts:324-327 | the loop records exactly the two encoders, each with its own presence flag |
| Bridge.PmField | cli/bridge.ts:329-335 | the `pm` field is the manager `installDep` prefers, and is empty exactly when none of the platform's managers is present |
| Bridge.PmFieldMatchesInstaller | cli/bridge.ts:330-336 | the manager `check-binaries` reports is the one `installDep` would use |
| Bridge.EmptyPmRejects | src/bridge.ts:129-137 | with no manager found the desktop install fails with the platform hint and emits nothing |
| Bridge.ThreePartsMatch | cli/bridge.ts:95-97 | a name made of the three literals with line-terminator-free gaps matches the asset pattern |
| Bridge.SearchEndsWithLast | cli/bridge.ts:95-97 | a name matching an end-anchored pattern ends with its last literal |
| Bridge.WindowsAssetIsX64 | cli/bridge.ts:95 | a Windows asset that matches ends with `x86_64.zip`, in any letter case |
| Bridge.WindowsArmSkipped | cli/bridge.ts:95 | an `-arm64.zip` asset never matches the Windows pattern |
| Bridge.FindAsset | cli/bridge.ts:103 | the index of the first matching asset, none exactly when no asset matches |
| Bridge.ChooseAsset | cli/bridge.ts:93-108 | Linux fails with the flatpak hint; otherwise the first matching asset is chosen, or the error lists all asset names |
| Bridge.ParseCommand | cli/bridge.ts:321-418 | an unknown or missing command fails with `Unknown command: ...`, `install-dep` without a name fails with the usage message, and `install-dep` carries its name |
| Bridge.Finish | cli/bridge.ts:419-422 | the process exits with 0 exactly on success, and a failure emits one `error` event last and exits with 1 |
| Bridge.SrcInstallExit | src/bridge.ts:74-181 | the desktop install exits with 0 exactly when there is an entry, its manager is found and the run exits with 0 |
| Bridge.BadCommandLine | cli/bridge.ts:405-418 | a bad command line emits only its error and exits with 1 |
| Bridge.EmitVideo | cli/bridge.ts:365-370 | a completion becomes a `file_done` event and nothing becomes `done` |
| Bridge.VideoEmitted | cli/bridge.ts:363-371 | one event per callback |
| Bridge.VideoEmittedFileDones | cli/bridge.ts:368-370 | the `file_done` events are exactly the completions, in order |
| Bridge.CompressVideoReports | cli/bridge.ts:349-375 | `compress-video` exits with 0 exactly when every input and output is found, and then emits one `file_done` per file in order and a single `done`, last |
| Bridge.CompressVideoMissingFile | cli/bridge.ts:349-422 | when a file's input or output is missing, `compress-video` emits `file_done` for the files before it only, no `done`, ends with `File not found: <path>` and exits with 1 |
| Bridge.CompressFailure | cli/bridge.ts:419-422 | a failing compression emits no `done`, ends with its error and exits with 1 |
| FileSelection.ExtensionOf | src/file-selection.ts:9 | a name without a dot is its own extension, lower-cased |
| FileSelection.ExtensionOfDotted | src/file-selection.ts:9 | the extension of `stem.tail` is `tail` lower-cased when `tail` holds no dot, whatever dots the stem holds |
| FileSelection.SupportedFiles | src/file-selection.ts:7-14 | throws "No files found in the folder" exactly when no name has a supported extension, and otherwise returns exactly those names, in listing order |
| FileSelection.NonHardbrakedFiles | src/file-selection.ts:35-41 | passes on the listing error, throws "No non-hardbraked files found" when every supported name carries a marker, and otherwise returns exactly the supported names carrying neither marker in any letter case, in order |
| FileSelection.LowerContains | src/file-selection.ts:38 | a piece of a name, lower-cased, occurs in the lower-cased name |
| FileSelection.MarkedByPiece | src/file-selection.ts:36-38 | a name holding either marker in any letter case is filtered out |
| FileSelection.CliOutputSkipped | src/file-selection.ts:35-41 | the `<base>__HardBraked__<preset>.mp4` outputs of cli/engine.ts are never offered again |
| FileSelection.SrcOutputSkipped | src/file-selection.ts:35-41 | nor are the `<base>__HandBraked__<preset>.mp4` outputs of src/engine.ts |
| FileSelection.Ticked | src/file-selection.ts:30-45 | an empty tick exits the process with code 1 inside `askFilter`, so "No files selected" is never thrown; as written a non-empty tick throws the TypeError of `selectedFiles.map`, and with `askFilter` awaited it gives each ticked name joined to the working directory, in order |
| FileSelection.TickedAsWrittenThrows | src/file-selection.ts:30-45 | as written, ticking names throws where the awaited prompt returns one path per name |
| FileSelection.Pick | src/file-selection.ts:16-49 | `nnn` throws "Not implemented"; `xplr` throws unless installed and returns the lines it prints; `manual` and `non_hardbraked` pass on their listing errors and otherwise end as `Ticked` does; only an empty tick exits |
| FileSelection.SelectFiles | src/file-selection.ts:53-65 | as written (prompts not awaited) every call throws "No file picker selected", as does a missing or empty choice; a successful result needs the prompts awaited, and is non-empty, made of supported files only and an ordered subsequence of what the named picker returned |
| FileSelection.SelectFilesAlwaysThrows | src/file-selection.ts:54-56 | whatever picker the user names, the code as written throws "No file picker selected" and the awaited code does not |
| FileSelection.SelectFilesRunsPicker | src/file-selection.ts:54-64 | with the prompts awaited, the named picker runs: the call succeeds exactly when the picker returns paths of which one is supported, and the picker's exception or exit passes through |
| FileSelection.SelectFilesEmptiness | src/file-selection.ts:58-62 | with the prompts awaited, an empty pick throws "No files selected" and a pick with no supported file throws "No supported files found" |
| FileSelection.XplrEmptyPick | src/file-selection.ts:17-23 | an installed `xplr` that prints nothing is the empty pick, which throws "No files selected" |
| PyText.StripStart | src/file.py:18 | `lstrip()` removes exactly the leading white space |
| PyText.StripEnd | src/file.py:18 | `rstrip()` removes exactly the trailing white space |
| PyText.Strip | src/file.py:18 | `strip()` leaves neither end white, is empty exactly when the line is all white space, and leaves a stripped line alone |
| PyText.SplitLines | src/file.py:18 | `splitlines()` is empty exactly for the empty text and gives lines without boundaries |
| PyText.SplitLinesCons | src/file.py:18 | a line ended by `\n` or `\r\n` is the first line, followed by the lines of the rest |
| PyText.SplitLinesTerminated | src/file.py:18 | boundary-free lines written one per line are read back as they were |
| PyFile.StripAll | src/file.py:18 | every line stripped, in order |
| PyFile.CleanLinesMembers | src/file.py:18-19 | the clean lines are exactly the stripped lines that are not empty |
| PyFile.CleanLinesClean | src/file.py:18-19 | every clean line is stripped and non-empty |
| PyFile.SelectFilesMembers | src/file.py:11-25 | the result holds exactly the stripped non-empty lines whose text after the last dot is an allowed extension |
| PyFile.SelectFilesClean | src/file.py:11-25 | every name returned is stripped, non-empty and carries an allowed extension |
| PyFile.SelectFilesInOrder | src/file.py:11-25 | the names keep the order of the file's lines |
| PyFile.DotlessEntry | src/file.py:20-21 | a name without a dot is kept only when it is itself an allowed extension |
| PyFile.SelectFilesRoundTrip | src/file.py:11-25 | paths already stripped, non-empty, free of line boundaries and carrying an allowed extension come back unchanged and in order |
| PyFile.UpperCaseDropped | src/file.py:14-21 | the extension test is case-sensitive: a `.MP4` name is dropped |
| PyEvent.MatchPercent | src/event.py:39-40 | a match at the start of the text captures two digit runs |
| PyEvent.MatchPercentCorrect | src/event.py:39-40 | the anchored matcher accepts exactly `<digits>.<digits>` followed by one white-space character and `%`, and captures those digits |
| PyEvent.LineProgressReported | src/event.py:39-42 | a line whose leftmost match is `<w>.<f>` reports the whole part `w`, as `int(float(...))` does |
| PyEvent.LineProgressAbsent | src/event.py:40-46 | a line with no match reports nothing |
| PyEvent.LineProgressExample | src/event.py:39-42 | "12.34 %" reports 12 |
| PyEvent.Report | src/event.py:40-42 | a line makes at most one progress call, and one exactly when it matches |
| PyEvent.Chars | src/event.py:35 | each ASCII byte becomes the character with its code |
| PyEvent.PiecesSnocBreak | src/event.py:32-33 | a line break closes the current line and opens an empty one |
| PyEvent.PiecesSnocChar | src/event.py:34-35 | any other character extends the current line |
| PyEvent.AssembleFails | src/event.py:35 | reading fails exactly when a byte of 128 or more is read |
| PyEvent.AssembleSplits | src/event.py:30-35 | without failure, the finished lines and the line in progress are the input cut at every `\n` and `\r` |
| PyEvent.AssembleStaysFailed | src/event.py:35 | after the decode error nothing more is read |
| PyEvent.FinishClean | src/event.py:23-35 | for ASCII input the stored lines are the pieces between breaks (without an empty last piece), nothing is left pending, and the progress calls are the lines' percentages followed by 100 |
| PyEvent.FinishRaised | src/event.py:27-35 | a byte of 128 or more raises before the exit is seen: no final 100 call |
| PyEvent.LineLog.constructor | src/event.py:8 | the shared list starts empty |
| PyEvent.ProcessWithEvent.constructor | src/event.py:9-17 | a new process object has the command, the shared list and an empty line in progress |
| PyEvent.ProcessWithEvent.HandleNewLine | src/event.py:37-48 | appends the line in progress to the shared list, reports its progress and empties it |
| PyEvent.ProcessWithEvent.Feed | src/event.py:30-35 | one ASCII byte either completes a line (with its progress call) or extends the line in progress |
| PyEvent.ProcessWithEvent.Exit | src/event.py:24-28 | at exit a non-empty line in progress is handled, then 100 is reported |
| PyEvent.ProcessWithEvent.Start | src/event.py:19-35 | the shared list gains the lines of the output, the progress calls are those of `RunReports`, and the decode error is raised exactly when the reading fails, which `AssembleFails` ties to a byte of 128 or more |
| PyEvent.RunTwo | src/event.py:8-38 | two instances append to the one class-level list: the second run's lines follow the first's |
| PyLoader.Apply | src/loader.py:9-30 | a raising call changes nothing; `start` alone sets `started`; `start` raises exactly when started, `update` when not started or the task name is unknown, `stop` when not started, and `add_task` never |
| PyLoader.Run | src/loader.py:4-30 | one outcome per call |
| PyLoader.ApplyConsistent | src/loader.py:9-30 | every call keeps each bound task id one the display handed out and recorded |
| PyLoader.AddTaskRebinds | src/loader.py:9-10 | `add_task` binds the name to a fresh task, replacing an earlier binding, and leaves every other name alone |
| PyLoader.RestartRaises | src/loader.py:12-30 | `stop` does not clear `started`: start, stop, start raises on the second start |
| PyLoader.StaysStarted | src/loader.py:12-17 | once started, a loader stays started, and every later `start` raises |
| PyLoader.TaskTable.constructor | src/loader.py:7 | the class-wide task table starts empty |
| PyLoader.Display.constructor | src/loader.py:5 | the display starts with no tasks and not running |
| PyLoader.Loader.constructor | src/loader.py:6 | a new loader is not started and shares the table and display |
| PyLoader.Loader.AddTask | src/loader.py:9-10 | the state changes as `Apply` says for `add_task` |
| PyLoader.Loader.Start | src/loader.py:12-17 | the state and the exception are those of `Apply` for `start` |
| PyLoader.Loader.CheckIfStarted | src/loader.py:23-25 | raises "not started" exactly when the loader is not started |
| PyLoader.Loader.Update | src/loader.py:19-21 | the state and the exception are those of `Apply` for `update`, the started check first |
| PyLoader.Loader.Stop | src/loader.py:27-30 | the state and the exception are those of `Apply` for `stop` |

## Left out

- Processes, the filesystem, probes, the network and the Tauri/React runtime: what a process prints, its exit code, what `ffprobe` reports, what `readdir` lists, what `which` prints and what a prompt answers are parameters of the model.
- Floating point: the split arithmetic and the percent are exact (integers, `real`s and decimal digit strings); JavaScript rounding of `Number` and Python's `float` are not modelled.
- `toLowerCase`, and the `\d` of event.py's pattern, are modelled on ASCII: other letters and Unicode digits are left alone (event.py only sees ASCII, since any byte of 128 or more raises first).
- src/blueprints.ts is not modelled: its `File` has only `dir`, `fullPath` and `fileNameWithoutExtension`, while the engines use other fields; those are modelled as the engines use them.
- FileSelection.SelectFiles: `isSupported` is a parameter. The `File` of src/blueprints.ts has no `isSupported` method, so as the repository stands line 61 of src/file-selection.ts would throw a TypeError for any non-empty pick; the model gives the call the test it evidently intends.
- Text.JoinPath: `path.resolve` and `path.join` are modelled as `dir + "/" + name`. Directories are taken as absolute, normalised POSIX paths: the output paths of CliEngine.PrepareVideo, CliEngine.AudioRenamedWhenSmall, SrcEngine.CompressAudio, SrcEngine.Moves and FileSelection.Ticked are not made absolute against the working directory (a relative `clip.mp4` has the directory `.`), not normalised (a file in `/` gets `//`), and use `/` on Windows too.
- Shell.WindowsQuoteRoundTrip: the Windows quoting is inverted at string level only; how cmd.exe reads the command (its `%VAR%` expansion inside double quotes, its own escapes) is not modelled, and the POSIX reader stands only for Unix shells.
- The `gum` prompts, the CLI progress bar and the rich display's rendering and task totals: the loader's display is reduced to the ids it hands out, each task's completion and whether it is running.
- Spawn `error` events, signals other than through the exit code, and the interleaving of stdout and stderr chunks beyond the order in which they arrive.
- `Object.keys` order is modelled as insertion order; keys inherited from `Object.prototype` are not. JavaScript lists integer-like keys first, in numeric order, so App.DefaultCategory and App.PresetPicker.LoadPresets pick a different default category from the app's when a category name is an integer such as `2160` and is not the first header.
- event.py: bytes still unread when `poll()` first reports the exit are not read, as in the code; the stderr pipe the code opens and never reads is left out, and so is the possibility that it fills and blocks the child.
- The direct HandBrakeCLI download (the GitHub release request, the archive extraction and `chmod`) beyond the asset choice; `JSON.parse` is a parameter that turns a line into an event or nothing.
- `askInteger` returning `NaN` for non-numeric input is modelled only through `splitByMB` being `0`/unset; `splitByMB` is a whole number of megabytes.
- The fluent-ffmpeg command objects of cli/engine.ts are modelled as the settings the code gives them (input, start time, duration, codec, output path); how the library turns them into an ffmpeg argument list is not part of this model.
- CliEngine.AudioBatch: a part loop that never ends (a chunk length of 0 with a positive duration) is reported as the outcome `Hangs` rather than modelled as a loop without end.
- The `existsSync` guards of the audio engines are taken as true: the files they test were just written by the preceding step.
- CliEngine.AudioBatch: the size of the encoded temporary file (cli/engine.ts:99) is part of the run and always found, since ffmpeg has just written it; only the input's size read can throw `File not found`.
- CliEngine.SizeProbe: one probe answers for the whole batch, so a file that appears or disappears between two reads of the same path is not modelled; a failed HandBrakeCLI run is modelled only through the output it leaves behind, since its exit code is not looked at.
- src/App.tsx: React state updates are modelled as fields of `App.AppState` and `App.PresetPicker`; the toasts and other callbacks are left out.
- src/loader.py: the `main` demo at the end of the file is left out; the `KeyError` is modelled without its message text.
- PyText.SplitLines: the `\r\n` pair counts as one boundary as in Python; the other Unicode boundaries are single characters.

## Findings

| source | as written | input that shows it | evidently intended | confidence | as-written member | corrected member |
|---|---|---|---|---|---|---|
| src/engine.ts:25 | the source and output paths are wrapped in single quotes without escaping the quotes inside them | a source path containing `'`, such as `it's.mp4` | each path read back by the shell as one word, as `shellQuote` in cli/engine.ts does | not executed | SrcEngine.QuotedPathMisread | CliEngine.VideoCommandUnixArgv |
| src/utils.ts:66-68 | `escapePath` backslash-escapes quotes, white space, `$`, backquote and backslash only, so operators stay bare, and an escaped newline becomes a line continuation | `a&b.mp3` is read as `a`, `&`, `b.mp3`; `a` newline `b` is read as `ab` | the escaped path read back as exactly one word equal to the path | not executed | Shell.EscapePathLeavesOperators | Shell.EscapePathSafeReadsBack |
| src/file-selection.ts:54-56 | `askChoose` is `async` and its call is not awaited, so `choice` holds a Promise, `choice[0]` is undefined and the guard throws | any call of `selectFiles`, for instance one where the user chooses `manual` | the picker the user names runs | not executed | FileSelection.SelectFilesAlwaysThrows | FileSelection.SelectFilesRunsPicker |
| src/file-selection.ts:30-45 | the `manual` and `non_hardbraked` pickers do not await `askFilter`: on the Promise `selectedFiles.length === 0` is false and `selectedFiles.map` is missing, so a TypeError is thrown | ticking `a.mp4` in the `manual` picker | the ticked names joined to the working directory | not executed | FileSelection.TickedAsWrittenThrows | FileSelection.Ticked |

The desktop engine keeps the as-written quoting in `SrcEngine.VideoCommand` and `SrcEngine.CompressAudio`, because that is what the program sends to the shell; `SrcEngine.QuotedPathFixedByShellQuote` shows that the command built with `shellQuote` reads back correctly, and `Shell.EscapePathSafeAgrees` shows that `Shell.EscapePathSafe` agrees with `escapePath` on every path that needs no escaping. `Shell.EscapePathLosesNewline` exhibits the newline case of the second row.

The file pickers are modelled in both forms, told apart by the parameter `awaited` of `FileSelection.Ticked`, `FileSelection.Pick` and `FileSelection.SelectFiles`: `false` is the code as written, `true` the code with its prompt calls awaited. In both forms an empty tick ends the process inside `askFilter`, whose `min: 1` check runs before the call returns, so the pickers' own "No files selected" check is never reached.
