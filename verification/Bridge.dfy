/** The sidecar bridges cli/bridge.ts and src/bridge.ts: the command
    dispatch of `main`, the `check-binaries` record, the choice of a package
    manager and the installation traces of `install-dep`, and (CLI only) the
    choice of the HandBrakeCLI release asset. Every event the bridges write to
    standard output is an `Emitted` value, in order. Whether a program is on
    the PATH is an oracle (`findBinaryPath` for installing,
    `checkIfBinaryExists` for `check-binaries`); a spawned package manager is
    a `Run`: its output chunks in arrival order and its exit code. */
module Bridge {
  import opened Wrappers
  import opened Seqs
  import opened Text
  import ShellOutput
  import CliEngine
  import App

  type Platform = CliEngine.Platform

  /** The events written as JSON lines, by their `type`. */
  datatype Emitted =
    | InstallStart(dep: string, desc: string, pm: string)
    | InstallLog(dep: string, line: string)
    | InstallDone(dep: string, success: bool, error: Option<string>)
    | Progress(file: string, percent: real, eta: Option<string>)
    | FileDone(result: CliEngine.FileResult)
    | Done
    | Error(message: string)

  predicate IsInstallDone(e: Emitted) {
    e.InstallDone?
  }

  predicate IsFileDone(e: Emitted) {
    e.FileDone?
  }

  predicate IsDone(e: Emitted) {
    e.Done?
  }

  // ---------------------------------------------------------------------------
  // Package-manager tables and precedence (cli/bridge.ts:185-231, src/bridge.ts:77-127)

  datatype PkgInfo = PkgInfo(bin: string, args: seq<string>, desc: string)

  /** The four `PkgMap`s of one bridge. */
  datatype Catalog = Catalog(brew: map<string, PkgInfo>, winget: map<string, PkgInfo>,
                             choco: map<string, PkgInfo>, apt: map<string, PkgInfo>)

  const BrewFfmpeg := PkgInfo("brew", ["install", "ffmpeg"], "ffmpeg")
  const WingetFfmpeg := PkgInfo("winget", ["install", "--id", "Gyan.FFmpeg", "-e", "--accept-source-agreements",
                                           "--accept-package-agreements"], "ffmpeg")
  const ChocoFfmpeg := PkgInfo("choco", ["install", "ffmpeg", "-y"], "ffmpeg")
  const AptFfmpeg := PkgInfo("sudo", ["apt", "install", "-y", "ffmpeg"], "ffmpeg")

  /** The CLI bridge installs only ffmpeg through a package manager. */
  const CliCatalog := Catalog(map["ffmpeg" := BrewFfmpeg], map["ffmpeg" := WingetFfmpeg],
                              map["ffmpeg" := ChocoFfmpeg], map["ffmpeg" := AptFfmpeg])

  /** The desktop bridge has a HandBrakeCLI entry for every manager too. */
  const SrcCatalog := Catalog(
    map["HandBrakeCLI" := PkgInfo("brew", ["install", "handbrake"], "HandBrake (provides HandBrakeCLI)"),
        "ffmpeg" := BrewFfmpeg],
    map["HandBrakeCLI" := PkgInfo("winget", ["install", "--id", "HandBrake.HandBrakeCLI", "-e",
                                             "--accept-source-agreements", "--accept-package-agreements"],
                                  "HandBrakeCLI"),
        "ffmpeg" := WingetFfmpeg],
    map["HandBrakeCLI" := PkgInfo("choco", ["install", "handbrake.install", "-y"], "HandBrake (provides HandBrakeCLI)"),
        "ffmpeg" := ChocoFfmpeg],
    map["HandBrakeCLI" := PkgInfo("sudo", ["apt", "install", "-y", "handbrake-cli"], "HandBrake CLI"),
        "ffmpeg" := AptFfmpeg])

  /** `pkgMap[depName]`, with `undefined` as None. */
  function Get(m: map<string, PkgInfo>, depName: string): (r: Option<PkgInfo>)
    ensures r.Some? <==> depName in m
  {
    if depName in m then Some(m[depName]) else None
  }

  /** The table a manager name stands for. */
  function Table(c: Catalog, pm: string): map<string, PkgInfo> {
    if pm == "brew" then c.brew
    else if pm == "winget" then c.winget
    else if pm == "choco" then c.choco
    else if pm == "apt" then c.apt
    else map[]
  }

  /** The managers a platform tries, best first: an independent statement of
      the precedence the if-chains implement. */
  function Precedence(p: Platform): (r: seq<string>)
    ensures |r| >= 1 && forall i :: 0 <= i < |r| ==> r[i] != ""
  {
    match p
    case Windows => ["winget", "choco"]
    case MacOS => ["brew"]
    case OtherOS => ["brew", "apt"]
  }

  /** The first candidate the oracle reports, if any. */
  function FirstFound(candidates: seq<string>, found: string -> bool): (r: Option<string>)
    ensures r.None? <==> forall i :: 0 <= i < |candidates| ==> !found(candidates[i])
    ensures r.Some? ==> exists i :: 0 <= i < |candidates| && candidates[i] == r.value && found(r.value) &&
                                   forall j :: 0 <= j < i ==> !found(candidates[j])
  {
    if candidates == [] then None
    else if found(candidates[0]) then Some(candidates[0])
    else
      var r := FirstFound(candidates[1..], found);
      assert forall j :: 1 <= j < |candidates| ==> candidates[j] == candidates[1..][j - 1];
      r
  }

  /** `pmName` after the if-chain: the first available manager of the
      platform's precedence list, or "" when none is available. */
  function PreferredManager(p: Platform, found: string -> bool): (r: string)
    ensures r == "" <==> forall i :: 0 <= i < |Precedence(p)| ==> !found(Precedence(p)[i])
    ensures r != "" ==> r in Precedence(p) && found(r)
  {
    match FirstFound(Precedence(p), found)
    case None => ""
    case Some(m) => m
  }

  /** The `let entry` / `let pmName` if-chain of `installDep`. */
  method ChooseManager(p: Platform, found: string -> bool, catalog: Catalog, depName: string)
    returns (entry: Option<PkgInfo>, pmName: string)
    ensures pmName == PreferredManager(p, found)
    ensures entry == Get(Table(catalog, pmName), depName)
  {
    entry := None;
    pmName := "";
    if p == CliEngine.Windows {
      if found("winget") {
        entry := Get(catalog.winget, depName);
        pmName := "winget";
      } else if found("choco") {
        entry := Get(catalog.choco, depName);
        pmName := "choco";
      }
    } else if p == CliEngine.MacOS {
      if found("brew") {
        entry := Get(catalog.brew, depName);
        pmName := "brew";
      }
    } else {
      if found("brew") {
        entry := Get(catalog.brew, depName);
        pmName := "brew";
      } else if found("apt") {
        entry := Get(catalog.apt, depName);
        pmName := "apt";
      }
    }
  }

  /** A manager is chosen only when every better one is missing: the
      precedence of each platform written out. */
  lemma {:induction false} ManagerPrecedence(p: Platform, found: string -> bool)
    ensures p.Windows? ==> (PreferredManager(p, found) == "winget" <==> found("winget"))
    ensures p.Windows? ==> (PreferredManager(p, found) == "choco" <==> !found("winget") && found("choco"))
    ensures p.MacOS? ==> PreferredManager(p, found) in {"brew", ""}
    ensures p.OtherOS? ==> (PreferredManager(p, found) == "brew" <==> found("brew"))
    ensures p.OtherOS? ==> (PreferredManager(p, found) == "apt" <==> !found("brew") && found("apt"))
  {
    var pre := Precedence(p);
    var m := PreferredManager(p, found);
    if m != "" {
      var i :| 0 <= i < |pre| && pre[i] == m && found(m) && forall j :: 0 <= j < i ==> !found(pre[j]);
    }
  }

  /** The catalogs differ only in HandBrakeCLI: the CLI has a package entry
      for ffmpeg alone, the desktop app for both encoders, and both use the
      same ffmpeg entries. Every entry runs its manager, except apt's, which
      runs `sudo`. */
  lemma {:induction false} CatalogEntries(pm: string, depName: string)
    requires pm in {"brew", "winget", "choco", "apt"}
    ensures Get(Table(CliCatalog, pm), depName).Some? <==> depName == "ffmpeg"
    ensures Get(Table(SrcCatalog, pm), depName).Some? <==> depName in {"HandBrakeCLI", "ffmpeg"}
    ensures Get(Table(CliCatalog, pm), "ffmpeg") == Get(Table(SrcCatalog, pm), "ffmpeg")
    ensures depName in Table(SrcCatalog, pm) ==> Table(SrcCatalog, pm)[depName].bin == (if pm == "apt" then "sudo" else pm)
  {
  }

  // ---------------------------------------------------------------------------
  // Rejection before anything runs (cli/bridge.ts:233-240, src/bridge.ts:129-144)

  function Hint(p: Platform): string {
    match p
    case Windows => "Please install winget (built into Windows 10/11) or Chocolatey, then reopen HardBrake."
    case MacOS => "Please install Homebrew from https://brew.sh and then reopen HardBrake."
    case OtherOS => "No supported package manager found (brew, apt). Please install the dependency manually."
  }

  function NoEntryMessage(p: Platform, depName: string): string {
    "Cannot auto-install " + depName + ". " + Hint(p)
  }

  function NotInPathMessage(pm: string): string {
    "Package manager '" + pm + "' not found in PATH."
  }

  /** Whether a package is spawned: its binary is on the PATH, or it is
      `sudo`, which is spawned by name. */
  predicate Spawns(info: PkgInfo, found: string -> bool) {
    found(info.bin) || info.bin == "sudo"
  }

  // ---------------------------------------------------------------------------
  // Streaming a package manager's output (cli/bridge.ts:257-269, src/bridge.ts:153-165)

  /** A spawned package manager: its standard output and standard error
      chunks in arrival order (both handlers do the same), and its exit code,
      None for `null`. */
  datatype Run = Run(chunks: seq<string>, code: Option<int>)

  /** One `install_log` per line. */
  function LogsOf(dep: string, lines: seq<string>): (r: seq<Emitted>)
    ensures |r| == |lines| && forall i :: 0 <= i < |lines| ==> r[i] == InstallLog(dep, lines[i])
  {
    seq(|lines|, i requires 0 <= i < |lines| => InstallLog(dep, lines[i]))
  }

  /** The events of one chunk: `split("\n").filter(Boolean)`, one event each. */
  function ChunkLogs(dep: string, chunk: string): seq<Emitted> {
    LogsOf(dep, ShellOutput.OutputLines(chunk))
  }

  /** The events of every chunk, in arrival order. */
  function RunLogs(dep: string, chunks: seq<string>): seq<Emitted>
    decreases |chunks|
  {
    if chunks == [] then [] else RunLogs(dep, chunks[..|chunks| - 1]) + ChunkLogs(dep, chunks[|chunks| - 1])
  }

  /** Every log event of a run belongs to the dependency and carries one
      non-empty line without a line feed; a run logs nothing else. */
  predicate CleanLogs(dep: string, events: seq<Emitted>) {
    forall i :: 0 <= i < |events| ==>
      events[i].InstallLog? && events[i].dep == dep && events[i].line != "" && '\n' !in events[i].line
  }

  lemma {:induction false} RunLogsClean(dep: string, chunks: seq<string>)
    ensures CleanLogs(dep, RunLogs(dep, chunks))
    decreases |chunks|
  {
    if chunks != [] {
      RunLogsClean(dep, chunks[..|chunks| - 1]);
      var lines := ShellOutput.OutputLines(chunks[|chunks| - 1]);
      assert CleanLogs(dep, LogsOf(dep, lines));
    }
  }

  /** A chunk of complete, non-empty lines is logged line for line. */
  lemma {:induction false} ChunkOfLinesLogged(dep: string, lines: seq<string>)
    requires |lines| >= 1
    requires forall i :: 0 <= i < |lines| ==> lines[i] != "" && '\n' !in lines[i]
    ensures ChunkLogs(dep, Join(lines, '\n')) == LogsOf(dep, lines)
    ensures ChunkLogs(dep, Join(lines, '\n') + "\n") == LogsOf(dep, lines)
  {
    ShellOutput.OutputLinesOfJoinedLines(lines);
    ShellOutput.OutputLinesOfTerminatedLines(lines);
  }

  /** A `data` handler: one `install_log` per non-empty piece of the chunk. */
  method OnData(events: seq<Emitted>, dep: string, chunk: string) returns (out: seq<Emitted>)
    ensures out == events + ChunkLogs(dep, chunk)
  {
    var lines := ShellOutput.OutputLines(chunk);
    out := events;
    for i := 0 to |lines|
      invariant out == events + LogsOf(dep, lines[..i])
    {
      out := out + [InstallLog(dep, lines[i])];
    }
    assert lines[..|lines|] == lines;
  }

  lemma {:induction false} RunLogsSnoc(dep: string, chunks: seq<string>, chunk: string)
    ensures RunLogs(dep, chunks + [chunk]) == RunLogs(dep, chunks) + ChunkLogs(dep, chunk)
  {
    assert (chunks + [chunk])[..|chunks|] == chunks;
  }

  /** All the `data` events of a spawned process. */
  method Stream(events: seq<Emitted>, dep: string, chunks: seq<string>) returns (out: seq<Emitted>)
    ensures out == events + RunLogs(dep, chunks)
  {
    out := events;
    for i := 0 to |chunks|
      invariant out == events + RunLogs(dep, chunks[..i])
    {
      var out' := OnData(out, dep, chunks[i]);
      StreamStep(events, dep, chunks, i, out, out');
      out := out';
    }
    assert chunks[..|chunks|] == chunks;
  }

  /** One chunk handled: the loop's invariant holds for one more chunk. */
  lemma {:induction false} StreamStep(events: seq<Emitted>, dep: string, chunks: seq<string>, i: nat,
                                      out: seq<Emitted>, out': seq<Emitted>)
    requires i < |chunks|
    requires out == events + RunLogs(dep, chunks[..i])
    requires out' == out + ChunkLogs(dep, chunks[i])
    ensures out' == events + RunLogs(dep, chunks[..i + 1])
  {
    TakeSnoc(chunks, i);
    RunLogsSnoc(dep, chunks[..i], chunks[i]);
    AppendAssoc(events, RunLogs(dep, chunks[..i]), ChunkLogs(dep, chunks[i]));
  }

  // ---------------------------------------------------------------------------
  // Installing through a package manager

  /** What an installation leaves behind: the events it emitted and how its
      promise settled. */
  datatype Trial = Trial(events: seq<Emitted>, outcome: Result<()>)

  function ExitedMessage(pm: string, code: Option<int>): string {
    pm + " exited with code " + App.CodeText(code)
  }

  /** `tryInstall` of cli/bridge.ts:243-279: refuse a manager that is not on
      the PATH, else announce, stream the output, and settle on the exit code. */
  function Attempt(dep: string, info: PkgInfo, pm: string, found: string -> bool, run: Run): (r: Trial)
    ensures r.events == [] <==> !Spawns(info, found)
    ensures r.outcome.Ok? <==> Spawns(info, found) && run.code == Some(0)
    ensures !Spawns(info, found) ==> r.outcome == Err(NotInPathMessage(pm))
  {
    if !Spawns(info, found) then Trial([], Err(NotInPathMessage(pm)))
    else Trial([InstallStart(dep, info.desc, pm)] + RunLogs(dep, run.chunks),
               if run.code == Some(0) then Ok(()) else Err(ExitedMessage(pm, run.code)))
  }

  /** `tryInstall` step by step, appending to the events already emitted. */
  method TryInstall(events: seq<Emitted>, dep: string, info: PkgInfo, pm: string, found: string -> bool, run: Run)
    returns (out: seq<Emitted>, outcome: Result<()>)
    ensures out == events + Attempt(dep, info, pm, found, run).events
    ensures outcome == Attempt(dep, info, pm, found, run).outcome
  {
    var bp := found(info.bin);
    if !bp && info.bin != "sudo" {
      return events, Err(NotInPathMessage(pm));
    }
    out := events + [InstallStart(dep, info.desc, pm)];
    out := Stream(out, dep, run.chunks);
    AppendAssoc(events, [InstallStart(dep, info.desc, pm)], RunLogs(dep, run.chunks));
    if run.code == Some(0) {
      outcome := Ok(());
    } else {
      outcome := Err(ExitedMessage(pm, run.code));
    }
  }

  function FallbackNote(wingetError: string): string {
    "winget failed (" + wingetError + "), trying Chocolatey..."
  }

  const BothFailed := "winget and choco both failed"

  function BothFailedMessage(wingetError: string, chocoError: string): string {
    "winget failed (" + wingetError + "), choco failed (" + chocoError + ")"
  }

  /** The winget-then-choco path is taken on Windows when winget was chosen
      and choco is on the PATH as well. */
  predicate UsesFallback(p: Platform, pm: string, found: string -> bool) {
    p.Windows? && pm == "winget" && found("choco")
  }

  /** `install_done` after one attempt, and the settlement it passes on. */
  function Conclude(a: Trial, dep: string): Trial {
    if a.outcome.Ok? then Trial(a.events + [InstallDone(dep, true, None)], Ok(()))
    else Trial(a.events + [InstallDone(dep, false, Some(a.outcome.message))], a.outcome)
  }

  /** The fallback chain of cli/bridge.ts:282-307; `second` is the choco run. */
  function Fallback(dep: string, entry: PkgInfo, found: string -> bool, first: Run, second: Run): Trial {
    var w := Attempt(dep, entry, "winget", found, first);
    if w.outcome.Ok? then Trial(w.events + [InstallDone(dep, true, None)], Ok(()))
    else AfterWinget(dep, w.events + [InstallLog(dep, FallbackNote(w.outcome.message))], w.outcome.message,
                     found, second)
  }

  /** The `catch` of the winget attempt, once its note is logged. */
  function AfterWinget(dep: string, noted: seq<Emitted>, wingetError: string, found: string -> bool,
                       second: Run): Trial {
    match Get(CliCatalog.choco, dep)
    case None => Trial(noted + [InstallDone(dep, false, Some(wingetError))], Err(wingetError))
    case Some(chocoEntry) =>
      var c := Attempt(dep, chocoEntry, "choco", found, second);
      if c.outcome.Ok? then Trial(noted + c.events + [InstallDone(dep, true, None)], Ok(()))
      else Trial(noted + c.events + [InstallDone(dep, false, Some(BothFailed))],
                 Err(BothFailedMessage(wingetError, c.outcome.message)))
  }

  /** How `installDep` of cli/bridge.ts proceeds: HandBrakeCLI always by
      direct download, everything else through a package manager. */
  datatype Route = DirectDownload | Managed(trial: Trial)

  /** `installDep` of cli/bridge.ts; `second` is used only by the choco fallback. */
  function CliInstall(p: Platform, found: string -> bool, dep: string, first: Run, second: Run): Route {
    if dep == "HandBrakeCLI" then DirectDownload
    else
      var pm := PreferredManager(p, found);
      match Get(Table(CliCatalog, pm), dep)
      case None => Managed(Trial([], Err(NoEntryMessage(p, dep))))
      case Some(entry) =>
        if UsesFallback(p, pm, found) then Managed(Fallback(dep, entry, found, first, second))
        else Managed(Conclude(Attempt(dep, entry, pm, found, first), dep))
  }

  /** The CLI's `installDep` step by step. */
  method CliInstallDep(p: Platform, found: string -> bool, dep: string, first: Run, second: Run)
    returns (route: Route)
    ensures route == CliInstall(p, found, dep, first, second)
  {
    if dep == "HandBrakeCLI" {
      return DirectDownload;
    }
    var entry, pmName := ChooseManager(p, found, CliCatalog, dep);
    CliInstallCases(p, found, dep, first, second);
    if entry.None? {
      return Managed(Trial([], Err(NoEntryMessage(p, dep))));
    }
    var trial;
    if p.Windows? && pmName == "winget" && found("choco") {
      trial := RunFallback(dep, entry.value, found, first, second);
    } else {
      var events, outcome := TryInstall([], dep, entry.value, pmName, found, first);
      ConcludeAfter(Attempt(dep, entry.value, pmName, found, first), dep, events, outcome);
      if outcome.Ok? {
        events := events + [InstallDone(dep, true, None)];
      } else {
        events := events + [InstallDone(dep, false, Some(outcome.message))];
      }
      trial := Trial(events, outcome);
    }
    route := Managed(trial);
  }

  /** `CliInstall` by the manager's catalog entry. */
  lemma {:induction false} CliInstallCases(p: Platform, found: string -> bool, dep: string, first: Run, second: Run)
    requires dep != "HandBrakeCLI"
    ensures var pm := PreferredManager(p, found); var entry := Get(Table(CliCatalog, pm), dep);
      CliInstall(p, found, dep, first, second) ==
        if entry.None? then Managed(Trial([], Err(NoEntryMessage(p, dep))))
        else if UsesFallback(p, pm, found) then Managed(Fallback(dep, entry.value, found, first, second))
        else Managed(Conclude(Attempt(dep, entry.value, pm, found, first), dep))
  {
  }

  /** `Conclude` of an attempt whose events were appended to none. */
  lemma {:induction false} ConcludeAfter(a: Trial, dep: string, events: seq<Emitted>, outcome: Result<()>)
    requires events == [] + a.events && outcome == a.outcome
    ensures outcome.Ok? ==> Conclude(a, dep) == Trial(events + [InstallDone(dep, true, None)], outcome)
    ensures !outcome.Ok? ==> Conclude(a, dep) == Trial(events + [InstallDone(dep, false, Some(outcome.message))], outcome)
  {
    assert events == a.events;
    if outcome.Ok? {
      assert outcome.value == ();
    }
  }

  /** The winget attempt, then on its failure the note and the choco attempt. */
  method RunFallback(dep: string, entry: PkgInfo, found: string -> bool, first: Run, second: Run)
    returns (trial: Trial)
    ensures trial == Fallback(dep, entry, found, first, second)
  {
    var events, outcome := TryInstall([], dep, entry, "winget", found, first);
    FallbackSteps(dep, entry, found, first, second, events, outcome);
    if outcome.Ok? {
      return Trial(events + [InstallDone(dep, true, None)], Ok(()));
    }
    events := events + [InstallLog(dep, FallbackNote(outcome.message))];
    trial := RunChoco(events, dep, outcome.message, found, second);
  }

  /** `Fallback` once the winget attempt is known. */
  lemma {:induction false} FallbackSteps(dep: string, entry: PkgInfo, found: string -> bool, first: Run, second: Run,
                                         events: seq<Emitted>, outcome: Result<()>)
    requires events == [] + Attempt(dep, entry, "winget", found, first).events
    requires outcome == Attempt(dep, entry, "winget", found, first).outcome
    ensures outcome.Ok? ==> Fallback(dep, entry, found, first, second) == Trial(events + [InstallDone(dep, true, None)], Ok(()))
    ensures !outcome.Ok? ==> (Fallback(dep, entry, found, first, second) ==
      AfterWinget(dep, events + [InstallLog(dep, FallbackNote(outcome.message))], outcome.message, found, second))
  {
    assert [] + Attempt(dep, entry, "winget", found, first).events == Attempt(dep, entry, "winget", found, first).events;
  }

  method RunChoco(events: seq<Emitted>, dep: string, wingetError: string, found: string -> bool, second: Run)
    returns (trial: Trial)
    ensures trial == AfterWinget(dep, events, wingetError, found, second)
  {
    var chocoEntry := Get(CliCatalog.choco, dep);
    if chocoEntry.None? {
      return Trial(events + [InstallDone(dep, false, Some(wingetError))], Err(wingetError));
    }
    var out, outcome := TryInstall(events, dep, chocoEntry.value, "choco", found, second);
    if outcome.Ok? {
      trial := Trial(out + [InstallDone(dep, true, None)], Ok(()));
    } else {
      trial := Trial(out + [InstallDone(dep, false, Some(BothFailed))],
                     Err(BothFailedMessage(wingetError, outcome.message)));
    }
  }

  /** `installDep` of src/bridge.ts: the same choice with HandBrakeCLI
      entries, one attempt, and different texts for the failed `install_done`
      and the rejection. */
  function SrcInstall(p: Platform, found: string -> bool, dep: string, run: Run): Trial {
    var pm := PreferredManager(p, found);
    match Get(Table(SrcCatalog, pm), dep)
    case None => Trial([], Err(NoEntryMessage(p, dep)))
    case Some(entry) =>
      if !Spawns(entry, found) then Trial([], Err(NotInPathMessage(pm)))
      else
        var streamed := [InstallStart(dep, entry.desc, pm)] + RunLogs(dep, run.chunks);
        if run.code == Some(0) then Trial(streamed + [InstallDone(dep, true, None)], Ok(()))
        else Trial(streamed + [InstallDone(dep, false, Some(ExitedMessage(pm, run.code)))],
                   Err(pm + " install failed with code " + App.CodeText(run.code)))
  }

  /** The desktop bridge's `installDep` step by step. */
  method SrcInstallDep(p: Platform, found: string -> bool, dep: string, run: Run)
    returns (events: seq<Emitted>, outcome: Result<()>)
    ensures Trial(events, outcome) == SrcInstall(p, found, dep, run)
  {
    var entry, pmName := ChooseManager(p, found, SrcCatalog, dep);
    if entry.None? {
      return [], Err(NoEntryMessage(p, dep));
    }
    var binPath := found(entry.value.bin);
    if !binPath && entry.value.bin != "sudo" {
      return [], Err(NotInPathMessage(pmName));
    }
    events := [InstallStart(dep, entry.value.desc, pmName)];
    events := Stream(events, dep, run.chunks);
    if run.code == Some(0) {
      events := events + [InstallDone(dep, true, None)];
      outcome := Ok(());
    } else {
      events := events + [InstallDone(dep, false, Some(ExitedMessage(pmName, run.code)))];
      outcome := Err(pmName + " install failed with code " + App.CodeText(run.code));
    }
  }

  // ---------------------------------------------------------------------------
  // Properties of the installation traces

  /** A trace that announces its end: exactly one `install_done`, as the
      last event, whose `success` is whether the promise resolved. */
  predicate EndsWithDone(t: Trial) {
    |t.events| >= 1 && Filter(t.events, IsInstallDone) == [t.events[|t.events| - 1]] &&
    t.events[|t.events| - 1].InstallDone? && t.events[|t.events| - 1].success == t.outcome.Ok?
  }

  lemma {:induction false} RunLogsNoDone(dep: string, chunks: seq<string>)
    ensures Filter(RunLogs(dep, chunks), IsInstallDone) == []
  {
    var logs := RunLogs(dep, chunks);
    RunLogsClean(dep, chunks);
    FilterAllOrNothing(logs, IsInstallDone);
  }

  /** The events of an attempt hold no `install_done`. */
  lemma {:induction false} AttemptNoDone(dep: string, info: PkgInfo, pm: string, found: string -> bool, run: Run)
    ensures Filter(Attempt(dep, info, pm, found, run).events, IsInstallDone) == []
  {
    if Spawns(info, found) {
      RunLogsNoDone(dep, run.chunks);
      FilterAppend([InstallStart(dep, info.desc, pm)], RunLogs(dep, run.chunks), IsInstallDone);
    }
  }

  lemma {:induction false} DoneAppended(events: seq<Emitted>, done: Emitted)
    requires Filter(events, IsInstallDone) == [] && done.InstallDone?
    ensures Filter(events + [done], IsInstallDone) == [done]
  {
    FilterAppend(events, [done], IsInstallDone);
  }

  /** Once the CLI has found a package entry, its trace ends with exactly
      one `install_done` that tells whether the installation succeeded; a
      missing entry rejects without emitting anything. */
  lemma {:induction false} CliInstallEnds(p: Platform, found: string -> bool, dep: string, first: Run, second: Run)
    requires dep != "HandBrakeCLI"
    ensures var r := CliInstall(p, found, dep, first, second);
      r.Managed? &&
      (Get(Table(CliCatalog, PreferredManager(p, found)), dep).None? ==>
         r.trial == Trial([], Err(NoEntryMessage(p, dep)))) &&
      (Get(Table(CliCatalog, PreferredManager(p, found)), dep).Some? ==> EndsWithDone(r.trial))
  {
    var pm := PreferredManager(p, found);
    var e := Get(Table(CliCatalog, pm), dep);
    CliInstallCases(p, found, dep, first, second);
    if e.Some? {
      if UsesFallback(p, pm, found) {
        FallbackEnds(dep, e.value, found, first, second);
      } else {
        AttemptNoDone(dep, e.value, pm, found, first);
        ConcludeEnds(Attempt(dep, e.value, pm, found, first), dep);
      }
    }
  }

  /** A concluded attempt ends with its one `install_done`. */
  lemma {:induction false} ConcludeEnds(a: Trial, dep: string)
    requires Filter(a.events, IsInstallDone) == []
    ensures EndsWithDone(Conclude(a, dep))
  {
    DoneAppended(a.events, Conclude(a, dep).events[|a.events|]);
  }

  lemma {:induction false} FallbackEnds(dep: string, entry: PkgInfo, found: string -> bool, first: Run, second: Run)
    ensures EndsWithDone(Fallback(dep, entry, found, first, second))
  {
    var w := Attempt(dep, entry, "winget", found, first);
    AttemptNoDone(dep, entry, "winget", found, first);
    if w.outcome.Ok? {
      DoneAppended(w.events, InstallDone(dep, true, None));
    } else {
      var note := [InstallLog(dep, FallbackNote(w.outcome.message))];
      FilterAppend(w.events, note, IsInstallDone);
      AfterWingetEnds(dep, w.events + note, w.outcome.message, found, second);
    }
  }

  lemma {:induction false} AfterWingetEnds(dep: string, noted: seq<Emitted>, wingetError: string, found: string -> bool, second: Run)
    requires Filter(noted, IsInstallDone) == []
    ensures EndsWithDone(AfterWinget(dep, noted, wingetError, found, second))
  {
    match Get(CliCatalog.choco, dep)
    case None =>
      DoneAppended(noted, InstallDone(dep, false, Some(wingetError)));
    case Some(chocoEntry) =>
      var c := Attempt(dep, chocoEntry, "choco", found, second);
      AttemptNoDone(dep, chocoEntry, "choco", found, second);
      FilterAppend(noted, c.events, IsInstallDone);
      var done := if c.outcome.Ok? then InstallDone(dep, true, None) else InstallDone(dep, false, Some(BothFailed));
      DoneAppended(noted + c.events, done);
  }

  /** In the fallback chain choco runs only after winget failed, and the
      installation fails only when both did: a failed `install_done` is
      emitted only after two failed attempts. */
  lemma {:induction false} FallbackOrder(dep: string, entry: PkgInfo, found: string -> bool, first: Run, second: Run)
    requires dep in CliCatalog.choco
    ensures var w := Attempt(dep, entry, "winget", found, first);
      var c := Attempt(dep, CliCatalog.choco[dep], "choco", found, second);
      var t := Fallback(dep, entry, found, first, second);
      (w.outcome.Ok? ==> t == Trial(w.events + [InstallDone(dep, true, None)], Ok(()))) &&
      (t.outcome.Err? <==> w.outcome.Err? && c.outcome.Err?) &&
      (t.outcome.Err? ==> t.events[|t.events| - 1] == InstallDone(dep, false, Some(BothFailed)))
  {
  }

  /** On the CLI the choco entry is always there when winget's is, so the
      `!chocoEntry` branch never runs. */
  lemma {:induction false} ChocoEntryFollowsWinget(dep: string)
    ensures dep in CliCatalog.winget ==> dep in CliCatalog.choco
  {
  }

  /** HandBrakeCLI never goes to a package manager in the CLI. */
  lemma {:induction false} CliHandBrakeDirect(p: Platform, found: string -> bool, first: Run, second: Run)
    ensures CliInstall(p, found, "HandBrakeCLI", first, second) == DirectDownload
    ensures forall pm :: "HandBrakeCLI" !in Table(CliCatalog, pm)
  {
  }

  /** The desktop bridge rejects before spawning when there is no entry or
      the manager is not on the PATH; otherwise its trace ends with one
      `install_done`, and exit code 0 is the only success. */
  lemma {:induction false} SrcInstallOutcome(p: Platform, found: string -> bool, dep: string, run: Run)
    ensures var pm := PreferredManager(p, found);
      var e := Get(Table(SrcCatalog, pm), dep);
      var t := SrcInstall(p, found, dep, run);
      (t.events == [] <==> e.None? || !Spawns(e.value, found)) &&
      (t.events != [] ==> EndsWithDone(t) && t.events[0] == InstallStart(dep, e.value.desc, pm)) &&
      (t.outcome.Ok? <==> e.Some? && Spawns(e.value, found) && run.code == Some(0))
  {
    var e := Get(Table(SrcCatalog, PreferredManager(p, found)), dep);
    if e.Some? && Spawns(e.value, found) {
      SrcInstallSpawned(p, found, dep, run, e.value);
    } else {
      SrcInstallRejected(p, found, dep, run);
    }
  }

  /** Without an entry, or with its binary missing, nothing is emitted and
      the install fails. */
  lemma {:induction false} SrcInstallRejected(p: Platform, found: string -> bool, dep: string, run: Run)
    requires var e := Get(Table(SrcCatalog, PreferredManager(p, found)), dep); e.None? || !Spawns(e.value, found)
    ensures var t := SrcInstall(p, found, dep, run); t.events == [] && !t.outcome.Ok?
  {
  }

  /** With a spawnable entry the trace starts with `install_start`, ends with
      its one `install_done`, and succeeds exactly on exit code 0. */
  lemma {:induction false} SrcInstallSpawned(p: Platform, found: string -> bool, dep: string, run: Run, e: PkgInfo)
    requires Get(Table(SrcCatalog, PreferredManager(p, found)), dep) == Some(e) && Spawns(e, found)
    ensures var pm := PreferredManager(p, found); var t := SrcInstall(p, found, dep, run);
      t.events != [] && EndsWithDone(t) && t.events[0] == InstallStart(dep, e.desc, pm) &&
      (t.outcome.Ok? <==> run.code == Some(0))
  {
    var pm := PreferredManager(p, found);
    var streamed := [InstallStart(dep, e.desc, pm)] + RunLogs(dep, run.chunks);
    AttemptNoDone(dep, e, pm, found, run);
    assert Attempt(dep, e, pm, found, run).events == streamed;
    var t := SrcInstall(p, found, dep, run);
    DoneAppended(streamed, t.events[|t.events| - 1]);
  }

  /** Away from Windows the two bridges install ffmpeg identically: same
      events, and the same success. */
  lemma {:induction false} BridgesAgreeOnFfmpeg(p: Platform, found: string -> bool, run: Run, second: Run)
    requires !p.Windows?
    ensures var t := SrcInstall(p, found, "ffmpeg", run); var r := CliInstall(p, found, "ffmpeg", run, second);
      r.Managed? && r.trial.events == t.events && r.trial.outcome.Ok? == t.outcome.Ok?
  {
    var pm := PreferredManager(p, found);
    if pm == "" {
      AgreeWithoutManager(p, found, "ffmpeg", run, second);
    } else {
      var e := FfmpegEntry(p, found);
      AgreeThroughEntry(p, found, run, second, e);
    }
  }

  /** With no manager on the PATH both bridges reject a package alike. */
  lemma {:induction false} AgreeWithoutManager(p: Platform, found: string -> bool, dep: string, run: Run, second: Run)
    requires PreferredManager(p, found) == "" && dep != "HandBrakeCLI"
    ensures var t := SrcInstall(p, found, dep, run); var r := CliInstall(p, found, dep, run, second);
      r.Managed? && r.trial.events == t.events && r.trial.outcome.Ok? == t.outcome.Ok?
  {
    NoTable(CliCatalog);
    NoTable(SrcCatalog);
  }

  /** No manager, no table. */
  lemma {:induction false} NoTable(c: Catalog)
    ensures Table(c, "") == map[]
  {
    assert "" != "brew" && "" != "winget" && "" != "choco" && "" != "apt";
  }

  /** The chosen manager's ffmpeg entry is the same in both catalogs, and
      spawnable. */
  lemma {:induction false} FfmpegEntry(p: Platform, found: string -> bool) returns (e: PkgInfo)
    requires PreferredManager(p, found) != ""
    ensures var pm := PreferredManager(p, found);
      Get(Table(CliCatalog, pm), "ffmpeg") == Some(e) && Get(Table(SrcCatalog, pm), "ffmpeg") == Some(e) &&
      Spawns(e, found)
  {
    var pm := PreferredManager(p, found);
    assert pm in Precedence(p);
    CatalogEntries(pm, "ffmpeg");
    e := Get(Table(SrcCatalog, pm), "ffmpeg").value;
  }

  /** Off Windows, a shared spawnable entry makes the CLI's single attempt
      and the desktop bridge's run agree. */
  lemma {:induction false} AgreeThroughEntry(p: Platform, found: string -> bool, run: Run, second: Run, e: PkgInfo)
    requires !p.Windows?
    requires var pm := PreferredManager(p, found);
      Get(Table(CliCatalog, pm), "ffmpeg") == Some(e) && Get(Table(SrcCatalog, pm), "ffmpeg") == Some(e) &&
      Spawns(e, found)
    ensures var t := SrcInstall(p, found, "ffmpeg", run); var r := CliInstall(p, found, "ffmpeg", run, second);
      r.Managed? && r.trial.events == t.events && r.trial.outcome.Ok? == t.outcome.Ok?
  {
    var pm := PreferredManager(p, found);
    CliInstallCases(p, found, "ffmpeg", run, second);
    assert !UsesFallback(p, pm, found);
    SrcInstallConcludes(p, found, "ffmpeg", run, e);
  }

  /** Once the desktop bridge has a spawnable entry, it emits what the CLI's
      single attempt emits and succeeds exactly when it does; only the error
      message differs. */
  lemma {:induction false} SrcInstallConcludes(p: Platform, found: string -> bool, dep: string, run: Run, e: PkgInfo)
    requires Get(Table(SrcCatalog, PreferredManager(p, found)), dep) == Some(e) && Spawns(e, found)
    ensures var t := SrcInstall(p, found, dep, run);
      var c := Conclude(Attempt(dep, e, PreferredManager(p, found), found, run), dep);
      c.events == t.events && c.outcome.Ok? == t.outcome.Ok?
  {
  }

  // ---------------------------------------------------------------------------
  // check-binaries (cli/bridge.ts:324-341, src/bridge.ts:186-201)

  /** Fills the `data` record: presence of each encoder, the package manager
      `installDep` would pick, and (CLI only) that HandBrakeCLI can always be
      installed. */
  method CheckBinaries(p: Platform, present: string -> bool, cli: bool) returns (data: map<string, App.BinaryValue>)
    ensures data.Keys == {"HandBrakeCLI", "ffmpeg", "pm"} + (if cli then {"canInstallHandBrakeCLI"} else {})
    ensures data["HandBrakeCLI"] == App.Flag(present("HandBrakeCLI"))
    ensures data["ffmpeg"] == App.Flag(present("ffmpeg"))
    ensures data["pm"] == App.PmName(PreferredManager(p, present))
    ensures cli ==> data["canInstallHandBrakeCLI"] == App.Flag(true)
    ensures App.Truthy(data, "pm") <==> exists i :: 0 <= i < |Precedence(p)| && present(Precedence(p)[i])
  {
    data := EncoderFlags(present);
    var pm := PmField(p, present);
    data := data["pm" := App.PmName(pm)];
    if cli {
      data := data["canInstallHandBrakeCLI" := App.Flag(true)];
    }
  }

  /** The loop over the two encoders of `check-binaries`: one presence flag each. */
  method EncoderFlags(present: string -> bool) returns (data: map<string, App.BinaryValue>)
    ensures data.Keys == {"HandBrakeCLI", "ffmpeg"}
    ensures data["HandBrakeCLI"] == App.Flag(present("HandBrakeCLI"))
    ensures data["ffmpeg"] == App.Flag(present("ffmpeg"))
  {
    data := map[];
    var bins := ["HandBrakeCLI", "ffmpeg"];
    for i := 0 to |bins|
      invariant data.Keys == set j | 0 <= j < i :: bins[j]
      invariant forall j :: 0 <= j < i ==> data[bins[j]] == App.Flag(present(bins[j]))
    {
      data := data[bins[i] := App.Flag(present(bins[i]))];
    }
    assert bins[0] in data.Keys && bins[1] in data.Keys;
  }

  /** The `pm` if-chain of `check-binaries`. */
  method PmField(p: Platform, present: string -> bool) returns (pm: string)
    ensures pm == PreferredManager(p, present)
    ensures pm != "" <==> exists i :: 0 <= i < |Precedence(p)| && present(Precedence(p)[i])
  {
    if p == CliEngine.Windows {
      pm := if present("winget") then "winget" else if present("choco") then "choco" else "";
    } else if p == CliEngine.MacOS {
      pm := if present("brew") then "brew" else "";
    } else {
      pm := if present("brew") then "brew" else if present("apt") then "apt" else "";
    }
  }

  /** `check-binaries` reports the manager `installDep` uses whenever the two
      oracles agree on the platform's managers. */
  lemma {:induction false} FirstFoundAgrees(candidates: seq<string>, a: string -> bool, b: string -> bool)
    requires forall i :: 0 <= i < |candidates| ==> a(candidates[i]) == b(candidates[i])
    ensures FirstFound(candidates, a) == FirstFound(candidates, b)
    decreases |candidates|
  {
    if candidates != [] && !a(candidates[0]) {
      FirstFoundAgrees(candidates[1..], a, b);
    }
  }

  lemma {:induction false} PmFieldMatchesInstaller(p: Platform, present: string -> bool, found: string -> bool)
    requires forall m :: m in Precedence(p) ==> present(m) == found(m)
    ensures PreferredManager(p, present) == PreferredManager(p, found)
  {
    FirstFoundAgrees(Precedence(p), present, found);
  }

  /** An empty `pm` field means the desktop installer rejects at once. */
  lemma {:induction false} EmptyPmRejects(p: Platform, found: string -> bool, dep: string, run: Run)
    requires PreferredManager(p, found) == ""
    ensures SrcInstall(p, found, dep, run) == Trial([], Err(NoEntryMessage(p, dep)))
  {
  }

  // ---------------------------------------------------------------------------
  // The HandBrakeCLI release asset (cli/bridge.ts:93-108)

  /** `.` in a JavaScript regular expression matches anything but these. */
  predicate IsLineTerminator(c: char) {
    c == '\n' || c == '\r' || c == '\U{2028}' || c == '\U{2029}'
  }

  /** `s` matches `.*L1.*L2 … .*Ln$` from its start, for `lits = [L1, …, Ln]`. */
  predicate Follows(s: string, lits: seq<string>)
    decreases |s|, |lits|
  {
    if lits == [] then s == ""
    else (lits[0] <= s && Follows(s[|lits[0]|..], lits[1..])) ||
         (s != "" && !IsLineTerminator(s[0]) && Follows(s[1..], lits))
  }

  /** `/L0.*L1 … .*Ln$/.test(s)`: some position starts `L0` and the rest follows. */
  predicate Search(s: string, lits: seq<string>)
    requires |lits| >= 1
    decreases |s|
  {
    (lits[0] <= s && Follows(s[|lits[0]|..], lits[1..])) || (s != "" && Search(s[1..], lits))
  }

  /** The patterns of the two platforms, lower-cased: the `i` flag compares
      letters without case, and no non-ASCII character matches an ASCII
      letter under it. */
  const WindowsAsset: seq<string> := ["handbrakecli", "win", "x86_64.zip"]
  const MacAsset: seq<string> := ["handbrakecli", "mac", ".zip"]

  predicate MatchesAsset(lits: seq<string>, name: string)
    requires |lits| >= 1
  {
    Search(ToLower(name), lits)
  }

  predicate NoLineTerminator(s: string) {
    forall i :: 0 <= i < |s| ==> !IsLineTerminator(s[i])
  }

  lemma {:induction false} FollowsAfterGap(gap: string, lits: seq<string>, rest: string)
    requires |lits| >= 1 && NoLineTerminator(gap) && Follows(rest, lits[1..])
    ensures Follows(gap + lits[0] + rest, lits)
    decreases |gap|
  {
    var s := gap + lits[0] + rest;
    if gap == [] {
      assert s == lits[0] + rest;
      assert s[|lits[0]|..] == rest;
    } else {
      FollowsAfterGap(gap[1..], lits, rest);
      assert s[1..] == gap[1..] + lits[0] + rest;
    }
  }

  lemma {:induction false} SearchAfterPrefix(prefix: string, lits: seq<string>, rest: string)
    requires |lits| >= 1 && Follows(rest, lits[1..])
    ensures Search(prefix + lits[0] + rest, lits)
    decreases |prefix|
  {
    var s := prefix + lits[0] + rest;
    if prefix == [] {
      assert s == lits[0] + rest;
      assert s[|lits[0]|..] == rest;
    } else {
      SearchAfterPrefix(prefix[1..], lits, rest);
      assert s[1..] == prefix[1..] + lits[0] + rest;
    }
  }

  /** Any name of the shape `A L0 B L1 C L2` matches `/L0.*L1.*L2$/`, for
      gaps `B` and `C` without line terminators. */
  lemma {:induction false} ThreePartsMatch(a: string, b: string, c: string, lits: seq<string>)
    requires |lits| == 3 && NoLineTerminator(b) && NoLineTerminator(c)
    ensures Search(a + lits[0] + (b + lits[1] + (c + lits[2])), lits)
  {
    assert lits[1..][1..][1..] == [];
    assert Follows("", lits[1..][1..][1..]);
    assert lits[1..][1..][0] == lits[2];
    FollowsAfterGap(c, lits[1..][1..], "");
    assert c + lits[2] + "" == c + lits[2];
    FollowsAfterGap(b, lits[1..], c + lits[2]);
    SearchAfterPrefix(a, lits, b + lits[1] + (c + lits[2]));
  }

  lemma {:induction false} FollowsEndsWithLast(s: string, lits: seq<string>)
    requires |lits| >= 1 && Follows(s, lits)
    ensures |lits[|lits| - 1]| <= |s| && s[|s| - |lits[|lits| - 1]|..] == lits[|lits| - 1]
    decreases |s|, |lits|
  {
    var last := lits[|lits| - 1];
    if lits[0] <= s && Follows(s[|lits[0]|..], lits[1..]) {
      if |lits| == 1 {
        assert s[|lits[0]|..] == "";
        assert s == lits[0];
      } else {
        FollowsEndsWithLast(s[|lits[0]|..], lits[1..]);
        assert s[|lits[0]|..][|s| - |lits[0]| - |last|..] == s[|s| - |last|..];
      }
    } else {
      FollowsEndsWithLast(s[1..], lits);
      assert s[1..][|s| - 1 - |last|..] == s[|s| - |last|..];
    }
  }

  lemma {:induction false} SearchEndsWithLast(s: string, lits: seq<string>)
    requires |lits| >= 1 && Search(s, lits)
    ensures |lits[|lits| - 1]| <= |s| && s[|s| - |lits[|lits| - 1]|..] == lits[|lits| - 1]
    decreases |s|
  {
    var last := lits[|lits| - 1];
    if lits[0] <= s && Follows(s[|lits[0]|..], lits[1..]) {
      if |lits| == 1 {
        assert s[|lits[0]|..] == "";
        assert s == lits[0];
      } else {
        FollowsEndsWithLast(s[|lits[0]|..], lits[1..]);
        assert s[|lits[0]|..][|s| - |lits[0]| - |last|..] == s[|s| - |last|..];
      }
    } else {
      SearchEndsWithLast(s[1..], lits);
      assert s[1..][|s| - 1 - |last|..] == s[|s| - |last|..];
    }
  }

  /** A Windows asset is an x86_64 zip: an ARM build is never picked. */
  lemma {:induction false} WindowsAssetIsX64(name: string)
    requires MatchesAsset(WindowsAsset, name)
    ensures var l := ToLower(name); |l| >= 10 && l[|l| - 10..] == "x86_64.zip"
  {
    SearchEndsWithLast(ToLower(name), WindowsAsset);
  }

  lemma {:induction false} WindowsArmSkipped(stem: string)
    ensures !MatchesAsset(WindowsAsset, stem + "-arm64.zip")
  {
    var l := ToLower(stem + "-arm64.zip");
    assert l[|l| - 10..][0] == LowerChar('-');
    if MatchesAsset(WindowsAsset, stem + "-arm64.zip") {
      WindowsAssetIsX64(stem + "-arm64.zip");
      assert false;
    }
  }

  /** The index of the first asset whose name matches, as `assets.find`. */
  function FindAsset(names: seq<string>, lits: seq<string>): (r: Option<nat>)
    requires |lits| >= 1
    ensures r.Some? ==> r.value < |names| && MatchesAsset(lits, names[r.value]) &&
                        forall j :: 0 <= j < r.value ==> !MatchesAsset(lits, names[j])
    ensures r.None? ==> forall j :: 0 <= j < |names| ==> !MatchesAsset(lits, names[j])
    decreases |names|
  {
    if names == [] then None
    else if MatchesAsset(lits, names[0]) then Some(0)
    else match FindAsset(names[1..], lits)
      case None => None
      case Some(k) => Some(k + 1)
  }

  const LinuxDownload := "HandBrakeCLI is not available as a direct download for Linux. Install via: flatpak install fr.handbrake.ghb"

  /** `names.join(", ")`. */
  function JoinNames(names: seq<string>): string {
    if names == [] then "" else if |names| == 1 then names[0] else names[0] + ", " + JoinNames(names[1..])
  }

  /** The asset `downloadHandBrakeCLI` fetches, or the error it throws. */
  function ChooseAsset(p: Platform, names: seq<string>): (r: Result<string>)
    ensures p.OtherOS? ==> r == Err(LinuxDownload)
    ensures r.Ok? ==> var lits := if p.Windows? then WindowsAsset else MacAsset;
      exists i :: 0 <= i < |names| && names[i] == r.value && MatchesAsset(lits, names[i]) &&
                  forall j :: 0 <= j < i ==> !MatchesAsset(lits, names[j])
    ensures !p.OtherOS? && r.Err? ==> r.message == "Could not find HandBrakeCLI download for this platform. Available: " + JoinNames(names)
  {
    match p
    case OtherOS => Err(LinuxDownload)
    case _ =>
      var lits := if p.Windows? then WindowsAsset else MacAsset;
      match FindAsset(names, lits)
      case Some(i) => Ok(names[i])
      case None => Err("Could not find HandBrakeCLI download for this platform. Available: " + JoinNames(names))
  }

  // ---------------------------------------------------------------------------
  // Command dispatch (cli/bridge.ts:319-426, src/bridge.ts:180-285)

  datatype Command =
    | CheckBinariesCommand
    | GetPresetsCommand
    | CompressVideoCommand
    | CompressAudioCommand
    | InstallDepCommand(depName: string)

  const MissingDepName := "Missing dependency name. Usage: install-dep <HandBrakeCLI|ffmpeg>"

  /** `command`, printed as `${command}` (an absent one as "undefined"). */
  function CommandText(args: seq<string>): string {
    if args == [] then "undefined" else args[0]
  }

  /** The `switch (command)` with the `install-dep` name check: the command
      to run, or the message of the `error` event before `process.exit(1)`. */
  function ParseCommand(args: seq<string>): (r: Result<Command>)
    ensures r.Err? <==> args == [] || args[0] !in {"check-binaries", "get-presets", "compress-video", "compress-audio", "install-dep"} ||
                        (args[0] == "install-dep" && (|args| < 2 || args[1] == ""))
    ensures r.Err? && args != [] && args[0] == "install-dep" ==> r.message == MissingDepName
    ensures r.Err? && (args == [] || args[0] != "install-dep") ==> r.message == "Unknown command: " + CommandText(args)
    ensures r.Ok? && r.value.InstallDepCommand? ==> |args| >= 2 && args[1] == r.value.depName && args[1] != ""
  {
    var command := CommandText(args);
    if command == "check-binaries" && args != [] then Ok(CheckBinariesCommand)
    else if command == "get-presets" && args != [] then Ok(GetPresetsCommand)
    else if command == "compress-video" && args != [] then Ok(CompressVideoCommand)
    else if command == "compress-audio" && args != [] then Ok(CompressAudioCommand)
    else if command == "install-dep" && args != [] then
      if |args| < 2 || args[1] == "" then Err(MissingDepName) else Ok(InstallDepCommand(args[1]))
    else Err("Unknown command: " + command)
  }

  /** What the process leaves: its events and its exit code. */
  datatype Exit = Exit(events: seq<Emitted>, code: int)

  /** The `try`/`catch` around a command: a failure adds an `error` event and exits 1. */
  function Finish(events: seq<Emitted>, outcome: Result<()>): (r: Exit)
    ensures r.code == 0 <==> outcome.Ok?
    ensures outcome.Ok? ==> r.events == events
    ensures outcome.Err? ==> r.events == events + [Error(outcome.message)] && r.code == 1
  {
    match outcome
    case Ok(_) => Exit(events, 0)
    case Err(m) => Exit(events + [Error(m)], 1)
  }

  /** The install-dep command of the desktop bridge: the process exits 0
      exactly when the package manager exited 0. */
  lemma {:induction false} SrcInstallExit(p: Platform, found: string -> bool, dep: string, run: Run)
    ensures var t := SrcInstall(p, found, dep, run);
      Finish(t.events, t.outcome).code == 0 <==>
        Get(Table(SrcCatalog, PreferredManager(p, found)), dep).Some? &&
        Spawns(Get(Table(SrcCatalog, PreferredManager(p, found)), dep).value, found) && run.code == Some(0)
  {
    SrcInstallOutcome(p, found, dep, run);
  }

  /** A bad command line emits one `error` event and nothing else, and exits 1. */
  lemma {:induction false} BadCommandLine(args: seq<string>)
    requires ParseCommand(args).Err?
    ensures Finish([], Err(ParseCommand(args).message)) == Exit([Error(ParseCommand(args).message)], 1)
  {
  }

  /** The events of `compress-video`: `progress` with `eta ?? ""`, and
      `file_done` with the result. */
  function EmitVideo(e: CliEngine.Event): (r: Emitted)
    ensures IsFileDone(r) <==> CliEngine.IsDone(e)
    ensures !IsDone(r)
  {
    match e
    case Progress(percent, fileName, eta) =>
      Progress(fileName, percent, Some(match eta case Some(t) => t case None => ""))
    case FileDone(result) => FileDone(result)
  }

  function VideoEmitted(evs: seq<CliEngine.Event>): (r: seq<Emitted>)
    ensures |r| == |evs|
    decreases |evs|
  {
    if evs == [] then [] else VideoEmitted(evs[..|evs| - 1]) + [EmitVideo(evs[|evs| - 1])]
  }

  lemma {:induction false} VideoEmittedSnoc(evs: seq<CliEngine.Event>, e: CliEngine.Event)
    ensures VideoEmitted(evs + [e]) == VideoEmitted(evs) + [EmitVideo(e)]
  {
    assert (evs + [e])[..|evs|] == evs;
  }

  /** A compress command: the engine's events, then `done` once it
      finishes, or the `error` event if it throws. */
  function Compress(fileEvents: seq<Emitted>, failure: Option<string>): Exit {
    match failure
    case None => Finish(fileEvents + [Done], Ok(()))
    case Some(m) => Finish(fileEvents, Err(m))
  }

  lemma {:induction false} VideoEmittedNoDone(evs: seq<CliEngine.Event>)
    ensures Filter(VideoEmitted(evs), IsDone) == []
    decreases |evs|
  {
    if evs != [] {
      var n := |evs| - 1;
      VideoEmittedNoDone(evs[..n]);
      FilterAppend(VideoEmitted(evs[..n]), [EmitVideo(evs[n])], IsDone);
    }
  }

  /** `file_done` events are the engine's completions, in the same order. */
  lemma {:induction false} VideoEmittedFileDones(evs: seq<CliEngine.Event>)
    ensures Filter(VideoEmitted(evs), IsFileDone) == VideoEmitted(Filter(evs, CliEngine.IsDone))
    decreases |evs|
  {
    if evs != [] {
      var n := |evs| - 1;
      var init, last := evs[..n], evs[n];
      assert evs == init + [last];
      VideoEmittedFileDones(init);
      FileDonesStep(init, last);
    }
  }

  /** One more engine event keeps the `file_done` events in step with the
      engine's completions. */
  lemma {:induction false} FileDonesStep(init: seq<CliEngine.Event>, last: CliEngine.Event)
    requires Filter(VideoEmitted(init), IsFileDone) == VideoEmitted(Filter(init, CliEngine.IsDone))
    ensures Filter(VideoEmitted(init + [last]), IsFileDone) == VideoEmitted(Filter(init + [last], CliEngine.IsDone))
  {
    VideoEmittedSnoc(init, last);
    FilterAppend(VideoEmitted(init), [EmitVideo(last)], IsFileDone);
    FilterAppend(init, [last], CliEngine.IsDone);
    var done := Filter(init, CliEngine.IsDone);
    if CliEngine.IsDone(last) {
      assert Filter([last], CliEngine.IsDone) == [last];
      assert Filter([EmitVideo(last)], IsFileDone) == [EmitVideo(last)];
      VideoEmittedSnoc(done, last);
    } else {
      assert Filter([last], CliEngine.IsDone) == [];
      assert Filter([EmitVideo(last)], IsFileDone) == [];
      assert done + [] == done;
      assert Filter(VideoEmitted(init), IsFileDone) + [] == Filter(VideoEmitted(init), IsFileDone);
    }
  }

  /** `compress-video` of cli/bridge.ts: the engine's events, then `done` if
      the batch completes, or the `error` event of the rejection that ended
      it. */
  function CompressVideoExit(files: seq<CliEngine.File>, preset: string, output: seq<seq<string>>,
                                sizeMB: CliEngine.SizeProbe): Exit
    requires |output| == |files|
  {
    var b := CliEngine.VideoBatch(files, preset, output, sizeMB);
    Compress(VideoEmitted(b.0), if b.1.Rejected? then Some(b.1.message) else None)
  }

  /** `compress-video` exits 0 exactly when every input and every output is
      found; it then emits one `file_done` per file in input order, and a
      single `done` as the last event. */
  lemma {:induction false} CompressVideoReports(files: seq<CliEngine.File>, preset: string, output: seq<seq<string>>,
                             sizeMB: CliEngine.SizeProbe)
    requires |output| == |files|
    ensures var r := CompressVideoExit(files, preset, output, sizeMB);
      (r.code == 0 <==> CliEngine.AllSizesFound(files, preset, sizeMB)) &&
      (CliEngine.AllSizesFound(files, preset, sizeMB) ==>
        r.events[|r.events| - 1] == Done &&
        Filter(r.events, IsDone) == [Done] &&
        Filter(r.events, IsFileDone) == VideoEmitted(CliEngine.Completions(files, preset, sizeMB)))
  {
    var evs := CliEngine.VideoBatch(files, preset, output, sizeMB).0;
    CliEngine.VideoDoneOncePerFile(files, preset, output, sizeMB);
    VideoEmittedFileDones(evs);
    VideoEmittedNoDone(evs);
    FilterAppend(VideoEmitted(evs), [Done], IsDone);
    FilterAppend(VideoEmitted(evs), [Done], IsFileDone);
    assert Filter([Done], IsFileDone) == [];
  }

  /** When the `k`-th file is the first whose input or output is missing,
      `compress-video` reports the files before it, emits no `done`, ends with
      `File not found: <path>` and exits 1. */
  lemma {:induction false} CompressVideoMissingFile(files: seq<CliEngine.File>, preset: string,
                                                    output: seq<seq<string>>, sizeMB: CliEngine.SizeProbe, k: nat)
    requires |output| == |files| && k < |files|
    requires CliEngine.AllSizesFound(files[..k], preset, sizeMB) && !CliEngine.SizesFound(files[k], preset, sizeMB)
    ensures var r := CompressVideoExit(files, preset, output, sizeMB);
      r.code == 1 &&
      r.events[|r.events| - 1] == Error(CliEngine.NotFound(CliEngine.MissingPath(files[k], preset, sizeMB))) &&
      Filter(r.events, IsDone) == [] &&
      Filter(r.events, IsFileDone) == VideoEmitted(CliEngine.Completions(files[..k], preset, sizeMB))
  {
    var evs := CliEngine.VideoBatch(files, preset, output, sizeMB).0;
    var message := CliEngine.NotFound(CliEngine.MissingPath(files[k], preset, sizeMB));
    CliEngine.VideoStopsAtMissing(files, preset, output, sizeMB, k);
    VideoEmittedFileDones(evs);
    VideoEmittedNoDone(evs);
    CompressFailure(VideoEmitted(evs), message);
    FilterAppend(VideoEmitted(evs), [Error(message)], IsFileDone);
    assert Filter([Error(message)], IsFileDone) == [];
  }

  /** A compress command that throws emits no `done`, ends with the error,
      and exits 1. */
  lemma {:induction false} CompressFailure(fileEvents: seq<Emitted>, message: string)
    requires Filter(fileEvents, IsDone) == []
    ensures var r := Compress(fileEvents, Some(message));
      r.code == 1 && r.events[|r.events| - 1] == Error(message) && Filter(r.events, IsDone) == []
  {
    FilterAppend(fileEvents, [Error(message)], IsDone);
  }
}
