/** The missing-binary validators of cli/check.ts and src/check.ts: a table of
    required programs per operation, a loop collecting the ones not found, and
    a report followed by `process.exit(1)` when any is missing. Whether a
    program is found is an oracle (`findBinaryPath` in the CLI, the lines
    `which` prints in the desktop app). */
module BinaryCheck {
  import opened Wrappers
  import opened Seqs

  datatype Binary = Binary(name: string, purpose: string, howTo: string)

  datatype Operation = AudioCompress | VideoCompress | General

  const CliGum := Binary("gum", "Gum is a CLI tool to interact with the terminal.",
    "Install gum from: https://github.com/charmbracelet/gum")
  const HandBrake := Binary("HandBrakeCLI", "HandBrake Command Line Version to encode videos.",
    "Download HandBrake Command Line Version from: https://handbrake.fr/downloads.php")
  const CliFfmpeg := Binary("ffmpeg", "FFmpeg to encode audio files.",
    "See github: https://github.com/FFmpeg/FFmpeg and find installation instructions for your OS.")

  /** `mappedByOp` of cli/check.ts. */
  function CliRequired(op: Operation): (r: seq<Binary>)
    ensures |r| >= 1 && r[0].name == "gum"
    ensures op == VideoCompress ==> r == [CliGum, HandBrake]
    ensures op == AudioCompress ==> r == [CliGum, CliFfmpeg]
    ensures op == General ==> r == [CliGum]
  {
    match op
    case VideoCompress => [CliGum, HandBrake]
    case AudioCompress => [CliGum, CliFfmpeg]
    case General => [CliGum]
  }

  const SrcGum := Binary("gum", "To convert audio files to mp3.",
    "Install gum from: https://github.com/charmbracelet/gum")
  const SrcSplit := Binary("split", "To split files.",
    "Search google and install split for your OS.")

  /** `mappedByOp` of src/check.ts, which has no entry for `General`: looking
      it up gives `undefined`, and iterating that throws. */
  function SrcRequired(op: Operation): (r: Option<seq<Binary>>)
    ensures r.None? <==> op == General
    ensures op == VideoCompress ==> r == Some([SrcGum, HandBrake])
    ensures op == AudioCompress ==> r == Some([SrcGum, CliFfmpeg, SrcSplit])
  {
    match op
    case VideoCompress => Some([SrcGum, HandBrake])
    case AudioCompress => Some([SrcGum, CliFfmpeg, SrcSplit])
    case General => None
  }

  /** The selection test of the loop: the binary was not found. */
  function NotFound(found: string -> bool): Binary -> bool {
    (b: Binary) => !found(b.name)
  }

  predicate NonEmpty(l: string) {
    l != ""
  }

  /** The required binaries that were not found, in requirement order. */
  function Missing(binaries: seq<Binary>, found: string -> bool): (r: seq<Binary>)
    ensures forall b :: b in r <==> b in binaries && !found(b.name)
    ensures IsSubsequence(r, binaries)
  {
    FilterIsSubsequence(binaries, NotFound(found));
    Filter(binaries, NotFound(found))
  }

  const Header := "The following binaries are required to run this program:\n  ----------"

  /** Two lines per missing binary: `- name: purpose`, then how to get it. */
  function Entries(missing: seq<Binary>): (r: seq<string>)
    ensures |r| == 2 * |missing|
    ensures forall i :: 0 <= i < |missing| ==>
      r[2 * i] == "- " + missing[i].name + ": " + missing[i].purpose && r[2 * i + 1] == missing[i].howTo
  {
    if missing == [] then []
    else
      var rest := Entries(missing[1..]);
      var r := ["- " + missing[0].name + ": " + missing[0].purpose, missing[0].howTo] + rest;
      assert forall i :: 1 <= i < |missing| ==> r[2 * i] == rest[2 * (i - 1)] && r[2 * i + 1] == rest[2 * (i - 1) + 1];
      r
  }

  /** What reaches standard error: nothing when all are found, otherwise the
      header and each missing binary's entry. */
  function Report(missing: seq<Binary>): (r: seq<string>)
    ensures r == [] <==> missing == []
    ensures missing != [] ==> r[0] == Header && r[1..] == Entries(missing)
  {
    if missing == [] then [] else [Header] + Entries(missing)
  }

  /** `checkBinaries` (cli/check.ts) and `checkRequiredBinaries` (src/check.ts)
      for a given table and oracle: the missing list, the report, and the exit
      code when the process exits. */
  method CheckBinaries(binaries: seq<Binary>, found: string -> bool)
    returns (missing: seq<Binary>, report: seq<string>, exitCode: Option<int>)
    ensures missing == Missing(binaries, found)
    ensures report == Report(missing)
    ensures exitCode == if missing == [] then None else Some(1)
  {
    missing := [];
    for i := 0 to |binaries|
      invariant missing == Filter(binaries[..i], NotFound(found))
    {
      FilterStep(binaries, i, NotFound(found));
      var binary := binaries[i];
      var isFound := found(binary.name);
      if !isFound {
        missing := missing + [binary];
      }
    }
    assert binaries[..|binaries|] == binaries;
    report := [];
    exitCode := None;
    if |missing| > 0 {
      report := [Header];
      for j := 0 to |missing|
        invariant report == [Header] + Entries(missing[..j])
      {
        var entry := ["- " + missing[j].name + ": " + missing[j].purpose, missing[j].howTo];
        TakeSnoc(missing, j);
        EntriesSnoc(missing[..j], missing[j]);
        AppendAssoc([Header], Entries(missing[..j]), entry);
        report := report + entry;
      }
      assert missing[..|missing|] == missing;
      exitCode := Some(1);
    }
  }

  lemma {:induction false} EntriesSnoc(ms: seq<Binary>, b: Binary)
    ensures Entries(ms + [b]) == Entries(ms) + ["- " + b.name + ": " + b.purpose, b.howTo]
    decreases |ms|
  {
    if ms == [] {
      assert [] + [b] == [b];
    } else {
      assert (ms + [b])[1..] == ms[1..] + [b];
      EntriesSnoc(ms[1..], b);
    }
  }

  /** The process exits with code 1 exactly when some required binary is not
      found, and is silent and keeps running when every one is found. */
  lemma {:induction false} ExitIffSomeMissing(binaries: seq<Binary>, found: string -> bool)
    ensures Missing(binaries, found) != [] <==> exists i :: 0 <= i < |binaries| && !found(binaries[i].name)
    ensures (forall i :: 0 <= i < |binaries| ==> found(binaries[i].name)) ==>
      Report(Missing(binaries, found)) == []
  {
    var m := Missing(binaries, found);
    if exists i :: 0 <= i < |binaries| && !found(binaries[i].name) {
      var i :| 0 <= i < |binaries| && !found(binaries[i].name);
      assert binaries[i] in m;
    }
    if m != [] {
      assert m[0] in m;
    }
  }

  /** The CLI requires HandBrakeCLI for video and ffmpeg for audio, and always gum. */
  lemma {:induction false} CliRequirementsChecked(found: string -> bool)
    ensures !found("HandBrakeCLI") ==> HandBrake in Missing(CliRequired(VideoCompress), found)
    ensures !found("ffmpeg") ==> CliFfmpeg in Missing(CliRequired(AudioCompress), found)
    ensures found("gum") ==> Missing(CliRequired(General), found) == []
  {
    assert CliRequired(VideoCompress)[1] == HandBrake;
    assert CliRequired(AudioCompress)[1] == CliFfmpeg;
    if found("gum") {
      ExitIffSomeMissing(CliRequired(General), found);
    }
  }

  // ---------------------------------------------------------------------------
  // Presence in the desktop app (src/check.ts:4-8)

  /** Collects the lines `which` reports, skipping empty ones (`l && lines.push(l)`). */
  method CollectWhichLines(reported: seq<string>) returns (lines: seq<string>)
    ensures lines == Filter(reported, NonEmpty)
  {
    lines := [];
    for i := 0 to |reported|
      invariant lines == Filter(reported[..i], NonEmpty)
    {
      FilterStep(reported, i, NonEmpty);
      var l := reported[i];
      if l != "" {
        lines := lines + [l];
      }
    }
    assert reported[..|reported|] == reported;
  }

  /** `checkIfBinaryExists` of src/check.ts: some reported line is non-empty. */
  predicate FoundByWhich(reported: seq<string>) {
    |Filter(reported, NonEmpty)| > 0
  }

  lemma {:induction false} FoundByWhichIff(reported: seq<string>)
    ensures FoundByWhich(reported) <==> exists i :: 0 <= i < |reported| && reported[i] != ""
  {
    FilterAllOrNothing(reported, NonEmpty);
  }
}
