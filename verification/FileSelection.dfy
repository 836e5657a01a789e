/** The file pickers of src/file-selection.ts: the extension filter over the
    working directory's listing, the `non_hardbraked` filter that hides the
    encoder's own outputs, and the emptiness checks of `selectFiles`. The
    directory listing, the prompts' answers, whether `xplr` is installed and
    what it prints are inputs. */
module FileSelection {
  import opened Wrappers
  import opened Seqs
  import opened Text
  import ShellOutput

  /** `fileName.split(".").pop()?.toLowerCase() || ""`: the lower-cased text
      after the last dot, or the whole name lower-cased when there is none. */
  function ExtensionOf(fileName: string): (r: string)
    ensures '.' !in fileName ==> r == ToLower(fileName)
  {
    ToLower(LastPiece(fileName, '.'))
  }

  /** A name `stem.tail` whose `tail` holds no dot has the extension `tail`,
      lower-cased, whatever dots the stem holds. */
  lemma {:induction false} ExtensionOfDotted(stem: string, tail: string)
    requires '.' !in tail
    ensures ExtensionOf(stem + "." + tail) == ToLower(tail)
  {
    LastPieceOf(stem, '.', tail);
  }

  /** `supportedExtensions.includes(ext)`. */
  function IsSupportedName(exts: seq<string>): string -> bool {
    (fileName: string) => ExtensionOf(fileName) in exts
  }

  const NoFilesFound := "No files found in the folder"

  /** `getSupportedFilesFromCurrentDir` over a given listing. */
  function SupportedFiles(fileNames: seq<string>, exts: seq<string>): (r: Result<seq<string>>)
    ensures r.Err? <==> forall i :: 0 <= i < |fileNames| ==> ExtensionOf(fileNames[i]) !in exts
    ensures r.Err? ==> r.message == NoFilesFound
    ensures r.Ok? ==> r.value != [] && IsSubsequence(r.value, fileNames) &&
                      forall x :: x in r.value <==> x in fileNames && ExtensionOf(x) in exts
  {
    var kept := Filter(fileNames, IsSupportedName(exts));
    FilterIsSubsequence(fileNames, IsSupportedName(exts));
    FilterAllOrNothing(fileNames, (fileName: string) => !IsSupportedName(exts)(fileName));
    FilterNone(fileNames, IsSupportedName(exts));
    if |kept| == 0 then Err(NoFilesFound) else Ok(kept)
  }

  /** A filter keeps nothing exactly when no element passes. */
  lemma {:induction false} FilterNone<T>(xs: seq<T>, p: T -> bool)
    ensures Filter(xs, p) == [] <==> forall i :: 0 <= i < |xs| ==> !p(xs[i])
  {
    FilterAllOrNothing(xs, p);
  }

  /** `possible.some((word) => path.toLowerCase().includes(word))`. */
  predicate Marked(fileName: string) {
    Contains(ToLower(fileName), "hardbraked") || Contains(ToLower(fileName), "handbraked")
  }

  function Unmarked(): string -> bool {
    (fileName: string) => !Marked(fileName)
  }

  const NoNonHardbraked := "No non-hardbraked files found"

  /** The listing step of the `non_hardbraked` picker: the supported names
      that carry neither marker, or the first error thrown. */
  function NonHardbrakedFiles(fileNames: seq<string>, exts: seq<string>): (r: Result<seq<string>>)
    ensures SupportedFiles(fileNames, exts).Err? ==> r == SupportedFiles(fileNames, exts)
    ensures SupportedFiles(fileNames, exts).Ok? && r.Err? ==> r.message == NoNonHardbraked
    ensures r.Ok? ==> r.value != [] && IsSubsequence(r.value, fileNames) &&
                      forall x :: x in r.value <==> x in fileNames && ExtensionOf(x) in exts && !Marked(x)
  {
    match SupportedFiles(fileNames, exts)
    case Err(m) => Err(m)
    case Ok(supported) =>
      var kept := Filter(supported, Unmarked());
      FilterIsSubsequence(supported, Unmarked());
      SubsequenceTrans(kept, supported, fileNames);
      if |kept| == 0 then Err(NoNonHardbraked) else Ok(kept)
  }

  /** A piece of a name shows up, lower-cased, in the lower-cased name. */
  lemma {:induction false} LowerContains(pre: string, mid: string, post: string)
    ensures Contains(ToLower(pre + mid + post), ToLower(mid))
  {
    var s := pre + mid + post;
    var l := ToLower(s);
    var m := ToLower(mid);
    assert forall i :: 0 <= i < |mid| ==> s[|pre| + i] == mid[i];
    assert l[|pre|..|pre| + |mid|] == m;
    ContainsAt(l, m, |pre|);
  }

  /** A name with a piece spelling either marker, in any letter case, is marked. */
  lemma {:induction false} MarkedByPiece(pre: string, mid: string, post: string)
    requires ToLower(mid) == "hardbraked" || ToLower(mid) == "handbraked"
    ensures Marked(pre + mid + post)
  {
    LowerContains(pre, mid, post);
  }

  /** The marker cli/engine.ts writes lower-cases to the one `non_hardbraked`
      looks for. */
  lemma {:induction false} LowerHardBraked()
    ensures ToLower("HardBraked") == "hardbraked"
  {
    var s, t := "HardBraked", "hardbraked";
    forall i | 0 <= i < |s|
      ensures LowerChar(s[i]) == t[i]
    {
    }
    LowerWord(s, t);
  }

  /** So does the one src/engine.ts writes. */
  lemma {:induction false} LowerHandBraked()
    ensures ToLower("HandBraked") == "handbraked"
  {
    var s, t := "HandBraked", "handbraked";
    forall i | 0 <= i < |s|
      ensures LowerChar(s[i]) == t[i]
    {
    }
    LowerWord(s, t);
  }

  /** The video output of cli/engine.ts (`<base>__HardBraked__<preset>.mp4`)
      is never offered again by `non_hardbraked`. */
  lemma {:induction false} CliOutputSkipped(base: string, preset: string)
    ensures Marked(base + "__HardBraked__" + preset + ".mp4")
  {
    var name := base + "__HardBraked__" + preset + ".mp4";
    var pre, post := base + "__", "__" + preset + ".mp4";
    assert name == pre + "HardBraked" + post;
    LowerHardBraked();
    MarkedByPiece(pre, "HardBraked", post);
  }

  /** Nor is the one of src/engine.ts (`<base>__HandBraked__<preset>.mp4`). */
  lemma {:induction false} SrcOutputSkipped(base: string, preset: string)
    ensures Marked(base + "__HandBraked__" + preset + ".mp4")
  {
    var name := base + "__HandBraked__" + preset + ".mp4";
    var pre, post := base + "__", "__" + preset + ".mp4";
    assert name == pre + "HandBraked" + post;
    LowerHandBraked();
    MarkedByPiece(pre, "HandBraked", post);
  }

  // ---------------------------------------------------------------------------
  // selectFiles (src/file-selection.ts:16-65)

  datatype Picker = Xplr | Nnn | Manual | NonHardbraked

  /** `pickerMap[name]`, None for a name the map does not hold. */
  function PickerNamed(name: string): Option<Picker> {
    if name == "xplr" then Some(Xplr)
    else if name == "nnn" then Some(Nnn)
    else if name == "manual" then Some(Manual)
    else if name == "non_hardbraked" then Some(NonHardbraked)
    else None
  }

  /** What the pickers see of the outside world: the working directory and
      its listing, whether `xplr` is installed and what it prints, and the
      names the user ticks in the `askFilter` prompt. */
  datatype Inputs = Inputs(cwd: string, listing: seq<string>, xplrInstalled: bool, xplrOutput: string,
                           ticked: seq<string>)

  const NoFilesSelected := "No files selected"

  /** How a picker or `selectFiles` ends: with the chosen paths, with an
      exception and its message, or with the process exiting (the prompts of
      src/prompts.ts call `process.exit(1)` on an answer they refuse). */
  datatype Outcome = Chosen(paths: seq<string>) | Thrown(message: string) | Exited(code: int)

  /** What the line that calls one of the `async` prompts of src/prompts.ts
      holds: the answer when the call is awaited, a Promise when it is not.
      Neither prompt awaits anything itself, so its whole body, a
      `process.exit` included, runs before the call returns. */
  datatype Prompted = Answer(lines: seq<string>) | Promise

  /** `askFilter(message, choices, { min })` as its caller sees it: None when
      fewer than `min` names are ticked, for the prompt then exits the
      process; otherwise the ticked names, or a Promise when the call is not
      awaited. */
  function AskFilter(ticked: seq<string>, min: nat, awaited: bool): Option<Prompted> {
    if |ticked| < min then None
    else if awaited then Some(Answer(ticked))
    else Some(Promise)
  }

  /** The TypeError of `selectedFiles.map` on a Promise. */
  const MapNotAFunction := "selectedFiles.map is not a function"

  /** The end of the `manual` and `non_hardbraked` pickers: the ticked names
      as paths in the working directory. `awaited` says whether the
      `askFilter` call is awaited; the code as written does not await it, and
      then `selectedFiles.length === 0` is false and `.map` is missing. An
      empty tick never reaches the "No files selected" check: the prompt
      exits first. */
  function Ticked(inp: Inputs, awaited: bool): (r: Outcome)
    ensures r.Exited? <==> inp.ticked == []
    ensures r.Exited? ==> r.code == 1
    ensures r != Thrown(NoFilesSelected)
    ensures !awaited && inp.ticked != [] ==> r == Thrown(MapNotAFunction)
    ensures awaited && inp.ticked != [] ==>
      r.Chosen? && |r.paths| == |inp.ticked| &&
      forall i :: 0 <= i < |inp.ticked| ==> r.paths[i] == JoinPath(inp.cwd, inp.ticked[i])
  {
    match AskFilter(inp.ticked, 1, awaited)
    case None => Exited(1)
    case Some(Promise) => Thrown(MapNotAFunction)
    case Some(Answer(selected)) =>
      if |selected| == 0 then Thrown(NoFilesSelected)
      else Chosen(seq(|selected|, i requires 0 <= i < |selected| => JoinPath(inp.cwd, selected[i])))
  }

  /** As written, ticking names in the `manual` or `non_hardbraked` picker
      throws where the awaited prompt would have returned their paths. */
  lemma {:induction false} TickedAsWrittenThrows(inp: Inputs)
    requires inp.ticked != []
    ensures Ticked(inp, false) == Thrown(MapNotAFunction)
    ensures Ticked(inp, true).Chosen? && |Ticked(inp, true).paths| == |inp.ticked|
  {
  }

  /** The listing error of a picker, or the ticked paths once it listed something. */
  function AfterListing(listed: Result<seq<string>>, inp: Inputs, awaited: bool): Outcome {
    match listed
    case Err(m) => Thrown(m)
    case Ok(_) => Ticked(inp, awaited)
  }

  /** `pickerMap[picker](supportedExtensions)`: the chosen paths, or how it ends otherwise. */
  function Pick(picker: Picker, exts: seq<string>, inp: Inputs, awaited: bool): (r: Outcome)
    ensures picker == Nnn ==> r == Thrown("Not implemented")
    ensures picker == Xplr ==> r == (if inp.xplrInstalled then Chosen(ShellOutput.OutputLines(inp.xplrOutput))
                                     else Thrown("xplr is not installed. Choose another file picker"))
    ensures picker == Manual && SupportedFiles(inp.listing, exts).Err? ==> r == Thrown(NoFilesFound)
    ensures picker == NonHardbraked && NonHardbrakedFiles(inp.listing, exts).Err? ==>
              r == Thrown(NonHardbrakedFiles(inp.listing, exts).message)
    ensures ((picker == Manual && SupportedFiles(inp.listing, exts).Ok?) ||
             (picker == NonHardbraked && NonHardbrakedFiles(inp.listing, exts).Ok?)) ==> r == Ticked(inp, awaited)
    ensures r.Exited? ==> inp.ticked == []
  {
    match picker
    case Xplr =>
      if !inp.xplrInstalled then Thrown("xplr is not installed. Choose another file picker")
      else Chosen(ShellOutput.OutputLines(inp.xplrOutput))
    case Nnn => Thrown("Not implemented")
    case Manual => AfterListing(SupportedFiles(inp.listing, exts), inp, awaited)
    case NonHardbraked => AfterListing(NonHardbrakedFiles(inp.listing, exts), inp, awaited)
  }

  const NoPickerSelected := "No file picker selected"

  /** `choice[0]` after `askChoose`: the first answer, or undefined when there
      is none or `choice` holds a Promise. */
  function FirstChoice(v: Prompted): Option<string> {
    match v
    case Promise => None
    case Answer(lines) => if lines == [] then None else Some(lines[0])
  }

  /** Lines 58-64 of `selectFiles` once the picker has run. */
  function AfterPick(picked: Outcome, isSupported: string -> bool): (r: Outcome)
    ensures !picked.Chosen? ==> r == picked
    ensures r.Chosen? ==> picked.Chosen? && r.paths != [] && IsSubsequence(r.paths, picked.paths) &&
                          forall i :: 0 <= i < |r.paths| ==> isSupported(r.paths[i])
  {
    match picked
    case Chosen(files) =>
      if |files| == 0 then Thrown(NoFilesSelected)
      else
        var kept := Filter(files, isSupported);
        FilterIsSubsequence(files, isSupported);
        assert forall i :: 0 <= i < |kept| ==> kept[i] in kept;
        if |kept| == 0 then Thrown("No supported files found") else Chosen(kept)
    case _ => picked
  }

  /** `selectFiles`: `choice` is what the user picks in `askChoose`, and
      `awaited` says whether the prompts' calls are awaited; the code as
      written awaits none of them. The first answer names the picker; its
      paths must be non-empty, and so must those `isSupported` keeps.
      `isSupported` is the `File` method the function calls. */
  function SelectFiles(choice: seq<string>, exts: seq<string>, inp: Inputs, isSupported: string -> bool,
                       awaited: bool): (r: Outcome)
    ensures !awaited ==> r == Thrown(NoPickerSelected)
    ensures choice == [] || choice[0] == "" ==> r == Thrown(NoPickerSelected)
    ensures r.Chosen? ==> r.paths != [] && forall i :: 0 <= i < |r.paths| ==> isSupported(r.paths[i])
    ensures r.Chosen? ==> awaited && PickerNamed(choice[0]).Some? && Pick(PickerNamed(choice[0]).value, exts, inp, awaited).Chosen? &&
                          IsSubsequence(r.paths, Pick(PickerNamed(choice[0]).value, exts, inp, awaited).paths)
  {
    var first := FirstChoice(if awaited then Answer(choice) else Promise);
    if first.None? || first.value == "" then Thrown(NoPickerSelected)
    else match PickerNamed(first.value)
      case None => Thrown("pickerMap[selectedFilePicker] is not a function")
      case Some(picker) =>
        AfterPick(Pick(picker, exts, inp, awaited), isSupported)
  }

  /** With the prompts awaited and a picker named, `selectFiles` is that
      picker followed by lines 58-64. */
  lemma {:induction false} SelectFilesAwaited(choice: seq<string>, exts: seq<string>, inp: Inputs,
                                              isSupported: string -> bool)
    requires choice != [] && PickerNamed(choice[0]).Some?
    ensures SelectFiles(choice, exts, inp, isSupported, true) ==
            AfterPick(Pick(PickerNamed(choice[0]).value, exts, inp, true), isSupported)
  {
    assert FirstChoice(Answer(choice)) == Some(choice[0]);
    assert choice[0] != "";
  }

  /** As written, `selectFiles` throws "No file picker selected" whatever the
      user picks, where the awaited code runs the picker named. */
  lemma {:induction false} SelectFilesAlwaysThrows(choice: seq<string>, exts: seq<string>, inp: Inputs,
                                                   isSupported: string -> bool)
    requires choice != [] && PickerNamed(choice[0]).Some?
    ensures SelectFiles(choice, exts, inp, isSupported, false) == Thrown(NoPickerSelected)
    ensures SelectFiles(choice, exts, inp, isSupported, true) != Thrown(NoPickerSelected)
  {
    var picked := Pick(PickerNamed(choice[0]).value, exts, inp, true);
    SelectFilesAwaited(choice, exts, inp, isSupported);
    PickNeverNoPicker(PickerNamed(choice[0]).value, exts, inp);
    AfterPickMessages(picked, isSupported);
  }

  /** Lines 58-64 throw only their own two messages, or pass the picker's on. */
  lemma {:induction false} AfterPickMessages(picked: Outcome, isSupported: string -> bool)
    ensures var r := AfterPick(picked, isSupported);
      r.Thrown? ==> r == picked || r.message == NoFilesSelected || r.message == "No supported files found"
  {
  }

  /** No picker throws the message of a missing choice. */
  lemma {:induction false} PickNeverNoPicker(picker: Picker, exts: seq<string>, inp: Inputs)
    ensures Pick(picker, exts, inp, true) != Thrown(NoPickerSelected)
  {
    match picker
    case Xplr =>
    case Nnn =>
    case Manual =>
      if SupportedFiles(inp.listing, exts).Err? {
        assert Pick(picker, exts, inp, true) == Thrown(NoFilesFound);
      }
    case NonHardbraked =>
      if SupportedFiles(inp.listing, exts).Err? {
        assert NonHardbrakedFiles(inp.listing, exts).message == NoFilesFound;
      } else if NonHardbrakedFiles(inp.listing, exts).Err? {
        assert NonHardbrakedFiles(inp.listing, exts).message == NoNonHardbraked;
      }
  }

  /** With the prompts awaited, `selectFiles` runs the picker chosen: it
      succeeds exactly when the picker returns paths of which `isSupported`
      keeps one, and a picker's exception or exit passes through. */
  lemma {:induction false} SelectFilesRunsPicker(choice: seq<string>, exts: seq<string>, inp: Inputs,
                                                 isSupported: string -> bool)
    requires choice != [] && PickerNamed(choice[0]).Some?
    ensures var r := SelectFiles(choice, exts, inp, isSupported, true);
      var picked := Pick(PickerNamed(choice[0]).value, exts, inp, true);
      (r.Chosen? <==> picked.Chosen? && exists i :: 0 <= i < |picked.paths| && isSupported(picked.paths[i])) &&
      (!picked.Chosen? ==> r == picked)
  {
    var picked := Pick(PickerNamed(choice[0]).value, exts, inp, true);
    SelectFilesAwaited(choice, exts, inp, isSupported);
    AfterPickSucceeds(picked, isSupported);
  }

  /** Lines 58-64 succeed exactly when some picked path is supported. */
  lemma {:induction false} AfterPickSucceeds(picked: Outcome, isSupported: string -> bool)
    ensures AfterPick(picked, isSupported).Chosen? <==>
            picked.Chosen? && exists i :: 0 <= i < |picked.paths| && isSupported(picked.paths[i])
  {
    if picked.Chosen? {
      FilterNone(picked.paths, isSupported);
    }
  }

  /** An empty pick and an empty filtered pick are reported differently. */
  lemma {:induction false} AfterPickEmptiness(picked: Outcome, isSupported: string -> bool)
    requires picked.Chosen?
    ensures picked.paths == [] ==> AfterPick(picked, isSupported) == Thrown(NoFilesSelected)
    ensures picked.paths != [] && (forall i :: 0 <= i < |picked.paths| ==> !isSupported(picked.paths[i])) ==>
              AfterPick(picked, isSupported) == Thrown("No supported files found")
  {
    FilterNone(picked.paths, isSupported);
  }

  /** With the prompts awaited, an empty pick and an empty filtered pick are
      reported differently. */
  lemma {:induction false} SelectFilesEmptiness(choice: seq<string>, exts: seq<string>, inp: Inputs, isSupported: string -> bool)
    requires choice != [] && PickerNamed(choice[0]).Some?
    requires Pick(PickerNamed(choice[0]).value, exts, inp, true).Chosen?
    ensures var files := Pick(PickerNamed(choice[0]).value, exts, inp, true).paths;
      (files == [] ==> SelectFiles(choice, exts, inp, isSupported, true) == Thrown(NoFilesSelected)) &&
      (files != [] && (forall i :: 0 <= i < |files| ==> !isSupported(files[i])) ==>
         SelectFiles(choice, exts, inp, isSupported, true) == Thrown("No supported files found"))
  {
    SelectFilesAwaited(choice, exts, inp, isSupported);
    AfterPickEmptiness(Pick(PickerNamed(choice[0]).value, exts, inp, true), isSupported);
  }

  /** An `xplr` that prints nothing is the empty pick. */
  lemma {:induction false} XplrEmptyPick(choice: seq<string>, exts: seq<string>, inp: Inputs, isSupported: string -> bool)
    requires choice == ["xplr"] && inp.xplrInstalled && inp.xplrOutput == ""
    ensures SelectFiles(choice, exts, inp, isSupported, true) == Thrown(NoFilesSelected)
  {
    ShellOutput.OutputLinesEmpty("");
    SelectFilesEmptiness(choice, exts, inp, isSupported);
  }
}
