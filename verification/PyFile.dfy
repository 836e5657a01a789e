/** `select_files` of src/file.py: the paths `ranger --choosefiles` wrote, one
    per line, are stripped, emptied lines dropped, and only names whose text
    after the last `.` is an allowed extension kept. Running `ranger` and
    reading and removing the `OUTFILE` are left to the caller: the file's
    text is the input. */
module PyFile {
  import opened Seqs
  import opened Text
  import opened PyText

  const AllowedExtensions: seq<string> := ["mp4", "mkv", "avi", "mov", "m4v", "flv", "wmv"]

  /** `x.split(".")[-1] in allowed_extensions`, letter case included. */
  predicate HasAllowedExtension(x: string) {
    LastPiece(x, '.') in AllowedExtensions
  }

  /** `map(lambda x: x.strip(), lines)`. */
  function StripAll(lines: seq<string>): (r: seq<string>)
    ensures |r| == |lines| && forall i :: 0 <= i < |lines| ==> r[i] == Strip(lines[i])
  {
    seq(|lines|, i requires 0 <= i < |lines| => Strip(lines[i]))
  }

  function NonEmpty(): string -> bool {
    (x: string) => |x| > 0
  }

  function Allowed(): string -> bool {
    (x: string) => HasAllowedExtension(x)
  }

  /** The stripped lines that are not empty, in order. */
  function CleanLines(data: string): seq<string> {
    Filter(StripAll(SplitLines(data)), NonEmpty())
  }

  /** The list `select_files` returns for the text of the file. */
  function SelectFiles(data: string): seq<string> {
    Filter(CleanLines(data), Allowed())
  }

  /** The clean lines are exactly the stripped lines that are not empty. */
  lemma {:induction false} CleanLinesMembers(data: string)
    ensures forall x :: x in CleanLines(data) <==> x in StripAll(SplitLines(data)) && x != []
  {
  }

  /** Every clean line is stripped and non-empty. */
  lemma {:induction false} CleanLinesClean(data: string)
    ensures var r := CleanLines(data); forall i :: 0 <= i < |r| ==> r[i] != [] && IsStripped(r[i])
  {
    var stripped := StripAll(SplitLines(data));
    StripAllStripped(SplitLines(data));
    StrippedKeptClean(stripped);
    assert CleanLines(data) == Filter(stripped, NonEmpty());
  }

  lemma {:induction false} StripAllStripped(lines: seq<string>)
    ensures forall i :: 0 <= i < |lines| ==> IsStripped(StripAll(lines)[i])
  {
    forall i | 0 <= i < |lines|
      ensures IsStripped(StripAll(lines)[i])
    {
      assert StripAll(lines)[i] == Strip(lines[i]);
    }
  }

  /** Dropping the empty lines of stripped lines leaves clean lines. */
  lemma {:induction false} StrippedKeptClean(stripped: seq<string>)
    requires forall i :: 0 <= i < |stripped| ==> IsStripped(stripped[i])
    ensures var r := Filter(stripped, NonEmpty()); forall i :: 0 <= i < |r| ==> r[i] != [] && IsStripped(r[i])
  {
    var r := Filter(stripped, NonEmpty());
    FilterElements(stripped, NonEmpty());
    forall i | 0 <= i < |r|
      ensures r[i] != [] && IsStripped(r[i])
    {
      var j :| 0 <= j < |stripped| && stripped[j] == r[i];
    }
  }

  /** `select_files` returns exactly the stripped non-empty lines with an
      allowed extension. */
  lemma {:induction false} SelectFilesMembers(data: string)
    ensures forall x :: x in SelectFiles(data) <==> x in StripAll(SplitLines(data)) && x != [] && HasAllowedExtension(x)
  {
    CleanLinesMembers(data);
  }

  /** Every name `select_files` returns is stripped, non-empty and allowed. */
  lemma {:induction false} SelectFilesClean(data: string)
    ensures var r := SelectFiles(data);
      forall i :: 0 <= i < |r| ==> r[i] != [] && IsStripped(r[i]) && HasAllowedExtension(r[i])
  {
    var clean := CleanLines(data);
    CleanLinesClean(data);
    KeptAreClean(clean);
    assert SelectFiles(data) == Filter(clean, Allowed());
  }

  /** The extension filter keeps clean lines clean. */
  lemma {:induction false} KeptAreClean(clean: seq<string>)
    requires forall i :: 0 <= i < |clean| ==> clean[i] != [] && IsStripped(clean[i])
    ensures var r := Filter(clean, Allowed());
      forall i :: 0 <= i < |r| ==> r[i] != [] && IsStripped(r[i]) && HasAllowedExtension(r[i])
  {
    var r := Filter(clean, Allowed());
    FilterElements(clean, Allowed());
    forall i | 0 <= i < |r|
      ensures r[i] != [] && IsStripped(r[i]) && HasAllowedExtension(r[i])
    {
      var j :| 0 <= j < |clean| && clean[j] == r[i];
    }
  }

  /** `select_files` keeps the file's order. */
  lemma {:induction false} SelectFilesInOrder(data: string)
    ensures IsSubsequence(SelectFiles(data), StripAll(SplitLines(data)))
  {
    var stripped := StripAll(SplitLines(data));
    var clean := CleanLines(data);
    FilterIsSubsequence(stripped, NonEmpty());
    FilterIsSubsequence(clean, Allowed());
    SubsequenceTrans(SelectFiles(data), clean, stripped);
  }

  /** A name without a dot is its own last piece: it survives only when it is
      one of the allowed extensions itself. */
  lemma {:induction false} DotlessEntry(data: string, x: string)
    requires '.' !in x && x in SelectFiles(data)
    ensures x in AllowedExtensions
  {
    SelectFilesMembers(data);
  }

  /** Stripped, non-empty, boundary-free paths written one per line are read
      back as they were. */
  lemma {:induction false} CleanLinesTerminated(paths: seq<string>)
    requires forall i :: 0 <= i < |paths| ==> paths[i] != [] && IsStripped(paths[i]) && NoBoundary(paths[i])
    ensures CleanLines(Terminated(paths)) == paths
  {
    SplitLinesTerminated(paths);
    assert StripAll(paths) == paths;
    FilterAllOrNothing(paths, NonEmpty());
  }

  /** A path `select_files` passes through untouched. */
  predicate CleanPath(x: string) {
    x != [] && IsStripped(x) && NoBoundary(x) && HasAllowedExtension(x)
  }

  /** Paths written one per line, already stripped, non-empty, free of line
      boundaries and carrying an allowed extension come back unchanged and in
      order. */
  lemma {:induction false} SelectFilesRoundTrip(paths: seq<string>)
    requires forall i :: 0 <= i < |paths| ==> CleanPath(paths[i])
    ensures SelectFiles(Terminated(paths)) == paths
  {
    CleanLinesTerminated(paths);
    KeepAllowed(paths);
  }

  lemma {:induction false} KeepAllowed(paths: seq<string>)
    requires forall i :: 0 <= i < |paths| ==> CleanPath(paths[i])
    ensures Filter(paths, Allowed()) == paths
  {
    FilterAllOrNothing(paths, Allowed());
  }

  /** The extension test is case-sensitive: an upper-case `.MP4` is dropped. */
  lemma {:induction false} UpperCaseDropped(stem: string)
    requires '.' !in stem
    ensures !HasAllowedExtension(stem + ".MP4")
  {
    LastPieceOf(stem, '.', "MP4");
    assert forall e :: e in AllowedExtensions ==> e[0] != 'M';
  }
}
