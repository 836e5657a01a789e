/** `runShellCommandAndReturnOutput` (cli/utils.ts, src/utils.ts) after the
    process has run: its standard output, split on line feeds, with the empty
    pieces dropped; and `checkIfBinaryExists` of src/utils.ts on top of it. */
module ShellOutput {
  import opened Seqs
  import opened Text

  predicate NonEmpty(x: string) {
    x != ""
  }

  /** `stdout.split("\n").filter((x) => x)`. */
  function OutputLines(stdout: string): (r: seq<string>)
    ensures forall i :: 0 <= i < |r| ==> r[i] != "" && '\n' !in r[i]
    ensures IsSubsequence(r, Split(stdout, '\n'))
  {
    FilterIsSubsequence(Split(stdout, '\n'), NonEmpty);
    var r := Filter(Split(stdout, '\n'), NonEmpty);
    assert forall i :: 0 <= i < |r| ==> r[i] in r;
    r
  }

  /** Lines printed with `\n` between them are recovered as printed,
      provided none is empty. */
  lemma {:induction false} OutputLinesOfJoinedLines(lines: seq<string>)
    requires |lines| >= 1
    requires forall i :: 0 <= i < |lines| ==> lines[i] != "" && '\n' !in lines[i]
    ensures OutputLines(Join(lines, '\n')) == lines
  {
    SplitJoin(lines, '\n');
    assert forall i :: 0 <= i < |lines| ==> NonEmpty(lines[i]);
    FilterAllOrNothing(lines, NonEmpty);
  }

  /** The same when every line, the last included, ends in `\n`. */
  lemma {:induction false} OutputLinesOfTerminatedLines(lines: seq<string>)
    requires |lines| >= 1
    requires forall i :: 0 <= i < |lines| ==> lines[i] != "" && '\n' !in lines[i]
    ensures OutputLines(Join(lines, '\n') + "\n") == lines
  {
    var withEmpty := lines + [""];
    assert forall i :: 0 <= i < |withEmpty| ==> '\n' !in withEmpty[i];
    SplitJoin(withEmpty, '\n');
    JoinSnoc(lines, "", '\n');
    assert Join(withEmpty, '\n') == Join(lines, '\n') + "\n";
    assert Split(Join(lines, '\n') + "\n", '\n') == lines + [""];
    FilterAppend(lines, [""], NonEmpty);
    assert forall i :: 0 <= i < |lines| ==> NonEmpty(lines[i]);
    FilterAllOrNothing(lines, NonEmpty);
    assert Filter([""], NonEmpty) == [];
  }

  lemma {:induction false} JoinSnoc(parts: seq<string>, last: string, sep: char)
    requires |parts| >= 1
    ensures Join(parts + [last], sep) == Join(parts, sep) + [sep] + last
    decreases |parts|
  {
    if |parts| == 1 {
      assert (parts + [last])[1..] == [last];
    } else {
      assert (parts + [last])[1..] == parts[1..] + [last];
      JoinSnoc(parts[1..], last, sep);
    }
  }

  predicate AllLineFeeds(s: string) {
    forall i :: 0 <= i < |s| ==> s[i] == '\n'
  }

  predicate AllEmpty(pieces: seq<string>) {
    forall i :: 0 <= i < |pieces| ==> pieces[i] == ""
  }

  /** Splitting on line feeds gives only empty pieces exactly when there is
      nothing but line feeds to split. */
  lemma {:induction false} SplitAllEmpty(s: string)
    ensures AllEmpty(Split(s, '\n')) <==> AllLineFeeds(s)
    decreases |s|
  {
    if s != [] {
      SplitAllEmpty(s[1..]);
      var rest := Split(s[1..], '\n');
      if s[0] == '\n' {
        assert Split(s, '\n') == [""] + rest;
        assert forall i :: 1 <= i < |s| ==> s[1..][i - 1] == s[i];
        assert AllLineFeeds(s) <==> AllLineFeeds(s[1..]);
        assert AllEmpty([""] + rest) <==> AllEmpty(rest) by {
          assert forall i :: 0 <= i < |rest| ==> ([""] + rest)[i + 1] == rest[i];
        }
      } else {
        assert Split(s, '\n')[0] == [s[0]] + rest[0];
      }
    }
  }

  /** Output that is nothing but line feeds gives no lines, and output with
      any other character gives at least one. */
  lemma {:induction false} OutputLinesEmpty(stdout: string)
    ensures OutputLines(stdout) == [] <==> forall i :: 0 <= i < |stdout| ==> stdout[i] == '\n'
  {
    var pieces := Split(stdout, '\n');
    FilterAllOrNothing(pieces, NonEmpty);
    SplitAllEmpty(stdout);
    assert AllEmpty(pieces) <==> forall i :: 0 <= i < |pieces| ==> !NonEmpty(pieces[i]);
  }

  /** `checkIfBinaryExists` (src/utils.ts): `which` printed at least one
      non-empty line. */
  predicate BinaryExists(whichStdout: string) {
    |OutputLines(whichStdout)| > 0
  }

  /** The binary counts as present exactly when `which` printed something
      other than line feeds. */
  lemma {:induction false} BinaryExistsIff(whichStdout: string)
    ensures BinaryExists(whichStdout) <==> exists i :: 0 <= i < |whichStdout| && whichStdout[i] != '\n'
  {
    OutputLinesEmpty(whichStdout);
  }
}
