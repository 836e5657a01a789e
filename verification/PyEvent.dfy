/** `ProcessWithEvent` of src/event.py: the child's standard output is read one
    byte at a time; `\n` and `\r` end the current line, every other byte is
    decoded on its own and appended to it. Each finished line goes to the
    class-wide `lines` list and is searched for `(\d+\.\d+)(?=\s%)`, whose
    match is reported to `progress_cb` as a whole percent. When the process
    has exited, a non-empty partial line is finished and 100 is reported.
    Spawning the shell and polling it are left to the caller: the bytes read
    before the poll sees the exit are the input. */
module PyEvent {
  import opened Wrappers
  import opened Text
  import opened PyText
  import Progress
  import opened Seqs

  newtype byte = b: int | 0 <= b < 256

  // ---------------------------------------------------------------------------
  // The progress pattern (src/event.py:39-42)

  /** `(\d+\.\d+)(?=\s%)` at the start of `s`, with its two digit runs. */
  predicate PercentAt(s: string, whole: string, frac: string) {
    whole != [] && frac != [] && AllDigits(whole) && AllDigits(frac) &&
    whole + ("." + frac) <= s && |whole| + |frac| + 3 <= |s| &&
    IsPySpace(s[|whole| + 1 + |frac|]) && s[|whole| + 2 + |frac|] == '%'
  }

  /** The anchored matcher. Both `\d+` are greedy, and neither `.` nor a
      space is a digit, so only the longest runs can be followed by what the
      pattern asks for: backtracking never finds another match. */
  function MatchPercent(s: string): (r: Option<Progress.Percent>)
    ensures r.Some? ==> AllDigits(r.value.whole) && AllDigits(r.value.frac)
  {
    match Progress.RunThen(s, '.')
    case None => None
    case Some((whole, u)) =>
      var n := Progress.DigitCount(u);
      if n == 0 || n + 1 >= |u| || !IsPySpace(u[n]) || u[n + 1] != '%' then None
      else
        assert whole == s[..Progress.DigitCount(s)];
        Some(Progress.Percent(whole, u[..n]))
  }

  /** The matcher reports exactly the matches of the pattern. */
  lemma {:induction false} MatchPercentCorrect(s: string, whole: string, frac: string)
    ensures MatchPercent(s) == Some(Progress.Percent(whole, frac)) <==> PercentAt(s, whole, frac)
  {
    Progress.RunThenCorrect(s, '.', whole, frac);
    var t := Progress.RunThen(s, '.');
    if t.Some? && t.value.0 == whole {
      PercentAfterRun(s, whole, t.value.1, frac);
    }
  }

  /** Past the whole part and its `.`, the matcher and the pattern agree on
      the fraction and on the space and `%` after it. */
  lemma {:induction false} PercentAfterRun(s: string, whole: string, u: string, frac: string)
    requires Progress.RunThen(s, '.') == Some((whole, u))
    ensures MatchPercent(s) == Some(Progress.Percent(whole, frac)) <==> PercentAt(s, whole, frac)
  {
    var n := Progress.DigitCount(s);
    assert whole == s[..n] && u == s[n + 1..] && s[n] == '.';
    assert s == whole + "." + u;
    FracTail(u, frac);
    PrefixAfterDot(s, whole, u, frac);
    if |frac| + 2 <= |u| {
      assert s[|whole| + 1 + |frac|] == u[|frac|];
      assert s[|whole| + 2 + |frac|] == u[|frac| + 1];
    }
  }

  /** `whole.frac` begins `whole.u` exactly when `frac` begins `u`. */
  lemma {:induction false} PrefixAfterDot(s: string, whole: string, u: string, frac: string)
    requires s == whole + "." + u
    ensures whole + ("." + frac) <= s <==> frac <= u
  {
    Progress.PrefixCat(whole, "." + frac, s);
    assert s[|whole|..] == "." + u;
    Progress.PrefixCat(".", frac, "." + u);
    assert ("." + u)[1..] == u;
  }

  /** The fraction step: a digit run, then a space, then `%`. */
  lemma {:induction false} FracTail(u: string, frac: string)
    ensures (var n := Progress.DigitCount(u);
      n != 0 && n + 1 < |u| && IsPySpace(u[n]) && u[n + 1] == '%' && u[..n] == frac) <==>
      (frac != [] && AllDigits(frac) && frac <= u && |frac| + 2 <= |u| && IsPySpace(u[|frac|]) && u[|frac| + 1] == '%')
  {
    if frac != [] && AllDigits(frac) && frac <= u && |frac| + 2 <= |u| && IsPySpace(u[|frac|]) {
      assert u[..|frac|] == frac;
      Progress.DigitCountExact(frac, u);
    }
  }

  /** `int(float(match.group(1)))` of the leftmost match: the whole part, as
      the value is never negative. None when the line does not match. */
  function LineProgress(line: string): (r: Option<nat>) {
    match Progress.Leftmost(line, 0, MatchPercent)
    case None => None
    case Some((_, p)) => Some(DigitsValue(p.whole))
  }

  /** The reported percent is the whole part of the leftmost match. */
  lemma {:induction false} LineProgressReported(line: string, k: nat, whole: string, frac: string)
    requires k <= |line| && PercentAt(line[k..], whole, frac)
    requires forall j :: 0 <= j < k ==> MatchPercent(line[j..]).None?
    ensures LineProgress(line) == Some(DigitsValue(whole))
  {
    MatchPercentCorrect(line[k..], whole, frac);
    var r := Progress.Leftmost(line, 0, MatchPercent);
    assert r.Some? && r.value.0 == k;
  }

  /** A line the pattern does not occur in reports nothing. */
  lemma {:induction false} LineProgressAbsent(line: string)
    requires forall k, w, f :: 0 <= k <= |line| ==> !PercentAt(line[k..], w, f)
    ensures LineProgress(line).None?
  {
    var r := Progress.Leftmost(line, 0, MatchPercent);
    if r.Some? {
      var (k, p) := r.value;
      MatchPercentCorrect(line[k..], p.whole, p.frac);
    }
  }

  /** HandBrakeCLI's `12.34 %` reports 12: the fraction is cut off. */
  lemma {:induction false} LineProgressExample()
    ensures LineProgress("12.34 %") == Some(12)
  {
    var line := "12.34 %";
    assert line[0..] == line;
    assert PercentAt(line, "12", "34") by {
      assert "12" + ("." + "34") == line[..5];
    }
    LineProgressReported(line, 0, "12", "34");
    assert DigitsValue("12") == 12 by {
      assert "12"[..1] == "1" && "1"[..0] == "";
    }
  }

  /** The `progress_cb` calls a finished line causes: one or none. */
  function Report(line: string): (r: seq<int>)
    ensures |r| <= 1 && (r != [] <==> LineProgress(line).Some?)
  {
    match LineProgress(line)
    case None => []
    case Some(v) => [v]
  }

  /** The calls caused by a run of finished lines, in order. */
  function ReportsOf(lines: seq<string>): seq<int> {
    CallsOf(lines, Report)
  }

  /** The calls `report` makes for each of `lines`, in order. */
  function CallsOf(lines: seq<string>, report: string -> seq<int>): seq<int> {
    if lines == [] then [] else CallsOf(lines[..|lines| - 1], report) + report(lines[|lines| - 1])
  }

  // ---------------------------------------------------------------------------
  // The line assembler (src/event.py:23-35, 37-48)

  predicate IsBreak(c: char) {
    c == '\n' || c == '\r'
  }

  predicate NoBreak(s: string) {
    forall i :: 0 <= i < |s| ==> !IsBreak(s[i])
  }

  /** The bytes as characters, one each; meaningful for ASCII bytes, the only
      ones the single-byte decode accepts. */
  function Chars(bytes: seq<byte>): (r: string)
    ensures |r| == |bytes| && forall i :: 0 <= i < |bytes| ==> r[i] == bytes[i] as int as char
  {
    seq(|bytes|, i requires 0 <= i < |bytes| => bytes[i] as int as char)
  }

  /** Reference definition: the text cut at every `\n` and every `\r`, each a
      separator of its own (so `\r\n` leaves an empty piece between them),
      built from the front. */
  function Pieces(s: string): (r: seq<string>)
    ensures |r| >= 1
  {
    if s == [] then [[]]
    else
      var rest := Pieces(s[1..]);
      if IsBreak(s[0]) then [[]] + rest else [[s[0]] + rest[0]] + rest[1..]
  }

  /** Break-free text is one piece. */
  lemma {:induction false} PiecesWhole(s: string)
    requires NoBreak(s)
    ensures Pieces(s) == [s]
  {
    if s != [] {
      PiecesWhole(s[1..]);
      assert [s[0]] + s[1..] == s;
    }
  }

  /** A break at the end adds an empty piece. */
  lemma {:induction false} PiecesSnocBreak(s: string, c: char)
    requires IsBreak(c)
    ensures Pieces(s + [c]) == Pieces(s) + [[]]
  {
    var t := s + [c];
    if s == [] {
      assert t[1..] == [];
    } else {
      assert t[1..] == s[1..] + [c];
      PiecesSnocBreak(s[1..], c);
    }
  }

  /** Any other character at the end extends the last piece. */
  lemma {:induction false} PiecesSnocChar(s: string, c: char)
    requires !IsBreak(c)
    ensures var p := Pieces(s); Pieces(s + [c]) == p[..|p| - 1] + [p[|p| - 1] + [c]]
  {
    var t := s + [c];
    if s == [] {
      assert t == [c] && t[0] == c && t[1..] == [];
      var rest := Pieces(t[1..]);
      assert rest == [[]] && rest[0] == [] && rest[1..] == [];
      assert [t[0]] + rest[0] == [c];
      assert [[c]] + rest[1..] == [[c]];
      var p := Pieces(s);
      assert p == [[]] && p[..0] == [] && p[0] + [c] == [c];
    } else {
      assert t[1..] == s[1..] + [c];
      PiecesSnocChar(s[1..], c);
      var q := Pieces(s[1..]);
      if !IsBreak(s[0]) && |q| == 1 {
        assert [s[0]] + (q[0] + [c]) == ([s[0]] + q[0]) + [c];
      }
    }
  }

  /** The assembler's state: lines finished so far, the partial line, and
      whether a decode error was raised. */
  datatype Assembly = Assembly(lines: seq<string>, pending: string, failed: bool)

  /** One byte read: a break finishes the line; an ASCII byte is appended; any
      other byte cannot be decoded on its own and raises `UnicodeDecodeError`,
      after which nothing more happens. */
  function Step(a: Assembly, b: byte): Assembly {
    if a.failed then a
    else if b == 10 || b == 13 then Assembly(a.lines + [a.pending], [], false)
    else if b < 128 then a.(pending := a.pending + [b as int as char])
    else a.(failed := true)
  }

  function Assemble(init: Assembly, bytes: seq<byte>): Assembly {
    if bytes == [] then init else Step(Assemble(init, bytes[..|bytes| - 1]), bytes[|bytes| - 1])
  }

  /** After the exit: a non-empty partial line is finished. A raised error
      skips this. */
  function Finish(a: Assembly): Assembly {
    if a.failed || |a.pending| == 0 then a else Step(a, 10)
  }

  /** The `progress_cb` calls of a whole run: one per matching finished line,
      in order, then 100 unless the decode error escaped. */
  function RunReports(fin: Assembly): seq<int> {
    ReportsOf(fin.lines) + (if fin.failed then [] else [100])
  }

  lemma {:induction false} ReportsOfSnoc(lines: seq<string>, line: string)
    ensures ReportsOf(lines + [line]) == ReportsOf(lines) + Report(line)
  {
    CallsOfSnoc(lines, line, Report);
  }

  lemma {:induction false} CallsOfSnoc(lines: seq<string>, line: string, report: string -> seq<int>)
    ensures CallsOf(lines + [line], report) == CallsOf(lines, report) + report(line)
  {
    assert (lines + [line])[..|lines|] == lines;
  }

  /** The decode error is raised exactly when a byte outside ASCII is read. */
  lemma {:induction false} AssembleFails(init: Assembly, bytes: seq<byte>)
    ensures Assemble(init, bytes).failed <==> init.failed || exists i :: 0 <= i < |bytes| && bytes[i] >= 128
  {
    if bytes != [] {
      var front := bytes[..|bytes| - 1];
      AssembleFails(init, front);
      assert forall i :: 0 <= i < |front| ==> front[i] == bytes[i];
      if exists i :: 0 <= i < |bytes| && bytes[i] >= 128 {
        var i :| 0 <= i < |bytes| && bytes[i] >= 128;
        if i < |front| {
          assert front[i] >= 128;
        }
      }
    }
  }

  /** The last element of equal concatenations. */
  lemma {:induction false} LastSplit<T>(xs: seq<T>, x: T, ys: seq<T>, p: seq<T>)
    requires xs + [x] == ys + p && p != []
    ensures xs == ys + p[..|p| - 1] && x == p[|p| - 1]
  {
    var l := xs + [x];
    assert |xs| == |ys| + |p| - 1;
    assert l[..|xs|] == xs && l[|xs|] == x;
    assert (ys + p)[..|xs|] == ys + p[..|p| - 1];
    assert (ys + p)[|xs|] == p[|p| - 1];
  }

  /** One step keeps the lines and the partial line equal to the pieces. */
  lemma {:induction false} StepSplits(a: Assembly, b: byte, lines: seq<string>, text: string)
    requires !a.failed && b < 128 && a.lines + [a.pending] == lines + Pieces(text)
    ensures var n := Step(a, b);
      n.lines + [n.pending] == lines + Pieces(text + [b as int as char])
  {
    var c := b as int as char;
    if IsBreak(c) {
      PiecesSnocBreak(text, c);
    } else {
      PiecesSnocChar(text, c);
      LastSplit(a.lines, a.pending, lines, Pieces(text));
    }
  }

  /** Without an error, the finished lines and the partial line are the
      pieces of the text read, cut at every break. */
  lemma {:induction false} AssembleSplits(init: Assembly, bytes: seq<byte>)
    requires NoBreak(init.pending) && !Assemble(init, bytes).failed
    ensures var a := Assemble(init, bytes);
      a.lines + [a.pending] == init.lines + Pieces(init.pending + Chars(bytes))
  {
    if bytes == [] {
      assert init.pending + Chars(bytes) == init.pending;
      PiecesWhole(init.pending);
    } else {
      var front := bytes[..|bytes| - 1];
      var b := bytes[|bytes| - 1];
      var a := Assemble(init, front);
      AssembleSplits(init, front);
      assert init.pending + Chars(bytes) == (init.pending + Chars(front)) + [b as int as char];
      StepSplits(a, b, init.lines, init.pending + Chars(front));
    }
  }

  /** A step only appends to the lines it finds. */
  lemma {:induction false} StepShift(a: Assembly, b: byte)
    requires !a.failed && b < 128
    ensures var n := Step(Assembly([], a.pending, false), b);
      Step(a, b) == Assembly(a.lines + n.lines, n.pending, false)
  {
    if !(b == 10 || b == 13) {
      assert a.lines + [] == a.lines;
    }
  }

  /** A byte read through `Feed` adds its lines and calls to those so far. */
  lemma {:induction false} FeedShift(a: Assembly, b: byte)
    requires !a.failed && b < 128
    ensures var n := Step(Assembly([], a.pending, false), b);
      Step(a, b) == Assembly(a.lines + n.lines, n.pending, false) &&
      ReportsOf(Step(a, b).lines) == ReportsOf(a.lines) + ReportsOf(n.lines)
  {
    StepShift(a, b);
    ReportsOfAppend(a.lines, Step(Assembly([], a.pending, false), b).lines);
  }

  /** The loop's step: the byte read through `Feed` extends the assembly
      of the bytes read so far. */
  lemma {:induction false} FeedStep(init: Assembly, read: seq<byte>, i: nat, a: Assembly, n: Assembly)
    requires i < |read| && read[i] < 128 && a == Assemble(init, read[..i]) && !a.failed
    requires n == Step(Assembly([], a.pending, false), read[i])
    ensures Assemble(init, read[..i + 1]) == Assembly(a.lines + n.lines, n.pending, false)
    ensures ReportsOf(a.lines + n.lines) == ReportsOf(a.lines) + ReportsOf(n.lines)
  {
    AssembleSnoc(init, read, i);
    FeedShift(a, read[i]);
  }

  /** The exit through `Exit` adds its lines and calls to those so far. */
  lemma {:induction false} ExitShift(a: Assembly)
    requires !a.failed
    ensures var f := Finish(Assembly([], a.pending, false));
      Finish(a) == Assembly(a.lines + f.lines, f.pending, false) &&
      RunReports(Finish(a)) == ReportsOf(a.lines) + (ReportsOf(f.lines) + [100])
  {
    var f := Finish(Assembly([], a.pending, false));
    if |a.pending| > 0 {
      StepShift(a, 10);
    } else {
      assert a.lines + f.lines == a.lines;
    }
    ReportsOfAppend(a.lines, f.lines);
  }

  /** A byte outside ASCII met after a clean prefix ends the run there. */
  lemma {:induction false} RaiseAt(init: Assembly, read: seq<byte>, i: nat)
    requires i < |read| && read[i] >= 128 && !Assemble(init, read[..i]).failed
    ensures var a := Assemble(init, read[..i]);
      Finish(Assemble(init, read)) == a.(failed := true) && RunReports(a.(failed := true)) == ReportsOf(a.lines)
  {
    AssembleSnoc(init, read, i);
    AssembleStaysFailed(init, read[..i + 1], read[i + 1..]);
    assert read[..i + 1] + read[i + 1..] == read;
  }

  /** The calls of two runs of lines are those of each, in turn. */
  lemma {:induction false} ReportsOfAppend(xs: seq<string>, ys: seq<string>)
    ensures ReportsOf(xs + ys) == ReportsOf(xs) + ReportsOf(ys)
  {
    CallsOfAppend(xs, ys, Report);
  }

  lemma {:induction false} CallsOfAppend(xs: seq<string>, ys: seq<string>, report: string -> seq<int>)
    ensures CallsOf(xs + ys, report) == CallsOf(xs, report) + CallsOf(ys, report)
  {
    if ys == [] {
      assert xs + ys == xs;
    } else {
      var front, last := ys[..|ys| - 1], ys[|ys| - 1];
      CallsOfAppend(xs, front, report);
      assert (xs + ys)[..|xs + ys| - 1] == xs + front;
      assert (xs + ys)[|xs + ys| - 1] == last;
      assert CallsOf(xs + ys, report) == CallsOf(xs + front, report) + report(last);
      assert CallsOf(ys, report) == CallsOf(front, report) + report(last);
      AppendAssoc(CallsOf(xs, report), CallsOf(front, report), report(last));
    }
  }

  /** Reading one more byte is one more step. */
  lemma {:induction false} AssembleSnoc(init: Assembly, bytes: seq<byte>, i: nat)
    requires i < |bytes|
    ensures Assemble(init, bytes[..i + 1]) == Step(Assemble(init, bytes[..i]), bytes[i])
  {
    assert bytes[..i + 1][..i] == bytes[..i];
  }

  /** Once raised, the error ends the run: later bytes change nothing. */
  lemma {:induction false} AssembleStaysFailed(init: Assembly, done: seq<byte>, later: seq<byte>)
    requires Assemble(init, done).failed
    ensures Assemble(init, done + later) == Assemble(init, done)
  {
    if later == [] {
      assert done + later == done;
    } else {
      var front := later[..|later| - 1];
      AssembleStaysFailed(init, done, front);
      assert (done + later)[..|done + later| - 1] == done + front;
    }
  }

  /** The run that reads only ASCII bytes: the finished lines are the pieces
      of the text read, except for an empty last piece, which the exit does
      not flush, and 100 is reported after the lines' percents. */
  lemma {:induction false} FinishClean(pending: string, bytes: seq<byte>)
    requires NoBreak(pending) && forall i :: 0 <= i < |bytes| ==> bytes[i] < 128
    ensures var fin := Finish(Assemble(Assembly([], pending, false), bytes));
      var p := Pieces(pending + Chars(bytes));
      !fin.failed && fin.pending == [] &&
      fin.lines == (if p[|p| - 1] == [] then p[..|p| - 1] else p) &&
      RunReports(fin) == ReportsOf(fin.lines) + [100]
  {
    var init := Assembly([], pending, false);
    AssembleFails(init, bytes);
    AssembleSplits(init, bytes);
    var a := Assemble(init, bytes);
    var p := Pieces(pending + Chars(bytes));
    assert a.lines + [a.pending] == p;
    assert a.lines == p[..|p| - 1] && a.pending == p[|p| - 1] by {
      assert (a.lines + [a.pending])[..|a.lines|] == a.lines;
    }
  }

  /** A byte outside ASCII, such as the first byte of a UTF-8 `é`, raises:
      100 is never reported and the partial line stays unfinished. */
  lemma {:induction false} FinishRaised(pending: string, bytes: seq<byte>, i: nat)
    requires i < |bytes| && bytes[i] >= 128
    ensures var a := Assemble(Assembly([], pending, false), bytes);
      a.failed && Finish(a) == a && RunReports(a) == ReportsOf(a.lines)
  {
    AssembleFails(Assembly([], pending, false), bytes);
  }

  // ---------------------------------------------------------------------------
  // The class (src/event.py:7-48)

  /** The class-wide `lines` list: one list that every instance appends to. */
  class LineLog {
    var lines: seq<string>

    constructor ()
      ensures lines == []
    {
      lines := [];
    }
  }

  class ProcessWithEvent {
    const cmd: string
    const log: LineLog
    var currentLine: string

    /** The partial line never holds a break. */
    predicate Valid()
      reads this
    {
      NoBreak(currentLine)
    }

    constructor (cmd: string, log: LineLog)
      ensures this.cmd == cmd && this.log == log && currentLine == [] && Valid()
    {
      this.cmd := cmd;
      this.log := log;
      currentLine := [];
    }

    /** `handle_new_line`: the partial line is appended to the shared list,
        its percent (if any) returned as the `progress_cb` call, and the
        buffer emptied. */
    method HandleNewLine() returns (progress: Option<nat>)
      modifies this, log
      ensures log.lines == old(log.lines) + [old(currentLine)]
      ensures currentLine == [] && progress == LineProgress(old(currentLine))
      ensures Valid()
    {
      log.lines := log.lines + [currentLine];
      progress := LineProgress(currentLine);
      currentLine := [];
    }

    /** One byte of the loop that is not a decode error: a break runs
        `handle_new_line`, which returns its `progress_cb` calls; any other
        byte is appended. */
    method Feed(b: byte) returns (calls: seq<int>)
      requires Valid() && b < 128
      modifies this, log
      ensures var n := Step(Assembly([], old(currentLine), false), b);
        log.lines == old(log.lines) + n.lines && currentLine == n.pending && calls == ReportsOf(n.lines)
      ensures Valid()
    {
      if b == 10 || b == 13 {
        ReportsOfSnoc([], currentLine);
        assert [] + [currentLine] == [currentLine];
        var progress := HandleNewLine();
        calls := if progress.Some? then [progress.value] else [];
      } else {
        currentLine := currentLine + [b as int as char];
        calls := [];
      }
    }

    /** The exit branch of the loop: a non-empty partial line is handled
        as a line, then 100 is reported. */
    method Exit() returns (calls: seq<int>)
      requires Valid()
      modifies this, log
      ensures var f := Finish(Assembly([], old(currentLine), false));
        log.lines == old(log.lines) + f.lines && currentLine == f.pending && calls == ReportsOf(f.lines) + [100]
      ensures Valid()
    {
      calls := [];
      if |currentLine| > 0 {
        calls := Feed(10);
      }
      calls := calls + [100];
    }

    /** `start`: reads `read` byte by byte, then sees the exit. The new
        state and the `progress_cb` calls are those of `Finish` over
        `Assemble`; `raised` stands for the decode error escaping. */
    method Start(read: seq<byte>) returns (reports: seq<int>, raised: bool)
      requires Valid()
      modifies this, log
      ensures var fin := Finish(Assemble(Assembly([], old(currentLine), false), read));
        log.lines == old(log.lines) + fin.lines && currentLine == fin.pending &&
        reports == RunReports(fin) && raised == fin.failed
      ensures Valid()
    {
      ghost var init := Assembly([], currentLine, false);
      ghost var a := init;
      reports := [];
      var i := 0;
      while i < |read|
        invariant 0 <= i <= |read| && a == Assemble(init, read[..i])
        invariant !a.failed && log.lines == old(log.lines) + a.lines && currentLine == a.pending
        invariant reports == ReportsOf(a.lines) && Valid()
      {
        var b := read[i];
        AssembleSnoc(init, read, i);
        if b >= 128 {
          RaiseAt(init, read, i);
          return reports, true;
        }
        var calls := Feed(b);
        ghost var n := Step(Assembly([], a.pending, false), b);
        FeedStep(init, read, i, a, n);
        AppendAssoc(old(log.lines), a.lines, n.lines);
        reports := reports + calls;
        a := Assembly(a.lines + n.lines, n.pending, false);
        i := i + 1;
      }
      assert read[..i] == read;
      var calls := Exit();
      ghost var f := Finish(Assembly([], a.pending, false));
      ExitShift(a);
      AppendAssoc(old(log.lines), a.lines, f.lines);
      AppendAssoc(ReportsOf(a.lines), ReportsOf(f.lines), [100]);
      reports := reports + calls;
      raised := false;
    }
  }

  /** Two instances sharing the class-wide list, run one after the other:
      the list ends with the lines of the first run followed by those of the
      second. */
  method RunTwo(first: ProcessWithEvent, second: ProcessWithEvent, read1: seq<byte>, read2: seq<byte>)
    returns (reports1: seq<int>, reports2: seq<int>)
    requires first != second && first.log == second.log && first.Valid() && second.Valid()
    modifies first, second, first.log
    ensures first.log.lines == old(first.log.lines) +
      Finish(Assemble(Assembly([], old(first.currentLine), false), read1)).lines +
      Finish(Assemble(Assembly([], old(second.currentLine), false), read2)).lines
  {
    var raised1, raised2;
    reports1, raised1 := first.Start(read1);
    reports2, raised2 := second.Start(read2);
  }
}
