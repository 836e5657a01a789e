/** `getProgressAndRemainingTime` of cli/engine.ts and src/engine.ts: the
    HandBrakeCLI progress line is searched for `Encoding: task 1 of 1, <d+>.<d+> %`
    and for `ETA <d+>h<d+>m<d+>s`, each at its leftmost occurrence. */
module Progress {
  import opened Wrappers
  import opened Text
  import Bitrate

  /** What `line.match(re)` finds: the leftmost position from `k` on where the
      anchored matcher succeeds, with what it captured. */
  function Leftmost<T>(line: string, k: nat, matchAt: string -> Option<T>): (r: Option<(nat, T)>)
    requires k <= |line|
    ensures r.Some? ==> k <= r.value.0 <= |line| && matchAt(line[r.value.0..]) == Some(r.value.1)
    ensures r.Some? ==> forall j :: k <= j < r.value.0 ==> matchAt(line[j..]).None?
    ensures r.None? ==> forall j :: k <= j <= |line| ==> matchAt(line[j..]).None?
    decreases |line| - k
  {
    match matchAt(line[k..])
    case Some(v) => Some((k, v))
    case None => if k == |line| then None else Leftmost(line, k + 1, matchAt)
  }

  /** The number of leading ASCII digits. */
  function DigitCount(s: string): (n: nat)
    ensures n <= |s| && AllDigits(s[..n])
    ensures n < |s| ==> !IsDigit(s[n])
  {
    var n := Bitrate.DigitRun(s, false);
    assert forall i :: 0 <= i < n ==> s[..n][i] == s[i];
    n
  }

  /** A digit run followed by a non-digit is read back whole. */
  lemma {:induction false} DigitCountExact(w: string, t: string)
    requires AllDigits(w) && |w| < |t| && t[..|w|] == w && !IsDigit(t[|w|])
    ensures DigitCount(t) == |w|
  {
  }

  /** `a + b` begins `s` exactly when `a` does and `b` begins what follows it. */
  lemma {:induction false} PrefixCat(a: string, b: string, s: string)
    ensures a + b <= s <==> a <= s && b <= s[|a|..]
  {
    if a + b <= s {
      assert s[..|a|] == (a + b)[..|a|];
      assert s[|a|..][..|b|] == (a + b)[|a|..];
    }
    if a <= s && b <= s[|a|..] {
      assert s[..|a| + |b|] == s[..|a|] + s[|a|..][..|b|];
    }
  }

  /** A literal at the start of `s`: what follows it. */
  function Lit(s: string, lit: string): (r: Option<string>)
    ensures r.Some? <==> lit <= s
    ensures r.Some? ==> r.value == s[|lit|..]
  {
    if lit <= s then Some(s[|lit|..]) else None
  }

  /** `\d+` followed by the character `c`: the digit run and what follows `c`. */
  function RunThen(t: string, c: char): Option<(string, string)> {
    var n := DigitCount(t);
    if n == 0 || n == |t| || t[n] != c then None else Some((t[..n], t[n + 1..]))
  }

  /** The digit-run step finds exactly the runs the pattern allows. */
  lemma {:induction false} RunThenCorrect(t: string, c: char, w: string, x: string)
    requires !IsDigit(c)
    ensures (RunThen(t, c).Some? && RunThen(t, c).value.0 == w && x <= RunThen(t, c).value.1) <==>
      (w != [] && AllDigits(w) && w + ([c] + x) <= t)
  {
    PrefixCat(w, [c] + x, t);
    if w <= t {
      PrefixCat([c], x, t[|w|..]);
      if |w| < |t| {
        assert t[|w|..][1..] == t[|w| + 1..];
      }
    }
    if w != [] && AllDigits(w) && w + ([c] + x) <= t {
      DigitCountExact(w, t);
    }
    if RunThen(t, c).Some? && RunThen(t, c).value.0 == w {
      assert t[|w|..][..1] == [c];
    }
  }

  const ProgressPrefix: string := "Encoding: task 1 of 1, "

  /** The two captured digit runs of `(\d+\.\d+)`. */
  datatype Percent = Percent(whole: string, frac: string)

  /** The progress pattern matches at the start of `s` with these digit runs. */
  predicate ProgressAt(s: string, whole: string, frac: string) {
    whole != [] && frac != [] && AllDigits(whole) && AllDigits(frac) &&
    ProgressPrefix + (whole + ("." + (frac + (" " + "%")))) <= s
  }

  /** The progress pattern anchored at the start of `s`. */
  function MatchProgress(s: string): Option<Percent> {
    match Lit(s, ProgressPrefix)
    case None => None
    case Some(t) =>
      match RunThen(t, '.')
      case None => None
      case Some((whole, u)) =>
        match RunThen(u, ' ')
        case None => None
        case Some((frac, v)) =>
          if "%" <= v then Some(Percent(whole, frac)) else None
  }

  /** The anchored matcher finds exactly the matches of the pattern: it never
      reports a non-match, and whenever the pattern matches it returns those runs. */
  lemma {:induction false} MatchProgressCorrect(s: string, whole: string, frac: string)
    ensures MatchProgress(s) == Some(Percent(whole, frac)) <==> ProgressAt(s, whole, frac)
  {
    var P := ProgressPrefix;
    PrefixCat(P, whole + ("." + (frac + (" " + "%"))), s);
    if P <= s {
      var t := s[|P|..];
      RunThenCorrect(t, '.', whole, frac + (" " + "%"));
      if RunThen(t, '.').Some? && RunThen(t, '.').value.0 == whole {
        var u := RunThen(t, '.').value.1;
        RunThenCorrect(u, ' ', frac, "%");
      }
    }
  }

  /** `parseFloat` of the captured `whole.frac`, exactly. */
  function PercentValue(p: Percent): (x: real)
    requires AllDigits(p.whole) && AllDigits(p.frac)
    ensures x >= 0.0
  {
    DigitsValue(p.whole) as real + DigitsValue(p.frac) as real / Pow10(|p.frac|) as real
  }

  /** A digit string denotes zero exactly when all its digits are `0`. */
  lemma {:induction false} DigitsValueZero(s: string)
    requires AllDigits(s)
    ensures DigitsValue(s) == 0 <==> forall i :: 0 <= i < |s| ==> s[i] == '0'
  {
    if s != [] {
      var init := s[..|s| - 1];
      DigitsValueZero(init);
      if DigitsValue(s) == 0 {
        assert forall i :: 0 <= i < |init| ==> init[i] == '0';
        assert forall i :: 0 <= i < |s| ==> s[i] == '0' by {
          forall i | 0 <= i < |s| ensures s[i] == '0' {
            if i < |init| { assert s[i] == init[i]; }
          }
        }
      }
      if forall i :: 0 <= i < |s| ==> s[i] == '0' {
        assert forall i :: 0 <= i < |init| ==> init[i] == '0' by {
          forall i | 0 <= i < |init| ensures init[i] == '0' { assert init[i] == s[i]; }
        }
      }
    }
  }

  /** A reported percentage is falsy (zero) exactly when every captured digit is `0`,
      as in `0.00 %`. */
  lemma {:induction false} PercentZero(p: Percent)
    requires AllDigits(p.whole) && AllDigits(p.frac)
    ensures PercentValue(p) == 0.0 <==>
      (forall i :: 0 <= i < |p.whole| ==> p.whole[i] == '0') &&
      (forall i :: 0 <= i < |p.frac| ==> p.frac[i] == '0')
  {
    DigitsValueZero(p.whole);
    DigitsValueZero(p.frac);
    SumOfFractionZero(DigitsValue(p.whole) as real, DigitsValue(p.frac) as real, Pow10(|p.frac|) as real);
  }

  lemma {:induction false} SumOfFractionZero(x: real, y: real, d: real)
    requires x >= 0.0 && y >= 0.0 && d > 0.0
    ensures x + y / d == 0.0 <==> x == 0.0 && y == 0.0
  {
    assert y / d >= 0.0;
    if y > 0.0 {
      assert y / d > 0.0;
    }
  }

  const EtaPrefix: string := "ETA "

  /** The three digit runs of `(\d+h\d+m\d+s)`. */
  datatype Eta = Eta(hours: string, minutes: string, seconds: string)

  /** The captured text `<h>h<m>m<s>s`. */
  function EtaText(e: Eta): string {
    e.hours + "h" + e.minutes + "m" + e.seconds + "s"
  }

  /** The ETA pattern matches at the start of `s` with these digit runs. */
  predicate EtaAt(s: string, e: Eta) {
    e.hours != [] && e.minutes != [] && e.seconds != [] &&
    AllDigits(e.hours) && AllDigits(e.minutes) && AllDigits(e.seconds) &&
    EtaPrefix + (e.hours + ("h" + (e.minutes + ("m" + (e.seconds + ("s" + [])))))) <= s
  }

  /** The ETA pattern anchored at the start of `s`. */
  function MatchEta(s: string): Option<Eta> {
    match Lit(s, EtaPrefix)
    case None => None
    case Some(t0) =>
      match RunThen(t0, 'h')
      case None => None
      case Some((h, t1)) =>
        match RunThen(t1, 'm')
        case None => None
        case Some((m, t2)) =>
          match RunThen(t2, 's')
          case None => None
          case Some((sec, _)) => Some(Eta(h, m, sec))
  }

  /** The anchored ETA matcher finds exactly the matches of the pattern. */
  lemma {:induction false} MatchEtaCorrect(s: string, e: Eta)
    ensures MatchEta(s) == Some(e) <==> EtaAt(s, e)
  {
    var tail := e.hours + ("h" + (e.minutes + ("m" + (e.seconds + ("s" + [])))));
    PrefixCat(EtaPrefix, tail, s);
    if EtaPrefix <= s {
      var t0 := s[|EtaPrefix|..];
      RunThenCorrect(t0, 'h', e.hours, e.minutes + ("m" + (e.seconds + ("s" + []))));
      if RunThen(t0, 'h').Some? && RunThen(t0, 'h').value.0 == e.hours {
        var t1 := RunThen(t0, 'h').value.1;
        RunThenCorrect(t1, 'm', e.minutes, e.seconds + ("s" + []));
        if RunThen(t1, 'm').Some? && RunThen(t1, 'm').value.0 == e.minutes {
          var t2 := RunThen(t1, 'm').value.1;
          RunThenCorrect(t2, 's', e.seconds, []);
        }
      }
    }
  }

  /** The result of `getProgressAndRemainingTime`; None stands for `null`. */
  datatype ProgressInfo = ProgressInfo(progress: Option<real>, remainingTime: Option<string>)

  function GetProgressAndRemainingTime(line: string): (r: ProgressInfo)
    ensures r.progress.Some? ==> r.progress.value >= 0.0
    ensures r.remainingTime.Some? ==> r.remainingTime.value != []
  {
    var p := Leftmost(line, 0, MatchProgress);
    var e := Leftmost(line, 0, MatchEta);
    var progress :=
      if p.Some? then
        (MatchProgressCorrect(line[p.value.0..], p.value.1.whole, p.value.1.frac);
         Some(PercentValue(p.value.1)))
      else None;
    var remainingTime :=
      if e.Some? then
        (MatchEtaCorrect(line[e.value.0..], e.value.1);
         Some(EtaText(e.value.1)))
      else None;
    ProgressInfo(progress, remainingTime)
  }

  /** A progress value is reported exactly when the pattern occurs somewhere in
      the line, and it is the value of its leftmost occurrence. */
  lemma {:induction false} ProgressReported(line: string, k: nat, p: Percent)
    requires k <= |line| && ProgressAt(line[k..], p.whole, p.frac)
    requires forall j :: 0 <= j < k ==> MatchProgress(line[j..]).None?
    ensures GetProgressAndRemainingTime(line).progress == Some(PercentValue(p))
  {
    MatchProgressCorrect(line[k..], p.whole, p.frac);
    var r := Leftmost(line, 0, MatchProgress);
    assert r.Some? && r.value.0 == k;
  }

  /** No occurrence of the progress pattern anywhere means `progress` is null. */
  lemma {:induction false} ProgressAbsent(line: string)
    requires forall k, w, f :: 0 <= k <= |line| ==> !ProgressAt(line[k..], w, f)
    ensures GetProgressAndRemainingTime(line).progress.None?
  {
    var r := Leftmost(line, 0, MatchProgress);
    if r.Some? {
      var (k, p) := r.value;
      MatchProgressCorrect(line[k..], p.whole, p.frac);
    }
  }

  /** The ETA text is reported exactly when the pattern occurs, as its leftmost occurrence. */
  lemma {:induction false} EtaReported(line: string, k: nat, e: Eta)
    requires k <= |line| && EtaAt(line[k..], e)
    requires forall j :: 0 <= j < k ==> MatchEta(line[j..]).None?
    ensures GetProgressAndRemainingTime(line).remainingTime == Some(EtaText(e))
  {
    MatchEtaCorrect(line[k..], e);
    var r := Leftmost(line, 0, MatchEta);
    assert r.Some? && r.value.0 == k;
  }

  lemma {:induction false} EtaAbsent(line: string)
    requires forall k, e :: 0 <= k <= |line| ==> !EtaAt(line[k..], e)
    ensures GetProgressAndRemainingTime(line).remainingTime.None?
  {
    var r := Leftmost(line, 0, MatchEta);
    if r.Some? {
      var (k, e) := r.value;
      MatchEtaCorrect(line[k..], e);
    }
  }

  lemma {:induction false} ExampleValue()
    ensures PercentValue(Percent("45", "67")) == 45.67
  {
    assert DigitsValue("45") == 45 by {
      assert "45"[..1] == "4" && "4"[..0] == "";
    }
    assert DigitsValue("67") == 67 by {
      assert "67"[..1] == "6" && "6"[..0] == "";
    }
    assert Pow10(2) == 100;
  }

  /** A typical HandBrakeCLI status line starting with the progress text. */
  lemma {:induction false} ProgressExample()
    ensures GetProgressAndRemainingTime("Encoding: task 1 of 1, 45.67 %").progress == Some(45.67)
  {
    var line := "Encoding: task 1 of 1, 45.67 %";
    assert ProgressPrefix + ("45" + ("." + ("67" + (" " + "%")))) == line;
    assert line[0..] == line;
    ProgressReported(line, 0, Percent("45", "67"));
    ExampleValue();
  }
}
