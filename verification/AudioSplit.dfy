/** The size-bounded audio splitter of `compressAudio` in cli/engine.ts: the
    seconds that fit in one part, the number of parts, the start and length of
    each part and the part file names. Arithmetic is exact; JavaScript's NaN and
    infinities are kept as values of `Num` so that every input has a meaning. */
module AudioSplit {
  import opened Wrappers
  import opened Text

  /** `1024 * 1024 * 8`: bits in one megabyte as the source counts it. */
  const BitsPerMB: nat := 8388608

  /** A JavaScript number as it arises in the split arithmetic. */
  datatype Num = NaN | PosInf | NegInf | Finite(v: int)

  /** Number of iterations of `for (let i = 0; i < numChunks; i++)`. */
  datatype Iterations = Count(n: nat) | Unbounded

  /** `Math.floor(a / b)` for integers, exact. */
  function FloorDiv(a: int, b: int): int
    requires b != 0
  {
    if b > 0 then a / b else (-a) / (-b)
  }

  /** The floor lies within one divisor below the dividend. */
  lemma {:induction false} FloorDivBounds(a: int, b: int)
    requires b != 0
    ensures var q := FloorDiv(a, b);
      (b > 0 ==> q * b <= a < q * b + b) &&
      (b < 0 ==> q * b >= a > q * b + b) &&
      (a >= 0 && b > 0 ==> q >= 0)
  {
  }

  /** `Math.ceil(x)`. */
  function Ceil(x: real): int {
    if x.Floor as real == x then x.Floor else x.Floor + 1
  }

  /** The ceiling is the least integer not below `x`. */
  lemma {:induction false} CeilBounds(x: real)
    ensures Ceil(x) as real >= x && (Ceil(x) - 1) as real < x
  {
  }

  /** `Math.floor((splitByMB * 1024 * 1024 * 8 * 0.95) / bps)`, with the factor
      0.95 written as 95/100 (cli/engine.ts:111). `bps` None is NaN. */
  function MaxChunkSeconds(splitByMB: int, bps: Option<int>): (r: Num)
    ensures bps.None? ==> r == NaN
    ensures bps.Some? && bps.value == 0 ==> !r.Finite?
    ensures bps.Some? && bps.value > 0 && splitByMB >= 0 ==> r.Finite? && r.v >= 0
  {
    match bps
    case None => NaN
    case Some(b) =>
      if b == 0 then
        (if splitByMB > 0 then PosInf else if splitByMB < 0 then NegInf else NaN)
      else
        var bits: int := splitByMB * BitsPerMB * 95;
        assert splitByMB >= 0 ==> bits >= 0;
        FloorDivBounds(bits, 100 * b);
        Finite(FloorDiv(bits, 100 * b))
  }

  /** The part length is the largest whole number of seconds whose bits at `bps`
      stay within 95% of the size limit. */
  lemma {:induction false} MaxChunkFits(splitByMB: int, bps: int)
    requires bps > 0
    ensures var r := MaxChunkSeconds(splitByMB, Some(bps));
      r.Finite? &&
      100 * bps * r.v <= splitByMB * BitsPerMB * 95 < 100 * bps * (r.v + 1)
  {
    var a := splitByMB * BitsPerMB * 95;
    var b := 100 * bps;
    var q := FloorDiv(a, b);
    FloorDivBounds(a, b);
    assert b * (q + 1) == q * b + b;
  }

  /** `Math.ceil(totalDuration / maxChunkDurationSec)` as a loop bound
      (cli/engine.ts:112-114): NaN and non-positive bounds run the loop zero
      times; a finite duration over zero seconds per part is +Infinity. */
  function ChunkCount(duration: real, maxChunk: Num): (c: Iterations)
    requires duration >= 0.0
    ensures c.Count? && c.n > 0 ==> maxChunk.Finite? && maxChunk.v >= 1
    ensures c.Unbounded? <==> maxChunk == Finite(0) && duration > 0.0
  {
    match maxChunk
    case Finite(m) =>
      if m > 0 then
        CeilBounds(duration / m as real);
        Count(Ceil(duration / m as real))
      else if m == 0 && duration > 0.0 then Unbounded
      else Count(0)
    case _ => Count(0)
  }

  /** Splitting happens only for a truthy `splitByMB` that the output exceeds
      (cli/engine.ts:101). */
  predicate ShouldSplit(splitByMB: int, outputSizeMB: real) {
    splitByMB != 0 && outputSizeMB > splitByMB as real
  }

  /** `HardBraked__part` + `String(i + 1).padStart(3, "0")` + `.mp3` (cli/engine.ts:116). */
  function PartName(i: nat): string {
    "HardBraked__part" + PadStart(NatToDecimal(i + 1), 3, '0') + ".mp3"
  }

  /** One time-bounded stream-copy extraction by ffmpeg. */
  datatype SplitCommand = SplitCommand(input: string, startSec: int, durationSec: int,
                                       codec: string, output: string)

  /** `i * maxChunkDurationSec`: where part `i` starts. */
  function PartStart(i: nat, maxChunk: int): int {
    i * maxChunk
  }

  /** Each part starts where the previous one's requested length ends. */
  lemma {:induction false} PartStartsContiguous(i: nat, maxChunk: int)
    ensures PartStart(0, maxChunk) == 0
    ensures PartStart(i + 1, maxChunk) == PartStart(i, maxChunk) + maxChunk
  {
  }

  /** The extraction of part `i`: `maxChunk` seconds from `i * maxChunk`, stream
      copied into `<outputDir>/HardBraked__partNNN.mp3`. */
  function PartCommand(tempPath: string, outputDir: string, maxChunk: int, i: nat): SplitCommand {
    SplitCommand(tempPath, PartStart(i, maxChunk), maxChunk, "copy", JoinPath(outputDir, PartName(i)))
  }

  // ---------------------------------------------------------------------------
  // Coverage of the audio by the parts

  lemma {:induction false} MulMonotone(x: int, y: int, m: int)
    requires x <= y && m >= 0
    ensures x * m <= y * m
  {
  }

  /** The part count is the least number of parts of `m` seconds covering the
      duration; zero exactly when the duration is zero. */
  lemma {:induction false} ChunkCountMinimal(duration: real, m: int)
    requires duration >= 0.0 && m >= 1
    ensures var n := Ceil(duration / m as real);
      n >= 0 && (n * m) as real >= duration &&
      (n == 0 <==> duration == 0.0) &&
      (n > 0 ==> ((n - 1) * m) as real < duration)
  {
    CountCovers(duration, m);
    CountTight(duration, m);
    CountZero(duration, m);
  }

  lemma {:induction false} CountCovers(duration: real, m: int)
    requires duration >= 0.0 && m >= 1
    ensures (Ceil(duration / m as real) * m) as real >= duration
  {
    var q := duration / m as real;
    DivMul(duration, m as real);
    CeilBounds(q);
    CoversWith(duration, q, Ceil(q), m);
  }

  lemma {:induction false} CountTight(duration: real, m: int)
    requires duration >= 0.0 && m >= 1
    ensures var n := Ceil(duration / m as real); n > 0 ==> ((n - 1) * m) as real < duration
  {
    var q := duration / m as real;
    DivMul(duration, m as real);
    CeilBounds(q);
    TightWith(duration, q, Ceil(q) - 1, m);
  }

  lemma {:induction false} CountZero(duration: real, m: int)
    requires duration >= 0.0 && m >= 1
    ensures var n := Ceil(duration / m as real); n >= 0 && (n == 0 <==> duration == 0.0)
  {
    var q := duration / m as real;
    DivMul(duration, m as real);
    CeilBounds(q);
    if q <= 0.0 {
      RealMulMonotone(q, 0.0, m as real);
    }
  }

  lemma {:induction false} DivMul(x: real, y: real)
    requires y != 0.0
    ensures (x / y) * y == x
  {
  }

  /** `n` parts of `m` seconds cover what `q` parts do. */
  lemma {:induction false} CoversWith(duration: real, q: real, n: int, m: int)
    requires m >= 1 && q * (m as real) == duration && q <= n as real
    ensures (n * m) as real >= duration
  {
    RealMulMonotone(q, n as real, m as real);
    CastMul(n, m);
  }

  /** `p` parts of `m` seconds fall short of what `q` parts cover. */
  lemma {:induction false} TightWith(duration: real, q: real, p: int, m: int)
    requires m >= 1 && q * (m as real) == duration && (p as real) < q
    ensures (p * m) as real < duration
  {
    RealMulStrict(p as real, q, m as real);
    CastMul(p, m);
  }

  /** Instant `t` (in seconds) falls in part `i`, which covers `[i*m, (i+1)*m)`. */
  predicate InPart(m: int, i: int, t: real) {
    (i * m) as real <= t < ((i + 1) * m) as real
  }

  /** Parts never overlap: an instant lies in at most one of them. */
  lemma {:induction false} PartsDisjoint(m: int, i: int, j: int, t: real)
    requires m >= 1 && InPart(m, i, t) && InPart(m, j, t)
    ensures i == j
  {
    if i < j {
      MulMonotone(i + 1, j, m);
    } else if j < i {
      MulMonotone(j + 1, i, m);
    }
  }

  /** Instant `t` lies in part `Floor(t / m)`. */
  lemma {:induction false} FloorPart(m: int, t: real)
    requires m >= 1
    ensures InPart(m, (t / m as real).Floor, t)
  {
    var mr := m as real;
    var q := t / mr;
    var i := q.Floor;
    assert q * mr == t;
    assert i as real <= q < (i + 1) as real;
    RealMulMonotone(i as real, q, mr);
    RealMulStrict(q, (i + 1) as real, mr);
    assert (i * m) as real == (i as real) * mr;
    assert ((i + 1) * m) as real == ((i + 1) as real) * mr;
    assert t < ((i + 1) * m) as real;
    assert (i * m) as real <= t;
  }

  lemma {:induction false} CastMul(a: int, b: int)
    ensures (a * b) as real == (a as real) * (b as real)
  {
  }

  lemma {:induction false} RealMulMonotone(a: real, b: real, c: real)
    requires a <= b && c > 0.0
    ensures a * c <= b * c
  {
  }

  lemma {:induction false} RealMulStrict(a: real, b: real, c: real)
    requires a < b && c > 0.0
    ensures a * c < b * c
  {
  }

  /** Every instant of the audio lies in exactly one part, part `Floor(t / m)`,
      and that part is one the loop extracts. */
  lemma {:induction false} PartsCoverInstant(duration: real, m: int, t: real)
    requires m >= 1 && 0.0 <= t < duration
    ensures var i := (t / m as real).Floor;
      0 <= i < Ceil(duration / m as real) && InPart(m, i, t) &&
      forall j :: InPart(m, j, t) ==> j == i
  {
    var i := (t / m as real).Floor;
    var n := Ceil(duration / m as real);
    FloorPart(m, t);
    assert 0 <= i by {
      if i < 0 {
        MulMonotone(i + 1, 0, m);
      }
    }
    ChunkCountMinimal(duration, m);
    assert i < n by {
      if i >= n {
        MulMonotone(n, i, m);
      }
    }
    forall j | InPart(m, j, t)
      ensures j == i
    {
      PartsDisjoint(m, i, j, t);
    }
  }

  /** The audio actually in part `i`: the requested `m` seconds, cut short by the
      end of the stream. */
  function ClippedLength(duration: real, m: int, i: nat): real {
    var rest := duration - (i * m) as real;
    if rest < m as real then rest else m as real
  }

  function ClippedTotal(duration: real, m: int, k: nat): real {
    if k == 0 then 0.0 else ClippedTotal(duration, m, k - 1) + ClippedLength(duration, m, k - 1)
  }

  lemma {:induction false} ClippedTotalFull(duration: real, m: int, k: nat)
    requires m >= 1 && (k * m) as real <= duration
    ensures ClippedTotal(duration, m, k) == (k * m) as real
  {
    if k > 0 {
      var p := k - 1;
      assert p * m + m == k * m;
      ClippedTotalFull(duration, m, p);
      assert duration - (p * m) as real >= m as real;
    }
  }

  /** The parts, each cut at the end of the stream, add up to the whole duration:
      no gap and no overlap. */
  lemma {:induction false} ClippedPartsSumToDuration(duration: real, m: int)
    requires duration >= 0.0 && m >= 1
    ensures ClippedTotal(duration, m, Ceil(duration / m as real)) == duration
  {
    var n := Ceil(duration / m as real);
    ChunkCountMinimal(duration, m);
    if n > 0 {
      var p := n - 1;
      ClippedTotalFull(duration, m, p);
      assert p * m + m == n * m;
      assert duration - (p * m) as real <= m as real;
    }
  }

  /** Every extracted part holds some audio and at most `m` seconds of it. */
  lemma {:induction false} ClippedPartsNonEmpty(duration: real, m: int, i: nat)
    requires duration >= 0.0 && m >= 1 && i < Ceil(duration / m as real)
    ensures 0.0 < ClippedLength(duration, m, i) <= m as real
  {
    var n := Ceil(duration / m as real);
    ChunkCountMinimal(duration, m);
    MulMonotone(i, n - 1, m);
  }

  /** A probed duration of 0 (the `?? 0` fallback) produces no parts at all. */
  lemma {:induction false} ZeroDurationNoParts(maxChunk: Num)
    ensures ChunkCount(0.0, maxChunk) == Count(0)
  {
    if maxChunk.Finite? && maxChunk.v > 0 {
      assert 0.0 / maxChunk.v as real == 0.0;
    }
  }

  /** The code does not guard a part length of zero seconds: a bitrate too high
      for the part size makes the chunk loop unbounded. */
  lemma {:induction false} ZeroSecondPartsUnbounded()
    ensures MaxChunkSeconds(1, Some(8000000)) == Finite(0)
    ensures ChunkCount(1.0, Finite(0)) == Unbounded
  {
  }

  /** 600 s at 128 kbit/s with 4 MB parts: 249-second parts (95% of the
      budget) and three parts. */
  lemma {:induction false} FourMegabyteExample()
    ensures MaxChunkSeconds(4, Some(128000)) == Finite(249)
    ensures ChunkCount(600.0, Finite(249)) == Count(3)
  {
    assert FloorDiv(4 * BitsPerMB * 95, 100 * 128000) == 249;
    var q := 600.0 / 249.0;
    assert 2.0 < q < 3.0;
    assert q.Floor == 2;
  }

  // ---------------------------------------------------------------------------
  // Part names

  lemma {:induction false} LeadingZerosValue(k: nat, s: string)
    requires AllDigits(s)
    ensures AllDigits(Repeat('0', k) + s)
    ensures DigitsValue(Repeat('0', k) + s) == DigitsValue(s)
    decreases |s|
  {
    var z := Repeat('0', k);
    if s == [] {
      assert z + s == z;
      ZerosValue(k);
    } else {
      var init := s[..|s| - 1];
      LeadingZerosValue(k, init);
      assert (z + s)[..|z + s| - 1] == z + init;
    }
  }

  lemma {:induction false} ZerosValue(k: nat)
    ensures AllDigits(Repeat('0', k)) && DigitsValue(Repeat('0', k)) == 0
  {
    if k > 0 {
      ZerosValue(k - 1);
      assert Repeat('0', k)[..k - 1] == Repeat('0', k - 1);
    }
  }

  /** The three-digit field of part `i` denotes `i + 1`. */
  lemma {:induction false} PaddedIndexValue(i: nat)
    ensures AllDigits(PadStart(NatToDecimal(i + 1), 3, '0'))
    ensures DigitsValue(PadStart(NatToDecimal(i + 1), 3, '0')) == i + 1
  {
    var s := NatToDecimal(i + 1);
    if |s| < 3 {
      LeadingZerosValue(3 - |s|, s);
    }
  }

  /** The value of a digit string read from its first digit. */
  lemma {:induction false} DigitsValueFront(s: string)
    requires |s| >= 1 && AllDigits(s)
    ensures DigitsValue(s) == DigitValue(s[0]) * Pow10(|s| - 1) + DigitsValue(s[1..])
  {
    if |s| > 1 {
      var init, rest := s[..|s| - 1], s[1..];
      DigitsValueFront(init);
      assert init[1..] == rest[..|rest| - 1];
      assert init[0] == s[0] && rest[|rest| - 1] == s[|s| - 1];
      var p := Pow10(|s| - 2);
      assert Pow10(|s| - 1) == 10 * p;
      assert DigitsValue(s) == DigitsValue(init) * 10 + DigitValue(s[|s| - 1]);
      assert DigitsValue(rest) == DigitsValue(init[1..]) * 10 + DigitValue(s[|s| - 1]);
      ShiftDigit(DigitValue(s[0]), p, DigitsValue(init[1..]), DigitValue(s[|s| - 1]));
    } else {
      assert s[1..] == [];
      assert s[..0] == [];
    }
  }

  lemma {:induction false} ShiftDigit(d: int, p: int, u: int, l: int)
    ensures (d * p + u) * 10 + l == d * (10 * p) + (u * 10 + l)
  {
  }

  lemma {:induction false} LeadingDigitDominates(x: int, y: int, p: int, u: int, v: int)
    requires 0 <= y < x && 0 <= u && 0 <= v < p
    ensures x * p + u > y * p + v
  {
    MulMonotone(y + 1, x, p);
  }

  /** For digit strings of one length, the string order is the numeric order. */
  lemma {:induction false} DigitOrderIsNumericOrder(a: string, b: string)
    requires |a| == |b| && AllDigits(a) && AllDigits(b)
    requires DigitsValue(a) < DigitsValue(b)
    ensures LexLess(a, b)
  {
    DigitsValueFront(a);
    DigitsValueFront(b);
    var p := Pow10(|a| - 1);
    var x, y := DigitValue(a[0]), DigitValue(b[0]);
    DigitsValueBound(a[1..]);
    DigitsValueBound(b[1..]);
    if x == y {
      assert a[0] == b[0];
      DigitOrderIsNumericOrder(a[1..], b[1..]);
    } else if x > y {
      LeadingDigitDominates(x, y, p, DigitsValue(a[1..]), DigitsValue(b[1..]));
      assert false;
    } else {
      assert a[0] < b[0];
    }
  }

  /** Part names are pairwise distinct, for any number of parts. */
  lemma {:induction false} PartNamesDistinct(i: nat, j: nat)
    requires i != j
    ensures PartName(i) != PartName(j)
  {
    var p := "HardBraked__part";
    var a := PadStart(NatToDecimal(i + 1), 3, '0');
    var b := PadStart(NatToDecimal(j + 1), 3, '0');
    if PartName(i) == PartName(j) {
      assert |a| == |b|;
      assert PartName(i)[|p|..|p| + |a|] == a;
      assert PartName(j)[|p|..|p| + |b|] == b;
      PaddedIndexValue(i);
      PaddedIndexValue(j);
      assert false;
    }
  }

  /** The three-character field of the part name. */
  function PartField(i: nat): string {
    PadStart(NatToDecimal(i + 1), 3, '0')
  }

  lemma {:induction false} PartNameShape(i: nat)
    ensures PartName(i) == "HardBraked__part" + (PartField(i) + ".mp3")
  {
  }

  /** Up to part 999 the field is three digits denoting `i + 1`. */
  lemma {:induction false} ThreeDigitField(i: nat)
    requires i + 1 <= 999
    ensures |PartField(i)| == 3 && AllDigits(PartField(i))
    ensures DigitsValue(PartField(i)) == i + 1
  {
    NatToDecimalLength(i + 1, 3);
    PaddedIndexValue(i);
  }

  /** Part names sort in chunk order as long as there are at most 999 parts. */
  lemma {:induction false} PartNamesOrdered(i: nat, j: nat)
    requires i < j && j + 1 <= 999
    ensures LexLess(PartName(i), PartName(j))
  {
    var a := PartField(i);
    var b := PartField(j);
    ThreeDigitField(i);
    ThreeDigitField(j);
    DigitOrderIsNumericOrder(a, b);
    LexLessFirstDifference(a, b, ".mp3", ".mp3");
    LexLessSharedPrefix("HardBraked__part", a + ".mp3", b + ".mp3");
    PartNameShape(i);
    PartNameShape(j);
  }

  lemma {:induction false} DivideLeading(d: int, p: int, r: int)
    requires p >= 1 && 0 <= r < p
    ensures (d * p + r) / p == d
  {
    var q := (d * p + r) / p;
    var rem := (d * p + r) % p;
    assert q * p + rem == d * p + r;
    if q < d {
      MulMonotone(q + 1, d, p);
    } else if q > d {
      MulMonotone(d + 1, q, p);
    }
  }

  /** The first digit of a digit string, from its value. */
  lemma {:induction false} LeadingDigitValue(s: string)
    requires |s| >= 1 && AllDigits(s)
    ensures DigitValue(s[0]) == DigitsValue(s) / Pow10(|s| - 1)
  {
    DigitsValueFront(s);
    DigitsValueBound(s[1..]);
    DivideLeading(DigitValue(s[0]), Pow10(|s| - 1), DigitsValue(s[1..]));
  }

  /** 1000 is written with four digits, the first a `1`. */
  lemma {:induction false} Decimal1000()
    ensures |NatToDecimal(1000)| == 4 && NatToDecimal(1000)[0] == '1'
  {
    var a := NatToDecimal(1000);
    NatToDecimalLength(1000, 3);
    NatToDecimalLength(1000, 4);
    assert Pow10(3) == 1000;
    LeadingDigitValue(a);
    assert DigitValue(a[0]) == 1;
  }

  /** 999 is written with three digits, the first a `9`. */
  lemma {:induction false} Decimal999()
    ensures |NatToDecimal(999)| == 3 && NatToDecimal(999)[0] == '9'
  {
    var b := NatToDecimal(999);
    NatToDecimalLength(999, 3);
    NatToDecimalLength(999, 2);
    assert Pow10(2) == 100;
    LeadingDigitValue(b);
    assert DigitValue(b[0]) == 9;
  }

  /** Past 999 parts the order breaks: `part1000` sorts before `part999`. */
  lemma {:induction false} PartOrderBreaksAt1000()
    ensures LexLess(PartName(999), PartName(998))
  {
    Decimal1000();
    Decimal999();
    FieldOfFullWidth(NatToDecimal(1000));
    FieldOfFullWidth(NatToDecimal(999));
    NamesByFirstDigit(PartField(999), PartField(998));
    PartNameShape(999);
    PartNameShape(998);
  }

  /** A decimal of three or more digits is its own field. */
  lemma {:induction false} FieldOfFullWidth(s: string)
    requires |s| >= 3
    ensures PadStart(s, 3, '0') == s
  {
  }

  /** Part names compare as their fields' first digits do. */
  lemma {:induction false} NamesByFirstDigit(a: string, b: string)
    requires a != [] && b != [] && a[0] < b[0]
    ensures LexLess("HardBraked__part" + (a + ".mp3"), "HardBraked__part" + (b + ".mp3"))
  {
    assert (a + ".mp3")[0] == a[0] && (b + ".mp3")[0] == b[0];
    LexLessSharedPrefix("HardBraked__part", a + ".mp3", b + ".mp3");
  }

  /** No two parts of one split are written to the same file. */
  lemma {:induction false} PartOutputsDistinct(tempPath: string, outputDir: string, maxChunk: int, i: nat, j: nat)
    requires i != j
    ensures PartCommand(tempPath, outputDir, maxChunk, i).output
         != PartCommand(tempPath, outputDir, maxChunk, j).output
  {
    PartNamesDistinct(i, j);
  }
}
