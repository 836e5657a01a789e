/** `parseBitrateToBps` of cli/engine.ts and the JavaScript `parseInt` it falls back on. */
module Bitrate {
  import opened Wrappers
  import opened Text

  predicate IsHexDigit(c: char) {
    IsDigit(c) || 'a' <= c <= 'f' || 'A' <= c <= 'F'
  }

  predicate IsRadixDigit(c: char, hex: bool) {
    if hex then IsHexDigit(c) else IsDigit(c)
  }

  function HexDigitValue(c: char): (d: nat)
    requires IsHexDigit(c)
    ensures d < 16
  {
    if IsDigit(c) then DigitValue(c)
    else if 'a' <= c <= 'f' then c as int - 'a' as int + 10
    else c as int - 'A' as int + 10
  }

  /** Length of the longest prefix of `s` made of digits of the radix. */
  function DigitRun(s: string, hex: bool): (n: nat)
    ensures n <= |s|
    ensures forall i :: 0 <= i < n ==> IsRadixDigit(s[i], hex)
    ensures n < |s| ==> !IsRadixDigit(s[n], hex)
  {
    if s != [] && IsRadixDigit(s[0], hex) then 1 + DigitRun(s[1..], hex) else 0
  }

  /** The value of a string of radix digits, most significant first. */
  function RadixValue(s: string, hex: bool): nat
    requires forall i :: 0 <= i < |s| ==> IsRadixDigit(s[i], hex)
  {
    if s == [] then 0
    else
      var last := s[|s| - 1];
      assert IsRadixDigit(last, hex);
      var d := if hex then HexDigitValue(last) else DigitValue(last);
      RadixValue(s[..|s| - 1], hex) * (if hex then 16 else 10) + d
  }

  /** JavaScript `parseInt(s)` with no radix argument: leading white space is
      skipped, one sign is accepted, a `0x`/`0X` prefix selects base 16, and the
      longest run of digits that follows is read; no digit at all gives NaN (None). */
  function ParseInt(s: string): Option<int> {
    var t := TrimStart(s);
    var negative := t != [] && t[0] == '-';
    var u := if t != [] && (t[0] == '-' || t[0] == '+') then t[1..] else t;
    var hex := |u| >= 2 && u[0] == '0' && (u[1] == 'x' || u[1] == 'X');
    var body := if hex then u[2..] else u;
    var n := DigitRun(body, hex);
    if n == 0 then None
    else
      var v: int := RadixValue(body[..n], hex);
      Some(if negative then -v else v)
  }

  /** The bitrate matches `/^(\d+)k$/i`: one or more digits, then `k` or `K`, then the end. */
  predicate IsKiloForm(bitrate: string) {
    |bitrate| >= 2 && (bitrate[|bitrate| - 1] == 'k' || bitrate[|bitrate| - 1] == 'K')
    && AllDigits(bitrate[..|bitrate| - 1])
  }

  /** `parseBitrateToBps`: `"<digits>k"` means kilobits per second; anything else
      is handed to `parseInt`. None stands for NaN. */
  function ParseBitrateToBps(bitrate: string): (r: Option<int>)
    ensures IsKiloForm(bitrate) ==> r == Some(DigitsValue(bitrate[..|bitrate| - 1]) * 1000)
  {
    if IsKiloForm(bitrate) then Some(DigitsValue(bitrate[..|bitrate| - 1]) * 1000)
    else ParseInt(bitrate)
  }

  lemma {:induction false} RadixValueDecimal(s: string)
    requires AllDigits(s)
    ensures RadixValue(s, false) == DigitsValue(s)
  {
    if s != [] {
      RadixValueDecimal(s[..|s| - 1]);
    }
  }

  /** A plain string of decimal digits is read as the number it denotes. */
  lemma {:induction false} ParseIntDigits(s: string)
    requires s != [] && AllDigits(s)
    ensures ParseInt(s) == Some(DigitsValue(s))
  {
    assert TrimStart(s) == s;
    var n := DigitRun(s, false);
    assert n == |s|;
    assert s[..n] == s;
    RadixValueDecimal(s);
  }

  /** The fallback accepts what `/^(\d+)k$/i` rejects: a plain decimal string is
      bits per second, as in `"96000"`. */
  lemma {:induction false} PlainBitrate(bitrate: string)
    requires bitrate != [] && AllDigits(bitrate)
    ensures ParseBitrateToBps(bitrate) == Some(DigitsValue(bitrate))
  {
    assert !IsDigit(bitrate[|bitrate| - 1]) ==> false;
    ParseIntDigits(bitrate);
  }

  /** A string whose first non-blank character (after an optional sign) is not a
      digit gives NaN, so no bitrate is known. */
  lemma {:induction false} ParseIntNoDigits(s: string)
    requires TrimStart(s) == [] || (!IsDigit(TrimStart(s)[0]) && TrimStart(s)[0] != '-' && TrimStart(s)[0] != '+')
    ensures ParseInt(s) == None
  {
  }

  /** Worked examples: `"128k"` is 128000 bit/s and `"96000"` is 96000 bit/s. */
  lemma {:induction false} Examples()
    ensures ParseBitrateToBps("128k") == Some(128000)
    ensures ParseBitrateToBps("320K") == Some(320000)
    ensures ParseBitrateToBps("96000") == Some(96000)
  {
    Example128k();
    Example320K();
    Example96000();
  }

  lemma {:induction false} Example128k()
    ensures ParseBitrateToBps("128k") == Some(128000)
  {
    assert DigitsValue("128") == 128 by {
      assert "128"[..2] == "12" && "12"[..1] == "1" && "1"[..0] == "";
    }
    assert "128k"[..3] == "128";
  }

  lemma {:induction false} Example320K()
    ensures ParseBitrateToBps("320K") == Some(320000)
  {
    assert DigitsValue("320") == 320 by {
      assert "320"[..2] == "32" && "32"[..1] == "3" && "3"[..0] == "";
    }
    assert "320K"[..3] == "320";
  }

  lemma {:induction false} Example96000()
    ensures ParseBitrateToBps("96000") == Some(96000)
  {
    Value96000();
    PlainBitrate("96000");
  }

  lemma {:induction false} Value96000()
    ensures DigitsValue("96000") == 96000
  {
    assert "9"[..0] == "";
    assert DigitsValue("9") == 9;
    assert "96"[..1] == "9";
    assert DigitsValue("96") == 96;
    assert "960"[..2] == "96";
    assert DigitsValue("960") == 960;
    assert "9600"[..3] == "960";
    assert DigitsValue("9600") == 9600;
    assert "96000"[..4] == "9600";
  }
}
