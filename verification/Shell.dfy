/** Shell quoting: `shellQuote` of cli/engine.ts and `escapePath` of cli/utils.ts
    and src/utils.ts, together with a reader for the part of the POSIX Shell
    Command Language (section 2.2 "Quoting" and section 2.3 "Token
    Recognition") that the quoted commands use. */
module Shell {
  import opened Wrappers
  import opened Text
  import opened Seqs

  // ---------------------------------------------------------------------------
  // A reader for a subset of the POSIX shell token rules

  /** A token of a command line: a word after quote removal, or an operator character. */
  datatype Token = Word(text: string) | Op(c: char)

  /** `<blank>` in the POSIX locale. */
  predicate IsBlank(c: char) {
    c == ' ' || c == '\t'
  }

  /** Characters that end a word and form an operator token (newline included). */
  predicate IsOperatorChar(c: char) {
    c == '&' || c == '|' || c == ';' || c == '<' || c == '>' || c == '(' || c == ')' || c == '\n'
  }

  /** Characters that start double quoting, expansion or pattern matching; the
      reader stops (None) rather than model them. */
  predicate IsExpansionChar(c: char) {
    c == '"' || c == '$' || c == '`' || c == '*' || c == '?' || c == '['
  }

  /** At the start of a word, `#` opens a comment and `~` a tilde prefix. */
  predicate IsWordStartSpecial(c: char) {
    c == '#' || c == '~'
  }

  function Cur(cur: Option<string>): string {
    if cur.Some? then cur.value else ""
  }

  function Emit(cur: Option<string>): seq<Token> {
    if cur.Some? then [Word(cur.value)] else []
  }

  function Prepend(ts: seq<Token>, r: Option<seq<Token>>): Option<seq<Token>> {
    if r.Some? then Some(ts + r.value) else None
  }

  /** The tokens of `s`. `cur` is the word read so far (None: between words);
      `quoted` says whether a single-quoted span is open. None means that `s`
      leaves the modelled subset: an unterminated quote, a trailing backslash,
      or a character of `IsExpansionChar`/`IsWordStartSpecial` outside quotes. */
  function Lex(s: string, cur: Option<string>, quoted: bool): Option<seq<Token>>
    decreases |s|
  {
    if s == [] then
      if quoted then None else Some(Emit(cur))
    else
      var c := s[0];
      if quoted then
        // section 2.2.2: every character up to the next single quote is literal
        if c == '\'' then Lex(s[1..], Some(Cur(cur)), false)
        else Lex(s[1..], Some(Cur(cur) + [c]), true)
      else if c == '\'' then Lex(s[1..], Some(Cur(cur)), true)
      else if c == '\\' then
        // section 2.2.1: a backslash keeps the next character literal, and a
        // backslash-newline pair is removed
        if |s| == 1 then None
        else if s[1] == '\n' then Lex(s[2..], cur, false)
        else Lex(s[2..], Some(Cur(cur) + [s[1]]), false)
      else if IsBlank(c) then Prepend(Emit(cur), Lex(s[1..], None, false))
      else if IsOperatorChar(c) then Prepend(Emit(cur) + [Op(c)], Lex(s[1..], None, false))
      else if IsExpansionChar(c) || (cur.None? && IsWordStartSpecial(c)) then None
      else Lex(s[1..], Some(Cur(cur) + [c]), false)
  }

  /** The tokens of a whole command line. */
  function Tokens(s: string): Option<seq<Token>> {
    Lex(s, None, false)
  }

  /** A character that is literal where it stands, outside quotes. */
  predicate IsOrdinary(c: char) {
    !IsBlank(c) && !IsOperatorChar(c) && !IsExpansionChar(c) && c != '\'' && c != '\\'
  }

  // One step of the reader, each stated on its own so that the inductive
  // proofs below unfold `Lex` only through these.

  lemma {:induction false} StepQuoted(c: char, s: string, w: string)
    requires c != '\''
    ensures Lex([c] + s, Some(w), true) == Lex(s, Some(w + [c]), true)
  {
    assert ([c] + s)[0] == c && ([c] + s)[1..] == s;
  }

  lemma {:induction false} StepCloseQuote(s: string, cur: Option<string>)
    ensures Lex("'" + s, cur, true) == Lex(s, Some(Cur(cur)), false)
  {
    assert ("'" + s)[0] == '\'' && ("'" + s)[1..] == s;
  }

  lemma {:induction false} StepOpenQuote(s: string, cur: Option<string>)
    ensures Lex("'" + s, cur, false) == Lex(s, Some(Cur(cur)), true)
  {
    assert ("'" + s)[0] == '\'' && ("'" + s)[1..] == s;
  }

  lemma {:induction false} StepBackslash(c: char, s: string, cur: Option<string>)
    requires c != '\n'
    ensures Lex(['\\', c] + s, cur, false) == Lex(s, Some(Cur(cur) + [c]), false)
  {
    var t := ['\\', c] + s;
    assert t[0] == '\\' && t[1] == c && t[2..] == s;
  }

  lemma {:induction false} StepOrdinary(c: char, s: string, cur: Option<string>)
    requires IsOrdinary(c) && (cur.Some? || !IsWordStartSpecial(c))
    ensures Lex([c] + s, cur, false) == Lex(s, Some(Cur(cur) + [c]), false)
  {
    assert ([c] + s)[0] == c && ([c] + s)[1..] == s;
  }

  lemma {:induction false} StepContinuation(s: string, cur: Option<string>)
    ensures Lex(['\\', '\n'] + s, cur, false) == Lex(s, cur, false)
  {
    var t := ['\\', '\n'] + s;
    assert t[0] == '\\' && t[1] == '\n' && t[2..] == s;
  }

  lemma {:induction false} StepBlank(s: string, cur: Option<string>)
    ensures Lex(" " + s, cur, false) == Prepend(Emit(cur), Lex(s, None, false))
  {
    assert (" " + s)[0] == ' ' && (" " + s)[1..] == s;
  }

  lemma {:induction false} StepOperator(c: char, s: string, cur: Option<string>)
    requires IsOperatorChar(c)
    ensures Lex([c] + s, cur, false) == Prepend(Emit(cur) + [Op(c)], Lex(s, None, false))
  {
    assert ([c] + s)[0] == c && ([c] + s)[1..] == s;
  }

  /** No word holds a single quote. */
  predicate QuoteFree(ts: seq<Token>) {
    forall i :: 0 <= i < |ts| && ts[i].Word? ==> '\'' !in ts[i].text
  }

  /** Without a backslash there is no way to put a single quote into a word:
      outside quotes it opens a span and inside one it closes it. */
  lemma {:induction false} QuotesNeedBackslash(s: string, cur: Option<string>, quoted: bool)
    requires '\\' !in s && '\'' !in Cur(cur)
    ensures Lex(s, cur, quoted).Some? ==> QuoteFree(Lex(s, cur, quoted).value)
    decreases |s|
  {
    if s != [] {
      var c := s[0];
      var t := s[1..];
      assert '\\' !in t by {
        assert forall i :: 0 <= i < |t| ==> t[i] == s[i + 1];
      }
      var w := Cur(cur) + [c];
      if quoted {
        if c == '\'' {
          QuotesNeedBackslash(t, Some(Cur(cur)), false);
        } else {
          assert '\'' !in w;
          QuotesNeedBackslash(t, Some(w), true);
        }
      } else if c == '\'' {
        QuotesNeedBackslash(t, Some(Cur(cur)), true);
      } else if IsBlank(c) || IsOperatorChar(c) {
        QuotesNeedBackslash(t, None, false);
        var e := if IsBlank(c) then Emit(cur) else Emit(cur) + [Op(c)];
        assert QuoteFree(e);
        var r := Lex(t, None, false);
        if r.Some? {
          assert Lex(s, cur, quoted) == Some(e + r.value);
          assert forall i :: |e| <= i < |e + r.value| ==> (e + r.value)[i] == r.value[i - |e|];
        }
      } else if !(IsExpansionChar(c) || (cur.None? && IsWordStartSpecial(c))) {
        assert c != '\\';
        assert '\'' !in w;
        QuotesNeedBackslash(t, Some(w), false);
      }
    }
  }

  /** Blanks between words are dropped. */
  lemma {:induction false} BlankSeparates(rest: string)
    ensures Lex(" " + rest, None, false) == Lex(rest, None, false)
  {
    assert (" " + rest)[1..] == rest;
    var r := Lex(rest, None, false);
    if r.Some? {
      assert [] + r.value == r.value;
    }
  }

  /** A run of ordinary characters extends the word being read. */
  lemma {:induction false} OrdinaryRunFrom(w: string, x: string, rest: string)
    requires forall i :: 0 <= i < |w| ==> IsOrdinary(w[i])
    ensures Lex(w + rest, Some(x), false) == Lex(rest, Some(x + w), false)
    decreases |w|
  {
    if w == [] {
      assert w + rest == rest;
      assert x + w == x;
    } else {
      assert [w[0]] + w[1..] == w;
      AppendAssoc([w[0]], w[1..], rest);
      StepOrdinary(w[0], w[1..] + rest, Some(x));
      OrdinaryRunFrom(w[1..], x + [w[0]], rest);
      AppendAssoc(x, [w[0]], w[1..]);
    }
  }

  /** A run of ordinary characters extends the current word, or starts one. */
  lemma {:induction false} OrdinaryRun(w: string, cur: Option<string>, rest: string)
    requires forall i :: 0 <= i < |w| ==> IsOrdinary(w[i])
    requires w != [] && (cur.None? ==> !IsWordStartSpecial(w[0]))
    ensures Lex(w + rest, cur, false) == Lex(rest, Some(Cur(cur) + w), false)
  {
    if cur.Some? {
      OrdinaryRunFrom(w, cur.value, rest);
      assert Some(cur.value) == cur;
    } else {
      assert [w[0]] + w[1..] == w;
      AppendAssoc([w[0]], w[1..], rest);
      StepOrdinary(w[0], w[1..] + rest, cur);
      assert Cur(cur) + [w[0]] == [w[0]];
      OrdinaryRunFrom(w[1..], [w[0]], rest);
      assert Cur(cur) + w == w;
    }
  }

  /** A word made of ordinary characters only. */
  predicate PlainText(w: string) {
    w != [] && !IsWordStartSpecial(w[0]) && forall i :: 0 <= i < |w| ==> IsOrdinary(w[i])
  }

  lemma {:induction false} PrependTwice(a: seq<Token>, b: seq<Token>, r: Option<seq<Token>>)
    ensures Prepend(a, Prepend(b, r)) == Prepend(a + b, r)
  {
    if r.Some? {
      AppendAssoc(a, b, r.value);
    }
  }

  /** A plain word followed by a blank is one word token. */
  lemma {:induction false} PlainWord(w: string, rest: string)
    requires PlainText(w)
    ensures Lex(w + (" " + rest), None, false) == Prepend([Word(w)], Lex(rest, None, false))
  {
    OrdinaryRun(w, None, " " + rest);
    assert Cur(None) + w == w;
    StepBlank(rest, Some(w));
  }
  lemma {:induction false} WordThen(w: string, rest: string, ts: seq<Token>)
    requires PlainText(w) && Lex(rest, None, false) == Some(ts)
    ensures Lex(w + (" " + rest), None, false) == Some([Word(w)] + ts)
  {
    PlainWord(w, rest);
  }

  /** Two plain words, each followed by a blank. */
  lemma {:induction false} TwoWords(a: string, b: string, rest: string)
    requires PlainText(a) && PlainText(b)
    ensures Lex(a + (" " + (b + (" " + rest))), None, false) == Prepend([Word(a), Word(b)], Lex(rest, None, false))
  {
    PlainWord(a, b + (" " + rest));
    PlainWord(b, rest);
    PrependTwice([Word(a)], [Word(b)], Lex(rest, None, false));
    assert [Word(a)] + [Word(b)] == [Word(a), Word(b)];
  }


  // ---------------------------------------------------------------------------
  // shellQuote on Unix: section 2.2.2 "Single-Quotes"

  /** `p.replace(/'/g, "'\\''")`: each single quote closes the quoted span,
      contributes an escaped quote and reopens the span. */
  function EscapeSingleQuotes(p: string): (r: string)
    ensures |r| >= |p|
    ensures '\'' !in p ==> r == p
  {
    if p == [] then []
    else (if p[0] == '\'' then "'\\''" else [p[0]]) + EscapeSingleQuotes(p[1..])
  }

  /** `shellQuote` on Unix, trailing space included (cli/engine.ts:155). */
  function ShellQuoteUnix(p: string): (r: string)
    ensures |r| >= |p| + 3
    ensures r[0] == '\'' && r[|r| - 2] == '\'' && r[|r| - 1] == ' '
  {
    "'" + EscapeSingleQuotes(p) + "' "
  }

  /** How `EscapeSingleQuotes` writes one character. */
  function QuoteChar(c: char): string {
    if c == '\'' then "'\\''" else [c]
  }

  lemma {:induction false} EscapeSingleQuotesCons(c: char, tail: string)
    ensures EscapeSingleQuotes([c] + tail) == QuoteChar(c) + EscapeSingleQuotes(tail)
  {
    assert ([c] + tail)[0] == c && ([c] + tail)[1..] == tail;
  }

  /** Inside an open single-quoted span, one written character adds itself to
      the word being read. */
  lemma {:induction false} QuoteCharStep(c: char, t: string, w: string)
    ensures Lex(QuoteChar(c) + t, Some(w), true) == Lex(t, Some(w + [c]), true)
  {
    if c == '\'' {
      assert QuoteChar(c) + t == "'" + (['\\', '\''] + ("'" + t));
      StepCloseQuote(['\\', '\''] + ("'" + t), Some(w));
      StepBackslash('\'', "'" + t, Some(w));
      StepOpenQuote(t, Some(w + [c]));
    } else {
      StepQuoted(c, t, w);
    }
  }

  /** One character of a single-quoted span, read back ahead of the rest. */
  lemma {:induction false} QuotedSpanStep(c: char, tail: string, w: string, rest: string)
    ensures Lex(EscapeSingleQuotes([c] + tail) + ("'" + rest), Some(w), true) ==
            Lex(EscapeSingleQuotes(tail) + ("'" + rest), Some(w + [c]), true)
  {
    var t := EscapeSingleQuotes(tail) + ("'" + rest);
    EscapeSingleQuotesCons(c, tail);
    AppendAssoc(QuoteChar(c), EscapeSingleQuotes(tail), "'" + rest);
    QuoteCharStep(c, t, w);
  }

  /** Inside an open single-quoted span, the escaped text followed by a closing
      quote contributes exactly `p` to the current word. */
  lemma {:induction false} QuotedSpan(p: string, w: string, rest: string)
    ensures Lex(EscapeSingleQuotes(p) + ("'" + rest), Some(w), true) == Lex(rest, Some(w + p), false)
    decreases |p|
  {
    if p == [] {
      assert EscapeSingleQuotes(p) + ("'" + rest) == "'" + rest;
      StepCloseQuote(rest, Some(w));
      assert w + p == w;
    } else {
      assert [p[0]] + p[1..] == p;
      QuotedSpanStep(p[0], p[1..], w, rest);
      QuotedSpan(p[1..], w + [p[0]], rest);
      AppendAssoc(w, [p[0]], p[1..]);
    }
  }

  /** Reading `shellQuote(p)` back under section 2.2.2 yields exactly one word,
      `p` itself, whatever characters `p` holds; the trailing space only ends
      the word. */
  lemma {:induction false} ShellQuoteUnixReadsBack(p: string, rest: string)
    ensures Lex(ShellQuoteUnix(p) + rest, None, false) == Prepend([Word(p)], Lex(rest, None, false))
  {
    var e := EscapeSingleQuotes(p);
    assert ShellQuoteUnix(p) + rest == "'" + (e + ("'" + (" " + rest)));
    StepOpenQuote(e + ("'" + (" " + rest)), None);
    assert Cur(None) == "";
    QuotedSpan(p, "", " " + rest);
    assert "" + p == p;
    StepBlank(rest, Some(p));
  }

  /** The same with the trailing space trimmed off, as at the end of a command. */
  lemma {:induction false} ShellQuoteUnixReadsBackAtEnd(p: string)
    ensures Lex("'" + EscapeSingleQuotes(p) + "'", None, false) == Some([Word(p)])
  {
    var e := EscapeSingleQuotes(p);
    assert "'" + e + "'" == "'" + (e + ("'" + ""));
    StepOpenQuote(e + ("'" + ""), None);
    assert Cur(None) == "";
    QuotedSpan(p, "", "");
    assert "" + p == p;
  }

  /** A path holding no single quote is quoted verbatim. */
  lemma {:induction false} ShellQuoteUnixPlain(p: string)
    requires '\'' !in p
    ensures ShellQuoteUnix(p) == "'" + p + "' "
  {
  }

  // ---------------------------------------------------------------------------
  // shellQuote on Windows: double quotes, `"` escaped as `\"`

  /** `p.replace(/"/g, '\\"')`. */
  function EscapeDoubleQuotes(p: string): (r: string)
    ensures |r| >= |p|
    ensures '"' !in p ==> r == p
  {
    if p == [] then []
    else (if p[0] == '"' then "\\\"" else [p[0]]) + EscapeDoubleQuotes(p[1..])
  }

  /** `shellQuote` on Windows (cli/engine.ts:150-153). */
  function ShellQuoteWindows(p: string): (r: string)
    ensures |r| >= |p| + 2 && r[0] == '"' && r[|r| - 1] == '"'
  {
    "\"" + EscapeDoubleQuotes(p) + "\""
  }

  /** Inside the double-quoted span, a `"` occurs only right after a backslash. */
  lemma {:induction false} DoubleQuotesEscaped(p: string)
    ensures forall i :: 0 <= i < |EscapeDoubleQuotes(p)| && EscapeDoubleQuotes(p)[i] == '"' ==>
      i > 0 && EscapeDoubleQuotes(p)[i - 1] == '\\'
  {
    if p != [] {
      DoubleQuotesEscaped(p[1..]);
      var head := if p[0] == '"' then "\\\"" else [p[0]];
      var tail := EscapeDoubleQuotes(p[1..]);
      var r := head + tail;
      assert r == EscapeDoubleQuotes(p);
      assert tail == [] || tail[0] != '"';
      forall i | 0 <= i < |r| && r[i] == '"'
        ensures i > 0 && r[i - 1] == '\\'
      {
        if p[0] == '"' {
          assert head == ['\\', '"'];
          if i == 1 {
            assert r[0] == '\\';
          } else if i > 1 {
            assert r[i] == tail[i - 2];
            assert i - 2 > 0;
            assert tail[i - 3] == '\\';
            assert r[i - 1] == tail[i - 3];
          }
        } else {
          assert head == [p[0]];
          if i > 0 {
            assert r[i] == tail[i - 1];
            assert i - 1 > 0;
            assert tail[i - 2] == '\\';
            assert r[i - 1] == tail[i - 2];
          }
        }
      }
    }
  }

  /** Turning every `\"` back into `"`, the reading of the Windows escape. */
  function UnescapeDoubleQuotes(s: string): string
    decreases |s|
  {
    if s == [] then []
    else if |s| >= 2 && s[0] == '\\' && s[1] == '"' then "\"" + UnescapeDoubleQuotes(s[2..])
    else [s[0]] + UnescapeDoubleQuotes(s[1..])
  }

  /** The Windows escape loses nothing: undoing it gives the path back. */
  lemma {:induction false} WindowsQuoteRoundTrip(p: string)
    ensures UnescapeDoubleQuotes(EscapeDoubleQuotes(p)) == p
  {
    if p != [] {
      WindowsQuoteRoundTrip(p[1..]);
      var e := EscapeDoubleQuotes(p);
      var tail := EscapeDoubleQuotes(p[1..]);
      if p[0] == '"' {
        assert e == "\\\"" + tail;
        assert e[2..] == tail;
      } else {
        assert tail == [] || tail[0] != '"';
        assert e == [p[0]] + tail;
        assert e[1..] == tail;
      }
    }
  }

  /** `shellQuote(p)` for the platform `isWindows`. */
  function ShellQuote(p: string, isWindows: bool): (r: string)
  {
    if isWindows then ShellQuoteWindows(p) else ShellQuoteUnix(p)
  }

  // ---------------------------------------------------------------------------
  // escapePath: section 2.2.1 "Escape Character (Backslash)"

  /** The class `["\s'$`\\]` of `escapePath`. */
  predicate IsEscaped(c: char) {
    c == '"' || IsJsSpace(c) || c == '\'' || c == '$' || c == '`' || c == '\\'
  }

  function CountEscaped(p: string): nat {
    if p == [] then 0 else (if IsEscaped(p[0]) then 1 else 0) + CountEscaped(p[1..])
  }

  /** `path.replace(/(["\s'$`\\])/g, "\\$1")` (cli/utils.ts:72-74, src/utils.ts:66-68). */
  function EscapePath(p: string): string
  {
    if p == [] then []
    else (if IsEscaped(p[0]) then ['\\', p[0]] else [p[0]]) + EscapePath(p[1..])
  }

  /** One backslash is added per character of the escaped class. */
  lemma {:induction false} EscapePathLength(p: string)
    ensures |EscapePath(p)| == |p| + CountEscaped(p)
    decreases |p|
  {
    if p != [] {
      EscapePathLength(p[1..]);
    }
  }

  /** A path with no character of the escaped class is left as it is. */
  lemma {:induction false} EscapePathUnchanged(p: string)
    requires forall i :: 0 <= i < |p| ==> !IsEscaped(p[i])
    ensures EscapePath(p) == p
    decreases |p|
  {
    if p != [] {
      assert !IsEscaped(p[0]);
      EscapePathUnchanged(p[1..]);
      assert [p[0]] + p[1..] == p;
    }
  }

  /** Dropping the backslash in front of each escaped character. */
  function Unescape(s: string): string
    decreases |s|
  {
    if s == [] then []
    else if |s| >= 2 && s[0] == '\\' then [s[1]] + Unescape(s[2..])
    else [s[0]] + Unescape(s[1..])
  }

  /** Removing the inserted backslashes gives the path back. */
  lemma {:induction false} EscapePathRoundTrip(p: string)
    ensures Unescape(EscapePath(p)) == p
  {
    if p != [] {
      EscapePathRoundTrip(p[1..]);
      var e := EscapePath(p);
      var tail := EscapePath(p[1..]);
      if IsEscaped(p[0]) {
        assert e == ['\\', p[0]] + tail;
        assert e[2..] == tail;
      } else {
        assert e == [p[0]] + tail;
        assert e[1..] == tail;
        assert p[0] != '\\';
      }
    }
  }

  /** The escape of a concatenation is the concatenation of the escapes. */
  lemma {:induction false} EscapePathAppend(a: string, b: string)
    ensures EscapePath(a + b) == EscapePath(a) + EscapePath(b)
    decreases |a|
  {
    if a == [] {
      assert a + b == b;
    } else {
      assert (a + b)[0] == a[0] && (a + b)[1..] == a[1..] + b;
      EscapePathAppend(a[1..], b);
    }
  }

  /** The escape works character by character: one character is escaped
      exactly when it is in the class, and the escape of a concatenation is the
      concatenation of the escapes. */
  lemma {:induction false} EscapePathPointwise(a: string, b: string, c: char)
    ensures EscapePath([c]) == if IsEscaped(c) then ['\\', c] else [c]
    ensures EscapePath(a + b) == EscapePath(a) + EscapePath(b)
  {
    assert [c][1..] == [];
    EscapePathAppend(a, b);
  }

  /** A path the backslash escape protects: no newline, operator, pattern or
      expansion character left bare, and no comment or tilde at its start. */
  predicate EscapeSafe(p: string) {
    p != [] && !IsWordStartSpecial(p[0]) && forall i :: 0 <= i < |p| ==> EscapeSafeChar(p[i])
  }

  /** A character the backslash escape leaves readable as itself. */
  predicate EscapeSafeChar(c: char) {
    c != '\n' && !IsOperatorChar(c) && (IsEscaped(c) || !IsExpansionChar(c))
  }

  lemma {:induction false} EscapeSafeCharStep(c: char, s: string, cur: Option<string>)
    requires EscapeSafeChar(c) && (cur.Some? || !IsWordStartSpecial(c))
    ensures Lex(EscapePath([c]) + s, cur, false) == Lex(s, Some(Cur(cur) + [c]), false)
  {
    assert [c][1..] == [];
    if IsEscaped(c) {
      assert EscapePath([c]) + s == ['\\', c] + s;
      StepBackslash(c, s, cur);
    } else {
      assert EscapePath([c]) + s == [c] + s;
      assert !IsBlank(c) by { assert IsBlank(c) ==> IsJsSpace(c); }
      StepOrdinary(c, s, cur);
    }
  }

  /** One safe character of the path, read back ahead of the rest. */
  lemma {:induction false} EscapeRunStep(c: char, tail: string, cur: Option<string>, rest: string)
    requires EscapeSafeChar(c) && (cur.Some? || !IsWordStartSpecial(c))
    ensures Lex(EscapePath([c] + tail) + rest, cur, false) == Lex(EscapePath(tail) + rest, Some(Cur(cur) + [c]), false)
  {
    EscapePathPointwise([c], tail, c);
    AppendAssoc(EscapePath([c]), EscapePath(tail), rest);
    EscapeSafeCharStep(c, EscapePath(tail) + rest, cur);
  }

  /** A run of safe characters extends the word being read. */
  lemma {:induction false} EscapeRunFrom(p: string, w: string, rest: string)
    requires forall i :: 0 <= i < |p| ==> EscapeSafeChar(p[i])
    ensures Lex(EscapePath(p) + rest, Some(w), false) == Lex(rest, Some(w + p), false)
    decreases |p|
  {
    if p == [] {
      assert EscapePath(p) + rest == rest;
      assert w + p == w;
    } else {
      assert [p[0]] + p[1..] == p;
      EscapeRunStep(p[0], p[1..], Some(w), rest);
      EscapeRunFrom(p[1..], w + [p[0]], rest);
      AppendAssoc(w, [p[0]], p[1..]);
    }
  }

  /** From between words, a run of safe characters becomes the word being read. */
  lemma {:induction false} EscapeRun(p: string, rest: string)
    requires forall i :: 0 <= i < |p| ==> EscapeSafeChar(p[i])
    requires p != [] && !IsWordStartSpecial(p[0])
    ensures Lex(EscapePath(p) + rest, None, false) == Lex(rest, Some(p), false)
  {
    assert [p[0]] + p[1..] == p;
    EscapeRunStep(p[0], p[1..], None, rest);
    assert Cur(None) + [p[0]] == [p[0]];
    EscapeRunFrom(p[1..], [p[0]], rest);
  }

  /** For a path in `EscapeSafe`, the escaped path followed by a blank reads back
      as one word equal to the path. */
  lemma {:induction false} EscapePathReadsBack(p: string, rest: string)
    requires EscapeSafe(p)
    ensures Lex(EscapePath(p) + (" " + rest), None, false) == Prepend([Word(p)], Lex(rest, None, false))
  {
    EscapeRun(p, " " + rest);
    StepBlank(rest, Some(p));
  }

  // ---------------------------------------------------------------------------
  // Where escapePath falls short, and an escape that does not

  /** A word made only of characters that `escapePath` leaves alone and the
      shell reads literally. */
  predicate UnescapedWord(x: string) {
    x != [] && !IsWordStartSpecial(x[0]) && forall i :: 0 <= i < |x| ==> IsOrdinary(x[i]) && !IsEscaped(x[i])
  }

  /** A plain word, read from between words, becomes the word being read. */
  lemma {:induction false} ReadWordThen(a: string, rest: string)
    requires UnescapedWord(a)
    ensures Lex(a + rest, None, false) == Lex(rest, Some(a), false)
  {
    OrdinaryRun(a, None, rest);
    assert Cur(None) + a == a;
  }

  /** A plain word at the end of the line completes the word being read. */
  lemma {:induction false} ReadWordEnd(b: string, cur: Option<string>)
    requires UnescapedWord(b)
    ensures Lex(b, cur, false) == Some([Word(Cur(cur) + b)])
  {
    OrdinaryRun(b, cur, []);
    assert b + [] == b;
  }


  /** `escapePath` leaves a plain word as it is. */
  lemma {:induction false} EscapeUnescapedWord(x: string)
    requires UnescapedWord(x)
    ensures EscapePath(x) == x
  {
    EscapePathUnchanged(x);
  }

  /** One character is escaped exactly when it is in the class. */
  lemma {:induction false} EscapePathOne(c: char)
    ensures EscapePath([c]) == if IsEscaped(c) then ['\\', c] else [c]
  {
    assert [c][1..] == [];
  }

  /** Between two words `escapePath` leaves alone, a character is escaped on
      its own. */
  lemma {:induction false} EscapeCharBetween(a: string, c: char, b: string)
    requires EscapePath(a) == a && EscapePath(b) == b
    ensures EscapePath(a + ([c] + b)) == a + (EscapePath([c]) + b)
  {
    EscapePathAppend(a, [c] + b);
    EscapePathAppend([c], b);
  }

  /** An operator character between two plain words, as in `a&b.mp3`, is left
      unescaped: the shell reads two words around an operator. */
  lemma {:induction false} EscapePathLeavesOperators(a: string, op: char, b: string)
    requires UnescapedWord(a) && UnescapedWord(b) && IsOperatorChar(op) && !IsEscaped(op)
    ensures EscapePath(a + ([op] + b)) == a + ([op] + b)
    ensures Tokens(EscapePath(a + ([op] + b))) == Some([Word(a), Op(op), Word(b)])
  {
    EscapeUnescapedWord(a);
    EscapeUnescapedWord(b);
    EscapeCharBetween(a, op, b);
    EscapePathOne(op);
    ReadOperatorBetween(a, op, b);
  }

  /** Two plain words around an operator character are read as a word, an
      operator and a word. */
  lemma {:induction false} ReadOperatorBetween(a: string, op: char, b: string)
    requires UnescapedWord(a) && UnescapedWord(b) && IsOperatorChar(op)
    ensures Lex(a + ([op] + b), None, false) == Some([Word(a), Op(op), Word(b)])
  {
    ReadWordThen(a, [op] + b);
    StepOperator(op, b, Some(a));
    ReadWordEnd(b, None);
    assert Cur(None) + b == b;
    assert Emit(Some(a)) + [Op(op)] + [Word(b)] == [Word(a), Op(op), Word(b)];
  }

  /** A newline between two plain words is escaped into a backslash-newline
      pair, which the shell removes as a line continuation: `a` newline `b` is
      read as the one word `ab`. */
  lemma {:induction false} EscapePathLosesNewline(a: string, b: string)
    requires UnescapedWord(a) && UnescapedWord(b)
    ensures EscapePath(a + (['\n'] + b)) == a + (['\\', '\n'] + b)
    ensures Tokens(EscapePath(a + (['\n'] + b))) == Some([Word(a + b)])
  {
    EscapeUnescapedWord(a);
    EscapeUnescapedWord(b);
    EscapeCharBetween(a, '\n', b);
    EscapePathOne('\n');
    ReadContinuationBetween(a, b);
  }

  /** Two plain words joined by a backslash-newline pair are read as one word. */
  lemma {:induction false} ReadContinuationBetween(a: string, b: string)
    requires UnescapedWord(a) && UnescapedWord(b)
    ensures Lex(a + (['\\', '\n'] + b), None, false) == Some([Word(a + b)])
  {
    ReadWordThen(a, ['\\', '\n'] + b);
    StepContinuation(b, Some(a));
    ReadWordEnd(b, Some(a));
    assert Cur(Some(a)) + b == a + b;
  }

  /** Characters left bare by the corrected escape. */
  predicate IsBareSafe(c: char) {
    IsOrdinary(c) && !IsWordStartSpecial(c) && !IsJsSpace(c)
  }

  /** How the corrected escape writes one character. */
  function SafeEscapeChar(c: char): (e: string)
    ensures c in e && 1 <= |e| <= 3
  {
    if c == '\n' then "'\n'" else if IsBareSafe(c) then [c] else ['\\', c]
  }

  /** The corrected escape: a backslash before every character that is not
      bare-safe, and a newline written inside single quotes. */
  function EscapePathSafe(p: string): (r: string)
    ensures |r| >= |p|
  {
    if p == [] then [] else SafeEscapeChar(p[0]) + EscapePathSafe(p[1..])
  }

  lemma {:induction false} EscapeSafeStep(c: char, s: string, cur: Option<string>)
    ensures Lex(SafeEscapeChar(c) + s, cur, false) == Lex(s, Some(Cur(cur) + [c]), false)
  {
    if c == '\n' {
      assert SafeEscapeChar(c) + s == "'" + ([c] + ("'" + s));
      StepOpenQuote([c] + ("'" + s), cur);
      StepQuoted(c, "'" + s, Cur(cur));
      StepCloseQuote(s, Some(Cur(cur) + [c]));
    } else if IsBareSafe(c) {
      StepOrdinary(c, s, cur);
    } else {
      StepBackslash(c, s, cur);
    }
  }

  /** One character of the path under the corrected escape, read back ahead
      of the rest. */
  lemma {:induction false} EscapeSafeRunStep(c: char, tail: string, cur: Option<string>, rest: string)
    ensures Lex(EscapePathSafe([c] + tail) + rest, cur, false) == Lex(EscapePathSafe(tail) + rest, Some(Cur(cur) + [c]), false)
  {
    assert ([c] + tail)[0] == c && ([c] + tail)[1..] == tail;
    AppendAssoc(SafeEscapeChar(c), EscapePathSafe(tail), rest);
    EscapeSafeStep(c, EscapePathSafe(tail) + rest, cur);
  }

  /** Any run of characters under the corrected escape extends the word
      being read. */
  lemma {:induction false} EscapeSafeRunFrom(p: string, w: string, rest: string)
    ensures Lex(EscapePathSafe(p) + rest, Some(w), false) == Lex(rest, Some(w + p), false)
    decreases |p|
  {
    if p == [] {
      assert EscapePathSafe(p) + rest == rest;
      assert w + p == w;
    } else {
      assert [p[0]] + p[1..] == p;
      EscapeSafeRunStep(p[0], p[1..], Some(w), rest);
      EscapeSafeRunFrom(p[1..], w + [p[0]], rest);
      AppendAssoc(w, [p[0]], p[1..]);
    }
  }

  /** From between words, any non-empty path under the corrected escape
      becomes the word being read. */
  lemma {:induction false} EscapeSafeRun(p: string, rest: string)
    requires p != []
    ensures Lex(EscapePathSafe(p) + rest, None, false) == Lex(rest, Some(p), false)
  {
    assert [p[0]] + p[1..] == p;
    EscapeSafeRunStep(p[0], p[1..], None, rest);
    assert Cur(None) + [p[0]] == [p[0]];
    EscapeSafeRunFrom(p[1..], [p[0]], rest);
  }

  /** Every non-empty path, whatever its characters, reads back as one word
      equal to itself after the corrected escape. */
  lemma {:induction false} EscapePathSafeReadsBack(p: string, rest: string)
    requires p != []
    ensures Lex(EscapePathSafe(p) + (" " + rest), None, false) == Prepend([Word(p)], Lex(rest, None, false))
  {
    EscapeSafeRun(p, " " + rest);
    StepBlank(rest, Some(p));
  }

  /** The corrected escape agrees with `escapePath` on the paths the latter
      already handles without any escaping. */
  lemma {:induction false} EscapePathSafeAgrees(p: string)
    requires forall i :: 0 <= i < |p| ==> IsBareSafe(p[i])
    ensures EscapePathSafe(p) == EscapePath(p) == p
    decreases |p|
  {
    if p != [] {
      assert IsBareSafe(p[0]) && !IsEscaped(p[0]);
      EscapePathSafeAgrees(p[1..]);
      assert [p[0]] + p[1..] == p;
    }
  }
}
