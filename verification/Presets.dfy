/** `getPresets` of cli/utils.ts and src/utils.ts (the two bodies are
    identical): the lines `HandBrakeCLI -z` prints are read one by one into an
    insertion-ordered record from category name to preset names. */
module Presets {
  import opened Wrappers
  import opened Text
  import opened Seqs

  /** A JavaScript record with string keys: its keys in insertion order and
      the value stored under each. */
  datatype Record = Record(keys: seq<string>, entries: map<string, seq<string>>)

  /** Every key is listed once, and exactly the keys with a value are listed. */
  predicate WellFormed(m: Record) {
    (forall i, j :: 0 <= i < j < |m.keys| ==> m.keys[i] != m.keys[j]) &&
    (forall k :: k in m.keys ==> k in m.entries) && (forall k :: k in m.entries ==> k in m.keys)
  }

  const Empty := Record([], map[])

  /** `m[k]`, None for `undefined`. */
  function Get(m: Record, k: string): Option<seq<string>> {
    if k in m.entries then Some(m.entries[k]) else None
  }

  /** `m1` and `m2` agree on every key but `c`. */
  ghost predicate SameExcept(m1: Record, m2: Record, c: string) {
    forall k :: k != c ==> Get(m1, k) == Get(m2, k)
  }

  /** `m[k] = v`: a new key goes last, an existing key keeps its place. */
  function Assign(m: Record, k: string, v: seq<string>): (r: Record)
    ensures Get(r, k) == Some(v)
    ensures SameExcept(r, m, k)
    ensures r.keys == if k in m.entries then m.keys else m.keys + [k]
  {
    if k in m.entries then Record(m.keys, m.entries[k := v])
    else Record(m.keys + [k], m.entries[k := v])
  }

  /** Assignment keeps the record well formed. */
  lemma {:induction false} AssignWellFormed(m: Record, k: string, v: seq<string>)
    requires WellFormed(m)
    ensures WellFormed(Assign(m, k, v))
  {
    var r := Assign(m, k, v);
    forall k' | k' in r.keys ensures k' in r.entries {
      if k' != k {
        assert k' in m.keys;
      }
    }
    forall k' | k' in r.entries ensures k' in r.keys {
      if k' != k {
        assert Get(r, k') == Get(m, k');
      }
    }
  }

  /** `line.length - line.trimStart().length`. */
  function LeadingSpaces(line: string): nat {
    |line| - |TrimStart(line)|
  }

  /** `line.includes("/")`. */
  predicate IsCategoryLine(line: string) {
    Contains(line, "/")
  }

  /** Exactly four leading white-space characters. */
  predicate IsPresetLine(line: string) {
    LeadingSpaces(line) == 4
  }

  /** `line.trim().replace("/", "")`. */
  function CategoryName(line: string): string {
    RemoveFirst(Trim(line), '/')
  }

  /** A category header `<name>/` names the category `<name>`; any later `/`
      stays in the name. */
  lemma {:induction false} CategoryNameOfHeader(line: string, name: string, rest: string)
    requires '/' !in name && Trim(line) == name + "/" + rest
    ensures CategoryName(line) == name + rest
  {
    var s := name + "/" + rest;
    assert s[..|name|] == name && s[|name|] == '/';
    IndexOfAt(s, '/', |name|);
    assert s[|name| + 1..] == rest;
  }

  /** What one line adds to the list of its category when a category is open. */
  function PresetText(line: string): (r: seq<string>)
    ensures |r| <= 1
  {
    if IsPresetLine(line) then [Trim(line)] else []
  }

  /** The loop state: the record built so far and the current `category`. */
  datatype State = State(presetMap: Record, category: string)

  /** The state invariant: keys are unique and a non-empty current category
      always has an entry, so `presetMap[category].push` never meets
      `undefined`. */
  predicate Valid(s: State) {
    WellFormed(s.presetMap) && (s.category != "" ==> s.category in s.presetMap.entries)
  }

  /** One iteration of the loop. The list pushed to is the current category's;
      the empty default is never used from a valid state (`StepValid`). */
  function Step(s: State, line: string): State {
    var s1 := if IsCategoryLine(line)
      then State(Assign(s.presetMap, CategoryName(line), []), CategoryName(line))
      else s;
    if s1.category != "" && IsPresetLine(line) then
      var current := if s1.category in s1.presetMap.entries then s1.presetMap.entries[s1.category] else [];
      State(Assign(s1.presetMap, s1.category, current + PresetText(line)), s1.category)
    else s1
  }

  /** The loop over `lines` from state `s`. */
  function RunFrom(s: State, lines: seq<string>): State
    decreases |lines|
  {
    if lines == [] then s else RunFrom(Step(s, lines[0]), lines[1..])
  }

  const Init := State(Empty, "")

  lemma {:induction false} StepValid(s: State, line: string)
    requires Valid(s)
    ensures Valid(Step(s, line))
  {
    var s1 := if IsCategoryLine(line)
      then State(Assign(s.presetMap, CategoryName(line), []), CategoryName(line))
      else s;
    if IsCategoryLine(line) {
      AssignWellFormed(s.presetMap, CategoryName(line), []);
    }
    assert Valid(s1);
    if s1.category != "" && IsPresetLine(line) {
      AssignWellFormed(s1.presetMap, s1.category, s1.presetMap.entries[s1.category] + PresetText(line));
    }
  }

  /** The loop keeps the state invariant, so `push` always finds its list. */
  lemma {:induction false} RunFromValid(s: State, lines: seq<string>)
    requires Valid(s)
    ensures Valid(RunFrom(s, lines))
    decreases |lines|
  {
    if lines != [] {
      StepValid(s, lines[0]);
      RunFromValid(Step(s, lines[0]), lines[1..]);
    }
  }

  /** The record `getPresets` returns for `lines`. */
  function GetPresetsSpec(lines: seq<string>): (m: Record)
    ensures WellFormed(m)
  {
    RunFromValid(Init, lines);
    RunFrom(Init, lines).presetMap
  }

  lemma {:induction false} RunFromAppend(s: State, a: seq<string>, b: seq<string>)
    ensures RunFrom(s, a + b) == RunFrom(RunFrom(s, a), b)
    decreases |a|
  {
    if a == [] {
      assert a + b == b;
    } else {
      assert (a + b)[0] == a[0] && (a + b)[1..] == a[1..] + b;
      RunFromAppend(Step(s, a[0]), a[1..], b);
    }
  }

  lemma {:induction false} RunFromSnoc(s: State, a: seq<string>, line: string)
    ensures RunFrom(s, a + [line]) == Step(RunFrom(s, a), line)
  {
    RunFromAppend(s, a, [line]);
    assert RunFrom(RunFrom(s, a), [line]) == RunFrom(Step(RunFrom(s, a), line), []);
  }

  lemma {:induction false} LoopStep(lines: seq<string>, i: nat, s: State)
    requires i < |lines| && s == RunFrom(Init, lines[..i])
    ensures Step(s, lines[i]) == RunFrom(Init, lines[..i + 1])
  {
    var a := lines[..i];
    var b := lines[..i + 1];
    assert b == a + [lines[i]];
    RunFromSnoc(Init, a, lines[i]);
  }

  /** `getPresets` over the lines `HandBrakeCLI -z` printed. */
  method GetPresets(lines: seq<string>) returns (presetMap: Record)
    ensures presetMap == GetPresetsSpec(lines)
  {
    presetMap := Empty;
    var category := "";
    for i := 0 to |lines|
      invariant State(presetMap, category) == RunFrom(Init, lines[..i])
      invariant Valid(State(presetMap, category))
    {
      var line := lines[i];
      ghost var s0 := State(presetMap, category);
      var numOfSpacesInTheBeginning := |line| - |TrimStart(line)|;
      var isCategory := Contains(line, "/");
      var isPreset := numOfSpacesInTheBeginning == 4;
      if isCategory {
        category := RemoveFirst(Trim(line), '/');
        presetMap := Assign(presetMap, category, []);
      }
      if category != "" && isPreset {
        presetMap := Assign(presetMap, category, presetMap.entries[category] + [Trim(line)]);
      }
      assert State(presetMap, category) == Step(s0, line);
      StepValid(s0, line);
      LoopStep(lines, i, s0);
    }
    assert lines[..|lines|] == lines;
  }

  // ---------------------------------------------------------------------------
  // What the loop computes

  /** The trimmed four-indented lines of `ls`, in order. */
  function PresetTexts(ls: seq<string>): (r: seq<string>)
    ensures |r| <= |ls|
  {
    if ls == [] then [] else PresetText(ls[0]) + PresetTexts(ls[1..])
  }

  /** A line that neither contains `/` nor is indented by exactly four is ignored. */
  lemma {:induction false} IgnoredLine(s: State, line: string)
    requires !IsCategoryLine(line) && !IsPresetLine(line)
    ensures Step(s, line) == s
  {
  }

  /** Until a category line appears nothing is recorded, preset lines included. */
  lemma {:induction false} NothingBeforeFirstCategory(lines: seq<string>)
    requires forall i :: 0 <= i < |lines| ==> !IsCategoryLine(lines[i])
    ensures RunFrom(Init, lines) == Init
    decreases |lines|
  {
    if lines != [] {
      assert Step(Init, lines[0]) == Init;
      NothingBeforeFirstCategory(lines[1..]);
    }
  }

  /** A category line opens its category afresh, holding only the line itself
      when it is also indented by four, and makes it current. */
  lemma {:induction false} CategoryLineOpens(s: State, line: string)
    requires IsCategoryLine(line) && CategoryName(line) != ""
    ensures Step(s, line).category == CategoryName(line)
    ensures Get(Step(s, line).presetMap, CategoryName(line)) == Some(PresetText(line))
    ensures SameExcept(Step(s, line).presetMap, s.presetMap, CategoryName(line))
  {
    var m1 := Assign(s.presetMap, CategoryName(line), []);
    assert m1.entries[CategoryName(line)] == [];
    assert [] + PresetText(line) == PresetText(line);
  }

  /** A line without `/` inside a category appends its preset text. */
  lemma {:induction false} StepInCategory(s: State, line: string)
    requires s.category != "" && s.category in s.presetMap.entries && !IsCategoryLine(line)
    ensures Step(s, line).category == s.category
    ensures Get(Step(s, line).presetMap, s.category) ==
      Some(s.presetMap.entries[s.category] + PresetText(line))
    ensures SameExcept(Step(s, line).presetMap, s.presetMap, s.category)
  {
    var c := s.category;
    var before := s.presetMap.entries[c];
    if IsPresetLine(line) {
      assert Step(s, line) == State(Assign(s.presetMap, c, before + PresetText(line)), c);
    } else {
      assert Step(s, line) == s;
      assert before + PresetText(line) == before;
    }
  }

  /** Within a category, preset lines are appended in order of appearance and
      nothing else changes. */
  lemma {:induction false} PresetsAppendInOrder(s: State, run: seq<string>)
    requires s.category != "" && s.category in s.presetMap.entries
    requires forall i :: 0 <= i < |run| ==> !IsCategoryLine(run[i])
    ensures RunFrom(s, run).category == s.category
    ensures Get(RunFrom(s, run).presetMap, s.category) ==
      Some(s.presetMap.entries[s.category] + PresetTexts(run))
    ensures SameExcept(RunFrom(s, run).presetMap, s.presetMap, s.category)
    decreases |run|
  {
    if run == [] {
      assert s.presetMap.entries[s.category] + PresetTexts(run) == s.presetMap.entries[s.category];
    } else {
      StepInCategory(s, run[0]);
      var rest := run[1..];
      assert forall i :: 0 <= i < |rest| ==> rest[i] == run[i + 1];
      PresetsAppendInOrder(Step(s, run[0]), rest);
      AppendInOrderStep(s, run);
    }
  }

  /** The step of `PresetsAppendInOrder`: the first line, then the rest. */
  lemma {:induction false} AppendInOrderStep(s: State, run: seq<string>)
    requires run != [] && s.category != "" && s.category in s.presetMap.entries
    requires Step(s, run[0]).category == s.category
    requires Get(Step(s, run[0]).presetMap, s.category) == Some(s.presetMap.entries[s.category] + PresetText(run[0]))
    requires SameExcept(Step(s, run[0]).presetMap, s.presetMap, s.category)
    requires var s1 := Step(s, run[0]); var r := RunFrom(s1, run[1..]);
      r.category == s.category &&
      Get(r.presetMap, s.category) == Some(s1.presetMap.entries[s.category] + PresetTexts(run[1..])) &&
      SameExcept(r.presetMap, s1.presetMap, s.category)
    ensures RunFrom(s, run).category == s.category
    ensures Get(RunFrom(s, run).presetMap, s.category) ==
      Some(s.presetMap.entries[s.category] + PresetTexts(run))
    ensures SameExcept(RunFrom(s, run).presetMap, s.presetMap, s.category)
  {
    var c := s.category;
    var s1 := Step(s, run[0]);
    var r := RunFrom(s1, run[1..]);
    assert RunFrom(s, run) == r;
    AppendAssoc(s.presetMap.entries[c], PresetText(run[0]), PresetTexts(run[1..]));
    SameExceptTrans(r.presetMap, s1.presetMap, s.presetMap, c);
  }

  lemma {:induction false} SameExceptTrans(m1: Record, m2: Record, m3: Record, c: string)
    requires SameExcept(m1, m2, c) && SameExcept(m2, m3, c)
    ensures SameExcept(m1, m3, c)
  {
    forall k | k != c
      ensures Get(m1, k) == Get(m3, k)
    {
      assert Get(m1, k) == Get(m2, k);
    }
  }

  /** A line that does not open `c`, read while `c` is not current, leaves
      `c` alone and does not make it current. */
  lemma {:induction false} StepKeepsOther(s: State, line: string, c: string)
    requires s.category != c
    requires IsCategoryLine(line) ==> CategoryName(line) != c
    ensures Step(s, line).category != c
    ensures Get(Step(s, line).presetMap, c) == Get(s.presetMap, c)
  {
  }

  /** A category line naming another category leaves `c` alone, whichever
      category is current. */
  lemma {:induction false} StepLeavesCategory(s: State, line: string, c: string)
    requires IsCategoryLine(line) && CategoryName(line) != c
    ensures Step(s, line).category != c
    ensures Get(Step(s, line).presetMap, c) == Get(s.presetMap, c)
  {
  }

  /** Lines that never open `c`, read while `c` is not current, leave `c` alone. */
  lemma {:induction false} OtherCategoriesKeep(s: State, later: seq<string>, c: string)
    requires s.category != c
    requires forall i :: 0 <= i < |later| ==> IsCategoryLine(later[i]) ==> CategoryName(later[i]) != c
    ensures Get(RunFrom(s, later).presetMap, c) == Get(s.presetMap, c)
    decreases |later|
  {
    if later != [] {
      StepKeepsOther(s, later[0], c);
      assert forall i :: 0 <= i < |later[1..]| ==> later[1..][i] == later[i + 1];
      OtherCategoriesKeep(Step(s, later[0]), later[1..], c);
    }
  }

  /** Lines that start with a category line and never open `c` leave `c` alone. */
  lemma {:induction false} ClosedCategoryKeeps(s: State, later: seq<string>, c: string)
    requires later == [] || IsCategoryLine(later[0])
    requires forall i :: 0 <= i < |later| ==> IsCategoryLine(later[i]) ==> CategoryName(later[i]) != c
    ensures Get(RunFrom(s, later).presetMap, c) == Get(s.presetMap, c)
  {
    if later != [] {
      var s3 := Step(s, later[0]);
      StepLeavesCategory(s, later[0], c);
      assert forall i :: 0 <= i < |later[1..]| ==> later[1..][i] == later[i + 1];
      OtherCategoriesKeep(s3, later[1..], c);
      assert RunFrom(s, later) == RunFrom(s3, later[1..]);
    }
  }

  /** The final list of a category is its last section: the trimmed
      four-indented lines from the last line that opens it (that line
      included) up to the next category line. */
  lemma {:induction false} CategoryIsLastSection(before: seq<string>, open: string, section: seq<string>,
                              later: seq<string>)
    requires IsCategoryLine(open) && CategoryName(open) != ""
    requires forall i :: 0 <= i < |section| ==> !IsCategoryLine(section[i])
    requires later == [] || IsCategoryLine(later[0])
    requires forall i :: 0 <= i < |later| ==> IsCategoryLine(later[i]) ==> CategoryName(later[i]) != CategoryName(open)
    ensures Get(GetPresetsSpec(before + [open] + section + later), CategoryName(open)) ==
      Some(PresetText(open) + PresetTexts(section))
  {
    var c := CategoryName(open);
    var p1 := before + [open];
    var p2 := p1 + section;
    var s0 := RunFrom(Init, before);
    var s1 := Step(s0, open);
    RunFromSnoc(Init, before, open);
    assert RunFrom(Init, p1) == s1;
    CategoryLineOpens(s0, open);
    assert s1.presetMap.entries[c] == PresetText(open);
    var s2 := RunFrom(s1, section);
    RunFromAppend(Init, p1, section);
    assert RunFrom(Init, p2) == s2;
    PresetsAppendInOrder(s1, section);
    assert Get(s2.presetMap, c) == Some(PresetText(open) + PresetTexts(section));
    RunFromAppend(Init, p2, later);
    assert GetPresetsSpec(p2 + later) == RunFrom(s2, later).presetMap;
    ClosedCategoryKeeps(s2, later, c);
  }
}
