/** The `Loader` of src/loader.py: a guard around a shared progress display.
    `started` belongs to each instance once `start` sets it, while the task
    table and the display are class attributes, shared by every instance.
    The display (rich's `Progress`) is reduced to what the loader observes of
    it: the task ids it hands out, the completion recorded per task, and
    whether it is running. */
module PyLoader {
  import opened Wrappers

  /** What `Loader` raises: `Exception("Loader already started")` from
      `start`, `Exception("Loader not started")` from `check_if_started`, and
      the `KeyError` of a task name `add_task` never bound. */
  datatype LoaderError = AlreadyStarted | NotStarted | UnknownTask(name: string)

  // ---------------------------------------------------------------------------
  // The specification: the loader's state and what each call does to it

  datatype State = State(started: bool, tasks: map<string, nat>, next: nat, completed: map<nat, int>, live: bool)

  datatype Call = AddTask(name: string) | Start | Update(name: string, progress: int) | Stop

  /** Every bound task id was handed out by the display, which records a
      completion for each of them. */
  predicate Consistent(s: State) {
    (forall name :: name in s.tasks ==> s.tasks[name] < s.next && s.tasks[name] in s.completed) &&
    (forall id :: id in s.completed ==> id < s.next)
  }

  /** One call: the new state and the exception raised, if any. */
  function Apply(s: State, c: Call): (r: (State, Option<LoaderError>))
    ensures r.1.Some? ==> r.0 == s
    ensures r.0.started == (s.started || (c.Start? && r.1.None?))
    ensures r.1.Some? <==> match c
      case AddTask(_) => false
      case Start => s.started
      case Update(name, _) => !s.started || name !in s.tasks
      case Stop => !s.started
  {
    match c
    case AddTask(name) =>
      (s.(tasks := s.tasks[name := s.next], next := s.next + 1, completed := s.completed[s.next := 0]), None)
    case Start =>
      if s.started then (s, Some(AlreadyStarted)) else (s.(started := true, live := true), None)
    case Update(name, progress) =>
      if !s.started then (s, Some(NotStarted))
      else if name !in s.tasks then (s, Some(UnknownTask(name)))
      else (s.(completed := s.completed[s.tasks[name] := progress]), None)
    case Stop =>
      if !s.started then (s, Some(NotStarted)) else (s.(live := false), None)
  }

  /** A sequence of calls, each made whatever the previous one raised. */
  function Run(s: State, calls: seq<Call>): (r: (State, seq<Option<LoaderError>>))
    ensures |r.1| == |calls|
    decreases |calls|
  {
    if calls == [] then (s, [])
    else
      var (t, e) := Apply(s, calls[0]);
      var (u, es) := Run(t, calls[1..]);
      (u, [e] + es)
  }

  /** Every call keeps the task table consistent with the display. */
  lemma {:induction false} ApplyConsistent(s: State, c: Call)
    requires Consistent(s)
    ensures Consistent(Apply(s, c).0)
  {
  }

  /** `add_task` binds the name to a fresh task, replacing an earlier binding,
      and leaves every other name's task alone. */
  lemma {:induction false} AddTaskRebinds(s: State, name: string)
    requires Consistent(s)
    ensures var t := Apply(s, AddTask(name)).0;
      name in t.tasks && t.tasks[name] !in s.completed &&
      (name in s.tasks ==> t.tasks[name] != s.tasks[name]) &&
      forall other :: other in s.tasks && other != name ==> other in t.tasks && t.tasks[other] == s.tasks[other]
  {
  }

  /** `stop` does not clear `started`: `start`, `stop`, `start` raises on the
      second `start`, and so does every `start` after a successful one. */
  lemma {:induction false} RestartRaises(s: State)
    requires !s.started
    ensures Run(s, [Start, Stop, Start]).1 == [None, None, Some(AlreadyStarted)]
  {
    var s1 := Apply(s, Start).0;
    var s2 := Apply(s1, Stop).0;
    assert s1.started && s2.started;
    assert [Start][1..] == [];
    assert Run(s2, [Start]).1 == [Some(AlreadyStarted)];
    assert [Stop, Start][1..] == [Start];
    assert Run(s1, [Stop, Start]).1 == [None, Some(AlreadyStarted)];
    assert [Start, Stop, Start][1..] == [Stop, Start];
  }

  /** Once started, a loader stays started through any calls. */
  lemma {:induction false} StaysStarted(s: State, calls: seq<Call>)
    requires s.started
    ensures Run(s, calls).0.started
    ensures forall i :: 0 <= i < |calls| && calls[i].Start? ==> Run(s, calls).1[i] == Some(AlreadyStarted)
    decreases |calls|
  {
    if calls != [] {
      var t := Apply(s, calls[0]).0;
      StaysStarted(t, calls[1..]);
      forall i | 0 <= i < |calls| && calls[i].Start?
        ensures Run(s, calls).1[i] == Some(AlreadyStarted)
      {
        if i > 0 {
          assert calls[1..][i - 1] == calls[i];
        }
      }
    }
  }

  // ---------------------------------------------------------------------------
  // The classes (src/loader.py:4-30)

  /** The class-wide `tasks` dict. */
  class TaskTable {
    var tasks: map<string, nat>

    constructor ()
      ensures tasks == map[]
    {
      tasks := map[];
    }
  }

  /** The class-wide display: the next task id it hands out, each task's
      completion, and whether it is running. */
  class Display {
    var next: nat
    var completed: map<nat, int>
    var live: bool

    constructor ()
      ensures next == 0 && completed == map[] && !live
    {
      next := 0;
      completed := map[];
      live := false;
    }
  }

  class Loader {
    var started: bool
    const table: TaskTable
    const display: Display

    function Snapshot(): State
      reads this, table, display
    {
      State(started, table.tasks, display.next, display.completed, display.live)
    }

    /** A new instance reads the class attribute `started = False`. */
    constructor (table: TaskTable, display: Display)
      ensures this.table == table && this.display == display && !started
    {
      this.table := table;
      this.display := display;
      started := false;
    }

    /** `add_task`: the display creates a task and the name is bound to it. */
    method AddTask(name: string, total: nat)
      modifies table, display
      ensures Snapshot() == Apply(old(Snapshot()), Call.AddTask(name)).0
    {
      var id := display.next;
      display.next := display.next + 1;
      display.completed := display.completed[id := 0];
      table.tasks := table.tasks[name := id];
    }

    /** `start`. */
    method Start() returns (raised: Option<LoaderError>)
      modifies this, display
      ensures (Snapshot(), raised) == Apply(old(Snapshot()), Call.Start)
    {
      if started {
        return Some(AlreadyStarted);
      }
      started := true;
      display.live := true;
      raised := None;
    }

    /** `check_if_started`. */
    method CheckIfStarted() returns (raised: Option<LoaderError>)
      ensures raised.Some? <==> !started
      ensures raised.Some? ==> raised.value == NotStarted
    {
      raised := if started then None else Some(NotStarted);
    }

    /** `update`: the started check comes before the table lookup. */
    method Update(name: string, progress: int) returns (raised: Option<LoaderError>)
      modifies display
      ensures (Snapshot(), raised) == Apply(old(Snapshot()), Call.Update(name, progress))
    {
      raised := CheckIfStarted();
      if raised.Some? {
        return;
      }
      if name !in table.tasks {
        return Some(UnknownTask(name));
      }
      display.completed := display.completed[table.tasks[name] := progress];
    }

    /** `stop`: stops the display and leaves `started` set. */
    method Stop() returns (raised: Option<LoaderError>)
      modifies display
      ensures (Snapshot(), raised) == Apply(old(Snapshot()), Call.Stop)
    {
      raised := CheckIfStarted();
      if raised.Some? {
        return;
      }
      display.live := false;
    }
  }
}
