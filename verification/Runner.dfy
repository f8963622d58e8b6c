/** Running configured commands (internal/runner/process.go) and reporting which one failed
    (internal/worker/runtime.go). */
module Runner {
  import opened Text

  datatype Process = Process(exitCode: int, output: string)

  /** What running a command comes to: its result, and whether there was an error besides. A command
      that could not be started has an error and the exit code 0. */
  datatype Outcome = Outcome(process: Process, error: bool)

  /** The shell: it may answer differently each time, depending on all that ran before. */
  type Shell = (seq<Process>, string) -> Outcome

  datatype Result = Result(passed: bool, processes: seq<Process>)

  predicate Succeeds(o: Outcome) {
    !o.error && o.process.exitCode == 0
  }

  /** The commands one after the other, up to the first that does not succeed. */
  function RunOf(commands: seq<string>, sh: Shell): Result {
    if commands == [] then Result(true, [])
    else
      var before := RunOf(commands[..|commands| - 1], sh);
      if !before.passed then before
      else
        var o := sh(before.processes, commands[|commands| - 1]);
        Result(Succeeds(o), before.processes + [o.process])
  }

  lemma {:induction false} FailureStays(commands: seq<string>, i: nat, sh: Shell)
    requires i <= |commands| && !RunOf(commands[..i], sh).passed
    ensures RunOf(commands, sh) == RunOf(commands[..i], sh)
  {
    if i < |commands| {
      var front := commands[..|commands| - 1];
      assert front[..i] == commands[..i];
      FailureStays(front, i, sh);
    } else {
      assert commands[..i] == commands;
    }
  }

  /** There was an error with the last command that ran. */
  predicate LastError(commands: seq<string>, sh: Shell, processes: seq<Process>) {
    var n := |processes|;
    0 < n <= |commands| && sh(processes[..n - 1], commands[n - 1]).error
  }

  method RunTestCommands(commands: seq<string>, sh: Shell) returns (r: Result, error: bool)
    ensures r == RunOf(commands, sh)
    ensures error <==> LastError(commands, sh, r.processes)
    ensures error ==> !r.passed
  {
    r := Result(true, []);
    for i := 0 to |commands|
      invariant r.passed && r == RunOf(commands[..i], sh) && |r.processes| == i
      invariant !LastError(commands, sh, r.processes)
    {
      assert commands[..i + 1][..i] == commands[..i];
      var o := sh(r.processes, commands[i]);
      ghost var before := r.processes;
      r := r.(processes := r.processes + [o.process]);
      assert r.processes[..i] == before;
      if o.error || o.process.exitCode != 0 {
        r := r.(passed := false);
        FailureStays(commands, i + 1, sh);
        return r, o.error;
      }
    }
    assert commands[..|commands|] == commands;
    return r, false;
  }

  /** The k-th command ran after those before it, and this is its result. */
  ghost predicate RanAt(commands: seq<string>, sh: Shell, processes: seq<Process>, k: nat) {
    k < |processes| && k < |commands| && processes[k] == sh(processes[..k], commands[k]).process
  }

  ghost predicate SucceedsAt(commands: seq<string>, sh: Shell, processes: seq<Process>, k: nat) {
    RanAt(commands, sh, processes, k) && Succeeds(sh(processes[..k], commands[k]))
  }

  /** The commands ran in order; each but the last one that ran succeeded; and the run passed just if
      all ran and succeeded. */
  ghost predicate Ran(commands: seq<string>, sh: Shell, r: Result) {
    var n := |r.processes|;
    && n <= |commands|
    && (forall k | 0 <= k < n :: RanAt(commands, sh, r.processes, k))
    && (forall k | 0 <= k < n - 1 :: SucceedsAt(commands, sh, r.processes, k))
    && (r.passed <==> n == |commands| && forall k | 0 <= k < n :: SucceedsAt(commands, sh, r.processes, k))
    && (!r.passed ==> n > 0 && !SucceedsAt(commands, sh, r.processes, n - 1))
  }

  lemma {:induction false} RunShape(commands: seq<string>, sh: Shell)
    ensures Ran(commands, sh, RunOf(commands, sh))
  {
    if commands != [] {
      var front := commands[..|commands| - 1];
      RunShape(front, sh);
      RanFurther(commands, sh, RunOf(front, sh), RunOf(commands, sh));
    }
  }

  lemma RanFurther(commands: seq<string>, sh: Shell, a: Result, b: Result)
    requires commands != [] && Ran(commands[..|commands| - 1], sh, a)
    requires !a.passed ==> b == a
    requires a.passed ==>
               var o := sh(a.processes, commands[|commands| - 1]);
               b == Result(Succeeds(o), a.processes + [o.process])
    ensures Ran(commands, sh, b)
  {
    var front, n := commands[..|commands| - 1], |a.processes|;
    forall k | 0 <= k < n
      ensures RanAt(commands, sh, b.processes, k)
      ensures SucceedsAt(commands, sh, b.processes, k) <==> SucceedsAt(front, sh, a.processes, k)
    {
      assert RanAt(front, sh, a.processes, k);
      assert b.processes[..k] == a.processes[..k];
    }
    if a.passed {
      assert b.processes[..n] == a.processes;
      forall k | 0 <= k < n
        ensures SucceedsAt(commands, sh, b.processes, k)
      {
        assert SucceedsAt(front, sh, a.processes, k);
      }
      assert RanAt(commands, sh, b.processes, n);
      assert SucceedsAt(commands, sh, b.processes, n) <==> b.passed;
    }
  }

  // ------------------------------------------------------------------------ the report

  method FirstFailedProcessIndex(r: Result) returns (index: int)
    ensures index == FirstFailed(r.processes, r.passed)
  {
    for i := 0 to |r.processes|
      invariant forall k | 0 <= k < i :: r.processes[k].exitCode == 0
    {
      if r.processes[i].exitCode != 0 {
        FirstNonZero(r.processes, i);
        return i;
      }
    }
    NoNonZero(r.processes);
    if !r.passed && |r.processes| > 0 {
      return |r.processes| - 1;
    }
    return -1;
  }

  /** The first process with a non-zero exit code, if any. */
  function NonZero(processes: seq<Process>): Option<nat> {
    if processes == [] then None
    else
      var n := |processes| - 1;
      if NonZero(processes[..n]).Some? then NonZero(processes[..n])
      else if processes[n].exitCode != 0 then Some(n) else None
  }

  function FirstFailed(processes: seq<Process>, passed: bool): int {
    if NonZero(processes).Some? then NonZero(processes).value
    else if !passed && processes != [] then |processes| - 1 else -1
  }

  lemma {:induction false} NoNonZero(processes: seq<Process>)
    requires forall k | 0 <= k < |processes| :: processes[k].exitCode == 0
    ensures NonZero(processes).None?
  {
    if processes != [] {
      NoNonZero(processes[..|processes| - 1]);
    }
  }

  lemma {:induction false} FirstNonZero(processes: seq<Process>, i: nat)
    requires i < |processes| && processes[i].exitCode != 0
    requires forall k | 0 <= k < i :: processes[k].exitCode == 0
    ensures NonZero(processes) == Some(i)
  {
    var front := processes[..|processes| - 1];
    if i < |front| {
      FirstNonZero(front, i);
    } else {
      NoNonZero(front);
    }
  }

  datatype Status = Passed | Failed(exitCode: int)

  /** The status line of each process in publicProcessReport. */
  method Statuses(r: Result) returns (lines: seq<Status>)
    ensures |lines| == |r.processes|
    ensures forall i | 0 <= i < |lines| ::
              lines[i] == if i == FirstFailed(r.processes, r.passed) then Failed(r.processes[i].exitCode) else Passed
  {
    var failed := FirstFailedProcessIndex(r);
    lines := [];
    for i := 0 to |r.processes|
      invariant |lines| == i
      invariant forall k | 0 <= k < i :: lines[k] == if k == failed then Failed(r.processes[k].exitCode) else Passed
    {
      lines := lines + [if i == failed then Failed(r.processes[i].exitCode) else Passed];
    }
  }

  /** In a run that did not pass, the process that the report marks is the last one that ran, which is
      the one that failed; in a run that passed it marks none. */
  lemma {:induction false} ReportMarksTheFailure(commands: seq<string>, sh: Shell)
    ensures var r := RunOf(commands, sh);
            FirstFailed(r.processes, r.passed) == if r.passed then -1 else |r.processes| - 1
  {
    RunShape(commands, sh);
    var r := RunOf(commands, sh);
    var n := |r.processes|;
    forall k | 0 <= k < (if r.passed then n else n - 1)
      ensures r.processes[k].exitCode == 0
    {
      assert SucceedsAt(commands, sh, r.processes, k);
    }
    if !r.passed && r.processes[n - 1].exitCode != 0 {
      FirstNonZero(r.processes, n - 1);
    } else {
      NoNonZero(r.processes);
    }
  }
}
