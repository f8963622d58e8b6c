/** Two things one would like to hold of every pull request, and exactly when they do. */
module Limits {
  import opened Text
  import opened Queue
  import opened Lifecycle
  import opened Implementation
  import opened Guarantees

  /** The last visual review in a log. */
  function LastReview(log: Log): Option<Event> {
    if log == [] then None
    else if log[|log| - 1].Visual? then Some(log[|log| - 1])
    else LastReview(log[..|log| - 1])
  }

  predicate TestsPassed(log: Log) {
    Tests(true) in log
  }

  predicate ReviewHolds(log: Log) {
    match LastReview(log)
    case Some(review) => review.Visual? ==> Passed(review)
    case None => true
  }

  ghost predicate Asked(cfg: Config, o: Oracle, command: string, p: nat) {
    p < |JobRun(cfg, o, command)| && RequestsPR(JobRun(cfg, o, command)[p])
  }

  /** Whatever the surroundings do, the tests passed at some time before a pull request. */
  ghost predicate AlwaysTested(cfg: Config) {
    forall o, command, p: nat | Asked(cfg, o, command, p) :: TestsPassed(JobRun(cfg, o, command)[..p])
  }

  /** Whatever the surroundings do, the last visual review before a pull request passed. */
  ghost predicate AlwaysReviewed(cfg: Config) {
    forall o, command, p: nat | Asked(cfg, o, command, p) :: ReviewHolds(JobRun(cfg, o, command)[..p])
  }

  // ----------------------------------------------------------- where they hold

  lemma TestsStand(cfg: Config, o: Oracle, command: string, p: nat)
    requires Asked(cfg, o, command, p) && !cfg.visualCommands
    ensures TestsPassed(JobRun(cfg, o, command)[..p])
  {
    RequestIsJustified(cfg, o, command, p);
    var log := JobRun(cfg, o, command);
    assert log[..p][p - 3] == log[..p - 2][p - 3];
  }

  lemma {:induction false} CountsShrink(log: Log, n: nat)
    requires n <= |log|
    ensures VisualRuns(log[..n]) <= VisualRuns(log)
  {
    if n == |log| {
      assert log[..n] == log;
    } else {
      CountsShrink(log[..|log| - 1], n);
      assert log[..|log| - 1][..n] == log[..n];
    }
  }

  lemma {:induction false} ReviewCounted(log: Log, v: nat)
    requires v < |log| && log[v].Visual?
    ensures VisualRuns(log) >= 1
    ensures VisualRuns(log) == 1 ==> LastReview(log) == Some(log[v])
  {
    var front := log[..|log| - 1];
    if v < |front| {
      assert front[v] == log[v];
      ReviewCounted(front, v);
    }
  }

  lemma PublishCounts(cfg: Config, o: Oracle, log: Log)
    ensures VisualRuns(Publish(cfg, o, log)) == VisualRuns(log)
  {
    var diff := log + [Diff(o.files(log))];
    CountOne(log, Diff(o.files(log)));
    PutCounts(o, diff, Failed);
    var asked := Put(o, diff, CreatingPR);
    PutCounts(o, diff, CreatingPR);
    PutCounts(o, asked, Failed);
    PutCounts(o, asked, Done);
    var pr := o.pullRequest(asked);
    var answered := asked + [Did(OpenPR(pr))];
    CountOne(asked, Did(OpenPR(pr)));
    PutCounts(o, answered, Failed);
    if pr.Some? {
      CountOne(answered, Did(Number(pr.value, o.fault(answered))));
      PutCounts(o, answered + [Did(Number(pr.value, o.fault(answered)))], Done);
    }
  }

  lemma ImplementationCounts(cfg: Config, o: Oracle, log: Log)
    ensures VisualRuns(ImplementationRun(cfg, o, log)) <= VisualRuns(log) + MaxVisual(cfg)
  {
    var begun := log + [Did(Begin(Implementing, o.fault(log)))];
    CountOne(log, Did(Begin(Implementing, o.fault(log))));
    PutCounts(o, begun, Failed);
    BuiltCounts(cfg, o, begun, o.issueImages(begun));
  }

  lemma BuiltCounts(cfg: Config, o: Oracle, begun: Log, base: seq<string>)
    ensures var t := Turns(cfg, o, base, Start(o, begun, base));
            VisualRuns(if t.Break? then Publish(cfg, o, t.log) else t.log) <= VisualRuns(begun) + MaxVisual(cfg)
  {
    LoopIsBounded(cfg, o, begun, base);
    PublishCounts(cfg, o, LogOf(Turns(cfg, o, base, Start(o, begun, base))));
  }

  /** The log on which the implementation starts: what the preparations left. */
  function Prelude(cfg: Config, o: Oracle): Log {
    var first := if cfg.setupCommands then RunSetup(o, []) else [];
    if cfg.playwright then RunSetup(o, first) else first
  }

  predicate PreludeWorks(cfg: Config, o: Oracle) {
    && Prepared(cfg, o, [])
    && (cfg.setupCommands ==> o.setup([]))
    && (cfg.playwright ==> o.setup(if cfg.setupCommands then RunSetup(o, []) else []))
  }

  predicate Implements(command: string) {
    command == "implement" || command == "fix"
  }

  lemma PlaywrightRuns(cfg: Config, o: Oracle, log: Log, command: string)
    requires Implements(command) && (cfg.playwright ==> o.setup(log))
    ensures WithPlaywright(cfg, o, log, command)
         == ImplementationRun(cfg, o, if cfg.playwright then RunSetup(o, log) else log)
  {
  }

  lemma PreludeRuns(cfg: Config, o: Oracle, command: string)
    requires Implements(command) && PreludeWorks(cfg, o)
    ensures JobRun(cfg, o, command) == ImplementationRun(cfg, o, Prelude(cfg, o))
  {
    PlaywrightRuns(cfg, o, if cfg.setupCommands then RunSetup(o, []) else [], command);
  }

  lemma SetupSeesNothing(o: Oracle, log: Log)
    requires VisualRuns(log) == 0 && forall i | 0 <= i < |log| :: log[i].Setup?
    ensures VisualRuns(RunSetup(o, log)) == 0 && forall i | 0 <= i < |RunSetup(o, log)| :: RunSetup(o, log)[i].Setup?
  {
    CountOne(log, Setup(o.setup(log)));
  }

  lemma PreludeSeesNothing(cfg: Config, o: Oracle)
    ensures forall i | 0 <= i < |Prelude(cfg, o)| :: Prelude(cfg, o)[i].Setup?
    ensures VisualRuns(Prelude(cfg, o)) == 0
  {
    SetupSeesNothing(o, []);
    SetupSeesNothing(o, if cfg.setupCommands then RunSetup(o, []) else []);
  }

  /** Only a run of an implementation that got through its preparations asks for a pull request. */
  lemma AskedPrelude(cfg: Config, o: Oracle, command: string, p: nat)
    requires Asked(cfg, o, command, p)
    ensures PreludeWorks(cfg, o) && Implements(command)
  {
  }

  // Without visual commands there is no review at all.

  lemma VerifiedUnseen(cfg: Config, o: Oracle, base: seq<string>, s: Loop, log: Log)
    requires !cfg.visualCommands
    ensures VisualRuns(LogOf(Verified(cfg, o, base, s, log))) == VisualRuns(log)
  {
    var asked := Put(o, log, Testing);
    PutCounts(o, log, Testing);
    var tested := RunTests(o, asked);
    CountOne(asked, Tests(o.tests(asked)));
    RetryCounts(cfg, o, s, tested, o.publicImages(tested), base);
  }

  lemma AnsweredUnseen(cfg: Config, o: Oracle, base: seq<string>, s: Loop, log: Log, answer: Answer)
    requires !cfg.visualCommands
    ensures VisualRuns(LogOf(Answered(cfg, o, base, s, log, answer))) == VisualRuns(log)
  {
    match answer
    case Broke =>
      RetryCounts(cfg, o, s, log, o.publicImages(log), base);
    case Revise =>
      PutCounts(o, log, WaitingHuman);
    case Completed =>
      CompletedUnseen(cfg, o, base, s, log);
  }

  lemma CompletedUnseen(cfg: Config, o: Oracle, base: seq<string>, s: Loop, log: Log)
    requires !cfg.visualCommands
    ensures VisualRuns(LogOf(Answered(cfg, o, base, s, log, Completed))) == VisualRuns(log)
  {
    if !s.pending {
      VerifiedUnseen(cfg, o, base, s, log);
    } else {
      CountOne(log, Print(o.fingerprint(log)));
      VerifiedUnseen(cfg, o, base, s.(pending := false, mark := ""), Fingerprint(o, log));
    }
  }

  lemma TurnUnseen(cfg: Config, o: Oracle, base: seq<string>, s: Loop)
    requires !cfg.visualCommands
    ensures VisualRuns(LogOf(TakeTurn(cfg, o, base, s))) == VisualRuns(s.log)
  {
    var log := if s.repair > 0 then Put(o, s.log, Implementing) else s.log;
    PutCounts(o, s.log, Implementing);
    CountOne(log, Codex(s.inputs, o.codex(log)));
    AnsweredUnseen(cfg, o, base, s, RunCodex(o, log, s.inputs), o.codex(log));
  }

  lemma {:induction false} LoopUnseen(cfg: Config, o: Oracle, base: seq<string>, s: Loop)
    requires InBudget(cfg, s) && !cfg.visualCommands
    ensures VisualRuns(LogOf(Turns(cfg, o, base, s))) == VisualRuns(s.log)
    decreases Budget(cfg, s)
  {
    TurnUnseen(cfg, o, base, s);
    TurnSpends(cfg, o, base, s);
    var t := TakeTurn(cfg, o, base, s);
    if t.Again? {
      LoopUnseen(cfg, o, base, t.next);
    }
  }

  lemma ImplementationUnseen(cfg: Config, o: Oracle, log: Log)
    requires !cfg.visualCommands
    ensures VisualRuns(ImplementationRun(cfg, o, log)) == VisualRuns(log)
  {
    var begun := log + [Did(Begin(Implementing, o.fault(log)))];
    CountOne(log, Did(Begin(Implementing, o.fault(log))));
    PutCounts(o, begun, Failed);
    BuiltUnseen(cfg, o, begun, o.issueImages(begun));
  }

  lemma BuiltUnseen(cfg: Config, o: Oracle, begun: Log, base: seq<string>)
    requires !cfg.visualCommands
    ensures var t := Turns(cfg, o, base, Start(o, begun, base));
            VisualRuns(if t.Break? then Publish(cfg, o, t.log) else t.log) == VisualRuns(begun)
  {
    LoopUnseen(cfg, o, base, Start(o, begun, base));
    PublishCounts(cfg, o, LogOf(Turns(cfg, o, base, Start(o, begun, base))));
  }

  lemma {:induction false} NoReview(log: Log)
    requires VisualRuns(log) == 0
    ensures LastReview(log).None?
  {
    if log != [] {
      NoReview(log[..|log| - 1]);
    }
  }

  /** The review that a pull request rests on when there are visual commands. */
  lemma BackingReview(cfg: Config, o: Oracle, command: string, p: nat) returns (v: nat)
    requires Asked(cfg, o, command, p) && cfg.visualCommands
    ensures 2 <= v < p < |JobRun(cfg, o, command)|
    ensures var log := JobRun(cfg, o, command);
            && log[v].Visual? && Passed(log[v])
            && (log[v - 2] == Tests(true) || (log[v - 2].Codex? && log[v - 2].answer == Revise))
  {
    var log := JobRun(cfg, o, command);
    RequestIsJustified(cfg, o, command, p);
    var early := log[..p - 2][..p - 4];
    var w :| Backed(early, w, log[..p - 2][p - 3].mark.value);
    v := w;
    assert log[v] == early[v] && log[v - 2] == early[v - 2];
  }

  lemma FewReviews(cfg: Config, o: Oracle, command: string, p: nat)
    requires Asked(cfg, o, command, p)
    ensures VisualRuns(JobRun(cfg, o, command)[..p]) <= if cfg.visualCommands then MaxVisual(cfg) else 0
  {
    AskedPrelude(cfg, o, command, p);
    PreludeRuns(cfg, o, command);
    PreludeSeesNothing(cfg, o);
    CountsShrink(JobRun(cfg, o, command), p);
    if cfg.visualCommands {
      ImplementationCounts(cfg, o, Prelude(cfg, o));
    } else {
      ImplementationUnseen(cfg, o, Prelude(cfg, o));
    }
  }

  lemma ReviewStands(cfg: Config, o: Oracle, command: string, p: nat)
    requires Asked(cfg, o, command, p) && (cfg.visualCommands ==> MaxVisual(cfg) == 1)
    ensures ReviewHolds(JobRun(cfg, o, command)[..p])
  {
    var before := JobRun(cfg, o, command)[..p];
    FewReviews(cfg, o, command, p);
    if !cfg.visualCommands {
      NoReview(before);
    } else {
      var v := BackingReview(cfg, o, command, p);
      assert before[v] == JobRun(cfg, o, command)[v];
      ReviewCounted(before, v);
    }
  }

  // ------------------------------------------------------- where they fail

  /** Surroundings in which everything works, but Codex asks to revise the plan until the visual
      review has run k times, of which only the first passes. */
  function Wavering(k: nat): Oracle {
    Oracle(
      log => NoFault,
      (log, check) => true,
      log => true,
      log => [],
      log => if VisualRuns(log) < k then Revise else Completed,
      log => true,
      log => if VisualRuns(log) == 0 then (true, ["shot.png"]) else (false, []),
      log => [],
      log => Some("same"),
      log => Some([]),
      log => true,
      log => Some(1))
  }

  /** After v reviews, all asked for by a Codex that wavers. */
  ghost predicate Waits(s: Loop, v: nat) {
    && !TestsPassed(s.log) && VisualRuns(s.log) == v && s.visual == v
    && s.repair == (if v == 2 then 1 else 0)
    && (v > 0 ==> s.pending && s.mark == "same" && LastReview(s.log).Some? && LastReview(s.log).value.Visual?
                  && (Passed(LastReview(s.log).value) <==> v == 1))
  }

  lemma Adds(log: Log, e: Event)
    ensures TestsPassed(log + [e]) <==> TestsPassed(log) || e == Tests(true)
    ensures LastReview(log + [e]) == if e.Visual? then Some(e) else LastReview(log)
    ensures VisualRuns(log + [e]) == VisualRuns(log) + if e.Visual? then 1 else 0
  {
    CountOne(log, e);
    assert (log + [e])[..|log|] == log;
  }

  lemma WaversLooks(cfg: Config, k: nat, s: Loop, v: nat, ran: Log)
    requires k <= 2 && v < 2 && Waits(s, v)
    requires !TestsPassed(ran) && VisualRuns(ran) == v && LastReview(ran) == LastReview(s.log)
    ensures var t := Reviewed(cfg, Wavering(k), [], s, ran);
            t.Again? && Waits(t.next, v + 1)
  {
    var o := Wavering(k);
    var asked := Put(o, ran, Testing);
    Adds(ran, Did(Set(Testing, NoFault)));
    Adds(asked, Look(o, asked));
    Adds(RunVisual(o, asked), Print(Some("same")));
  }

  lemma WaversOnce(cfg: Config, k: nat, s: Loop, v: nat)
    requires cfg.visualCommands && v < k <= 2 && k <= MaxVisual(cfg) && Waits(s, v)
    ensures var t := TakeTurn(cfg, Wavering(k), [], s);
            t.Again? && Waits(t.next, v + 1)
  {
    var ran := RunCodex(Wavering(k), s.log, s.inputs);
    Adds(s.log, Codex(s.inputs, Revise));
    WaversLooks(cfg, k, s, v, ran);
  }

  lemma WaversConfirms(cfg: Config, k: nat, s: Loop, log: Log)
    requires s.pending && s.mark == "same" && !TestsPassed(log) && VisualRuns(log) == k
    ensures var t := Answered(cfg, Wavering(k), [], s, RunCodex(Wavering(k), log, s.inputs), Completed);
            && t.Break? && !TestsPassed(t.log) && LastReview(t.log) == LastReview(log)
  {
    Adds(log, Codex(s.inputs, Completed));
    Adds(RunCodex(Wavering(k), log, s.inputs), Print(Some("same")));
  }

  lemma WaversOut(cfg: Config, k: nat, s: Loop)
    requires 1 <= k <= 2 && Waits(s, k)
    ensures var t := TakeTurn(cfg, Wavering(k), [], s);
            && t.Break? && !TestsPassed(t.log) && LastReview(t.log) == LastReview(s.log)
  {
    if s.repair > 0 {
      Adds(s.log, Did(Set(Implementing, NoFault)));
      WaversConfirms(cfg, k, s, Put(Wavering(k), s.log, Implementing));
    } else {
      WaversConfirms(cfg, k, s, s.log);
    }
  }

  /** The way out that a wavering Codex leaves: untested, and after a review that may have failed. */
  ghost predicate WaysOut(t: Turn, k: nat) {
    && t.Break? && !TestsPassed(t.log)
    && LastReview(t.log).Some? && LastReview(t.log).value.Visual?
    && (Passed(LastReview(t.log).value) <==> k == 1)
  }

  lemma {:induction false} WaversThrough(cfg: Config, k: nat, s: Loop, v: nat)
    requires cfg.visualCommands && 1 <= k <= 2 && k <= MaxVisual(cfg) && InBudget(cfg, s)
    requires v <= k && Waits(s, v)
    ensures WaysOut(Turns(cfg, Wavering(k), [], s), k)
    decreases k - v
  {
    TurnSpends(cfg, Wavering(k), [], s);
    if v < k {
      WaversOnce(cfg, k, s, v);
      WaversThrough(cfg, k, TakeTurn(cfg, Wavering(k), [], s).next, v + 1);
    } else {
      WaversOut(cfg, k, s);
    }
  }

  /** The gate lets everything through, and the request follows. */
  lemma WaversPublish(cfg: Config, k: nat, log: Log)
    ensures var end := Publish(cfg, Wavering(k), log);
            && |end| > |log| + 2 && RequestsPR(end[|log| + 2])
            && (TestsPassed(end[..|log| + 2]) <==> TestsPassed(log))
            && LastReview(end[..|log| + 2]) == LastReview(log)
  {
    var o := Wavering(k);
    var diff := log + [Diff(Some([]))];
    Adds(log, Diff(Some([])));
    Adds(diff, Did(Set(CreatingPR, NoFault)));
    assert Publish(cfg, o, log)[..|log| + 2] == Put(o, diff, CreatingPR);
  }

  lemma {:induction false} PreludeQuiet(log: Log)
    requires forall i | 0 <= i < |log| :: log[i].Setup?
    ensures !TestsPassed(log)
  {
  }

  lemma WaversRun(cfg: Config, k: nat, command: string) returns (p: nat)
    requires Implements(command) && cfg.visualCommands && 1 <= k <= 2 && k <= MaxVisual(cfg)
    ensures Asked(cfg, Wavering(k), command, p)
    ensures var before := JobRun(cfg, Wavering(k), command)[..p];
            && !TestsPassed(before)
            && LastReview(before).Some? && LastReview(before).value.Visual?
            && (Passed(LastReview(before).value) <==> k == 1)
  {
    var o := Wavering(k);
    PreludeRuns(cfg, o, command);
    PreludeSeesNothing(cfg, o);
    PreludeQuiet(Prelude(cfg, o));
    p := WaversFrom(cfg, k, Prelude(cfg, o));
  }

  lemma WaversFrom(cfg: Config, k: nat, log: Log) returns (p: nat)
    requires cfg.visualCommands && 1 <= k <= 2 && k <= MaxVisual(cfg)
    requires VisualRuns(log) == 0 && !TestsPassed(log)
    ensures var end := ImplementationRun(cfg, Wavering(k), log);
            && p < |end| && RequestsPR(end[p]) && !TestsPassed(end[..p])
            && LastReview(end[..p]).Some? && LastReview(end[..p]).value.Visual?
            && (Passed(LastReview(end[..p]).value) <==> k == 1)
  {
    var o := Wavering(k);
    var begun := log + [Did(Begin(Implementing, NoFault))];
    Adds(log, Did(Begin(Implementing, NoFault)));
    WaversThrough(cfg, k, Start(o, begun, []), 0);
    var end := LogOf(Turns(cfg, o, [], Start(o, begun, [])));
    WaversPublish(cfg, k, end);
    p := |end| + 2;
  }

  // ------------------------------------------------------------ the exact conditions

  /** That the tests pass before every pull request is guaranteed exactly for repositories without
      visual review commands. With them, one passing review asked for by a revision is enough. */
  lemma TestedExactly(cfg: Config)
    ensures AlwaysTested(cfg) <==> !cfg.visualCommands
  {
    if !cfg.visualCommands {
      forall o, command, p: nat | Asked(cfg, o, command, p)
        ensures TestsPassed(JobRun(cfg, o, command)[..p])
      {
        TestsStand(cfg, o, command, p);
      }
    } else {
      var p := WaversRun(cfg, 1, "implement");
    }
  }

  /** That the last visual review passed is guaranteed exactly when there can be only one of them:
      a later review that fails leaves an earlier confirmation pending. */
  lemma ReviewedExactly(cfg: Config)
    ensures AlwaysReviewed(cfg) <==> !cfg.visualCommands || MaxVisual(cfg) == 1
  {
    if !cfg.visualCommands || MaxVisual(cfg) == 1 {
      forall o, command, p: nat | Asked(cfg, o, command, p)
        ensures ReviewHolds(JobRun(cfg, o, command)[..p])
      {
        ReviewStands(cfg, o, command, p);
      }
    } else {
      var p := WaversRun(cfg, 2, "implement");
    }
  }

  /** In the single run, too: unless Codex asked to revise the plan, the tests passed before the request. */
  lemma TestedUnlessRevised(cfg: Config, o: Oracle, command: string, p: nat)
    requires Asked(cfg, o, command, p)
    requires forall i | 0 <= i < p :: var e := JobRun(cfg, o, command)[i]; e.Codex? ==> e.answer != Revise
    ensures TestsPassed(JobRun(cfg, o, command)[..p])
  {
    if cfg.visualCommands {
      var v := BackingReview(cfg, o, command, p);
      var log := JobRun(cfg, o, command);
      assert log[..p][v - 2] == log[v - 2];
    } else {
      TestsStand(cfg, o, command, p);
    }
  }
}
