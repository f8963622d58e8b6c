/** What every run of an implementation job keeps, whatever Codex, the tests, the visual review,
    the workspace and the queue answer. */
module Guarantees {
  import opened Text
  import opened Queue
  import opened Lifecycle
  import opened Implementation
  import DiffPolicy

  function LogOf(t: Turn): Log {
    match t
    case Again(next) => next.log
    case Break(log) => log
    case Halt(log) => log
  }

  // ------------------------------------------------------------- how often things run

  function CodexRuns(log: Log): nat {
    if log == [] then 0 else CodexRuns(log[..|log| - 1]) + if log[|log| - 1].Codex? then 1 else 0
  }

  function VisualRuns(log: Log): nat {
    if log == [] then 0 else VisualRuns(log[..|log| - 1]) + if log[|log| - 1].Visual? then 1 else 0
  }

  lemma CountOne(log: Log, e: Event)
    ensures CodexRuns(log + [e]) == CodexRuns(log) + if e.Codex? then 1 else 0
    ensures VisualRuns(log + [e]) == VisualRuns(log) + if e.Visual? then 1 else 0
  {
    assert (log + [e])[..|log|] == log;
  }

  lemma PutCounts(o: Oracle, log: Log, state: State)
    ensures CodexRuns(Put(o, log, state)) == CodexRuns(log) && VisualRuns(Put(o, log, state)) == VisualRuns(log)
  {
    CountOne(log, Did(Set(state, o.fault(log))));
  }

  lemma RetryCounts(cfg: Config, o: Oracle, s: Loop, log: Log, images: seq<string>, base: seq<string>)
    ensures var t := Retry(cfg, o, s, log, images, base);
            && CodexRuns(LogOf(t)) == CodexRuns(log) && VisualRuns(LogOf(t)) == VisualRuns(log)
            && (t.Again? ==> t.next.visual == s.visual)
  {
    PutCounts(o, log, WaitingHuman);
  }

  lemma SeenCounts(o: Oracle, log: Log)
    ensures var asked := Put(o, log, Testing);
            && CodexRuns(asked) == CodexRuns(log) && VisualRuns(asked) == VisualRuns(log)
            && CodexRuns(RunVisual(o, asked)) == CodexRuns(log)
            && VisualRuns(RunVisual(o, asked)) == VisualRuns(log) + 1
  {
    PutCounts(o, log, Testing);
    CountOne(Put(o, log, Testing), Look(o, Put(o, log, Testing)));
  }

  lemma ReviewedCounts(cfg: Config, o: Oracle, base: seq<string>, s: Loop, log: Log)
    ensures var t := Reviewed(cfg, o, base, s, log);
            && CodexRuns(LogOf(t)) == CodexRuns(log)
            && VisualRuns(log) <= VisualRuns(LogOf(t)) <= VisualRuns(log) + 1
            && (t.Again? ==> t.next.visual == s.visual + 1 && VisualRuns(t.next.log) == VisualRuns(log) + 1)
  {
    var asked := Put(o, log, Testing);
    SeenCounts(o, log);
    var seen := RunVisual(o, asked);
    if PutFailed(o, log) {
      PutCounts(o, asked, Failed);
    } else if !Passed(Look(o, asked)) {
      RetryCounts(cfg, o, s.(visual := s.visual + 1), seen, Look(o, asked).images, base);
    } else {
      CountOne(seen, Print(o.fingerprint(seen)));
    }
  }

  lemma VerifiedCounts(cfg: Config, o: Oracle, base: seq<string>, s: Loop, log: Log)
    requires s.visual <= MaxVisual(cfg)
    ensures var t := Verified(cfg, o, base, s, log);
            && CodexRuns(LogOf(t)) == CodexRuns(log)
            && VisualRuns(log) <= VisualRuns(LogOf(t)) <= VisualRuns(log) + MaxVisual(cfg) - s.visual
            && (t.Again? ==> t.next.visual - s.visual == VisualRuns(t.next.log) - VisualRuns(log))
  {
    var asked := Put(o, log, Testing);
    PutCounts(o, log, Testing);
    var tested := RunTests(o, asked);
    CountOne(asked, Tests(o.tests(asked)));
    RetryCounts(cfg, o, s, tested, o.publicImages(tested), base);
    PutCounts(o, tested, WaitingHuman);
    ReviewedCounts(cfg, o, base, s, tested);
  }

  lemma AnsweredCounts(cfg: Config, o: Oracle, base: seq<string>, s: Loop, log: Log, answer: Answer)
    requires InBudget(cfg, s)
    ensures var t := Answered(cfg, o, base, s, log, answer);
            && CodexRuns(LogOf(t)) == CodexRuns(log)
            && VisualRuns(log) <= VisualRuns(LogOf(t)) <= VisualRuns(log) + MaxVisual(cfg) - s.visual
            && (t.Again? ==> t.next.visual - s.visual == VisualRuns(t.next.log) - VisualRuns(log))
  {
    match answer
    case Broke =>
      RetryCounts(cfg, o, s, log, o.publicImages(log), base);
    case Revise =>
      ReviewedCounts(cfg, o, base, s, log);
      PutCounts(o, log, WaitingHuman);
    case Completed =>
      CountOne(log, Print(o.fingerprint(log)));
      VerifiedCounts(cfg, o, base, s, log);
      VerifiedCounts(cfg, o, base, s.(pending := false, mark := ""), Fingerprint(o, log));
  }

  /** One turn: one Codex run at most, and a visual run only if the attempt is counted. */
  lemma TurnCounts(cfg: Config, o: Oracle, base: seq<string>, s: Loop)
    requires InBudget(cfg, s)
    ensures var t := TakeTurn(cfg, o, base, s);
            && CodexRuns(LogOf(t)) <= CodexRuns(s.log) + 1
            && VisualRuns(s.log) <= VisualRuns(LogOf(t)) <= VisualRuns(s.log) + MaxVisual(cfg) - s.visual
            && (t.Again? ==> t.next.visual - s.visual == VisualRuns(t.next.log) - VisualRuns(s.log))
  {
    var log := if s.repair > 0 then Put(o, s.log, Implementing) else s.log;
    PutCounts(o, s.log, Implementing);
    CountOne(log, Codex(s.inputs, o.codex(log)));
    AnsweredCounts(cfg, o, base, s, RunCodex(o, log, s.inputs), o.codex(log));
  }

  lemma {:induction false} LoopCounts(cfg: Config, o: Oracle, base: seq<string>, s: Loop)
    requires InBudget(cfg, s)
    ensures var log := LogOf(Turns(cfg, o, base, s));
            && CodexRuns(log) <= CodexRuns(s.log) + Budget(cfg, s) + 1
            && VisualRuns(log) <= VisualRuns(s.log) + MaxVisual(cfg) - s.visual
    decreases Budget(cfg, s)
  {
    TurnSpends(cfg, o, base, s);
    TurnCounts(cfg, o, base, s);
    var t := TakeTurn(cfg, o, base, s);
    if t.Again? {
      LoopCounts(cfg, o, base, t.next);
    }
  }

  /** The loop ends after at most maxRepair + maxVisual + 1 Codex runs and maxVisual visual reviews. */
  lemma LoopIsBounded(cfg: Config, o: Oracle, log: Log, base: seq<string>)
    ensures var end := LogOf(Turns(cfg, o, base, Start(o, log, base)));
            && CodexRuns(end) - CodexRuns(log) <= MaxRepair(cfg) + MaxVisual(cfg) + 1
            && VisualRuns(end) - VisualRuns(log) <= MaxVisual(cfg)
  {
    LoopCounts(cfg, o, base, Start(o, log, base));
  }

  // ------------------------------------------------------- what a pull request rests on

  /** A visual review at position v passed and was fingerprinted as mark. In the same turn, either
      the tests had passed just before, or Codex had asked for a revision of the plan. */
  predicate Backed(log: Log, v: int, mark: Mark) {
    && 2 <= v && v + 1 < |log|
    && log[v].Visual? && Passed(log[v]) && log[v + 1] == Print(Some(mark))
    && log[v - 1] == Did(Set(Testing, NoFault))
    && (log[v - 2] == Tests(true) || (log[v - 2].Codex? && log[v - 2].answer == Revise))
  }

  ghost predicate Confirmed(log: Log, mark: Mark) {
    exists v :: Backed(log, v, mark)
  }

  predicate CodexCompleted(e: Event) {
    e.Codex? && e.answer == Completed
  }

  /** The grounds for leaving the loop. Without visual commands: Codex completed and the tests passed,
      with nothing in between. With visual commands: Codex completed on a workspace whose fingerprint
      is that of an earlier review that passed. */
  ghost predicate Grounds(cfg: Config, log: Log) {
    var n := |log|;
    if cfg.visualCommands then
      && n >= 2 && CodexCompleted(log[n - 2]) && log[n - 1].Print? && log[n - 1].mark.Some?
      && Confirmed(log[..n - 2], log[n - 1].mark.value)
    else
      n >= 3 && CodexCompleted(log[n - 3]) && log[n - 2] == Did(Set(Testing, NoFault)) && log[n - 1] == Tests(true)
  }

  /** A pending confirmation always stands for a review that passed. */
  ghost predicate PendingIsBacked(cfg: Config, s: Loop) {
    s.pending ==> cfg.visualCommands && Confirmed(s.log, s.mark)
  }

  lemma BackedGrows(log: Log, longer: Log, mark: Mark)
    requires log <= longer && Confirmed(log, mark)
    ensures Confirmed(longer, mark)
  {
    var v :| Backed(log, v, mark);
    assert Backed(longer, v, mark);
  }

  predicate EndsTurn(e: Event) {
    e == Tests(true) || (e.Codex? && e.answer == Revise)
  }

  lemma ReviewedBacked(cfg: Config, o: Oracle, base: seq<string>, s: Loop, log: Log)
    requires PendingIsBacked(cfg, s) && s.log <= log && cfg.visualCommands
    requires log != [] && EndsTurn(log[|log| - 1])
    ensures var t := Reviewed(cfg, o, base, s, log);
            !t.Break? && (t.Again? ==> PendingIsBacked(cfg, t.next) && s.log <= t.next.log)
  {
    var t := Reviewed(cfg, o, base, s, log);
    if t.Again? {
      var asked := Put(o, log, Testing);
      var seen := RunVisual(o, asked);
      if Passed(Look(o, asked)) && o.fingerprint(seen).Some? {
        assert Backed(t.next.log, |asked|, o.fingerprint(seen).value);
      } else if s.pending {
        BackedGrows(s.log, t.next.log, s.mark);
      }
    }
  }

  lemma VerifiedBacked(cfg: Config, o: Oracle, base: seq<string>, s: Loop, log: Log)
    requires !s.pending && s.log <= log && log != []
    requires cfg.visualCommands || CodexCompleted(log[|log| - 1])
    ensures var t := Verified(cfg, o, base, s, log);
            && (t.Break? ==> Grounds(cfg, t.log))
            && (t.Again? ==> PendingIsBacked(cfg, t.next))
  {
    var tested := RunTests(o, Put(o, log, Testing));
    if cfg.visualCommands && tested[|tested| - 1] == Tests(true) {
      ReviewedBacked(cfg, o, base, s, tested);
    }
  }

  lemma AnsweredBacked(cfg: Config, o: Oracle, base: seq<string>, s: Loop, log: Log, answer: Answer)
    requires PendingIsBacked(cfg, s) && s.log <= log
    requires log != [] && log[|log| - 1].Codex? && log[|log| - 1].answer == answer && s.log <= log[..|log| - 1]
    ensures var t := Answered(cfg, o, base, s, log, answer);
            && (t.Break? ==> Grounds(cfg, t.log))
            && (t.Again? ==> PendingIsBacked(cfg, t.next))
  {
    match answer
    case Broke =>
      if s.pending {
        BackedGrows(s.log, log, s.mark);
      }
    case Revise =>
      if cfg.visualCommands {
        ReviewedBacked(cfg, o, base, s, log);
      }
    case Completed =>
      if !s.pending {
        VerifiedBacked(cfg, o, base, s, log);
      } else {
        var printed := Fingerprint(o, log);
        BackedGrows(s.log, log[..|log| - 1], s.mark);
        assert printed[..|printed| - 2] == log[..|log| - 1];
        VerifiedBacked(cfg, o, base, s.(pending := false, mark := ""), printed);
      }
  }

  lemma TurnBacked(cfg: Config, o: Oracle, base: seq<string>, s: Loop)
    requires PendingIsBacked(cfg, s)
    ensures var t := TakeTurn(cfg, o, base, s);
            && (t.Break? ==> Grounds(cfg, t.log))
            && (t.Again? ==> PendingIsBacked(cfg, t.next))
  {
    var log := if s.repair > 0 then Put(o, s.log, Implementing) else s.log;
    var ran := RunCodex(o, log, s.inputs);
    assert ran[..|ran| - 1] == log;
    AnsweredBacked(cfg, o, base, s, ran, o.codex(log));
  }

  /** However many turns it takes, the loop is left for the pull request only on these grounds. */
  lemma {:induction false} LoopGrounds(cfg: Config, o: Oracle, base: seq<string>, s: Loop)
    requires InBudget(cfg, s) && PendingIsBacked(cfg, s)
    ensures var t := Turns(cfg, o, base, s);
            t.Break? ==> Grounds(cfg, t.log)
    decreases Budget(cfg, s)
  {
    TurnSpends(cfg, o, base, s);
    TurnBacked(cfg, o, base, s);
    var t := TakeTurn(cfg, o, base, s);
    if t.Again? {
      LoopGrounds(cfg, o, base, t.next);
    }
  }

  // --------------------------------------------------- the acts of a whole run

  function Acts(log: Log): seq<Act> {
    if log == [] then []
    else Acts(log[..|log| - 1]) + if log[|log| - 1].Did? then [log[|log| - 1].act] else []
  }

  /** The phase that a log leads to. */
  function PhaseOf(log: Log): Option<Phase> {
    After(Acts(log))
  }

  lemma PhaseOne(log: Log, e: Event)
    ensures PhaseOf(log + [e])
         == if !e.Did? then PhaseOf(log) else if PhaseOf(log).None? then None else Advance(PhaseOf(log).value, e.act)
  {
    assert (log + [e])[..|log|] == log;
    if e.Did? {
      AfterOne(Acts(log), e.act);
    } else {
      assert Acts(log) + [] == Acts(log);
    }
  }

  lemma PutPhase(o: Oracle, log: Log, state: State)
    requires PhaseOf(log).Some?
    ensures PhaseOf(Put(o, log, state)) == Advance(PhaseOf(log).value, Set(state, o.fault(log)))
  {
    PhaseOne(log, Did(Set(state, o.fault(log))));
  }

  predicate Faultless(e: Event) {
    e.Did? ==> Reliable(e.act)
  }

  ghost predicate AllFaultless(log: Log) {
    forall i | 0 <= i < |log| :: Faultless(log[i])
  }

  /** The worker has left the job in an orderly way, or the queue has failed it. */
  ghost predicate Left(log: Log) {
    && PhaseOf(log).Some?
    && (PhaseOf(log).value == Stopped || (log != [] && !Faultless(log[|log| - 1])))
  }

  /** After a turn the worker is still building, or it has left. */
  ghost predicate TurnPhase(t: Turn) {
    if t.Halt? then Left(t.log) else PhaseOf(LogOf(t)) == Some(Building)
  }

  lemma Looked(log: Log, e: Event)
    requires !e.Did?
    ensures PhaseOf(log + [e]) == PhaseOf(log)
  {
    PhaseOne(log, e);
  }

  /** Writing the last state leaves the job, whatever the queue makes of it. */
  lemma Stops(o: Oracle, log: Log, state: State)
    requires PhaseOf(log).Some? && Advance(PhaseOf(log).value, Set(state, o.fault(log))) == Some(Stopped)
    ensures Left(Put(o, log, state))
  {
    PutPhase(o, log, state);
  }

  lemma BuildingStops(o: Oracle, log: Log)
    requires PhaseOf(log) == Some(Building)
    ensures Left(Put(o, log, Failed)) && Left(Put(o, log, WaitingHuman))
  {
    Stops(o, log, Failed);
    Stops(o, log, WaitingHuman);
  }

  lemma BuildingTests(o: Oracle, log: Log)
    requires PhaseOf(log) == Some(Building)
    ensures PhaseOf(Put(o, log, Testing)) == Some(Building)
    ensures PutFailed(o, log) ==> Left(Put(o, log, Testing))
  {
    PutPhase(o, log, Testing);
  }

  lemma BuildingRepairs(o: Oracle, log: Log)
    requires PhaseOf(log) == Some(Building)
    ensures if PutFailed(o, log) then Left(Put(o, log, Implementing))
            else PhaseOf(Put(o, log, Implementing)) == Some(Building)
  {
    PutPhase(o, log, Implementing);
  }

  lemma RetryPhase(cfg: Config, o: Oracle, s: Loop, log: Log, images: seq<string>, base: seq<string>)
    requires PhaseOf(log) == Some(Building)
    ensures TurnPhase(Retry(cfg, o, s, log, images, base))
  {
    BuildingStops(o, log);
  }

  lemma SeenPhase(o: Oracle, log: Log)
    requires PhaseOf(log) == Some(Building)
    ensures var asked := Put(o, log, Testing);
            && PhaseOf(asked) == Some(Building) && PhaseOf(RunVisual(o, asked)) == Some(Building)
            && PhaseOf(Fingerprint(o, RunVisual(o, asked))) == Some(Building)
  {
    var asked := Put(o, log, Testing);
    BuildingTests(o, log);
    Looked(asked, Look(o, asked));
    Looked(RunVisual(o, asked), Print(o.fingerprint(RunVisual(o, asked))));
  }

  lemma ReviewedPhase(cfg: Config, o: Oracle, base: seq<string>, s: Loop, log: Log)
    requires PhaseOf(log) == Some(Building)
    ensures TurnPhase(Reviewed(cfg, o, base, s, log))
  {
    var asked := Put(o, log, Testing);
    SeenPhase(o, log);
    if PutFailed(o, log) {
      BuildingStops(o, asked);
    } else if !Passed(Look(o, asked)) {
      RetryPhase(cfg, o, s.(visual := s.visual + 1), RunVisual(o, asked), Look(o, asked).images, base);
    }
  }

  lemma VerifiedPhase(cfg: Config, o: Oracle, base: seq<string>, s: Loop, log: Log)
    requires PhaseOf(log) == Some(Building)
    ensures TurnPhase(Verified(cfg, o, base, s, log))
  {
    var asked := Put(o, log, Testing);
    BuildingTests(o, log);
    if !PutFailed(o, log) {
      Looked(asked, Tests(o.tests(asked)));
      TestedPhase(cfg, o, base, s, RunTests(o, asked));
    }
  }

  lemma TestedPhase(cfg: Config, o: Oracle, base: seq<string>, s: Loop, tested: Log)
    requires PhaseOf(tested) == Some(Building)
    ensures TurnPhase(Retry(cfg, o, s, tested, o.publicImages(tested), base))
    ensures Left(Put(o, tested, WaitingHuman))
    ensures TurnPhase(Reviewed(cfg, o, base, s, tested))
  {
    RetryPhase(cfg, o, s, tested, o.publicImages(tested), base);
    BuildingStops(o, tested);
    ReviewedPhase(cfg, o, base, s, tested);
  }

  lemma AnsweredPhase(cfg: Config, o: Oracle, base: seq<string>, s: Loop, log: Log, answer: Answer)
    requires PhaseOf(log) == Some(Building)
    ensures TurnPhase(Answered(cfg, o, base, s, log, answer))
  {
    match answer
    case Broke =>
      RetryPhase(cfg, o, s, log, o.publicImages(log), base);
    case Revise =>
      ReviewedPhase(cfg, o, base, s, log);
      BuildingStops(o, log);
    case Completed =>
      VerifiedPhase(cfg, o, base, s, log);
      Looked(log, Print(o.fingerprint(log)));
      VerifiedPhase(cfg, o, base, s.(pending := false, mark := ""), Fingerprint(o, log));
  }

  lemma TurnKeepsPhase(cfg: Config, o: Oracle, base: seq<string>, s: Loop)
    requires PhaseOf(s.log) == Some(Building)
    ensures TurnPhase(TakeTurn(cfg, o, base, s))
  {
    var log := if s.repair > 0 then Put(o, s.log, Implementing) else s.log;
    BuildingRepairs(o, s.log);
    if !(s.repair > 0 && PutFailed(o, s.log)) {
      Looked(log, Codex(s.inputs, o.codex(log)));
      AnsweredPhase(cfg, o, base, s, RunCodex(o, log, s.inputs), o.codex(log));
    }
  }

  lemma {:induction false} LoopPhase(cfg: Config, o: Oracle, base: seq<string>, s: Loop)
    requires InBudget(cfg, s) && PhaseOf(s.log) == Some(Building)
    ensures TurnPhase(Turns(cfg, o, base, s))
    decreases Budget(cfg, s)
  {
    TurnSpends(cfg, o, base, s);
    TurnKeepsPhase(cfg, o, base, s);
    var t := TakeTurn(cfg, o, base, s);
    if t.Again? {
      LoopPhase(cfg, o, base, t.next);
    }
  }

  lemma PublishPhase(cfg: Config, o: Oracle, log: Log)
    requires PhaseOf(log) == Some(Building)
    ensures Left(Publish(cfg, o, log))
  {
    var diff := log + [Diff(o.files(log))];
    Looked(log, Diff(o.files(log)));
    if o.files(log).None? || !DiffPolicy.Permits(o.files(log).value, cfg.denyPaths, cfg.glob) {
      BuildingStops(o, diff);
    } else {
      BuildingPublishes(o, diff);
      if !PutFailed(o, diff) {
        PublishingStops(o, Put(o, diff, CreatingPR));
        RequestPhase(o, Put(o, diff, CreatingPR));
      }
    }
  }

  lemma BuildingPublishes(o: Oracle, log: Log)
    requires PhaseOf(log) == Some(Building)
    ensures if PutFailed(o, log) then Left(Put(o, log, CreatingPR))
            else PhaseOf(Put(o, log, CreatingPR)) == Some(Publishing)
  {
    PutPhase(o, log, CreatingPR);
  }

  lemma PublishingStops(o: Oracle, log: Log)
    requires PhaseOf(log) == Some(Publishing)
    ensures Left(Put(o, log, Failed)) && Left(Put(o, log, Done))
  {
    Stops(o, log, Failed);
    Stops(o, log, Done);
  }

  lemma RequestPhase(o: Oracle, asked: Log)
    requires PhaseOf(asked) == Some(Publishing)
    ensures Left(Request(o, asked))
  {
    var pr := o.pullRequest(asked);
    var answered := asked + [Did(OpenPR(pr))];
    PhaseOne(asked, Did(OpenPR(pr)));
    if pr.None? {
      Stops(o, answered, Failed);
    } else {
      PhaseOne(answered, Did(Number(pr.value, o.fault(answered))));
      Stops(o, answered + [Did(Number(pr.value, o.fault(answered)))], Done);
    }
  }

  lemma BeginPhase(o: Oracle, log: Log, to: State)
    requires PhaseOf(log) == Some(Ready) && (to == Planning || to == Implementing)
    ensures var begun := log + [Did(Begin(to, o.fault(log)))];
            if o.fault(log) != NoFault then Left(begun)
            else PhaseOf(begun) == Some(if to == Planning then Drafting else Building)
  {
    PhaseOne(log, Did(Begin(to, o.fault(log))));
  }

  lemma ImplementationPhase(cfg: Config, o: Oracle, log: Log)
    requires PhaseOf(log) == Some(Ready)
    ensures Left(ImplementationRun(cfg, o, log))
  {
    var begun := log + [Did(Begin(Implementing, o.fault(log)))];
    BeginPhase(o, log, Implementing);
    if o.fault(log) == NoFault {
      if !o.check(begun, Prompt) {
        BuildingStops(o, begun);
      } else {
        BuiltPhase(cfg, o, begun, o.issueImages(begun));
      }
    }
  }

  lemma BuiltPhase(cfg: Config, o: Oracle, begun: Log, base: seq<string>)
    requires PhaseOf(begun) == Some(Building)
    ensures var t := Turns(cfg, o, base, Start(o, begun, base));
            Left(if t.Break? then Publish(cfg, o, t.log) else t.log)
  {
    var t := Turns(cfg, o, base, Start(o, begun, base));
    LoopPhase(cfg, o, base, Start(o, begun, base));
    if t.Break? {
      PublishPhase(cfg, o, t.log);
    }
  }

  lemma PlanningStops(o: Oracle, log: Log)
    requires PhaseOf(log) == Some(Drafting)
    ensures Left(Put(o, log, Failed)) && Left(Put(o, log, WaitingHuman)) && Left(Put(o, log, Done))
  {
    Stops(o, log, Failed);
    Stops(o, log, WaitingHuman);
    Stops(o, log, Done);
  }

  lemma PlanPhase(o: Oracle, log: Log)
    requires PhaseOf(log) == Some(Ready)
    ensures Left(PlanRun(o, log))
  {
    var begun := log + [Did(Begin(Planning, o.fault(log)))];
    BeginPhase(o, log, Planning);
    if o.fault(log) == NoFault {
      if !o.check(begun, Prompt) {
        PlanningStops(o, begun);
      } else {
        AnsweredPlanStops(o, begun, o.issueImages(begun));
      }
    }
  }

  lemma AnsweredPlanStops(o: Oracle, begun: Log, images: seq<string>)
    requires PhaseOf(begun) == Some(Drafting)
    ensures var answered := RunCodex(o, begun, images);
            Left(Put(o, answered, Failed)) && Left(Put(o, answered, WaitingHuman)) && Left(Put(o, answered, Done))
  {
    Looked(begun, Codex(images, o.codex(begun)));
    PlanningStops(o, RunCodex(o, begun, images));
  }

  lemma ReadyStops(o: Oracle, log: Log)
    requires PhaseOf(log) == Some(Ready)
    ensures Left(Put(o, log, Failed))
  {
    Stops(o, log, Failed);
  }

  lemma DispatchPhase(cfg: Config, o: Oracle, log: Log, command: string)
    requires PhaseOf(log) == Some(Ready)
    ensures Left(Dispatch(cfg, o, log, command))
  {
    if command == "plan" {
      PlanPhase(o, log);
    } else if command == "implement" || command == "fix" {
      ImplementationPhase(cfg, o, log);
    } else {
      ReadyStops(o, log);
    }
  }

  lemma SetupPhase(o: Oracle, log: Log)
    requires PhaseOf(log) == Some(Ready)
    ensures PhaseOf(RunSetup(o, log)) == Some(Ready)
    ensures Left(Put(o, RunSetup(o, log), Failed))
  {
    Looked(log, Setup(o.setup(log)));
    ReadyStops(o, RunSetup(o, log));
  }

  lemma PlaywrightPhase(cfg: Config, o: Oracle, log: Log, command: string)
    requires PhaseOf(log) == Some(Ready)
    ensures Left(WithPlaywright(cfg, o, log, command))
  {
    DispatchPhase(cfg, o, log, command);
    SetupPhase(o, log);
    DispatchPhase(cfg, o, RunSetup(o, log), command);
  }

  /** A worker only ever acts as the lifecycle allows, and leaves no job half way unless the queue fails. */
  lemma RunFollowsLifecycle(cfg: Config, o: Oracle, command: string)
    ensures Left(JobRun(cfg, o, command))
  {
    assert PhaseOf([]) == Some(Ready);
    ReadyStops(o, []);
    SetupPhase(o, []);
    PlaywrightPhase(cfg, o, [], command);
    PlaywrightPhase(cfg, o, RunSetup(o, []), command);
  }

  /** Every act is one that the lifecycle allows at that moment. */
  lemma {:induction false} EachActAllowed(acts: seq<Act>, n: nat)
    requires After(acts).Some? && n < |acts|
    ensures After(acts[..n]).Some? && Advance(After(acts[..n]).value, acts[n]).Some?
  {
    var front := acts[..|acts| - 1];
    if n < |front| {
      EachActAllowed(front, n);
      assert front[..n] == acts[..n];
    }
  }

  /** In a run at most one pull request is asked for, and each act finds the job in a phase that allows it. */
  lemma RunKeepsToProtocol(cfg: Config, o: Oracle, command: string, n: nat)
    ensures var acts := Acts(JobRun(cfg, o, command));
            && Requests(acts) <= 1
            && (n < |acts| ==> After(acts[..n]).Some? && Advance(After(acts[..n]).value, acts[n]).Some?)
  {
    RunFollowsLifecycle(cfg, o, command);
    var acts := Acts(JobRun(cfg, o, command));
    PhaseHistory(acts);
    if n < |acts| {
      EachActAllowed(acts, n);
    }
  }

  lemma {:induction false} ActsOfFaultless(log: Log)
    requires AllFaultless(log)
    ensures AllReliable(Acts(log))
  {
    if log != [] {
      var front := log[..|log| - 1];
      assert forall i | 0 <= i < |front| :: front[i] == log[i];
      ActsOfFaultless(front);
      assert Faultless(log[|log| - 1]);
    }
  }

  predicate OpenedPR(e: Event) {
    e.Did? && Opens(e.act)
  }

  predicate RequestsPR(e: Event) {
    e.Did? && e.act.OpenPR?
  }

  lemma {:induction false} ActsHold(log: Log, i: nat)
    requires i < |log| && log[i].Did?
    ensures exists k :: 0 <= k < |Acts(log)| && Acts(log)[k] == log[i].act
  {
    var front := log[..|log| - 1];
    if i < |front| {
      ActsHold(front, i);
      var k :| 0 <= k < |Acts(front)| && Acts(front)[k] == front[i].act;
      assert Acts(log)[k] == log[i].act;
    } else {
      assert Acts(log)[|Acts(front)|] == log[i].act;
    }
  }

  /** With a queue that works, the job ends as done, failed or waiting for a human, and as done if
      its pull request was opened. */
  lemma RunEnds(cfg: Config, o: Oracle, command: string, t: Tables, id: string)
    requires InState(t, id, Starting) && AllFaultless(JobRun(cfg, o, command))
    ensures var log := JobRun(cfg, o, command);
            var after := Replay(t, id, Acts(log));
            && id in after.jobs && Terminal(after.jobs[id].state)
            && ((exists i :: 0 <= i < |log| && OpenedPR(log[i])) ==> after.jobs[id].state == Done)
  {
    var log := JobRun(cfg, o, command);
    RunFollowsLifecycle(cfg, o, command);
    ActsOfFaultless(log);
    assert log != [] ==> Faultless(log[|log| - 1]);
    ReliableEnd(t, id, Acts(log));
    if i :| 0 <= i < |log| && OpenedPR(log[i]) {
      ActsHold(log, i);
      var k :| 0 <= k < |Acts(log)| && Acts(log)[k] == log[i].act;
      OpenedEndsDone(t, id, Acts(log), k);
    }
  }

  // ------------------------------------------------- the justification of a pull request

  ghost predicate NoRequest(log: Log) {
    forall i | 0 <= i < |log| :: !RequestsPR(log[i])
  }

  lemma PutQuiet(o: Oracle, log: Log, state: State)
    requires NoRequest(log)
    ensures NoRequest(Put(o, log, state))
  {
  }

  lemma LookedQuiet(log: Log, e: Event)
    requires NoRequest(log) && !e.Did?
    ensures NoRequest(log + [e])
  {
  }

  lemma RetryQuiet(cfg: Config, o: Oracle, s: Loop, log: Log, images: seq<string>, base: seq<string>)
    requires NoRequest(log)
    ensures NoRequest(LogOf(Retry(cfg, o, s, log, images, base)))
  {
    PutQuiet(o, log, WaitingHuman);
  }

  lemma ReviewedQuiet(cfg: Config, o: Oracle, base: seq<string>, s: Loop, log: Log)
    requires NoRequest(log)
    ensures NoRequest(LogOf(Reviewed(cfg, o, base, s, log)))
  {
    var asked := Put(o, log, Testing);
    PutQuiet(o, log, Testing);
    PutQuiet(o, asked, Failed);
    var seen := RunVisual(o, asked);
    LookedQuiet(asked, Look(o, asked));
    RetryQuiet(cfg, o, s.(visual := s.visual + 1), seen, Look(o, asked).images, base);
    LookedQuiet(seen, Print(o.fingerprint(seen)));
  }

  lemma VerifiedQuiet(cfg: Config, o: Oracle, base: seq<string>, s: Loop, log: Log)
    requires NoRequest(log)
    ensures NoRequest(LogOf(Verified(cfg, o, base, s, log)))
  {
    var asked := Put(o, log, Testing);
    PutQuiet(o, log, Testing);
    var tested := RunTests(o, asked);
    LookedQuiet(asked, Tests(o.tests(asked)));
    RetryQuiet(cfg, o, s, tested, o.publicImages(tested), base);
    PutQuiet(o, tested, WaitingHuman);
    ReviewedQuiet(cfg, o, base, s, tested);
  }

  lemma AnsweredQuiet(cfg: Config, o: Oracle, base: seq<string>, s: Loop, log: Log, answer: Answer)
    requires NoRequest(log)
    ensures NoRequest(LogOf(Answered(cfg, o, base, s, log, answer)))
  {
    match answer
    case Broke =>
      RetryQuiet(cfg, o, s, log, o.publicImages(log), base);
    case Revise =>
      ReviewedQuiet(cfg, o, base, s, log);
      PutQuiet(o, log, WaitingHuman);
    case Completed =>
      VerifiedQuiet(cfg, o, base, s, log);
      LookedQuiet(log, Print(o.fingerprint(log)));
      VerifiedQuiet(cfg, o, base, s.(pending := false, mark := ""), Fingerprint(o, log));
  }

  lemma TurnQuiet(cfg: Config, o: Oracle, base: seq<string>, s: Loop)
    requires NoRequest(s.log)
    ensures NoRequest(LogOf(TakeTurn(cfg, o, base, s)))
  {
    var log := if s.repair > 0 then Put(o, s.log, Implementing) else s.log;
    PutQuiet(o, s.log, Implementing);
    LookedQuiet(log, Codex(s.inputs, o.codex(log)));
    AnsweredQuiet(cfg, o, base, s, RunCodex(o, log, s.inputs), o.codex(log));
  }

  lemma {:induction false} LoopQuiet(cfg: Config, o: Oracle, base: seq<string>, s: Loop)
    requires InBudget(cfg, s) && NoRequest(s.log)
    ensures NoRequest(LogOf(Turns(cfg, o, base, s)))
    decreases Budget(cfg, s)
  {
    TurnSpends(cfg, o, base, s);
    TurnQuiet(cfg, o, base, s);
    var t := TakeTurn(cfg, o, base, s);
    if t.Again? {
      LoopQuiet(cfg, o, base, t.next);
    }
  }

  /** What stands in the log just before a pull request is asked for. */
  ghost predicate Justified(cfg: Config, log: Log, p: nat) {
    && 2 <= p < |log|
    && log[p - 1] == Did(Set(CreatingPR, NoFault))
    && log[p - 2].Diff? && log[p - 2].files.Some?
    && DiffPolicy.Permits(log[p - 2].files.value, cfg.denyPaths, cfg.glob)
    && Grounds(cfg, log[..p - 2])
  }

  lemma PublishJustified(cfg: Config, o: Oracle, log: Log, p: nat)
    requires NoRequest(log) && Grounds(cfg, log)
    requires p < |Publish(cfg, o, log)| && RequestsPR(Publish(cfg, o, log)[p])
    ensures Justified(cfg, Publish(cfg, o, log), p)
  {
    var end := Publish(cfg, o, log);
    assert forall i | 0 <= i < |log| :: end[i] == log[i];
    assert p == |log| + 2;
    assert end[..p - 2] == log;
  }

  lemma ImplementationJustified(cfg: Config, o: Oracle, log: Log, p: nat)
    requires NoRequest(log)
    requires p < |ImplementationRun(cfg, o, log)| && RequestsPR(ImplementationRun(cfg, o, log)[p])
    ensures Justified(cfg, ImplementationRun(cfg, o, log), p)
  {
    var begun := log + [Did(Begin(Implementing, o.fault(log)))];
    if o.fault(log) == NoFault && o.check(begun, Prompt) {
      var base := o.issueImages(begun);
      var start := Start(o, begun, base);
      LoopQuiet(cfg, o, base, start);
      LoopGrounds(cfg, o, base, start);
      var t := Turns(cfg, o, base, start);
      if t.Break? {
        PublishJustified(cfg, o, t.log, p);
      }
    }
  }

  lemma PlaywrightJustified(cfg: Config, o: Oracle, log: Log, command: string, p: nat)
    requires NoRequest(log)
    requires var end := WithPlaywright(cfg, o, log, command); p < |end| && RequestsPR(end[p])
    ensures Justified(cfg, WithPlaywright(cfg, o, log, command), p)
  {
    var ready := if cfg.playwright then RunSetup(o, log) else log;
    if command == "implement" || command == "fix" {
      ImplementationJustified(cfg, o, ready, p);
    }
  }

  /** Whatever job it is and whatever happens in it: a pull request is asked for only after Codex
      completed, on the grounds that the loop requires, with no changed file that the policy denies. */
  lemma RequestIsJustified(cfg: Config, o: Oracle, command: string, p: nat)
    requires p < |JobRun(cfg, o, command)| && RequestsPR(JobRun(cfg, o, command)[p])
    ensures Justified(cfg, JobRun(cfg, o, command), p)
  {
    if Prepared(cfg, o, []) {
      PlaywrightJustified(cfg, o, if cfg.setupCommands then RunSetup(o, []) else [], command, p);
    }
  }
}
