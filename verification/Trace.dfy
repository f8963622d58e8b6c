/** The run of a leased job told from its log alone: what has happened so far decides what happens next. */
module Trace {
  import opened Text
  import opened Queue
  import opened Lifecycle
  import opened Implementation
  import opened Guarantees
  import DiffPolicy
  import Images

  /** What a run depends on. */
  datatype Setting = Setting(cfg: Config, o: Oracle, command: string)

  /** A configured number counts if it is positive. */
  function Limit(configured: Option<int>, default: nat): nat {
    if configured.Some? && configured.value > 0 then configured.value else default
  }

  // -------------------------------------------------------------- what a log shows

  predicate FailedAttempt(e: Event) {
    || (e.Codex? && e.answer == Broke)
    || e == Tests(false)
    || (e.Visual? && !(e.commandsPassed && e.images != []))
  }

  function Attempts(log: Log): nat {
    if log == [] then 0 else Attempts(log[..|log| - 1]) + if FailedAttempt(log[|log| - 1]) then 1 else 0
  }

  predicate AfterReview(log: Log) {
    log != [] && log[|log| - 1].Visual?
  }

  /** The fingerprint that Codex is to confirm: that of the last review that passed, until Codex has completed
      on another one. */
  function Awaited(log: Log): Option<Mark> {
    if log == [] then None
    else
      var front, last := log[..|log| - 1], log[|log| - 1];
      if !last.Print? then Awaited(front)
      else if !AfterReview(front) then None
      else if last.mark.Some? then last.mark else Awaited(front)
  }

  /** The screenshots that the last attempt left. */
  function Shots(o: Oracle, log: Log): seq<string> {
    if log == [] then []
    else
      match log[|log| - 1]
      case Codex(_, _) => o.publicImages(log)
      case Tests(_) => o.publicImages(log)
      case Visual(_, images) => images
      case _ => Shots(o, log[..|log| - 1])
  }

  function Preparations(cfg: Config): nat {
    (if cfg.setupCommands then 1 else 0) + (if cfg.playwright then 1 else 0)
  }

  /** The images of the issue, as they were when the job was begun. */
  function Base(x: Setting, log: Log): seq<string> {
    var begun := Preparations(x.cfg) + 1;
    if |log| < begun then [] else x.o.issueImages(log[..begun])
  }

  // ------------------------------------------------------------- what happens next

  function Write(x: Setting, log: Log, state: State): Event {
    Did(Set(state, x.o.fault(log)))
  }

  predicate Implements(command: string) {
    command == "implement" || command == "fix"
  }

  function Prepare(x: Setting, log: Log): Event {
    if |log| < Preparations(x.cfg) then Setup(x.o.setup(log))
    else if x.command == "plan" then Did(Begin(Planning, x.o.fault(log)))
    else if Implements(x.command) then Did(Begin(Implementing, x.o.fault(log)))
    else Write(x, log, Failed)
  }

  function Ask(x: Setting, log: Log, images: seq<string>): Event {
    Codex(images, x.o.codex(log))
  }

  /** Behind a failed attempt: a repair while the configured number of them, or eight, is not used up. */
  function Recover(x: Setting, log: Log): Event {
    Write(x, log, if Attempts(log) <= Limit(x.cfg.repairAttempts, 8) then Implementing else WaitingHuman)
  }

  /** There are visual commands, and not all of the configured reviews, or three, have been made. */
  predicate CanReview(x: Setting, log: Log) {
    x.cfg.visualCommands && VisualRuns(log) < Limit(x.cfg.visualAttempts, 3)
  }

  function AfterPlan(x: Setting, log: Log, answer: Answer): Event {
    match answer
    case Broke => Write(x, log, Failed)
    case Revise => Write(x, log, WaitingHuman)
    case Completed => Write(x, log, if x.o.check(log, SavePlan) then Done else Failed)
  }

  function AfterAnswer(x: Setting, log: Log, answer: Answer): Event {
    match answer
    case Broke => Recover(x, log)
    case Revise => Write(x, log, if CanReview(x, log) then Testing else WaitingHuman)
    case Completed => if Awaited(log).Some? then Print(x.o.fingerprint(log)) else Write(x, log, Testing)
  }

  function AfterTests(x: Setting, log: Log, passed: bool): Event {
    if !passed then Recover(x, log)
    else if !x.cfg.visualCommands then Diff(x.o.files(log))
    else Write(x, log, if CanReview(x, log) then Testing else WaitingHuman)
  }

  function AfterVisual(x: Setting, log: Log, passed: bool): Event {
    if passed then Print(x.o.fingerprint(log)) else Recover(x, log)
  }

  /** A fingerprint is taken behind a review that passed, or when Codex completed and is to confirm one. */
  function AfterPrint(x: Setting, log: Log, front: Log, mark: Option<Mark>): Event {
    if AfterReview(front) then
      if Attempts(log) > 0 then Write(x, log, Implementing)
      else Ask(x, log, Images.Merge(Base(x, log), Shots(x.o, log)))
    else if mark.Some? && mark == Awaited(front) then Diff(x.o.files(log))
    else Write(x, log, Testing)
  }

  function AfterDiff(x: Setting, log: Log, files: Option<seq<string>>): Event {
    Write(x, log, if files.Some? && PermitsAll(x.cfg, files.value) then CreatingPR else Failed)
  }

  predicate PermitsAll(cfg: Config, files: seq<string>) {
    forall file, pattern | file in files && pattern in cfg.denyPaths ::
      !DiffPolicy.MatchesPattern(file, pattern, cfg.glob)
  }

  /** Testing is set for a visual review behind tests that passed or a wish for a revision, else for the tests. */
  predicate ForReview(front: Log) {
    front != [] && (front[|front| - 1].Tests? || (front[|front| - 1].Codex? && front[|front| - 1].answer == Revise))
  }

  function AfterTesting(x: Setting, log: Log, front: Log, fault: Fault): Option<Event> {
    if fault != NoFault then (if ForReview(front) then Some(Write(x, log, Failed)) else None)
    else if ForReview(front) then Some(Visual(x.o.visual(log).0, x.o.visual(log).1))
    else Some(Tests(x.o.tests(log)))
  }

  function AfterCreating(x: Setting, log: Log): Event {
    if !x.cfg.git then Did(OpenPR(x.o.pullRequest(log)))
    else if !x.o.check(log, Commit) then Write(x, log, Failed)
    else if !x.o.dirty(log) then Write(x, log, Done)
    else if !x.o.check(log, Push) then Write(x, log, Failed)
    else Did(OpenPR(x.o.pullRequest(log)))
  }

  function AfterAct(x: Setting, log: Log, front: Log, act: Act): Option<Event> {
    match act
    case Begin(_, fault) =>
      if fault != NoFault then None
      else Some(if x.o.check(log, Prompt) then Ask(x, log, x.o.issueImages(log)) else Write(x, log, Failed))
    case Set(state, fault) =>
      if state == Testing then AfterTesting(x, log, front, fault)
      else if fault != NoFault then None
      else if state == Implementing then Some(Ask(x, log, Images.Merge(Base(x, log), Shots(x.o, log))))
      else if state == CreatingPR then Some(AfterCreating(x, log))
      else None
    case OpenPR(pr) => Some(if pr.Some? then Did(Number(pr.value, x.o.fault(log))) else Write(x, log, Failed))
    case Number(_, _) => Some(Write(x, log, Done))
  }

  function After(x: Setting, log: Log, front: Log, last: Event): Option<Event> {
    match last
    case Setup(passed) => Some(if passed then Prepare(x, log) else Write(x, log, Failed))
    case Codex(_, answer) =>
      Some(if x.command == "plan" then AfterPlan(x, log, answer) else AfterAnswer(x, log, answer))
    case Tests(passed) => Some(AfterTests(x, log, passed))
    case Visual(passed, images) => Some(AfterVisual(x, log, passed && images != []))
    case Print(mark) => Some(AfterPrint(x, log, front, mark))
    case Diff(files) => Some(AfterDiff(x, log, files))
    case Did(act) => AfterAct(x, log, front, act)
  }

  /** The next event, or None when the run is over. */
  function Next(x: Setting, log: Log): Option<Event> {
    if log != [] then After(x, log, log[..|log| - 1], log[|log| - 1])
    else
      Some(if
        && x.o.check([], Workspace) && x.o.check([], RepoConfigured) && x.o.check([], CodexHome)
        && x.o.check([], Branch) && (x.cfg.clones ==> x.o.check([], Clone))
      then Prepare(x, []) else Write(x, [], Failed))
  }

  /** Every event of the log is the one that what went before asks for. */
  ghost predicate Follows(x: Setting, log: Log) {
    forall i | 0 <= i < |log| :: Due(x, log, i)
  }

  ghost predicate Due(x: Setting, log: Log, i: nat)
    requires i < |log|
  {
    Next(x, log[..i]) == Some(log[i])
  }

  // ------------------------------------------------------------------ one more event

  lemma Grow(x: Setting, log: Log, e: Event)
    requires Follows(x, log) && Next(x, log) == Some(e)
    ensures Follows(x, log + [e])
  {
    var more := log + [e];
    forall i | 0 <= i < |more|
      ensures Due(x, more, i)
    {
      assert more[..i] == log[..i];
      if i < |log| {
        assert Due(x, log, i);
      } else {
        assert log[..i] == log;
      }
    }
  }

  lemma NextOf(x: Setting, log: Log, e: Event)
    ensures Next(x, log + [e]) == After(x, log + [e], log, e)
  {
    assert (log + [e])[..|log|] == log;
  }

  lemma CountsOf(log: Log, e: Event)
    ensures Attempts(log + [e]) == Attempts(log) + if FailedAttempt(e) then 1 else 0
    ensures VisualRuns(log + [e]) == VisualRuns(log) + if e.Visual? then 1 else 0
    ensures Awaited(log + [e]) == if !e.Print? then Awaited(log)
                                  else if !AfterReview(log) then None
                                  else if e.mark.Some? then e.mark else Awaited(log)
  {
    assert (log + [e])[..|log|] == log;
  }

  lemma ImagesOf(x: Setting, log: Log, e: Event)
    ensures Shots(x.o, log + [e]) == if e.Codex? || e.Tests? then x.o.publicImages(log + [e])
                                     else if e.Visual? then e.images else Shots(x.o, log)
    ensures |log| > Preparations(x.cfg) ==> Base(x, log + [e]) == Base(x, log)
  {
    ShotsOf(x.o, log, e);
    if |log| > Preparations(x.cfg) {
      BaseStays(x, log, e, Preparations(x.cfg) + 1);
    }
  }

  lemma BaseStays(x: Setting, log: Log, e: Event, begun: nat)
    requires begun == Preparations(x.cfg) + 1 && begun <= |log|
    ensures Base(x, log + [e]) == Base(x, log)
  {
    PrefixStays(log, e, begun);
  }

  lemma ShotsOf(o: Oracle, log: Log, e: Event)
    ensures Shots(o, log + [e]) == if e.Codex? || e.Tests? then o.publicImages(log + [e])
                                   else if e.Visual? then e.images else Shots(o, log)
  {
    assert (log + [e])[..|log|] == log;
  }

  lemma PrefixStays(log: Log, e: Event, n: nat)
    requires n <= |log|
    ensures (log + [e])[..n] == log[..n]
  {
  }

  // ---------------------------------------------------------------------- the loop

  /** What a log in the loop shows. */
  datatype Tally = Tally(attempts: nat, visuals: nat, awaited: Option<Mark>)

  ghost predicate Tells(x: Setting, base: seq<string>, log: Log, tally: Tally) {
    && Follows(x, log) && x.command != "plan"
    && |log| > Preparations(x.cfg) && Base(x, log) == base
    && tally == Tally(Attempts(log), VisualRuns(log), Awaited(log))
  }

  function TallyOf(s: Loop): Tally {
    Tally(s.repair, s.visual, if s.pending then Some(s.mark) else None)
  }

  function TallyWith(log: Log, tally: Tally, e: Event): Tally {
    Tally(
      tally.attempts + if FailedAttempt(e) then 1 else 0,
      tally.visuals + if e.Visual? then 1 else 0,
      if !e.Print? then tally.awaited
      else if !AfterReview(log) then None
      else if e.mark.Some? then e.mark else tally.awaited)
  }

  lemma TellsMore(x: Setting, base: seq<string>, log: Log, tally: Tally, e: Event)
    requires Tells(x, base, log, tally) && Next(x, log) == Some(e)
    ensures Tells(x, base, log + [e], TallyWith(log, tally, e))
  {
    Grow(x, log, e);
    CountsOf(log, e);
    ImagesOf(x, log, e);
  }

  /** Between two turns: the variables of the loop are what the log shows. */
  ghost predicate Mirrors(x: Setting, base: seq<string>, s: Loop) {
    && Tells(x, base, s.log, TallyOf(s))
    && Next(x, s.log) == Some(if s.repair > 0 then Write(x, s.log, Implementing) else Ask(x, s.log, s.inputs))
    && (s.repair > 0 ==> s.inputs == Images.Merge(base, Shots(x.o, s.log)))
  }

  /** How a turn ends: ready for the next one, at the gate, or with nothing more to do. */
  ghost predicate Ends(x: Setting, base: seq<string>, t: Turn) {
    match t
    case Again(next) => Mirrors(x, base, next)
    case Break(log) => Follows(x, log) && Next(x, log) == Some(Diff(x.o.files(log)))
    case Halt(log) => Follows(x, log) && Next(x, log).None?
  }

  lemma WriteEnds(x: Setting, base: seq<string>, log: Log, state: State)
    requires Follows(x, log) && Next(x, log) == Some(Write(x, log, state))
    requires state == WaitingHuman || state == Failed || state == Done
    ensures Ends(x, base, Halt(Put(x.o, log, state)))
  {
    var e := Write(x, log, state);
    Grow(x, log, e);
    NextOf(x, log, e);
  }

  lemma LimitsAgree(cfg: Config)
    ensures MaxRepair(cfg) == Limit(cfg.repairAttempts, 8) && MaxVisual(cfg) == Limit(cfg.visualAttempts, 3)
  {
  }

  lemma RetryEnds(x: Setting, base: seq<string>, s: Loop, log: Log, images: seq<string>)
    requires s.repair <= MaxRepair(x.cfg)
    requires Tells(x, base, log, TallyOf(s).(attempts := s.repair + 1)) && images == Shots(x.o, log)
    requires Next(x, log) == Some(Recover(x, log))
    ensures Ends(x, base, Retry(x.cfg, x.o, s, log, images, base))
  {
    LimitsAgree(x.cfg);
    if s.repair >= MaxRepair(x.cfg) {
      WriteEnds(x, base, log, WaitingHuman);
    }
  }

  lemma ConfirmingEnds(x: Setting, base: seq<string>, s: Loop, seen: Log, images: seq<string>)
    requires Tells(x, base, seen, TallyOf(s)) && AfterReview(seen) && images == Shots(x.o, seen)
    requires Next(x, seen) == Some(Print(x.o.fingerprint(seen)))
    ensures Ends(x, base, Confirming(x.o, s, seen, images, base))
  {
    var e := Print(x.o.fingerprint(seen));
    TellsMore(x, base, seen, TallyOf(s), e);
    ImagesOf(x, seen, e);
    NextOf(x, seen, e);
  }

  lemma JudgedEnds(x: Setting, base: seq<string>, s: Loop, asked: Log)
    requires s.repair <= MaxRepair(x.cfg)
    requires Tells(x, base, asked, TallyOf(s)) && Next(x, asked) == Some(Look(x.o, asked))
    ensures Ends(x, base, Judged(x.cfg, x.o, s.(visual := s.visual + 1), RunVisual(x.o, asked),
                                 Verdict(Look(x.o, asked)), base))
  {
    var e, seen, after := Look(x.o, asked), RunVisual(x.o, asked), s.(visual := s.visual + 1);
    SeenNext(x, asked);
    TellsMore(x, base, asked, TallyOf(s), e);
    if Passed(e) {
      assert TallyWith(asked, TallyOf(s), e) == TallyOf(after);
      ConfirmingEnds(x, base, after, seen, e.images);
    } else {
      assert TallyWith(asked, TallyOf(s), e) == TallyOf(after).(attempts := s.repair + 1);
      RetryEnds(x, base, after, seen, e.images);
    }
  }

  lemma SeenNext(x: Setting, asked: Log)
    ensures var e, seen := Look(x.o, asked), RunVisual(x.o, asked);
            && Next(x, seen) == Some(if Passed(e) then Print(x.o.fingerprint(seen)) else Recover(x, seen))
            && Shots(x.o, seen) == e.images && AfterReview(seen)
  {
    NextOf(x, asked, Look(x.o, asked));
    ImagesOf(x, asked, Look(x.o, asked));
  }

  lemma ReviewedEnds(x: Setting, base: seq<string>, s: Loop, log: Log)
    requires s.repair <= MaxRepair(x.cfg) && ForReview(log)
    requires Tells(x, base, log, TallyOf(s)) && Next(x, log) == Some(Write(x, log, Testing))
    ensures Ends(x, base, Reviewed(x.cfg, x.o, base, s, log))
  {
    var asked, failed := Put(x.o, log, Testing), PutFailed(x.o, log);
    AskedForReview(x, base, log, TallyOf(s), asked, failed);
    AskedForReviewEnds(x, base, s, asked, failed, Reviewed(x.cfg, x.o, base, s, log));
  }

  lemma AskedForReview(x: Setting, base: seq<string>, log: Log, tally: Tally, asked: Log, failed: bool)
    requires ForReview(log) && Tells(x, base, log, tally) && Next(x, log) == Some(Write(x, log, Testing))
    requires asked == Put(x.o, log, Testing) && (failed <==> PutFailed(x.o, log))
    ensures Tells(x, base, asked, tally)
    ensures Next(x, asked) == Some(if failed then Write(x, asked, Failed) else Look(x.o, asked))
  {
    TestingNext(x, log);
    TestingTells(x, base, log, tally);
  }

  lemma AskedForReviewEnds(x: Setting, base: seq<string>, s: Loop, asked: Log, failed: bool, t: Turn)
    requires s.repair <= MaxRepair(x.cfg) && Tells(x, base, asked, TallyOf(s))
    requires Next(x, asked) == Some(if failed then Write(x, asked, Failed) else Look(x.o, asked))
    requires t == if failed then Halt(Put(x.o, asked, Failed))
                  else Judged(x.cfg, x.o, s.(visual := s.visual + 1), RunVisual(x.o, asked),
                              Verdict(Look(x.o, asked)), base)
    ensures Ends(x, base, t)
  {
    if failed {
      WriteEnds(x, base, asked, Failed);
    } else {
      JudgedEnds(x, base, s, asked);
    }
  }

  lemma TestingTells(x: Setting, base: seq<string>, log: Log, tally: Tally)
    requires Tells(x, base, log, tally) && Next(x, log) == Some(Write(x, log, Testing))
    ensures Tells(x, base, Put(x.o, log, Testing), tally)
  {
    TellsMore(x, base, log, tally, Write(x, log, Testing));
    assert TallyWith(log, tally, Write(x, log, Testing)) == tally;
  }

  lemma TestingNext(x: Setting, log: Log)
    requires ForReview(log)
    ensures var asked := Put(x.o, log, Testing);
            Next(x, asked) == Some(if PutFailed(x.o, log) then Write(x, asked, Failed) else Look(x.o, asked))
  {
    NextOf(x, log, Write(x, log, Testing));
  }

  lemma TestedEnds(x: Setting, base: seq<string>, s: Loop, tested: Log)
    requires s.repair <= MaxRepair(x.cfg) && ForReview(tested)
    requires Tells(x, base, tested, TallyOf(s)) && Next(x, tested) == Some(AfterTests(x, tested, true))
    ensures Ends(x, base, Tested(x.cfg, x.o, base, s, tested))
  {
    LimitsAgree(x.cfg);
    if x.cfg.visualCommands {
      if s.visual >= MaxVisual(x.cfg) {
        WriteEnds(x, base, tested, WaitingHuman);
      } else {
        ReviewedEnds(x, base, s, tested);
      }
    }
  }

  lemma VerifiedEnds(x: Setting, base: seq<string>, s: Loop, log: Log)
    requires s.repair <= MaxRepair(x.cfg) && !ForReview(log)
    requires Tells(x, base, log, TallyOf(s)) && Next(x, log) == Some(Write(x, log, Testing))
    ensures Ends(x, base, Verified(x.cfg, x.o, base, s, log))
  {
    var e, asked := Write(x, log, Testing), Put(x.o, log, Testing);
    TellsMore(x, base, log, TallyOf(s), e);
    NextOf(x, log, e);
    if !PutFailed(x.o, log) {
      TestsEnd(x, base, s, asked);
    }
  }

  lemma TestsEnd(x: Setting, base: seq<string>, s: Loop, asked: Log)
    requires s.repair <= MaxRepair(x.cfg)
    requires Tells(x, base, asked, TallyOf(s)) && Next(x, asked) == Some(Tests(x.o.tests(asked)))
    ensures var tested := RunTests(x.o, asked);
            Ends(x, base, if !x.o.tests(asked) then Retry(x.cfg, x.o, s, tested, x.o.publicImages(tested), base)
                          else Tested(x.cfg, x.o, base, s, tested))
  {
    var e, tested := Tests(x.o.tests(asked)), RunTests(x.o, asked);
    TellsMore(x, base, asked, TallyOf(s), e);
    ImagesOf(x, asked, e);
    NextOf(x, asked, e);
    if x.o.tests(asked) {
      TestedEnds(x, base, s, tested);
    } else {
      RetryEnds(x, base, s, tested, x.o.publicImages(tested));
    }
  }

  lemma CompletedEnds(x: Setting, base: seq<string>, s: Loop, log: Log)
    requires s.repair <= MaxRepair(x.cfg) && log != [] && CodexCompleted(log[|log| - 1])
    requires Tells(x, base, log, TallyOf(s)) && Next(x, log) == Some(AfterAnswer(x, log, Completed))
    ensures Ends(x, base, Answered(x.cfg, x.o, base, s, log, Completed))
  {
    if !s.pending {
      VerifiedEnds(x, base, s, log);
    } else {
      var e, printed := Print(x.o.fingerprint(log)), Fingerprint(x.o, log);
      TellsMore(x, base, log, TallyOf(s), e);
      NextOf(x, log, e);
      if x.o.fingerprint(log) != Some(s.mark) {
        VerifiedEnds(x, base, s.(pending := false, mark := ""), printed);
      }
    }
  }

  lemma AnsweredEnds(x: Setting, base: seq<string>, s: Loop, log: Log, answer: Answer)
    requires s.repair <= MaxRepair(x.cfg)
    requires log != [] && log[|log| - 1].Codex? && log[|log| - 1].answer == answer
    requires Next(x, log) == Some(AfterAnswer(x, log, answer))
    requires Tells(x, base, log, if answer == Broke then TallyOf(s).(attempts := s.repair + 1) else TallyOf(s))
    requires Shots(x.o, log) == x.o.publicImages(log)
    ensures Ends(x, base, Answered(x.cfg, x.o, base, s, log, answer))
  {
    match answer
    case Broke =>
      RetryEnds(x, base, s, log, x.o.publicImages(log));
    case Revise =>
      LimitsAgree(x.cfg);
      if x.cfg.visualCommands && s.visual < MaxVisual(x.cfg) {
        ReviewedEnds(x, base, s, log);
      } else {
        WriteEnds(x, base, log, WaitingHuman);
      }
    case Completed =>
      CompletedEnds(x, base, s, log);
  }

  lemma AskedEnds(x: Setting, base: seq<string>, s: Loop, log: Log)
    requires s.repair <= MaxRepair(x.cfg)
    requires Tells(x, base, log, TallyOf(s)) && Next(x, log) == Some(Ask(x, log, s.inputs))
    ensures Ends(x, base, Answered(x.cfg, x.o, base, s, RunCodex(x.o, log, s.inputs), x.o.codex(log)))
  {
    var e := Ask(x, log, s.inputs);
    TellsMore(x, base, log, TallyOf(s), e);
    ImagesOf(x, log, e);
    NextOf(x, log, e);
    AnsweredEnds(x, base, s, RunCodex(x.o, log, s.inputs), x.o.codex(log));
  }

  lemma TurnEnds(x: Setting, base: seq<string>, s: Loop)
    requires s.repair <= MaxRepair(x.cfg) && Mirrors(x, base, s)
    ensures Ends(x, base, TakeTurn(x.cfg, x.o, base, s))
  {
    if s.repair == 0 {
      AskedEnds(x, base, s, s.log);
    } else {
      var e, log := Write(x, s.log, Implementing), Put(x.o, s.log, Implementing);
      TellsMore(x, base, s.log, TallyOf(s), e);
      ImagesOf(x, s.log, e);
      NextOf(x, s.log, e);
      if !PutFailed(x.o, s.log) {
        AskedEnds(x, base, s, log);
      }
    }
  }

  lemma {:induction false} LoopEnds(x: Setting, base: seq<string>, s: Loop)
    requires InBudget(x.cfg, s) && Mirrors(x, base, s)
    ensures Ends(x, base, Turns(x.cfg, x.o, base, s))
    decreases Budget(x.cfg, s)
  {
    TurnSpends(x.cfg, x.o, base, s);
    TurnEnds(x, base, s);
    var t := TakeTurn(x.cfg, x.o, base, s);
    if t.Again? {
      LoopEnds(x, base, t.next);
    }
  }

  // ------------------------------------------------------------------ the whole run

  ghost predicate Over(x: Setting, log: Log) {
    Follows(x, log) && Next(x, log).None?
  }

  lemma WritesLast(x: Setting, log: Log, state: State)
    requires Follows(x, log) && Next(x, log) == Some(Write(x, log, state))
    requires state == WaitingHuman || state == Failed || state == Done
    ensures Over(x, Put(x.o, log, state))
  {
    WriteEnds(x, [], log, state);
  }

  lemma RequestOver(x: Setting, log: Log)
    requires Follows(x, log) && Next(x, log) == Some(Did(OpenPR(x.o.pullRequest(log))))
    ensures Over(x, Request(x.o, log))
  {
    var pr := x.o.pullRequest(log);
    var answered := log + [Did(OpenPR(pr))];
    Grow(x, log, Did(OpenPR(pr)));
    NextOf(x, log, Did(OpenPR(pr)));
    if pr.None? {
      WritesLast(x, answered, Failed);
    } else {
      var e := Did(Number(pr.value, x.o.fault(answered)));
      Grow(x, answered, e);
      NextOf(x, answered, e);
      WritesLast(x, answered + [e], Done);
    }
  }

  lemma CreatingOver(x: Setting, asked: Log)
    requires Follows(x, asked) && Next(x, asked) == Some(AfterCreating(x, asked))
    ensures Over(x, if x.cfg.git && !x.o.check(asked, Commit) then Put(x.o, asked, Failed)
                    else if x.cfg.git && !x.o.dirty(asked) then Put(x.o, asked, Done)
                    else if x.cfg.git && !x.o.check(asked, Push) then Put(x.o, asked, Failed)
                    else Request(x.o, asked))
  {
    if x.cfg.git && !x.o.check(asked, Commit) {
      WritesLast(x, asked, Failed);
    } else if x.cfg.git && !x.o.dirty(asked) {
      WritesLast(x, asked, Done);
    } else if x.cfg.git && !x.o.check(asked, Push) {
      WritesLast(x, asked, Failed);
    } else {
      RequestOver(x, asked);
    }
  }

  lemma PublishOver(x: Setting, log: Log)
    requires Follows(x, log) && Next(x, log) == Some(Diff(x.o.files(log)))
    ensures Over(x, Publish(x.cfg, x.o, log))
  {
    var e, diff := Diff(x.o.files(log)), log + [Diff(x.o.files(log))];
    Grow(x, log, e);
    NextOf(x, log, e);
    if e.files.None? || !DiffPolicy.Permits(e.files.value, x.cfg.denyPaths, x.cfg.glob) {
      WritesLast(x, diff, Failed);
    } else {
      var asked := Put(x.o, diff, CreatingPR);
      Grow(x, diff, Write(x, diff, CreatingPR));
      NextOf(x, diff, Write(x, diff, CreatingPR));
      if !PutFailed(x.o, diff) {
        CreatingOver(x, asked);
      }
    }
  }

  /** A log of preparations that all worked. */
  ghost predicate Prepares(x: Setting, log: Log) {
    Follows(x, log) && |log| == Preparations(x.cfg) && Next(x, log) == Some(Prepare(x, log))
    && forall i | 0 <= i < |log| :: log[i].Setup?
  }

  lemma {:induction false} SetupsCountNothing(log: Log)
    requires forall i | 0 <= i < |log| :: log[i].Setup?
    ensures Attempts(log) == 0 && VisualRuns(log) == 0 && Awaited(log).None?
  {
    if log != [] {
      SetupsCountNothing(log[..|log| - 1]);
    }
  }

  lemma BuildOver(x: Setting, log: Log)
    requires Prepares(x, log) && Implements(x.command)
    ensures Over(x, ImplementationRun(x.cfg, x.o, log))
  {
    var e, begun := Prepare(x, log), log + [Did(Begin(Implementing, x.o.fault(log)))];
    Grow(x, log, e);
    NextOf(x, log, e);
    if x.o.fault(log) == NoFault {
      if !x.o.check(begun, Prompt) {
        WritesLast(x, begun, Failed);
      } else {
        SetupsCountNothing(log);
        CountsOf(log, e);
        assert begun[..|begun|] == begun;
        BuiltOver(x, begun, x.o.issueImages(begun));
      }
    }
  }

  lemma BuiltOver(x: Setting, begun: Log, base: seq<string>)
    requires Tells(x, base, begun, Tally(0, 0, None)) && Next(x, begun) == Some(Ask(x, begun, base))
    ensures var t := Turns(x.cfg, x.o, base, Start(x.o, begun, base));
            Over(x, if t.Break? then Publish(x.cfg, x.o, t.log) else LogOf(t))
  {
    var t := Turns(x.cfg, x.o, base, Start(x.o, begun, base));
    LoopEnds(x, base, Start(x.o, begun, base));
    if t.Break? {
      PublishOver(x, t.log);
    }
  }

  lemma PlanOver(x: Setting, log: Log)
    requires Prepares(x, log) && x.command == "plan"
    ensures Over(x, PlanRun(x.o, log))
  {
    var e, begun := Prepare(x, log), log + [Did(Begin(Planning, x.o.fault(log)))];
    Grow(x, log, e);
    NextOf(x, log, e);
    if x.o.fault(log) == NoFault {
      if !x.o.check(begun, Prompt) {
        WritesLast(x, begun, Failed);
      } else {
        PlannedOver(x, begun);
      }
    }
  }

  lemma PlannedOver(x: Setting, begun: Log)
    requires Follows(x, begun) && x.command == "plan"
    requires Next(x, begun) == Some(Ask(x, begun, x.o.issueImages(begun)))
    ensures var answered := RunCodex(x.o, begun, x.o.issueImages(begun));
            Over(x, match x.o.codex(begun)
                    case Broke => Put(x.o, answered, Failed)
                    case Revise => Put(x.o, answered, WaitingHuman)
                    case Completed => Put(x.o, answered, if x.o.check(answered, SavePlan) then Done else Failed))
  {
    var answered := RunCodex(x.o, begun, x.o.issueImages(begun));
    Grow(x, begun, Ask(x, begun, x.o.issueImages(begun)));
    NextOf(x, begun, Ask(x, begun, x.o.issueImages(begun)));
    match x.o.codex(begun)
    case Broke => WritesLast(x, answered, Failed);
    case Revise => WritesLast(x, answered, WaitingHuman);
    case Completed => WritesLast(x, answered, if x.o.check(answered, SavePlan) then Done else Failed);
  }

  lemma DispatchOver(x: Setting, log: Log)
    requires Prepares(x, log)
    ensures Over(x, Dispatch(x.cfg, x.o, log, x.command))
  {
    if x.command == "plan" {
      PlanOver(x, log);
    } else if Implements(x.command) {
      BuildOver(x, log);
    } else {
      WritesLast(x, log, Failed);
    }
  }

  lemma SetupNext(x: Setting, log: Log)
    requires Follows(x, log) && Next(x, log) == Some(Setup(x.o.setup(log)))
    ensures Follows(x, RunSetup(x.o, log))
    ensures if x.o.setup(log) then Next(x, RunSetup(x.o, log)) == Some(Prepare(x, RunSetup(x.o, log)))
            else Over(x, Put(x.o, RunSetup(x.o, log), Failed))
  {
    Grow(x, log, Setup(x.o.setup(log)));
    NextOf(x, log, Setup(x.o.setup(log)));
    if !x.o.setup(log) {
      WritesLast(x, RunSetup(x.o, log), Failed);
    }
  }

  lemma PlaywrightOver(x: Setting, log: Log)
    requires Follows(x, log) && Next(x, log) == Some(Prepare(x, log))
    requires (forall i | 0 <= i < |log| :: log[i].Setup?) && |log| == if x.cfg.setupCommands then 1 else 0
    ensures Over(x, WithPlaywright(x.cfg, x.o, log, x.command))
  {
    if x.cfg.playwright {
      SetupNext(x, log);
      if x.o.setup(log) {
        DispatchOver(x, RunSetup(x.o, log));
      }
    } else {
      DispatchOver(x, log);
    }
  }

  /** Whatever the job is and whatever is answered: at every moment of the run, what it has logged so far is all
      that decides its next step, and it ends just when there is none. */
  lemma RunFollowsItsLog(x: Setting)
    ensures Over(x, JobRun(x.cfg, x.o, x.command))
  {
    if !Prepared(x.cfg, x.o, []) {
      WritesLast(x, [], Failed);
    } else if !x.cfg.setupCommands {
      PlaywrightOver(x, []);
    } else {
      SetupNext(x, []);
      if x.o.setup([]) {
        PlaywrightOver(x, RunSetup(x.o, []));
      }
    }
  }

  lemma {:induction false} SameSoFar(x: Setting, a: Log, b: Log, n: nat)
    requires Follows(x, a) && Follows(x, b) && n <= |a| && n <= |b|
    ensures a[..n] == b[..n]
  {
    if n > 0 {
      SameSoFar(x, a, b, n - 1);
      assert Due(x, a, n - 1) && Due(x, b, n - 1);
      assert a[..n] == a[..n - 1] + [a[n - 1]] && b[..n] == b[..n - 1] + [b[n - 1]];
    }
  }

  lemma OverIsOne(x: Setting, a: Log, b: Log)
    requires Over(x, a) && Over(x, b) && |a| <= |b|
    ensures a == b
  {
    SameSoFar(x, a, b, |a|);
    assert a == a[..|a|] == b[..|a|];
    assert |a| < |b| ==> Due(x, b, |a|);
  }

  /** There is only one such log. */
  lemma OnlyRun(x: Setting, log: Log)
    requires Over(x, log)
    ensures log == JobRun(x.cfg, x.o, x.command)
  {
    var run := JobRun(x.cfg, x.o, x.command);
    RunFollowsItsLog(x);
    if |log| <= |run| {
      OverIsOne(x, log, run);
    } else {
      OverIsOne(x, run, log);
    }
  }

  // ------------------------------------------------------- when it waits for a human

  ghost predicate Waits(e: Event) {
    e.Did? && e.act.Set? && e.act.state == WaitingHuman
  }

  /** The repairs are used up by the attempt that has just failed; or the tests passed and the visual reviews
      are used up; or Codex wants a new plan and no visual review is possible. */
  ghost predicate Exhausted(cfg: Config, log: Log) {
    log != [] && var last := log[|log| - 1];
    || (FailedAttempt(last) && Attempts(log) == Limit(cfg.repairAttempts, 8) + 1)
    || (last == Tests(true) && cfg.visualCommands && VisualRuns(log) == Limit(cfg.visualAttempts, 3))
    || (last.Codex? && last.answer == Revise
        && (!cfg.visualCommands || VisualRuns(log) == Limit(cfg.visualAttempts, 3)))
  }

  lemma FollowsFront(x: Setting, log: Log)
    requires Follows(x, log) && log != []
    ensures Follows(x, log[..|log| - 1]) && Next(x, log[..|log| - 1]) == Some(log[|log| - 1])
  {
    assert Due(x, log, |log| - 1);
    PrefixFollows(x, log, |log| - 1);
  }

  lemma {:induction false} AttemptsBounded(x: Setting, log: Log)
    requires Follows(x, log) && x.command != "plan"
    ensures var limit := Limit(x.cfg.repairAttempts, 8);
            && Attempts(log) <= limit + 1
            && (Attempts(log) == limit + 1 ==> FailedAttempt(log[|log| - 1]) || Waits(log[|log| - 1]))
  {
    if log != [] {
      FollowsFront(x, log);
      AttemptsBounded(x, log[..|log| - 1]);
    }
  }

  predicate ToReview(log: Log) {
    log != [] && log[|log| - 1].Did? && log[|log| - 1].act.Set? && log[|log| - 1].act.state == Testing
    && ForReview(log[..|log| - 1])
  }

  lemma {:induction false} VisualsBounded(x: Setting, log: Log)
    requires Follows(x, log) && x.command != "plan"
    ensures VisualRuns(log) <= Limit(x.cfg.visualAttempts, 3)
    ensures ToReview(log) ==> VisualRuns(log) < Limit(x.cfg.visualAttempts, 3)
  {
    if log != [] {
      FollowsFront(x, log);
      VisualsBounded(x, log[..|log| - 1]);
    }
  }

  lemma PrefixFollows(x: Setting, log: Log, p: nat)
    requires Follows(x, log) && p <= |log|
    ensures Follows(x, log[..p])
  {
    forall i | 0 <= i < p
      ensures Due(x, log[..p], i)
    {
      assert Due(x, log, i) && log[..p][..i] == log[..i];
    }
  }

  /** An implementation is handed to a human exactly where it is exhausted. */
  lemma WaitsExactly(x: Setting, p: nat)
    requires Implements(x.command) && p < |JobRun(x.cfg, x.o, x.command)|
    ensures var log := JobRun(x.cfg, x.o, x.command);
            Waits(log[p]) <==> Exhausted(x.cfg, log[..p])
  {
    var log := JobRun(x.cfg, x.o, x.command);
    RunFollowsItsLog(x);
    PrefixFollows(x, log, p);
    NextAt(x, log, p);
    WaitsNext(x, log[..p], log[p]);
  }

  lemma WaitsNext(x: Setting, log: Log, e: Event)
    requires Implements(x.command) && Follows(x, log) && Next(x, log) == Some(e)
    ensures Waits(e) <==> Exhausted(x.cfg, log)
  {
    AttemptsBounded(x, log);
    VisualsBounded(x, log);
    if log != [] {
      var last := log[|log| - 1];
      if last.Codex? {
        WaitsAfterAnswer(x, log, last);
      }
    }
  }

  lemma WaitsAfterAnswer(x: Setting, log: Log, last: Event)
    requires log != [] && last == log[|log| - 1] && last.Codex?
    requires Attempts(log) <= Limit(x.cfg.repairAttempts, 8) + 1 && VisualRuns(log) <= Limit(x.cfg.visualAttempts, 3)
    ensures Waits(AfterAnswer(x, log, last.answer)) <==> Exhausted(x.cfg, log)
  {
  }

  /** A failed attempt is never the end: it is repaired as long as there are repairs left. */
  lemma FailedIsRepaired(x: Setting, p: nat)
    requires Implements(x.command)
    requires p < |JobRun(x.cfg, x.o, x.command)| && FailedAttempt(JobRun(x.cfg, x.o, x.command)[p])
    ensures var log := JobRun(x.cfg, x.o, x.command);
            && p + 1 < |log|
            && log[p + 1] == Did(Set(
                 if Attempts(log[..p + 1]) <= Limit(x.cfg.repairAttempts, 8) then Implementing else WaitingHuman,
                 x.o.fault(log[..p + 1])))
  {
    var log := JobRun(x.cfg, x.o, x.command);
    RunFollowsItsLog(x);
    NextAt(x, log, p);
    FailedNext(x, log[..p + 1], log[..p], log[p]);
  }

  lemma FailedNext(x: Setting, log: Log, front: Log, last: Event)
    requires FailedAttempt(last) && x.command != "plan"
    ensures After(x, log, front, last) == Some(Recover(x, log))
  {
  }

  // ------------------------------------------------------------ from creating_pr on

  /** What was built is committed and pushed, as far as the workspace is a repository. */
  predicate Pushed(x: Setting, log: Log) {
    x.cfg.git ==> x.o.check(log, Commit) && x.o.dirty(log) && x.o.check(log, Push)
  }

  lemma NextAt(x: Setting, log: Log, p: nat)
    requires Over(x, log) && p < |log|
    ensures Next(x, log[..p + 1]) == After(x, log[..p + 1], log[..p], log[p])
    ensures Next(x, log[..p]) == Some(log[p])
    ensures if p + 1 < |log| then Next(x, log[..p + 1]) == Some(log[p + 1]) else Next(x, log[..p + 1]).None?
  {
    assert Due(x, log, p) && log[..p + 1][..p] == log[..p];
    assert if p + 1 < |log| then Due(x, log, p + 1) else log[..p + 1] == log;
  }

  /** A pull request is asked for only when there is a commit and it is pushed. */
  lemma RequestIsPushed(x: Setting, p: nat)
    requires p < |JobRun(x.cfg, x.o, x.command)| && RequestsPR(JobRun(x.cfg, x.o, x.command)[p])
    ensures Pushed(x, JobRun(x.cfg, x.o, x.command)[..p])
  {
    var log := JobRun(x.cfg, x.o, x.command);
    RunFollowsItsLog(x);
    NextAt(x, log, p);
    OnlyCreatingAsks(x, log[..p], log[p]);
  }

  /** Nothing but creating_pr leads to a request. */
  lemma OnlyCreatingAsks(x: Setting, log: Log, e: Event)
    requires Next(x, log) == Some(e) && RequestsPR(e)
    ensures log != [] && log[|log| - 1] == Did(Set(CreatingPR, NoFault)) && Pushed(x, log)
  {
  }

  lemma RequestIsNearTheEnd(x: Setting, log: Log, q: nat)
    requires Over(x, log) && q < |log| && RequestsPR(log[q])
    ensures if log[q].act.result.None? then |log| == q + 2 && log[q + 1] == Write(x, log[..q + 1], Failed)
            else |log| == q + 3 && log[q + 1] == Did(Number(log[q].act.result.value, x.o.fault(log[..q + 1])))
                 && log[q + 2] == Write(x, log[..q + 2], Done)
  {
    NextAt(x, log, q);
    NextAt(x, log, q + 1);
    if log[q].act.result.Some? {
      NextAt(x, log, q + 2);
    }
  }

  /** Once creating_pr is written, a request is made exactly if what was built is committed and pushed;
      else the job ends at once: as done when there was nothing to commit, as failed otherwise. */
  lemma CreatingDecides(x: Setting, p: nat)
    requires p < |JobRun(x.cfg, x.o, x.command)|
    requires JobRun(x.cfg, x.o, x.command)[p] == Did(Set(CreatingPR, NoFault))
    ensures var log := JobRun(x.cfg, x.o, x.command);
            var asked := log[..p + 1];
            && ((exists q | 0 <= q < |log| :: RequestsPR(log[q])) <==> Pushed(x, asked))
            && p + 1 < |log|
            && (Pushed(x, asked) ==> log[p + 1] == Did(OpenPR(x.o.pullRequest(asked))))
            && (!Pushed(x, asked) ==>
                 |log| == p + 2
                 && log[p + 1] == Did(Set(if x.o.check(asked, Commit) && !x.o.dirty(asked) then Done else Failed,
                                          x.o.fault(asked))))
  {
    var log := JobRun(x.cfg, x.o, x.command);
    RunFollowsItsLog(x);
    CreatingNext(x, log, p);
    CreatingEnds(x, log[..p + 1]);
    if q :| 0 <= q < |log| && RequestsPR(log[q]) {
      OnlyNextAsks(x, log, p, q);
    }
    assert Pushed(x, log[..p + 1]) ==> RequestsPR(log[p + 1]);
  }

  lemma CreatingEnds(x: Setting, asked: Log)
    ensures AfterCreating(x, asked)
         == if Pushed(x, asked) then Did(OpenPR(x.o.pullRequest(asked)))
            else Did(Set(if x.o.check(asked, Commit) && !x.o.dirty(asked) then Done else Failed, x.o.fault(asked)))
  {
  }

  lemma OnlyNextAsks(x: Setting, log: Log, p: nat, q: nat)
    requires Over(x, log) && p < |log| && log[p] == Did(Set(CreatingPR, NoFault))
    requires q < |log| && RequestsPR(log[q])
    ensures q == p + 1
  {
    OnlyCreatingAsksAt(x, log, q);
    if p < q - 1 {
      NotCreatedAgain(x, log, p, q - 1);
    } else if q - 1 < p {
      NotCreatedAgain(x, log, q - 1, p);
    }
  }

  lemma NotCreatedAgain(x: Setting, log: Log, p: nat, r: nat)
    requires Over(x, log) && p < r < |log| && log[p] == Did(Set(CreatingPR, NoFault))
    ensures log[r] != Did(Set(CreatingPR, NoFault))
  {
    CreatingNext(x, log, p);
    CreatingEnds(x, log[..p + 1]);
    if Pushed(x, log[..p + 1]) {
      RequestIsNearTheEnd(x, log, p + 1);
    }
  }

  lemma OnlyCreatingAsksAt(x: Setting, log: Log, q: nat)
    requires Over(x, log) && q < |log| && RequestsPR(log[q])
    ensures q > 0 && log[q - 1] == Did(Set(CreatingPR, NoFault))
  {
    NextAt(x, log, q);
    OnlyCreatingAsks(x, log[..q], log[q]);
  }

  lemma CreatingNext(x: Setting, log: Log, p: nat)
    requires Over(x, log) && p < |log| && log[p] == Did(Set(CreatingPR, NoFault))
    ensures p + 1 < |log| && log[p + 1] == AfterCreating(x, log[..p + 1])
    ensures !Pushed(x, log[..p + 1]) ==> |log| == p + 2
  {
    NextAt(x, log, p);
    NextAt(x, log, p + 1);
  }

  // -------------------------------------------------------------------------- plans

  /** A plan is done if Codex completed and the plan was saved; it waits for a human if Codex wants it
      revised; otherwise it has failed. */
  lemma PlanEnds(x: Setting, p: nat)
    requires x.command == "plan"
    requires p < |JobRun(x.cfg, x.o, x.command)| && JobRun(x.cfg, x.o, x.command)[p].Codex?
    ensures var log := JobRun(x.cfg, x.o, x.command);
            var ran := log[..p + 1];
            && |log| == p + 2
            && log[p + 1] == Did(Set(
                 if log[p].answer == Revise then WaitingHuman
                 else if log[p].answer == Completed && x.o.check(ran, SavePlan) then Done
                 else Failed,
                 x.o.fault(ran)))
  {
    var log := JobRun(x.cfg, x.o, x.command);
    RunFollowsItsLog(x);
    NextAt(x, log, p);
    PlanNext(x, log[..p + 1], log[..p], log[p]);
    NothingBehind(x, log, p + 1);
  }

  lemma PlanNext(x: Setting, log: Log, front: Log, last: Event)
    requires x.command == "plan" && last.Codex?
    ensures After(x, log, front, last) == Some(Write(x, log,
              if last.answer == Revise then WaitingHuman
              else if last.answer == Completed && x.o.check(log, SavePlan) then Done
              else Failed))
  {
  }

  lemma NothingBehind(x: Setting, log: Log, p: nat)
    requires Over(x, log) && p < |log| && log[p].Did? && log[p].act.Set?
    requires log[p].act.state == WaitingHuman || log[p].act.state == Failed || log[p].act.state == Done
    ensures |log| == p + 1
  {
    NextAt(x, log, p);
  }

  // --------------------------------------------------------------- the row in the end

  /** The tables differ in the state and the number of one row at most. */
  ghost predicate RowMoved(t: Tables, after: Tables, id: string) {
    && OnlyRow(t, after, id) && id in t.jobs && id in after.jobs
    && after.jobs[id] == t.jobs[id].(state := after.jobs[id].state, prNumber := after.jobs[id].prNumber)
  }

  lemma ActMovesRow(t: Tables, id: string, act: Act)
    requires id in t.jobs
    ensures RowMoved(t, Apply(t, id, act), id)
  {
  }

  lemma MovedTwice(t: Tables, u: Tables, v: Tables, id: string)
    requires RowMoved(t, u, id) && RowMoved(u, v, id)
    ensures RowMoved(t, v, id)
  {
  }

  /** Acts change nothing else. */
  lemma {:induction false} ActsKeepRow(t: Tables, id: string, acts: seq<Act>)
    requires id in t.jobs
    ensures RowMoved(t, Replay(t, id, acts), id)
  {
    if acts != [] {
      var u := Replay(t, id, acts[..|acts| - 1]);
      ActsKeepRow(t, id, acts[..|acts| - 1]);
      ActMovesRow(u, id, acts[|acts| - 1]);
      MovedTwice(t, u, Replay(t, id, acts), id);
    }
  }

  lemma ReplayDid(t: Tables, id: string, log: Log, act: Act)
    ensures Replay(t, id, Acts(log + [Did(act)])) == Apply(Replay(t, id, Acts(log)), id, act)
  {
    assert (log + [Did(act)])[..|log|] == log;
    ReplayOne(t, id, Acts(log), act);
  }

  lemma LastIsWrite(x: Setting, log: Log)
    requires Over(x, log) && log != [] && Faultless(log[|log| - 1])
    ensures log[|log| - 1].Did? && log[|log| - 1].act.Set?
  {
    var last := log[|log| - 1];
    assert Next(x, log) == After(x, log, log[..|log| - 1], last);
  }

  /** With a queue that works, the row ends with the state that the run wrote last. */
  lemma EndsAsWritten(x: Setting, t: Tables, id: string)
    requires id in t.jobs && AllFaultless(JobRun(x.cfg, x.o, x.command))
    ensures var log := JobRun(x.cfg, x.o, x.command);
            && log != [] && log[|log| - 1].Did? && log[|log| - 1].act.Set?
            && InState(Replay(t, id, Acts(log)), id, log[|log| - 1].act.state)
  {
    var log := JobRun(x.cfg, x.o, x.command);
    RunFollowsItsLog(x);
    assert Faultless(log[|log| - 1]);
    LastIsWrite(x, log);
    LastSplit(log);
    WrittenLast(t, id, log[..|log| - 1], log[|log| - 1].act.state);
  }

  lemma WrittenLast(t: Tables, id: string, front: Log, state: State)
    requires id in t.jobs
    ensures InState(Replay(t, id, Acts(front + [Did(Set(state, NoFault))])), id, state)
  {
    ReplayDid(t, id, front, Set(state, NoFault));
    ActsKeepRow(t, id, Acts(front));
    SetShows(Replay(t, id, Acts(front)), id, state);
  }

  lemma SetShows(t: Tables, id: string, state: State)
    requires id in t.jobs
    ensures InState(Apply(t, id, Set(state, NoFault)), id, state)
  {
  }

  /** And if the pull request was opened, it is done and carries its number. */
  lemma OpenedRow(x: Setting, t: Tables, id: string, p: nat)
    requires id in t.jobs && AllFaultless(JobRun(x.cfg, x.o, x.command))
    requires p < |JobRun(x.cfg, x.o, x.command)| && OpenedPR(JobRun(x.cfg, x.o, x.command)[p])
    ensures var log := JobRun(x.cfg, x.o, x.command);
            var after := Replay(t, id, Acts(log));
            && id in after.jobs
            && after.jobs[id] == t.jobs[id].(state := Done, prNumber := log[p].act.result.value)
  {
    var log := JobRun(x.cfg, x.o, x.command);
    RunFollowsItsLog(x);
    NumberedEnd(x, log, p);
    NumberAndDone(t, id, log[..p + 1], log[p].act.result.value);
  }

  lemma NumberedEnd(x: Setting, log: Log, p: nat)
    requires Over(x, log) && AllFaultless(log) && p < |log| && OpenedPR(log[p])
    ensures log == log[..p + 1] + [Did(Number(log[p].act.result.value, NoFault))] + [Did(Set(Done, NoFault))]
  {
    RequestIsNearTheEnd(x, log, p);
    assert Faultless(log[p + 1]) && Faultless(log[p + 2]);
    LastThree(log, p + 1);
  }

  lemma LastThree(log: Log, n: nat)
    requires |log| == n + 2
    ensures log == log[..n] + [log[n]] + [log[n + 1]]
  {
  }

  lemma NumberAndDone(t: Tables, id: string, front: Log, number: int)
    requires id in t.jobs
    ensures var after := Replay(t, id, Acts(front + [Did(Number(number, NoFault))] + [Did(Set(Done, NoFault))]));
            && id in after.jobs && after.jobs[id] == t.jobs[id].(state := Done, prNumber := number)
  {
    ReplayDid(t, id, front, Number(number, NoFault));
    ReplayDid(t, id, front + [Did(Number(number, NoFault))], Set(Done, NoFault));
    ActsKeepRow(t, id, Acts(front));
  }
}
