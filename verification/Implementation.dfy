/** internal/worker: the run of one leased job, as a function of what its surroundings answer.
    Everything that happens goes into a log; every answer may depend on the whole log so far. */
module Implementation {
  import opened Text
  import opened Queue
  import opened Lifecycle
  import DiffPolicy
  import Images

  type Mark = string

  datatype Answer = Broke | Revise | Completed

  datatype Event =
    | Setup(passed: bool)                                   // commands that prepare the workspace
    | Codex(inputs: seq<string>, answer: Answer)
    | Tests(passed: bool)
    | Visual(commandsPassed: bool, images: seq<string>)     // the visual review commands and the new screenshots
    | Print(mark: Option<Mark>)                             // the workspace fingerprint
    | Diff(files: Option<seq<string>>)                      // the changed files at the gate
    | Did(act: Act)

  type Log = seq<Event>

  /** The steps that may fail without anything else to tell. */
  datatype Check = Workspace | RepoConfigured | CodexHome | Branch | Clone | Prompt | SavePlan | Commit | Push

  datatype Oracle = Oracle(
    fault: Log -> Fault,
    check: (Log, Check) -> bool,
    setup: Log -> bool,
    issueImages: Log -> seq<string>,
    codex: Log -> Answer,
    tests: Log -> bool,
    visual: Log -> (bool, seq<string>),
    publicImages: Log -> seq<string>,
    fingerprint: Log -> Option<Mark>,
    files: Log -> Option<seq<string>>,
    dirty: Log -> bool,
    pullRequest: Log -> Option<int>)

  datatype Config = Config(
    repairAttempts: Option<int>,       // None without a configuration
    visualAttempts: Option<int>,
    setupCommands: bool,
    playwright: bool,                  // enabled, and the workspace has its command line
    clones: bool,
    visualCommands: bool,
    git: bool,
    denyPaths: seq<string>,
    reviewPaths: seq<string>,
    glob: DiffPolicy.Glob)

  function MaxRepair(cfg: Config): nat {
    if cfg.repairAttempts.Some? && cfg.repairAttempts.value > 0 then cfg.repairAttempts.value else 8
  }

  function MaxVisual(cfg: Config): nat {
    if cfg.visualAttempts.Some? && cfg.visualAttempts.value > 0 then cfg.visualAttempts.value else 3
  }

  predicate Passed(review: Event)
    requires review.Visual?
  {
    review.commandsPassed && review.images != []
  }

  /** What the review tells the loop: whether it passed, and its screenshots. */
  function Verdict(review: Event): (bool, seq<string>)
    requires review.Visual?
  {
    (Passed(review), review.images)
  }

  // ------------------------------------------------------------------ single steps

  function Put(o: Oracle, log: Log, state: State): Log {
    log + [Did(Set(state, o.fault(log)))]
  }

  predicate PutFailed(o: Oracle, log: Log) {
    o.fault(log) != NoFault
  }

  function RunCodex(o: Oracle, log: Log, inputs: seq<string>): Log {
    log + [Codex(inputs, o.codex(log))]
  }

  function RunTests(o: Oracle, log: Log): Log {
    log + [Tests(o.tests(log))]
  }

  function Look(o: Oracle, log: Log): Event {
    Visual(o.visual(log).0, o.visual(log).1)
  }

  function RunVisual(o: Oracle, log: Log): Log {
    log + [Look(o, log)]
  }

  function Fingerprint(o: Oracle, log: Log): Log {
    log + [Print(o.fingerprint(log))]
  }

  // --------------------------------------------------------- the implementation loop

  datatype Loop = Loop(repair: nat, visual: nat, pending: bool, mark: Mark, inputs: seq<string>, log: Log)

  /** How a turn of the loop ends: another turn, the way out to the pull request, or the end of the job. */
  datatype Turn = Again(next: Loop) | Break(log: Log) | Halt(log: Log)

  /** What every kind of failed attempt leads to. */
  function Retry(cfg: Config, o: Oracle, s: Loop, log: Log, images: seq<string>, base: seq<string>): Turn {
    if s.repair >= MaxRepair(cfg) then Halt(Put(o, log, WaitingHuman))
    else Again(s.(repair := s.repair + 1, inputs := Images.Merge(base, images), log := log))
  }

  /** A visual review has passed: it is to be confirmed, if the workspace has a fingerprint. */
  function Confirming(o: Oracle, s: Loop, seen: Log, images: seq<string>, base: seq<string>): Turn {
    var mark := o.fingerprint(seen);
    Again(s.(
      pending := s.pending || mark.Some?,
      mark := if mark.Some? then mark.value else s.mark,
      inputs := Images.Merge(base, images),
      log := Fingerprint(o, seen)))
  }

  /** A visual review and what follows it. */
  function Reviewed(cfg: Config, o: Oracle, base: seq<string>, s: Loop, log: Log): Turn {
    var asked := Put(o, log, Testing);
    if PutFailed(o, log) then Halt(Put(o, asked, Failed))
    else
      Judged(cfg, o, s.(visual := s.visual + 1), RunVisual(o, asked), Verdict(Look(o, asked)), base)
  }

  /** A review that passed is to be confirmed; one that did not is a failed attempt. */
  function Judged(cfg: Config, o: Oracle, s: Loop, seen: Log, review: (bool, seq<string>), base: seq<string>): Turn {
    if review.0 then Confirming(o, s, seen, review.1, base) else Retry(cfg, o, s, seen, review.1, base)
  }

  /** The tests passed: what is built is to be looked at, if there is a way and still a budget for it. */
  function Tested(cfg: Config, o: Oracle, base: seq<string>, s: Loop, tested: Log): Turn {
    if !cfg.visualCommands then Break(tested)
    else if s.visual >= MaxVisual(cfg) then Halt(Put(o, tested, WaitingHuman))
    else Reviewed(cfg, o, base, s, tested)
  }

  /** Codex completed, and no confirmation was pending or it did not hold. */
  function Verified(cfg: Config, o: Oracle, base: seq<string>, s: Loop, log: Log): Turn {
    var asked := Put(o, log, Testing);
    if PutFailed(o, log) then Halt(asked)
    else
      var tested := RunTests(o, asked);
      if !o.tests(asked) then Retry(cfg, o, s, tested, o.publicImages(tested), base)
      else Tested(cfg, o, base, s, tested)
  }

  function Answered(cfg: Config, o: Oracle, base: seq<string>, s: Loop, log: Log, answer: Answer): Turn {
    match answer
    case Broke => Retry(cfg, o, s, log, o.publicImages(log), base)
    case Revise =>
      if cfg.visualCommands && s.visual < MaxVisual(cfg) then Reviewed(cfg, o, base, s, log)
      else Halt(Put(o, log, WaitingHuman))
    case Completed =>
      if !s.pending then Verified(cfg, o, base, s, log)
      else if o.fingerprint(log) == Some(s.mark) then Break(Fingerprint(o, log))
      else Verified(cfg, o, base, s.(pending := false, mark := ""), Fingerprint(o, log))
  }

  function TakeTurn(cfg: Config, o: Oracle, base: seq<string>, s: Loop): Turn {
    var log := if s.repair > 0 then Put(o, s.log, Implementing) else s.log;
    if s.repair > 0 && PutFailed(o, s.log) then Halt(log)
    else Answered(cfg, o, base, s, RunCodex(o, log, s.inputs), o.codex(log))
  }

  predicate InBudget(cfg: Config, s: Loop) {
    s.repair <= MaxRepair(cfg) && s.visual <= MaxVisual(cfg)
  }

  function Budget(cfg: Config, s: Loop): nat
    requires InBudget(cfg, s)
  {
    (MaxRepair(cfg) - s.repair) + (MaxVisual(cfg) - s.visual)
  }

  /** Every turn that is followed by another one uses up some of the budget. */
  lemma TurnSpends(cfg: Config, o: Oracle, base: seq<string>, s: Loop)
    requires InBudget(cfg, s)
    ensures var t := TakeTurn(cfg, o, base, s);
            t.Again? ==> InBudget(cfg, t.next) && Budget(cfg, t.next) < Budget(cfg, s)
  {
  }

  function Turns(cfg: Config, o: Oracle, base: seq<string>, s: Loop): (t: Turn)
    requires InBudget(cfg, s)
    ensures !t.Again?
    decreases Budget(cfg, s)
  {
    TurnSpends(cfg, o, base, s);
    var t := TakeTurn(cfg, o, base, s);
    if t.Again? then Turns(cfg, o, base, t.next) else t
  }

  // --------------------------------------------------------------- the whole run

  /** The pull request itself. */
  function Request(o: Oracle, log: Log): Log {
    var pr := o.pullRequest(log);
    var answered := log + [Did(OpenPR(pr))];
    if pr.None? then Put(o, answered, Failed)
    else Put(o, answered + [Did(Number(pr.value, o.fault(answered)))], Done)
  }

  /** The gate, the commit and the pull request. */
  ghost function Publish(cfg: Config, o: Oracle, log: Log): Log {
    var diff := log + [Diff(o.files(log))];
    if o.files(log).None? then Put(o, diff, Failed)
    else if !DiffPolicy.Permits(o.files(log).value, cfg.denyPaths, cfg.glob) then Put(o, diff, Failed)
    else
      var asked := Put(o, diff, CreatingPR);
      if PutFailed(o, diff) then asked
      else if cfg.git && !o.check(asked, Commit) then Put(o, asked, Failed)
      else if cfg.git && !o.dirty(asked) then Put(o, asked, Done)
      else if cfg.git && !o.check(asked, Push) then Put(o, asked, Failed)
      else Request(o, asked)
  }

  function Start(o: Oracle, log: Log, base: seq<string>): Loop {
    Loop(0, 0, false, "", base, log)
  }

  ghost function ImplementationRun(cfg: Config, o: Oracle, log: Log): Log {
    var begun := log + [Did(Begin(Implementing, o.fault(log)))];
    if o.fault(log) != NoFault then begun
    else if !o.check(begun, Prompt) then Put(o, begun, Failed)
    else
      var base := o.issueImages(begun);
      match Turns(cfg, o, base, Start(o, begun, base))
      case Halt(end) => end
      case Break(end) => Publish(cfg, o, end)
  }

  function PlanRun(o: Oracle, log: Log): Log {
    var begun := log + [Did(Begin(Planning, o.fault(log)))];
    if o.fault(log) != NoFault then begun
    else if !o.check(begun, Prompt) then Put(o, begun, Failed)
    else
      var answered := RunCodex(o, begun, o.issueImages(begun));
      match o.codex(begun)
      case Broke => Put(o, answered, Failed)
      case Revise => Put(o, answered, WaitingHuman)
      case Completed => Put(o, answered, if o.check(answered, SavePlan) then Done else Failed)
  }

  predicate Prepared(cfg: Config, o: Oracle, log: Log) {
    && o.check(log, Workspace) && o.check(log, RepoConfigured) && o.check(log, CodexHome)
    && o.check(log, Branch) && (cfg.clones ==> o.check(log, Clone))
  }

  function RunSetup(o: Oracle, log: Log): Log {
    log + [Setup(o.setup(log))]
  }

  ghost function Dispatch(cfg: Config, o: Oracle, log: Log, command: string): Log {
    if command == "plan" then PlanRun(o, log)
    else if command == "implement" || command == "fix" then ImplementationRun(cfg, o, log)
    else Put(o, log, Failed)
  }

  ghost function WithPlaywright(cfg: Config, o: Oracle, log: Log, command: string): Log {
    if !cfg.playwright then Dispatch(cfg, o, log, command)
    else if !o.setup(log) then Put(o, RunSetup(o, log), Failed)
    else Dispatch(cfg, o, RunSetup(o, log), command)
  }

  /** The log of a leased job from the lease to the end. */
  ghost function JobRun(cfg: Config, o: Oracle, command: string): Log {
    if !Prepared(cfg, o, []) then Put(o, [], Failed)
    else if !cfg.setupCommands then WithPlaywright(cfg, o, [], command)
    else if !o.setup([]) then Put(o, RunSetup(o, []), Failed)
    else WithPlaywright(cfg, o, RunSetup(o, []), command)
  }
}
