/** internal/worker/worker.go: the worker itself, which changes the queue as it goes. */
module Worker {
  import opened Text
  import opened Queue
  import opened Lifecycle
  import opened Implementation
  import opened Guarantees
  import DiffPolicy
  import Images

  class Worker {
    const store: Store
    const cfg: Config
    const env: Oracle
    var id: string          // the job at hand
    var log: Log            // what has happened in it
    ghost var start: Tables // the tables when it was leased

    constructor (store: Store, cfg: Config, env: Oracle)
      ensures this.store == store && this.cfg == cfg && this.env == env
    {
      this.store, this.cfg, this.env := store, cfg, env;
      id, log := "", [];
      start := Tables(map[], map[]);
    }

    /** The tables are what the acts in the log make of them. */
    ghost predicate Synced()
      reads this, store
    {
      store.View() == Replay(start, id, Acts(log))
    }

    /** Queue.SetState, with what the log records of it. */
    method PutState(state: State) returns (ok: bool)
      requires Synced()
      modifies this`log, store
      ensures Synced()
      ensures log == Put(env, old(log), state)
      ensures ok <==> !PutFailed(env, old(log))
    {
      var fault := env.fault(log);
      ok := store.SetState(id, state, fault);
      SetOne(start, id, log, state, fault);
      log := log + [Did(Set(state, fault))];
    }

    method Note(e: Event)
      requires Synced() && !e.Did?
      modifies this`log
      ensures Synced()
      ensures log == old(log) + [e]
    {
      ActsOne(log, e);
      log := log + [e];
    }

    method Begin(to: State) returns (ok: bool)
      requires Synced() && InState(store.View(), id, Starting)
      modifies this`log, store
      ensures Synced()
      ensures log == old(log) + [Did(Act.Begin(to, env.fault(old(log))))]
      ensures ok <==> env.fault(old(log)) == NoFault
    {
      var fault := env.fault(log);
      ghost var before := store.View();
      ok := store.Transition(id, Starting, to, fault);
      assert store.View() == Faulty(before, Move(before, id, Starting, to), fault);
      BeginOne(start, id, log, to, fault);
      log := log + [Did(Act.Begin(to, fault))];
    }

    /** None when the state could not be written; else whether the review passed, and its screenshots. */
    method RunVisualReview() returns (review: Option<(bool, seq<string>)>)
      requires Synced() && cfg.visualCommands
      modifies this`log, store
      ensures Synced()
      ensures review.None? <==> PutFailed(env, old(log))
      ensures review.None? ==> log == Put(env, old(log), Testing)
      ensures review.Some? ==> log == RunVisual(env, Put(env, old(log), Testing))
      ensures review.Some? ==> review.value == Verdict(Look(env, Put(env, old(log), Testing)))
    {
      var ok := PutState(Testing);
      if !ok {
        return None;
      }
      var (passed, images) := env.visual(log);
      Note(Visual(passed, images));
      if !passed || images == [] {
        return Some((false, images));
      }
      return Some((true, images));
    }

    /** What the loop does whenever an attempt fails: it asks for a new plan if the repairs are used up. */
    method Repair(s: Loop, images: seq<string>, base: seq<string>) returns (t: Turn)
      requires Synced()
      modifies this`log, store
      ensures Synced()
      ensures t == Retry(cfg, env, s, old(log), images, base) && log == LogOf(t)
    {
      if s.repair >= MaxRepair(cfg) {
        var _ := PutState(WaitingHuman);
        return Halt(log);
      }
      var merged := Images.MergeImageFiles(base, images);
      return Again(s.(repair := s.repair + 1, inputs := merged, log := log));
    }

    /** A visual review has passed, and Codex is to confirm it. */
    method Confirm(s: Loop, images: seq<string>, base: seq<string>) returns (t: Turn)
      requires Synced()
      modifies this`log, store
      ensures Synced()
      ensures t == Confirming(env, s, old(log), images, base) && log == LogOf(t)
    {
      var next := s;
      var found := env.fingerprint(log);
      Note(Print(found));
      if found.Some? {
        next := next.(pending := true, mark := found.value);
      }
      var merged := Images.MergeImageFiles(base, images);
      return Again(next.(inputs := merged, log := log));
    }

    /** The visual review inside the loop. */
    method Review(s: Loop, base: seq<string>) returns (t: Turn)
      requires Synced() && cfg.visualCommands
      modifies this`log, store
      ensures Synced()
      ensures t == Reviewed(cfg, env, base, s, old(log)) && log == LogOf(t)
    {
      var review := RunVisualReview();
      if review.None? {
        var _ := PutState(Failed);
        t := Halt(log);
      } else {
        t := Judge(s.(visual := s.visual + 1), review.value, base);
      }
    }

    /** A review that passed is to be confirmed; one that did not is a failed attempt. */
    method Judge(s: Loop, review: (bool, seq<string>), base: seq<string>) returns (t: Turn)
      requires Synced()
      modifies this`log, store
      ensures Synced()
      ensures t == Judged(cfg, env, s, old(log), review, base) && log == LogOf(t)
    {
      if review.0 {
        t := Confirm(s, review.1, base);
      } else {
        t := Repair(s, review.1, base);
      }
    }

    /** The second half of a turn: Codex completed, and what it made is to be verified. */
    method Verify(s: Loop, base: seq<string>) returns (t: Turn)
      requires Synced()
      modifies this`log, store
      ensures Synced()
      ensures t == Verified(cfg, env, base, s, old(log)) && log == LogOf(t)
    {
      var ok := PutState(Testing);
      if !ok {
        return Halt(log);
      }
      var passed := env.tests(log);
      Note(Tests(passed));
      if !passed {
        t := Repair(s, env.publicImages(log), base);
      } else {
        t := LookAt(s, base);
      }
    }

    /** The tests passed: the visual review, if there are commands for it and its budget is not used up. */
    method LookAt(s: Loop, base: seq<string>) returns (t: Turn)
      requires Synced()
      modifies this`log, store
      ensures Synced()
      ensures t == Tested(cfg, env, base, s, old(log)) && log == LogOf(t)
    {
      if !cfg.visualCommands {
        return Break(log);
      }
      if s.visual >= MaxVisual(cfg) {
        var _ := PutState(WaitingHuman);
        return Halt(log);
      }
      t := Review(s, base);
    }

    /** What Codex answered decides how the turn goes on. */
    method Answer(s: Loop, base: seq<string>, answer: Answer) returns (t: Turn)
      requires Synced()
      modifies this`log, store
      ensures Synced()
      ensures t == Answered(cfg, env, base, s, old(log), answer) && log == LogOf(t)
    {
      match answer
      case Broke =>
        t := Repair(s, env.publicImages(log), base);
      case Revise =>
        if cfg.visualCommands && s.visual < MaxVisual(cfg) {
          t := Review(s, base);
        } else {
          var _ := PutState(WaitingHuman);
          t := Halt(log);
        }
      case Completed =>
        if !s.pending {
          t := Verify(s, base);
          return;
        }
        var found := env.fingerprint(log);
        Note(Print(found));
        if found == Some(s.mark) {
          return Break(log);
        }
        t := Verify(s.(pending := false, mark := ""), base);
    }

    /** The loop of runImplementation: true when it is left for the pull request. */
    method Implement(base: seq<string>) returns (done: bool)
      requires Synced()
      modifies this`log, store
      ensures Synced()
      ensures var t := Turns(cfg, env, base, Start(env, old(log), base));
              t == if done then Break(log) else Halt(log)
    {
      var s := Start(env, log, base);
      ghost var goal := Turns(cfg, env, base, s);
      while true
        invariant Synced() && s.log == log && InBudget(cfg, s)
        invariant goal == Turns(cfg, env, base, s)
        decreases if InBudget(cfg, s) then Budget(cfg, s) else 0
      {
        TurnSpends(cfg, env, base, s);
        if s.repair > 0 {
          var ok := PutState(Implementing);
          if !ok {
            return false;
          }
        }
        var answer := env.codex(log);
        Note(Codex(s.inputs, answer));
        var t := Answer(s, base, answer);
        assert t == TakeTurn(cfg, env, base, s);
        if !t.Again? {
          return t.Break?;
        }
        s := t.next;
      }
    }

    /** The rest of runImplementation: the gate, the commit and the pull request. */
    method PublishChange()
      requires Synced()
      modifies this`log, store
      ensures Synced()
      ensures log == Publish(cfg, env, old(log))
    {
      var files := env.files(log);
      Note(Diff(files));
      if files.None? {
        var _ := PutState(Failed);
        return;
      }
      var verdict := DiffPolicy.Evaluate(files.value, cfg.denyPaths, cfg.reviewPaths, cfg.glob);
      if !verdict.allowed {
        var _ := PutState(Failed);
        return;
      }
      var ok := PutState(CreatingPR);
      if !ok {
        return;
      }
      if cfg.git {
        if !env.check(log, Commit) {
          var _ := PutState(Failed);
          return;
        }
        if !env.dirty(log) {
          var _ := PutState(Done);
          return;
        }
        if !env.check(log, Push) {
          var _ := PutState(Failed);
          return;
        }
      }
      RequestPullRequest();
    }

    method RequestPullRequest()
      requires Synced()
      modifies this`log, store
      ensures Synced()
      ensures log == Request(env, old(log))
    {
      var result := env.pullRequest(log);
      DidOne(start, id, log, OpenPR(result));
      log := log + [Did(OpenPR(result))];
      if result.None? {
        var _ := PutState(Failed);
        return;
      }
      var fault := env.fault(log);
      var _ := store.SetPRNumber(id, result.value, fault);
      NumberOne(start, id, log, result.value, fault);
      log := log + [Did(Number(result.value, fault))];
      var _ := PutState(Done);
    }

    method RunImplementation()
      requires Synced() && InState(store.View(), id, Starting)
      modifies this`log, store
      ensures Synced()
      ensures log == ImplementationRun(cfg, env, old(log))
    {
      var ok := Begin(Implementing);
      if !ok {
        return;
      }
      if !env.check(log, Prompt) {
        var _ := PutState(Failed);
        return;
      }
      var done := Implement(env.issueImages(log));
      if done {
        PublishChange();
      }
    }

    method RunPlan()
      requires Synced() && InState(store.View(), id, Starting)
      modifies this`log, store
      ensures Synced()
      ensures log == PlanRun(env, old(log))
    {
      var ok := Begin(Planning);
      if !ok {
        return;
      }
      if !env.check(log, Prompt) {
        var _ := PutState(Failed);
        return;
      }
      var answer := env.codex(log);
      Note(Codex(env.issueImages(log), answer));
      if answer == Broke {
        var _ := PutState(Failed);
      } else if answer == Revise {
        var _ := PutState(WaitingHuman);
      } else if !env.check(log, SavePlan) {
        var _ := PutState(Failed);
      } else {
        var _ := PutState(Done);
      }
    }

    /** Commands that prepare the workspace, which fail the job when they fail. */
    method PrepareWith() returns (ok: bool)
      requires Synced()
      modifies this`log, store
      ensures Synced()
      ensures ok <==> env.setup(old(log))
      ensures ok ==> log == RunSetup(env, old(log)) && store.View() == old(store.View())
      ensures !ok ==> log == Put(env, RunSetup(env, old(log)), Failed)
    {
      ok := env.setup(log);
      Note(Setup(ok));
      if !ok {
        var _ := PutState(Failed);
      }
    }

    method RunCommand(command: string)
      requires Synced() && InState(store.View(), id, Starting)
      modifies this`log, store
      ensures Synced()
      ensures log == Dispatch(cfg, env, old(log), command)
    {
      if command == "plan" {
        RunPlan();
      } else if command == "implement" || command == "fix" {
        RunImplementation();
      } else {
        var _ := PutState(Failed);
      }
    }

    method RunJob(command: string)
      requires Synced() && InState(store.View(), id, Starting) && log == []
      modifies this`log, store
      ensures Synced()
      ensures log == JobRun(cfg, env, command)
    {
      if !Prepared(cfg, env, log) {
        var _ := PutState(Failed);
        return;
      }
      if cfg.setupCommands {
        var ok := PrepareWith();
        if !ok {
          return;
        }
      }
      if cfg.playwright {
        var ok := PrepareWith();
        if !ok {
          return;
        }
      }
      RunCommand(command);
    }

    /** One round of the worker: at most one job is leased, and it is run to its end. Nothing changes
        but what the lease and the acts of the run say. */
    method RunOne(leaseFault: Fault)
      modifies this, store
      ensures LeaseOutcome(old(store.View()), start, leaseFault, if log == [] then None else Some(id))
      ensures log != [] ==> id in start.jobs && log == JobRun(cfg, env, start.jobs[id].command)
      ensures store.View() == Replay(start, id, Acts(log))
    {
      var leased := store.LeaseNext(leaseFault);
      start, log := store.View(), [];
      if leased.Some? {
        id := leased.value;
        RunJob(store.jobs[id].command);
        RunFollowsLifecycle(cfg, env, start.jobs[id].command);
        assert log != [];
      }
    }
  }

  lemma ActsOne(log: Log, e: Event)
    ensures Acts(log + [e]) == if e.Did? then Acts(log) + [e.act] else Acts(log)
  {
    assert (log + [e])[..|log|] == log;
    assert Acts(log) + [] == Acts(log);
  }

  lemma BeginOne(start: Tables, id: string, log: Log, to: State, fault: Fault)
    ensures var t := Replay(start, id, Acts(log));
            Replay(start, id, Acts(log + [Did(Act.Begin(to, fault))])) == Faulty(t, Move(t, id, Starting, to), fault)
  {
    DidOne(start, id, log, Act.Begin(to, fault));
  }

  lemma SetOne(start: Tables, id: string, log: Log, state: State, fault: Fault)
    ensures var t := Replay(start, id, Acts(log));
            Replay(start, id, Acts(log + [Did(Set(state, fault))])) == Faulty(t, PutState(t, id, state), fault)
  {
    DidOne(start, id, log, Set(state, fault));
  }

  lemma NumberOne(start: Tables, id: string, log: Log, number: int, fault: Fault)
    ensures var t := Replay(start, id, Acts(log));
            Replay(start, id, Acts(log + [Did(Number(number, fault))])) == Faulty(t, PutNumber(t, id, number), fault)
  {
    DidOne(start, id, log, Number(number, fault));
  }

  lemma DidOne(start: Tables, id: string, log: Log, act: Act)
    ensures Replay(start, id, Acts(log + [Did(act)])) == Apply(Replay(start, id, Acts(log)), id, act)
  {
    ActsOne(log, Did(act));
    ReplayOne(start, id, Acts(log), act);
  }
}
