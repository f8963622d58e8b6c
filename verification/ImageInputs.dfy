/** What a Codex run is shown after a visual review. */
module ImageInputs {
  import opened Text
  import opened Queue
  import opened Lifecycle
  import opened Implementation
  import opened Guarantees
  import Images

  /** The screenshots of a visual review that Codex has not been run on yet. */
  function Unseen(log: Log): Option<seq<string>> {
    if log == [] then None
    else
      match log[|log| - 1]
      case Visual(_, images) => Some(images)
      case Codex(_, _) => None
      case _ => Unseen(log[..|log| - 1])
  }

  lemma UnseenOne(log: Log, e: Event)
    ensures Unseen(log + [e]) == if e.Visual? then Some(e.images) else if e.Codex? then None else Unseen(log)
  {
    assert (log + [e])[..|log|] == log;
  }

  /** The inputs show the screenshots that are still unseen, behind the issue's own images. */
  predicate Shows(base: seq<string>, log: Log, inputs: seq<string>) {
    Unseen(log).Some? ==> inputs == Images.Merge(base, Unseen(log).value)
  }

  predicate ShownAt(base: seq<string>, log: Log, i: nat)
    requires i < |log|
  {
    log[i].Codex? ==> Shows(base, log[..i], log[i].inputs)
  }

  ghost predicate AllShown(base: seq<string>, log: Log) {
    forall i | 0 <= i < |log| :: ShownAt(base, log, i)
  }

  lemma ShownOne(base: seq<string>, log: Log, e: Event)
    requires AllShown(base, log)
    requires e.Codex? ==> Shows(base, log, e.inputs)
    ensures AllShown(base, log + [e])
  {
    forall i | 0 <= i < |log + [e]|
      ensures ShownAt(base, log + [e], i)
    {
      if i < |log| {
        assert ShownAt(base, log, i);
        assert (log + [e])[..i] == log[..i];
      } else {
        assert (log + [e])[..i] == log;
      }
    }
  }

  /** What every turn keeps. */
  ghost predicate Feeds(base: seq<string>, s: Loop) {
    AllShown(base, s.log) && Shows(base, s.log, s.inputs)
  }

  ghost predicate TurnFeeds(base: seq<string>, t: Turn) {
    if t.Again? then Feeds(base, t.next) else AllShown(base, LogOf(t))
  }

  lemma PutShown(base: seq<string>, o: Oracle, log: Log, state: State)
    requires AllShown(base, log)
    ensures AllShown(base, Put(o, log, state)) && Unseen(Put(o, log, state)) == Unseen(log)
  {
    ShownOne(base, log, Did(Set(state, o.fault(log))));
    UnseenOne(log, Did(Set(state, o.fault(log))));
  }

  lemma RetryFeeds(cfg: Config, o: Oracle, s: Loop, log: Log, images: seq<string>, base: seq<string>)
    requires AllShown(base, log) && Shows(base, log, Images.Merge(base, images))
    ensures TurnFeeds(base, Retry(cfg, o, s, log, images, base))
  {
    PutShown(base, o, log, WaitingHuman);
  }

  lemma ReviewedFeeds(cfg: Config, o: Oracle, base: seq<string>, s: Loop, log: Log)
    requires AllShown(base, log)
    ensures TurnFeeds(base, Reviewed(cfg, o, base, s, log))
  {
    var asked := Put(o, log, Testing);
    PutShown(base, o, log, Testing);
    PutShown(base, o, asked, Failed);
    var seen := RunVisual(o, asked);
    ShownOne(base, asked, Look(o, asked));
    UnseenOne(asked, Look(o, asked));
    RetryFeeds(cfg, o, s.(visual := s.visual + 1), seen, Look(o, asked).images, base);
    ShownOne(base, seen, Print(o.fingerprint(seen)));
    UnseenOne(seen, Print(o.fingerprint(seen)));
  }

  lemma VerifiedFeeds(cfg: Config, o: Oracle, base: seq<string>, s: Loop, log: Log)
    requires AllShown(base, log) && Unseen(log).None?
    ensures TurnFeeds(base, Verified(cfg, o, base, s, log))
  {
    var asked := Put(o, log, Testing);
    PutShown(base, o, log, Testing);
    var tested := RunTests(o, asked);
    ShownOne(base, asked, Tests(o.tests(asked)));
    UnseenOne(asked, Tests(o.tests(asked)));
    RetryFeeds(cfg, o, s, tested, o.publicImages(tested), base);
    PutShown(base, o, tested, WaitingHuman);
    ReviewedFeeds(cfg, o, base, s, tested);
  }

  lemma AnsweredFeeds(cfg: Config, o: Oracle, base: seq<string>, s: Loop, log: Log, answer: Answer)
    requires AllShown(base, log) && Unseen(log).None?
    ensures TurnFeeds(base, Answered(cfg, o, base, s, log, answer))
  {
    match answer
    case Broke =>
      RetryFeeds(cfg, o, s, log, o.publicImages(log), base);
    case Revise =>
      ReviewedFeeds(cfg, o, base, s, log);
      PutShown(base, o, log, WaitingHuman);
    case Completed =>
      VerifiedFeeds(cfg, o, base, s, log);
      ShownOne(base, log, Print(o.fingerprint(log)));
      UnseenOne(log, Print(o.fingerprint(log)));
      VerifiedFeeds(cfg, o, base, s.(pending := false, mark := ""), Fingerprint(o, log));
  }

  lemma TurnFeedsNext(cfg: Config, o: Oracle, base: seq<string>, s: Loop)
    requires Feeds(base, s)
    ensures TurnFeeds(base, TakeTurn(cfg, o, base, s))
  {
    var log := if s.repair > 0 then Put(o, s.log, Implementing) else s.log;
    PutShown(base, o, s.log, Implementing);
    ShownOne(base, log, Codex(s.inputs, o.codex(log)));
    UnseenOne(log, Codex(s.inputs, o.codex(log)));
    AnsweredFeeds(cfg, o, base, s, RunCodex(o, log, s.inputs), o.codex(log));
  }

  lemma {:induction false} LoopFeeds(cfg: Config, o: Oracle, base: seq<string>, s: Loop)
    requires InBudget(cfg, s) && Feeds(base, s)
    ensures AllShown(base, LogOf(Turns(cfg, o, base, s)))
    decreases Budget(cfg, s)
  {
    TurnSpends(cfg, o, base, s);
    TurnFeedsNext(cfg, o, base, s);
    var t := TakeTurn(cfg, o, base, s);
    if t.Again? {
      LoopFeeds(cfg, o, base, t.next);
    }
  }

  lemma {:induction false} NothingRunYet(base: seq<string>, log: Log)
    requires CodexRuns(log) == 0 && VisualRuns(log) == 0
    ensures AllShown(base, log) && Unseen(log).None?
  {
    if log != [] {
      var front, last := log[..|log| - 1], log[|log| - 1];
      NothingRunYet(base, front);
      ShownOne(base, front, last);
      assert log == front + [last];
    }
  }

  /** The next Codex run after a visual review is given the issue's images and then each new
      screenshot exactly once, whatever else happens in between. */
  lemma ReviewReachesCodex(cfg: Config, o: Oracle, log: Log, base: seq<string>, i: nat)
    requires CodexRuns(log) == 0 && VisualRuns(log) == 0
    requires var end := LogOf(Turns(cfg, o, base, Start(o, log, base)));
             && i < |end| && end[i].Codex? && Unseen(end[..i]).Some?
             && Images.Fresh(base, Unseen(end[..i]).value)
    ensures var end := LogOf(Turns(cfg, o, base, Start(o, log, base)));
            end[i].inputs == Images.Merged(base) + Unseen(end[..i]).value
  {
    NothingRunYet(base, log);
    LoopFeeds(cfg, o, base, Start(o, log, base));
    var end := LogOf(Turns(cfg, o, base, Start(o, log, base)));
    assert ShownAt(base, end, i);
    Images.MergeFresh(base, Unseen(end[..i]).value);
  }
}
