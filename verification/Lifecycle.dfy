/** What the holder of a lease may do to its job, step by step. */
module Lifecycle {
  import opened Text
  import opened Queue

  /** A change that a worker asks for: of its row in the queue, or on GitHub. */
  datatype Act =
    | Begin(to: State, fault: Fault)      // Transition out of starting
    | Set(state: State, fault: Fault)     // SetState
    | OpenPR(result: Option<int>)         // CreatePullRequest, which may fail
    | Number(number: int, fault: Fault)   // SetPRNumber

  function Apply(t: Tables, id: string, act: Act): Tables {
    match act
    case Begin(to, fault) => Faulty(t, Move(t, id, Starting, to), fault)
    case Set(state, fault) => Faulty(t, PutState(t, id, state), fault)
    case OpenPR(_) => t
    case Number(number, fault) => Faulty(t, PutNumber(t, id, number), fault)
  }

  function Replay(t: Tables, id: string, acts: seq<Act>): Tables {
    if acts == [] then t else Apply(Replay(t, id, acts[..|acts| - 1]), id, acts[|acts| - 1])
  }

  /** Where a worker is with its job. */
  datatype Phase =
    | Ready      // leased, nothing started
    | Drafting
    | Building   // in the implementation loop or the checks behind it
    | Publishing // creating_pr is set
    | Refused    // the pull request could not be created
    | Opened     // the pull request exists
    | Stopped

  /** The acts a worker may make next, and where they lead; None for an act it never makes. */
  function Advance(p: Phase, act: Act): Option<Phase> {
    match (p, act)
    case (Ready, Begin(Planning, fault)) => Some(if fault == NoFault then Drafting else Stopped)
    case (Ready, Begin(Implementing, fault)) => Some(if fault == NoFault then Building else Stopped)
    case (Ready, Set(Failed, _)) => Some(Stopped)
    case (Drafting, Set(state, _)) =>
      if state == Done || state == Failed || state == WaitingHuman then Some(Stopped) else None
    case (Building, Set(Implementing, fault)) => Some(if fault == NoFault then Building else Stopped)
    case (Building, Set(Testing, _)) => Some(Building)
    case (Building, Set(CreatingPR, fault)) => Some(if fault == NoFault then Publishing else Stopped)
    case (Building, Set(state, _)) => if state == Failed || state == WaitingHuman then Some(Stopped) else None
    case (Publishing, OpenPR(result)) => Some(if result.Some? then Opened else Refused)
    case (Publishing, Set(state, _)) => if state == Failed || state == Done then Some(Stopped) else None
    case (Refused, Set(Failed, _)) => Some(Stopped)
    case (Opened, Number(_, _)) => Some(Opened)
    case (Opened, Set(Done, _)) => Some(Stopped)
    case _ => None
  }

  /** The phase after a series of acts; None when a worker never acts like that. */
  function After(acts: seq<Act>): Option<Phase> {
    if acts == [] then Some(Ready)
    else
      var before := After(acts[..|acts| - 1]);
      if before.None? then None else Advance(before.value, acts[|acts| - 1])
  }

  lemma AfterOne(acts: seq<Act>, act: Act)
    ensures After(acts + [act]) == if After(acts).None? then None else Advance(After(acts).value, act)
  {
    assert (acts + [act])[..|acts|] == acts;
  }

  lemma ReplayOne(t: Tables, id: string, acts: seq<Act>, act: Act)
    ensures Replay(t, id, acts + [act]) == Apply(Replay(t, id, acts), id, act)
  {
    assert (acts + [act])[..|acts|] == acts;
  }

  // ------------------------------------------------- what a history says about the job

  predicate Terminal(state: State) {
    state == Done || state == Failed || state == WaitingHuman
  }

  /** The states a job row may be in while its holder is in a phase. */
  predicate Consistent(p: Phase, state: State) {
    match p
    case Ready => state == Starting
    case Drafting => state == State.Planning
    case Building => state == Implementing || state == Testing
    case Publishing => state == CreatingPR
    case Refused => state == CreatingPR
    case Opened => state == CreatingPR
    case Stopped => state != Queued
  }

  /** The transitions a job can make once it is leased. */
  predicate Edge(from: State, to: State) {
    match from
    case Starting => to == Planning || to == Implementing || to == Failed
    case Planning => to == Done || to == Failed || to == WaitingHuman
    case Implementing => to == Implementing || to == Testing || to == CreatingPR || to == Failed || to == WaitingHuman
    case Testing => to == Implementing || to == Testing || to == CreatingPR || to == Failed || to == WaitingHuman
    case CreatingPR => to == Done || to == Failed
    case _ => false
  }

  /** An allowed act takes a consistent row to a consistent row, along an edge if the state is written. */
  lemma ActKeepsRow(p: Phase, t: Tables, id: string, act: Act)
    requires id in t.jobs && Consistent(p, t.jobs[id].state) && Advance(p, act).Some?
    ensures var after := Apply(t, id, act);
            && id in after.jobs
            && Consistent(Advance(p, act).value, after.jobs[id].state)
            && (after.jobs[id].state == t.jobs[id].state || Edge(t.jobs[id].state, after.jobs[id].state))
            && after.deliveries == t.deliveries && after.jobs.Keys == t.jobs.Keys
            && after.jobs[id].deliveryId == t.jobs[id].deliveryId
            && (forall other | other in t.jobs && other != id :: after.jobs[other] == t.jobs[other])
  {
  }

  predicate Reliable(act: Act) {
    match act
    case Begin(_, fault) => fault == NoFault
    case Set(_, fault) => fault == NoFault
    case OpenPR(_) => true
    case Number(_, fault) => fault == NoFault
  }

  predicate Opening(act: Act) {
    act.OpenPR?
  }

  predicate Opens(act: Act) {
    act.OpenPR? && act.result.Some?
  }

  /** How often a pull request was asked for. */
  function Requests(acts: seq<Act>): nat {
    if acts == [] then 0 else Requests(acts[..|acts| - 1]) + if Opening(acts[|acts| - 1]) then 1 else 0
  }

  ghost predicate HasAsked(acts: seq<Act>) {
    exists i :: 0 <= i < |acts| && Opening(acts[i])
  }

  ghost predicate HasOpened(acts: seq<Act>) {
    exists i :: 0 <= i < |acts| && Opens(acts[i])
  }

  predicate Early(p: Phase) {
    p == Ready || p == Drafting || p == Building || p == Publishing
  }

  /** What a phase reveals about the number of requests, and whether there was one and it succeeded. */
  predicate Fits(p: Phase, requests: nat, asked: bool, succeeded: bool) {
    && requests <= 1 && (requests == 0 <==> !asked)
    && (Early(p) ==> requests == 0)
    && (p == Opened ==> succeeded)
    && (p == Refused ==> !succeeded)
  }

  ghost predicate Reveals(p: Phase, acts: seq<Act>) {
    Fits(p, Requests(acts), HasAsked(acts), HasOpened(acts))
  }

  lemma FitsMore(p: Phase, act: Act, requests: nat, asked: bool, succeeded: bool)
    requires Fits(p, requests, asked, succeeded) && (succeeded ==> asked) && Advance(p, act).Some?
    ensures Fits(Advance(p, act).value, requests + if Opening(act) then 1 else 0,
                 asked || Opening(act), succeeded || Opens(act))
  {
  }

  lemma AsksOne(acts: seq<Act>, act: Act)
    ensures HasAsked(acts + [act]) <==> HasAsked(acts) || Opening(act)
    ensures HasOpened(acts + [act]) <==> HasOpened(acts) || Opens(act)
    ensures HasOpened(acts) ==> HasAsked(acts)
  {
    var more := acts + [act];
    assert more[|acts|] == act && forall i | 0 <= i < |acts| :: more[i] == acts[i];
    if i :| 0 <= i < |acts| && Opening(acts[i]) {
      assert Opening(more[i]);
    }
    if i :| 0 <= i < |acts| && Opens(acts[i]) {
      assert Opens(more[i]) && Opening(acts[i]);
    }
    assert Opening(act) ==> Opening(more[|acts|]);
    assert Opens(act) ==> Opens(more[|acts|]);
  }

  lemma RequestsOne(acts: seq<Act>, act: Act)
    ensures Requests(acts + [act]) == Requests(acts) + if Opening(act) then 1 else 0
  {
    assert (acts + [act])[..|acts|] == acts;
  }

  lemma RevealsMore(p: Phase, acts: seq<Act>, act: Act)
    requires Reveals(p, acts) && Advance(p, act).Some?
    ensures Reveals(Advance(p, act).value, acts + [act])
  {
    AsksOne(acts, act);
    RequestsOne(acts, act);
    FitsMore(p, act, Requests(acts), HasAsked(acts), HasOpened(acts));
  }

  /** At most one pull request is asked for, none before creating_pr, and the phase tells how it went. */
  lemma {:induction false} PhaseHistory(acts: seq<Act>)
    requires After(acts).Some?
    ensures Reveals(After(acts).value, acts)
  {
    if acts != [] {
      var front, last := acts[..|acts| - 1], acts[|acts| - 1];
      PhaseHistory(front);
      RevealsMore(After(front).value, front, last);
      assert acts == front + [last];
    }
  }

  ghost predicate AllReliable(acts: seq<Act>) {
    forall i | 0 <= i < |acts| :: Reliable(acts[i])
  }

  lemma ReliableStep(p: Phase, t: Tables, id: string, act: Act)
    requires id in t.jobs && Consistent(p, t.jobs[id].state) && Advance(p, act).Some? && Reliable(act)
    ensures var q, after := Advance(p, act).value, Apply(t, id, act);
            && id in after.jobs && Consistent(q, after.jobs[id].state)
            && (q == Stopped ==> Terminal(after.jobs[id].state))
            && (q == Stopped && p == Opened ==> after.jobs[id].state == Done)
  {
    ActKeepsRow(p, t, id, act);
  }

  /** With a queue that works, a job that its worker has left is in one of three states: done,
      failed or waiting for a human. */
  lemma {:induction false} ReliableEnd(t: Tables, id: string, acts: seq<Act>)
    requires InState(t, id, Starting) && After(acts).Some? && AllReliable(acts)
    ensures id in Replay(t, id, acts).jobs
    ensures var state := Replay(t, id, acts).jobs[id].state;
            && Consistent(After(acts).value, state)
            && (After(acts).value == Stopped ==> Terminal(state))
  {
    if acts != [] {
      var front, last := acts[..|acts| - 1], acts[|acts| - 1];
      assert AllReliable(front) by {
        assert forall i | 0 <= i < |front| :: front[i] == acts[i];
      }
      ReliableEnd(t, id, front);
      ReliableStep(After(front).value, Replay(t, id, front), id, last);
    }
  }

  /** A job whose pull request was opened ends as done. */
  lemma OpenedEndsDone(t: Tables, id: string, acts: seq<Act>, i: nat)
    requires InState(t, id, Starting) && After(acts) == Some(Stopped) && AllReliable(acts)
    requires i < |acts| && Opens(acts[i])
    ensures InState(Replay(t, id, acts), id, Done)
  {
    var front, last := acts[..|acts| - 1], acts[|acts| - 1];
    assert AllReliable(front) by {
      assert forall k | 0 <= k < |front| :: front[k] == acts[k];
    }
    ReliableEnd(t, id, front);
    StoppingOpensNothing(After(front).value, last);
    assert i < |front| && front[i] == acts[i];
    PhaseHistory(front);
    PhaseHistory(acts);
    ReliableStep(After(front).value, Replay(t, id, front), id, last);
  }

  lemma StoppingOpensNothing(p: Phase, act: Act)
    requires Advance(p, act) == Some(Stopped)
    ensures !Opening(act) && p != Stopped
  {
  }
}
