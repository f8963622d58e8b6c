/** What holds in every run of the protocol, in whatever order its steps come. */
module Interleaving {
  import opened Text
  import opened Queue
  import opened Lifecycle
  import opened Protocol

  ghost predicate StepAt(run: seq<System>, labels: seq<Label>, i: nat)
    requires i < |labels| && |run| == |labels| + 1
  {
    Enabled(run[i], labels[i]) && run[i + 1] == Next(run[i], labels[i])
  }

  ghost predicate Run(run: seq<System>, labels: seq<Label>) {
    && |run| == |labels| + 1 && run[0] == Initial()
    && forall i | 0 <= i < |labels| :: StepAt(run, labels, i)
  }

  lemma {:induction false} Always(run: seq<System>, labels: seq<Label>, i: nat)
    requires Run(run, labels) && i < |run|
    ensures Inv(run[i])
  {
    if i > 0 {
      Always(run, labels, i - 1);
      assert StepAt(run, labels, i - 1);
      NextKeeps(run[i - 1], labels[i - 1]);
    }
  }

  lemma StepOf(run: seq<System>, labels: seq<Label>, k: nat)
    requires Run(run, labels) && k < |labels|
    ensures Inv(run[k]) && Enabled(run[k], labels[k]) && run[k + 1] == Next(run[k], labels[k])
  {
    Always(run, labels, k);
    assert StepAt(run, labels, k);
  }

  /** A delivery leads to one job at most, however often it is sent and whatever fails. */
  lemma OneJobPerDelivery(run: seq<System>, labels: seq<Label>, i: nat, id: string, other: string)
    requires Run(run, labels) && i < |run|
    requires id in run[i].tables.jobs && other in run[i].tables.jobs && id != other
    ensures run[i].tables.jobs[id].deliveryId != run[i].tables.jobs[other].deliveryId
  {
    Always(run, labels, i);
  }

  /** A job is leased once at most; while it is held nobody else holds it; and a holder that has not
      begun finds its job in the state that Transition asks for. */
  lemma LeasedOnceHeldAlone(run: seq<System>, labels: seq<Label>, i: nat, v: nat, w: nat)
    requires Run(run, labels) && i < |run|
    requires v in run[i].workers && w in run[i].workers && run[i].workers[v].Holding? && run[i].workers[w].Holding?
    ensures Distinct(run[i].leases)
    ensures run[i].workers[v].job in run[i].leases
    ensures run[i].workers[v].job == run[i].workers[w].job ==> v == w
    ensures run[i].workers[v].phase == Ready ==> InState(run[i].tables, run[i].workers[v].job, Starting)
  {
    Always(run, labels, i);
    var s := run[i];
    assert Holds(s.workers[v], s.workers[v].job) && Holds(s.workers[w], s.workers[w].job);
    assert JobOk(s.tables, s.workers[v].job, s.done[s.workers[v].job]);
  }

  /** No two pull requests are asked for on behalf of the same job or the same delivery. */
  lemma OneRequestPerDelivery(run: seq<System>, labels: seq<Label>, i: nat, m: nat, n: nat)
    requires Run(run, labels) && i < |run| && m < n < |run[i].pulls|
    ensures var s := run[i];
            && s.pulls[m] != s.pulls[n]
            && s.pulls[m] in s.tables.jobs && s.pulls[n] in s.tables.jobs
            && s.tables.jobs[s.pulls[m]].deliveryId != s.tables.jobs[s.pulls[n]].deliveryId
  {
    Always(run, labels, i);
    var s := run[i];
    assert s.pulls[m] in s.pulls && s.pulls[n] in s.pulls;
    assert JobOk(s.tables, s.pulls[m], s.done[s.pulls[m]]) && JobOk(s.tables, s.pulls[n], s.done[s.pulls[n]]);
  }

  // ------------------------------------------------------------------ who changes what

  /** The steps that are about a job that exists: its lease, and the work of its holder. */
  predicate Touches(s: System, l: Label, id: string) {
    match l
    case Lease(_, next, _) => next == Some(id)
    case Work(w, _) => w in s.workers && Holds(s.workers[w], id)
    case _ => false
  }

  predicate Moves(from: State, to: State) {
    from == to || (from == Queued && to == Starting) || Edge(from, to)
  }

  /** A row stays, keeps its delivery, and moves along the edges; and if it is not touched, neither
      the row nor what is known of its holder changes. */
  ghost predicate Framed(s: System, after: System, id: string, touched: bool)
    requires id in s.tables.jobs
  {
    && id in after.tables.jobs
    && after.tables.jobs[id].deliveryId == s.tables.jobs[id].deliveryId
    && Moves(s.tables.jobs[id].state, after.tables.jobs[id].state)
    && (!touched ==> after.tables.jobs[id] == s.tables.jobs[id])
    && (id in s.done ==> id in after.done)
    && (!touched && id in s.done ==> after.done[id] == s.done[id])
  }

  /** Rows are changed by their lease and by their holder only. */
  lemma StepFrame(s: System, l: Label, id: string)
    requires Inv(s) && Enabled(s, l) && id in s.tables.jobs
    ensures Framed(s, Next(s, l), id, Touches(s, l, id))
  {
    match l
    case Arrive(_, _) => RowsFrame(s, Next(s, l), id);
    case Record(_, _, _) => RowsFrame(s, Next(s, l), id);
    case Decide(_, _) => RowsFrame(s, Next(s, l), id);
    case Leave(_) => RowsFrame(s, Next(s, l), id);
    case Create(h, other, fault) =>
      CreateFrame(s, h, other, fault, id);
    case Lease(w, next, fault) =>
      if next.Some? {
        LeaseFrame(s, w, next.value, fault, id);
      } else {
        RowsFrame(s, s, id);
      }
    case Work(w, act) =>
      HolderIsConsistent(s, w);
      WorkFrame(s, w, act, id);
  }

  lemma RowsFrame(s: System, after: System, id: string)
    requires id in s.tables.jobs && after.tables.jobs == s.tables.jobs && after.done == s.done
    ensures Framed(s, after, id, false)
  {
  }

  lemma CreateFrame(s: System, h: nat, other: string, fault: Fault, id: string)
    requires h in s.handlers && s.handlers[h].Approved? && id in s.tables.jobs
    ensures Framed(s, Created(s, h, other, fault), id, false)
  {
  }

  lemma LeaseFrame(s: System, w: nat, next: string, fault: Fault, id: string)
    requires Inv(s) && Oldest(s.tables, next) && id in s.tables.jobs
    ensures Framed(s, Leased(s, w, next, fault), id, id == next)
    ensures id in s.done ==> id != next
  {
    LeaseKeepsLeases(s.tables, next, s.leases, s.done);
    LeasedFrame(s, w, next, fault, id);
  }

  lemma LeasedFrame(s: System, w: nat, next: string, fault: Fault, id: string)
    requires Oldest(s.tables, next) && next !in s.done && id in s.tables.jobs
    ensures Framed(s, Leased(s, w, next, fault), id, id == next)
  {
  }

  lemma HolderIsConsistent(s: System, w: nat)
    requires Inv(s) && w in s.workers && s.workers[w].Holding?
    ensures var job := s.workers[w].job;
            job in s.tables.jobs && Consistent(s.workers[w].phase, s.tables.jobs[job].state) && job in s.done
  {
    assert JobOk(s.tables, s.workers[w].job, s.done[s.workers[w].job]);
  }

  lemma WorkFrame(s: System, w: nat, act: Act, id: string)
    requires Enabled(s, Work(w, act)) && id in s.tables.jobs
    requires var job := s.workers[w].job;
             job in s.tables.jobs && Consistent(s.workers[w].phase, s.tables.jobs[job].state) && job in s.done
    ensures Framed(s, Worked(s, w, act), id, Holds(s.workers[w], id))
  {
    ActKeepsRow(s.workers[w].phase, s.tables, s.workers[w].job, act);
  }

  lemma TerminalIsStopped(p: Phase, state: State)
    requires Consistent(p, state) && Terminal(state)
    ensures p == Stopped
  {
  }

  lemma TerminalMeansStopped(t: Tables, leases: seq<string>, done: map<string, seq<Act>>, id: string)
    requires LeasesOnce(t, leases, done) && id in t.jobs && Terminal(t.jobs[id].state)
    ensures id in done && After(done[id]) == Some(Stopped)
  {
    if id in done {
      assert JobOk(t, id, done[id]);
      TerminalIsStopped(After(done[id]).value, t.jobs[id].state);
    }
  }

  lemma TerminalUntouched(s: System, l: Label, id: string)
    requires Inv(s) && Enabled(s, l) && id in s.tables.jobs && Terminal(s.tables.jobs[id].state)
    ensures !Touches(s, l, id)
  {
    TerminalMeansStopped(s.tables, s.leases, s.done, id);
  }

  /** Once a job is done, failed or waiting for a human, its row never changes again. */
  lemma TerminalStep(s: System, l: Label, id: string)
    requires Inv(s) && Enabled(s, l) && id in s.tables.jobs && Terminal(s.tables.jobs[id].state)
    ensures id in Next(s, l).tables.jobs && Next(s, l).tables.jobs[id] == s.tables.jobs[id]
  {
    TerminalUntouched(s, l, id);
    StepFrame(s, l, id);
  }

  lemma TerminalNext(run: seq<System>, labels: seq<Label>, k: nat, id: string)
    requires Run(run, labels) && k < |labels| && id in run[k].tables.jobs && Terminal(run[k].tables.jobs[id].state)
    ensures id in run[k + 1].tables.jobs && run[k + 1].tables.jobs[id] == run[k].tables.jobs[id]
  {
    StepOf(run, labels, k);
    TerminalStep(run[k], labels[k], id);
  }

  lemma {:induction false} TerminalStays(run: seq<System>, labels: seq<Label>, i: nat, k: nat, id: string)
    requires Run(run, labels) && i <= k < |run|
    requires id in run[i].tables.jobs && Terminal(run[i].tables.jobs[id].state)
    ensures id in run[k].tables.jobs && run[k].tables.jobs[id] == run[i].tables.jobs[id]
    decreases k
  {
    if i < k {
      TerminalStays(run, labels, i, k - 1, id);
      TerminalNext(run, labels, k - 1, id);
    }
  }

  // ------------------------------------------------------------------ lost deliveries

  /** The delivery is on record, no handler can still create a job for it, and there is none. */
  ghost predicate Lost(s: System, d: string) {
    && d in s.tables.deliveries && NoJobFor(s.tables, d)
    && forall h | h in s.handlers && Pending(s.handlers[h]) :: s.handlers[h].delivery != d
  }

  lemma SameRowsNoJob(t: Tables, u: Tables, d: string)
    requires SameRows(t, u) && NoJobFor(t, d)
    ensures NoJobFor(u, d)
  {
  }

  /** Creating a job for another delivery. */
  lemma CreateElsewhere(s: System, h: nat, id: string, fault: Fault, d: string)
    requires HandlersApart(s.tables, s.handlers) && h in s.handlers && s.handlers[h].Approved? && Lost(s, d)
    ensures Lost(Created(s, h, id, fault), d)
  {
    assert HandlerOk(s.tables, s.handlers[h]);
  }

  /** A handler that has won another delivery, or has not won any. */
  lemma OtherHandler(s: System, h: nat, p: Handler, u: Tables, d: string)
    requires Lost(s, d) && u.jobs == s.tables.jobs && (d in u.deliveries)
    requires Pending(p) ==> p.delivery != d
    ensures Lost(s.(tables := u, handlers := s.handlers[h := p]), d)
  {
  }

  lemma LostStep(s: System, l: Label, d: string)
    requires HandlersApart(s.tables, s.handlers) && Enabled(s, l) && Lost(s, d)
    ensures Lost(Next(s, l), d)
  {
    match l
    case Create(h, id, fault) =>
      CreateElsewhere(s, h, id, fault, d);
    case Lease(w, next, fault) =>
      if next.Some? {
        LeaseKeepsRows(s.tables, next.value, fault);
        SameRowsNoJob(s.tables, Next(s, l).tables, d);
      }
    case Work(w, act) =>
      ApplyKeepsRows(s.tables, s.workers[w].job, act);
      SameRowsNoJob(s.tables, Next(s, l).tables, d);
    case Arrive(h, other) =>
      OtherHandler(s, h, Arrived(other), s.tables, d);
    case Record(h, row, fault) =>
      OtherHandler(s, h, Next(s, l).handlers[h], Next(s, l).tables, d);
    case Decide(h, job) =>
      OtherHandler(s, h, Next(s, l).handlers[h], s.tables, d);
    case Leave(_) =>
  }

  lemma LostNext(run: seq<System>, labels: seq<Label>, k: nat, d: string)
    requires Run(run, labels) && k < |labels| && Lost(run[k], d)
    ensures Lost(run[k + 1], d)
  {
    StepOf(run, labels, k);
    LostStep(run[k], labels[k], d);
  }

  /** Sending such a delivery again does not help: it never gets a job. */
  lemma {:induction false} LostForever(run: seq<System>, labels: seq<Label>, i: nat, k: nat, d: string)
    requires Run(run, labels) && i <= k < |run| && Lost(run[i], d)
    ensures NoJobFor(run[k].tables, d)
    ensures Lost(run[k], d)
    decreases k
  {
    if i < k {
      LostForever(run, labels, i, k - 1, d);
      LostNext(run, labels, k - 1, d);
    }
  }

  /** Recording loses a new delivery exactly when it takes effect without being reported. */
  lemma RecordLoses(s: System, h: nat, row: Delivery, fault: Fault)
    requires Inv(s) && Enabled(s, Record(h, row, fault)) && s.handlers[h].delivery !in s.tables.deliveries
    ensures Lost(Next(s, Record(h, row, fault)), s.handlers[h].delivery) <==> fault == Unreported
  {
    var d := s.handlers[h].delivery;
    assert forall k | k in s.handlers :: HandlerOk(s.tables, s.handlers[k]);
    var after := Next(s, Record(h, row, fault));
    if fault == NoFault {
      assert Pending(after.handlers[h]) && after.handlers[h].delivery == d;
    }
  }

  /** Deciding loses the delivery exactly when the command is turned down. */
  lemma DecideLoses(s: System, h: nat, job: Option<Job>)
    requires Inv(s) && Enabled(s, Decide(h, job))
    ensures Lost(Next(s, Decide(h, job)), s.handlers[h].delivery) <==> job.None?
  {
    var d := s.handlers[h].delivery;
    assert HandlerOk(s.tables, s.handlers[h]);
    var after := Next(s, Decide(h, job));
    if job.Some? {
      assert Pending(after.handlers[h]) && after.handlers[h].delivery == d;
    }
  }

  /** Creating loses it exactly when the insert does not take effect or finds the job id taken. */
  lemma CreateLoses(s: System, h: nat, id: string, fault: Fault)
    requires Inv(s) && Enabled(s, Create(h, id, fault))
    ensures Lost(Next(s, Create(h, id, fault)), s.handlers[h].delivery) <==> fault == NotApplied || id in s.tables.jobs
  {
    var d := s.handlers[h].delivery;
    assert HandlerOk(s.tables, s.handlers[h]);
    var after := Next(s, Create(h, id, fault));
    if fault != NotApplied && id !in s.tables.jobs {
      assert id in after.tables.jobs && after.tables.jobs[id].deliveryId == d;
    }
  }

  // ------------------------------------------------------------------- abandoned jobs

  /** A job that was leased and that nobody holds any more. */
  ghost predicate Abandoned(s: System, id: string) {
    id in s.tables.jobs && id in s.done && forall w | w in s.workers :: !Holds(s.workers[w], id)
  }

  lemma AbandonedIsUntouched(s: System, l: Label, id: string)
    requires Inv(s) && Enabled(s, l) && Abandoned(s, id)
    ensures !Touches(s, l, id)
  {
    if l.Lease? && l.next.Some? {
      LeaseKeepsLeases(s.tables, l.next.value, s.leases, s.done);
    }
  }

  lemma StaysUnheld(s: System, l: Label, id: string)
    requires Enabled(s, l) && !Touches(s, l, id) && forall w | w in s.workers :: !Holds(s.workers[w], id)
    ensures forall w | w in Next(s, l).workers :: !Holds(Next(s, l).workers[w], id)
  {
  }

  lemma AbandonedStep(s: System, l: Label, id: string)
    requires Inv(s) && Enabled(s, l) && Abandoned(s, id)
    ensures Abandoned(Next(s, l), id) && Next(s, l).tables.jobs[id] == s.tables.jobs[id]
  {
    AbandonedIsUntouched(s, l, id);
    StepFrame(s, l, id);
    StaysUnheld(s, l, id);
  }

  lemma AbandonedNext(run: seq<System>, labels: seq<Label>, k: nat, id: string)
    requires Run(run, labels) && k < |labels| && Abandoned(run[k], id)
    ensures Abandoned(run[k + 1], id) && run[k + 1].tables.jobs[id] == run[k].tables.jobs[id]
  {
    StepOf(run, labels, k);
    AbandonedStep(run[k], labels[k], id);
  }

  /** A job whose worker crashed is never taken up again: its row stays as the crash left it. */
  lemma {:induction false} AbandonedForever(run: seq<System>, labels: seq<Label>, i: nat, k: nat, id: string)
    requires Run(run, labels) && i <= k < |run| && Abandoned(run[i], id)
    ensures Abandoned(run[k], id) && run[k].tables.jobs[id] == run[i].tables.jobs[id]
    decreases k
  {
    if i < k {
      AbandonedForever(run, labels, i, k - 1, id);
      AbandonedNext(run, labels, k - 1, id);
    }
  }

  // ------------------------------------------------------------------ non-interference

  /** What a series of acts makes of a row, if nobody else is there. */
  function Alone(row: Job, id: string, acts: seq<Act>): Tables {
    Replay(Tables(map[], map[id := row]), id, acts)
  }

  lemma ApplyLocal(t: Tables, u: Tables, id: string, act: Act)
    requires id in t.jobs && id in u.jobs && t.jobs[id] == u.jobs[id]
    ensures id in Apply(t, id, act).jobs && id in Apply(u, id, act).jobs
    ensures Apply(t, id, act).jobs[id] == Apply(u, id, act).jobs[id]
  {
  }

  /** The row is what the acts made of it. */
  ghost predicate AsAlone(s: System, id: string, row: Job) {
    && id in s.done && id in s.tables.jobs
    && id in Alone(row, id, s.done[id]).jobs && Alone(row, id, s.done[id]).jobs[id] == s.tables.jobs[id]
  }

  lemma AloneWork(s: System, w: nat, act: Act, id: string, row: Job)
    requires Enabled(s, Work(w, act)) && s.workers[w].job == id && AsAlone(s, id, row)
    ensures AsAlone(Worked(s, w, act), id, row)
  {
    ReplayOne(Tables(map[], map[id := row]), id, s.done[id], act);
    ApplyLocal(s.tables, Alone(row, id, s.done[id]), id, act);
  }

  lemma AloneStep(s: System, l: Label, id: string, row: Job)
    requires Inv(s) && Enabled(s, l) && AsAlone(s, id, row)
    ensures AsAlone(Next(s, l), id, row)
  {
    StepFrame(s, l, id);
    if Touches(s, l, id) {
      match l
      case Lease(w, next, fault) =>
        LeaseKeepsLeases(s.tables, id, s.leases, s.done);
      case Work(w, act) =>
        AloneWork(s, w, act, id, row);
    }
  }

  lemma AloneNext(run: seq<System>, labels: seq<Label>, k: nat, id: string, row: Job)
    requires Run(run, labels) && k < |labels| && AsAlone(run[k], id, row)
    ensures AsAlone(run[k + 1], id, row)
  {
    StepOf(run, labels, k);
    AloneStep(run[k], labels[k], id, row);
  }

  lemma {:induction false} AlwaysAlone(run: seq<System>, labels: seq<Label>, i: nat, k: nat, id: string)
    requires Run(run, labels) && i <= k < |run|
    requires id in run[i].done && run[i].done[id] == [] && id in run[i].tables.jobs
    ensures AsAlone(run[k], id, run[i].tables.jobs[id])
    decreases k
  {
    if i < k {
      AlwaysAlone(run, labels, i, k - 1, id);
      AloneNext(run, labels, k - 1, id, run[i].tables.jobs[id]);
    }
  }

  /** From its lease on, a job's row is at any time what its holder's own acts make of it, as if the
      holder were alone, and these acts follow the lifecycle. */
  lemma NoInterference(run: seq<System>, labels: seq<Label>, i: nat, k: nat, id: string)
    requires Run(run, labels) && i <= k < |run|
    requires id in run[i].done && run[i].done[id] == [] && id in run[i].tables.jobs
    ensures id in run[k].done && id in run[k].tables.jobs && After(run[k].done[id]).Some?
    ensures var alone := Alone(run[i].tables.jobs[id], id, run[k].done[id]);
            id in alone.jobs && alone.jobs[id] == run[k].tables.jobs[id]
  {
    AlwaysAlone(run, labels, i, k, id);
    Always(run, labels, k);
    assert JobOk(run[k].tables, id, run[k].done[id]);
  }

  // ------------------------------------------------- the store's lease is the protocol's

  lemma NoneQueued(t: Tables)
    requires forall id :: !Oldest(t, id)
    ensures forall id :: !InState(t, id, Queued)
  {
    if exists id :: InState(t, id, Queued) {
      OldestExists(t);
    }
  }

  /** Whatever LeaseNext does is one lease step of an idle worker, which holds the job it is told of. */
  lemma LeaseFollowsProtocol(s: System, w: nat, after: Tables, fault: Fault, leased: Option<string>) returns (l: Label)
    requires LeaseOutcome(s.tables, after, fault, leased) && (w in s.workers ==> s.workers[w].Idle?)
    ensures Enabled(s, l) && Next(s, l).tables == after
    ensures leased.Some? ==> w in Next(s, l).workers && Next(s, l).workers[w] == Holding(leased.value, Ready)
    ensures leased.None? ==> Next(s, l).workers == s.workers
  {
    if leased.Some? {
      l := Lease(w, leased, NoFault);
    } else if exists id :: Oldest(s.tables, id) {
      if id :| fault == Unreported && Oldest(s.tables, id) && after == PutState(s.tables, id, Starting) {
        l := Lease(w, Some(id), Unreported);
      } else {
        var id :| Oldest(s.tables, id);
        l := Lease(w, Some(id), NotApplied);
      }
    } else {
      NoneQueued(s.tables);
      l := Lease(w, None, NoFault);
    }
  }

  // --------------------------------------------------------- told from the steps alone

  /** The acts that the holder of a job makes in some of the steps. */
  ghost function ActsIn(run: seq<System>, labels: seq<Label>, i: nat, k: nat, id: string): seq<Act>
    requires i <= k < |run| && |run| == |labels| + 1
    decreases k
  {
    if i == k then []
    else ActsIn(run, labels, i, k - 1, id) + ActIn(run[k - 1], labels[k - 1], id)
  }

  ghost function ActIn(s: System, l: Label, id: string): seq<Act> {
    if l.Work? && l.w in s.workers && Holds(s.workers[l.w], id) then [l.act] else []
  }

  lemma DoneGrows(s: System, l: Label, id: string)
    requires Inv(s) && Enabled(s, l) && id in s.done
    ensures id in Next(s, l).done && Next(s, l).done[id] == s.done[id] + ActIn(s, l, id)
  {
    if l.Work? {
      WorkGrows(s, l.w, l.act, id);
    } else {
      NothingDone(s, l, id);
      assert s.done[id] + [] == s.done[id];
    }
  }

  lemma WorkGrows(s: System, w: nat, act: Act, id: string)
    requires Enabled(s, Work(w, act)) && id in s.done
    ensures id in Worked(s, w, act).done
    ensures Worked(s, w, act).done[id] == s.done[id] + if Holds(s.workers[w], id) then [act] else []
  {
    assert s.done[id] + [] == s.done[id];
  }

  lemma NothingDone(s: System, l: Label, id: string)
    requires Inv(s) && Enabled(s, l) && id in s.done && !l.Work?
    ensures id in Next(s, l).done && Next(s, l).done[id] == s.done[id]
  {
    match l
    case Lease(w, next, fault) =>
      if next.Some? {
        LeaseDoesNothing(s, w, next.value, fault, id);
      }
    case _ =>
  }

  lemma LeaseDoesNothing(s: System, w: nat, next: string, fault: Fault, id: string)
    requires LeasesOnce(s.tables, s.leases, s.done) && Oldest(s.tables, next) && id in s.done
    ensures id in Leased(s, w, next, fault).done && Leased(s, w, next, fault).done[id] == s.done[id]
  {
    LeaseKeepsLeases(s.tables, next, s.leases, s.done);
  }

  lemma DoneNext(run: seq<System>, labels: seq<Label>, k: nat, id: string)
    requires Run(run, labels) && k < |labels| && id in run[k].done
    ensures id in run[k + 1].done && run[k + 1].done[id] == run[k].done[id] + ActIn(run[k], labels[k], id)
  {
    StepOf(run, labels, k);
    DoneGrows(run[k], labels[k], id);
  }

  lemma {:induction false} DoneIsActs(run: seq<System>, labels: seq<Label>, i: nat, k: nat, id: string)
    requires Run(run, labels) && i <= k < |run| && id in run[i].done && run[i].done[id] == []
    ensures id in run[k].done && run[k].done[id] == ActsIn(run, labels, i, k, id)
    decreases k
  {
    if i < k {
      DoneIsActs(run, labels, i, k - 1, id);
      DoneNext(run, labels, k - 1, id);
    }
  }

  /** A lease that is reported marks the row as starting and changes nothing else of it. */
  lemma LeaseMarks(run: seq<System>, labels: seq<Label>, i: nat, w: nat, id: string)
    requires Run(run, labels) && i < |labels| && labels[i] == Lease(w, Some(id), NoFault)
    ensures id in run[i].tables.jobs && id in run[i + 1].tables.jobs
    ensures run[i + 1].tables.jobs[id] == run[i].tables.jobs[id].(state := Starting)
    ensures id in run[i + 1].done && run[i + 1].done[id] == []
  {
    StepOf(run, labels, i);
  }

  /** From its lease on, a row is what the acts of its holder in these steps make of it, and no other step
      of anybody shows. */
  lemma OwnActsOnly(run: seq<System>, labels: seq<Label>, i: nat, k: nat, w: nat, id: string)
    requires Run(run, labels) && i < k < |run| && labels[i] == Lease(w, Some(id), NoFault)
    ensures id in run[i].tables.jobs && id in run[k].tables.jobs
    ensures var alone := Alone(run[i].tables.jobs[id].(state := Starting), id, ActsIn(run, labels, i + 1, k, id));
            id in alone.jobs && run[k].tables.jobs[id] == alone.jobs[id]
  {
    LeaseMarks(run, labels, i, w, id);
    DoneIsActs(run, labels, i + 1, k, id);
    NoInterference(run, labels, i + 1, k, id);
  }

  ghost predicate NotQueued(s: System, id: string) {
    id in s.tables.jobs && s.tables.jobs[id].state != Queued
  }

  lemma NotQueuedStep(s: System, l: Label, id: string)
    requires Inv(s) && Enabled(s, l) && NotQueued(s, id)
    ensures NotQueued(Next(s, l), id)
  {
    StepFrame(s, l, id);
    MovesOn(s.tables.jobs[id].state, Next(s, l).tables.jobs[id].state);
  }

  lemma MovesOn(from: State, to: State)
    requires Moves(from, to) && from != Queued
    ensures to != Queued
  {
  }

  lemma NotQueuedNext(run: seq<System>, labels: seq<Label>, k: nat, id: string)
    requires Run(run, labels) && k < |labels| && NotQueued(run[k], id)
    ensures NotQueued(run[k + 1], id)
  {
    StepOf(run, labels, k);
    NotQueuedStep(run[k], labels[k], id);
  }

  lemma {:induction false} NeverQueuedAgain(run: seq<System>, labels: seq<Label>, i: nat, k: nat, id: string)
    requires Run(run, labels) && i <= k < |run| && NotQueued(run[i], id)
    ensures NotQueued(run[k], id)
    decreases k
  {
    if i < k {
      NeverQueuedAgain(run, labels, i, k - 1, id);
      NotQueuedNext(run, labels, k - 1, id);
    }
  }

  /** Once a lease has taken effect, reported or not, its job is never handed out again. */
  lemma LeasedOnce(run: seq<System>, labels: seq<Label>, a: nat, b: nat)
    requires Run(run, labels) && a < b < |labels|
    requires labels[a].Lease? && labels[a].next.Some? && labels[a].fault != NotApplied
    requires labels[b].Lease? && labels[b].next.Some?
    ensures labels[a].next.value != labels[b].next.value
  {
    var id := labels[a].next.value;
    StepOf(run, labels, a);
    assert NotQueued(run[a + 1], id);
    NeverQueuedAgain(run, labels, a + 1, b, id);
    StepOf(run, labels, b);
  }

  ghost predicate RequestsFor(s: System, l: Label, id: string) {
    l.Work? && l.act.OpenPR? && l.w in s.workers && Holds(s.workers[l.w], id)
  }

  lemma PullsStep(s: System, l: Label, id: string)
    requires Enabled(s, l) && id in s.pulls
    ensures id in Next(s, l).pulls
  {
  }

  lemma PullsNext(run: seq<System>, labels: seq<Label>, k: nat, id: string)
    requires Run(run, labels) && k < |labels| && id in run[k].pulls
    ensures id in run[k + 1].pulls
  {
    StepOf(run, labels, k);
    PullsStep(run[k], labels[k], id);
  }

  lemma {:induction false} PullsStay(run: seq<System>, labels: seq<Label>, i: nat, k: nat, id: string)
    requires Run(run, labels) && i <= k < |run| && id in run[i].pulls
    ensures id in run[k].pulls
    decreases k
  {
    if i < k {
      PullsStay(run, labels, i, k - 1, id);
      PullsNext(run, labels, k - 1, id);
    }
  }

  lemma PullIsNoted(run: seq<System>, labels: seq<Label>, k: nat, id: string)
    requires Run(run, labels) && k < |labels| && RequestsFor(run[k], labels[k], id)
    ensures run[k + 1].pulls == run[k].pulls + [id] && Distinct(run[k + 1].pulls)
    ensures id in run[k].tables.jobs
  {
    StepOf(run, labels, k);
    Always(run, labels, k + 1);
    HolderIsConsistent(run[k], labels[k].w);
  }

  /** No two steps of a run ask for a pull request on behalf of the same job or of the same delivery. */
  lemma RequestedOnce(run: seq<System>, labels: seq<Label>, a: nat, b: nat, id: string, other: string)
    requires Run(run, labels) && a < b < |labels|
    requires RequestsFor(run[a], labels[a], id) && RequestsFor(run[b], labels[b], other)
    ensures id != other && id in run[b].tables.jobs && other in run[b].tables.jobs
    ensures run[b].tables.jobs[id].deliveryId != run[b].tables.jobs[other].deliveryId
  {
    PullIsNoted(run, labels, a, id);
    assert run[a + 1].pulls[|run[a].pulls|] == id;
    PullsStay(run, labels, a + 1, b, id);
    PullIsNoted(run, labels, b, other);
    var m :| 0 <= m < |run[b].pulls| && run[b].pulls[m] == id;
    assert run[b + 1].pulls[m] == id && run[b + 1].pulls[|run[b].pulls|] == other;
    JobStays(run, labels, a, b, id);
    Always(run, labels, b);
  }

  lemma JobNext(run: seq<System>, labels: seq<Label>, k: nat, id: string)
    requires Run(run, labels) && k < |labels| && id in run[k].tables.jobs
    ensures id in run[k + 1].tables.jobs
  {
    StepOf(run, labels, k);
    StepFrame(run[k], labels[k], id);
  }

  lemma {:induction false} JobStays(run: seq<System>, labels: seq<Label>, i: nat, k: nat, id: string)
    requires Run(run, labels) && i <= k < |run| && id in run[i].tables.jobs
    ensures id in run[k].tables.jobs
    decreases k
  {
    if i < k {
      JobStays(run, labels, i, k - 1, id);
      JobNext(run, labels, k - 1, id);
    }
  }
}
