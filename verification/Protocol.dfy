/** Any number of webhook handlers and workers on one store: every statement is one atomic step, and
    the steps of different parties come in any order. */
module Protocol {
  import opened Text
  import opened Queue
  import opened Lifecycle

  /** A webhook request and how far its handling has come. */
  datatype Handler =
    | Arrived(delivery: string)             // nothing done yet
    | Won(delivery: string)                 // recorded, and told that it is no duplicate
    | Approved(delivery: string, job: Job)  // the command was accepted
    | Closed(delivery: string)              // answered

  datatype Holder = Idle | Holding(job: string, phase: Phase)

  /** The tables, where everybody is, and for the record: the leases in order, what the holder of each
      job has done, and the jobs for which a pull request was asked for. */
  datatype System = System(
    tables: Tables, handlers: map<nat, Handler>, workers: map<nat, Holder>,
    leases: seq<string>, done: map<string, seq<Act>>, pulls: seq<string>)

  datatype Label =
    | Arrive(h: nat, delivery: string)
    | Record(h: nat, row: Delivery, fault: Fault)
    | Decide(h: nat, job: Option<Job>)
    | Create(h: nat, id: string, fault: Fault)
    | Lease(w: nat, next: Option<string>, fault: Fault)  // the oldest queued job, if there is one
    | Work(w: nat, act: Act)
    | Leave(w: nat)                         // at the end of a run, or in the middle: a crash

  function Initial(): System {
    System(Tables(map[], map[]), map[], map[], [], map[], [])
  }

  ghost predicate Enabled(s: System, l: Label) {
    match l
    case Arrive(h, _) => h !in s.handlers
    case Record(h, _, _) => h in s.handlers && s.handlers[h].Arrived?
    case Decide(h, job) =>
      && h in s.handlers && s.handlers[h].Won?
      && (job.Some? ==> job.value.deliveryId == s.handlers[h].delivery && job.value.state == Queued)
    case Create(h, _, _) => h in s.handlers && s.handlers[h].Approved?
    case Lease(w, next, _) =>
      && (w in s.workers ==> s.workers[w].Idle?)
      && (next.Some? ==> Oldest(s.tables, next.value))
      && (next.None? ==> forall id :: !InState(s.tables, id, Queued))
    case Work(w, act) => w in s.workers && s.workers[w].Holding? && Advance(s.workers[w].phase, act).Some?
    case Leave(w) => w in s.workers
  }

  function Recorded(s: System, h: nat, row: Delivery, fault: Fault): System
    requires h in s.handlers
  {
    var d := s.handlers[h].delivery;
    s.(tables := Faulty(s.tables, Queue.Record(s.tables, d, row), fault),
       handlers := s.handlers[h := if fault == NoFault && d !in s.tables.deliveries then Won(d) else Closed(d)])
  }

  function Created(s: System, h: nat, id: string, fault: Fault): System
    requires h in s.handlers && s.handlers[h].Approved?
  {
    s.(tables := Faulty(s.tables, Queue.Create(s.tables, id, s.handlers[h].job), fault),
       handlers := s.handlers[h := Closed(s.handlers[h].delivery)])
  }

  /** A lease that is not reported marks the job as starting, and nobody holds it. */
  function Leased(s: System, w: nat, id: string, fault: Fault): System {
    var marked := s.(tables := Faulty(s.tables, PutState(s.tables, id, Starting), fault));
    if fault != NoFault then marked
    else marked.(workers := s.workers[w := Holding(id, Ready)], leases := s.leases + [id], done := s.done[id := []])
  }

  function Worked(s: System, w: nat, act: Act): System
    requires w in s.workers && s.workers[w].Holding? && Advance(s.workers[w].phase, act).Some?
  {
    var id := s.workers[w].job;
    s.(tables := Apply(s.tables, id, act),
       workers := s.workers[w := Holding(id, Advance(s.workers[w].phase, act).value)],
       done := s.done[id := (if id in s.done then s.done[id] else []) + [act]],
       pulls := if Opening(act) then s.pulls + [id] else s.pulls)
  }

  ghost function Next(s: System, l: Label): System
    requires Enabled(s, l)
  {
    match l
    case Arrive(h, d) => s.(handlers := s.handlers[h := Arrived(d)])
    case Record(h, row, fault) => Recorded(s, h, row, fault)
    case Decide(h, job) =>
      var d := s.handlers[h].delivery;
      s.(handlers := s.handlers[h := if job.Some? then Approved(d, job.value) else Closed(d)])
    case Create(h, id, fault) => Created(s, h, id, fault)
    case Lease(w, next, fault) => if next.None? then s else Leased(s, w, next.value, fault)
    case Work(w, act) => Worked(s, w, act)
    case Leave(w) => s.(workers := s.workers[w := Idle])
  }

  // ------------------------------------------------------------ what every step keeps

  /** Every job belongs to a recorded delivery, and no two jobs to the same one. */
  ghost predicate JobsKeyed(t: Tables) {
    && (forall id | id in t.jobs :: t.jobs[id].deliveryId in t.deliveries)
    && (forall id, other | id in t.jobs && other in t.jobs && t.jobs[id].deliveryId == t.jobs[other].deliveryId ::
          id == other)
  }

  predicate Pending(p: Handler) {
    p.Won? || p.Approved?
  }

  ghost predicate NoJobFor(t: Tables, d: string) {
    forall id | id in t.jobs :: t.jobs[id].deliveryId != d
  }

  ghost predicate HandlerOk(t: Tables, p: Handler) {
    && (Pending(p) ==> p.delivery in t.deliveries && NoJobFor(t, p.delivery))
    && (p.Approved? ==> p.job.deliveryId == p.delivery && p.job.state == Queued)
  }

  /** A handler that may still create a job is alone with its delivery, and there is no job yet. */
  ghost predicate HandlersApart(t: Tables, handlers: map<nat, Handler>) {
    && (forall h | h in handlers :: HandlerOk(t, handlers[h]))
    && (forall h, k | h in handlers && k in handlers && Pending(handlers[h]) && Pending(handlers[k])
                      && handlers[h].delivery == handlers[k].delivery :: h == k)
  }

  ghost predicate Distinct(ids: seq<string>) {
    forall i, k | 0 <= i < k < |ids| :: ids[i] != ids[k]
  }

  /** What is known of a job that was leased: its holder kept to the lifecycle, and the row shows it. */
  ghost predicate JobOk(t: Tables, id: string, acts: seq<Act>) {
    && id in t.jobs && After(acts).Some? && Consistent(After(acts).value, t.jobs[id].state)
  }

  ghost predicate LeasesOnce(t: Tables, leases: seq<string>, done: map<string, seq<Act>>) {
    && Distinct(leases)
    && (forall id :: id in leases <==> id in done)
    && (forall id | id in done :: JobOk(t, id, done[id]))
    && (forall id | id in t.jobs && id !in done :: t.jobs[id].state == Queued || t.jobs[id].state == Starting)
  }

  predicate Holds(holder: Holder, id: string) {
    holder.Holding? && holder.job == id
  }

  /** A holder knows where it is, and holds the job alone. */
  ghost predicate HeldOnce(workers: map<nat, Holder>, done: map<string, seq<Act>>) {
    && (forall w | w in workers && workers[w].Holding? ::
          workers[w].job in done && After(done[workers[w].job]) == Some(workers[w].phase))
    && (forall v, w | v in workers && w in workers && workers[v].Holding? && Holds(workers[w], workers[v].job) ::
          v == w)
  }

  ghost predicate PullsOnce(done: map<string, seq<Act>>, pulls: seq<string>) {
    && Distinct(pulls)
    && (forall id | id in pulls :: id in done && Requests(done[id]) > 0)
  }

  ghost predicate Inv(s: System) {
    && JobsKeyed(s.tables) && HandlersApart(s.tables, s.handlers)
    && LeasesOnce(s.tables, s.leases, s.done) && HeldOnce(s.workers, s.done) && PullsOnce(s.done, s.pulls)
  }

  // --------------------------------------------------- and why every step keeps it

  ghost predicate SameRows(t: Tables, u: Tables) {
    && u.deliveries == t.deliveries && u.jobs.Keys == t.jobs.Keys
    && forall id | id in t.jobs :: u.jobs[id].deliveryId == t.jobs[id].deliveryId
  }

  lemma SameRowsKeep(t: Tables, u: Tables, handlers: map<nat, Handler>)
    requires SameRows(t, u) && JobsKeyed(t) && HandlersApart(t, handlers)
    ensures JobsKeyed(u) && HandlersApart(u, handlers)
  {
    forall h | h in handlers
      ensures HandlerOk(u, handlers[h])
    {
      assert HandlerOk(t, handlers[h]);
    }
  }

  /** Recording: a delivery that was not there has no job and no other handler that won it. */
  lemma RecordKeeps(s: System, h: nat, row: Delivery, fault: Fault)
    requires Inv(s) && h in s.handlers && s.handlers[h].Arrived?
    ensures Inv(Recorded(s, h, row, fault))
  {
    var after := Recorded(s, h, row, fault);
    var d := s.handlers[h].delivery;
    assert after.tables.jobs == s.tables.jobs;
    assert forall e | e in s.tables.deliveries :: e in after.tables.deliveries;
    forall k | k in after.handlers
      ensures HandlerOk(after.tables, after.handlers[k])
    {
      assert k != h ==> HandlerOk(s.tables, s.handlers[k]);
    }
    assert forall k | k in s.handlers && k != h && Pending(s.handlers[k]) :: HandlerOk(s.tables, s.handlers[k]);
    LeasesKeep(s.tables, after.tables, s.leases, s.done);
  }

  lemma LeasesKeep(t: Tables, u: Tables, leases: seq<string>, done: map<string, seq<Act>>)
    requires LeasesOnce(t, leases, done) && u.jobs == t.jobs
    ensures LeasesOnce(u, leases, done)
  {
    forall id | id in done
      ensures JobOk(u, id, done[id])
    {
      assert JobOk(t, id, done[id]);
    }
  }

  lemma CreateKeeps(s: System, h: nat, id: string, fault: Fault)
    requires Inv(s) && h in s.handlers && s.handlers[h].Approved?
    ensures Inv(Created(s, h, id, fault))
  {
    var after := Created(s, h, id, fault);
    assert HandlerOk(s.tables, s.handlers[h]);
    forall k | k in after.handlers
      ensures HandlerOk(after.tables, after.handlers[k])
    {
      assert k != h ==> HandlerOk(s.tables, s.handlers[k]);
    }
    forall other | other in s.done
      ensures JobOk(after.tables, other, s.done[other])
    {
      assert JobOk(s.tables, other, s.done[other]);
    }
  }

  lemma HandlerMoves(s: System, h: nat, p: Handler)
    requires Inv(s) && HandlerOk(s.tables, p)
    requires Pending(p) ==> h in s.handlers && Pending(s.handlers[h]) && s.handlers[h].delivery == p.delivery
    ensures Inv(s.(handlers := s.handlers[h := p]))
  {
    var handlers := s.handlers[h := p];
    forall k | k in handlers
      ensures HandlerOk(s.tables, handlers[k])
    {
      assert k != h ==> HandlerOk(s.tables, s.handlers[k]);
    }
  }

  lemma DecideKeeps(s: System, h: nat, job: Option<Job>)
    requires Inv(s) && Enabled(s, Decide(h, job))
    ensures Inv(Next(s, Decide(h, job)))
  {
    var d := s.handlers[h].delivery;
    assert HandlerOk(s.tables, s.handlers[h]);
    HandlerMoves(s, h, if job.Some? then Approved(d, job.value) else Closed(d));
  }

  lemma LeaseKeepsRows(t: Tables, id: string, fault: Fault)
    requires Oldest(t, id)
    ensures SameRows(t, Faulty(t, PutState(t, id, Starting), fault))
  {
  }

  /** A job is leased while it is queued, so it was not leased before. */
  lemma LeaseKeepsLeases(t: Tables, id: string, leases: seq<string>, done: map<string, seq<Act>>)
    requires Oldest(t, id) && LeasesOnce(t, leases, done)
    ensures id !in done && id !in leases
    ensures LeasesOnce(PutState(t, id, Starting), leases + [id], done[id := []])
  {
    assert id in done ==> JobOk(t, id, done[id]);
    var u := PutState(t, id, Starting);
    var done' := done[id := []];
    forall other | other in done'
      ensures JobOk(u, other, done'[other])
    {
      assert other != id ==> JobOk(t, other, done[other]);
    }
  }

  lemma UnreportedKeepsLeases(t: Tables, id: string, leases: seq<string>, done: map<string, seq<Act>>)
    requires Oldest(t, id) && LeasesOnce(t, leases, done)
    ensures LeasesOnce(PutState(t, id, Starting), leases, done)
  {
    assert id in done ==> JobOk(t, id, done[id]);
    var u := PutState(t, id, Starting);
    forall other | other in done
      ensures JobOk(u, other, done[other])
    {
      assert JobOk(t, other, done[other]);
    }
  }

  lemma LeaseKeepsHolders(workers: map<nat, Holder>, w: nat, id: string, done: map<string, seq<Act>>,
                          pulls: seq<string>)
    requires HeldOnce(workers, done) && PullsOnce(done, pulls)
    requires id !in done && (w in workers ==> workers[w].Idle?)
    ensures HeldOnce(workers[w := Holding(id, Ready)], done[id := []]) && PullsOnce(done[id := []], pulls)
  {
  }

  lemma LeaseKeeps(s: System, w: nat, id: string, fault: Fault)
    requires Inv(s) && Oldest(s.tables, id) && (w in s.workers ==> s.workers[w].Idle?)
    ensures Inv(Leased(s, w, id, fault))
  {
    var after := Leased(s, w, id, fault);
    LeaseKeepsRows(s.tables, id, fault);
    SameRowsKeep(s.tables, after.tables, s.handlers);
    if fault == NoFault {
      LeaseKeepsLeases(s.tables, id, s.leases, s.done);
      LeaseKeepsHolders(s.workers, w, id, s.done, s.pulls);
    } else {
      UnreportedKeepsLeases(s.tables, id, s.leases, s.done);
    }
  }

  lemma ApplyKeepsRows(t: Tables, id: string, act: Act)
    ensures SameRows(t, Apply(t, id, act))
  {
  }

  lemma WorkKeepsLeases(t: Tables, id: string, act: Act, leases: seq<string>, done: map<string, seq<Act>>)
    requires LeasesOnce(t, leases, done) && id in done && Advance(After(done[id]).value, act).Some?
    ensures LeasesOnce(Apply(t, id, act), leases, done[id := done[id] + [act]])
  {
    var u, done' := Apply(t, id, act), done[id := done[id] + [act]];
    assert JobOk(t, id, done[id]);
    AfterOne(done[id], act);
    ActKeepsRow(After(done[id]).value, t, id, act);
    forall other | other in done'
      ensures JobOk(u, other, done'[other])
    {
      assert other != id ==> JobOk(t, other, done[other]);
    }
  }

  lemma WorkKeepsPulls(id: string, act: Act, done: map<string, seq<Act>>, pulls: seq<string>)
    requires PullsOnce(done, pulls) && id in done && After(done[id]).Some? && Advance(After(done[id]).value, act).Some?
    ensures PullsOnce(done[id := done[id] + [act]], if Opening(act) then pulls + [id] else pulls)
  {
    RequestsOne(done[id], act);
    AfterOne(done[id], act);
    PhaseHistory(done[id] + [act]);
  }

  lemma WorkKeepsHolders(workers: map<nat, Holder>, w: nat, act: Act, done: map<string, seq<Act>>)
    requires HeldOnce(workers, done) && w in workers && workers[w].Holding?
    requires Advance(workers[w].phase, act).Some?
    ensures var id := workers[w].job;
            HeldOnce(workers[w := Holding(id, Advance(workers[w].phase, act).value)], done[id := done[id] + [act]])
  {
    AfterOne(done[workers[w].job], act);
  }

  lemma WorkKeeps(s: System, w: nat, act: Act)
    requires Inv(s) && Enabled(s, Work(w, act))
    ensures Inv(Worked(s, w, act))
  {
    var id := s.workers[w].job;
    ApplyKeepsRows(s.tables, id, act);
    SameRowsKeep(s.tables, Apply(s.tables, id, act), s.handlers);
    WorkKeepsLeases(s.tables, id, act, s.leases, s.done);
    WorkKeepsPulls(id, act, s.done, s.pulls);
    WorkKeepsHolders(s.workers, w, act, s.done);
  }

  lemma NextKeeps(s: System, l: Label)
    requires Inv(s) && Enabled(s, l)
    ensures Inv(Next(s, l))
  {
    match l
    case Arrive(h, d) => HandlerMoves(s, h, Arrived(d));
    case Record(h, row, fault) => RecordKeeps(s, h, row, fault);
    case Decide(h, job) => DecideKeeps(s, h, job);
    case Create(h, id, fault) => CreateKeeps(s, h, id, fault);
    case Lease(w, next, fault) =>
      if next.Some? {
        LeaseKeeps(s, w, next.value, fault);
      }
    case Work(w, act) => WorkKeeps(s, w, act);
    case Leave(w) =>
  }
}
