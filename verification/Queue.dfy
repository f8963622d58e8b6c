/** internal/queue: the tables shared by the webhook handlers and the workers. */
module Queue {
  import opened Text

  datatype State =
    | Received | Validating | Rejected | Queued | Starting | Planning | Implementing | Testing
    | Reviewing | CreatingPR | WaitingHuman | Done | Failed | Cancelled | Expired

  datatype Delivery = Delivery(eventType: string, repo: string, issue: int, actor: string, bodySha256: string)

  datatype Job = Job(
    deliveryId: string, repo: string, issue: int, commentId: int, actor: string, command: string,
    baseBranch: string, workBranch: string, state: State, prNumber: int, createdAt: int)

  datatype Tables = Tables(deliveries: map<string, Delivery>, jobs: map<string, Job>)

  /** How the database may treat a statement: it works; it fails and changes nothing; or it takes
      effect and the caller is told that it failed. */
  datatype Fault = NoFault | NotApplied | Unreported

  // ------------------------------------------------------ the statements, on values

  function Record(t: Tables, id: string, d: Delivery): Tables {
    if id in t.deliveries then t else t.(deliveries := t.deliveries[id := d])
  }

  function Create(t: Tables, id: string, job: Job): Tables {
    if id in t.jobs then t else t.(jobs := t.jobs[id := job])
  }

  function PutState(t: Tables, id: string, state: State): Tables {
    if id in t.jobs then t.(jobs := t.jobs[id := t.jobs[id].(state := state)]) else t
  }

  function PutNumber(t: Tables, id: string, number: int): Tables {
    if id in t.jobs then t.(jobs := t.jobs[id := t.jobs[id].(prNumber := number)]) else t
  }

  predicate InState(t: Tables, id: string, state: State) {
    id in t.jobs && t.jobs[id].state == state
  }

  function Move(t: Tables, id: string, from: State, to: State): Tables {
    if InState(t, id, from) then PutState(t, id, to) else t
  }

  function Faulty(t: Tables, changed: Tables, fault: Fault): Tables {
    if fault == NotApplied then t else changed
  }

  /** A queued job that no queued job precedes. */
  ghost predicate Oldest(t: Tables, id: string) {
    && InState(t, id, Queued)
    && forall other | InState(t, other, Queued) :: t.jobs[id].createdAt <= t.jobs[other].createdAt
  }

  lemma {:induction false} OldestOf(jobs: map<string, Job>, ids: set<string>) returns (oldest: string)
    requires ids != {} && ids <= jobs.Keys
    ensures oldest in ids && forall id | id in ids :: jobs[oldest].createdAt <= jobs[id].createdAt
  {
    var id :| id in ids;
    if ids == {id} {
      oldest := id;
    } else {
      var other := OldestOf(jobs, ids - {id});
      oldest := if jobs[id].createdAt <= jobs[other].createdAt then id else other;
    }
  }

  lemma OldestExists(t: Tables)
    requires exists id :: InState(t, id, Queued)
    ensures exists id :: Oldest(t, id)
  {
    var ids := set id | id in t.jobs && t.jobs[id].state == Queued;
    var one :| InState(t, one, Queued);
    assert one in ids;
    var oldest := OldestOf(t.jobs, ids);
    assert forall other | InState(t, other, Queued) :: other in ids;
    assert Oldest(t, oldest);
  }

  /** The row that "ORDER BY created_at LIMIT 1" may return. */
  predicate IsNext(jobs: map<string, Job>, id: string) {
    && id in jobs && jobs[id].state == Queued
    && forall other | other in jobs && jobs[other].state == Queued :: jobs[id].createdAt <= jobs[other].createdAt
  }

  /** What one lease may do: hand out the oldest queued job and mark it as starting; do the same
      without telling; or find nothing and change nothing. */
  ghost predicate LeaseOutcome(before: Tables, after: Tables, fault: Fault, leased: Option<string>) {
    match leased
    case Some(id) => fault == NoFault && Oldest(before, id) && after == PutState(before, id, Starting)
    case None =>
      || (fault == NotApplied && after == before)
      || (after == before && forall id :: !InState(before, id, Queued))
      || (fault == Unreported && exists id :: Oldest(before, id) && after == PutState(before, id, Starting))
  }

  /** At most this row is different. */
  ghost predicate OnlyRow(before: Tables, after: Tables, id: string) {
    && after.deliveries == before.deliveries
    && forall other | other != id ::
         (other in after.jobs <==> other in before.jobs)
         && (other in before.jobs ==> after.jobs[other] == before.jobs[other])
  }

  // ------------------------------------------------------------------- the store

  class Store {
    var deliveries: map<string, Delivery>
    var jobs: map<string, Job>

    function View(): Tables
      reads this
    {
      Tables(deliveries, jobs)
    }

    constructor ()
      ensures View() == Tables(map[], map[])
    {
      deliveries, jobs := map[], map[];
    }

    /** The result is None for an error, else whether the delivery was there before. */
    method RecordDelivery(id: string, d: Delivery, fault: Fault) returns (duplicate: Option<bool>)
      modifies this
      ensures View() == Faulty(old(View()), Record(old(View()), id, d), fault)
      ensures jobs == old(jobs)
      ensures deliveries == if fault != NotApplied && id !in old(deliveries) then old(deliveries)[id := d]
                            else old(deliveries)
      ensures duplicate == if fault == NoFault then Some(id in old(deliveries)) else None
    {
      var there := id in deliveries;
      if fault == NotApplied {
        return None;
      }
      if !there {
        deliveries := deliveries[id := d];
      }
      return if fault == NoFault then Some(there) else None;
    }

    /** The id carries the time; the primary key refuses a second job made in the same instant. */
    method CreateJob(id: string, job: Job, fault: Fault) returns (ok: bool)
      modifies this
      ensures View() == Faulty(old(View()), Create(old(View()), id, job), fault)
      ensures deliveries == old(deliveries)
      ensures jobs == if fault != NotApplied && id !in old(jobs) then old(jobs)[id := job] else old(jobs)
      ensures ok <==> fault == NoFault && id !in old(jobs)
    {
      if fault == NotApplied || id in jobs {
        return false;
      }
      jobs := jobs[id := job];
      return fault == NoFault;
    }

    method Transition(id: string, from: State, to: State, fault: Fault) returns (ok: bool)
      modifies this
      ensures View() == Faulty(old(View()), Move(old(View()), id, from, to), fault)
      ensures OnlyRow(old(View()), View(), id) && (id in jobs <==> id in old(jobs))
      ensures id in jobs ==>
                jobs[id] == if fault != NotApplied && old(jobs[id].state) == from then old(jobs[id]).(state := to)
                            else old(jobs[id])
      ensures ok <==> fault == NoFault && old(InState(View(), id, from))
    {
      var there := InState(View(), id, from);
      if fault != NotApplied && there {
        jobs := jobs[id := jobs[id].(state := to)];
      }
      return fault == NoFault && there;
    }

    /** In one transaction: the oldest queued job becomes a starting job. */
    method LeaseNext(fault: Fault) returns (leased: Option<string>)
      modifies this
      ensures LeaseOutcome(old(View()), View(), fault, leased)
      ensures leased.Some? ==>
                && leased.value in old(jobs) && old(jobs)[leased.value].state == Queued
                && (forall other | other in old(jobs) && old(jobs)[other].state == Queued ::
                      old(jobs)[leased.value].createdAt <= old(jobs)[other].createdAt)
                && jobs == old(jobs)[leased.value := old(jobs)[leased.value].(state := Starting)]
      ensures leased.None? && fault == NoFault ==>
                jobs == old(jobs) && forall id | id in jobs :: jobs[id].state != Queued
      ensures deliveries == old(deliveries)
    {
      leased := None;
      if fault != NotApplied && exists id | id in jobs :: jobs[id].state == Queued {
        ghost var before := View();
        var some :| some in jobs && jobs[some].state == Queued;
        assert InState(before, some, Queued);
        OldestExists(before);
        assert forall id :: Oldest(before, id) <==> IsNext(jobs, id);
        var id :| id in jobs && IsNext(jobs, id);
        jobs := jobs[id := jobs[id].(state := Starting)];
        assert View() == PutState(before, id, Starting);
        if fault == NoFault {
          leased := Some(id);
        }
      }
    }

    /** Updating a job that is not there is no error. */
    method SetState(id: string, state: State, fault: Fault) returns (ok: bool)
      modifies this
      ensures View() == Faulty(old(View()), PutState(old(View()), id, state), fault)
      ensures OnlyRow(old(View()), View(), id) && (id in jobs <==> id in old(jobs))
      ensures id in jobs ==>
                jobs[id] == if fault != NotApplied then old(jobs[id]).(state := state) else old(jobs[id])
      ensures ok <==> fault == NoFault
    {
      if fault != NotApplied && id in jobs {
        jobs := jobs[id := jobs[id].(state := state)];
      }
      return fault == NoFault;
    }

    method SetPRNumber(id: string, number: int, fault: Fault) returns (ok: bool)
      modifies this
      ensures View() == Faulty(old(View()), PutNumber(old(View()), id, number), fault)
      ensures OnlyRow(old(View()), View(), id) && (id in jobs <==> id in old(jobs))
      ensures id in jobs ==>
                jobs[id] == if fault != NotApplied then old(jobs[id]).(prNumber := number) else old(jobs[id])
      ensures ok <==> fault == NoFault
    {
      if fault != NotApplied && id in jobs {
        jobs := jobs[id := jobs[id].(prNumber := number)];
      }
      return fault == NoFault;
    }
  }
}
