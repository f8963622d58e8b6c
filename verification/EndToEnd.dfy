/** The run of one worker, put into the company of all the others. */
module EndToEnd {
  import opened Text
  import opened Queue
  import opened Lifecycle
  import opened Implementation
  import opened Guarantees
  import opened Protocol
  import opened Interleaving
  import Trace

  lemma LeasedIsStarting(s: System, id: string)
    requires Inv(s) && id in s.done && s.done[id] == []
    ensures InState(s.tables, id, Starting)
  {
    assert JobOk(s.tables, id, s.done[id]);
  }

  ghost predicate Succeeded(log: Log) {
    exists i :: 0 <= i < |log| && OpenedPR(log[i])
  }

  lemma AloneEnds(cfg: Config, o: Oracle, command: string, row: Job, id: string)
    requires row.state == Starting && AllFaultless(JobRun(cfg, o, command))
    ensures var log := JobRun(cfg, o, command);
            var alone := Alone(row, id, Acts(log));
            && id in alone.jobs && Terminal(alone.jobs[id].state)
            && (Succeeded(log) ==> alone.jobs[id].state == Done)
  {
    var t := Tables(map[], map[id := row]);
    RunEnds(cfg, o, command, t, id);
  }

  /** In whatever order the steps of everybody come: once the holder of a job has made all the acts of
      its run, and the queue never failed it, the job is done, failed or waiting for a human, it is done
      if its pull request was opened, and it stays like that for the rest of time. */
  lemma JobEndsAmongOthers(cfg: Config, o: Oracle, command: string, run: seq<System>, labels: seq<Label>,
                           i: nat, k: nat, later: nat, id: string)
    requires Run(run, labels) && i <= k <= later < |run|
    requires id in run[i].done && run[i].done[id] == []
    requires id in run[k].done && run[k].done[id] == Acts(JobRun(cfg, o, command))
    requires AllFaultless(JobRun(cfg, o, command))
    ensures id in run[later].tables.jobs && Terminal(run[later].tables.jobs[id].state)
    ensures Succeeded(JobRun(cfg, o, command)) ==> run[later].tables.jobs[id].state == Done
  {
    Always(run, labels, i);
    LeasedIsStarting(run[i], id);
    NoInterference(run, labels, i, k, id);
    AloneEnds(cfg, o, command, run[i].tables.jobs[id], id);
    TerminalStays(run, labels, k, later, id);
  }

  /** The same, told from the steps: from a reported lease on, when the acts of the holder have been those of a
      whole run on which the queue never failed, the row has come to rest; and if the pull request was opened,
      it is the leased row, done and with the number of the request. */
  lemma OpenedAmongOthers(x: Trace.Setting, run: seq<System>, labels: seq<Label>, i: nat, k: nat, later: nat,
                          w: nat, id: string, p: nat)
    requires Run(run, labels) && i < k <= later < |run| && labels[i] == Lease(w, Some(id), NoFault)
    requires ActsIn(run, labels, i + 1, k, id) == Acts(JobRun(x.cfg, x.o, x.command))
    requires AllFaultless(JobRun(x.cfg, x.o, x.command))
    requires p < |JobRun(x.cfg, x.o, x.command)| && OpenedPR(JobRun(x.cfg, x.o, x.command)[p])
    ensures id in run[i].tables.jobs && id in run[later].tables.jobs
    ensures run[later].tables.jobs[id]
         == run[i].tables.jobs[id].(state := Done, prNumber := JobRun(x.cfg, x.o, x.command)[p].act.result.value)
  {
    OwnActsOnly(run, labels, i, k, w, id);
    var row := run[i].tables.jobs[id].(state := Starting);
    Trace.OpenedRow(x, Tables(map[], map[id := row]), id, p);
    TerminalStays(run, labels, k, later, id);
  }
}
