/** internal/server: what a webhook request does to the queue, and what it is answered. */
module Webhook {
  import opened Text
  import opened Queue
  import Commands
  import Branches
  import Protocol

  const COMMAND_ACTOR := "hellcatjack"

  datatype Event = Event(
    eventType: string, action: string, repo: string, issue: int, commentId: int, actor: string,
    commentBody: string, issueBody: string)

  /** A request, as far as the handler looks at it. The signature check and the JSON decoder are given
      by their outcomes. */
  datatype Incoming = Incoming(
    post: bool, bodyFits: bool, signed: bool, deliveryId: string, eventHeader: string,
    event: Option<Event>, bodySha256: string)

  /** The configuration: the base branches of each repository, and who may do what. */
  datatype Site = Site(
    ready: bool, repos: map<string, seq<string>>, cap: int, lower: Branches.LowerDigit,
    refuses: (Event, Commands.Command) -> Option<string>)

  datatype Response = Response(status: int, accepted: bool, duplicate: bool, job: string, reason: string)

  function Refusal(status: int, reason: string): Response {
    Response(status, false, false, "", reason)
  }

  /** The answers that need no queue. */
  function AtTheDoor(site: Site, r: Incoming): Option<Response> {
    if !r.post then Some(Refusal(405, ""))
    else if !site.ready then Some(Refusal(503, "not_ready"))
    else if !r.bodyFits then Some(Refusal(413, "body_too_large"))
    else if !r.signed then Some(Refusal(401, "signature_invalid"))
    else if r.deliveryId == "" || r.eventHeader == "" then Some(Refusal(400, "missing_headers"))
    else if r.event.None? then Some(Refusal(400, "json_invalid"))
    else if r.event.value.eventType != "issue_comment" && r.event.value.eventType != "issues" then
      Some(Response(202, true, false, "", ""))
    else if r.event.value.repo !in site.repos then Some(Refusal(202, "repo_not_allowed"))
    else None
  }

  predicate CommandActionAllowed(e: Event) {
    match e.eventType
    case "issue_comment" => e.action == "created" || e.action == "edited"
    case "issues" => e.action == "opened" || e.action == "edited"
    case _ => false
  }

  function CommandText(e: Event): string {
    if e.commentBody == "" then e.issueBody else e.commentBody
  }

  function ParserOptions(site: Site, e: Event): Commands.Options
    requires e.repo in site.repos
  {
    Commands.Options(site.repos[e.repo], site.cap, site.lower)
  }

  function RowOf(r: Incoming, e: Event): Delivery {
    Delivery(e.eventType, e.repo, e.issue, e.actor, r.bodySha256)
  }

  function JobOf(site: Site, r: Incoming, e: Event, cmd: Commands.Command, now: int): Job
    requires e.repo in site.repos
  {
    var bases := site.repos[e.repo];
    var base := if cmd.flags.base == "" && bases != [] then bases[0] else cmd.flags.base;
    Job(r.deliveryId, e.repo, e.issue, e.commentId, e.actor, Commands.NameText(cmd.name), base, cmd.flags.branch,
        Queued, 0, now)
  }

  datatype Wish = Order(job: Job) | No(reason: string)

  /** What a new delivery asks for. */
  function WishOf(site: Site, r: Incoming, e: Event, now: int): Wish
    requires e.repo in site.repos
  {
    if !CommandActionAllowed(e) then No("command_action_ignored")
    else if e.actor != COMMAND_ACTOR then No("command_actor_not_allowed")
    else
      var cmds := Commands.ParsedBody(CommandText(e), ParserOptions(site, e));
      if cmds.None? || cmds.value == [] then No("command_invalid")
      else
        match site.refuses(e, cmds.value[0])
        case Some(reason) => No(reason)
        case None => Order(JobOf(site, r, e, cmds.value[0], now))
  }

  /** The time and the faults that a request meets. */
  datatype Luck = Luck(now: int, id: string, record: Fault, create: Fault)

  function Handled(t: Tables, site: Site, r: Incoming, luck: Luck): (Tables, Response) {
    if AtTheDoor(site, r).Some? then (t, AtTheDoor(site, r).value)
    else
      var e := r.event.value;
      var recorded := Faulty(t, Record(t, r.deliveryId, RowOf(r, e)), luck.record);
      if luck.record != NoFault then (recorded, Refusal(500, "queue_failed"))
      else if r.deliveryId in t.deliveries then (recorded, Response(202, true, true, "", ""))
      else
        match WishOf(site, r, e, luck.now)
        case No(reason) => (recorded, Refusal(202, reason))
        case Order(job) =>
          ( Faulty(recorded, Create(recorded, luck.id, job), luck.create),
            if luck.create == NoFault && luck.id !in t.jobs then Response(202, true, false, luck.id, "")
            else Refusal(500, "queue_failed"))
  }

  class Server {
    const store: Store
    const site: Site

    constructor (store: Store, site: Site)
      ensures this.store == store && this.site == site
    {
      this.store, this.site := store, site;
    }

    method HandleWebhook(r: Incoming, luck: Luck) returns (response: Response)
      modifies store
      ensures (store.View(), response) == Handled(old(store.View()), site, r, luck)
    {
      if !r.post {
        return Refusal(405, "");
      }
      if !site.ready {
        return Refusal(503, "not_ready");
      }
      if !r.bodyFits {
        return Refusal(413, "body_too_large");
      }
      if !r.signed {
        return Refusal(401, "signature_invalid");
      }
      if r.deliveryId == "" || r.eventHeader == "" {
        return Refusal(400, "missing_headers");
      }
      if r.event.None? {
        return Refusal(400, "json_invalid");
      }
      var e := r.event.value;
      if e.eventType != "issue_comment" && e.eventType != "issues" {
        return Response(202, true, false, "", "");
      }
      if e.repo !in site.repos {
        return Refusal(202, "repo_not_allowed");
      }
      var duplicate := store.RecordDelivery(r.deliveryId, RowOf(r, e), luck.record);
      if duplicate.None? {
        return Refusal(500, "queue_failed");
      }
      if duplicate.value {
        return Response(202, true, true, "", "");
      }
      response := Enqueue(r, e, luck);
    }

    /** The second half of handleWebhook: a delivery that was not there before. */
    method Enqueue(r: Incoming, e: Event, luck: Luck) returns (response: Response)
      requires e.repo in site.repos
      modifies store
      ensures var t := old(store.View());
              match WishOf(site, r, e, luck.now)
              case No(reason) => store.View() == t && response == Refusal(202, reason)
              case Order(job) =>
                && store.View() == Faulty(t, Create(t, luck.id, job), luck.create)
                && response == if luck.create == NoFault && luck.id !in t.jobs
                               then Response(202, true, false, luck.id, "")
                               else Refusal(500, "queue_failed")
    {
      if !CommandActionAllowed(e) {
        return Refusal(202, "command_action_ignored");
      }
      if e.actor != COMMAND_ACTOR {
        return Refusal(202, "command_actor_not_allowed");
      }
      var text := e.commentBody;
      if text == "" {
        text := e.issueBody;
      }
      var cmds := Commands.ParseBody(text, ParserOptions(site, e));
      if cmds.None? || cmds.value == [] {
        return Refusal(202, "command_invalid");
      }
      var cmd := cmds.value[0];
      var refusal := site.refuses(e, cmd);
      if refusal.Some? {
        return Refusal(202, refusal.value);
      }
      var ok := store.CreateJob(luck.id, JobOf(site, r, e, cmd, luck.now), luck.create);
      if !ok {
        return Refusal(500, "queue_failed");
      }
      return Response(202, true, false, luck.id, "");
    }
  }

  // ---------------------------------------------------------------- what follows

  /** What a request must be before anything is stored. */
  predicate Admitted(site: Site, r: Incoming) {
    && r.post && site.ready && r.bodyFits && r.signed && r.deliveryId != "" && r.eventHeader != ""
    && r.event.Some? && (r.event.value.eventType == "issue_comment" || r.event.value.eventType == "issues")
    && r.event.value.repo in site.repos
  }

  /** A delivery that is on record changes nothing when it comes again, and the queue being well it is
      answered as a duplicate. */
  lemma AgainChangesNothing(t: Tables, site: Site, r: Incoming, luck: Luck)
    requires r.deliveryId in t.deliveries
    ensures Handled(t, site, r, luck).0 == t
    ensures Admitted(site, r) && luck.record == NoFault ==>
              Handled(t, site, r, luck).1 == Response(202, true, true, "", "")
  {
  }

  /** The first thing that is wrong decides the answer, and the tables stay as they are. */
  lemma RefusedInOrder(t: Tables, site: Site, r: Incoming, luck: Luck)
    requires !Admitted(site, r)
    ensures Handled(t, site, r, luck).0 == t
    ensures var answer := Handled(t, site, r, luck).1;
            if !r.post then answer == Response(405, false, false, "", "")
            else if !site.ready then answer == Response(503, false, false, "", "not_ready")
            else if !r.bodyFits then answer == Response(413, false, false, "", "body_too_large")
            else if !r.signed then answer == Response(401, false, false, "", "signature_invalid")
            else if r.deliveryId == "" || r.eventHeader == "" then
              answer == Response(400, false, false, "", "missing_headers")
            else if r.event.None? then answer == Response(400, false, false, "", "json_invalid")
            else if r.event.value.eventType == "issue_comment" || r.event.value.eventType == "issues" then
              answer == Response(202, false, false, "", "repo_not_allowed")
            else answer == Response(202, true, false, "", "")
  {
  }

  /** The tables change exactly for an admitted request with a new delivery whose insert takes effect, and then
      the delivery is on record as it came. */
  lemma StoredExactly(t: Tables, site: Site, r: Incoming, luck: Luck)
    ensures Handled(t, site, r, luck).0 != t
       <==> Admitted(site, r) && r.deliveryId !in t.deliveries && luck.record != NotApplied
    ensures Handled(t, site, r, luck).0 != t ==>
              && var e := r.event.value;
              && Handled(t, site, r, luck).0.deliveries
                 == t.deliveries[r.deliveryId := Delivery(e.eventType, e.repo, e.issue, e.actor, r.bodySha256)]
              && forall id | id in t.jobs ::
                   id in Handled(t, site, r, luck).0.jobs && Handled(t, site, r, luck).0.jobs[id] == t.jobs[id]
  {
    if Admitted(site, r) && r.deliveryId !in t.deliveries && luck.record != NotApplied {
      assert r.deliveryId in Handled(t, site, r, luck).0.deliveries;
    }
  }

  /** A comment that is created or edited, or an issue that is opened or edited. */
  predicate AsksForWork(e: Event) {
    || (e.eventType == "issue_comment" && (e.action == "created" || e.action == "edited"))
    || (e.eventType == "issues" && (e.action == "opened" || e.action == "edited"))
  }

  /** The commands in the text of the event: of the comment, or of the issue if there is no comment. */
  function CommandsIn(site: Site, e: Event): Option<seq<Commands.Command>>
    requires e.repo in site.repos
  {
    Commands.ParsedBody(if e.commentBody != "" then e.commentBody else e.issueBody,
                        Commands.Options(site.repos[e.repo], site.cap, site.lower))
  }

  /** The one actor asks for work, the whole text is valid, and its first command is not turned down. */
  predicate Commanded(site: Site, e: Event)
    requires e.repo in site.repos
  {
    && AsksForWork(e) && e.actor == "hellcatjack"
    && CommandsIn(site, e).Some? && CommandsIn(site, e).value != []
    && site.refuses(e, CommandsIn(site, e).value[0]).None?
  }

  /** The base a command works on: its own, else the first that the repository permits. */
  predicate BaseOf(base: string, flag: string, bases: seq<string>) {
    if flag != "" then base == flag && base in bases
    else if bases != [] then base == bases[0]
    else base == ""
  }

  /** A job appears exactly for a command in an admitted request whose delivery is new, if the record is made
      without a fault and the row takes effect under a free id. */
  lemma JobAppearsExactly(t: Tables, site: Site, r: Incoming, luck: Luck, id: string)
    requires id !in t.jobs
    ensures id in Handled(t, site, r, luck).0.jobs
       <==> && Admitted(site, r) && r.deliveryId !in t.deliveries && luck.record == NoFault
            && Commanded(site, r.event.value) && id == luck.id && luck.create != NotApplied
  {
  }

  /** The job is the first command of the text, queued for its delivery, issue, comment and actor under its name,
      on its base and its safe branch. */
  lemma JobIsCommanded(t: Tables, site: Site, r: Incoming, luck: Luck, id: string)
    requires Branches.Tables(site.lower)
    requires var after := Handled(t, site, r, luck).0; id in after.jobs && id !in t.jobs
    ensures Admitted(site, r) && r.deliveryId !in t.deliveries && Commanded(site, r.event.value)
    ensures var e, job := r.event.value, Handled(t, site, r, luck).0.jobs[id];
            var cmd := CommandsIn(site, e).value[0];
            && job.deliveryId == r.deliveryId && job.repo == e.repo && job.issue == e.issue
            && job.commentId == e.commentId && job.actor == e.actor
            && job.state == Queued && job.prNumber == 0 && job.createdAt == luck.now
            && |Fields(cmd.raw)| >= 2 && Fields(cmd.raw)[1] == job.command
            && BaseOf(job.baseBranch, cmd.flags.base, site.repos[e.repo])
            && job.workBranch == cmd.flags.branch
            && (job.workBranch == "" || Branches.SafeBranch(job.workBranch, site.lower))
  {
    JobAppearsExactly(t, site, r, luck, id);
    var e := r.event.value;
    var opts := ParserOptions(site, e);
    var cmds := Commands.ParsedBody(CommandText(e), opts).value;
    Commands.LinesValid(Split(CommandText(e), '\n'), opts, 0);
    Commands.LinesSpelled(Split(CommandText(e), '\n'), opts, 0);
  }

  /** What a new delivery is answered, the queue being well: the first reason against it, or the new job. */
  lemma AnsweredInOrder(t: Tables, site: Site, r: Incoming, luck: Luck)
    requires Admitted(site, r) && r.deliveryId !in t.deliveries && luck.record == NoFault && luck.create == NoFault
    ensures var e, answer := r.event.value, Handled(t, site, r, luck).1;
            var cmds := CommandsIn(site, e);
            if !AsksForWork(e) then answer == Response(202, false, false, "", "command_action_ignored")
            else if e.actor != "hellcatjack" then answer == Response(202, false, false, "", "command_actor_not_allowed")
            else if cmds.None? || cmds.value == [] then answer == Response(202, false, false, "", "command_invalid")
            else if site.refuses(e, cmds.value[0]).Some? then
              answer == Response(202, false, false, "", site.refuses(e, cmds.value[0]).value)
            else if luck.id in t.jobs then answer == Response(500, false, false, "", "queue_failed")
            else answer == Response(202, true, false, luck.id, "")
  {
  }

  /** The handler is what the protocol takes it for: recording, deciding and creating, in this order. */
  lemma HandlerFollowsProtocol(s: Protocol.System, h: nat, site: Site, r: Incoming, luck: Luck)
    requires h in s.handlers && s.handlers[h] == Protocol.Arrived(r.deliveryId) && Admitted(site, r)
    ensures var e := r.event.value;
            var recorded := Protocol.Recorded(s, h, RowOf(r, e), luck.record);
            var end := Handled(s.tables, site, r, luck).0;
            && Protocol.Enabled(s, Protocol.Record(h, RowOf(r, e), luck.record))
            && (recorded.handlers[h].Closed? ==> end == recorded.tables)
            && (recorded.handlers[h].Won? ==>
                 match WishOf(site, r, e, luck.now)
                 case No(_) => Protocol.Enabled(recorded, Protocol.Decide(h, None)) && end == recorded.tables
                 case Order(job) =>
                   && Protocol.Enabled(recorded, Protocol.Decide(h, Some(job)))
                   && var decided := Protocol.Next(recorded, Protocol.Decide(h, Some(job)));
                   && Protocol.Enabled(decided, Protocol.Create(h, luck.id, luck.create))
                   && end == Protocol.Created(decided, h, luck.id, luck.create).tables)
  {
  }
}
