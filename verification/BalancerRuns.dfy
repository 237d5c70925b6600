/** Runs of the balancer with its clients: one event at a time, in any order the actors allow. */
module BalancerRuns {
  import opened ChainSelection
  import opened GrpcBalancer

  // ---- the system -------------------------------------------------------------------

  datatype Message = GrpcRequest(id: nat) | GrpcRetry(id: nat)

  /** A message with the sender the receiving actor sees. */
  datatype Envelope = Envelope(msg: Message, sender: ActorRef)

  /** Where a request at a client is: in the client's mailbox, or in a call that an instance of
      the client has started. */
  datatype Call = Queued | Calling(instance: nat)

  /** A request at a client that has not completed yet. */
  datatype Work = Work(client: ActorRef, id: nat, sender: ActorRef, call: Call)

  /** A request and who asked; an answer and who gets it. */
  datatype Job = Job(id: nat, who: ActorRef)

  /** A client actor: the fields of its present instance, how many instances came before, every
      block its pings have returned, how many of those before the present instance, and that
      number for every instance so far. */
  datatype ClientRecord = ClientRecord(state: ClientState, instance: nat, fetched: seq<GrpcBlock>, before: nat, starts: set<nat>)

  function NewRecord(node: Node): ClientRecord {
    ClientRecord(NewClient(node.ref, node.ip), 0, [], 0, {0})
  }

  datatype Node = Node(ref: ActorRef, ip: string)

  /** The actors' contents, the reports on their way to the balancer, the clients ever started
      and those stopped, the requests submitted, and the balancer's past since it was
      (re)started. */
  datatype System = System(
    maxClients: int,
    seedIps: seq<string>,
    balancer: BalancerState,
    mailbox: seq<Envelope>,
    pending: seq<GrpcStats>,
    working: seq<Work>,
    answers: seq<Job>,
    dropped: seq<Job>,
    clients: map<ActorRef, ClientRecord>,
    stopped: set<ActorRef>,
    submitted: seq<Job>,
    history: History)

  datatype Event =
    | Submit(job: Job)              // somebody asks the balancer
    | Deliver(at: nat)              // the balancer handles a request or retry
    | Handle(at: nat)               // a client takes a request and starts its call
    | Throw(at: nat)                // a client takes a request whose function throws
    | Respond(at: nat)              // a call succeeds
    | Fail(at: nat)                 // a call of a running instance fails and is retried
    | Vanish(at: nat)               // a request is given up at a stopped or restarted client
    | Ping(ref: ActorRef, block: GrpcBlock, responseTime: int)
    | PingFailure(ref: ActorRef)
    | PingThrow(ref: ActorRef)      // the ping itself throws in the client
    | Report(at: nat)               // the balancer handles a status report
    | Optimize(iteration: seq<string>, order: seq<string>, restartWith: seq<Node>) // OptimizeNodes
    | Stop(ref: ActorRef)           // a client stops
    | NotifyStopped(ref: ActorRef)  // the balancer handles Terminated

  function NodeRefs(nodes: seq<Node>): (refs: seq<ActorRef>)
    ensures |refs| == |nodes| && forall i :: 0 <= i < |refs| ==> refs[i] == nodes[i].ref
  {
    seq(|nodes|, i requires 0 <= i < |nodes| => nodes[i].ref)
  }

  function NodeIps(nodes: seq<Node>): (ips: seq<string>)
    ensures |ips| == |nodes| && forall i :: 0 <= i < |ips| ==> ips[i] == nodes[i].ip
  {
    seq(|nodes|, i requires 0 <= i < |nodes| => nodes[i].ip)
  }

  /** The clients with a new one for each node. */
  function WithClients(clients: map<ActorRef, ClientRecord>, nodes: seq<Node>): map<ActorRef, ClientRecord> {
    if nodes == [] then clients else
      var node := nodes[|nodes| - 1];
      WithClients(clients, nodes[..|nodes| - 1])[node.ref := NewRecord(node)]
  }

  function Start(maxClients: int, seeds: seq<Node>): System {
    System(maxClients, NodeIps(seeds), InitialState(NodeRefs(seeds)), [], [], [], [], [],
           WithClients(map[], seeds), {}, [], NoHistory(NodeRefs(seeds)))
  }

  function Remove<T>(s: seq<T>, i: nat): seq<T>
    requires i < |s|
  {
    s[..i] + s[i + 1..]
  }

  lemma RemoveMembers<T>(s: seq<T>, at: nat)
    requires at < |s|
    ensures forall x :: x in Remove(s, at) ==> x in s
  {
  }

  predicate Lives(s: System, ref: ActorRef) {
    ref in s.clients && ref !in s.stopped
  }

  /** The call was started by the instance that is running now. */
  predicate Owned(s: System, w: Work) {
    Lives(s, w.client) && w.call == Calling(s.clients[w.client].instance)
  }

  /** When an event can happen; ids are those of distinct requests, and a restart of the balancer
      starts one new client per seed node.  A call that was started can succeed whatever became
      of the client; its failure is retried only through the instance that started it. */
  ghost predicate Enabled(s: System, e: Event) {
    match e
    case Submit(job) => forall j :: j in s.submitted ==> j.id != job.id
    case Deliver(at) => at < |s.mailbox|
    case Handle(at) => at < |s.working| && s.working[at].call.Queued? && Lives(s, s.working[at].client)
    case Throw(at) => at < |s.working| && s.working[at].call.Queued? && Lives(s, s.working[at].client)
    case Respond(at) => at < |s.working| && s.working[at].call.Calling?
    case Fail(at) => at < |s.working| && Owned(s, s.working[at])
    case Vanish(at) =>
      && at < |s.working|
      && if s.working[at].call.Queued? then s.working[at].client in s.stopped else !Owned(s, s.working[at])
    case Ping(ref, block, responseTime) => Lives(s, ref)
    case PingFailure(ref) => Lives(s, ref)
    case PingThrow(ref) => Lives(s, ref)
    case Report(at) => at < |s.pending|
    case Optimize(iteration, order, restartWith) =>
      && IsIteration(iteration, s.balancer.nodeStatuses) && IsKeyOrder(order, Values(s.balancer.nodeStatuses, iteration))
      && (order == [] ==> NodeIps(restartWith) == s.seedIps && forall x :: x in NodeRefs(restartWith) ==> x !in s.clients)
    case Stop(ref) => ref in s.clients
    case NotifyStopped(ref) => ref in s.stopped
  }

  /** The balancer forwards to a routee on behalf of the sender; a message to nobody, or to a
      stopped actor, is a dead letter. */
  function DeliverTo(s: System, at: nat): System
    requires at < |s.mailbox|
  {
    var m := s.mailbox[at];
    var s1 := s.(mailbox := Remove(s.mailbox, at),
                 balancer := AfterRoute(s.balancer), history := RoutedHistory(s.balancer, s.history));
    match Pick(s.balancer)
    case NoRoutee => s1.(dropped := s.dropped + [Job(m.msg.id, m.sender)])
    case To(ref) =>
      if ref in s.stopped then s1.(dropped := s.dropped + [Job(m.msg.id, m.sender)])
      else s1.(working := s.working + [Work(ref, m.msg.id, m.sender, Queued)])
  }

  /** A client takes a queued request and starts the call. */
  function Started(s: System, at: nat): System
    requires at < |s.working| && s.working[at].client in s.clients
  {
    var w := s.working[at];
    s.(working := s.working[at := w.(call := Calling(s.clients[w.client].instance))])
  }

  /** The request is gone without an answer. */
  function Lost(s: System, at: nat): System
    requires at < |s.working|
  {
    var w := s.working[at];
    s.(working := Remove(s.working, at), dropped := s.dropped + [Job(w.id, w.sender)])
  }

  /** An exception in a client's receive: a new instance with fresh fields takes over the mailbox;
      calls of the old one go on without it. */
  function ClientRestarted(s: System, ref: ActorRef): System
    requires ref in s.clients
  {
    var c := s.clients[ref];
    s.(clients := s.clients[ref := c.(state := NewClient(c.state.self, c.state.ip), instance := c.instance + 1,
                                      before := |c.fetched|, starts := c.starts + {|c.fetched|})])
  }

  function Pinged(s: System, ref: ActorRef, block: GrpcBlock, responseTime: int): System
    requires ref in s.clients
  {
    var c := s.clients[ref];
    s.(clients := s.clients[ref := c.(state := AfterPing(c.state, block), fetched := c.fetched + [block])],
       pending := s.pending + [PingReport(c.state, block, responseTime)])
  }

  function PingFailed(s: System, ref: ActorRef): System
    requires ref in s.clients
  {
    var c := s.clients[ref];
    s.(clients := s.clients[ref := c.(state := AfterFailedPing(c.state))],
       pending := s.pending + [FailedPingReport(c.state)])
  }

  /** The exception of an empty selection: the supervisor stops all clients and starts the
      balancer anew, with new clients; its mailbox is kept. */
  function Restarted(s: System, seeds: seq<Node>): System {
    s.(balancer := InitialState(NodeRefs(seeds)), history := NoHistory(NodeRefs(seeds)),
       stopped := s.stopped + s.clients.Keys, clients := WithClients(s.clients, seeds))
  }

  function Optimized(s: System, iteration: seq<string>, order: seq<string>): System
    requires forall k :: k in iteration ==> k in s.balancer.nodeStatuses
    requires order != [] && IsKeyOrder(order, Values(s.balancer.nodeStatuses, iteration))
  {
    var b := AfterOptimize(s.balancer, iteration, order, s.maxClients);
    s.(balancer := b, history := OptimizedHistory(s.history, b.routees))
  }

  function Apply(s: System, e: Event): System
    requires Enabled(s, e)
  {
    match e
    case Submit(job) =>
      s.(mailbox := s.mailbox + [Envelope(GrpcRequest(job.id), job.who)], submitted := s.submitted + [job])
    case Deliver(at) => DeliverTo(s, at)
    case Handle(at) => Started(s, at)
    case Throw(at) => ClientRestarted(Lost(s, at), s.working[at].client)
    case Respond(at) =>
      var w := s.working[at];
      s.(working := Remove(s.working, at), answers := s.answers + [Job(w.id, w.sender)])
    case Fail(at) =>
      var w := s.working[at];
      s.(working := Remove(s.working, at), mailbox := s.mailbox + [Envelope(GrpcRetry(w.id), w.sender)])
    case Vanish(at) => Lost(s, at)
    case Ping(ref, block, responseTime) => Pinged(s, ref, block, responseTime)
    case PingFailure(ref) => PingFailed(s, ref)
    case PingThrow(ref) => ClientRestarted(s, ref)
    case Report(at) =>
      s.(pending := Remove(s.pending, at),
         balancer := AfterStats(s.balancer, s.pending[at]), history := ReportedHistory(s.history, s.pending[at]))
    case Optimize(iteration, order, restartWith) =>
      if order == [] then Restarted(s, restartWith) else Optimized(s, iteration, order)
    case Stop(ref) => s.(stopped := s.stopped + {ref})
    case NotifyStopped(ref) =>
      s.(balancer := AfterTerminated(s.balancer, ref), history := TerminatedHistory(s.history, ref))
  }

  /** Every event is possible when it happens. */
  ghost predicate IsRun(s: System, events: seq<Event>)
    decreases |events|, 0
  {
    events == [] ||
    (IsRun(s, events[..|events| - 1]) && Enabled(After(s, events[..|events| - 1]), events[|events| - 1]))
  }

  ghost function After(s: System, events: seq<Event>): System
    requires IsRun(s, events)
    decreases |events|, 1
  {
    if events == [] then s else Apply(After(s, events[..|events| - 1]), events[|events| - 1])
  }

  lemma RunOne(s: System, events: seq<Event>, e: Event)
    requires IsRun(s, events) && Enabled(After(s, events), e)
    ensures IsRun(s, events + [e]) && After(s, events + [e]) == Apply(After(s, events), e)
  {
    hide Enabled, Apply;
    assert (events + [e])[..|events|] == events;
  }

  lemma PrefixIsRun(s: System, events: seq<Event>, i: nat)
    requires IsRun(s, events) && i <= |events|
    ensures IsRun(s, events[..i]) && (i < |events| ==> Enabled(After(s, events[..i]), events[i]))
    decreases |events|
  {
    hide Enabled;
    if i == |events| {
      assert events[..i] == events;
    } else {
      var init := events[..|events| - 1];
      PrefixIsRun(s, init, i);
      assert init[..i] == events[..i];
    }
  }

  // ---- conservation of requests -----------------------------------------------------

  function MailJobs(mailbox: seq<Envelope>): (jobs: seq<Job>)
    ensures |jobs| == |mailbox|
  {
    seq(|mailbox|, i requires 0 <= i < |mailbox| => Job(mailbox[i].msg.id, mailbox[i].sender))
  }

  function WorkJobs(working: seq<Work>): (jobs: seq<Job>)
    ensures |jobs| == |working|
  {
    seq(|working|, i requires 0 <= i < |working| => Job(working[i].id, working[i].sender))
  }

  /** The requests at the balancer, at a client, answered, and lost, with their senders. */
  function Located(s: System): multiset<Job> {
    multiset(MailJobs(s.mailbox)) + multiset(WorkJobs(s.working)) + multiset(s.answers) + multiset(s.dropped)
  }

  ghost predicate Conserved(s: System) {
    && Located(s) == multiset(s.submitted)
    && forall i, j :: 0 <= i < j < |s.submitted| ==> s.submitted[i].id != s.submitted[j].id
  }

  lemma RemoveOne<T>(s: seq<T>, i: nat)
    requires i < |s|
    ensures multiset(Remove(s, i)) == multiset(s) - multiset{s[i]} && s[i] in multiset(s)
  {
    assert s == s[..i] + [s[i]] + s[i + 1..];
  }

  lemma MailRemove(mailbox: seq<Envelope>, i: nat)
    requires i < |mailbox|
    ensures multiset(MailJobs(Remove(mailbox, i))) + multiset{MailJobs(mailbox)[i]} == multiset(MailJobs(mailbox))
  {
    assert MailJobs(Remove(mailbox, i)) == Remove(MailJobs(mailbox), i);
    RemoveOne(MailJobs(mailbox), i);
  }

  lemma WorkRemove(working: seq<Work>, i: nat)
    requires i < |working|
    ensures multiset(WorkJobs(Remove(working, i))) + multiset{WorkJobs(working)[i]} == multiset(WorkJobs(working))
  {
    assert WorkJobs(Remove(working, i)) == Remove(WorkJobs(working), i);
    RemoveOne(WorkJobs(working), i);
  }

  lemma MailAdd(mailbox: seq<Envelope>, m: Envelope)
    ensures MailJobs(mailbox + [m]) == MailJobs(mailbox) + [Job(m.msg.id, m.sender)]
  {
  }

  lemma WorkAdd(working: seq<Work>, w: Work)
    ensures WorkJobs(working + [w]) == WorkJobs(working) + [Job(w.id, w.sender)]
  {
  }

  lemma SubmitLocates(s: System, job: Job)
    ensures Located(s.(mailbox := s.mailbox + [Envelope(GrpcRequest(job.id), job.who)])) == Located(s) + multiset{job}
  {
    hide MailJobs, WorkJobs;
    MailAdd(s.mailbox, Envelope(GrpcRequest(job.id), job.who));
  }

  lemma RespondConserves(s: System, at: nat)
    requires at < |s.working|
    ensures var w := s.working[at];
            Located(s.(working := Remove(s.working, at), answers := s.answers + [Job(w.id, w.sender)])) == Located(s)
  {
    hide MailJobs, Remove;
    WorkRemove(s.working, at);
  }

  lemma LostConserves(s: System, at: nat)
    requires at < |s.working|
    ensures Located(Lost(s, at)) == Located(s)
  {
    hide MailJobs, Remove;
    WorkRemove(s.working, at);
  }

  lemma StartedConserves(s: System, at: nat)
    requires at < |s.working| && s.working[at].client in s.clients
    ensures Located(Started(s, at)) == Located(s)
  {
    hide MailJobs;
    assert WorkJobs(Started(s, at).working) == WorkJobs(s.working);
  }

  lemma FailConserves(s: System, at: nat)
    requires at < |s.working|
    ensures var w := s.working[at];
            Located(s.(working := Remove(s.working, at), mailbox := s.mailbox + [Envelope(GrpcRetry(w.id), w.sender)])) == Located(s)
  {
    hide MailJobs, WorkJobs, Remove;
    var w := s.working[at];
    WorkRemove(s.working, at);
    WorkJobAt(s.working, at);
    MailAdd(s.mailbox, Envelope(GrpcRetry(w.id), w.sender));
  }

  lemma WorkJobAt(working: seq<Work>, at: nat)
    requires at < |working|
    ensures WorkJobs(working)[at] == Job(working[at].id, working[at].sender)
  {
  }

  lemma MailJobAt(mailbox: seq<Envelope>, at: nat)
    requires at < |mailbox|
    ensures MailJobs(mailbox)[at] == Job(mailbox[at].msg.id, mailbox[at].sender)
  {
  }

  lemma DeliverConserves(s: System, at: nat)
    requires at < |s.mailbox|
    ensures Located(DeliverTo(s, at)) == Located(s) && DeliverTo(s, at).submitted == s.submitted
  {
    hide MailJobs, WorkJobs, Remove, Pick, AfterRoute, RoutedHistory;
    var m := s.mailbox[at];
    MailRemove(s.mailbox, at);
    MailJobAt(s.mailbox, at);
    match Pick(s.balancer)
    case NoRoutee =>
    case To(ref) =>
      WorkAdd(s.working, Work(ref, m.msg.id, m.sender, Queued));
  }

  /** Events that are about the balancer's own data leave the places alone. */
  lemma SamePlaces(s: System, t: System)
    requires s.mailbox == t.mailbox && s.working == t.working && s.answers == t.answers && s.dropped == t.dropped
    ensures Located(s) == Located(t)
  {
  }

  lemma MoveConserves(s: System, e: Event)
    requires Enabled(s, e) && (e.Handle? || e.Throw? || e.Respond? || e.Fail? || e.Vanish?)
    ensures Located(Apply(s, e)) == Located(s) && Apply(s, e).submitted == s.submitted
  {
    hide Located, Remove, NewClient;
    match e
    case Handle(at) => StartedConserves(s, at);
    case Throw(at) =>
      LostConserves(s, at);
      SamePlaces(Lost(s, at), Apply(s, e));
    case Respond(at) => RespondConserves(s, at);
    case Fail(at) => FailConserves(s, at);
    case Vanish(at) => LostConserves(s, at);
  }

  lemma OtherConserves(s: System, e: Event)
    requires Enabled(s, e) && !e.Submit? && !(e.Handle? || e.Throw? || e.Respond? || e.Fail? || e.Vanish?)
    ensures Located(Apply(s, e)) == Located(s) && Apply(s, e).submitted == s.submitted
  {
    hide Located, DeliverTo, Remove, AfterOptimize, AfterStats, AfterTerminated, IsKeyOrder, IsIteration,
      AfterPing, PingReport, WithClients, NodeRefs, NodeIps;
    if e.Deliver? {
      DeliverConserves(s, e.at);
    } else {
      SamePlaces(s, Apply(s, e));
    }
  }

  lemma SubmitConserves(s: System, job: Job)
    requires Enabled(s, Submit(job)) && Conserved(s)
    ensures Conserved(Apply(s, Submit(job)))
  {
    hide Located;
    SubmitLocates(s, job);
    SamePlaces(Apply(s, Submit(job)), s.(mailbox := s.mailbox + [Envelope(GrpcRequest(job.id), job.who)]));
  }

  /** Every event keeps each request in exactly one of the four places, the dropped ones being one
      of them, and with its own sender. */
  lemma ApplyConserves(s: System, e: Event)
    requires Enabled(s, e) && Conserved(s)
    ensures Conserved(Apply(s, e))
  {
    hide Located, Apply, Enabled;
    if e.Submit? {
      SubmitConserves(s, e.job);
    } else if e.Handle? || e.Throw? || e.Respond? || e.Fail? || e.Vanish? {
      MoveConserves(s, e);
    } else {
      OtherConserves(s, e);
    }
  }

  lemma {:induction false} RunConserves(s: System, events: seq<Event>)
    requires IsRun(s, events) && Conserved(s)
    ensures Conserved(After(s, events))
  {
    hide Conserved, Apply, Enabled;
    if events != [] {
      var init := events[..|events| - 1];
      RunConserves(s, init);
      ApplyConserves(After(s, init), events[|events| - 1]);
    }
  }

  lemma {:induction false} CountDistinct(jobs: seq<Job>, j: Job)
    requires forall i, k :: 0 <= i < k < |jobs| ==> jobs[i].id != jobs[k].id
    ensures multiset(jobs)[j] == if j in jobs then 1 else 0
  {
    if jobs != [] {
      var init, last := jobs[..|jobs| - 1], jobs[|jobs| - 1];
      CountDistinct(init, j);
      assert jobs == init + [last];
    }
  }

  /** After any run each submitted request is in exactly one place, nothing else is anywhere,
      and an answer goes, once, to the request's own sender. */
  lemma RequestsAreConserved(maxClients: int, seeds: seq<Node>, events: seq<Event>, job: Job)
    requires IsRun(Start(maxClients, seeds), events)
    ensures var s := After(Start(maxClients, seeds), events);
            multiset(MailJobs(s.mailbox))[job] + multiset(WorkJobs(s.working))[job]
            + multiset(s.answers)[job] + multiset(s.dropped)[job] == (if job in s.submitted then 1 else 0)
    ensures var s := After(Start(maxClients, seeds), events);
            job in s.answers ==>
              && multiset(s.answers)[job] == 1 && job in s.submitted
              && (forall other :: other in s.submitted && other.id == job.id ==> other == job)
  {
    hide Apply, Enabled;
    var s0 := Start(maxClients, seeds);
    assert MailJobs([]) == [] && WorkJobs([]) == [];
    assert Conserved(s0);
    RunConserves(s0, events);
    var s := After(s0, events);
    CountDistinct(s.submitted, job);
    assert Located(s)[job] == multiset(s.submitted)[job];
  }
}
