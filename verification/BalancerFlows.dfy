/** What becomes of requests in a run, event by event: who is answered, what is retried, who gets
    the work. */
module BalancerFlows {
  import opened ChainSelection
  import opened GrpcBalancer
  import opened BalancerRuns
  import opened BalancerLosses
  import opened BalancerRoutees

  // ---- what one event moves ---------------------------------------------------------

  function JobAt(working: seq<Work>, at: nat): Job
    requires at < |working|
  {
    Job(working[at].id, working[at].sender)
  }

  /** The request a successful call answers: its id, and the sender it goes to. */
  function AnsweredJob(s: System, e: Event): seq<Job> {
    if e.Respond? && e.at < |s.working| then [JobAt(s.working, e.at)] else []
  }

  /** The request an event loses. */
  function LostJob(s: System, e: Event): seq<Job> {
    if e.Deliver? && e.at < |s.mailbox| && !IsSafe(s, e) then [Job(s.mailbox[e.at].msg.id, s.mailbox[e.at].sender)]
    else if (e.Throw? || e.Vanish?) && e.at < |s.working| then [JobAt(s.working, e.at)]
    else []
  }

  /** What an event puts into the balancer's mailbox: a request when somebody asks, a retry on
      behalf of the same sender when a call fails. */
  function Posted(s: System, e: Event): seq<Envelope> {
    if e.Submit? then [Envelope(GrpcRequest(e.job.id), e.job.who)]
    else if e.Fail? && e.at < |s.working| then [Envelope(GrpcRetry(s.working[e.at].id), s.working[e.at].sender)]
    else []
  }

  /** What the balancer takes out of it. */
  function Taken(s: System, e: Event): seq<Envelope> {
    if e.Deliver? && e.at < |s.mailbox| then [s.mailbox[e.at]] else []
  }

  /** A request at a client, whatever its call. */
  datatype Assignment = Assignment(client: ActorRef, job: Job)

  function Assignments(working: seq<Work>): (a: seq<Assignment>)
    ensures |a| == |working|
  {
    seq(|working|, i requires 0 <= i < |working| => Assignment(working[i].client, JobAt(working, i)))
  }

  /** The work a delivery gives, to the routee whose turn it is. */
  function Given(s: System, e: Event): seq<Assignment> {
    if e.Deliver? && e.at < |s.mailbox| && s.balancer.routees != []
       && s.balancer.routees[s.balancer.next % |s.balancer.routees|] !in s.stopped
    then [Assignment(s.balancer.routees[s.balancer.next % |s.balancer.routees|], Job(s.mailbox[e.at].msg.id, s.mailbox[e.at].sender))]
    else []
  }

  /** The work an event ends. */
  function Ended(s: System, e: Event): seq<Assignment> {
    if (e.Respond? || e.Fail? || e.Throw? || e.Vanish?) && e.at < |s.working|
    then [Assignment(s.working[e.at].client, JobAt(s.working, e.at))]
    else []
  }

  // ---- one event --------------------------------------------------------------------

  lemma AnswersStep(s: System, e: Event)
    requires Enabled(s, e)
    ensures Apply(s, e).answers == s.answers + AnsweredJob(s, e)
  {
    hide AfterOptimize, AfterStats, AfterTerminated, AfterRoute, Pick, Remove, IsKeyOrder, IsIteration, AfterPing, PingReport,
      WithClients, NodeRefs, NodeIps, Owned, Lives;
  }

  lemma DroppedStep(s: System, e: Event)
    requires Enabled(s, e)
    ensures Apply(s, e).dropped == s.dropped + LostJob(s, e)
  {
    hide AfterOptimize, AfterStats, AfterTerminated, AfterRoute, Pick, Remove, IsKeyOrder, IsIteration, AfterPing, PingReport,
      WithClients, NodeRefs, NodeIps, Owned, Lives;
  }

  lemma TakeStep(s: System, at: nat)
    requires at < |s.mailbox|
    ensures multiset(DeliverTo(s, at).mailbox) + multiset{s.mailbox[at]} == multiset(s.mailbox)
  {
    hide AfterRoute, Pick, Remove, RoutedHistory;
    RemoveOne(s.mailbox, at);
  }

  lemma PostStep(s: System, e: Event)
    requires Enabled(s, e) && !e.Deliver?
    ensures Apply(s, e).mailbox == s.mailbox + Posted(s, e)
  {
    hide AfterOptimize, AfterStats, AfterTerminated, Remove, IsKeyOrder, IsIteration, AfterPing, PingReport,
      WithClients, NodeRefs, NodeIps, Owned, Lives;
  }

  lemma MailboxStep(s: System, e: Event)
    requires Enabled(s, e)
    ensures multiset(Apply(s, e).mailbox) + multiset(Taken(s, e)) == multiset(s.mailbox) + multiset(Posted(s, e))
  {
    hide AfterOptimize, DeliverTo, IsKeyOrder, IsIteration, Remove, NodeRefs, NodeIps, Owned, Lives;
    if e.Deliver? {
      TakeStep(s, e.at);
    } else {
      PostStep(s, e);
    }
  }

  lemma AssignmentsRemove(working: seq<Work>, at: nat)
    requires at < |working|
    ensures multiset(Assignments(Remove(working, at))) + multiset{Assignment(working[at].client, JobAt(working, at))}
         == multiset(Assignments(working))
  {
    assert Assignments(Remove(working, at)) == Remove(Assignments(working), at);
    RemoveOne(Assignments(working), at);
  }

  lemma AssignmentsAdd(working: seq<Work>, w: Work)
    ensures Assignments(working + [w]) == Assignments(working) + [Assignment(w.client, Job(w.id, w.sender))]
  {
  }

  lemma AssignmentsStart(working: seq<Work>, at: nat, call: Call)
    requires at < |working|
    ensures Assignments(working[at := working[at].(call := call)]) == Assignments(working)
  {
  }

  lemma GiveStep(s: System, at: nat)
    requires at < |s.mailbox|
    ensures multiset(Assignments(DeliverTo(s, at).working)) == multiset(Assignments(s.working)) + multiset(Given(s, Deliver(at)))
  {
    hide AfterRoute, Remove, Assignments, RoutedHistory;
    if Pick(s.balancer).To? {
      AssignmentsAdd(s.working, Work(Pick(s.balancer).ref, s.mailbox[at].msg.id, s.mailbox[at].sender, Queued));
    }
  }

  lemma EndStep(s: System, e: Event)
    requires Enabled(s, e) && (e.Respond? || e.Fail? || e.Throw? || e.Vanish?)
    ensures multiset(Assignments(Apply(s, e).working)) + multiset(Ended(s, e)) == multiset(Assignments(s.working))
  {
    hide Remove, Assignments, Owned, NewClient;
    AssignmentsRemove(s.working, e.at);
  }

  lemma StayStep(s: System, e: Event)
    requires Enabled(s, e) && !e.Deliver? && !(e.Respond? || e.Fail? || e.Throw? || e.Vanish?)
    ensures Assignments(Apply(s, e).working) == Assignments(s.working)
  {
    hide AfterOptimize, AfterStats, AfterTerminated, Remove, IsKeyOrder, IsIteration, AfterPing, PingReport,
      WithClients, NodeRefs, NodeIps, Assignments;
    if e.Handle? {
      AssignmentsStart(s.working, e.at, Calling(s.clients[s.working[e.at].client].instance));
    }
  }

  lemma WorkStep(s: System, e: Event)
    requires Enabled(s, e)
    ensures multiset(Assignments(Apply(s, e).working)) + multiset(Ended(s, e)) == multiset(Assignments(s.working)) + multiset(Given(s, e))
  {
    hide AfterOptimize, DeliverTo, IsKeyOrder, IsIteration, Assignments, Remove, NodeRefs, NodeIps, Owned, Lives;
    if e.Deliver? {
      GiveStep(s, e.at);
    } else if e.Respond? || e.Fail? || e.Throw? || e.Vanish? {
      EndStep(s, e);
    } else {
      StayStep(s, e);
    }
  }

  // ---- whole runs -------------------------------------------------------------------

  /** What all events of a run moved, in order, for one of the functions above. */
  ghost function All<T>(s: System, events: seq<Event>, part: (System, Event) -> seq<T>): seq<T>
    requires IsRun(s, events)
    decreases |events|
  {
    if events == [] then [] else
      All(s, events[..|events| - 1], part) + part(After(s, events[..|events| - 1]), events[|events| - 1])
  }

  /** Accounts that balance at each step balance over the run. */
  lemma Balance<T>(m0: multiset<T>, taken: seq<T>, put: seq<T>, m1: multiset<T>, t: seq<T>, p: seq<T>, m2: multiset<T>)
    requires m1 + multiset(taken) == m0 + multiset(put) && m2 + multiset(t) == m1 + multiset(p)
    ensures m2 + multiset(taken + t) == m0 + multiset(put + p)
  {
    calc {
      m2 + multiset(taken + t);
      (m2 + multiset(t)) + multiset(taken);
      (m1 + multiset(taken)) + multiset(p);
      m0 + multiset(put + p);
    }
  }

  lemma {:induction false} ListsFlow(s: System, events: seq<Event>)
    requires IsRun(s, events)
    ensures After(s, events).answers == s.answers + All(s, events, AnsweredJob)
    ensures After(s, events).dropped == s.dropped + All(s, events, LostJob)
  {
    hide Enabled, Apply, AnsweredJob, LostJob;
    if events != [] {
      var init, last := events[..|events| - 1], events[|events| - 1];
      ListsFlow(s, init);
      AnswersStep(After(s, init), last);
      DroppedStep(After(s, init), last);
    }
  }

  lemma {:induction false} MailboxFlow(s: System, events: seq<Event>)
    requires IsRun(s, events)
    ensures multiset(After(s, events).mailbox) + multiset(All(s, events, Taken)) == multiset(s.mailbox) + multiset(All(s, events, Posted))
  {
    hide Enabled, Apply, Taken, Posted;
    if events == [] {
      assert All(s, events, Taken) == [] && All(s, events, Posted) == [];
    } else {
      var init, last := events[..|events| - 1], events[|events| - 1];
      var u := After(s, init);
      MailboxFlow(s, init);
      MailboxStep(u, last);
      Balance(multiset(s.mailbox), All(s, init, Taken), All(s, init, Posted), multiset(u.mailbox),
              Taken(u, last), Posted(u, last), multiset(Apply(u, last).mailbox));
    }
  }

  lemma {:induction false} WorkFlow(s: System, events: seq<Event>)
    requires IsRun(s, events)
    ensures multiset(Assignments(After(s, events).working)) + multiset(All(s, events, Ended))
         == multiset(Assignments(s.working)) + multiset(All(s, events, Given))
  {
    hide Enabled, Apply, Ended, Given, Assignments;
    if events == [] {
      assert All(s, events, Ended) == [] && All(s, events, Given) == [];
    } else {
      var init, last := events[..|events| - 1], events[|events| - 1];
      var u := After(s, init);
      WorkFlow(s, init);
      WorkStep(u, last);
      Balance(multiset(Assignments(s.working)), All(s, init, Ended), All(s, init, Given), multiset(Assignments(u.working)),
              Ended(u, last), Given(u, last), multiset(Assignments(Apply(u, last).working)));
    }
  }

  /** The answers of a run are the requests of its successful calls, in that order and each to its
      own sender; the lost ones are those of the losing events.  The balancer holds what was asked
      and what failed, the latter as retries for the original senders, less what it delivered; the
      clients hold what was delivered to them in turn less what has ended. */
  lemma RequestsFlow(maxClients: int, seeds: seq<Node>, events: seq<Event>)
    requires IsRun(Start(maxClients, seeds), events)
    ensures var s0 := Start(maxClients, seeds);
            var t := After(s0, events);
            && t.answers == All(s0, events, AnsweredJob)
            && t.dropped == All(s0, events, LostJob)
            && multiset(t.mailbox) + multiset(All(s0, events, Taken)) == multiset(All(s0, events, Posted))
            && multiset(Assignments(t.working)) + multiset(All(s0, events, Ended)) == multiset(All(s0, events, Given))
  {
    hide IsRun, After, All, AnsweredJob, LostJob, Taken, Posted, Ended, Given;
    var s0 := Start(maxClients, seeds);
    ListsFlow(s0, events);
    MailboxFlow(s0, events);
    WorkFlow(s0, events);
    assert Assignments([]) == [];
  }

  /** A call of a running instance that fails is not answered: its request waits at the balancer as a
      retry for its sender, and its delivery goes to the routee whose turn it is, if that lives. */
  lemma FailedCallIsRetried(s: System, at: nat)
    requires Enabled(s, Fail(at))
    ensures var w, t := s.working[at], Apply(s, Fail(at));
            var i := |s.mailbox|;
            && t.answers == s.answers && t.dropped == s.dropped
            && |t.mailbox| == i + 1 && t.mailbox[i] == Envelope(GrpcRetry(w.id), w.sender) && Enabled(t, Deliver(i))
            && (s.balancer.routees != [] ==>
                  var ref := s.balancer.routees[s.balancer.next % |s.balancer.routees|];
                  ref !in s.stopped ==>
                    Apply(t, Deliver(i)).working == t.working + [Work(ref, w.id, w.sender, Queued)])
  {
    hide Owned, Remove, AfterRoute, RoutedHistory;
  }

  /** What can become of a call: it may always succeed; it is retried on failure exactly when its
      client neither stopped nor was restarted, and given up otherwise. */
  lemma CallOutcomes(s: System, at: nat)
    requires at < |s.working| && s.working[at].call.Calling?
    ensures var w := s.working[at];
            && Enabled(s, Respond(at)) && !Enabled(s, Handle(at)) && !Enabled(s, Throw(at))
            && (Enabled(s, Fail(at)) <==>
                  w.client in s.clients && w.client !in s.stopped && w.call.instance == s.clients[w.client].instance)
            && (Enabled(s, Vanish(at)) <==> !Enabled(s, Fail(at)))
  {
  }

  /** What can become of a request in a client's mailbox: it is taken, and its function may throw,
      exactly while the client lives, and given up once it has stopped. */
  lemma QueuedOutcomes(s: System, at: nat)
    requires at < |s.working| && s.working[at].call.Queued?
    ensures var ref := s.working[at].client;
            && (Enabled(s, Handle(at)) <==> ref in s.clients && ref !in s.stopped) && (Enabled(s, Throw(at)) <==> Enabled(s, Handle(at)))
            && (Enabled(s, Vanish(at)) <==> ref in s.stopped) && !Enabled(s, Respond(at)) && !Enabled(s, Fail(at))
  {
  }

  // ---- what the balancer notices ----------------------------------------------------

  /** Deliveries in a row go to one routee after the other, from the one whose turn it is. */
  lemma {:induction false} DeliveriesTakeTurns(s: System, events: seq<Event>, at: nat)
    requires IsRun(s, events) && s.balancer.routees != [] && forall e :: e in events ==> e.Deliver?
    requires Enabled(After(s, events), Deliver(at))
    ensures var t, n := After(s, events), |s.balancer.routees|;
            var ref := s.balancer.routees[(s.balancer.next + |events|) % n];
            && at < |t.mailbox| && t.balancer == s.balancer.(next := s.balancer.next + |events|) && t.stopped == s.stopped
            && Given(t, Deliver(at)) == if ref in s.stopped then [] else [Assignment(ref, Job(t.mailbox[at].msg.id, t.mailbox[at].sender))]
  {
    hide Enabled, Apply, Given;
    if events == [] {
      GivenInTurn(s, at);
    } else {
      var init, last := events[..|events| - 1], events[|events| - 1];
      assert last in events && forall e :: e in init ==> e in events;
      DeliveriesTakeTurns(s, init, last.at);
      DeliveryTurns(After(s, init), last.at);
      GivenInTurn(After(s, events), at);
    }
  }

  lemma DeliveryTurns(s: System, at: nat)
    requires Enabled(s, Deliver(at)) && s.balancer.routees != []
    ensures var t := Apply(s, Deliver(at)); t.balancer == s.balancer.(next := s.balancer.next + 1) && t.stopped == s.stopped
  {
    hide Remove, RoutedHistory, Pick;
  }

  lemma GivenInTurn(s: System, at: nat)
    requires Enabled(s, Deliver(at)) && s.balancer.routees != []
    ensures var ref := s.balancer.routees[s.balancer.next % |s.balancer.routees|];
            at < |s.mailbox|
            && Given(s, Deliver(at)) == if ref in s.stopped then [] else [Assignment(ref, Job(s.mailbox[at].msg.id, s.mailbox[at].sender))]
  {
  }

  /** A report handled becomes the status of its ip; the others stay. */
  lemma ReportIsNoticed(s: System, at: nat)
    requires Enabled(s, Report(at))
    ensures var r, t := s.pending[at], Apply(s, Report(at));
            && t.balancer.nodeStatuses.Keys == s.balancer.nodeStatuses.Keys + {r.ip} && t.balancer.nodeStatuses[r.ip] == r
            && (forall ip :: ip in s.balancer.nodeStatuses && ip != r.ip ==> t.balancer.nodeStatuses[ip] == s.balancer.nodeStatuses[ip])
            && multiset(t.pending) + multiset{r} == multiset(s.pending)
  {
    RemoveOne(s.pending, at);
  }

  /** Every ping that ends sends a report: the window with the new block, or an empty one. */
  lemma PingsAreReported(s: System, ref: ActorRef, block: GrpcBlock, responseTime: int)
    requires ref in s.clients && ref !in s.stopped && s.clients[ref].state.self == ref
    ensures var t := Apply(s, Ping(ref, block, responseTime));
            && |t.pending| == |s.pending| + 1 && s.pending <= t.pending
            && var r := t.pending[|s.pending|];
               && r.ref == ref && r.responseTime == responseTime && r.blocks == t.clients[ref].state.latestBlocks
               && r.blocks != [] && r.blocks[|r.blocks| - 1] == block
    ensures var t := Apply(s, PingFailure(ref));
            && |t.pending| == |s.pending| + 1 && s.pending <= t.pending
            && var r := t.pending[|s.pending|];
               && r.ref == ref && r.responseTime == 9999 && r.blocks == []
               && t.clients[ref].state.latestBlocks == s.clients[ref].state.latestBlocks
  {
  }

  /** A client reported stopped leaves the routees; the others keep their order and the turn. */
  lemma StopIsNoticed(s: System, ref: ActorRef)
    requires Enabled(s, NotifyStopped(ref))
    ensures var t := Apply(s, NotifyStopped(ref));
            ref !in t.balancer.routees && IsWithout(t.balancer.routees, s.balancer.routees, {ref}) && t.balancer.next == s.balancer.next
  {
    hide Keep, IsWithout;
    KeepIsWithout(s.balancer.routees, {ref});
    KeepMembers(s.balancer.routees, {ref});
  }

  // ---- routing after a selection ----------------------------------------------------

  /** The first request the balancer handles after an optimisation goes to the fastest active node. */
  lemma FirstRequestGoesToFastest(maxClients: int, seeds: seq<Node>, events: seq<Event>, optimize: Event, at: nat)
    requires IsRun(Start(maxClients, seeds), events) && optimize.Optimize? && optimize.order != []
    requires Enabled(After(Start(maxClients, seeds), events), optimize)
    requires Enabled(Apply(After(Start(maxClients, seeds), events), optimize), Deliver(at))
    ensures var s := Apply(After(Start(maxClients, seeds), events), optimize);
            var active := s.balancer.active;
            active != [] ==>
              && Given(s, Deliver(at)) == (if active[0].ref in s.stopped then [] else
                                             [Assignment(active[0].ref, Job(s.mailbox[at].msg.id, s.mailbox[at].sender))])
              && forall a :: a in active ==> active[0].responseTime <= a.responseTime
  {
    hide IsRun, After, Start, Enabled, Apply, Latest, Keep, IsSelection, Refs, IsKeyOrder, Traceable, SortedByTime, IsWithout;
    StartIsTraceable(maxClients, seeds);
    RunTraceable(Start(maxClients, seeds), events);
    var s := After(Start(maxClients, seeds), events);
    ApplyConsistent(s, optimize);
    Reoptimized(s, optimize);
    var t := Apply(s, optimize);
    RouteesAreKnown(t.balancer, t.history, t.maxClients);
    DeliverIsPossible(t, at);
    if t.balancer.active != [] {
      ActiveAreSorted(t.balancer, t.history, t.maxClients);
      FirstRef(t.balancer.active);
    }
  }

  lemma Reoptimized(s: System, optimize: Event)
    requires optimize.Optimize? && optimize.order != [] && Enabled(s, optimize)
    ensures var h := Apply(s, optimize).history; h.optimized && h.gone == {} && h.slots == []
  {
    hide IsKeyOrder, AfterOptimize;
  }

  lemma DeliverIsPossible(s: System, at: nat)
    requires Enabled(s, Deliver(at))
    ensures at < |s.mailbox|
  {
  }

  lemma ActiveAreSorted(b: BalancerState, h: History, maxClients: int)
    requires Consistent(b, h, maxClients) && h.optimized && b.active != []
    ensures forall a :: a in b.active ==> b.active[0].responseTime <= a.responseTime
  {
    hide Latest, Keep, Select, IsKeyOrder, TakesTurns, Refs, HoldsHash, IsLatest;
    var iteration, order :| SelectedIn(iteration, order, b.active, b.backup, h.atOptimize, maxClients);
    SelectedFacts(iteration, order, b.active, b.backup, h.atOptimize, maxClients);
  }

  lemma FirstRef(nodes: seq<GrpcStats>)
    requires nodes != []
    ensures Refs(nodes) != [] && Refs(nodes)[0] == nodes[0].ref
  {
  }
}
