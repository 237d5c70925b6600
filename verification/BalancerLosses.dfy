/** When runs of the balancer lose requests, exactly, and which configurations cannot. */
module BalancerLosses {
  import opened ChainSelection
  import opened GrpcBalancer
  import opened BalancerRuns

  // ---- when requests are lost -------------------------------------------------------

  /** The event loses no request: a delivery goes to a routee that has not stopped, no request
      function throws in a client, and no request is given up at a stopped client or after a
      call whose client has stopped or been restarted failed. */
  predicate IsSafe(s: System, e: Event) {
    match e
    case Deliver(at) => Pick(s.balancer).To? && Pick(s.balancer).ref !in s.stopped
    case Throw(at) => false
    case Vanish(at) => false
    case _ => true
  }

  /** The i-th event of the run loses a request. */
  ghost predicate LosesAt(s: System, events: seq<Event>, i: nat)
    requires IsRun(s, events) && i < |events|
  {
    PrefixIsRun(s, events, i);
    !IsSafe(After(s, events[..i]), events[i])
  }

  ghost function Losses(s: System, events: seq<Event>): set<nat>
    requires IsRun(s, events)
  {
    set i: nat | i < |events| && LosesAt(s, events, i)
  }

  lemma ApplyLoses(s: System, e: Event)
    requires Enabled(s, e)
    ensures s.dropped <= Apply(s, e).dropped
    ensures |Apply(s, e).dropped| == |s.dropped| + if IsSafe(s, e) then 0 else 1
  {
    hide Pick, AfterRoute, AfterStats, AfterTerminated, AfterOptimize, AfterPing, IsKeyOrder, IsIteration, Remove,
      WithClients, NodeRefs, NodeIps, Owned, Lives;
  }

  lemma LossesSnoc(s: System, events: seq<Event>)
    requires IsRun(s, events) && events != []
    ensures var n := |events| - 1;
            IsRun(s, events[..n]) && Losses(s, events) == Losses(s, events[..n]) + if LosesAt(s, events, n) then {n} else {}
  {
    hide Enabled, Apply, IsSafe, After, IsRun;
    var n := |events| - 1;
    PrefixIsRun(s, events, n);
    var init := events[..n];
    forall i: nat | i < n
      ensures LosesAt(s, init, i) <==> LosesAt(s, events, i)
    {
      PrefixIsRun(s, events, i);
      PrefixIsRun(s, init, i);
      assert init[..i] == events[..i];
    }
  }

  /** One request is lost for each losing event. */
  lemma {:induction false} EachLossIsOne(s: System, events: seq<Event>)
    requires IsRun(s, events)
    ensures s.dropped <= After(s, events).dropped
    ensures |After(s, events).dropped| == |s.dropped| + |Losses(s, events)|
  {
    hide Enabled, Apply, IsSafe;
    if events != [] {
      var n := |events| - 1;
      PrefixIsRun(s, events, n);
      EachLossIsOne(s, events[..n]);
      LossesSnoc(s, events);
      ApplyLoses(After(s, events[..n]), events[n]);
      assert n !in Losses(s, events[..n]);
    }
  }

  /** Exactly when a run loses no request: when every request and retry the balancer handles
      finds, next in turn, a routee that has not stopped; no request function throws in a client;
      and nothing is given up at a stopped or restarted client. */
  lemma LosesNothingIff(maxClients: int, seeds: seq<Node>, events: seq<Event>)
    requires IsRun(Start(maxClients, seeds), events)
    ensures After(Start(maxClients, seeds), events).dropped == [] <==>
            forall i: nat :: i < |events| ==> !LosesAt(Start(maxClients, seeds), events, i)
  {
    hide IsRun, After, LosesAt;
    var s0 := Start(maxClients, seeds);
    EachLossIsOne(s0, events);
    if Losses(s0, events) == {} {
      forall i: nat | i < |events|
        ensures !LosesAt(s0, events, i)
      {
        assert i !in Losses(s0, events);
      }
    } else {
      var i :| i in Losses(s0, events);
    }
  }

  // ---- when no run loses a request --------------------------------------------------

  /** No client stops, by itself or by a restart of the balancer, and none is restarted, by a
      request function or a ping that throws. */
  ghost predicate NothingBreaks(events: seq<Event>) {
    forall e :: e in events ==> !Breaks(e)
  }

  predicate Breaks(e: Event) {
    e.Stop? || (e.Optimize? && e.order == []) || e.Throw? || e.PingThrow?
  }

  /** There is somebody to route to, everybody lives, and every call belongs to the instance
      that started it. */
  ghost predicate AllAlive(s: System) {
    && s.stopped == {} && s.balancer.routees != [] && s.maxClients >= 1
    && CallsAreOwned(s)
  }

  ghost predicate CallsAreOwned(s: System) {
    forall w :: w in s.working && w.call.Calling? ==> Owned(s, w)
  }

  lemma OptimizeHasRoutees(b: BalancerState, iteration: seq<string>, order: seq<string>, maxClients: int)
    requires (forall k :: k in iteration ==> k in b.nodeStatuses) && maxClients >= 1
    requires order != [] && IsKeyOrder(order, Values(b.nodeStatuses, iteration))
    ensures AfterOptimize(b, iteration, order, maxClients).routees != []
  {
    hide Select, IsKeyOrder;
    SomeActive(Values(b.nodeStatuses, iteration), order, maxClients);
  }

  lemma ApplyStaysAlive(s: System, e: Event)
    requires Enabled(s, e) && AllAlive(s) && !Breaks(e)
    ensures AllAlive(Apply(s, e)) && IsSafe(s, e)
  {
    hide AfterOptimize, IsKeyOrder, Keep, AfterPing, PingReport, CallsAreOwned, Remove;
    CallsStayOwned(s, e);
    match e
    case Optimize(iteration, order, restartWith) => OptimizeHasRoutees(s.balancer, iteration, order, s.maxClients);
    case Vanish(at) => NotVanishing(s, at);
    case _ =>
  }

  lemma NotVanishing(s: System, at: nat)
    requires AllAlive(s) && at < |s.working|
    ensures !Enabled(s, Vanish(at))
  {
    assert s.working[at] in s.working;
  }

  lemma CallsStayOwned(s: System, e: Event)
    requires Enabled(s, e) && AllAlive(s) && !Breaks(e)
    ensures CallsAreOwned(Apply(s, e))
  {
    hide AfterOptimize, AfterRoute, AfterStats, AfterPing, PingReport, Pick, IsKeyOrder, IsIteration, Remove, RoutedHistory;
    match e
    case Respond(at) => RemoveMembers(s.working, at);
    case Fail(at) => RemoveMembers(s.working, at);
    case Vanish(at) => RemoveMembers(s.working, at);
    case _ =>
  }

  lemma {:induction false} RunStaysAlive(s: System, events: seq<Event>)
    requires IsRun(s, events) && AllAlive(s) && NothingBreaks(events)
    ensures AllAlive(After(s, events))
  {
    hide AllAlive, Apply, Enabled, Breaks;
    if events != [] {
      var init, last := events[..|events| - 1], events[|events| - 1];
      RunStaysAlive(s, init);
      ApplyStaysAlive(After(s, init), last);
    }
  }

  /** As long as nothing breaks, with at least one seed node and a positive limit, no request is
      ever lost: each is at the balancer, at one client, or answered. */
  lemma NothingIsLostUnlessSomethingBreaks(maxClients: int, seeds: seq<Node>, events: seq<Event>, job: Job)
    requires IsRun(Start(maxClients, seeds), events) && maxClients >= 1 && seeds != [] && NothingBreaks(events)
    ensures var s := After(Start(maxClients, seeds), events);
            && s.dropped == [] && s.balancer.routees != []
            && (job in s.submitted ==>
                  multiset(MailJobs(s.mailbox))[job] + multiset(WorkJobs(s.working))[job] + multiset(s.answers)[job] == 1)
  {
    hide Apply, Enabled, IsSafe, IsRun, After, Breaks;
    var s0 := Start(maxClients, seeds);
    forall i: nat | i < |events|
      ensures !LosesAt(s0, events, i)
    {
      PrefixIsRun(s0, events, i);
      RunStaysAlive(s0, events[..i]);
      assert events[i] in events;
      ApplyStaysAlive(After(s0, events[..i]), events[i]);
    }
    LosesNothingIff(maxClients, seeds, events);
    RunStaysAlive(s0, events);
    RequestsAreConserved(maxClients, seeds, events, job);
  }

  ghost predicate NeverLoses(maxClients: int, seeds: seq<Node>) {
    forall events :: IsRun(Start(maxClients, seeds), events) && NothingBreaks(events) ==>
      After(Start(maxClients, seeds), events).dropped == []
  }

  /** Which configurations lose nothing as long as nothing breaks: those with a seed node and a
      positive limit, and no others. */
  lemma SafeConfigurations(maxClients: int, seeds: seq<Node>)
    ensures NeverLoses(maxClients, seeds) <==> maxClients >= 1 && seeds != []
  {
    hide IsRun, After, NothingBreaks;
    if maxClients >= 1 && seeds != [] {
      forall events | IsRun(Start(maxClients, seeds), events) && NothingBreaks(events)
        ensures After(Start(maxClients, seeds), events).dropped == []
      {
        NothingIsLostUnlessSomethingBreaks(maxClients, seeds, events, Job(0, 0));
      }
    } else if seeds == [] {
      var events := NoSeedLoses(maxClients);
    } else {
      var events := NoLimitLoses(maxClients, seeds);
    }
  }

  // ---- losing runs ------------------------------------------------------------------

  /** The events are a run from s to t. */
  ghost predicate Leads(s: System, events: seq<Event>, t: System) {
    IsRun(s, events) && After(s, events) == t
  }

  lemma LeadsNowhere(s: System)
    ensures Leads(s, [], s)
  {
  }

  lemma LeadsOn(s: System, events: seq<Event>, t: System, e: Event, more: seq<Event>)
    requires Leads(s, events, t) && Enabled(t, e) && more == events + [e]
    ensures Leads(s, more, Apply(t, e))
  {
    RunOne(s, events, e);
  }

  const REQUEST: Job := Job(7, 9)

  function OneSeed(): System {
    Start(12, [Node(1, "a")])
  }

  /** One seed node, and a request that has arrived at the balancer. */
  function Requested(s: System): System {
    s.(mailbox := s.mailbox + [Envelope(GrpcRequest(7), 9)], submitted := s.submitted + [REQUEST])
  }

  lemma RequestArrives(s: System)
    requires s.submitted == []
    ensures Leads(s, [Submit(REQUEST)], Requested(s))
  {
    LeadsNowhere(s);
    LeadsOn(s, [], s, Submit(REQUEST), [Submit(REQUEST)]);
  }

  /** The system with one seed node after the request was delivered to its client. */
  lemma RequestAtClient() returns (t: System)
    ensures Leads(OneSeed(), [Submit(REQUEST), Deliver(0)], t)
    ensures t.working == [Work(1, 7, 9, Queued)] && t.mailbox == [] && t.dropped == [] && t.stopped == {}
    ensures t.clients == OneSeed().clients && t.clients.Keys == {1} && t.clients[1].instance == 0
    ensures t.seedIps == ["a"] && t.balancer.nodeStatuses == map[]
  {
    hide Leads;
    var s0 := OneSeed();
    OneClient();
    RequestArrives(s0);
    var s1 := Requested(s0);
    t := DeliverTo(s1, 0);
    assert Apply(s1, Deliver(0)) == t;
    LeadsOn(s0, [Submit(REQUEST)], s1, Deliver(0), [Submit(REQUEST), Deliver(0)]);
  }

  lemma OneClient()
    ensures var s := OneSeed();
            s.clients == map[1 := NewRecord(Node(1, "a"))] && s.balancer.routees == [1] && s.seedIps == ["a"]
  {
    var nodes := [Node(1, "a")];
    assert nodes[..0] == [];
    assert NodeRefs(nodes) == [1] && NodeIps(nodes) == ["a"];
    assert WithClients(map[], nodes) == WithClients(map[], [])[1 := NewRecord(Node(1, "a"))];
  }

  /** A request routed to a client that has stopped is lost. */
  lemma StopCanLose()
    ensures var events := [Submit(REQUEST), Stop(1), Deliver(0)];
            IsRun(OneSeed(), events) && After(OneSeed(), events).dropped == [REQUEST]
  {
    hide IsRun, After;
    var s0 := OneSeed();
    OneClient();
    RequestArrives(s0);
    var s1 := Requested(s0);
    var s2 := s1.(stopped := s1.stopped + {1});
    LeadsOn(s0, [Submit(REQUEST)], s1, Stop(1), [Submit(REQUEST), Stop(1)]);
    LeadsOn(s0, [Submit(REQUEST), Stop(1)], s2, Deliver(0), [Submit(REQUEST), Stop(1), Deliver(0)]);
  }

  /** A request whose function throws in the client is lost, although no client stops: nobody
      retries it. */
  lemma ThrowCanLose()
    ensures var events := [Submit(REQUEST), Deliver(0), Throw(0)];
            && IsRun(OneSeed(), events)
            && After(OneSeed(), events).dropped == [REQUEST] && After(OneSeed(), events).stopped == {}
  {
    hide IsRun, After, OneSeed;
    var s2 := RequestAtClient();
    LeadsOn(OneSeed(), [Submit(REQUEST), Deliver(0)], s2, Throw(0), [Submit(REQUEST), Deliver(0), Throw(0)]);
  }

  /** A call under way when its client is restarted is lost if it fails, although no client
      stops: the retry would have to go through the instance that is gone. */
  lemma ClientRestartCanLose()
    ensures var events := [Submit(REQUEST), Deliver(0), Handle(0), PingThrow(1), Vanish(0)];
            && IsRun(OneSeed(), events)
            && After(OneSeed(), events).dropped == [REQUEST] && After(OneSeed(), events).stopped == {}
  {
    hide IsRun, After, OneSeed;
    var s2 := RequestAtClient();
    var s3 := Started(s2, 0);
    LeadsOn(OneSeed(), [Submit(REQUEST), Deliver(0)], s2, Handle(0), [Submit(REQUEST), Deliver(0), Handle(0)]);
    var s4 := ClientRestarted(s3, 1);
    LeadsOn(OneSeed(), [Submit(REQUEST), Deliver(0), Handle(0)], s3, PingThrow(1),
            [Submit(REQUEST), Deliver(0), Handle(0), PingThrow(1)]);
    LeadsOn(OneSeed(), [Submit(REQUEST), Deliver(0), Handle(0), PingThrow(1)], s4, Vanish(0),
            [Submit(REQUEST), Deliver(0), Handle(0), PingThrow(1), Vanish(0)]);
  }

  lemma NothingReported()
    ensures IsIteration([], map[]) && IsKeyOrder([], Values(map[], []))
  {
  }

  /** A request at a client when the balancer restarts can be lost. */
  lemma RestartCanLose()
    ensures var events := [Submit(REQUEST), Deliver(0), Optimize([], [], [Node(2, "a")]), Vanish(0)];
            IsRun(OneSeed(), events) && After(OneSeed(), events).dropped == [REQUEST]
  {
    hide IsRun, After, OneSeed, IsIteration, IsKeyOrder;
    var s2 := RequestAtClient();
    NothingReported();
    var restart := Optimize([], [], [Node(2, "a")]);
    assert NodeIps([Node(2, "a")]) == ["a"];
    var s3 := Restarted(s2, [Node(2, "a")]);
    LeadsOn(OneSeed(), [Submit(REQUEST), Deliver(0)], s2, restart, [Submit(REQUEST), Deliver(0), restart]);
    assert 1 in s3.stopped;
    LeadsOn(OneSeed(), [Submit(REQUEST), Deliver(0), restart], s3, Vanish(0), [Submit(REQUEST), Deliver(0), restart, Vanish(0)]);
  }

  /** Without seed nodes the first request handled is lost. */
  lemma NoSeedLoses(maxClients: int) returns (events: seq<Event>)
    ensures IsRun(Start(maxClients, []), events) && NothingBreaks(events)
    ensures After(Start(maxClients, []), events).dropped != []
  {
    hide IsRun, After;
    var s0 := Start(maxClients, []);
    RequestArrives(s0);
    var s1 := Requested(s0);
    events := [Submit(REQUEST), Deliver(0)];
    LeadsOn(s0, [Submit(REQUEST)], s1, Deliver(0), events);
  }

  lemma StartFields(maxClients: int, seeds: seq<Node>)
    ensures var s := Start(maxClients, seeds);
            && s.mailbox == [] && s.pending == [] && s.dropped == [] && s.submitted == [] && s.stopped == {}
            && s.clients == WithClients(map[], seeds) && s.maxClients == maxClients && s.balancer.nodeStatuses == map[]
  {
  }

  /** A run after which the request waits and one status has been reported. */
  lemma OneReport(maxClients: int, seeds: seq<Node>) returns (events: seq<Event>, t: System, stats: GrpcStats)
    requires seeds != []
    ensures Leads(Start(maxClients, seeds), events, t) && NothingBreaks(events)
    ensures t.balancer.nodeStatuses == map[stats.ip := stats] && |stats.blocks| == 1
    ensures |t.mailbox| == 1 && t.dropped == [] && t.maxClients == maxClients
  {
    hide Leads, WithClients, NodeRefs, NodeIps, Start;
    StartFields(maxClients, seeds);
    var s0, node, block := Start(maxClients, seeds), seeds[|seeds| - 1], GrpcBlock(1, "h");
    LastIsClient(seeds);
    RequestArrives(s0);
    var s1 := Requested(s0);
    var s2 := Pinged(s1, node.ref, block, 1);
    var ping := Ping(node.ref, block, 1);
    LeadsOn(s0, [Submit(REQUEST)], s1, ping, [Submit(REQUEST), ping]);
    stats := PingReport(NewClient(node.ref, node.ip), block, 1);
    assert s2.pending == [stats];
    t := Apply(s2, Report(0));
    events := [Submit(REQUEST), ping, Report(0)];
    LeadsOn(s0, [Submit(REQUEST), ping], s2, Report(0), events);
  }

  /** With a limit of zero or less the first request handled after a selection is lost. */
  lemma NoLimitLoses(maxClients: int, seeds: seq<Node>) returns (events: seq<Event>)
    requires maxClients <= 0 && seeds != []
    ensures IsRun(Start(maxClients, seeds), events) && NothingBreaks(events)
    ensures After(Start(maxClients, seeds), events).dropped != []
  {
    hide IsRun, After, Select, IsKeyOrder, IsIteration, Values, Refs, Start;
    var s0 := Start(maxClients, seeds);
    var before, s3, stats := OneReport(maxClients, seeds);
    var h := stats.blocks[0].hash;
    OneNode(stats, h);
    var optimize := Optimize([stats.ip], [h], []);
    var s4 := Optimized(s3, [stats.ip], [h]);
    LeadsOn(s0, before, s3, optimize, before + [optimize]);
    NoLimitNoActive(Values(map[stats.ip := stats], [stats.ip]), [h], maxClients);
    assert s4.balancer.routees == [] && |s4.mailbox| == 1;
    events := before + [optimize] + [Deliver(0)];
    LeadsOn(s0, before + [optimize], s4, Deliver(0), events);
  }

  lemma LastIsClient(nodes: seq<Node>)
    requires nodes != []
    ensures var node := nodes[|nodes| - 1];
            node.ref in WithClients(map[], nodes)
            && WithClients(map[], nodes)[node.ref] == NewRecord(node)
  {
  }

  /** A map with one node that reports one block has one iteration and one key order. */
  lemma OneNode(stats: GrpcStats, h: string)
    requires |stats.blocks| == 1 && stats.blocks[0].hash == h
    ensures IsIteration([stats.ip], map[stats.ip := stats])
    ensures IsKeyOrder([h], Values(map[stats.ip := stats], [stats.ip]))
  {
    var nodes := Values(map[stats.ip := stats], [stats.ip]);
    assert nodes == [stats] && nodes[..0] == [];
    assert AllHashes(nodes) == AllHashes([]) + BlockHashes(stats.blocks);
    assert BlockHashes(stats.blocks) == [h];
  }

  lemma NoLimitNoActive(nodes: seq<GrpcStats>, order: seq<string>, maxClients: int)
    requires order != [] && IsKeyOrder(order, nodes) && maxClients <= 0
    ensures Refs(Select(nodes, order, maxClients).active) == []
  {
    hide IsKeyOrder;
  }
}
