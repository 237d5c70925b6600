/** What the balancer routes to in any reachable state: where its statuses come from, what the
    last selection chose, and when it restarts. */
module BalancerRoutees {
  import opened ChainSelection
  import opened GrpcBalancer
  import opened BalancerRuns

  // ---- the balancer's fields in a run -----------------------------------------------

  ghost predicate ConsistentSystem(s: System) {
    Consistent(s.balancer, s.history, s.maxClients)
  }

  lemma ApplyConsistent(s: System, e: Event)
    requires Enabled(s, e) && ConsistentSystem(s)
    ensures ConsistentSystem(Apply(s, e)) && Apply(s, e).maxClients == s.maxClients
  {
    hide Consistent, AfterRoute, AfterStats, AfterTerminated, AfterOptimize, Pick, Remove, IsKeyOrder, AfterPing, PingReport,
      WithClients, NodeRefs, NodeIps, Owned, Lives,
      RoutedHistory, ReportedHistory, TerminatedHistory, OptimizedHistory, InitialState, NoHistory;
    match e
    case Deliver(at) => RouteConsistent(s.balancer, s.history, s.maxClients);
    case Report(at) => StatsConsistent(s.balancer, s.history, s.pending[at], s.maxClients);
    case Optimize(iteration, order, restartWith) =>
      if order == [] {
        InitialConsistent(NodeRefs(restartWith), s.maxClients);
      } else {
        OptimizeConsistent(s.balancer, s.history, iteration, order, s.maxClients);
      }
    case NotifyStopped(ref) => TerminatedConsistent(s.balancer, s.history, ref, s.maxClients);
    case _ =>
  }

  lemma {:induction false} RunConsistent(s: System, events: seq<Event>)
    requires IsRun(s, events) && ConsistentSystem(s)
    ensures ConsistentSystem(After(s, events)) && After(s, events).maxClients == s.maxClients
  {
    hide ConsistentSystem, Apply, Enabled;
    if events != [] {
      var init := events[..|events| - 1];
      RunConsistent(s, init);
      ApplyConsistent(After(s, init), events[|events| - 1]);
    }
  }

  // ---- where reports come from ------------------------------------------------------

  /** blocks are the last 13 of the blocks fetched from lo up to hi. */
  ghost predicate IsWindow(blocks: seq<GrpcBlock>, fetched: seq<GrpcBlock>, lo: nat, hi: nat) {
    lo <= hi <= |fetched| && blocks == LastOf(fetched[lo..hi], 13)
  }

  /** The report was sent by a client: it carries that client's ip, and its blocks are the last 13
      that its pings had returned, at some moment hi, since the start lo of one of its instances;
      none for a failed ping. */
  ghost predicate IsBacked(r: GrpcStats, clients: map<ActorRef, ClientRecord>) {
    && r.ref in clients && r.ip == clients[r.ref].state.ip
    && exists lo: nat, hi: nat :: lo in clients[r.ref].starts && IsWindow(r.blocks, clients[r.ref].fetched, lo, hi)
  }

  /** The window a client keeps is the last 13 blocks since its present instance started. */
  ghost predicate IsGoodClient(ref: ActorRef, c: ClientRecord) {
    c.state.self == ref && c.before in c.starts && IsWindow(c.state.latestBlocks, c.fetched, c.before, |c.fetched|)
  }

  ghost predicate AreBacked(reports: seq<GrpcStats>, clients: map<ActorRef, ClientRecord>) {
    forall i :: 0 <= i < |reports| ==> IsBacked(reports[i], clients)
  }

  ghost predicate AllKnown(refs: seq<ActorRef>, clients: map<ActorRef, ClientRecord>) {
    forall x :: x in refs ==> x in clients
  }

  ghost predicate WorkIsKnown(working: seq<Work>, clients: map<ActorRef, ClientRecord>) {
    forall w :: w in working ==> w.client in clients
  }

  ghost predicate Traceable(s: System) {
    && (forall x :: x in s.clients ==> IsGoodClient(x, s.clients[x]))
    && AreBacked(s.pending, s.clients) && AreBacked(s.history.reports, s.clients)
    && AllKnown(s.history.base, s.clients) && WorkIsKnown(s.working, s.clients)
  }

  /** Clients are never forgotten, keep their ip, and only fetch more. */
  ghost predicate Grows(c: map<ActorRef, ClientRecord>, d: map<ActorRef, ClientRecord>) {
    forall x :: x in c ==>
      x in d && d[x].state.ip == c[x].state.ip && c[x].fetched <= d[x].fetched && c[x].starts <= d[x].starts
  }

  lemma BackedGrows(r: GrpcStats, c: map<ActorRef, ClientRecord>, d: map<ActorRef, ClientRecord>)
    requires IsBacked(r, c) && Grows(c, d)
    ensures IsBacked(r, d)
  {
    var lo: nat, hi: nat :| lo in c[r.ref].starts && IsWindow(r.blocks, c[r.ref].fetched, lo, hi);
    assert c[r.ref].fetched[lo..hi] == d[r.ref].fetched[lo..hi];
    assert IsWindow(r.blocks, d[r.ref].fetched, lo, hi);
  }

  lemma AllBackedGrow(reports: seq<GrpcStats>, c: map<ActorRef, ClientRecord>, d: map<ActorRef, ClientRecord>)
    requires AreBacked(reports, c) && Grows(c, d)
    ensures AreBacked(reports, d)
  {
    hide IsBacked, Grows;
    forall i | 0 <= i < |reports|
      ensures IsBacked(reports[i], d)
    {
      BackedGrows(reports[i], c, d);
    }
  }

  /** What growing clients keep. */
  lemma GrowingKeeps(s: System, d: map<ActorRef, ClientRecord>)
    requires Traceable(s) && Grows(s.clients, d)
    ensures AreBacked(s.pending, d) && AreBacked(s.history.reports, d)
    ensures AllKnown(s.history.base, d) && WorkIsKnown(s.working, d)
  {
    hide AreBacked;
    AllBackedGrow(s.pending, s.clients, d);
    AllBackedGrow(s.history.reports, s.clients, d);
  }

  lemma PingWindow(c: ClientRecord, block: GrpcBlock)
    requires IsWindow(c.state.latestBlocks, c.fetched, c.before, |c.fetched|)
    ensures IsWindow(Slide(c.state.latestBlocks, block), c.fetched + [block], c.before, |c.fetched| + 1)
  {
    SlideKeepsLast13(c.fetched[c.before..], block);
    assert c.fetched[c.before..|c.fetched|] == c.fetched[c.before..];
    assert (c.fetched + [block])[c.before..|c.fetched| + 1] == c.fetched[c.before..] + [block];
  }

  lemma PingTraceable(s: System, ref: ActorRef, block: GrpcBlock, responseTime: int)
    requires Traceable(s) && ref in s.clients
    ensures Traceable(Pinged(s, ref, block, responseTime))
  {
    hide IsWindow, AreBacked, AllKnown, WorkIsKnown, Slide, LastOf;
    var t := Pinged(s, ref, block, responseTime);
    PingWindow(s.clients[ref], block);
    assert Grows(s.clients, t.clients);
    GrowingKeeps(s, t.clients);
    AddBacked(s.pending, PingReport(s.clients[ref].state, block, responseTime), t.clients);
  }

  lemma PingFailureTraceable(s: System, ref: ActorRef)
    requires Traceable(s) && ref in s.clients
    ensures Traceable(PingFailed(s, ref))
  {
    hide IsWindow, AreBacked, AllKnown, WorkIsKnown;
    var t := PingFailed(s, ref);
    assert Grows(s.clients, t.clients);
    GrowingKeeps(s, t.clients);
    WindowStart(s.clients[ref].state.latestBlocks, s.clients[ref].fetched, s.clients[ref].before, |s.clients[ref].fetched|);
    EmptyWindow(s.clients[ref].fetched, s.clients[ref].before);
    AddBacked(s.pending, FailedPingReport(s.clients[ref].state), t.clients);
  }

  lemma EmptyWindow(fetched: seq<GrpcBlock>, at: nat)
    requires at <= |fetched|
    ensures IsWindow([], fetched, at, at)
  {
  }

  lemma WindowStart(blocks: seq<GrpcBlock>, fetched: seq<GrpcBlock>, lo: nat, hi: nat)
    requires IsWindow(blocks, fetched, lo, hi)
    ensures lo <= |fetched|
  {
  }

  lemma AddBacked(reports: seq<GrpcStats>, r: GrpcStats, clients: map<ActorRef, ClientRecord>)
    requires AreBacked(reports, clients) && IsBacked(r, clients)
    ensures AreBacked(reports + [r], clients)
  {
    hide IsBacked;
  }

  lemma ClientRestartTraceable(s: System, ref: ActorRef)
    requires Traceable(s) && ref in s.clients
    ensures Traceable(ClientRestarted(s, ref))
  {
    hide IsWindow, AreBacked, AllKnown, WorkIsKnown;
    var t := ClientRestarted(s, ref);
    assert Grows(s.clients, t.clients);
    GrowingKeeps(s, t.clients);
    EmptyWindow(s.clients[ref].fetched, |s.clients[ref].fetched|);
  }

  /** New clients are good ones, and the others stay as they are. */
  lemma {:induction false} NewClients(clients: map<ActorRef, ClientRecord>, nodes: seq<Node>)
    requires forall x :: x in NodeRefs(nodes) ==> x !in clients
    requires forall x :: x in clients ==> IsGoodClient(x, clients[x])
    ensures var d := WithClients(clients, nodes);
            && (forall x :: x in d ==> IsGoodClient(x, d[x]))
            && (forall x :: x in clients ==> x in d && d[x] == clients[x]) && AllKnown(NodeRefs(nodes), d)
  {
    hide IsWindow;
    if nodes != [] {
      var init, node := nodes[..|nodes| - 1], nodes[|nodes| - 1];
      assert NodeRefs(nodes) == NodeRefs(init) + [node.ref];
      NewClients(clients, init);
      EmptyWindow([], 0);
      assert node.ref in NodeRefs(nodes);
    }
  }

  lemma RestartTraceable(s: System, seeds: seq<Node>)
    requires Traceable(s) && forall x :: x in NodeRefs(seeds) ==> x !in s.clients
    ensures Traceable(Restarted(s, seeds))
  {
    hide IsGoodClient, IsBacked, WithClients, NodeRefs;
    NewClients(s.clients, seeds);
    GrowingKeeps(s, WithClients(s.clients, seeds));
  }

  lemma RemoveBacked(reports: seq<GrpcStats>, at: nat, clients: map<ActorRef, ClientRecord>)
    requires at < |reports| && AreBacked(reports, clients)
    ensures AreBacked(Remove(reports, at), clients)
  {
    hide IsBacked;
  }

  /** The routees a selection yields are clients: they sent the reports selected. */
  lemma OptimizeTraceable(s: System, iteration: seq<string>, order: seq<string>)
    requires Traceable(s) && ConsistentSystem(s) && Enabled(s, Optimize(iteration, order, [])) && order != []
    ensures Traceable(Optimized(s, iteration, order))
  {
    hide IsGoodClient, IsBacked, AfterOptimize, IsKeyOrder, Latest, Keep, WorkIsKnown, IsLatest, Select;
    OptimizeConsistent(s.balancer, s.history, iteration, order, s.maxClients);
    var t := Optimized(s, iteration, order);
    ActiveAreBacked(t.balancer, t.history, s.maxClients, s.clients);
  }

  lemma ActiveAreBacked(b: BalancerState, h: History, maxClients: int, clients: map<ActorRef, ClientRecord>)
    requires Consistent(b, h, maxClients) && h.optimized && AreBacked(h.reports, clients)
    ensures forall a :: a in b.active ==> IsBacked(a, clients)
    ensures AllKnown(Refs(b.active), clients)
  {
    hide Latest, Keep, Select, IsKeyOrder, IsWindow, TakesTurns, HoldsHash;
    var iteration, order :| SelectedIn(iteration, order, b.active, b.backup, h.atOptimize, maxClients);
    SelectedFacts(iteration, order, b.active, b.backup, h.atOptimize, maxClients);
    forall a | a in b.active
      ensures IsBacked(a, clients)
    {
      var i :| 0 <= i < |h.atOptimize| && h.atOptimize[i] == a && forall j :: i < j < |h.atOptimize| ==> h.atOptimize[j].ip != a.ip;
      assert h.reports[i] == a;
    }
    RefsMembers(b.active);
  }

  lemma MovesTraceable(s: System, e: Event)
    requires Enabled(s, e) && Traceable(s)
    requires e.Submit? || e.Handle? || e.Throw? || e.Respond? || e.Fail? || e.Vanish? || e.Stop? || e.NotifyStopped?
    ensures Traceable(Apply(s, e))
  {
    hide IsGoodClient, AreBacked, AllKnown, AfterTerminated, Remove;
    match e
    case Throw(at) =>
      RemoveMembers(s.working, at);
      assert s.working[at] in s.working;
      ClientRestartTraceable(Lost(s, at), s.working[at].client);
    case Respond(at) => RemoveMembers(s.working, at);
    case Fail(at) => RemoveMembers(s.working, at);
    case Vanish(at) => RemoveMembers(s.working, at);
    case _ =>
  }

  lemma DeliverTraceable(s: System, at: nat)
    requires at < |s.mailbox| && Traceable(s) && ConsistentSystem(s)
    ensures Traceable(DeliverTo(s, at))
  {
    hide IsGoodClient, AreBacked, Remove, AfterRoute, Latest, Keep, TakesTurns, IsSelection, Refs;
    KeepMembers(s.history.base, s.history.gone);
    if s.balancer.routees != [] {
      assert Pick(s.balancer).ref in s.balancer.routees;
    }
  }

  lemma ApplyTraceable(s: System, e: Event)
    requires Enabled(s, e) && Traceable(s) && ConsistentSystem(s)
    ensures Traceable(Apply(s, e))
  {
    hide IsGoodClient, AreBacked, AllKnown, WorkIsKnown, ConsistentSystem, AfterStats, DeliverTo, Restarted, Optimized,
      ClientRestarted, Pinged, PingFailed, IsKeyOrder, IsIteration, NodeRefs, NodeIps, Remove;
    match e
    case Deliver(at) => DeliverTraceable(s, at);
    case Ping(ref, block, responseTime) => PingTraceable(s, ref, block, responseTime);
    case PingFailure(ref) => PingFailureTraceable(s, ref);
    case PingThrow(ref) => ClientRestartTraceable(s, ref);
    case Report(at) =>
      RemoveBacked(s.pending, at, s.clients);
      ReportIsBacked(s, at);
    case Optimize(iteration, order, restartWith) =>
      if order == [] {
        RestartTraceable(s, restartWith);
      } else {
        OptimizeTraceable(s, iteration, order);
      }
    case _ => MovesTraceable(s, e);
  }

  lemma ReportIsBacked(s: System, at: nat)
    requires at < |s.pending| && Traceable(s)
    ensures AreBacked(s.history.reports + [s.pending[at]], s.clients)
  {
    hide IsGoodClient, IsBacked;
    AddBacked(s.history.reports, s.pending[at], s.clients);
  }

  lemma {:induction false} RunTraceable(s: System, events: seq<Event>)
    requires IsRun(s, events) && Traceable(s) && ConsistentSystem(s)
    ensures Traceable(After(s, events)) && ConsistentSystem(After(s, events)) && After(s, events).maxClients == s.maxClients
  {
    hide ConsistentSystem, Traceable, Apply, Enabled;
    if events != [] {
      var init := events[..|events| - 1];
      RunTraceable(s, init);
      ApplyTraceable(After(s, init), events[|events| - 1]);
      ApplyConsistent(After(s, init), events[|events| - 1]);
    }
  }

  lemma StartIsTraceable(maxClients: int, seeds: seq<Node>)
    ensures Traceable(Start(maxClients, seeds)) && ConsistentSystem(Start(maxClients, seeds))
    ensures Start(maxClients, seeds).maxClients == maxClients
  {
    hide IsGoodClient, Consistent;
    NewClients(map[], seeds);
    InitialConsistent(NodeRefs(seeds), maxClients);
  }

  // ---- the theorems -----------------------------------------------------------------

  /** In every reachable state each status was sent by a client under its ip and lists the last 13
      blocks of a stretch of that client's pings, or none; and the balancer routes to, and
      requests are at, nobody but clients it has started. */
  lemma StatusesAreWindows(maxClients: int, seeds: seq<Node>, events: seq<Event>)
    requires IsRun(Start(maxClients, seeds), events)
    ensures var s := After(Start(maxClients, seeds), events);
            && (forall ip :: ip in s.balancer.nodeStatuses ==>
                  s.balancer.nodeStatuses[ip].ip == ip && IsBacked(s.balancer.nodeStatuses[ip], s.clients))
            && (forall x :: x in s.balancer.routees ==> x in s.clients)
            && (forall w :: w in s.working ==> w.client in s.clients)
  {
    hide IsRun, After, Start, IsBacked, Latest, Keep, IsLatest, TakesTurns, IsSelection, Refs, IsGoodClient;
    var s0 := Start(maxClients, seeds);
    StartIsTraceable(maxClients, seeds);
    RunTraceable(s0, events);
    var s := After(s0, events);
    KeepMembers(s.history.base, s.history.gone);
    LatestUnderOwnIp(s.history.reports);
    forall ip | ip in s.balancer.nodeStatuses
      ensures IsBacked(s.balancer.nodeStatuses[ip], s.clients)
    {
      LatestExactly(s.history.reports, s.balancer.nodeStatuses[ip]);
      LatestIsReported(s.balancer.nodeStatuses[ip], s.history.reports);
    }
  }

  /** No request is stuck: one at the balancer can be delivered, one at a client can be taken,
      answered or given up. */
  lemma RequestsCanMove(maxClients: int, seeds: seq<Node>, events: seq<Event>, i: nat)
    requires IsRun(Start(maxClients, seeds), events)
    ensures var s := After(Start(maxClients, seeds), events);
            && (i < |s.mailbox| ==> Enabled(s, Deliver(i)))
            && (i < |s.working| ==> Enabled(s, Handle(i)) || Enabled(s, Respond(i)) || Enabled(s, Vanish(i)))
  {
    hide IsRun, After, Start, IsBacked, Lives, Owned;
    StatusesAreWindows(maxClients, seeds, events);
    var s := After(Start(maxClients, seeds), events);
    if i < |s.working| {
      assert s.working[i] in s.working;
      if s.working[i].call.Queued? {
        QueuedCanMove(s, i);
      }
    }
  }

  lemma QueuedCanMove(s: System, i: nat)
    requires i < |s.working| && s.working[i].client in s.clients && s.working[i].call.Queued?
    ensures Enabled(s, Handle(i)) || Enabled(s, Vanish(i))
  {
  }

  lemma LatestIsReported(r: GrpcStats, reports: seq<GrpcStats>)
    requires IsLatest(r, reports)
    ensures exists i :: 0 <= i < |reports| && reports[i] == r
  {
  }

  /** The balancer restarts exactly when, at an optimisation, the last report of every node is
      an empty list: no ping has succeeded since the start, or each last ping failed. */
  lemma RestartsIff(maxClients: int, seeds: seq<Node>, events: seq<Event>,
                    iteration: seq<string>, order: seq<string>, restartWith: seq<Node>)
    requires IsRun(Start(maxClients, seeds), events)
    requires Enabled(After(Start(maxClients, seeds), events), Optimize(iteration, order, restartWith))
    ensures var s := After(Start(maxClients, seeds), events);
            var t := Apply(s, Optimize(iteration, order, restartWith));
            if forall r :: IsLatest(r, s.history.reports) ==> r.blocks == []
            then
              && t.stopped == s.stopped + s.clients.Keys && t.balancer == BalancerState(map[], NodeRefs(restartWith), 0, [], [])
              && t.mailbox == s.mailbox && t.pending == s.pending && t.working == s.working
              && t.answers == s.answers && t.dropped == s.dropped
            else t.history.optimized && t.stopped == s.stopped
  {
    hide IsRun, After, IsKeyOrder, IsLatest, Latest, AllHashes, AfterOptimize, Keep;
    var s0 := Start(maxClients, seeds);
    hide Start;
    StartIsTraceable(maxClients, seeds);
    RunConsistent(s0, events);
    var s := After(s0, events);
    var values := Values(s.balancer.nodeStatuses, iteration);
    OrderEmptyIff(order, values);
    AllHashesEmpty(values);
    LatestUnderOwnIp(s.history.reports);
    forall r
      ensures IsLatest(r, s.history.reports) <==> r in values
    {
      LatestExactly(s.history.reports, r);
      InValues(s.balancer.nodeStatuses, iteration, r);
    }
  }

  lemma InValues(statuses: map<string, GrpcStats>, iteration: seq<string>, r: GrpcStats)
    requires IsIteration(iteration, statuses) && forall ip :: ip in statuses ==> statuses[ip].ip == ip
    ensures r in Values(statuses, iteration) <==> r.ip in statuses && statuses[r.ip] == r
  {
    if r in Values(statuses, iteration) {
      var i :| 0 <= i < |iteration| && Values(statuses, iteration)[i] == r;
      assert iteration[i] in statuses;
    }
  }

  /** The facts about a selection a reader of the routees wants: the limit, the order, and that
      every node chosen had, as its latest report, one that lists the chosen hash. */
  lemma SelectedFacts(iteration: seq<string>, order: seq<string>,
                      active: seq<GrpcStats>, backup: seq<GrpcStats>, reports: seq<GrpcStats>, maxClients: int)
    requires SelectedIn(iteration, order, active, backup, reports, maxClients)
    ensures |active| <= (if maxClients < 0 then 0 else maxClients) && SortedByTime(active)
    ensures forall a :: a in active ==>
      IsLatest(a, reports) && HoldsHash(a, Select(Values(Latest(reports), iteration), order, maxClients).hash)
  {
    hide IsKeyOrder, IsLatest, Latest, Select, AllHashes, HoldsHash;
    var values := Values(Latest(reports), iteration);
    var r := Select(values, order, maxClients);
    SelectionIsRight(values, order, maxClients);
    SortedPrefix(active, backup);
    LatestUnderOwnIp(reports);
    forall a | a in active
      ensures IsLatest(a, reports) && HoldsHash(a, r.hash)
    {
      assert a in multiset(active + backup);
      assert a in multiset(values);
      var i :| 0 <= i < |values| && values[i] == a;
      assert iteration[i] in Latest(reports);
      LatestExactly(reports, a);
    }
  }

  lemma SortedPrefix(a: seq<GrpcStats>, b: seq<GrpcStats>)
    requires SortedByTime(a + b)
    ensures SortedByTime(a)
  {
    assert (a + b)[..|a|] == a;
  }

  /** The report is the last one of its client. */
  ghost predicate IsLatestOfClient(a: GrpcStats, reports: seq<GrpcStats>) {
    exists i :: 0 <= i < |reports| && reports[i] == a && forall j :: i < j < |reports| ==> reports[j].ref != a.ref
  }

  /** In every reachable state after an optimisation: that optimisation chose active and backup
      by the selection from the latest reports of that moment.  The routees are the refs of
      active in its order, so fastest first, less those reported stopped since; there are at
      most maxClients of them.  Each one's latest report at that moment listed the chosen hash,
      so was no failed ping: the hash was among the last 13 blocks of a stretch of its pings. */
  lemma RouteesComeFromLastSelection(maxClients: int, seeds: seq<Node>, events: seq<Event>)
    requires IsRun(Start(maxClients, seeds), events)
    ensures var s := After(Start(maxClients, seeds), events);
            var b, h := s.balancer, s.history;
            h.optimized ==>
              && h.atOptimize <= h.reports
              && (exists iteration, order ::
                    && SelectedIn(iteration, order, b.active, b.backup, h.atOptimize, maxClients)
                    && var hash := Select(Values(Latest(h.atOptimize), iteration), order, maxClients).hash;
                       forall a :: a in b.active ==>
                         IsLatestOfClient(a, h.atOptimize) && HoldsHash(a, hash) && IsBacked(a, s.clients))
              && |b.routees| <= (if maxClients < 0 then 0 else maxClients)
              && SortedByTime(b.active) && IsWithout(b.routees, Refs(b.active), h.gone)
              && (forall x :: x in b.routees <==> x !in h.gone && exists a :: a in b.active && a.ref == x)
  {
    hide IsRun, After, Start, Latest, SortedByTime, IsWithout, Refs, HoldsHash, IsLatest, Select, Keep, IsKeyOrder, IsBacked,
      IsGoodClient, IsLatestOfClient;
    var s0 := Start(maxClients, seeds);
    StartIsTraceable(maxClients, seeds);
    RunTraceable(s0, events);
    var s := After(s0, events);
    var b, h := s.balancer, s.history;
    if h.optimized {
      var iteration, order :| SelectedIn(iteration, order, b.active, b.backup, h.atOptimize, maxClients);
      SelectedFacts(iteration, order, b.active, b.backup, h.atOptimize, maxClients);
      ActiveAreBacked(b, h, maxClients, s.clients);
      RouteesAreKnown(b, h, maxClients);
      RefsMembers(b.active);
      forall a | a in b.active
        ensures IsLatestOfClient(a, h.atOptimize)
      {
        LatestByClient(a, h.atOptimize, h.reports, s.clients);
      }
    }
  }

  lemma RefsMembers(nodes: seq<GrpcStats>)
    ensures forall x :: x in Refs(nodes) <==> exists a :: a in nodes && a.ref == x
  {
    forall a | a in nodes
      ensures a.ref in Refs(nodes)
    {
      var i :| 0 <= i < |nodes| && nodes[i] == a;
      assert Refs(nodes)[i] == a.ref;
    }
  }

  /** A client reports under one ip, so the last report of its ip is its last one. */
  lemma LatestByClient(a: GrpcStats, seen: seq<GrpcStats>, reports: seq<GrpcStats>, clients: map<ActorRef, ClientRecord>)
    requires seen <= reports && AreBacked(reports, clients) && IsLatest(a, seen)
    ensures IsLatestOfClient(a, seen)
  {
    hide IsWindow;
    var i :| 0 <= i < |seen| && seen[i] == a && forall j :: i < j < |seen| ==> seen[j].ip != a.ip;
    forall j | i < j < |seen|
      ensures seen[j].ref != a.ref
    {
      assert IsBacked(reports[i], clients) && IsBacked(reports[j], clients);
    }
  }
}
