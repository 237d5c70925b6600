/** The two actors: the balancer's message handlers and the client's ping window. */
module GrpcBalancer {
  import opened ChainSelection
  import opened RoundRobin

  // ---- the balancer's state as a value ----------------------------------------------

  datatype BalancerState = BalancerState(
    nodeStatuses: map<string, GrpcStats>,
    routees: seq<ActorRef>,
    next: nat,
    active: seq<GrpcStats>,
    backup: seq<GrpcStats>)

  datatype Target = NoRoutee | To(ref: ActorRef)

  function InitialState(seeds: seq<ActorRef>): BalancerState {
    BalancerState(map[], seeds, 0, [], [])
  }

  /** router.route: round robin over the routees; with none the message goes nowhere. */
  function Pick(b: BalancerState): Target {
    if b.routees == [] then NoRoutee else To(b.routees[b.next % |b.routees|])
  }

  function AfterRoute(b: BalancerState): BalancerState {
    if b.routees == [] then b else b.(next := b.next + 1)
  }

  /** A status report replaces the last one from the same ip. */
  function AfterStats(b: BalancerState, stats: GrpcStats): BalancerState {
    b.(nodeStatuses := b.nodeStatuses[stats.ip := stats])
  }

  /** The entries of a list that are not gone, in order. */
  function Keep(refs: seq<ActorRef>, gone: set<ActorRef>): seq<ActorRef> {
    if refs == [] then [] else
      Keep(refs[..|refs| - 1], gone) + if refs[|refs| - 1] in gone then [] else [refs[|refs| - 1]]
  }

  /** removeRoutee. */
  function AfterTerminated(b: BalancerState, ref: ActorRef): BalancerState {
    b.(routees := Keep(b.routees, {ref}))
  }

  /** `iteration` lists each key of the status map once, in the order the map yields them. */
  ghost predicate IsIteration(iteration: seq<string>, statuses: map<string, GrpcStats>) {
    && (forall k :: k in iteration <==> k in statuses)
    && (forall i, j :: 0 <= i < j < |iteration| ==> iteration[i] != iteration[j])
  }

  function Values(statuses: map<string, GrpcStats>, iteration: seq<string>): (v: seq<GrpcStats>)
    requires forall k :: k in iteration ==> k in statuses
    ensures |v| == |iteration| && forall i :: 0 <= i < |v| ==> v[i] == statuses[iteration[i]]
  {
    seq(|iteration|, i requires 0 <= i < |iteration| => statuses[iteration[i]])
  }

  function Refs(nodes: seq<GrpcStats>): (r: seq<ActorRef>)
    ensures |r| == |nodes| && forall i :: 0 <= i < |r| ==> r[i] == nodes[i].ref
  {
    seq(|nodes|, i requires 0 <= i < |nodes| => nodes[i].ref)
  }

  /** optimizeNodes when some block has been reported: new totals and a fresh router. */
  function AfterOptimize(b: BalancerState, iteration: seq<string>, order: seq<string>, maxClients: int): BalancerState
    requires forall k :: k in iteration ==> k in b.nodeStatuses
    requires order != [] && IsKeyOrder(order, Values(b.nodeStatuses, iteration))
  {
    var r := Select(Values(b.nodeStatuses, iteration), order, maxClients);
    b.(active := r.active, backup := r.backup, routees := Refs(r.active), next := 0)
  }

  // ---- the last report of each node -------------------------------------------------

  /** The status map after a history of reports. */
  function Latest(reports: seq<GrpcStats>): map<string, GrpcStats> {
    if reports == [] then map[] else
      Latest(reports[..|reports| - 1])[reports[|reports| - 1].ip := reports[|reports| - 1]]
  }

  /** r is the last report in the history from its ip. */
  ghost predicate IsLatest(r: GrpcStats, reports: seq<GrpcStats>) {
    exists i :: 0 <= i < |reports| && reports[i] == r && forall j :: i < j < |reports| ==> reports[j].ip != r.ip
  }

  /** One more report is the latest of its ip and leaves the latest of the others. */
  lemma IsLatestSnoc(r: GrpcStats, reports: seq<GrpcStats>, last: GrpcStats)
    ensures IsLatest(r, reports + [last]) <==> r == last || (r.ip != last.ip && IsLatest(r, reports))
  {
    var all := reports + [last];
    assert all[|reports|] == last;
    if IsLatest(r, all) && r != last {
      var i :| 0 <= i < |all| && all[i] == r && forall j :: i < j < |all| ==> all[j].ip != r.ip;
      assert reports[i] == r;
      assert forall j :: i < j < |reports| ==> reports[j] == all[j];
    }
    if r.ip != last.ip && IsLatest(r, reports) {
      var i :| 0 <= i < |reports| && reports[i] == r && forall j :: i < j < |reports| ==> reports[j].ip != r.ip;
      assert all[i] == r;
    }
  }

  /** The status map holds, under its own ip, exactly the last report of each ip. */
  lemma {:induction false} LatestExactly(reports: seq<GrpcStats>, r: GrpcStats)
    ensures r.ip in Latest(reports) && Latest(reports)[r.ip] == r <==> IsLatest(r, reports)
  {
    hide IsLatest;
    if reports == [] {
      NothingIsLatest(r);
    } else {
      var init, last := reports[..|reports| - 1], reports[|reports| - 1];
      LatestExactly(init, r);
      IsLatestSnoc(r, init, last);
      assert reports == init + [last];
    }
  }

  lemma NothingIsLatest(r: GrpcStats)
    ensures !IsLatest(r, [])
  {
  }

  lemma {:induction false} LatestUnderOwnIp(reports: seq<GrpcStats>)
    ensures forall ip :: ip in Latest(reports) ==> Latest(reports)[ip].ip == ip
  {
    if reports != [] {
      LatestUnderOwnIp(reports[..|reports| - 1]);
    }
  }

  // ---- removing routees -------------------------------------------------------------

  /** kept is refs without the entries in gone, in the same order; `at` are their places. */
  ghost predicate KeptAt(at: seq<int>, kept: seq<ActorRef>, refs: seq<ActorRef>, gone: set<ActorRef>) {
    && |at| == |kept|
    && (forall i, j :: 0 <= i < j < |at| ==> at[i] < at[j])
    && (forall i :: 0 <= i < |at| ==> 0 <= at[i] < |refs| && kept[i] == refs[at[i]] && kept[i] !in gone)
    && (forall p :: 0 <= p < |refs| && refs[p] !in gone ==> p in at)
  }

  ghost predicate IsWithout(kept: seq<ActorRef>, refs: seq<ActorRef>, gone: set<ActorRef>) {
    exists at :: KeptAt(at, kept, refs, gone)
  }

  /** What removal does to a list: it keeps the order and exactly the entries not gone. */
  lemma {:induction false} KeepIsWithout(refs: seq<ActorRef>, gone: set<ActorRef>)
    ensures IsWithout(Keep(refs, gone), refs, gone)
  {
    hide IsWithout;
    if refs == [] {
      NothingWithout(gone);
    } else {
      var init, last := refs[..|refs| - 1], refs[|refs| - 1];
      KeepIsWithout(init, gone);
      WithoutStep(Keep(init, gone), init, last, gone);
      assert refs == init + [last];
    }
  }

  lemma NothingWithout(gone: set<ActorRef>)
    ensures IsWithout([], [], gone)
  {
    assert KeptAt([], [], [], gone);
  }

  lemma WithoutStep(kept: seq<ActorRef>, init: seq<ActorRef>, last: ActorRef, gone: set<ActorRef>)
    requires IsWithout(kept, init, gone)
    ensures IsWithout(kept + if last in gone then [] else [last], init + [last], gone)
  {
    var at :| KeptAt(at, kept, init, gone);
    if last in gone {
      assert kept + [] == kept;
      assert KeptAt(at, kept, init + [last], gone);
    } else {
      KeepOneMore(at, kept, init, last, gone);
    }
  }

  lemma KeepOneMore(at: seq<int>, kept: seq<ActorRef>, init: seq<ActorRef>, last: ActorRef, gone: set<ActorRef>)
    requires KeptAt(at, kept, init, gone) && last !in gone
    ensures KeptAt(at + [|init|], kept + [last], init + [last], gone)
  {
    var more := at + [|init|];
    assert more[|at|] == |init|;
    forall p | 0 <= p < |init| && init[p] !in gone
      ensures p in more
    {
      assert p in at;
    }
  }

  lemma {:induction false} KeepMembers(refs: seq<ActorRef>, gone: set<ActorRef>)
    ensures forall x :: x in Keep(refs, gone) <==> x in refs && x !in gone
    ensures |Keep(refs, gone)| <= |refs|
  {
    if refs != [] {
      KeepMembers(refs[..|refs| - 1], gone);
      assert refs == refs[..|refs| - 1] + [refs[|refs| - 1]];
    }
  }

  lemma {:induction false} KeepAll(refs: seq<ActorRef>)
    ensures Keep(refs, {}) == refs
  {
    if refs != [] {
      KeepAll(refs[..|refs| - 1]);
      assert refs == refs[..|refs| - 1] + [refs[|refs| - 1]];
    }
  }

  lemma {:induction false} KeepTwice(refs: seq<ActorRef>, g: set<ActorRef>, h: set<ActorRef>)
    ensures Keep(Keep(refs, g), h) == Keep(refs, g + h)
  {
    if refs != [] {
      var init, last := refs[..|refs| - 1], refs[|refs| - 1];
      KeepTwice(init, g, h);
      if last in g {
        assert Keep(refs, g) == Keep(init, g);
      } else {
        assert Keep(refs, g)[..|Keep(refs, g)| - 1] == Keep(init, g);
      }
    }
  }

  // ---- what the state says about the past -------------------------------------------

  /** The reports handled, the routees of the current router as built (base), the clients
      reported stopped since (gone), the reports there were at the last optimisation, if any,
      and the slots used since the routees last changed. */
  datatype History = History(
    reports: seq<GrpcStats>,
    base: seq<ActorRef>,
    gone: set<ActorRef>,
    atOptimize: seq<GrpcStats>,
    optimized: bool,
    slots: seq<nat>)

  function NoHistory(seeds: seq<ActorRef>): History {
    History([], seeds, {}, [], false, [])
  }

  function RoutedHistory(b: BalancerState, h: History): History {
    if b.routees == [] then h else h.(slots := h.slots + [b.next % |b.routees|])
  }

  function ReportedHistory(h: History, stats: GrpcStats): History {
    h.(reports := h.reports + [stats])
  }

  function TerminatedHistory(h: History, ref: ActorRef): History {
    h.(gone := h.gone + {ref}, slots := [])
  }

  function OptimizedHistory(h: History, routees: seq<ActorRef>): History {
    h.(base := routees, gone := {}, atOptimize := h.reports, optimized := true, slots := [])
  }

  /** active and backup are what the selection yields, in some iteration order of the maps,
      from the last report of each node. */
  ghost predicate IsSelection(active: seq<GrpcStats>, backup: seq<GrpcStats>, reports: seq<GrpcStats>, maxClients: int) {
    exists iteration, order :: SelectedIn(iteration, order, active, backup, reports, maxClients)
  }

  ghost predicate SelectedIn(iteration: seq<string>, order: seq<string>,
                             active: seq<GrpcStats>, backup: seq<GrpcStats>, reports: seq<GrpcStats>, maxClients: int)
  {
    && IsIteration(iteration, Latest(reports))
    && order != [] && IsKeyOrder(order, Values(Latest(reports), iteration))
    && var r := Select(Values(Latest(reports), iteration), order, maxClients);
       active == r.active && backup == r.backup
  }

  /** The slots used since the routees last changed follow each other; a router starts with its
      first routee. */
  ghost predicate TakesTurns(b: BalancerState, h: History) {
    && |h.slots| <= b.next && (if b.routees == [] then h.slots == [] else InTurn(h.slots, b.next - |h.slots|, |b.routees|))
    && (h.gone == {} ==> b.next == |h.slots|)
  }

  /** The balancer's fields are what its past makes them. */
  ghost predicate Consistent(b: BalancerState, h: History, maxClients: int) {
    && b.nodeStatuses == Latest(h.reports)
    && b.routees == Keep(h.base, h.gone)
    && TakesTurns(b, h)
    && if h.optimized then
         h.atOptimize <= h.reports && h.base == Refs(b.active) && IsSelection(b.active, b.backup, h.atOptimize, maxClients)
       else
         b.active == [] && b.backup == []
  }

  lemma InitialConsistent(seeds: seq<ActorRef>, maxClients: int)
    ensures Consistent(InitialState(seeds), NoHistory(seeds), maxClients)
  {
    KeepAll(seeds);
  }

  lemma RouteConsistent(b: BalancerState, h: History, maxClients: int)
    requires Consistent(b, h, maxClients)
    ensures Consistent(AfterRoute(b), RoutedHistory(b, h), maxClients)
  {
    hide Latest, Keep, IsSelection, Refs;
  }

  lemma StatsConsistent(b: BalancerState, h: History, stats: GrpcStats, maxClients: int)
    requires Consistent(b, h, maxClients)
    ensures Consistent(AfterStats(b, stats), ReportedHistory(h, stats), maxClients)
  {
    hide Keep, IsSelection, Refs, InTurn;
    assert (h.reports + [stats])[..|h.reports|] == h.reports;
  }

  lemma TerminatedConsistent(b: BalancerState, h: History, ref: ActorRef, maxClients: int)
    requires Consistent(b, h, maxClients)
    ensures Consistent(AfterTerminated(b, ref), TerminatedHistory(h, ref), maxClients)
  {
    hide Latest, Keep, IsSelection, Refs;
    KeepTwice(h.base, h.gone, {ref});
  }

  lemma OptimizeConsistent(b: BalancerState, h: History, iteration: seq<string>, order: seq<string>, maxClients: int)
    requires Consistent(b, h, maxClients) && IsIteration(iteration, b.nodeStatuses)
    requires order != [] && IsKeyOrder(order, Values(b.nodeStatuses, iteration))
    ensures var t := AfterOptimize(b, iteration, order, maxClients);
            Consistent(t, OptimizedHistory(h, t.routees), maxClients)
  {
    hide Latest, Keep, Refs, IsKeyOrder, Select;
    var t := AfterOptimize(b, iteration, order, maxClients);
    KeepAll(t.routees);
    assert SelectedIn(iteration, order, t.active, t.backup, h.reports, maxClients);
  }

  /** What consistency tells about the routees. */
  lemma RouteesAreKnown(b: BalancerState, h: History, maxClients: int)
    requires Consistent(b, h, maxClients)
    ensures forall x :: x in b.routees <==> x in h.base && x !in h.gone
    ensures IsWithout(b.routees, h.base, h.gone) && |b.routees| <= |h.base|
    ensures b.routees != [] ==> IsFair(h.slots, |b.routees|)
    ensures h.gone == {} ==> b.routees == h.base && b.next == |h.slots|
    ensures !h.optimized ==> b.active == [] && b.backup == []
  {
    hide Latest, Keep, IsSelection, Refs, InTurn, IsFair, IsWithout;
    KeepMembers(h.base, h.gone);
    KeepIsWithout(h.base, h.gone);
    KeepAll(h.base);
    if b.routees != [] {
      TurnsAreFair(h.slots, b.next - |h.slots|, |b.routees|);
    }
  }

  // ---- the balancer actor -----------------------------------------------------------

  /** What the balancer is sent. */
  datatype Incoming =
    | RequestOrRetry
    | StatusReport(stats: GrpcStats)
    | ClientTerminated(ref: ActorRef)
    | OptimizeTick(iteration: seq<string>, order: seq<string>)
    | StatsQuery

  datatype Reaction = Forwarded(target: Target) | Noted | Failed | Answered(active: seq<GrpcStats>, backup: seq<GrpcStats>)

  class Balancer {
    const maxClients: int
    var nodeStatuses: map<string, GrpcStats>
    var routees: seq<ActorRef>
    var next: nat
    var activeNodes: seq<GrpcStats>
    var nodes: seq<GrpcStats>

    ghost var history: History

    function State(): BalancerState
      reads this
    {
      BalancerState(nodeStatuses, routees, next, activeNodes, nodes)
    }

    ghost predicate Valid()
      reads this
    {
      Consistent(State(), history, maxClients)
    }

    constructor (maxClients: int, seeds: seq<ActorRef>)
      ensures Valid() && this.maxClients == maxClients
      ensures State() == InitialState(seeds) && history == NoHistory(seeds)
    {
      this.maxClients := maxClients;
      nodeStatuses := map[];
      routees := seeds;
      next := 0;
      activeNodes := [];
      nodes := [];
      history := NoHistory(seeds);
      new;
      InitialConsistent(seeds, maxClients);
    }

    /** GrpcRequest and GrpcRetry: the message goes to a routee that is not known to have
        stopped, and over any stretch with the same routees each gets its share.  Until a client
        of the router stops, the k-th message goes to routee k modulo their number, counted from
        the router's creation; so the first one after an optimisation goes to the fastest node. */
    method Route() returns (target: Target)
      requires Valid()
      modifies this`next, this`history
      ensures Valid() && State() == AfterRoute(old(State())) && target == Pick(old(State()))
      ensures target.NoRoutee? <==> forall x :: x in history.base ==> x in history.gone
      ensures target.To? ==> target.ref in history.base && target.ref !in history.gone
      ensures target.To? ==>
        && IsFair(history.slots, |routees|)
        && exists slot: nat :: slot < |routees| && routees[slot] == target.ref
             && history == old(history).(slots := old(history.slots) + [slot])
      ensures target.NoRoutee? ==> history == old(history)
      ensures target.To? && history.gone == {} ==>
        history.base != [] && target.ref == history.base[|old(history.slots)| % |history.base|]
    {
      hide Consistent, IsFair, IsWithout;
      RouteConsistent(State(), history, maxClients);
      RouteesAreKnown(State(), history, maxClients);
      history := RoutedHistory(State(), history);
      if routees == [] {
        return NoRoutee;
      }
      assert routees[0] in routees;
      target := To(routees[next % |routees|]);
      next := next + 1;
      RouteesAreKnown(State(), history, maxClients);
    }

    /** A status report: the map then holds the last report of every ip, and nothing else. */
    method OnStats(stats: GrpcStats)
      requires Valid()
      modifies this`nodeStatuses, this`history
      ensures Valid() && history == old(history).(reports := old(history.reports) + [stats])
      ensures forall r: GrpcStats :: r.ip in nodeStatuses && nodeStatuses[r.ip] == r <==> IsLatest(r, history.reports)
      ensures forall ip :: ip in nodeStatuses ==> nodeStatuses[ip].ip == ip
      ensures State() == AfterStats(old(State()), stats)
    {
      hide IsLatest;
      StatsConsistent(State(), history, stats, maxClients);
      nodeStatuses := nodeStatuses + map[stats.ip := stats];
      history := ReportedHistory(history, stats);
      assert State() == AfterStats(old(State()), stats);
      forall r: GrpcStats
        ensures r.ip in nodeStatuses && nodeStatuses[r.ip] == r <==> IsLatest(r, history.reports)
      {
        LatestExactly(history.reports, r);
      }
      LatestUnderOwnIp(history.reports);
    }

    /** Terminated: the client leaves the routees, the others stay in their order. */
    method OnTerminated(ref: ActorRef)
      requires Valid()
      modifies this`routees, this`history
      ensures Valid() && history == TerminatedHistory(old(history), ref)
      ensures ref !in routees && IsWithout(routees, old(routees), {ref})
      ensures forall x :: x in routees <==> x in history.base && x !in history.gone
      ensures State() == AfterTerminated(old(State()), ref)
    {
      hide Consistent, Keep, IsWithout;
      TerminatedConsistent(State(), history, ref, maxClients);
      KeepIsWithout(routees, {ref});
      KeepMembers(routees, {ref});
      routees := Keep(routees, {ref});
      history := TerminatedHistory(history, ref);
      RouteesAreKnown(State(), history, maxClients);
    }

    /** OptimizeNodes; false is the exception maxBy throws on an empty list, before anything
        has been assigned. */
    method OptimizeNodes(iteration: seq<string>, order: seq<string>) returns (ok: bool)
      requires Valid() && IsIteration(iteration, nodeStatuses) && IsKeyOrder(order, Values(nodeStatuses, iteration))
      modifies this
      ensures Valid()
      ensures ok <==> AllHashes(old(Values(nodeStatuses, iteration))) != []
      ensures !ok ==> State() == old(State()) && history == old(history)
      ensures ok ==> order != [] && State() == AfterOptimize(old(State()), iteration, order, maxClients)
      ensures ok ==> history == OptimizedHistory(old(history), routees)
      ensures ok ==> next == 0 && nodeStatuses == old(nodeStatuses)
    {
      hide Consistent, AllHashes, ChainCounts, OnChain, SortByTime, MaxBy, IsKeyOrder;
      var values := Values(nodeStatuses, iteration);
      OrderEmptyIff(order, values);
      var chainCounts := ChainCounts(values);
      if order == [] {
        return false;
      }
      OptimizeConsistent(State(), history, iteration, order, maxClients);
      OrderIsCounted(order, values);
      var mostCommonBlockHash := MaxBy(order, chainCounts);
      var sortedNodes := SortByTime(OnChain(values, mostCommonBlockHash));
      var k := Clamp(maxClients, |sortedNodes|);
      activeNodes := sortedNodes[..k];
      nodes := sortedNodes[k..];
      routees := Refs(sortedNodes[..k]);
      next := 0;
      history := OptimizedHistory(history, routees);
      ok := true;
    }

    /** receive.  Whatever arrives, the object keeps its invariant; a request is forwarded to a
        routee of the current router not known to have stopped, and the totals answered are
        those of the last selection, empty before the first. */
    method Receive(message: Incoming) returns (reaction: Reaction)
      requires Valid()
      requires message.OptimizeTick? ==>
        IsIteration(message.iteration, nodeStatuses) && IsKeyOrder(message.order, Values(nodeStatuses, message.iteration))
      modifies this
      ensures Valid()
      ensures message.RequestOrRetry? <==> reaction.Forwarded?
      ensures reaction.Forwarded? && reaction.target.To? ==>
        reaction.target.ref in history.base && reaction.target.ref !in history.gone
      ensures message.StatsQuery? <==> reaction.Answered?
      ensures reaction.Answered? && history.optimized ==>
        IsSelection(reaction.active, reaction.backup, history.atOptimize, maxClients)
      ensures reaction.Answered? && !history.optimized ==> reaction.active == [] && reaction.backup == []
      ensures reaction.Failed? <==>
        message.OptimizeTick? && AllHashes(old(if message.OptimizeTick? then Values(nodeStatuses, message.iteration) else [])) == []
      ensures reaction.Failed? || reaction.Answered? ==> State() == old(State()) && history == old(history)
    {
      hide AllHashes, IsSelection, IsKeyOrder, IsIteration, Keep, Latest, TakesTurns, Refs, IsLatest, IsFair, IsWithout;
      match message
      case RequestOrRetry =>
        var target := Route();
        reaction := Forwarded(target);
      case StatusReport(stats) =>
        OnStats(stats);
        reaction := Noted;
      case ClientTerminated(ref) =>
        OnTerminated(ref);
        reaction := Noted;
      case OptimizeTick(iteration, order) =>
        var ok := OptimizeNodes(iteration, order);
        reaction := if ok then Noted else Failed;
      case StatsQuery =>
        reaction := Answered(activeNodes, nodes);
    }
  }

  // ---- the client's ping window -----------------------------------------------------

  const BLOCK_LIST_SIZE := 12

  /** The list after one more block: trimmed only once it exceeds the configured size. */
  function Slide(latest: seq<GrpcBlock>, block: GrpcBlock): seq<GrpcBlock> {
    (if |latest| > BLOCK_LIST_SIZE then latest[1..] else latest) + [block]
  }

  /** The last k elements. */
  function LastOf<T>(s: seq<T>, k: nat): seq<T> {
    if |s| <= k then s else s[|s| - k..]
  }

  /** The window holds the last 13 blocks, one more than the configured 12 (and not the 5 of
      the source comment). */
  lemma SlideKeepsLast13(blocks: seq<GrpcBlock>, block: GrpcBlock)
    ensures Slide(LastOf(blocks, 13), block) == LastOf(blocks + [block], 13)
  {
  }

  /** A client's fields as a value, and what a ping does to them and reports. */
  datatype ClientState = ClientState(self: ActorRef, ip: string, latestBlocks: seq<GrpcBlock>,
                                     requestsHandled: int, requestErrors: int)

  function NewClient(self: ActorRef, ip: string): ClientState {
    ClientState(self, ip, [], 0, 0)
  }

  function AfterPing(c: ClientState, block: GrpcBlock): ClientState {
    c.(latestBlocks := Slide(c.latestBlocks, block), requestsHandled := c.requestsHandled + 1)
  }

  function PingReport(c: ClientState, block: GrpcBlock, responseTime: int): GrpcStats {
    GrpcStats(c.self, c.ip, responseTime, Slide(c.latestBlocks, block), c.requestsHandled, c.requestErrors)
  }

  function AfterFailedPing(c: ClientState): ClientState {
    c.(requestErrors := c.requestErrors + 1)
  }

  function FailedPingReport(c: ClientState): GrpcStats {
    GrpcStats(c.self, c.ip, 9999, [], 0, 0)
  }

  class Client {
    const self: ActorRef
    const ip: string
    var latestBlocks: seq<GrpcBlock>
    var requestsHandled: int
    var requestErrors: int

    /** Every block a ping has returned. */
    ghost var seen: seq<GrpcBlock>

    function State(): ClientState
      reads this
    {
      ClientState(self, ip, latestBlocks, requestsHandled, requestErrors)
    }

    ghost predicate Valid()
      reads this
    {
      latestBlocks == LastOf(seen, 13)
    }

    constructor (self: ActorRef, ip: string)
      ensures Valid() && seen == [] && State() == NewClient(self, ip)
    {
      this.self := self;
      this.ip := ip;
      latestBlocks := [];
      requestsHandled := 0;
      requestErrors := 0;
      seen := [];
    }

    /** A ping that returned a block. */
    method PingSucceeds(block: GrpcBlock, responseTime: int) returns (report: GrpcStats)
      requires Valid()
      modifies this
      ensures Valid() && seen == old(seen) + [block]
      ensures State() == AfterPing(old(State()), block) && report == PingReport(old(State()), block, responseTime)
      ensures report == GrpcStats(self, ip, responseTime, LastOf(seen, 13), old(requestsHandled), old(requestErrors))
      ensures report.blocks != [] && report.blocks[|report.blocks| - 1] == block
      ensures requestsHandled == old(requestsHandled) + 1 && requestErrors == old(requestErrors)
    {
      SlideKeepsLast13(seen, block);
      latestBlocks := Slide(latestBlocks, block);
      seen := seen + [block];
      report := GrpcStats(self, ip, responseTime, latestBlocks, requestsHandled, requestErrors);
      requestsHandled := requestsHandled + 1;
    }

    /** A ping that failed: an empty block list is reported, the window itself is kept. */
    method PingFails() returns (report: GrpcStats)
      requires Valid()
      modifies this
      ensures Valid() && seen == old(seen)
      ensures State() == AfterFailedPing(old(State())) && report == FailedPingReport(old(State()))
      ensures report == GrpcStats(self, ip, 9999, [], 0, 0)
      ensures requestErrors == old(requestErrors) + 1 && requestsHandled == old(requestsHandled)
    {
      report := GrpcStats(self, ip, 9999, [], 0, 0);
      requestErrors := requestErrors + 1;
    }
  }
}
