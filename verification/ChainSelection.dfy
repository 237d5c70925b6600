/** The pure pipeline inside optimizeNodes: find the most common block hash, keep the nodes that
    report it, sort them by response time, split at maxClients.  The iteration orders of the two
    hash maps are unspecified, so they are parameters. */
module ChainSelection {

  type ActorRef = nat

  datatype GrpcBlock = GrpcBlock(num: int, hash: string)

  datatype GrpcStats = GrpcStats(ref: ActorRef, ip: string, responseTime: int, blocks: seq<GrpcBlock>,
                                 requestHandled: int, requestErrors: int)

  // ---- counting hashes --------------------------------------------------------------

  function BlockHashes(blocks: seq<GrpcBlock>): (h: seq<string>)
    ensures |h| == |blocks|
  {
    seq(|blocks|, i requires 0 <= i < |blocks| => blocks[i].hash)
  }

  /** All reported hashes, with repetitions. */
  function AllHashes(nodes: seq<GrpcStats>): seq<string> {
    if nodes == [] then [] else AllHashes(nodes[..|nodes| - 1]) + BlockHashes(nodes[|nodes| - 1].blocks)
  }

  lemma {:induction false} AllHashesEmpty(nodes: seq<GrpcStats>)
    ensures AllHashes(nodes) == [] <==> forall s :: s in nodes ==> s.blocks == []
  {
    if nodes != [] {
      var init, last := nodes[..|nodes| - 1], nodes[|nodes| - 1];
      AllHashesEmpty(init);
      assert nodes == init + [last];
    }
  }

  /** groupBy followed by size. */
  function ChainCounts(nodes: seq<GrpcStats>): (counts: map<string, int>)
    ensures forall h :: h in counts <==> h in AllHashes(nodes)
    ensures forall h :: h in counts ==> counts[h] == multiset(AllHashes(nodes))[h]
  {
    var all := AllHashes(nodes);
    map h | h in all :: multiset(all)[h]
  }

  /** maxBy: the first key with the largest count. */
  function MaxBy(order: seq<string>, counts: map<string, int>): (h: string)
    requires order != [] && forall k :: k in order ==> k in counts
    ensures h in order && forall k :: k in order ==> counts[k] <= counts[h]
  {
    var last := order[|order| - 1];
    if |order| == 1 then last else
      var h := MaxBy(order[..|order| - 1], counts);
      assert order == order[..|order| - 1] + [last];
      if counts[last] > counts[h] then last else h
  }

  /** h is at place i, and no key before it counts as much. */
  ghost predicate IsFirstAt(i: int, h: string, order: seq<string>, counts: map<string, int>)
    requires forall k :: k in order ==> k in counts
  {
    0 <= i < |order| && order[i] == h && forall j :: 0 <= j < i ==> counts[order[j]] < counts[h]
  }

  lemma {:induction false} MaxByIsFirst(order: seq<string>, counts: map<string, int>) returns (i: int)
    requires order != [] && forall k :: k in order ==> k in counts
    ensures IsFirstAt(i, MaxBy(order, counts), order, counts)
  {
    if |order| == 1 {
      i := 0;
    } else {
      var init, last := order[..|order| - 1], order[|order| - 1];
      i := MaxByIsFirst(init, counts);
      if counts[last] > counts[MaxBy(init, counts)] {
        i := |init|;
      }
    }
  }

  /** The places at which a hash occurs: node and position in its list. */
  ghost function Places(nodes: seq<GrpcStats>, h: string): set<(nat, nat)> {
    set i: nat, k: nat | i < |nodes| && k < |nodes[i].blocks| && nodes[i].blocks[k].hash == h :: (i, k)
  }

  /** A hash is counted once for every place at which it occurs. */
  lemma {:induction false} CountsArePlaces(nodes: seq<GrpcStats>, h: string)
    ensures multiset(AllHashes(nodes))[h] == |Places(nodes, h)|
  {
    hide Places, PlacesIn;
    if nodes == [] {
      NowherePlaced(h);
    } else {
      var n := |nodes| - 1;
      CountsArePlaces(nodes[..n], h);
      HashPlaces(nodes[n].blocks, h, n);
      PlacesSplit(nodes, h);
    }
  }

  lemma NowherePlaced(h: string)
    ensures Places([], h) == {}
  {
  }

  ghost function PlacesIn(blocks: seq<GrpcBlock>, h: string, n: nat): set<(nat, nat)> {
    set k: nat | k < |blocks| && blocks[k].hash == h :: (n, k)
  }

  lemma PlacesSplit(nodes: seq<GrpcStats>, h: string)
    requires nodes != []
    ensures var n := |nodes| - 1;
            |Places(nodes, h)| == |Places(nodes[..n], h)| + |PlacesIn(nodes[n].blocks, h, n)|
  {
    var n := |nodes| - 1;
    assert Places(nodes, h) == Places(nodes[..n], h) + PlacesIn(nodes[n].blocks, h, n);
    assert Places(nodes[..n], h) !! PlacesIn(nodes[n].blocks, h, n);
  }

  lemma {:induction false} HashPlaces(blocks: seq<GrpcBlock>, h: string, n: nat)
    ensures multiset(BlockHashes(blocks))[h] == |PlacesIn(blocks, h, n)|
  {
    hide PlacesIn;
    if blocks == [] {
      NoPlaces(h, n);
    } else {
      var m := |blocks| - 1;
      HashPlaces(blocks[..m], h, n);
      LastPlace(blocks, h, n);
      assert BlockHashes(blocks) == BlockHashes(blocks[..m]) + [blocks[m].hash];
    }
  }

  lemma NoPlaces(h: string, n: nat)
    ensures PlacesIn([], h, n) == {}
  {
  }

  lemma LastPlace(blocks: seq<GrpcBlock>, h: string, n: nat)
    requires blocks != []
    ensures var m := |blocks| - 1;
            |PlacesIn(blocks, h, n)| == |PlacesIn(blocks[..m], h, n)| + if blocks[m].hash == h then 1 else 0
  {
    var m := |blocks| - 1;
    var init := PlacesIn(blocks[..m], h, n);
    assert PlacesIn(blocks, h, n) == init + if blocks[m].hash == h then {(n, m)} else {};
    assert (n, m) !in init;
  }

  // ---- keeping the nodes on the chain -----------------------------------------------

  predicate HoldsHash(node: GrpcStats, h: string) {
    exists b :: b in node.blocks && b.hash == h
  }

  function OnChain(nodes: seq<GrpcStats>, h: string): seq<GrpcStats> {
    if nodes == [] then [] else
      var rest := OnChain(nodes[..|nodes| - 1], h);
      if HoldsHash(nodes[|nodes| - 1], h) then rest + [nodes[|nodes| - 1]] else rest
  }

  lemma {:induction false} OnChainCounts(nodes: seq<GrpcStats>, h: string, s: GrpcStats)
    ensures multiset(OnChain(nodes, h))[s] == if HoldsHash(s, h) then multiset(nodes)[s] else 0
  {
    if nodes != [] {
      OnChainCounts(nodes[..|nodes| - 1], h, s);
      assert nodes == nodes[..|nodes| - 1] + [nodes[|nodes| - 1]];
    }
  }

  /** kept lists the nodes that hold h in their order; `at` are their places. */
  ghost predicate HoldersAt(at: seq<int>, kept: seq<GrpcStats>, nodes: seq<GrpcStats>, h: string) {
    && |at| == |kept|
    && (forall i, j :: 0 <= i < j < |at| ==> at[i] < at[j])
    && (forall i :: 0 <= i < |at| ==> 0 <= at[i] < |nodes| && kept[i] == nodes[at[i]] && HoldsHash(kept[i], h))
    && (forall p :: 0 <= p < |nodes| && HoldsHash(nodes[p], h) ==> p in at)
  }

  ghost predicate AreHolders(kept: seq<GrpcStats>, nodes: seq<GrpcStats>, h: string) {
    exists at :: HoldersAt(at, kept, nodes, h)
  }

  lemma {:induction false} OnChainAreHolders(nodes: seq<GrpcStats>, h: string)
    ensures AreHolders(OnChain(nodes, h), nodes, h)
  {
    hide AreHolders, HoldsHash;
    if nodes == [] {
      NoHolders(h);
    } else {
      var init, last := nodes[..|nodes| - 1], nodes[|nodes| - 1];
      OnChainAreHolders(init, h);
      OneMoreNode(OnChain(init, h), init, last, h);
      assert nodes == init + [last];
    }
  }

  lemma NoHolders(h: string)
    ensures AreHolders([], [], h)
  {
    assert HoldersAt([], [], [], h);
  }

  lemma OneMoreNode(kept: seq<GrpcStats>, init: seq<GrpcStats>, last: GrpcStats, h: string)
    requires AreHolders(kept, init, h)
    ensures AreHolders(if HoldsHash(last, h) then kept + [last] else kept, init + [last], h)
  {
    hide HoldsHash;
    var at :| HoldersAt(at, kept, init, h);
    if HoldsHash(last, h) {
      OneMoreHolder(at, kept, init, last, h);
    } else {
      assert HoldersAt(at, kept, init + [last], h);
    }
  }

  lemma OneMoreHolder(at: seq<int>, kept: seq<GrpcStats>, init: seq<GrpcStats>, last: GrpcStats, h: string)
    requires HoldersAt(at, kept, init, h) && HoldsHash(last, h)
    ensures HoldersAt(at + [|init|], kept + [last], init + [last], h)
  {
    hide HoldsHash;
    var more := at + [|init|];
    assert more[|at|] == |init|;
    forall p | 0 <= p < |init| && HoldsHash(init[p], h)
      ensures p in more
    {
      assert p in at;
    }
  }

  // ---- sortBy, a stable sort --------------------------------------------------------

  ghost predicate SortedByTime(nodes: seq<GrpcStats>) {
    forall i, j :: 0 <= i < j < |nodes| ==> nodes[i].responseTime <= nodes[j].responseTime
  }

  /** x goes behind every node that is not slower. */
  function InsertByTime(nodes: seq<GrpcStats>, x: GrpcStats): seq<GrpcStats> {
    if nodes == [] || nodes[|nodes| - 1].responseTime <= x.responseTime then nodes + [x] else
      InsertByTime(nodes[..|nodes| - 1], x) + [nodes[|nodes| - 1]]
  }

  function SortByTime(nodes: seq<GrpcStats>): seq<GrpcStats> {
    if nodes == [] then [] else InsertByTime(SortByTime(nodes[..|nodes| - 1]), nodes[|nodes| - 1])
  }

  lemma {:induction false} InsertAdds(nodes: seq<GrpcStats>, x: GrpcStats)
    ensures multiset(InsertByTime(nodes, x)) == multiset(nodes) + multiset{x}
    ensures |InsertByTime(nodes, x)| == |nodes| + 1
  {
    if nodes != [] && nodes[|nodes| - 1].responseTime > x.responseTime {
      InsertAdds(nodes[..|nodes| - 1], x);
      assert nodes == nodes[..|nodes| - 1] + [nodes[|nodes| - 1]];
    }
  }

  lemma {:induction false} InsertSorts(nodes: seq<GrpcStats>, x: GrpcStats)
    requires SortedByTime(nodes)
    ensures SortedByTime(InsertByTime(nodes, x))
    ensures forall i :: 0 <= i < |InsertByTime(nodes, x)| ==>
      InsertByTime(nodes, x)[i].responseTime <= x.responseTime || (nodes != [] && InsertByTime(nodes, x)[i].responseTime <= nodes[|nodes| - 1].responseTime)
  {
    if nodes != [] && nodes[|nodes| - 1].responseTime > x.responseTime {
      InsertSorts(nodes[..|nodes| - 1], x);
    }
  }

  lemma {:induction false} SortKeeps(nodes: seq<GrpcStats>)
    ensures multiset(SortByTime(nodes)) == multiset(nodes) && SortedByTime(SortByTime(nodes))
    ensures |SortByTime(nodes)| == |nodes|
  {
    hide SortedByTime, InsertByTime;
    if nodes == [] {
      NothingIsSorted();
    } else {
      var init, last := nodes[..|nodes| - 1], nodes[|nodes| - 1];
      SortKeeps(init);
      InsertAdds(SortByTime(init), last);
      InsertSorts(SortByTime(init), last);
      assert nodes == init + [last];
    }
  }

  lemma NothingIsSorted()
    ensures SortedByTime([])
  {
  }

  /** Nodes with equal response times keep their order. */
  function WithTime(nodes: seq<GrpcStats>, t: int): seq<GrpcStats> {
    if nodes == [] then [] else
      WithTime(nodes[..|nodes| - 1], t) + if nodes[|nodes| - 1].responseTime == t then [nodes[|nodes| - 1]] else []
  }

  lemma WithTimeSnoc(nodes: seq<GrpcStats>, x: GrpcStats, t: int)
    ensures WithTime(nodes + [x], t) == WithTime(nodes, t) + if x.responseTime == t then [x] else []
  {
    assert (nodes + [x])[..|nodes|] == nodes;
  }

  lemma {:induction false} InsertStable(nodes: seq<GrpcStats>, x: GrpcStats, t: int)
    ensures WithTime(InsertByTime(nodes, x), t) == WithTime(nodes, t) + if x.responseTime == t then [x] else []
  {
    hide WithTime;
    if nodes == [] || nodes[|nodes| - 1].responseTime <= x.responseTime {
      WithTimeSnoc(nodes, x, t);
    } else {
      var init, last := nodes[..|nodes| - 1], nodes[|nodes| - 1];
      InsertStable(init, x, t);
      WithTimeSnoc(InsertByTime(init, x), last, t);
      WithTimeSnoc(init, last, t);
      assert nodes == init + [last];
    }
  }

  lemma {:induction false} SortStable(nodes: seq<GrpcStats>, t: int)
    ensures WithTime(SortByTime(nodes), t) == WithTime(nodes, t)
  {
    if nodes != [] {
      var init := nodes[..|nodes| - 1];
      SortStable(init, t);
      InsertStable(SortByTime(init), nodes[|nodes| - 1], t);
    }
  }

  // ---- the pipeline -----------------------------------------------------------------

  function Clamp(n: int, size: nat): (k: nat)
    ensures k <= size
  {
    if n < 0 then 0 else if n > size then size else n
  }

  datatype Selection = Selection(hash: string, active: seq<GrpcStats>, backup: seq<GrpcStats>)

  /** `order` lists the keys of the counts in the order the hash map yields them. */
  ghost predicate IsKeyOrder(order: seq<string>, nodes: seq<GrpcStats>) {
    forall h :: h in order <==> h in AllHashes(nodes)
  }

  lemma OrderEmptyIff(order: seq<string>, nodes: seq<GrpcStats>)
    requires IsKeyOrder(order, nodes)
    ensures order == [] <==> AllHashes(nodes) == []
  {
    hide AllHashes;
    assert order != [] ==> order[0] in AllHashes(nodes);
    assert AllHashes(nodes) != [] ==> AllHashes(nodes)[0] in order;
  }

  lemma OrderIsCounted(order: seq<string>, nodes: seq<GrpcStats>)
    requires IsKeyOrder(order, nodes)
    ensures forall k :: k in order ==> k in ChainCounts(nodes)
  {
    hide AllHashes;
  }

  /** The selection; requires some reported block, without which maxBy throws. */
  function Select(nodes: seq<GrpcStats>, order: seq<string>, maxClients: int): Selection
    requires order != [] && IsKeyOrder(order, nodes)
  {
    var h := MaxBy(order, ChainCounts(nodes));
    var sorted := SortByTime(OnChain(nodes, h));
    var k := Clamp(maxClients, |sorted|);
    Selection(h, sorted[..k], sorted[k..])
  }

  /** The chosen hash has maximal multiplicity over all lists, and is the first such in the order of
      the counts; active followed by backup is a permutation, sorted by response time, of exactly
      the nodes that hold it, nodes of equal time staying in their order; the split is at
      maxClients, so no backup node is faster than an active one. */
  lemma SelectionIsRight(nodes: seq<GrpcStats>, order: seq<string>, maxClients: int)
    requires order != [] && IsKeyOrder(order, nodes)
    ensures var r := Select(nodes, order, maxClients);
            && IsFirstMostReported(r.hash, order, nodes)
            && SortedByTime(r.active + r.backup)
            && (forall s :: multiset(r.active + r.backup)[s] == if HoldsHash(s, r.hash) then multiset(nodes)[s] else 0)
            && |r.active| == (if maxClients < 0 then 0 else if maxClients > |r.active| + |r.backup| then |r.active| + |r.backup| else maxClients)
            && (exists kept :: AreHolders(kept, nodes, r.hash) && KeepsTies(r.active + r.backup, kept))
            && (forall a, b :: a in r.active && b in r.backup ==> a.responseTime <= b.responseTime)
  {
    hide HoldsHash, SortByTime, OnChain, AllHashes, MaxBy, KeepsTies, AreHolders, IsFirstMostReported;
    var r := Select(nodes, order, maxClients);
    var kept := OnChain(nodes, r.hash);
    SortKeeps(kept);
    assert r.active + r.backup == SortByTime(kept);
    forall s
      ensures multiset(r.active + r.backup)[s] == if HoldsHash(s, r.hash) then multiset(nodes)[s] else 0
    {
      OnChainCounts(nodes, r.hash, s);
    }
    MostCommon(nodes, order);
    OnChainAreHolders(nodes, r.hash);
    SortKeepsTies(kept);
    SplitSorted(SortByTime(kept), Clamp(maxClients, |kept|));
  }

  /** Nodes of equal response time come in the same order in both lists. */
  ghost predicate KeepsTies(a: seq<GrpcStats>, b: seq<GrpcStats>) {
    forall t :: WithTime(a, t) == WithTime(b, t)
  }

  lemma SortKeepsTies(nodes: seq<GrpcStats>)
    ensures KeepsTies(SortByTime(nodes), nodes)
  {
    hide SortByTime, WithTime;
    forall t
      ensures WithTime(SortByTime(nodes), t) == WithTime(nodes, t)
    {
      SortStable(nodes, t);
    }
  }

  /** h was reported, no hash more often, and none before it in the order as often. */
  ghost predicate IsFirstMostReported(h: string, order: seq<string>, nodes: seq<GrpcStats>) {
    && |Places(nodes, h)| > 0
    && (forall g :: |Places(nodes, g)| <= |Places(nodes, h)|)
    && (exists i :: 0 <= i < |order| && order[i] == h && forall j :: 0 <= j < i ==> |Places(nodes, order[j])| < |Places(nodes, h)|)
  }

  lemma MostCommon(nodes: seq<GrpcStats>, order: seq<string>)
    requires order != [] && IsKeyOrder(order, nodes)
    ensures IsFirstMostReported(MaxBy(order, ChainCounts(nodes)), order, nodes)
  {
    hide Places, AllHashes, MaxBy;
    var counts := ChainCounts(nodes);
    var h := MaxBy(order, counts);
    var i := MaxByIsFirst(order, counts);
    CountsArePlaces(nodes, h);
    forall g
      ensures |Places(nodes, g)| <= |Places(nodes, h)|
    {
      CountsArePlaces(nodes, g);
      assert g in AllHashes(nodes) ==> g in order;
    }
    forall j | 0 <= j < i
      ensures |Places(nodes, order[j])| < |Places(nodes, h)|
    {
      CountsArePlaces(nodes, order[j]);
      assert order[j] in order;
    }
  }

  lemma SplitSorted(nodes: seq<GrpcStats>, k: nat)
    requires SortedByTime(nodes) && k <= |nodes|
    ensures forall a, b :: a in nodes[..k] && b in nodes[k..] ==> a.responseTime <= b.responseTime
  {
  }

  /** A hash that was reported is held by some node, so the selection is never empty. */
  lemma {:induction false} ReportedHashHasNode(nodes: seq<GrpcStats>, h: string)
    requires h in AllHashes(nodes)
    ensures OnChain(nodes, h) != []
  {
    var init, last := nodes[..|nodes| - 1], nodes[|nodes| - 1];
    if h in BlockHashes(last.blocks) {
      var i :| 0 <= i < |last.blocks| && last.blocks[i].hash == h;
      assert last.blocks[i] in last.blocks;
    } else {
      ReportedHashHasNode(init, h);
    }
  }

  lemma SomeActive(nodes: seq<GrpcStats>, order: seq<string>, maxClients: int)
    requires order != [] && IsKeyOrder(order, nodes) && maxClients >= 1
    ensures Select(nodes, order, maxClients).active != []
  {
    var h := Select(nodes, order, maxClients).hash;
    ReportedHashHasNode(nodes, h);
    SortKeeps(OnChain(nodes, h));
  }
}
