/** Ranking the cluster by stake and picking the nodes to retransmit to, as every node does for itself. */
module ClusterPeers {
  import opened Common
  import opened DataPlane

  /** A node; `tvu` stands for the addresses it can be reached at. */
  datatype ContactInfo = ContactInfo(id: Pubkey, tvu: nat)

  type Stakes = Option<map<Pubkey, nat>>

  function StakeOf(stakes: Stakes, id: Pubkey): nat {
    if stakes.Some? && id in stakes.value then stakes.value[id] else 0
  }

  /** Higher stakes come first, and among equal stakes higher ids. */
  predicate Before(stakes: Stakes, a: ContactInfo, b: ContactInfo) {
    var x, y := StakeOf(stakes, a.id), StakeOf(stakes, b.id);
    x > y || (x == y && a.id > b.id)
  }

  ghost predicate UniqueIds(nodes: seq<ContactInfo>) {
    forall a, b :: a in nodes && b in nodes && a.id == b.id ==> a == b
  }

  ghost predicate Ranked(stakes: Stakes, ranking: seq<ContactInfo>) {
    forall i, j :: 0 <= i < j < |ranking| ==> Before(stakes, ranking[i], ranking[j])
  }

  /** The ranking of the nodes: each of them once, in order. */
  ghost predicate IsRanking(stakes: Stakes, ranking: seq<ContactInfo>, nodes: set<ContactInfo>) {
    Ranked(stakes, ranking) && forall c :: c in ranking <==> c in nodes
  }

  /** All nodes that know the same cluster and stakes rank it alike. */
  lemma {:induction false} RankingIsUnique(
    stakes: Stakes, a: seq<ContactInfo>, b: seq<ContactInfo>, nodes: set<ContactInfo>)
    requires IsRanking(stakes, a, nodes) && IsRanking(stakes, b, nodes)
    ensures a == b
    decreases |a|
  {
    if a == [] {
      NoneRanked(stakes, a, b, nodes);
    } else {
      var last := a[|a| - 1];
      assert last in a && last in b;
      assert b[|b| - 1] in b && b[|b| - 1] in a;
      assert b[|b| - 1] == last;
      WithoutLast(stakes, a, nodes);
      WithoutLast(stakes, b, nodes);
      RankingIsUnique(stakes, a[..|a| - 1], b[..|b| - 1], nodes - {last});
      Snoc(a);
      Snoc(b);
    }
  }

  lemma FirstIsMember<T>(s: seq<T>)
    requires s != []
    ensures s[0] in s
  {
  }

  lemma NoneRanked(stakes: Stakes, a: seq<ContactInfo>, b: seq<ContactInfo>, nodes: set<ContactInfo>)
    requires a == [] && IsRanking(stakes, a, nodes) && IsRanking(stakes, b, nodes)
    ensures b == []
  {
    if b != [] {
      FirstIsMember(b);
    }
  }

  lemma WithoutLast(stakes: Stakes, a: seq<ContactInfo>, nodes: set<ContactInfo>)
    requires IsRanking(stakes, a, nodes) && a != []
    ensures IsRanking(stakes, a[..|a| - 1], nodes - {a[|a| - 1]})
  {
    var front, last := a[..|a| - 1], a[|a| - 1];
    Snoc(a);
    forall c ensures c in front <==> c in nodes - {last} {
      if c in front {
        var i :| 0 <= i < |front| && front[i] == c;
        assert Before(stakes, a[i], a[|a| - 1]);
      }
    }
  }

  /** Ranks the nodes; a node that is listed twice counts once. */
  method SortByStake(peers: seq<ContactInfo>, stakes: Stakes) returns (ranking: seq<ContactInfo>)
    requires UniqueIds(peers)
    ensures IsRanking(stakes, ranking, set c | c in peers)
    ensures forall i, j :: 0 <= i < j < |ranking| ==>
              var a, b := ranking[i].id, ranking[j].id;
              var x := if stakes.Some? && a in stakes.value then stakes.value[a] else 0;
              var y := if stakes.Some? && b in stakes.value then stakes.value[b] else 0;
              x > y || (x == y && a > b)
  {
    ranking := [];
    for n := 0 to |peers|
      invariant Ranked(stakes, ranking)
      invariant forall c :: c in ranking <==> c in peers[..n]
    {
      ranking := Insert(ranking, peers[n], stakes);
    }
    assert peers[..|peers|] == peers;
  }

  method Insert(ranking: seq<ContactInfo>, c: ContactInfo, stakes: Stakes) returns (r: seq<ContactInfo>)
    requires Ranked(stakes, ranking) && forall a :: a in ranking && a.id == c.id ==> a == c
    ensures Ranked(stakes, r) && forall a :: a in r <==> a in ranking || a == c
  {
    var i := 0;
    while i < |ranking| && Before(stakes, ranking[i], c)
      invariant i <= |ranking| && forall j :: 0 <= j < i ==> Before(stakes, ranking[j], c)
    {
      i := i + 1;
    }
    if i < |ranking| && ranking[i] == c {
      r := ranking;
    } else {
      if i < |ranking| {
        assert ranking[i] in ranking;
        assert Before(stakes, c, ranking[i]);
      }
      r := ranking[..i] + [c] + ranking[i..];
      InsertedInOrder(stakes, ranking, c, i, r);
    }
  }

  lemma InsertedMembers(ranking: seq<ContactInfo>, c: ContactInfo, i: nat, r: seq<ContactInfo>)
    requires i <= |ranking| && r == ranking[..i] + [c] + ranking[i..]
    ensures forall a :: a in r <==> a in ranking || a == c
  {
    forall a | a in ranking || a == c ensures a in r {
      if a in ranking {
        var j :| 0 <= j < |ranking| && ranking[j] == a;
        assert r[if j < i then j else j + 1] == a;
      } else {
        assert r[i] == a;
      }
    }
  }

  lemma InsertedInOrder(stakes: Stakes, ranking: seq<ContactInfo>, c: ContactInfo, i: nat, r: seq<ContactInfo>)
    requires Ranked(stakes, ranking) && i <= |ranking| && r == ranking[..i] + [c] + ranking[i..]
    requires forall j :: 0 <= j < i ==> Before(stakes, ranking[j], c)
    requires i < |ranking| ==> Before(stakes, c, ranking[i])
    ensures Ranked(stakes, r) && forall a :: a in r <==> a in ranking || a == c
  {
    InsertedMembers(ranking, c, i, r);
    forall j, k | 0 <= j < k < |r| ensures Before(stakes, r[j], r[k]) {
      assert j != i ==> r[j] == ranking[if j < i then j else j - 1];
      assert k != i ==> r[k] == ranking[if k < i then k else k - 1];
      if j == i && k > i + 1 {
        assert Before(stakes, ranking[i], ranking[k - 1]);
      }
    }
  }

  // ---- Positions in the ranking, counted ----

  /** The nodes that have more stake than `c`, or as much and a greater id. */
  ghost function Outranking(stakes: Stakes, nodes: set<ContactInfo>, c: ContactInfo): set<ContactInfo> {
    var own := if stakes.Some? && c.id in stakes.value then stakes.value[c.id] else 0;
    set d | d in nodes &&
      var other := if stakes.Some? && d.id in stakes.value then stakes.value[d.id] else 0;
      other > own || (other == own && d.id > c.id)
  }

  ghost function RankIn(stakes: Stakes, nodes: set<ContactInfo>, c: ContactInfo): nat {
    |Outranking(stakes, nodes, c)|
  }

  /** The position of a node in the ranking is the number of nodes that outrank it. */
  lemma RankIsPosition(stakes: Stakes, ranking: seq<ContactInfo>, nodes: set<ContactInfo>, i: nat)
    requires IsRanking(stakes, ranking, nodes) && i < |ranking|
    ensures RankIn(stakes, nodes, ranking[i]) == i
  {
    var before := set c | c in ranking[..i];
    forall d ensures d in before <==> d in nodes && Before(stakes, d, ranking[i]) {
      if d in before {
        var k :| 0 <= k < i && ranking[k] == d;
        assert d in ranking;
      }
      if d in nodes && Before(stakes, d, ranking[i]) {
        assert d in ranking;
        var k :| 0 <= k < |ranking| && ranking[k] == d;
        assert k < i;
        assert ranking[..i][k] == d;
      }
    }
    RankingSize(stakes, ranking[..i], before);
    assert before == Outranking(stakes, nodes, ranking[i]);
  }

  lemma RankOfMember(stakes: Stakes, ranking: seq<ContactInfo>, nodes: set<ContactInfo>, c: ContactInfo)
    requires IsRanking(stakes, ranking, nodes) && c in nodes
    ensures RankIn(stakes, nodes, c) < |ranking| && ranking[RankIn(stakes, nodes, c)] == c
  {
    assert c in ranking;
    var i :| 0 <= i < |ranking| && ranking[i] == c;
    RankIsPosition(stakes, ranking, nodes, i);
  }

  /** The list without the node at position `u`. */
  function Without<T>(s: seq<T>, u: nat): seq<T>
    requires u < |s|
  {
    s[..u] + s[u + 1..]
  }

  ghost function Cluster(me: ContactInfo, others: seq<ContactInfo>): set<ContactInfo> {
    (set c | c in others) + {me}
  }

  /** One's own position in the ranking of the cluster, and the ranking without oneself. */
  method SortedPeersAndIndex(me: ContactInfo, others: seq<ContactInfo>, stakes: Stakes)
    returns (index: nat, peers: seq<ContactInfo>)
    requires UniqueIds(others + [me]) && me !in others
    ensures |peers| == |Cluster(me, others)| - 1 >= index
    ensures forall ranking :: IsRanking(stakes, ranking, Cluster(me, others)) ==>
              index < |ranking| && ranking[index] == me && peers == Without(ranking, index)
    ensures IsRanking(stakes, peers[..index] + [me] + peers[index..], Cluster(me, others))
    ensures index == RankIn(stakes, Cluster(me, others), me)
    ensures forall i :: 0 <= i < |peers| ==>
              RankIn(stakes, Cluster(me, others), peers[i]) == if i < index then i else i + 1
  {
    var sorted := SortByStake(others + [me], stakes);
    assert (set c | c in others + [me]) == Cluster(me, others);
    assert me in sorted;
    index := IndexOf(sorted, me);
    peers := Without(sorted, index);
    RankingSize(stakes, sorted, Cluster(me, others));
    forall ranking | IsRanking(stakes, ranking, Cluster(me, others)) ensures ranking == sorted {
      RankingIsUnique(stakes, ranking, sorted, Cluster(me, others));
    }
    PlacesWithout(stakes, sorted, Cluster(me, others), me, index, peers);
  }

  /** The ranking put together again, and the places of all its nodes. */
  lemma PlacesWithout(
    stakes: Stakes, ranking: seq<ContactInfo>, nodes: set<ContactInfo>, me: ContactInfo, index: nat,
    peers: seq<ContactInfo>)
    requires IsRanking(stakes, ranking, nodes) && index < |ranking| && ranking[index] == me
    requires peers == Without(ranking, index)
    ensures peers[..index] + [me] + peers[index..] == ranking
    ensures index == RankIn(stakes, nodes, me)
    ensures forall i :: 0 <= i < |peers| ==> RankIn(stakes, nodes, peers[i]) == if i < index then i else i + 1
  {
    RankIsPosition(stakes, ranking, nodes, index);
    forall i | 0 <= i < |peers| ensures RankIn(stakes, nodes, peers[i]) == if i < index then i else i + 1 {
      RankIsPosition(stakes, ranking, nodes, if i < index then i else i + 1);
    }
  }

  lemma {:induction false} RankingSize(stakes: Stakes, ranking: seq<ContactInfo>, nodes: set<ContactInfo>)
    requires IsRanking(stakes, ranking, nodes)
    ensures |ranking| == |nodes|
    decreases |ranking|
  {
    if ranking != [] {
      var last := ranking[|ranking| - 1];
      WithoutLast(stakes, ranking, nodes);
      RankingSize(stakes, ranking[..|ranking| - 1], nodes - {last});
      assert last in nodes;
    } else {
      NothingRanked(stakes, ranking, nodes);
    }
  }

  lemma NothingRanked(stakes: Stakes, ranking: seq<ContactInfo>, nodes: set<ContactInfo>)
    requires ranking == [] && IsRanking(stakes, ranking, nodes)
    ensures nodes == {}
  {
    forall c ensures c !in nodes {
      assert c !in ranking;
    }
  }

  method IndexOf(s: seq<ContactInfo>, c: ContactInfo) returns (i: nat)
    requires c in s
    ensures i < |s| && s[i] == c
  {
    i := 0;
    ghost var k :| 0 <= k < |s| && s[k] == c;
    while s[i] != c
      invariant i < |s| && forall j :: 0 <= j < i ==> s[j] != c
      decreases |s| - i
    {
      assert i < k;
      i := i + 1;
    }
  }

  /** `c` is the peer at some place the node at position `u` pushes to. */
  ghost predicate PushedTo(fanout: nat, peers: seq<ContactInfo>, u: nat, c: ContactInfo)
    requires fanout >= 1
  {
    exists j: nat :: Pushes(fanout, |peers|, u, j) && peers[j] == c
  }

  /** Picks the neighbors and the children out of the list of peers; the first child beyond the list ends the search. */
  method PickPeers(peers: seq<ContactInfo>, index: nat, fanout: nat)
    returns (neighbors: seq<ContactInfo>, children: seq<ContactInfo>)
    requires fanout >= 1 && index <= |peers|
    ensures forall c :: c in neighbors || c in children <==> PushedTo(fanout, peers, index, c)
  {
    var numLayers, indices := DescribeDataPlane(|peers|, fanout);
    if numLayers <= 1 {
      neighbors, children := peers, [];
      forall j: nat | j < |peers| ensures Pushes(fanout, |peers|, index, j) {
      }
      return;
    }
    StartsAreStarts(fanout, numLayers + 1);
    assert indices == Starts(fanout, numLayers + 1);
    LocalityShape(indices, fanout, numLayers, index);
    var l := Localize(indices, fanout, index);
    var upper := Min(l.neighborBounds.1, |peers|);
    neighbors := peers[l.neighborBounds.0..upper];
    children := PickChildren(peers, l.nextLayerPeers);
    forall c ensures c in neighbors || c in children <==> PushedTo(fanout, peers, index, c) {
      PickedIsPushed(fanout, peers, index, l, neighbors, children, c);
    }
  }

  method PickChildren(peers: seq<ContactInfo>, wanted: seq<nat>) returns (children: seq<ContactInfo>)
    requires forall i, j :: 0 <= i < j < |wanted| ==> wanted[i] < wanted[j]
    ensures forall c :: c in children <==> exists i :: 0 <= i < |wanted| && wanted[i] < |peers| && peers[wanted[i]] == c
  {
    children := [];
    for i := 0 to |wanted|
      invariant forall j :: 0 <= j < i ==> wanted[j] < |peers|
      invariant forall c :: c in children <==> exists j :: 0 <= j < i && wanted[j] < |peers| && peers[wanted[j]] == c
    {
      if wanted[i] >= |peers| {
        break;
      }
      children := children + [peers[wanted[i]]];
    }
  }

  lemma PickedIsPushed(
    fanout: nat, peers: seq<ContactInfo>, u: nat, l: Locality, neighbors: seq<ContactInfo>, children: seq<ContactInfo>,
    c: ContactInfo)
    requires 1 <= fanout < |peers| && l == Localize(Starts(fanout, LayerCount(|peers|, fanout) + 1), fanout, u)
    requires l.neighborBounds.0 <= Min(l.neighborBounds.1, |peers|)
    requires neighbors == peers[l.neighborBounds.0..Min(l.neighborBounds.1, |peers|)]
    requires c in children <==>
               exists i :: 0 <= i < |l.nextLayerPeers| && l.nextLayerPeers[i] < |peers| &&
                 peers[l.nextLayerPeers[i]] == c
    ensures c in neighbors || c in children <==> PushedTo(fanout, peers, u, c)
  {
    if c in neighbors {
      var i :| 0 <= i < |neighbors| && neighbors[i] == c;
      assert Pushes(fanout, |peers|, u, l.neighborBounds.0 + i);
    }
    if c in children {
      var i :| 0 <= i < |l.nextLayerPeers| && l.nextLayerPeers[i] < |peers| && peers[l.nextLayerPeers[i]] == c;
      assert Pushes(fanout, |peers|, u, l.nextLayerPeers[i]);
    }
    if PushedTo(fanout, peers, u, c) {
      var j: nat :| Pushes(fanout, |peers|, u, j) && peers[j] == c;
      if l.neighborBounds.0 <= j < l.neighborBounds.1 {
        assert neighbors[j - l.neighborBounds.0] == c;
      }
    }
  }

  /** Places in one's own list, which leaves oneself out, against positions in the ranking. */
  lemma PushedIsEdge(fanout: nat, ranking: seq<ContactInfo>, u: nat, stakes: Stakes, v: nat)
    requires fanout >= 1 && Ranked(stakes, ranking) && u < |ranking| && v < |ranking|
    ensures PushedTo(fanout, Without(ranking, u), u, ranking[v]) <==> Edge(fanout, |ranking|, u, v)
  {
    var peers := Without(ranking, u);
    if PushedTo(fanout, peers, u, ranking[v]) {
      var j: nat :| Pushes(fanout, |peers|, u, j) && peers[j] == ranking[v];
      assert peers[j] == ranking[if j < u then j else j + 1];
    }
    if Edge(fanout, |ranking|, u, v) {
      var j := if v < u then v else v - 1;
      assert Pushes(fanout, |peers|, u, j) && peers[j] == ranking[v];
    }
  }

  ghost predicate SendsByRank(
    stakes: Stakes, nodes: set<ContactInfo>, fanout: nat, me: ContactInfo, sends: set<ContactInfo>)
    requires fanout >= 1
  {
    forall ranking, u: nat, v: nat ::
      IsRanking(stakes, ranking, nodes) && u < |ranking| && v < |ranking| && ranking[u] == me ==>
        (ranking[v] in sends <==> Edge(fanout, |ranking|, u, v))
  }

  /** A node sends to exactly those that the plane gives it an edge to, by the places of both in the order of stakes. */
  ghost predicate SendsByStake(
    stakes: Stakes, nodes: set<ContactInfo>, fanout: nat, me: ContactInfo, sends: set<ContactInfo>)
    requires fanout >= 1 && nodes != {}
  {
    forall c :: SendsAt(stakes, nodes, fanout, me, sends, c)
  }

  ghost predicate SendsAt(
    stakes: Stakes, nodes: set<ContactInfo>, fanout: nat, me: ContactInfo, sends: set<ContactInfo>, c: ContactInfo)
    requires fanout >= 1 && nodes != {}
  {
    c in nodes ==> (c in sends <==> Edge(fanout, |nodes|, RankIn(stakes, nodes, me), RankIn(stakes, nodes, c)))
  }

  lemma RankIsStake(
    stakes: Stakes, ranking: seq<ContactInfo>, nodes: set<ContactInfo>, fanout: nat, me: ContactInfo,
    sends: set<ContactInfo>)
    requires fanout >= 1 && me in nodes && IsRanking(stakes, ranking, nodes)
    requires SendsByRank(stakes, nodes, fanout, me, sends)
    ensures SendsByStake(stakes, nodes, fanout, me, sends)
  {
    RankingSize(stakes, ranking, nodes);
    RankOfMember(stakes, ranking, nodes, me);
    forall c ensures SendsAt(stakes, nodes, fanout, me, sends, c) {
      if c in nodes {
        RankOfMember(stakes, ranking, nodes, c);
      }
    }
  }

  /** The neighbors and the children a node retransmits to. */
  method ComputeRetransmitPeers(me: ContactInfo, others: seq<ContactInfo>, stakes: Stakes, fanout: nat)
    returns (neighbors: seq<ContactInfo>, children: seq<ContactInfo>, ghost ranking: seq<ContactInfo>)
    requires fanout >= 1 && UniqueIds(others + [me]) && me !in others
    ensures IsRanking(stakes, ranking, Cluster(me, others))
    ensures var sends := (set c | c in neighbors) + set c | c in children;
            && SendsByRank(stakes, Cluster(me, others), fanout, me, sends)
            && SendsByStake(stakes, Cluster(me, others), fanout, me, sends)
  {
    var index, peers := SortedPeersAndIndex(me, others, stakes);
    neighbors, children := PickPeers(peers, index, fanout);
    ranking := peers[..index] + [me] + peers[index..];
    ghost var sends := (set c | c in neighbors) + set c | c in children;
    PickedByRank(stakes, Cluster(me, others), fanout, me, index, peers, neighbors, children, sends);
    RankIsStake(stakes, ranking, Cluster(me, others), fanout, me, sends);
  }

  lemma PickedByRank(
    stakes: Stakes, nodes: set<ContactInfo>, fanout: nat, me: ContactInfo, index: nat, peers: seq<ContactInfo>,
    neighbors: seq<ContactInfo>, children: seq<ContactInfo>, sends: set<ContactInfo>)
    requires fanout >= 1 && sends == (set c | c in neighbors) + set c | c in children
    requires forall ranking :: IsRanking(stakes, ranking, nodes) ==>
               index < |ranking| && ranking[index] == me && peers == Without(ranking, index)
    requires forall c :: c in neighbors || c in children <==> PushedTo(fanout, peers, index, c)
    ensures SendsByRank(stakes, nodes, fanout, me, sends)
  {
    forall ranking, u: nat, v: nat |
      IsRanking(stakes, ranking, nodes) && u < |ranking| && v < |ranking| && ranking[u] == me
      ensures ranking[v] in sends <==> Edge(fanout, |ranking|, u, v)
    {
      RankedOnce(stakes, ranking, u, index);
      PushedIsEdge(fanout, ranking, index, stakes, v);
    }
  }

  lemma RankedOnce(stakes: Stakes, ranking: seq<ContactInfo>, u: nat, w: nat)
    requires Ranked(stakes, ranking) && u < |ranking| && w < |ranking| && ranking[u] == ranking[w]
    ensures u == w
  {
  }

  /** What every node of the cluster computes for itself, put together. */
  ghost predicate AllSend(ranking: seq<ContactInfo>, fanout: nat, sends: map<ContactInfo, set<ContactInfo>>)
    requires fanout >= 1 && ranking != []
  {
    forall u, v :: 0 <= u < |ranking| && 0 <= v < |ranking| ==>
      ranking[u] in sends && (ranking[v] in sends[ranking[u]] <==> Edge(fanout, |ranking|, u, v))
  }

  /** Every node of one cluster, whose others it lists in an order of its own. */
  ghost predicate OneCluster(views: map<ContactInfo, seq<ContactInfo>>) {
    forall me :: me in views ==> me !in views[me] && UniqueIds(views[me] + [me]) && Cluster(me, views[me]) == views.Keys
  }

  ghost predicate SendsRight(
    stakes: Stakes, nodes: set<ContactInfo>, fanout: nat, me: ContactInfo, sends: set<ContactInfo>)
    requires fanout >= 1
  {
    me in nodes && SendsByRank(stakes, nodes, fanout, me, sends) && SendsByStake(stakes, nodes, fanout, me, sends)
  }

  method RetransmitFrom(me: ContactInfo, others: seq<ContactInfo>, stakes: Stakes, fanout: nat)
    returns (to: set<ContactInfo>)
    requires fanout >= 1 && UniqueIds(others + [me]) && me !in others
    ensures SendsRight(stakes, Cluster(me, others), fanout, me, to)
  {
    var neighbors, children, _ := ComputeRetransmitPeers(me, others, stakes, fanout);
    to := (set c | c in neighbors) + set c | c in children;
  }

  ghost predicate AllSendByStake(
    stakes: Stakes, nodes: set<ContactInfo>, fanout: nat, sends: map<ContactInfo, set<ContactInfo>>)
    requires fanout >= 1
  {
    forall me :: me in nodes ==> me in sends && SendsByStake(stakes, nodes, fanout, me, sends[me])
  }

  ghost predicate AllSendRight(
    stakes: Stakes, nodes: set<ContactInfo>, fanout: nat, sends: map<ContactInfo, set<ContactInfo>>)
    requires fanout >= 1
  {
    forall me :: me in sends ==> SendsRight(stakes, nodes, fanout, me, sends[me])
  }

  lemma OneMoreSends(
    stakes: Stakes, nodes: set<ContactInfo>, fanout: nat, sends: map<ContactInfo, set<ContactInfo>>, me: ContactInfo,
    to: set<ContactInfo>)
    requires fanout >= 1 && AllSendRight(stakes, nodes, fanout, sends) && SendsRight(stakes, nodes, fanout, me, to)
    ensures AllSendRight(stakes, nodes, fanout, sends[me := to])
  {
  }

  /** Every node of the cluster computes where it retransmits to, by itself: together they follow the one ranking. */
  method RetransmitInCluster(views: map<ContactInfo, seq<ContactInfo>>, stakes: Stakes, fanout: nat)
    returns (sends: map<ContactInfo, set<ContactInfo>>)
    requires fanout >= 1 && OneCluster(views)
    ensures sends.Keys == views.Keys
    ensures forall ranking :: IsRanking(stakes, ranking, views.Keys) && ranking != [] ==>
              AllSend(ranking, fanout, sends)
    ensures AllSendByStake(stakes, views.Keys, fanout, sends)
  {
    sends := CollectSends(views, stakes, fanout);
    TogetherByStake(stakes, views.Keys, fanout, sends);
    forall ranking | IsRanking(stakes, ranking, views.Keys) && ranking != [] ensures AllSend(ranking, fanout, sends) {
      TogetherAllSend(stakes, ranking, views.Keys, fanout, sends);
    }
  }

  method CollectSends(views: map<ContactInfo, seq<ContactInfo>>, stakes: Stakes, fanout: nat)
    returns (sends: map<ContactInfo, set<ContactInfo>>)
    requires fanout >= 1 && OneCluster(views)
    ensures sends.Keys == views.Keys && AllSendRight(stakes, views.Keys, fanout, sends)
  {
    var todo := views.Keys;
    sends := map[];
    while todo != {}
      invariant todo <= views.Keys && sends.Keys == views.Keys - todo
      invariant AllSendRight(stakes, views.Keys, fanout, sends)
    {
      var me :| me in todo;
      var to := RetransmitFrom(me, views[me], stakes, fanout);
      OneMoreSends(stakes, views.Keys, fanout, sends, me, to);
      sends, todo := sends[me := to], todo - {me};
    }
  }

  lemma TogetherByStake(
    stakes: Stakes, nodes: set<ContactInfo>, fanout: nat, sends: map<ContactInfo, set<ContactInfo>>)
    requires fanout >= 1 && sends.Keys == nodes && AllSendRight(stakes, nodes, fanout, sends)
    ensures AllSendByStake(stakes, nodes, fanout, sends)
  {
    forall me | me in nodes ensures SendsByStake(stakes, nodes, fanout, me, sends[me]) {
      assert SendsRight(stakes, nodes, fanout, me, sends[me]);
    }
  }

  lemma TogetherAllSend(
    stakes: Stakes, ranking: seq<ContactInfo>, nodes: set<ContactInfo>, fanout: nat,
    sends: map<ContactInfo, set<ContactInfo>>)
    requires fanout >= 1 && IsRanking(stakes, ranking, nodes) && ranking != [] && sends.Keys == nodes
    requires AllSendRight(stakes, nodes, fanout, sends)
    ensures AllSend(ranking, fanout, sends)
  {
    forall u: nat, v: nat | u < |ranking| && v < |ranking|
      ensures ranking[u] in sends && (ranking[v] in sends[ranking[u]] <==> Edge(fanout, |ranking|, u, v))
    {
      assert ranking[u] in ranking;
      assert SendsRight(stakes, nodes, fanout, ranking[u], sends[ranking[u]]);
    }
  }

  /** A message handed to any one of the `fanout` nodes ranked first spreads to the whole cluster. */
  lemma MessageSpreads(
    ranking: seq<ContactInfo>, fanout: nat, sends: map<ContactInfo, set<ContactInfo>>, s: nat, t: nat)
    returns (chain: seq<ContactInfo>)
    requires 1 <= fanout && s < fanout && s < |ranking| && t < |ranking| && AllSend(ranking, fanout, sends)
    ensures chain != [] && chain[0] == ranking[s] && chain[|chain| - 1] == ranking[t]
    ensures forall i :: 0 <= i < |chain| - 1 ==> chain[i] in sends && chain[i + 1] in sends[chain[i]]
  {
    var path := EveryoneIsReached(fanout, |ranking|, s, t);
    chain := seq(|path|, i requires 0 <= i < |path| => ranking[path[i]]);
    forall i | 0 <= i < |chain| - 1 ensures chain[i] in sends && chain[i + 1] in sends[chain[i]] {
      assert Edge(fanout, |ranking|, path[i], path[i + 1]);
    }
  }

  /**
   A message handed to a node that fewer than `fanout` nodes outrank, by stake and then by id, spreads to every node of
   the cluster.
   */
  lemma MessageSpreadsFromStake(
    stakes: Stakes, ranking: seq<ContactInfo>, nodes: set<ContactInfo>, fanout: nat,
    sends: map<ContactInfo, set<ContactInfo>>, source: ContactInfo, target: ContactInfo)
    returns (chain: seq<ContactInfo>)
    requires 1 <= fanout && IsRanking(stakes, ranking, nodes) && sends.Keys == nodes
    requires source in nodes && target in nodes && RankIn(stakes, nodes, source) < fanout
    requires AllSendByStake(stakes, nodes, fanout, sends)
    ensures chain != [] && chain[0] == source && chain[|chain| - 1] == target
    ensures forall i :: 0 <= i < |chain| - 1 ==> chain[i] in sends && chain[i + 1] in sends[chain[i]]
  {
    RankOfMember(stakes, ranking, nodes, source);
    RankOfMember(stakes, ranking, nodes, target);
    RankingSize(stakes, ranking, nodes);
    forall u, v | 0 <= u < |ranking| && 0 <= v < |ranking|
      ensures ranking[u] in sends && (ranking[v] in sends[ranking[u]] <==> Edge(fanout, |ranking|, u, v))
    {
      RankIsPosition(stakes, ranking, nodes, u);
      RankIsPosition(stakes, ranking, nodes, v);
      assert ranking[u] in ranking && ranking[v] in ranking;
      assert SendsAt(stakes, nodes, fanout, ranking[u], sends[ranking[u]], ranking[v]);
    }
    chain := MessageSpreads(
      ranking, fanout, sends, RankIn(stakes, nodes, source), RankIn(stakes, nodes, target));
  }
}
