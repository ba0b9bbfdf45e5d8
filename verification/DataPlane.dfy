/** The layers of the avalanche data plane: where positions are, who pushes to whom, and that everyone is reached. */
module DataPlane {
  import opened Common
  import opened Arithmetic

  // ---- Layers ----

  function Pow(b: nat, e: nat): nat {
    if e == 0 then 1 else b * Pow(b, e - 1)
  }

  /** The first position of layer `k`: layer 0 holds `f` nodes, and each later one `f` times as many as the last. */
  function LayerStart(f: nat, k: nat): nat {
    if k == 0 then 0 else LayerStart(f, k - 1) + Pow(f, k)
  }

  lemma {:induction false} PowPositive(f: nat, k: nat)
    requires f >= 1
    ensures Pow(f, k) >= 1
  {
    if k > 0 {
      PowPositive(f, k - 1);
    }
  }

  lemma PowNext(f: nat, k: nat)
    ensures Pow(f, k + 1) == Pow(f, k) * f
  {
  }

  /** Where the layers start, without powers. */
  lemma {:induction false} LayerStartNext(f: nat, k: nat)
    ensures LayerStart(f, 0) == 0 && LayerStart(f, k + 1) == Times(f, LayerStart(f, k) + 1)
  {
    if k == 0 {
      PowNext(f, 0);
    } else {
      LayerStartNext(f, k - 1);
      PowNext(f, k);
      assert f * (LayerStart(f, k - 1) + Pow(f, k) + 1) == f * (LayerStart(f, k - 1) + 1) + Pow(f, k) * f;
    }
  }

  lemma {:induction false} LayersGrow(f: nat, j: nat, k: nat)
    requires f >= 1 && j <= k
    ensures LayerStart(f, j) <= LayerStart(f, k) && (j < k ==> LayerStart(f, j) < LayerStart(f, k))
  {
    if j < k {
      PowPositive(f, k);
      LayersGrow(f, j, k - 1);
    }
  }

  /** The indices of a plane with `n` layers: the start of each, and the total capacity at the end. */
  ghost predicate IsPlane(indices: seq<nat>, f: nat, n: nat) {
    |indices| == n + 1 && forall k :: 0 <= k <= n ==> indices[k] == LayerStart(f, k)
  }

  ghost function Starts(f: nat, n: nat): seq<nat> {
    if n == 0 then [] else Starts(f, n - 1) + [LayerStart(f, n - 1)]
  }

  lemma {:induction false} StartsAreStarts(f: nat, n: nat)
    ensures |Starts(f, n)| == n && forall k :: 0 <= k < n ==> Starts(f, n)[k] == LayerStart(f, k)
  {
    if n > 0 {
      StartsAreStarts(f, n - 1);
    }
  }

  ghost function LayersFrom(nodes: nat, f: nat, k: nat): (n: nat)
    requires f >= 1
    ensures k <= n && nodes <= LayerStart(f, n) && (n > k ==> LayerStart(f, n - 1) < nodes)
    decreases nodes - LayerStart(f, k)
  {
    if nodes <= LayerStart(f, k) then k
    else
      PowPositive(f, k + 1);
      LayersFrom(nodes, f, k + 1)
  }

  /** The least number of layers that hold all nodes. */
  ghost function LayerCount(nodes: nat, f: nat): nat
    requires f >= 1
  {
    LayersFrom(nodes, f, 0)
  }

  lemma LayerCountUnique(nodes: nat, f: nat, n: nat)
    requires f >= 1 && n >= 1 && LayerStart(f, n - 1) < nodes <= LayerStart(f, n)
    ensures n == LayerCount(nodes, f)
  {
    var c := LayerCount(nodes, f);
    if n < c {
      LayersGrow(f, n, c - 1);
    } else if c < n {
      LayersGrow(f, c, n - 1);
    }
  }

  lemma PlaneInNumbers(indices: seq<nat>, f: nat, n: nat)
    requires IsPlane(indices, f, n)
    ensures indices[0] == 0 && forall k :: 0 <= k < n ==> indices[k + 1] == Times(f, indices[k] + 1)
  {
    forall k | 0 <= k < n ensures indices[k + 1] == Times(f, indices[k] + 1) {
      LayerStartNext(f, k);
    }
  }

  /** Calculates how many layers hold `nodes` nodes and where each begins. */
  method DescribeDataPlane(nodes: nat, fanout: nat) returns (numLayers: nat, indices: seq<nat>)
    requires fanout >= 1
    ensures nodes == 0 ==> numLayers == 0 && indices == []
    ensures 0 < nodes <= fanout ==> numLayers == 1 && indices == [0]
    ensures nodes > fanout ==>
              && numLayers >= 2 && numLayers == LayerCount(nodes, fanout) && IsPlane(indices, fanout, numLayers)
              && LayerStart(fanout, numLayers - 1) < nodes <= LayerStart(fanout, numLayers)
    ensures nodes > fanout ==>
              && |indices| == numLayers + 1 && indices[0] == 0
              && (forall k :: 0 <= k < numLayers ==> indices[k + 1] == Times(fanout, indices[k] + 1))
              && indices[numLayers - 1] < nodes <= indices[numLayers]
  {
    indices := [0];
    if nodes == 0 {
      return 0, [];
    } else if nodes <= fanout {
      return 1, indices;
    }
    numLayers, indices := AddLayers(nodes, fanout);
    Described(nodes, fanout, numLayers, indices);
  }

  /** Adds layer after layer until all nodes have a place. */
  method AddLayers(nodes: nat, fanout: nat) returns (numLayers: nat, indices: seq<nat>)
    requires 1 <= fanout < nodes
    ensures numLayers >= 2 && indices == Starts(fanout, numLayers + 1)
    ensures LayerStart(fanout, numLayers - 1) < nodes <= LayerStart(fanout, numLayers)
  {
    indices := [0];
    var remaining := nodes - fanout;
    indices := indices + [fanout];
    numLayers := 2;
    var capacity := fanout * fanout;
    PowNext(fanout, 0);
    PowNext(fanout, 1);
    assert LayerStart(fanout, 1) == fanout;
    StartsAreStarts(fanout, 2);
    while remaining > 0
      invariant numLayers >= 2 && remaining > 0
      invariant indices == Starts(fanout, numLayers)
      invariant capacity == Pow(fanout, numLayers)
      invariant nodes == LayerStart(fanout, numLayers - 1) + remaining
      decreases remaining
    {
      PowPositive(fanout, numLayers);
      var end := indices[|indices| - 1];
      indices := indices + [capacity + end];
      if remaining > capacity {
        PowNext(fanout, numLayers);
        numLayers := numLayers + 1;
        remaining := remaining - capacity;
        capacity := capacity * fanout;
      } else {
        break;
      }
    }
  }

  lemma Described(nodes: nat, f: nat, n: nat, indices: seq<nat>)
    requires f >= 1 && n >= 2 && indices == Starts(f, n + 1) && LayerStart(f, n - 1) < nodes <= LayerStart(f, n)
    ensures n == LayerCount(nodes, f) && IsPlane(indices, f, n)
    ensures |indices| == n + 1 && indices[0] == 0
    ensures forall k :: 0 <= k < n ==> indices[k + 1] == Times(f, indices[k] + 1)
    ensures indices[n - 1] < nodes <= indices[n]
  {
    StartsAreStarts(f, n + 1);
    LayerCountUnique(nodes, f, n);
    PlaneInNumbers(indices, f, n);
  }

  // ---- Where a position lies and whom it pushes to ----

  datatype Locality = Locality(
    layerIx: nat,
    layerBounds: (nat, nat),
    neighborBounds: (nat, nat),
    nextLayerBounds: Option<(nat, nat)>,
    nextLayerPeers: seq<nat>)

  const NOWHERE := Locality(0, (0, 0), (0, 0), None, [])

  /** One node of each of the `fanout` neighborhoods in the next layer that this neighborhood feeds. */
  function NextLayerPeers(index: nat, hood: nat, start: nat, fanout: nat): seq<nat>
    requires fanout >= 1
  {
    var first := start + Times(hood, Times(fanout, fanout));
    seq(fanout, (j: nat) => first + Times(j, fanout) + index % fanout)
  }

  function LocalizeItem(indices: seq<nat>, fanout: nat, select: nat, curr: nat): Option<Locality>
    requires fanout >= 1 && curr < |indices|
  {
    var end := |indices| - 1;
    var next := Min(end, curr + 1);
    var start := indices[curr];
    if start <= select < indices[next] then
      var hood := (select - start) / fanout;
      var bounds := if curr == 0 then (0, fanout) else (start, indices[next]);
      var neighbors := if curr == 0 then bounds else (hood * fanout + start, (hood + 1) * fanout + start);
      if next == end then Some(Locality(curr, bounds, neighbors, None, []))
      else Some(Locality(curr, bounds, neighbors, Some((indices[next], indices[next + 1])),
                         NextLayerPeers(select, hood, indices[next], fanout)))
    else None
  }

  function LocalizeFrom(indices: seq<nat>, fanout: nat, select: nat, curr: nat): Locality
    requires fanout >= 1 && curr <= |indices|
    decreases |indices| - curr
  {
    if curr == |indices| then NOWHERE
    else
      var l := LocalizeItem(indices, fanout, select, curr);
      if l.Some? then l.value else LocalizeFrom(indices, fanout, select, curr + 1)
  }

  /** The layer, the neighborhood and the next-layer peers of a position; nowhere if it is beyond the capacity. */
  function Localize(indices: seq<nat>, fanout: nat, select: nat): Locality
    requires fanout >= 1
  {
    LocalizeFrom(indices, fanout, select, 0)
  }

  /** The position is in layer `k`. */
  ghost predicate InLayer(f: nat, k: nat, p: nat) {
    LayerStart(f, k) <= p < LayerStart(f, k + 1)
  }

  lemma {:induction false} FindLayer(f: nat, n: nat, p: nat) returns (k: nat)
    requires f >= 1 && p < LayerStart(f, n)
    ensures k < n && InLayer(f, k, p)
  {
    if p >= LayerStart(f, n - 1) {
      k := n - 1;
    } else {
      k := FindLayer(f, n - 1, p);
    }
  }

  lemma {:induction false} LocalizeFinds(indices: seq<nat>, f: nat, n: nat, p: nat, k: nat, curr: nat)
    requires f >= 1 && IsPlane(indices, f, n) && k < n && InLayer(f, k, p) && curr <= k
    ensures LocalizeItem(indices, f, p, k).Some?
    ensures LocalizeFrom(indices, f, p, curr) == LocalizeItem(indices, f, p, k).value
    decreases k - curr
  {
    if curr < k {
      LayersGrow(f, curr + 1, k);
      LocalizeFinds(indices, f, n, p, k, curr + 1);
    }
  }

  // ---- Division, remainder and the layers ----

  /** Every layer starts at a multiple of the fanout. */
  lemma {:induction false} LayerStartMultiple(f: nat, k: nat) returns (m: nat)
    ensures LayerStart(f, k) == m * f
  {
    if k == 0 {
      m := 0;
    } else {
      var m0 := LayerStartMultiple(f, k - 1);
      m := m0 + Pow(f, k - 1);
      assert m * f == m0 * f + Pow(f, k - 1) * f;
      PowNext(f, k - 1);
    }
  }

  /** A position of layer `k`, taken apart: neighborhood `hood`, place `place` in it. */
  lemma PlaceInLayer(f: nat, k: nat, p: nat) returns (hood: nat, place: nat)
    requires f >= 1 && InLayer(f, k, p)
    ensures p == LayerStart(f, k) + hood * f + place && place < f && hood < Pow(f, k)
    ensures hood == (p - LayerStart(f, k)) / f && place == p % f
  {
    var d := p - LayerStart(f, k);
    hood, place := d / f, d % f;
    assert d == hood * f + place;
    var m := LayerStartMultiple(f, k);
    assert (m + hood) * f == m * f + hood * f;
    DivModUnique(p, f, m + hood, place);
    PowNext(f, k);
    if hood >= Pow(f, k) {
      MulMonotone(Pow(f, k), hood, f);
    }
  }

  // ---- Every position beyond layer 0 has exactly one parent ----

  /** The one position of layer `k` that pushes to position `ix` of layer `k + 1`. */
  function ParentOf(f: nat, k: nat, ix: nat): nat
    requires f >= 1 && LayerStart(f, k + 1) <= ix
  {
    var d := ix - LayerStart(f, k + 1);
    LayerStart(f, k) + Times(d / Times(f, f), f) + d % f
  }

  /** The peers in the next layer of a position in layer `k`. */
  function PeersOf(f: nat, k: nat, p: nat): seq<nat>
    requires f >= 1 && LayerStart(f, k) <= p
  {
    NextLayerPeers(p, (p - LayerStart(f, k)) / f, LayerStart(f, k + 1), f)
  }

  lemma SquareDivMod(f: nat, hood: nat, j: nat, place: nat)
    requires f >= 1 && j < f && place < f
    ensures var d := hood * (f * f) + j * f + place;
            d / (f * f) == hood && d % (f * f) == j * f + place && d % f == place
  {
    var d := hood * (f * f) + j * f + place;
    MulMonotone(j, f - 1, f);
    assert (f - 1) * f == f * f - f;
    DivModUnique(d, f * f, hood, j * f + place);
    assert (hood * f + j) * f == hood * (f * f) + j * f by {
      assert (hood * f + j) * f == hood * f * f + j * f;
      assert hood * f * f == hood * (f * f);
    }
    DivModUnique(d, f, hood * f + j, place);
  }

  /** A peer of a position lies in the next layer, and the position is its parent. */
  lemma PeerHasParent(f: nat, k: nat, p: nat, j: nat)
    requires f >= 1 && InLayer(f, k, p) && j < f
    ensures InLayer(f, k + 1, PeersOf(f, k, p)[j]) && ParentOf(f, k, PeersOf(f, k, p)[j]) == p
  {
    var hood, place := PlaceInLayer(f, k, p);
    var ix := PeersOf(f, k, p)[j];
    assert ix == LayerStart(f, k + 1) + hood * (f * f) + j * f + place;
    SquareDivMod(f, hood, j, place);
    BelowSquare(f, Pow(f, k), hood, j, place);
    PowNext(f, k);
    PowNext(f, k + 1);
  }

  lemma BelowSquare(f: nat, n: nat, hood: nat, j: nat, place: nat)
    requires f >= 1 && hood < n && j < f && place < f
    ensures hood * (f * f) + j * f + place < n * f * f
  {
    MulMonotone(j, f - 1, f);
    assert (f - 1) * f == f * f - f;
    MulMonotone(hood + 1, n, f * f);
    assert (hood + 1) * (f * f) == hood * (f * f) + f * f;
    assert n * f * f == n * (f * f);
  }

  /** The parent of a position, taken apart. */
  lemma ParentParts(f: nat, k: nat, ix: nat) returns (hood: nat, j: nat, place: nat)
    requires f >= 1 && InLayer(f, k + 1, ix)
    ensures ix == LayerStart(f, k + 1) + hood * (f * f) + j * f + place && j < f && place < f
    ensures ParentOf(f, k, ix) == LayerStart(f, k) + hood * f + place && InLayer(f, k, ParentOf(f, k, ix))
  {
    var d := ix - LayerStart(f, k + 1);
    LayerSize(f, k, ix);
    hood, j, place := DistanceParts(f, Pow(f, k), d);
    PowNext(f, k);
  }

  lemma LayerSize(f: nat, k: nat, ix: nat)
    requires f >= 1 && InLayer(f, k + 1, ix)
    ensures ix - LayerStart(f, k + 1) < Pow(f, k) * f * f
  {
    PowNext(f, k);
    PowNext(f, k + 1);
  }

  lemma DistanceParts(f: nat, n: nat, d: nat) returns (hood: nat, j: nat, place: nat)
    requires f >= 1 && d < n * f * f
    ensures d == hood * (f * f) + j * f + place && j < f && place < f
    ensures Times(d / Times(f, f), f) + d % f == hood * f + place < n * f
  {
    var r := d % (f * f);
    hood, j, place := d / (f * f), r / f, r % f;
    SquareParts(f, d);
    SquareDivMod(f, hood, j, place);
    HoodBound(f, n, d);
  }

  /** Every position of the next layer is a peer of its parent. */
  lemma ParentHasPeer(f: nat, k: nat, ix: nat) returns (j: nat)
    requires f >= 1 && InLayer(f, k + 1, ix)
    ensures InLayer(f, k, ParentOf(f, k, ix)) && j < f && PeersOf(f, k, ParentOf(f, k, ix))[j] == ix
  {
    var hood, place;
    hood, j, place := ParentParts(f, k, ix);
    PeersOfPlace(f, k, hood, place, j);
  }

  lemma PeersOfPlace(f: nat, k: nat, hood: nat, place: nat, j: nat)
    requires f >= 1 && place < f && j < f
    ensures PeersOf(f, k, LayerStart(f, k) + Times(hood, f) + place)[j]
            == LayerStart(f, k + 1) + hood * (f * f) + j * f + place
  {
    var p := LayerStart(f, k) + Times(hood, f) + place;
    var m := LayerStartMultiple(f, k);
    assert (m + hood) * f == m * f + hood * f;
    DivModUnique(p, f, m + hood, place);
    DivModUnique(p - LayerStart(f, k), f, hood, place);
  }

  lemma SquareParts(f: nat, d: nat)
    requires f >= 1
    ensures var r := d % (f * f);
            d == (d / (f * f)) * (f * f) + (r / f) * f + r % f && r / f < f
  {
    var r := d % (f * f);
    assert r == (r / f) * f + r % f;
    if r / f >= f {
      MulMonotone(f, r / f, f);
    }
  }

  lemma HoodBound(f: nat, n: nat, d: nat)
    requires f >= 1 && d < n * f * f
    ensures d / (f * f) < n && (d / (f * f)) * f + d % f < n * f
  {
    var hood := d / (f * f);
    assert d == hood * (f * f) + d % (f * f);
    assert n * f * f == n * (f * f);
    if hood >= n {
      MulMonotone(n, hood, f * f);
    }
    MulMonotone(hood + 1, n, f);
    assert (hood + 1) * f == hood * f + f;
  }

  // ---- What localizing yields ----

  /** A position below the capacity is found in its layer, with its neighborhood around it and its peers below it. */
  lemma LocalityOf(indices: seq<nat>, f: nat, n: nat, p: nat, k: nat)
    requires f >= 1 && IsPlane(indices, f, n) && k < n && InLayer(f, k, p)
    ensures var l := Localize(indices, f, p);
            && l.layerIx == k
            && l.layerBounds == (LayerStart(f, k), LayerStart(f, k + 1))
            && LayerStart(f, k) <= l.neighborBounds.0 <= p < l.neighborBounds.1 <= LayerStart(f, k + 1)
            && l.neighborBounds.0 == Times(p / f, f) && l.neighborBounds.1 == l.neighborBounds.0 + f
            && l.nextLayerPeers == if k + 1 < n then PeersOf(f, k, p) else []
  {
    LocalizeFinds(indices, f, n, p, k, 0);
    ItemOf(indices, f, n, p, k);
    HoodInLayer(f, k, p, (p - LayerStart(f, k)) / f);
    HoodIsBlock(f, k, p, (p - LayerStart(f, k)) / f);
    FirstLayerStart(f);
    if k == 0 {
      FirstBlock(f, p);
    }
  }

  /** Neighborhoods are blocks of `f` positions. */
  lemma HoodIsBlock(f: nat, k: nat, p: nat, hood: nat)
    requires f >= 1 && InLayer(f, k, p) && hood == (p - LayerStart(f, k)) / f
    ensures hood * f + LayerStart(f, k) == Times(p / f, f)
  {
    var m := LayerStartMultiple(f, k);
    var _, place := PlaceInLayer(f, k, p);
    BlockOf(f, m, hood, place, p);
  }

  lemma BlockOf(f: nat, m: nat, hood: nat, place: nat, p: nat)
    requires place < f && p == m * f + hood * f + place
    ensures hood * f + m * f == Times(p / f, f)
  {
    var q := m + hood;
    assert q * f == m * f + hood * f;
    DivModUnique(p, f, q, place);
  }

  lemma FirstBlock(f: nat, p: nat)
    requires p < f
    ensures Times(p / f, f) == 0
  {
    DivModUnique(p, f, 0, p);
  }

  lemma FirstLayerStart(f: nat)
    ensures LayerStart(f, 0) == 0 && LayerStart(f, 1) == f
  {
    PowNext(f, 0);
  }

  /** What is computed for a position in the layer where it is found. */
  lemma ItemOf(indices: seq<nat>, f: nat, n: nat, p: nat, k: nat)
    requires f >= 1 && IsPlane(indices, f, n) && k < n && InLayer(f, k, p)
    ensures var item, hood, start := LocalizeItem(indices, f, p, k), (p - LayerStart(f, k)) / f, LayerStart(f, k);
            && item.Some? && item.value.layerIx == k
            && item.value.layerBounds == (start, LayerStart(f, k + 1))
            && item.value.neighborBounds == (if k == 0 then (0, f) else (hood * f + start, (hood + 1) * f + start))
            && item.value.nextLayerPeers == if k + 1 < n then PeersOf(f, k, p) else []
  {
    FirstLayerStart(f);
  }

  lemma HoodInLayer(f: nat, k: nat, p: nat, hood: nat)
    requires f >= 1 && InLayer(f, k, p) && hood == (p - LayerStart(f, k)) / f
    ensures hood * f + LayerStart(f, k) <= p < (hood + 1) * f + LayerStart(f, k) <= LayerStart(f, k + 1)
    ensures (hood + 1) * f == hood * f + f
  {
    var _, _ := PlaceInLayer(f, k, p);
    PowNext(f, k);
    MulMonotone(hood + 1, Pow(f, k), f);
    assert (hood + 1) * f == hood * f + f;
  }

  lemma {:induction false} LocalizeBeyond(indices: seq<nat>, f: nat, n: nat, p: nat, curr: nat)
    requires f >= 1 && IsPlane(indices, f, n) && LayerStart(f, n) <= p && curr <= |indices|
    ensures LocalizeFrom(indices, f, p, curr) == NOWHERE
    decreases |indices| - curr
  {
    if curr < |indices| {
      LayersGrow(f, Min(n, curr + 1), n);
      LocalizeBeyond(indices, f, n, p, curr + 1);
    }
  }

  /** For any position: its neighborhood starts no later than it, and its peers come in increasing order. */
  lemma LocalityShape(indices: seq<nat>, f: nat, n: nat, p: nat)
    requires f >= 1 && IsPlane(indices, f, n)
    ensures var l := Localize(indices, f, p);
            && l.neighborBounds.0 <= p && l.neighborBounds.0 <= l.neighborBounds.1
            && forall i, j :: 0 <= i < j < |l.nextLayerPeers| ==> l.nextLayerPeers[i] < l.nextLayerPeers[j]
  {
    if p < LayerStart(f, n) {
      var k := FindLayer(f, n, p);
      LocalityOf(indices, f, n, p, k);
      if k + 1 < n {
        PeersIncrease(f, k, p);
      }
    } else {
      LocalizeBeyond(indices, f, n, p, 0);
    }
  }

  lemma PeersIncrease(f: nat, k: nat, p: nat)
    requires f >= 1 && LayerStart(f, k) <= p
    ensures var peers := PeersOf(f, k, p);
            forall i, j :: 0 <= i < j < |peers| ==> peers[i] < peers[j]
  {
    var peers := PeersOf(f, k, p);
    forall i, j | 0 <= i < j < |peers| ensures peers[i] < peers[j] {
      MulMonotone(i + 1, j, f);
      assert (i + 1) * f == i * f + f;
    }
  }

  /** Every index from `fanout` up to the capacity is a peer of exactly one index, in the layer just before its own. */
  lemma ExactlyOneParent(indices: seq<nat>, f: nat, n: nat, ix: nat) returns (k: nat, p: nat)
    requires f >= 1 && n >= 2 && IsPlane(indices, f, n) && f <= ix < LayerStart(f, n)
    ensures k + 1 < n && InLayer(f, k, p) && InLayer(f, k + 1, ix)
    ensures ix in Localize(indices, f, p).nextLayerPeers
    ensures forall q :: 0 <= q < LayerStart(f, n) && ix in Localize(indices, f, q).nextLayerPeers ==> q == p
  {
    var layer := FindLayer(f, n, ix);
    assert LayerStart(f, 1) == f by { PowNext(f, 0); }
    k := layer - 1;
    p := ParentOf(f, k, ix);
    var j := ParentHasPeer(f, k, ix);
    LocalityOf(indices, f, n, p, k);
    forall q | 0 <= q < LayerStart(f, n) && ix in Localize(indices, f, q).nextLayerPeers ensures q == p {
      SameParent(indices, f, n, ix, q, k);
    }
  }

  lemma SameParent(indices: seq<nat>, f: nat, n: nat, ix: nat, q: nat, k: nat)
    requires f >= 1 && IsPlane(indices, f, n) && q < LayerStart(f, n) && k + 1 < n && InLayer(f, k + 1, ix)
    requires ix in Localize(indices, f, q).nextLayerPeers
    ensures q == ParentOf(f, k, ix)
  {
    var h := FindLayer(f, n, q);
    LocalityOf(indices, f, n, q, h);
    var i: nat :| i < f && PeersOf(f, h, q)[i] == ix;
    PeerHasParent(f, h, q, i);
    OneLayer(f, h + 1, k + 1, ix);
  }

  lemma OneLayer(f: nat, h: nat, k: nat, ix: nat)
    requires f >= 1 && InLayer(f, h, ix) && InLayer(f, k, ix)
    ensures h == k
  {
    if h < k {
      LayersGrow(f, h + 1, k);
    } else if k < h {
      LayersGrow(f, k + 1, h);
    }
  }

  // ---- Reaching everyone ----

  /** The node at position `u` pushes to place `j` of its list of `peers` peers, which leaves itself out. */
  ghost predicate Pushes(f: nat, peers: nat, u: nat, j: nat)
    requires f >= 1
  {
    j < peers &&
    (peers <= f ||
     var l := Localize(Starts(f, LayerCount(peers, f) + 1), f, u);
     l.neighborBounds.0 <= j < l.neighborBounds.1 || j in l.nextLayerPeers)
  }

  /** In a cluster of `n` nodes, the node at position `u` pushes to the one at position `v`. */
  ghost predicate Edge(f: nat, n: nat, u: nat, v: nat)
    requires f >= 1 && n >= 1
  {
    u != v && Pushes(f, n - 1, u, if v < u then v else v - 1)
  }

  /** Positions of one block have the same quotient. */
  lemma SameBlock(f: nat, p: nat, j: nat)
    requires f >= 1
    ensures Times(p / f, f) <= j < Times(p / f, f) + f <==> j / f == p / f
  {
    assert j == (j / f) * f + j % f;
    if Times(p / f, f) <= j < Times(p / f, f) + f {
      DivModUnique(j, f, p / f, j - Times(p / f, f));
    }
  }

  /** The peers in the next layer, in numbers. */
  lemma PeersInNumbers(f: nat, k: nat, p: nat, j: nat)
    requires f >= 1 && InLayer(f, k, p)
    ensures j in PeersOf(f, k, p) <==>
              exists i :: 0 <= i < f &&
                j == LayerStart(f, k + 1) + (p - LayerStart(f, k)) / f * (f * f) + Times(i, f) + p % f
  {
    var hood, start := (p - LayerStart(f, k)) / f, LayerStart(f, k + 1);
    forall i: nat | i < f ensures PeersOf(f, k, p)[i] == start + hood * (f * f) + Times(i, f) + p % f {
    }
  }

  /**
   Who pushes to whom, in numbers. The node at position `u` of layer `k` pushes to the others of its block of `f`
   positions, and to one position in each of the `f` blocks of the next layer that its block feeds. Positions are
   counted in its own list, which leaves itself out.
   */
  lemma EdgeInNumbers(f: nat, n: nat, u: nat, v: nat, k: nat)
    requires 1 <= f < n - 1 && u < n && v < n && u != v && InLayer(f, k, u) && k < LayerCount(n - 1, f)
    ensures var j := if v < u then v else v - 1;
            Edge(f, n, u, v) <==>
              || j / f == u / f
              || (k + 1 < LayerCount(n - 1, f) &&
                  exists i :: 0 <= i < f &&
                    j == LayerStart(f, k + 1) + (u - LayerStart(f, k)) / f * (f * f) + Times(i, f) + u % f)
  {
    var c, j := LayerCount(n - 1, f), if v < u then v else v - 1;
    StartsAreStarts(f, c + 1);
    LocalityOf(Starts(f, c + 1), f, c, u, k);
    SameBlock(f, u, j);
    PeersInNumbers(f, k, u, j);
  }

  /** In a cluster that one layer can hold, everyone pushes to everyone else. */
  lemma SmallCluster(f: nat, n: nat, u: nat, v: nat)
    requires 1 <= f && 1 <= n <= f + 1 && u < n && v < n
    ensures Edge(f, n, u, v) <==> u != v
  {
  }

  ghost predicate IsPath(f: nat, n: nat, path: seq<nat>)
    requires f >= 1 && n >= 1
  {
    path != [] && forall i :: 0 <= i < |path| - 1 ==> Edge(f, n, path[i], path[i + 1])
  }

  lemma FirstLayerEdge(f: nat, n: nat, u: nat, v: nat)
    requires 1 <= f && u < f && u < n && v < n && v <= f && u != v
    ensures Edge(f, n, u, v)
  {
    if n - 1 > f {
      var c := LayerCount(n - 1, f);
      StartsAreStarts(f, c + 1);
      assert LayerStart(f, 1) == f by { PowNext(f, 0); }
      assert LayerStart(f, 0) == 0 && c >= 2;
      LocalityOf(Starts(f, c + 1), f, c, u, 0);
    }
  }

  /** The list of a parent lacks the parent itself, so its peer at `v - 1` is the node at position `v`. */
  lemma ParentEdge(f: nat, n: nat, v: nat) returns (u: nat)
    requires 1 <= f < v < n
    ensures u < v && Edge(f, n, u, v)
  {
    var c := LayerCount(n - 1, f);
    StartsAreStarts(f, c + 1);
    assert LayerStart(f, 1) == f by { PowNext(f, 0); }
    assert LayerStart(f, 0) == 0 && c >= 2;
    var k;
    k, u := ExactlyOneParent(Starts(f, c + 1), f, c, v - 1);
  }

  /** Pushing along neighbor and child edges from any of the first `fanout` positions reaches every node. */
  lemma {:induction false} EveryoneIsReached(f: nat, n: nat, s: nat, t: nat) returns (path: seq<nat>)
    requires 1 <= f && s < f && s < n && t < n
    ensures IsPath(f, n, path) && path[0] == s && path[|path| - 1] == t
    ensures forall i :: 0 <= i < |path| ==> path[i] < n
    decreases t
  {
    if t == s {
      path := [s];
    } else if t <= f {
      FirstLayerEdge(f, n, s, t);
      path := [s, t];
    } else {
      var u := ParentEdge(f, n, t);
      var before := EveryoneIsReached(f, n, s, u);
      path := before + [t];
    }
  }
}
