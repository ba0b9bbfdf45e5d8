/** Dividing the repair of a slot among the eligible repairmen. */
module Repair {
  import opened Common
  import opened Arithmetic

  /** The blobs of one repairman, handed out one by one. */
  class BlobIndexesToRepairIterator {
    const startIndex: nat
    const numBlobsToSend: nat
    const stepSize: nat
    const numBlobsInSlot: nat
    var blobsSent: nat

    constructor (startIndex: nat, numBlobsToSend: nat, stepSize: nat, numBlobsInSlot: nat)
      ensures this.startIndex == startIndex && this.numBlobsToSend == numBlobsToSend
      ensures this.stepSize == stepSize && this.numBlobsInSlot == numBlobsInSlot && blobsSent == 0
    {
      this.startIndex, this.numBlobsToSend := startIndex, numBlobsToSend;
      this.stepSize, this.numBlobsInSlot, blobsSent := stepSize, numBlobsInSlot, 0;
    }

    method Next() returns (index: Option<nat>)
      requires numBlobsInSlot > 0 && blobsSent <= numBlobsToSend
      modifies this
      ensures blobsSent <= numBlobsToSend
      ensures old(blobsSent) == numBlobsToSend ==> index == None && blobsSent == old(blobsSent)
      ensures old(blobsSent) < numBlobsToSend ==>
                && index == Some(IndexAt(startIndex, stepSize, numBlobsInSlot, old(blobsSent)))
                && index.value == (startIndex + Times(stepSize, old(blobsSent))) % numBlobsInSlot
                && blobsSent == old(blobsSent) + 1
    {
      if blobsSent == numBlobsToSend {
        return None;
      }
      index := Some(IndexAt(startIndex, stepSize, numBlobsInSlot, blobsSent));
      blobsSent := blobsSent + 1;
    }
  }

  function IndexAt(start: nat, step: nat, blobs: nat, i: nat): nat
    requires blobs > 0
  {
    (start + step * i) % blobs
  }

  // ---- The shares ----

  function CeilDiv(a: nat, b: nat): nat
    requires b > 0
  {
    (a + b - 1) / b
  }

  /** The least number of rounds in which `men` repairmen send `total` blobs. */
  lemma CeilDivCovers(total: nat, men: nat)
    requires men > 0
    ensures Times(CeilDiv(total, men), men) >= total
    ensures total > 0 ==> CeilDiv(total, men) > 0 && Times(CeilDiv(total, men) - 1, men) < total
  {
    var q, r := (total + men - 1) / men, (total + men - 1) % men;
    assert total + men - 1 == q * men + r;
    if q > 0 {
      assert (q - 1) * men == q * men - men;
    } else {
      assert q * men == 0;
    }
  }

  /** `share` is the least number that makes `men` repairmen cover `total`, but at most `cap`. */
  ghost predicate IsFairShare(share: nat, total: nat, men: nat, cap: nat) {
    && 1 <= share <= cap && Times(share - 1, men) < total
    && (share < cap ==> Times(share, men) >= total)
  }

  lemma FairShare(share: nat, c: nat, total: nat, men: nat, cap: nat)
    requires cap >= 1 && c >= 1 && Times(c - 1, men) < total <= Times(c, men) && share == Min(c, cap)
    ensures IsFairShare(share, total, men, cap)
  {
    MulMonotone(share - 1, c - 1, men);
  }

  /** How many repairmen take part. */
  function Repairmen(n: nat, blobs: nat, redundancy: nat): nat {
    Min(Times(blobs, redundancy), n)
  }

  /** How many blobs each of them sends. */
  function PerRepairman(n: nat, blobs: nat, redundancy: nat): nat
    requires n >= 1 && blobs >= 1 && redundancy >= 1
  {
    MulAtLeast(blobs, redundancy);
    Min(CeilDiv(Times(blobs, redundancy), Repairmen(n, blobs, redundancy)), blobs)
  }

  /** The blobs that the repairman at position `p` sends. */
  function Assigned(n: nat, blobs: nat, redundancy: nat, p: nat): seq<nat>
    requires n >= 1 && blobs >= 1 && redundancy >= 1
  {
    seq(PerRepairman(n, blobs, redundancy), (i: nat) => IndexAt(p % blobs, Repairmen(n, blobs, redundancy), blobs, i))
  }

  /** The share of one node, or none if it is not among the repairmen that take part. */
  method CalculateMyRepairmanIndexForSlot(me: Pubkey, eligible: seq<Pubkey>, blobs: nat, redundancy: nat)
    returns (share: BlobIndexesToRepairIterator?)
    requires eligible != [] && blobs >= 1 && redundancy >= 1
    ensures share == null <==> me !in eligible[..Repairmen(|eligible|, blobs, redundancy)]
    ensures share != null ==> fresh(share) && share.blobsSent == 0
    ensures share != null ==>
              exists p ::
                && 0 <= p < Repairmen(|eligible|, blobs, redundancy) && eligible[p] == me && me !in eligible[..p]
                && Assigned(|eligible|, blobs, redundancy, p) == Shares(share) && share.startIndex == p % blobs
    ensures share != null ==>
              && share.numBlobsInSlot == blobs
              && share.stepSize ==
                 (if Times(blobs, redundancy) < |eligible| then Times(blobs, redundancy) else |eligible|)
              && IsFairShare(share.numBlobsToSend, Times(blobs, redundancy), share.stepSize, blobs)
  {
    MulAtLeast(blobs, redundancy);
    var total := Times(blobs, redundancy);
    var repairmen := Min(total, |eligible|);
    var perRepairman := Min((total + repairmen - 1) / repairmen, blobs);
    CeilDivCovers(total, repairmen);
    FairShare(perRepairman, CeilDiv(total, repairmen), total, repairmen, blobs);
    for p := 0 to repairmen
      invariant me !in eligible[..p]
    {
      if eligible[p] == me {
        assert eligible[..repairmen][p] == me;
        share := new BlobIndexesToRepairIterator(p % blobs, perRepairman, repairmen, blobs);
        assert Assigned(|eligible|, blobs, redundancy, p) == Shares(share);
        return;
      }
    }
    share := null;
  }

  /** Everything an iterator hands out. */
  function Shares(it: BlobIndexesToRepairIterator): seq<nat> {
    seq(it.numBlobsToSend, (i: nat) =>
      if it.numBlobsInSlot == 0 then 0 else IndexAt(it.startIndex, it.stepSize, it.numBlobsInSlot, i))
  }

  /** Drains an iterator, as the repair loop does. */
  method Drain(it: BlobIndexesToRepairIterator) returns (indexes: seq<nat>)
    requires it.blobsSent == 0 && it.numBlobsInSlot > 0
    modifies it
    ensures indexes == Shares(it)
  {
    indexes := [];
    while true
      invariant it.blobsSent == |indexes| <= it.numBlobsToSend && indexes == Shares(it)[..|indexes|]
      decreases it.numBlobsToSend - |indexes|
    {
      var index := it.Next();
      if index.None? {
        break;
      }
      indexes := indexes + [index.value];
    }
  }

  // ---- Counting ----

  function Hit(x: nat, y: nat): nat {
    if x == y then 1 else 0
  }

  /** How often the first `m` natural numbers leave the remainder `x`. */
  ghost function Residues(m: nat, blobs: nat, x: nat): nat
    requires blobs > 0
  {
    if m == 0 then 0 else Residues(m - 1, blobs, x) + Hit((m - 1) % blobs, x)
  }

  lemma {:induction false} ResiduesClosed(m: nat, blobs: nat, x: nat)
    requires x < blobs
    ensures Residues(m, blobs, x) == m / blobs + if x < m % blobs then 1 else 0
  {
    if m == 0 {
      DivModUnique(0, blobs, 0, 0);
    } else {
      ResiduesClosed(m - 1, blobs, x);
      NextResidue(m - 1, blobs, x);
    }
  }

  lemma NextResidue(m: nat, blobs: nat, x: nat)
    requires x < blobs
    ensures (m + 1) / blobs + (if x < (m + 1) % blobs then 1 else 0)
            == m / blobs + (if x < m % blobs then 1 else 0) + Hit(m % blobs, x)
  {
    SuccDivMod(m, blobs);
  }

  lemma SuccDivMod(m: nat, b: nat)
    requires b > 0
    ensures m % b + 1 < b ==> (m + 1) / b == m / b && (m + 1) % b == m % b + 1
    ensures m % b + 1 == b ==> (m + 1) / b == m / b + 1 && (m + 1) % b == 0
  {
    assert m == b * (m / b) + m % b;
    if m % b + 1 < b {
      DivModUnique(m + 1, b, m / b, m % b + 1);
    } else {
      assert m + 1 == b * (m / b) + b == b * (m / b + 1);
      DivModUnique(m + 1, b, m / b + 1, 0);
    }
  }

  ghost function CountIn(s: seq<nat>, x: nat): nat {
    if s == [] then 0 else CountIn(s[..|s| - 1], x) + Hit(s[|s| - 1], x)
  }

  ghost function PlacesOf(s: seq<nat>, x: nat): set<int> {
    set i | 0 <= i < |s| && s[i] == x
  }

  lemma {:induction false} CountInIsCounted(s: seq<nat>, x: nat)
    ensures CountIn(s, x) == |PlacesOf(s, x)|
  {
    if s == [] {
      assert PlacesOf(s, x) == {};
    } else {
      var n, front := |s| - 1, s[..|s| - 1];
      CountInIsCounted(front, x);
      assert PlacesOf(s, x) == PlacesOf(front, x) + if s[n] == x then {n} else {};
    }
  }

  /** How often blob `x` is sent by the first `m` repairmen together. */
  ghost function HitsUpTo(n: nat, blobs: nat, redundancy: nat, m: nat, x: nat): nat
    requires n >= 1 && blobs >= 1 && redundancy >= 1
  {
    if m == 0 then 0
    else HitsUpTo(n, blobs, redundancy, m - 1, x) + CountIn(Assigned(n, blobs, redundancy, m - 1), x)
  }

  /** How often blob `x` is sent. */
  ghost function Hits(n: nat, blobs: nat, redundancy: nat, x: nat): nat
    requires n >= 1 && blobs >= 1 && redundancy >= 1
  {
    HitsUpTo(n, blobs, redundancy, Repairmen(n, blobs, redundancy), x)
  }

  /** Round `i` of repairman `p` sends number `p + step * i`, counted around the slot. */
  function Number(p: nat, step: nat, i: nat): nat {
    p + Times(step, i)
  }

  ghost function Row(p: nat, step: nat, blobs: nat, rounds: nat, x: nat): nat
    requires blobs > 0
  {
    if rounds == 0 then 0 else Row(p, step, blobs, rounds - 1, x) + Hit(Number(p, step, rounds - 1) % blobs, x)
  }

  ghost function Rows(m: nat, step: nat, blobs: nat, rounds: nat, x: nat): nat
    requires blobs > 0
  {
    if m == 0 then 0 else Rows(m - 1, step, blobs, rounds, x) + Row(m - 1, step, blobs, rounds, x)
  }

  lemma ModAdd(p: nat, y: nat, b: nat)
    requires b > 0
    ensures (p % b + y) % b == (p + y) % b
  {
    var q, r := (p % b + y) / b, (p % b + y) % b;
    assert p == b * (p / b) + p % b;
    assert p + y == (q + p / b) * b + r by {
      assert (q + p / b) * b == q * b + (p / b) * b;
    }
    DivModUnique(p + y, b, q + p / b, r);
  }

  lemma {:induction false} RowCounts(p: nat, step: nat, blobs: nat, rounds: nat, x: nat, s: seq<nat>)
    requires blobs > 0 && |s| == rounds && forall i :: 0 <= i < rounds ==> s[i] == IndexAt(p % blobs, step, blobs, i)
    ensures CountIn(s, x) == Row(p, step, blobs, rounds, x)
  {
    if rounds > 0 {
      RowCounts(p, step, blobs, rounds - 1, x, s[..rounds - 1]);
      ModAdd(p, step * (rounds - 1), blobs);
    }
  }

  lemma {:induction false} HitsAreRows(n: nat, blobs: nat, redundancy: nat, m: nat, x: nat)
    requires n >= 1 && blobs >= 1 && redundancy >= 1
    ensures HitsUpTo(n, blobs, redundancy, m, x)
            == Rows(m, Repairmen(n, blobs, redundancy), blobs, PerRepairman(n, blobs, redundancy), x)
  {
    if m > 0 {
      HitsAreRows(n, blobs, redundancy, m - 1, x);
      RowCounts(m - 1, Repairmen(n, blobs, redundancy), blobs, PerRepairman(n, blobs, redundancy), x,
                Assigned(n, blobs, redundancy, m - 1));
    }
  }

  /** One more round of all repairmen sends one more stretch of consecutive numbers. */
  lemma {:induction false} OneMoreRound(m: nat, step: nat, blobs: nat, rounds: nat, x: nat)
    requires blobs > 0
    ensures Rows(m, step, blobs, rounds + 1, x) + Residues(Times(step, rounds), blobs, x)
            == Rows(m, step, blobs, rounds, x) + Residues(Number(m, step, rounds), blobs, x)
  {
    if m > 0 {
      OneMoreRound(m - 1, step, blobs, rounds, x);
    }
  }

  /** All rounds of all repairmen together send every number below `step * rounds` once. */
  lemma {:induction false} RowsAreResidues(step: nat, blobs: nat, rounds: nat, x: nat)
    requires blobs > 0
    ensures Rows(step, step, blobs, rounds, x) == Residues(Times(step, rounds), blobs, x)
  {
    if rounds == 0 {
      NoRounds(step, step, blobs, x);
    } else {
      RowsAreResidues(step, blobs, rounds - 1, x);
      OneMoreRound(step, step, blobs, rounds - 1, x);
      assert step + step * (rounds - 1) == step * rounds;
    }
  }

  lemma {:induction false} NoRounds(m: nat, step: nat, blobs: nat, x: nat)
    requires blobs > 0
    ensures Rows(m, step, blobs, 0, x) == 0
  {
    if m > 0 {
      NoRounds(m - 1, step, blobs, x);
    }
  }

  /** How many blobs are sent in all. */
  function Sent(n: nat, blobs: nat, redundancy: nat): nat
    requires n >= 1 && blobs >= 1 && redundancy >= 1
  {
    Times(Repairmen(n, blobs, redundancy), PerRepairman(n, blobs, redundancy))
  }

  /** The work is spread evenly: any two blobs are sent equally often, up to one. */
  lemma HitsAreEven(n: nat, blobs: nat, redundancy: nat, x: nat)
    requires n >= 1 && blobs >= 1 && redundancy >= 1 && x < blobs
    ensures var sent := Sent(n, blobs, redundancy);
            Hits(n, blobs, redundancy, x) == sent / blobs + if x < sent % blobs then 1 else 0
  {
    HitsAreRows(n, blobs, redundancy, Repairmen(n, blobs, redundancy), x);
    RowsAreResidues(Repairmen(n, blobs, redundancy), blobs, PerRepairman(n, blobs, redundancy), x);
    ResiduesClosed(Sent(n, blobs, redundancy), blobs, x);
  }

  // ---- How often each blob is sent ----

  lemma CeilDivBounds(a: nat, b: nat)
    requires b > 0
    ensures a <= b * CeilDiv(a, b) <= a + b - 1
  {
    var c := a + b - 1;
    assert c == b * (c / b) + c % b;
  }

  lemma MulCompare(n: nat, c: nat, d: nat)
    requires n >= 1
    ensures c <= d <==> n * c <= n * d
  {
    if c <= d {
      MulMonotone(c, d, n);
    } else {
      MulMonotone(d + 1, c, n);
      assert n * (d + 1) == n * d + n;
    }
  }

  /** The total that is sent, in the three cases the shares distinguish. */
  lemma SentByMany(n: nat, blobs: nat, redundancy: nat)
    requires blobs >= 1 && redundancy >= 1 && n >= blobs * redundancy && n >= 1
    ensures Sent(n, blobs, redundancy) == blobs * redundancy
  {
    var total := blobs * redundancy;
    MulAtLeast(blobs, redundancy);
    DivModUnique(total + total - 1, total, 1, total - 1);
  }

  lemma SentByFew(n: nat, blobs: nat, redundancy: nat)
    requires n >= 1 && blobs >= 1 && n < redundancy
    ensures Sent(n, blobs, redundancy) == blobs * n
  {
    var total := blobs * redundancy;
    MulAtLeast(blobs, redundancy);
    CeilDivBounds(total, n);
    MulMonotone(n, redundancy, blobs);
    MulCompare(n, blobs, CeilDiv(total, n));
  }

  lemma SentBetween(n: nat, blobs: nat, redundancy: nat)
    requires 1 <= redundancy <= n < blobs * redundancy && blobs >= 1
    ensures Sent(n, blobs, redundancy) == n * CeilDiv(blobs * redundancy, n)
  {
    SmallShare(n, blobs, redundancy);
  }

  lemma SmallShare(n: nat, blobs: nat, redundancy: nat)
    requires n >= 1 && blobs >= 1 && redundancy <= n
    ensures CeilDiv(blobs * redundancy, n) <= blobs
  {
    var c := CeilDiv(blobs * redundancy, n);
    CeilDivBounds(blobs * redundancy, n);
    MulMonotone(redundancy, n, blobs);
    if c > blobs {
      MulMonotone(blobs + 1, c, n);
    }
  }

  lemma SentAtLeast(n: nat, blobs: nat, redundancy: nat)
    requires n >= 1 && blobs >= 1 && redundancy >= 1
    ensures Sent(n, blobs, redundancy) >= blobs * Min(n, redundancy)
  {
    MulAtLeast(blobs, redundancy);
    if n >= blobs * redundancy {
      SentByMany(n, blobs, redundancy);
    } else if n < redundancy {
      SentByFew(n, blobs, redundancy);
    } else {
      SentBetween(n, blobs, redundancy);
      CeilDivBounds(blobs * redundancy, n);
    }
  }

  lemma DivAtLeast(a: nat, b: nat, q: nat)
    requires b > 0 && a >= b * q
    ensures a / b >= q
  {
    assert a == b * (a / b) + a % b;
    if a / b < q {
      MulMonotone(a / b + 1, q, b);
    }
  }

  /** Every blob is sent at least `redundancy` times, or once by everybody if there are fewer repairmen. */
  lemma EveryBlobIsSent(n: nat, blobs: nat, redundancy: nat, x: nat)
    requires n >= 1 && blobs >= 1 && redundancy >= 1 && x < blobs
    ensures Hits(n, blobs, redundancy, x) >= Min(n, redundancy)
  {
    HitsAreEven(n, blobs, redundancy, x);
    SentAtLeast(n, blobs, redundancy);
    DivAtLeast(Sent(n, blobs, redundancy), blobs, Min(n, redundancy));
  }

  /** No blob is sent more than one time too often. */
  ghost predicate WithinCeiling(n: nat, blobs: nat, redundancy: nat)
    requires n >= 1 && blobs >= 1 && redundancy >= 1
  {
    forall x :: 0 <= x < blobs ==> Hits(n, blobs, redundancy, x) <= Min(n, redundancy) + 1
  }

  lemma CeilingMeansSent(n: nat, blobs: nat, redundancy: nat)
    requires n >= 1 && blobs >= 1 && redundancy >= 1
    ensures WithinCeiling(n, blobs, redundancy) <==> Sent(n, blobs, redundancy) <= blobs * (Min(n, redundancy) + 1)
  {
    var sent, q := Sent(n, blobs, redundancy), Min(n, redundancy) + 1;
    if sent <= blobs * q {
      forall x | 0 <= x < blobs ensures Hits(n, blobs, redundancy, x) <= q {
        HitsAreEven(n, blobs, redundancy, x);
        CeilAtMost(sent, blobs, q, x);
      }
    } else {
      HitsAreEven(n, blobs, redundancy, 0);
      CeilAbove(sent, blobs, q);
      assert Hits(n, blobs, redundancy, 0) > q;
    }
  }

  lemma OneMoreCopy(b: nat, q: nat)
    ensures b * q <= b * (q + 1)
  {
    assert b * (q + 1) == b * q + b;
  }

  lemma CeilingForMany(n: nat, blobs: nat, redundancy: nat)
    requires n >= 1 && blobs >= 1 && redundancy >= 1 && n >= blobs * redundancy
    ensures WithinCeiling(n, blobs, redundancy)
  {
    CeilingMeansSent(n, blobs, redundancy);
    SentByMany(n, blobs, redundancy);
    MulAtLeast(blobs, redundancy);
    assert Min(n, redundancy) == redundancy;
    OneMoreCopy(blobs, redundancy);
  }

  lemma CeilingForFew(n: nat, blobs: nat, redundancy: nat)
    requires n >= 1 && blobs >= 1 && n < redundancy
    ensures WithinCeiling(n, blobs, redundancy)
  {
    CeilingMeansSent(n, blobs, redundancy);
    SentByFew(n, blobs, redundancy);
    OneMoreCopy(blobs, n);
  }

  /** The documented ceiling holds exactly when the rounded-up shares add up to at most one spare copy of the slot. */
  lemma CeilingCondition(n: nat, blobs: nat, redundancy: nat)
    requires n >= 1 && blobs >= 1 && redundancy >= 1
    ensures WithinCeiling(n, blobs, redundancy) <==>
              var total := Times(blobs, redundancy);
              n >= total || n < redundancy || Times(n, CeilDiv(total, n)) <= Times(blobs, redundancy + 1)
  {
    if n < redundancy {
      CeilingForFew(n, blobs, redundancy);
    } else if n >= Times(blobs, redundancy) {
      CeilingForMany(n, blobs, redundancy);
    } else {
      CeilingMeansSent(n, blobs, redundancy);
      SentBetween(n, blobs, redundancy);
    }
  }

  lemma CeilAtMost(a: nat, b: nat, q: nat, x: nat)
    requires b > 0 && a <= b * q
    ensures a / b + (if x < a % b then 1 else 0) <= q
  {
    assert a == b * (a / b) + a % b;
    if a / b >= q {
      MulMonotone(q, a / b, b);
      if a / b > q {
        MulMonotone(q + 1, a / b, b);
      }
    }
  }

  lemma CeilAbove(a: nat, b: nat, q: nat)
    requires b > 0 && a > b * q
    ensures a / b + (if 0 < a % b then 1 else 0) > q
  {
    assert a == b * (a / b) + a % b;
    DivAtLeast(a, b, q);
  }

  /** In particular with no more repairmen than blobs, with enough for one copy each, and for a redundancy of one. */
  lemma CeilingInPractice(n: nat, blobs: nat, redundancy: nat)
    requires n >= 1 && blobs >= 1 && redundancy >= 1
    requires n <= blobs || n >= blobs * redundancy || redundancy == 1
    ensures WithinCeiling(n, blobs, redundancy)
  {
    CeilingCondition(n, blobs, redundancy);
    CeilDivBounds(Times(blobs, redundancy), n);
    assert Times(blobs, redundancy + 1) == Times(blobs, redundancy) + blobs;
  }

  // ---- How many different repairmen a blob has ----

  /** How many of the first `m` repairmen are responsible for blob `x`. */
  ghost function HoldersUpTo(n: nat, blobs: nat, redundancy: nat, m: nat, x: nat): nat
    requires n >= 1 && blobs >= 1 && redundancy >= 1
  {
    if m == 0 then 0
    else HoldersUpTo(n, blobs, redundancy, m - 1, x) + if x in Assigned(n, blobs, redundancy, m - 1) then 1 else 0
  }

  ghost function Holders(n: nat, blobs: nat, redundancy: nat, x: nat): nat
    requires n >= 1 && blobs >= 1 && redundancy >= 1
  {
    HoldersUpTo(n, blobs, redundancy, Repairmen(n, blobs, redundancy), x)
  }

  /** No repairman comes back to a blob: no number of rounds short of a full share goes around the slot evenly. */
  /** The repairmen that are responsible for blob `x`. */
  ghost function HoldersOf(n: nat, blobs: nat, redundancy: nat, m: nat, x: nat): set<int>
    requires n >= 1 && blobs >= 1 && redundancy >= 1
  {
    set p | 0 <= p < m && x in Assigned(n, blobs, redundancy, p)
  }

  lemma {:induction false} HoldersAreCounted(n: nat, blobs: nat, redundancy: nat, m: nat, x: nat)
    requires n >= 1 && blobs >= 1 && redundancy >= 1
    ensures HoldersUpTo(n, blobs, redundancy, m, x) == |HoldersOf(n, blobs, redundancy, m, x)|
  {
    if m == 0 {
      assert HoldersOf(n, blobs, redundancy, m, x) == {};
    } else {
      HoldersAreCounted(n, blobs, redundancy, m - 1, x);
      assert HoldersOf(n, blobs, redundancy, m, x) ==
        HoldersOf(n, blobs, redundancy, m - 1, x) +
        if x in Assigned(n, blobs, redundancy, m - 1) then {m - 1} else {};
    }
  }

  ghost predicate NoRepeats(n: nat, blobs: nat, redundancy: nat)
    requires n >= 1 && blobs >= 1 && redundancy >= 1
  {
    forall d :: 0 < d < PerRepairman(n, blobs, redundancy) ==>
      Number(0, Repairmen(n, blobs, redundancy), d) % blobs != 0
  }

  lemma SameRemainder(a: nat, y: nat, b: nat)
    requires b > 0
    ensures (a + y) % b == a % b <==> y % b == 0
  {
    var q := a / b;
    assert a == q * b + a % b;
    assert y == (y / b) * b + y % b;
    if y % b == 0 {
      assert (q + y / b) * b == q * b + (y / b) * b;
      DivModUnique(a + y, b, q + y / b, a % b);
    } else if (a + y) % b == a % b {
      var t := (a + y) / b;
      assert a + y == t * b + a % b;
      assert (t - q) * b == t * b - q * b;
      DivModUnique(y, b, t - q, 0);
    }
  }

  lemma NumbersMeet(a: nat, step: nat, blobs: nat, i: nat, j: nat)
    requires blobs > 0 && i < j
    ensures (a + Times(step, i)) % blobs == (a + Times(step, j)) % blobs <==> Times(step, j - i) % blobs == 0
  {
    assert Times(step, j) == Times(step, i) + Times(step, j - i) by {
      assert step * j == step * i + step * (j - i);
    }
    SameRemainder(a + Times(step, i), Times(step, j - i), blobs);
  }

  lemma IndexesMeet(n: nat, blobs: nat, redundancy: nat, p: nat, i: nat, j: nat)
    requires n >= 1 && blobs >= 1 && redundancy >= 1 && i < j < PerRepairman(n, blobs, redundancy)
    ensures Assigned(n, blobs, redundancy, p)[i] == Assigned(n, blobs, redundancy, p)[j]
            <==> Number(0, Repairmen(n, blobs, redundancy), j - i) % blobs == 0
  {
    NumbersMeet(p % blobs, Repairmen(n, blobs, redundancy), blobs, i, j);
  }

  /** Shares are free of repetition exactly under that condition. */
  lemma SharesAreDistinct(n: nat, blobs: nat, redundancy: nat, p: nat)
    requires n >= 1 && blobs >= 1 && redundancy >= 1
    ensures NoDuplicates(Assigned(n, blobs, redundancy, p)) <==> NoRepeats(n, blobs, redundancy)
  {
    var share := Assigned(n, blobs, redundancy, p);
    if NoRepeats(n, blobs, redundancy) {
      forall i, j | 0 <= i < j < |share| ensures share[i] != share[j] {
        IndexesMeet(n, blobs, redundancy, p, i, j);
      }
    }
    if NoDuplicates(share) {
      forall d | 0 < d < PerRepairman(n, blobs, redundancy)
        ensures Number(0, Repairmen(n, blobs, redundancy), d) % blobs != 0
      {
        IndexesMeet(n, blobs, redundancy, p, 0, d);
      }
    }
  }

  lemma {:induction false} CountDistinct(s: seq<nat>, x: nat)
    requires NoDuplicates(s)
    ensures CountIn(s, x) == if x in s then 1 else 0
  {
    if s != [] {
      CountDistinct(s[..|s| - 1], x);
      Snoc(s);
    }
  }

  lemma {:induction false} HoldersAreHitsUpTo(n: nat, blobs: nat, redundancy: nat, m: nat, x: nat)
    requires n >= 1 && blobs >= 1 && redundancy >= 1 && NoRepeats(n, blobs, redundancy)
    ensures HoldersUpTo(n, blobs, redundancy, m, x) == HitsUpTo(n, blobs, redundancy, m, x)
  {
    if m > 0 {
      HoldersAreHitsUpTo(n, blobs, redundancy, m - 1, x);
      SharesAreDistinct(n, blobs, redundancy, m - 1);
      CountDistinct(Assigned(n, blobs, redundancy, m - 1), x);
    }
  }

  lemma {:induction false} CountMembers(s: seq<nat>, x: nat)
    ensures CountIn(s, x) >= if x in s then 1 else 0
  {
    if s != [] {
      CountMembers(s[..|s| - 1], x);
      Snoc(s);
    }
  }

  lemma {:induction false} CountTwice(s: seq<nat>, i: nat, j: nat)
    requires i < j < |s| && s[i] == s[j]
    ensures CountIn(s, s[i]) >= 2
  {
    var front := s[..|s| - 1];
    if j < |front| {
      CountTwice(front, i, j);
    } else {
      assert front[i] in front;
      CountMembers(front, s[i]);
    }
  }

  /** A blob has no more repairmen than it is sent times, and fewer once the first of them sends it twice. */
  lemma {:induction false} HoldersAtMostHits(n: nat, blobs: nat, redundancy: nat, m: nat, x: nat)
    requires n >= 1 && blobs >= 1 && redundancy >= 1
    ensures HoldersUpTo(n, blobs, redundancy, m, x) <= HitsUpTo(n, blobs, redundancy, m, x)
    ensures m > 0 && CountIn(Assigned(n, blobs, redundancy, 0), x) >= 2 ==>
              HoldersUpTo(n, blobs, redundancy, m, x) < HitsUpTo(n, blobs, redundancy, m, x)
  {
    if m > 0 {
      HoldersAtMostHits(n, blobs, redundancy, m - 1, x);
      CountMembers(Assigned(n, blobs, redundancy, m - 1), x);
    }
  }

  /** Every blob has as many different repairmen as it is sent times exactly if no repairman comes back to a blob. */
  lemma HoldersAreHits(n: nat, blobs: nat, redundancy: nat)
    requires n >= 1 && blobs >= 1 && redundancy >= 1
    ensures (forall x :: 0 <= x < blobs ==> Holders(n, blobs, redundancy, x) == Hits(n, blobs, redundancy, x))
            <==> NoRepeats(n, blobs, redundancy)
  {
    var share, m := Assigned(n, blobs, redundancy, 0), Repairmen(n, blobs, redundancy);
    if NoRepeats(n, blobs, redundancy) {
      forall x | 0 <= x < blobs ensures Holders(n, blobs, redundancy, x) == Hits(n, blobs, redundancy, x) {
        HoldersAreHitsUpTo(n, blobs, redundancy, m, x);
      }
    } else {
      SharesAreDistinct(n, blobs, redundancy, 0);
      var i, j :| 0 <= i < j < |share| && share[i] == share[j];
      CountTwice(share, i, j);
      MulAtLeast(blobs, redundancy);
      HoldersAtMostHits(n, blobs, redundancy, m, share[i]);
      assert Holders(n, blobs, redundancy, share[i]) != Hits(n, blobs, redundancy, share[i]);
    }
  }

  // ---- When the documented promise is kept ----

  /** Each blob is the responsibility of `redundancy` or `redundancy + 1` repairmen. */
  ghost predicate Promise(n: nat, blobs: nat, redundancy: nat)
    requires n >= 1 && blobs >= 1 && redundancy >= 1
  {
    forall x :: 0 <= x < blobs ==> redundancy <= Holders(n, blobs, redundancy, x) <= redundancy + 1
  }

  /** In words: each blob is the responsibility of `redundancy` or one more of the repairmen that take part. */
  lemma PromiseInWords(n: nat, blobs: nat, redundancy: nat)
    requires n >= 1 && blobs >= 1 && redundancy >= 1
    ensures Promise(n, blobs, redundancy) <==>
              forall x :: 0 <= x < blobs ==>
                redundancy <= |HoldersOf(n, blobs, redundancy, Repairmen(n, blobs, redundancy), x)| <= redundancy + 1
  {
    forall x | 0 <= x < blobs
      ensures Holders(n, blobs, redundancy, x) ==
                |HoldersOf(n, blobs, redundancy, Repairmen(n, blobs, redundancy), x)|
    {
      HoldersAreCounted(n, blobs, redundancy, Repairmen(n, blobs, redundancy), x);
    }
  }

  /**
   There are enough repairmen, none comes back to a blob, and either there is a repairman for every copy or the
   rounded-up shares add up to no more than one copy of the slot too many.
   */
  ghost predicate CanKeepPromise(n: nat, blobs: nat, redundancy: nat)
    requires n >= 1 && blobs >= 1 && redundancy >= 1
  {
    var total := Times(blobs, redundancy);
    && n >= redundancy && NoRepeats(n, blobs, redundancy)
    && (n >= total || Times(n, CeilDiv(total, n)) <= Times(blobs, redundancy + 1))
  }

  /** How many of the blobs below `b` are in `s`. */
  ghost function Members(s: seq<nat>, b: nat): nat {
    if b == 0 then 0 else Members(s, b - 1) + if b - 1 in s then 1 else 0
  }

  lemma {:induction false} MembersOfMore(s: seq<nat>, t: seq<nat>, b: nat)
    requires forall x :: x in s ==> x in t
    ensures Members(s, b) <= Members(t, b)
  {
    if b > 0 {
      MembersOfMore(s, t, b - 1);
    }
  }

  lemma {:induction false} MembersSnoc(s: seq<nat>, x: nat, b: nat)
    ensures Members(s + [x], b) <= Members(s, b) + if x < b then 1 else 0
  {
    if b > 0 {
      MembersSnoc(s, x, b - 1);
    }
  }

  lemma {:induction false} MembersAtMost(s: seq<nat>, b: nat)
    ensures Members(s, b) <= |s|
  {
    if s == [] {
      NoMembers(b);
    } else {
      MembersAtMost(s[..|s| - 1], b);
      MembersSnoc(s[..|s| - 1], s[|s| - 1], b);
      Snoc(s);
    }
  }

  lemma {:induction false} NoMembers(b: nat)
    ensures Members([], b) == 0
  {
    if b > 0 {
      NoMembers(b - 1);
    }
  }

  /** If `d` rounds go around the slot evenly, a repairman sends nothing new after them. */
  lemma {:induction false} ShareRepeats(n: nat, blobs: nat, redundancy: nat, p: nat, d: nat, i: nat)
    requires n >= 1 && blobs >= 1 && redundancy >= 1 && 0 < d && i < PerRepairman(n, blobs, redundancy)
    requires d < PerRepairman(n, blobs, redundancy) && Number(0, Repairmen(n, blobs, redundancy), d) % blobs == 0
    ensures Assigned(n, blobs, redundancy, p)[i] in Assigned(n, blobs, redundancy, p)[..d]
  {
    var share := Assigned(n, blobs, redundancy, p);
    if i < d {
      assert share[..d][i] == share[i];
    } else {
      IndexesMeet(n, blobs, redundancy, p, i - d, i);
      ShareRepeats(n, blobs, redundancy, p, d, i - d);
    }
  }

  lemma ShareHasFewBlobs(n: nat, blobs: nat, redundancy: nat, p: nat, d: nat)
    requires n >= 1 && blobs >= 1 && redundancy >= 1
    requires 0 < d < PerRepairman(n, blobs, redundancy) && Number(0, Repairmen(n, blobs, redundancy), d) % blobs == 0
    ensures Members(Assigned(n, blobs, redundancy, p), blobs) <= d
  {
    var share := Assigned(n, blobs, redundancy, p);
    forall x | x in share ensures x in share[..d] {
      var i :| 0 <= i < |share| && share[i] == x;
      ShareRepeats(n, blobs, redundancy, p, d, i);
    }
    MembersOfMore(share, share[..d], blobs);
    MembersAtMost(share[..d], blobs);
  }

  /** The responsibilities of the first `m` repairmen for the blobs below `b`, counted together. */
  ghost function HolderSum(n: nat, blobs: nat, redundancy: nat, m: nat, b: nat): nat
    requires n >= 1 && blobs >= 1 && redundancy >= 1
  {
    if b == 0 then 0
    else HolderSum(n, blobs, redundancy, m, b - 1) + HoldersUpTo(n, blobs, redundancy, m, b - 1)
  }

  lemma {:induction false} HolderSumNext(n: nat, blobs: nat, redundancy: nat, m: nat, b: nat)
    requires n >= 1 && blobs >= 1 && redundancy >= 1
    ensures HolderSum(n, blobs, redundancy, m + 1, b)
            == HolderSum(n, blobs, redundancy, m, b) + Members(Assigned(n, blobs, redundancy, m), b)
  {
    if b > 0 {
      HolderSumNext(n, blobs, redundancy, m, b - 1);
    }
  }

  lemma {:induction false} HolderSumOfNone(n: nat, blobs: nat, redundancy: nat, b: nat)
    requires n >= 1 && blobs >= 1 && redundancy >= 1
    ensures HolderSum(n, blobs, redundancy, 0, b) == 0
  {
    if b > 0 {
      HolderSumOfNone(n, blobs, redundancy, b - 1);
    }
  }

  lemma {:induction false} FewHolders(n: nat, blobs: nat, redundancy: nat, m: nat, d: nat)
    requires n >= 1 && blobs >= 1 && redundancy >= 1
    requires 0 < d < PerRepairman(n, blobs, redundancy) && Number(0, Repairmen(n, blobs, redundancy), d) % blobs == 0
    ensures HolderSum(n, blobs, redundancy, m, blobs) <= Times(m, d)
  {
    if m == 0 {
      HolderSumOfNone(n, blobs, redundancy, blobs);
    } else {
      FewHolders(n, blobs, redundancy, m - 1, d);
      HolderSumNext(n, blobs, redundancy, m - 1, blobs);
      ShareHasFewBlobs(n, blobs, redundancy, m - 1, d);
      assert m * d == (m - 1) * d + d;
    }
  }

  lemma {:induction false} ManyHolders(n: nat, blobs: nat, redundancy: nat, m: nat, b: nat)
    requires n >= 1 && blobs >= 1 && redundancy >= 1
    requires forall x :: 0 <= x < b ==> HoldersUpTo(n, blobs, redundancy, m, x) >= redundancy
    ensures HolderSum(n, blobs, redundancy, m, b) >= Times(b, redundancy)
  {
    if b > 0 {
      ManyHolders(n, blobs, redundancy, m, b - 1);
      assert b * redundancy == (b - 1) * redundancy + redundancy;
    }
  }

  /** Fewer than a full share for each repairman do not make the copies that are wanted. */
  lemma RoundsFallShort(total: nat, m: nat, per: nat, d: nat)
    requires m >= 1 && per <= CeilDiv(total, m) && d < per
    ensures Times(m, d) < total
  {
    CeilDivBounds(total, m);
    MulMonotone(d + 1, CeilDiv(total, m), m);
    assert (d + 1) * m == m * d + m;
  }

  /** A repairman that comes back to a blob leaves some blob with too few of them. */
  lemma PromiseMeansNoRepeats(n: nat, blobs: nat, redundancy: nat)
    requires n >= 1 && blobs >= 1 && redundancy >= 1 && Promise(n, blobs, redundancy)
    ensures NoRepeats(n, blobs, redundancy)
  {
    var m := Repairmen(n, blobs, redundancy);
    MulAtLeast(blobs, redundancy);
    forall d | 0 < d < PerRepairman(n, blobs, redundancy) ensures Number(0, m, d) % blobs != 0 {
      if Number(0, m, d) % blobs == 0 {
        FewHolders(n, blobs, redundancy, m, d);
        forall x | 0 <= x < blobs ensures HoldersUpTo(n, blobs, redundancy, m, x) >= redundancy {
          assert redundancy <= Holders(n, blobs, redundancy, x);
        }
        ManyHolders(n, blobs, redundancy, m, blobs);
        RoundsFallShort(Times(blobs, redundancy), m, PerRepairman(n, blobs, redundancy), d);
      }
    }
  }

  lemma {:induction false} HoldersAtMost(n: nat, blobs: nat, redundancy: nat, m: nat, x: nat)
    requires n >= 1 && blobs >= 1 && redundancy >= 1
    ensures HoldersUpTo(n, blobs, redundancy, m, x) <= m
  {
    if m > 0 {
      HoldersAtMost(n, blobs, redundancy, m - 1, x);
    }
  }

  lemma PromiseMeansCan(n: nat, blobs: nat, redundancy: nat)
    requires n >= 1 && blobs >= 1 && redundancy >= 1 && Promise(n, blobs, redundancy)
    ensures CanKeepPromise(n, blobs, redundancy)
  {
    HoldersAtMost(n, blobs, redundancy, Repairmen(n, blobs, redundancy), 0);
    assert redundancy <= Holders(n, blobs, redundancy, 0) <= n;
    PromiseMeansNoRepeats(n, blobs, redundancy);
    HoldersAreHits(n, blobs, redundancy);
    forall x | 0 <= x < blobs ensures Hits(n, blobs, redundancy, x) <= Min(n, redundancy) + 1 {
      assert Holders(n, blobs, redundancy, x) <= redundancy + 1;
    }
    CeilingCondition(n, blobs, redundancy);
  }

  lemma CanMeansPromise(n: nat, blobs: nat, redundancy: nat)
    requires n >= 1 && blobs >= 1 && redundancy >= 1 && CanKeepPromise(n, blobs, redundancy)
    ensures Promise(n, blobs, redundancy)
  {
    HoldersAreHits(n, blobs, redundancy);
    CeilingCondition(n, blobs, redundancy);
    forall x | 0 <= x < blobs ensures redundancy <= Holders(n, blobs, redundancy, x) <= redundancy + 1 {
      EveryBlobIsSent(n, blobs, redundancy, x);
      assert Hits(n, blobs, redundancy, x) <= Min(n, redundancy) + 1;
    }
  }

  /** The documented promise is kept exactly under that condition. */
  lemma PromiseCondition(n: nat, blobs: nat, redundancy: nat)
    requires n >= 1 && blobs >= 1 && redundancy >= 1
    ensures Promise(n, blobs, redundancy) <==> CanKeepPromise(n, blobs, redundancy)
  {
    if Promise(n, blobs, redundancy) {
      PromiseMeansCan(n, blobs, redundancy);
    }
    if CanKeepPromise(n, blobs, redundancy) {
      CanMeansPromise(n, blobs, redundancy);
    }
  }

  /** With the redundancy of one that is in use, every blob is the responsibility of one or two repairmen. */
  lemma OneOrTwoRepairmen(n: nat, blobs: nat)
    requires n >= 1 && blobs >= 1
    ensures Promise(n, blobs, 1)
  {
    NoRepeatsForOne(n, blobs);
    CeilDivBounds(Times(blobs, 1), n);
    PromiseCondition(n, blobs, 1);
  }

  lemma NoRepeatsForOne(n: nat, blobs: nat)
    requires n >= 1 && blobs >= 1
    ensures NoRepeats(n, blobs, 1)
  {
    var step, per := Repairmen(n, blobs, 1), PerRepairman(n, blobs, 1);
    forall d | 0 < d < per ensures Number(0, step, d) % blobs != 0 {
      RoundsStayInside(blobs, step, d);
      DivModUnique(step * d, blobs, 0, step * d);
    }
  }

  lemma RoundsStayInside(blobs: nat, step: nat, d: nat)
    requires step >= 1 && 0 < d < CeilDiv(blobs, step)
    ensures 0 < step * d < blobs
  {
    var c := CeilDiv(blobs, step);
    CeilDivBounds(blobs, step);
    MulAtLeast(step, d);
    MulMonotone(d + 1, c, step);
    assert (d + 1) * step == step * d + step;
  }

  /** Five repairmen, two blobs, redundancy three: some blob has too many repairmen. */
  lemma CeilingCanFail()
    ensures !WithinCeiling(5, 2, 3) && !Promise(5, 2, 3)
  {
    CeilingCondition(5, 2, 3);
    PromiseCondition(5, 2, 3);
  }

  /** Two repairmen, two blobs, redundancy two: a repairman sends the same blob twice, so blobs have too few of them. */
  lemma RepetitionCanHappen()
    ensures WithinCeiling(2, 2, 2) && !NoRepeats(2, 2, 2) && !Promise(2, 2, 2)
  {
    var n: nat :| n == 2;
    CeilingCondition(n, n, n);
    assert PerRepairman(n, n, n) == 2 && Number(0, Repairmen(n, n, n), 1) % n == 0;
    PromiseCondition(n, n, n);
  }

  /** One repairman, one blob, redundancy two: nothing is sent too often, but there are too few repairmen. */
  lemma TooFewRepairmen()
    ensures WithinCeiling(1, 1, 2) && !Promise(1, 1, 2)
  {
    CeilingCondition(1, 1, 2);
    PromiseCondition(1, 1, 2);
  }
}
