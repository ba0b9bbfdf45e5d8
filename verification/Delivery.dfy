/** Whole runs of the ledger store: what holds after any sequence of batches, and that delivery order is immaterial. */
module Delivery {
  import opened Common
  import opened Staging
  import opened Chaining
  import opened Ledger
  import opened Notifications

  /** The states a store goes through while it is fed the batches one after the other. */
  ghost predicate IsRun(states: seq<Ledger>, batches: seq<seq<Blob>>) {
    && |states| == |batches| + 1
    && states[0] == EMPTY
    && (forall i :: 0 <= i < |batches| ==>
          AllChainBackwards(batches[i]) && BatchStep(states[i], batches[i], states[i + 1]))
  }

  /** The invariant holds after every batch of every run. */
  lemma {:induction false} RunInv(states: seq<Ledger>, batches: seq<seq<Blob>>, i: nat)
    requires IsRun(states, batches) && i < |states|
    ensures Inv(states[i])
  {
    if i == 0 {
      EmptyInv();
    } else {
      RunInv(states, batches, i - 1);
      StepInv(states[i - 1], batches[i - 1], states[i]);
    }
  }

  // ---- The meaning of the metadata in every reachable ledger ----

  /** An unbroken chain of full slots leads from the parent of `s` back to slot 0. */
  ghost predicate ChainOfFullSlots(metas: Metas, s: u64)
    decreases s
  {
    s in metas && (s == 0 ||
      (metas[s].parentSlot < s && IsFullIn(metas, metas[s].parentSlot) && ChainOfFullSlots(metas, metas[s].parentSlot)))
  }

  /** A slot is marked connected iff an unbroken chain of full slots leads back to slot 0. */
  lemma {:induction false} ConnectedMeansChain(l: Ledger, s: u64)
    requires Inv(l) && s in l.metas
    ensures l.metas[s].isConnected <==> ChainOfFullSlots(l.metas, s)
    decreases s
  {
    assert BaseAt(l.metas, {}, s) && CompleteAt(l.metas, {}, {}, s);
    if s > 0 && !l.metas[s].IsOrphan() {
      var p := l.metas[s].parentSlot;
      assert IsChild(l.metas, {}, p, s);
      ConnectedMeansChain(l, p);
    }
  }

  lemma {:induction false} CountInNoDuplicates(s: seq<u64>, x: u64)
    requires NoDuplicates(s)
    ensures multiset(s)[x] == if x in s then 1 else 0
  {
    if s != [] {
      var front, last := s[..|s| - 1], s[|s| - 1];
      assert s == front + [last];
      CountInNoDuplicates(front, x);
    }
  }

  /**
   The tree of slots: a slot other than 0 is listed by its recorded parent exactly once and by
   nobody else, every recorded parent has metadata, and the orphans are the slots without a parent.
   */
  lemma TreeOfSlots(l: Ledger, p: u64, c: u64)
    requires Inv(l) && p in l.metas && c in l.metas && c > 0
    ensures multiset(l.metas[p].nextSlots)[c] == if !l.metas[c].IsOrphan() && l.metas[c].parentSlot == p then 1 else 0
    ensures forall d :: d in l.metas[p].nextSlots ==> d in l.metas && d > p
    ensures !l.metas[c].IsOrphan() ==> l.metas[c].parentSlot in l.metas && l.metas[c].parentSlot < c
    ensures c in l.orphans <==> l.metas[c].IsOrphan()
  {
    assert BaseAt(l.metas, {}, p) && BaseAt(l.metas, {}, c) && LinkAt(l.metas, {}, p, c) && OrphanAt(l, c);
    CountInNoDuplicates(l.metas[p].nextSlots, c);
    forall d | d in l.metas[p].nextSlots ensures d in l.metas && d > p {
      assert LinkAt(l.metas, {}, p, d) && BaseAt(l.metas, {}, d);
    }
  }

  // ---- Completed slots over a whole run ----

  ghost predicate CompletedIn(states: seq<Ledger>, i: nat, s: u64)
    requires i + 1 < |states|
  {
    IsFullIn(states[i + 1].metas, s) && !IsFullIn(states[i].metas, s)
  }

  lemma {:induction false} FullStaysFull(states: seq<Ledger>, batches: seq<seq<Blob>>, i: nat, j: nat, s: u64)
    requires IsRun(states, batches) && i <= j < |states| && IsFullIn(states[i].metas, s)
    ensures IsFullIn(states[j].metas, s)
    decreases j - i
  {
    if i < j {
      RunInv(states, batches, i);
      StepFull(states[i], batches[i], states[i + 1], s);
      FullStaysFull(states, batches, i + 1, j, s);
    }
  }

  /** Over a whole run a slot is reported as completed at most once, and once iff it ends up full. */
  lemma CompletedOnce(states: seq<Ledger>, batches: seq<seq<Blob>>, s: u64)
    requires IsRun(states, batches)
    ensures forall i, j :: 0 <= i < j < |batches| ==> !(CompletedIn(states, i, s) && CompletedIn(states, j, s))
    ensures (exists i :: 0 <= i < |batches| && CompletedIn(states, i, s)) <==> IsFullIn(states[|batches|].metas, s)
  {
    forall i, j | 0 <= i < j < |batches| && CompletedIn(states, i, s)
      ensures !CompletedIn(states, j, s)
    {
      FullStaysFull(states, batches, i + 1, j, s);
    }
    if i :| 0 <= i < |batches| && CompletedIn(states, i, s) {
      FullStaysFull(states, batches, i + 1, |batches|, s);
    }
    if IsFullIn(states[|batches|].metas, s) {
      FirstFull(states, batches, |batches|, s);
    }
  }

  lemma {:induction false} FirstFull(states: seq<Ledger>, batches: seq<seq<Blob>>, n: nat, s: u64)
    requires IsRun(states, batches) && n <= |batches| && IsFullIn(states[n].metas, s)
    ensures exists i :: 0 <= i < n && CompletedIn(states, i, s)
  {
    if IsFullIn(states[n - 1].metas, s) {
      FirstFull(states, batches, n - 1, s);
    } else {
      assert CompletedIn(states, n - 1, s);
    }
  }

  // ---- Delivery order does not matter ----

  /** One blob per index, one parent per slot, and only the highest index of a slot flagged as last. */
  ghost predicate WellFormed(blobs: set<Blob>) {
    && (forall b :: b in blobs ==> ChainsBackwards(b))
    && (forall a, b :: a in blobs && b in blobs && a.slot == b.slot ==>
          && a.parent == b.parent
          && (a.index == b.index ==> a == b)
          && (a.isLast ==> b.index <= a.index))
  }

  ghost predicate Names(blobs: set<Blob>, s: u64) {
    exists b :: b in blobs && b.slot == s
  }

  /** What is stored for slot `s` once exactly `blobs` have been delivered; the index `U64_MAX` is never stored. */
  ghost predicate HoldsAt(c: Columns, blobs: set<Blob>, s: u64) {
    && (s in c.metas && !c.metas[s].IsOrphan() <==> Names(blobs, s))
    && (forall b :: b in blobs && b.slot == s ==>
          && c.metas[s].parentSlot == b.parent
          && (b.index < U64_MAX ==> b.index in BlobsOf(c.data, s) && BlobsOf(c.data, s)[b.index] == b))
    && (forall i :: i in BlobsOf(c.data, s) ==> BlobsOf(c.data, s)[i] in blobs)
  }

  ghost predicate Holds(c: Columns, blobs: set<Blob>) {
    forall s: u64 :: HoldsAt(c, blobs, s)
  }

  /** Of a well-formed set of blobs, none is ever turned away but one that is already there. */
  lemma AcceptedUnlessStored(c: Columns, blobs: set<Blob>, b: Blob)
    requires DataOk(c) && Holds(c, blobs) && WellFormed(blobs + {b})
    ensures var stored := BlobsOf(c.data, b.slot);
            ShouldInsert(EntryMeta(c.metas, b), stored, b) <==> b.index < U64_MAX && b.index !in stored
  {
    var stored, s := BlobsOf(c.data, b.slot), b.slot;
    var m := EntryMeta(c.metas, b);
    assert DataOkAt(c, s) && HoldsAt(c, blobs, s) && SlotOk(m, s, stored);
    if m.received > 0 {
      assert stored[m.received - 1] in blobs;
    }
  }

  lemma NamesOneMore(blobs: set<Blob>, b: Blob, s: u64)
    ensures Names(blobs + {b}, s) <==> Names(blobs, s) || s == b.slot
  {
    assert b in blobs + {b};
    if Names(blobs, s) {
      var a :| a in blobs && a.slot == s;
      assert a in blobs + {b};
    }
  }

  /** A blob that is stored already is delivered once more. */
  lemma StoredIsDelivered(c: Columns, blobs: set<Blob>, b: Blob)
    requires HoldsAt(c, blobs, b.slot) && DataOkAt(c, b.slot)
    requires WellFormed(blobs + {b}) && b.index in BlobsOf(c.data, b.slot)
    ensures b in blobs && BlobsOf(c.data, b.slot)[b.index] == b
  {
    var a := BlobsOf(c.data, b.slot)[b.index];
    assert a in blobs + {b} && b in blobs + {b};
  }

  /** What staging one more blob does to its own slot. */
  lemma StageBlobHoldsHere(c: Columns, blobs: set<Blob>, b: Blob)
    requires DataOk(c) && Holds(c, blobs) && WellFormed(blobs + {b})
    ensures HoldsAt(StageBlob(c, b), blobs + {b}, b.slot)
  {
    AcceptedUnlessStored(c, blobs, b);
    NamesOneMore(blobs, b, b.slot);
    assert HoldsAt(c, blobs, b.slot) && DataOkAt(c, b.slot);
    if b.index in BlobsOf(c.data, b.slot) {
      StoredIsDelivered(c, blobs, b);
    }
    HeldParent(c, blobs, b);
  }

  lemma HeldParent(c: Columns, blobs: set<Blob>, b: Blob)
    requires HoldsAt(c, blobs, b.slot) && WellFormed(blobs + {b})
    ensures EntryMeta(c.metas, b).parentSlot == b.parent
    ensures forall a :: a in blobs && a.slot == b.slot ==> a.parent == b.parent
  {
    assert b in blobs + {b};
    forall a | a in blobs && a.slot == b.slot ensures a.parent == b.parent {
      assert a in blobs + {b};
    }
    if Names(blobs, b.slot) {
      var a :| a in blobs && a.slot == b.slot;
    }
  }

  lemma StageBlobHoldsAt(c: Columns, blobs: set<Blob>, b: Blob, s: u64)
    requires DataOk(c) && Holds(c, blobs) && WellFormed(blobs + {b})
    ensures HoldsAt(StageBlob(c, b), blobs + {b}, s)
  {
    if s == b.slot {
      StageBlobHoldsHere(c, blobs, b);
    } else {
      NamesOneMore(blobs, b, s);
      assert HoldsAt(c, blobs, s);
      var stored := BlobsOf(c.data, s);
      assert BlobsOf(StageBlob(c, b).data, s) == stored;
      forall i | i in stored ensures stored[i] in blobs + {b} {
        assert stored[i] in blobs;
      }
    }
  }

  ghost function ToSet(blobs: seq<Blob>): set<Blob> {
    set i | 0 <= i < |blobs| :: blobs[i]
  }

  lemma ToSetSnoc(blobs: seq<Blob>)
    requires blobs != []
    ensures ToSet(blobs) == ToSet(blobs[..|blobs| - 1]) + {blobs[|blobs| - 1]}
  {
  }

  lemma {:induction false} StageAllHolds(c: Columns, blobs: set<Blob>, batch: seq<Blob>)
    requires DataOk(c) && Holds(c, blobs) && WellFormed(blobs + ToSet(batch)) && AllChainBackwards(batch)
    ensures Holds(StageAll(c, batch), blobs + ToSet(batch))
  {
    if batch == [] {
      assert blobs + ToSet(batch) == blobs;
    } else {
      var front, last := batch[..|batch| - 1], batch[|batch| - 1];
      ToSetSnoc(batch);
      assert blobs + ToSet(batch) == (blobs + ToSet(front)) + {last};
      StageAllHolds(c, blobs, front);
      StageAllOk(c, front);
      var d := StageAll(c, front);
      forall s: u64 ensures HoldsAt(StageAll(c, batch), blobs + ToSet(batch), s) {
        StageBlobHoldsAt(d, blobs + ToSet(front), last, s);
      }
    }
  }

  /** `l` is what the delivery of exactly `blobs` leaves behind. */
  ghost predicate Represents(l: Ledger, blobs: set<Blob>) {
    && Inv(l)
    && Holds(l.Cols(), blobs)
    && (forall s :: s in l.metas && l.metas[s].IsOrphan() ==> l.metas[s].nextSlots != [])
  }

  lemma StepRepresents(pre: Ledger, blobs: set<Blob>, batch: seq<Blob>, post: Ledger)
    requires Represents(pre, blobs) && AllChainBackwards(batch) && BatchStep(pre, batch, post)
    requires WellFormed(blobs + ToSet(batch))
    ensures Represents(post, blobs + ToSet(batch))
  {
    var staged := StageAll(pre.Cols(), batch);
    StageAllHolds(pre.Cols(), blobs, batch);
    StepInv(pre, batch, post);
    forall s: u64 ensures HoldsAt(post.Cols(), blobs + ToSet(batch), s) {
      assert HoldsAt(staged, blobs + ToSet(batch), s) && CoreAt(staged.metas, post.metas, s);
    }
    forall s | s in post.metas && post.metas[s].IsOrphan() ensures post.metas[s].nextSlots != [] {
      OrphanHasChild(pre, batch, post, s);
    }
  }

  /** An orphan is only ever created for a slot that names it as its parent. */
  lemma OrphanHasChild(pre: Ledger, batch: seq<Blob>, post: Ledger, s: u64)
    requires Inv(pre) && AllChainBackwards(batch) && BatchStep(pre, batch, post)
    requires s in post.metas && post.metas[s].IsOrphan()
    requires s in pre.metas && pre.metas[s].IsOrphan() ==> pre.metas[s].nextSlots != []
    ensures post.metas[s].nextSlots != []
  {
    StepIsMonotone(pre, batch, post, s);
    assert CoreAt(StageAll(pre.Cols(), batch).metas, post.metas, s);
    if s in pre.metas {
      var c := pre.metas[s].nextSlots[0];
      assert LinkAt(pre.metas, {}, s, c);
      StepIsMonotone(pre, batch, post, c);
      assert LinkAt(post.metas, {}, s, c);
    } else {
      StageAllOk(pre.Cols(), batch);
      assert GrowsAt(pre.Cols(), StageAll(pre.Cols(), batch), s, s in SlotsOf(batch));
    }
  }

  ghost function Delivered(batches: seq<seq<Blob>>): set<Blob> {
    if batches == [] then {} else Delivered(batches[..|batches| - 1]) + ToSet(batches[|batches| - 1])
  }

  lemma {:induction false} RunRepresents(states: seq<Ledger>, batches: seq<seq<Blob>>, n: nat)
    requires IsRun(states, batches) && n <= |batches| && WellFormed(Delivered(batches[..n]))
    ensures Represents(states[n], Delivered(batches[..n]))
  {
    if n == 0 {
      EmptyInv();
      forall s: u64 ensures HoldsAt(EMPTY.Cols(), {}, s) {
      }
    } else {
      assert batches[..n][..n - 1] == batches[..n - 1];
      RunRepresents(states, batches, n - 1);
      StepRepresents(states[n - 1], Delivered(batches[..n - 1]), batches[n - 1], states[n]);
    }
  }

  // ---- The delivered blobs determine the ledger ----

  ghost predicate AgreeAt(l: Ledger, k: Ledger, s: u64) {
    && BlobsOf(l.data, s) == BlobsOf(k.data, s)
    && (s in l.orphans <==> s in k.orphans)
    && (s in l.metas <==> s in k.metas)
    && (s in l.metas ==>
          && l.metas[s].SameCore(k.metas[s])
          && l.metas[s].isConnected == k.metas[s].isConnected
          && multiset(l.metas[s].nextSlots) == multiset(k.metas[s].nextSlots))
  }

  /** Equal ledgers but for the order in which the children of a slot are listed. */
  ghost predicate Agree(l: Ledger, k: Ledger) {
    forall s: u64 :: AgreeAt(l, k, s)
  }

  lemma SameDataAt(l: Ledger, k: Ledger, blobs: set<Blob>, s: u64)
    requires Represents(l, blobs) && Represents(k, blobs)
    ensures BlobsOf(l.data, s) == BlobsOf(k.data, s)
  {
    assert HoldsAt(l.Cols(), blobs, s) && HoldsAt(k.Cols(), blobs, s);
    assert DataOkAt(l.Cols(), s) && DataOkAt(k.Cols(), s);
    var x, y := BlobsOf(l.data, s), BlobsOf(k.data, s);
    forall i: u64 ensures (i in x <==> i in y) && (i in x ==> x[i] == y[i]) {
      if i in x {
        assert x[i] in blobs;
      }
      if i in y {
        assert y[i] in blobs;
      }
    }
  }

  /** What is stored for a slot determines its `consumed`, `received` and `lastIndex`. */
  lemma SameStoredSameMeta(m: SlotMeta, n: SlotMeta, s: u64, stored: Blobs)
    requires SlotOk(m, s, stored) && SlotOk(n, s, stored)
    ensures m.consumed == n.consumed && m.received == n.received && m.lastIndex == n.lastIndex
  {
  }

  lemma SameKeysAt(l: Ledger, k: Ledger, blobs: set<Blob>, s: u64)
    requires Represents(l, blobs) && Represents(k, blobs) && s in l.metas
    ensures s in k.metas && l.metas[s].parentSlot == k.metas[s].parentSlot
  {
    assert HoldsAt(l.Cols(), blobs, s) && HoldsAt(k.Cols(), blobs, s);
    if Names(blobs, s) {
      var b :| b in blobs && b.slot == s;
    } else {
      var c := l.metas[s].nextSlots[0];
      assert LinkAt(l.metas, {}, s, c) && HoldsAt(l.Cols(), blobs, c) && HoldsAt(k.Cols(), blobs, c);
      var b :| b in blobs && b.slot == c;
      assert BaseAt(l.metas, {}, c) && BaseAt(k.metas, {}, c);
    }
  }

  lemma SameCoreAt(l: Ledger, k: Ledger, blobs: set<Blob>, s: u64)
    requires Represents(l, blobs) && Represents(k, blobs) && s in l.metas
    ensures s in k.metas && l.metas[s].SameCore(k.metas[s])
  {
    SameKeysAt(l, k, blobs, s);
    SameDataAt(l, k, blobs, s);
    assert DataOkAt(l.Cols(), s) && DataOkAt(k.Cols(), s);
    SameStoredSameMeta(l.metas[s], k.metas[s], s, BlobsOf(l.data, s));
  }

  lemma {:induction false} SameConnectedAt(l: Ledger, k: Ledger, blobs: set<Blob>, s: u64)
    requires Represents(l, blobs) && Represents(k, blobs) && s in l.metas
    ensures s in k.metas && l.metas[s].isConnected == k.metas[s].isConnected
    decreases s
  {
    SameCoreAt(l, k, blobs, s);
    assert BaseAt(l.metas, {}, s) && BaseAt(k.metas, {}, s);
    assert CompleteAt(l.metas, {}, {}, s) && CompleteAt(k.metas, {}, {}, s);
    if s > 0 && !l.metas[s].IsOrphan() {
      var p := l.metas[s].parentSlot;
      assert IsChild(l.metas, {}, p, s) && IsChild(k.metas, {}, p, s);
      SameCoreAt(l, k, blobs, p);
      SameConnectedAt(l, k, blobs, p);
    }
  }

  lemma SameChildrenAt(l: Ledger, k: Ledger, blobs: set<Blob>, s: u64)
    requires Represents(l, blobs) && Represents(k, blobs) && s in l.metas && s in k.metas
    ensures multiset(l.metas[s].nextSlots) == multiset(k.metas[s].nextSlots)
  {
    var x, y := l.metas[s].nextSlots, k.metas[s].nextSlots;
    assert BaseAt(l.metas, {}, s) && BaseAt(k.metas, {}, s);
    var mx: multiset<u64>, my: multiset<u64> := multiset(x), multiset(y);
    forall c: u64 ensures mx[c] == my[c] {
      CountInNoDuplicates(x, c);
      CountInNoDuplicates(y, c);
      assert LinkAt(l.metas, {}, s, c) && LinkAt(k.metas, {}, s, c);
      if c in l.metas { SameKeysAt(l, k, blobs, c); }
      if c in k.metas { SameKeysAt(k, l, blobs, c); }
    }
  }

  lemma RepresentationIsUnique(l: Ledger, k: Ledger, blobs: set<Blob>)
    requires Represents(l, blobs) && Represents(k, blobs)
    ensures Agree(l, k)
  {
    forall s: u64 ensures AgreeAt(l, k, s) {
      SameDataAt(l, k, blobs, s);
      assert OrphanAt(l, s) && OrphanAt(k, s);
      if s in l.metas {
        SameCoreAt(l, k, blobs, s);
        SameConnectedAt(l, k, blobs, s);
        SameChildrenAt(l, k, blobs, s);
      }
      if s in k.metas {
        SameKeysAt(k, l, blobs, s);
      }
    }
  }

  /**
   Delivery order does not matter: two runs that were fed the same well-formed blobs, in whatever
   order, batches and repetitions, end in the same data, orphans and metadata.
   */
  lemma DeliveryOrderIsImmaterial(
    states: seq<Ledger>, batches: seq<seq<Blob>>, states': seq<Ledger>, batches': seq<seq<Blob>>)
    requires IsRun(states, batches) && IsRun(states', batches')
    requires Delivered(batches) == Delivered(batches') && WellFormed(Delivered(batches))
    ensures Agree(states[|batches|], states'[|batches'|])
  {
    assert batches[..|batches|] == batches && batches'[..|batches'|] == batches';
    RunRepresents(states, batches, |batches|);
    RunRepresents(states', batches', |batches'|);
    RepresentationIsUnique(states[|batches|], states'[|batches'|], Delivered(batches));
  }
}
