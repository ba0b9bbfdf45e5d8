/** The ledger columns, the invariant of every reachable ledger and what one batch does to it. */
module Ledger {
  import opened Common
  import opened Staging
  import opened Chaining

  datatype Ledger = Ledger(metas: Metas, data: Data, orphans: set<u64>) {
    function Cols(): Columns {
      Columns(metas, data)
    }
  }

  const EMPTY := Ledger(map[], map[], {})

  ghost predicate OrphanAt(l: Ledger, s: u64) {
    s in l.orphans <==> s in l.metas && l.metas[s].IsOrphan()
  }

  /** The invariant of every reachable ledger. */
  ghost predicate Inv(l: Ledger) {
    && DataOk(l.Cols())
    && Chained(l.metas, {}, {})
    && (forall s: u64 :: OrphanAt(l, s))
  }

  lemma EmptyInv()
    ensures Inv(EMPTY)
  {
    forall s: u64 ensures DataOkAt(EMPTY.Cols(), s) && OrphanAt(EMPTY, s) {
    }
    forall s: u64 ensures BaseAt(map[], {}, s) && CompleteAt(map[], {}, {}, s) && PendingAt(map[], {}, {}, s) {
    }
    forall p: u64, c: u64 ensures LinkAt(map[], {}, p, c) {
    }
  }

  function Backup(metas: Metas, s: u64): Option<SlotMeta> {
    if s in metas then Some(metas[s]) else None
  }

  predicate IsNewlyCompleted(m: SlotMeta, backup: Option<SlotMeta>) {
    m.IsFull() && (backup.None? || m.consumed != backup.value.consumed)
  }

  predicate WasOrphan(backup: Option<SlotMeta>) {
    backup.Some? && backup.value.IsOrphan()
  }

  /** The working slots whose parent was not known before the batch. */
  ghost function Unlinked(db: Metas, todo: set<u64>): set<u64> {
    set s | s in todo && (Backup(db, s).None? || WasOrphan(Backup(db, s)))
  }

  /** The working slots that became full in the batch. */
  ghost function Waiting(db: Metas, staged: Metas, todo: set<u64>): set<u64> {
    set s | s in todo && s in staged && IsNewlyCompleted(staged[s], Backup(db, s))
  }

  lemma TodoMinus(db: Metas, staged: Metas, todo: set<u64>, x: u64)
    ensures Unlinked(db, todo - {x}) == Unlinked(db, todo) - {x}
    ensures Waiting(db, staged, todo - {x}) == Waiting(db, staged, todo) - {x}
  {
  }

  // ---- The staged metadata before any slot is chained ----

  lemma StagedIsChild(l: Ledger, d: Columns, touched: set<u64>, p: u64, c: u64)
    requires DataOkAt(d, c) && GrowsAt(l.Cols(), d, c, c in touched)
    requires BaseAt(l.metas, {}, c)
    ensures IsChild(d.metas, Unlinked(l.metas, touched), p, c) <==> IsChild(l.metas, {}, p, c)
  {
  }

  lemma StagedPasses(l: Ledger, d: Columns, touched: set<u64>, p: u64)
    requires DataOkAt(l.Cols(), p) && DataOkAt(d, p) && GrowsAt(l.Cols(), d, p, p in touched)
    ensures Passes(l.metas, p) ==> Passes(d.metas, p)
    ensures Passes(d.metas, p) && p !in Waiting(l.metas, d.metas, touched) ==> Passes(l.metas, p)
  {
    if p in l.metas {
      NewlyFullConsumesMore(p, l.metas[p], BlobsOf(l.data, p), d.metas[p], BlobsOf(d.data, p));
    }
  }

  lemma StagedBase(l: Ledger, d: Columns, touched: set<u64>, s: u64)
    requires Inv(l) && DataOk(d) && Grows(l.Cols(), d, touched)
    ensures BaseAt(d.metas, Unlinked(l.metas, touched), s)
    ensures PendingAt(d.metas, Unlinked(l.metas, touched), Waiting(l.metas, d.metas, touched), s)
  {
    assert BaseAt(l.metas, {}, s) && DataOkAt(d, s) && DataOkAt(l.Cols(), s) && GrowsAt(l.Cols(), d, s, s in touched);
    if s in l.metas && !l.metas[s].IsOrphan() && s > 0 {
      var p := l.metas[s].parentSlot;
      assert GrowsAt(l.Cols(), d, p, p in touched) && DataOkAt(l.Cols(), p) && DataOkAt(d, p);
      StagedPasses(l, d, touched, p);
    }
  }

  lemma StagedLink(l: Ledger, d: Columns, touched: set<u64>, p: u64, c: u64)
    requires Inv(l) && DataOk(d) && Grows(l.Cols(), d, touched)
    ensures LinkAt(d.metas, Unlinked(l.metas, touched), p, c)
  {
    assert LinkAt(l.metas, {}, p, c) && BaseAt(l.metas, {}, c) && DataOkAt(d, c);
    assert GrowsAt(l.Cols(), d, c, c in touched) && GrowsAt(l.Cols(), d, p, p in touched);
    StagedIsChild(l, d, touched, p, c);
  }

  lemma StagedComplete(l: Ledger, d: Columns, touched: set<u64>, c: u64)
    requires Inv(l) && DataOk(d) && Grows(l.Cols(), d, touched)
    ensures CompleteAt(d.metas, Unlinked(l.metas, touched), Waiting(l.metas, d.metas, touched), c)
  {
    assert CompleteAt(l.metas, {}, {}, c) && BaseAt(l.metas, {}, c) && DataOkAt(d, c);
    assert GrowsAt(l.Cols(), d, c, c in touched);
    forall p: u64 | IsChild(d.metas, Unlinked(l.metas, touched), p, c) && Passes(d.metas, p)
        && p !in Waiting(l.metas, d.metas, touched)
      ensures d.metas[c].isConnected
    {
      StagedIsChild(l, d, touched, p, c);
      assert DataOkAt(l.Cols(), p) && DataOkAt(d, p) && GrowsAt(l.Cols(), d, p, p in touched);
      StagedPasses(l, d, touched, p);
    }
  }

  /** Staging leaves the ledger chained but for the slots that wait to be linked or passed on from. */
  lemma StagedChained(l: Ledger, d: Columns, touched: set<u64>)
    requires Inv(l) && DataOk(d) && Grows(l.Cols(), d, touched)
    ensures Chained(d.metas, Unlinked(l.metas, touched), Waiting(l.metas, d.metas, touched))
    ensures SameCores(d.metas, d.metas)
  {
    var u, w := Unlinked(l.metas, touched), Waiting(l.metas, d.metas, touched);
    forall s: u64 ensures BaseAt(d.metas, u, s) && PendingAt(d.metas, u, w, s) && CoreAt(d.metas, d.metas, s) {
      StagedBase(l, d, touched, s);
    }
    forall p: u64, c: u64 ensures LinkAt(d.metas, u, p, c) {
      StagedLink(l, d, touched, p, c);
    }
    forall c: u64 ensures CompleteAt(d.metas, u, w, c) {
      StagedComplete(l, d, touched, c);
    }
  }

  /** Slot 0 has no parent to be linked to. */
  lemma ForgetRoot(v: Metas, unlinked: set<u64>, waiting: set<u64>)
    requires Chained(v, unlinked, waiting)
    ensures Chained(v, unlinked - {0}, waiting)
  {
    forall s: u64 ensures BaseAt(v, unlinked - {0}, s) && CompleteAt(v, unlinked - {0}, waiting, s)
      && PendingAt(v, unlinked - {0}, waiting, s)
    {
      assert BaseAt(v, unlinked, s) && CompleteAt(v, unlinked, waiting, s) && PendingAt(v, unlinked, waiting, s);
      forall p: u64 | IsChild(v, unlinked - {0}, p, s) ensures IsChild(v, unlinked, p, s) {
      }
    }
    forall p: u64, c: u64 ensures LinkAt(v, unlinked - {0}, p, c) {
      assert LinkAt(v, unlinked, p, c);
    }
  }

  // ---- One batch ----

  /**
   What a batch of blobs does to the ledger, without mention of how: exactly the acceptable blobs
   are stored, the metadata of the slots follows, unknown parents become orphans, and all slots are
   chained. Everything but the order of `nextSlots` is determined.
   */
  ghost predicate BatchStep(pre: Ledger, blobs: seq<Blob>, post: Ledger) {
    var staged := StageAll(pre.Cols(), blobs);
    && post.data == staged.data
    && SameCores(staged.metas, post.metas)
    && Chained(post.metas, {}, {})
    && (forall s: u64 :: OrphanAt(post, s))
  }

  /** A batch keeps the invariant: chaining does not touch what the data columns mean. */
  lemma StepInv(pre: Ledger, blobs: seq<Blob>, post: Ledger)
    requires Inv(pre) && AllChainBackwards(blobs) && BatchStep(pre, blobs, post)
    ensures Inv(post)
  {
    var staged := StageAll(pre.Cols(), blobs);
    StageAllOk(pre.Cols(), blobs);
    forall s: u64 ensures DataOkAt(post.Cols(), s) {
      assert DataOkAt(staged, s) && CoreAt(staged.metas, post.metas, s);
    }
  }

  /** What the metadata of a slot says about the blobs stored for it. */
  lemma SlotMeaning(l: Ledger, s: u64)
    requires Inv(l) && s in l.metas
    ensures var m, stored := l.metas[s], BlobsOf(l.data, s);
            && m.slot == s
            && (forall i: u64 :: i < m.consumed ==> i in stored) && m.consumed !in stored
            && (forall i :: i in stored ==> i < m.received) && (m.received > 0 ==> m.received - 1 in stored)
            && (m.lastIndex < U64_MAX ==> m.lastIndex in stored)
            && (forall i :: i in stored ==> (stored[i].isLast <==> i == m.lastIndex))
            && (forall i :: i in stored ==> stored[i].slot == s && stored[i].index == i)
    ensures s > 0 && l.metas[s].parentSlot < U64_MAX ==>
              var p := l.metas[s].parentSlot;
              p < s && p in l.metas && s in l.metas[p].nextSlots
  {
    assert DataOkAt(l.Cols(), s) && BaseAt(l.metas, {}, s);
    assert LinkAt(l.metas, {}, l.metas[s].parentSlot, s);
  }

  /** A batch tells the parent of a slot that was not known, and leaves the others alone. */
  lemma StepParents(pre: Ledger, blobs: seq<Blob>, post: Ledger, s: u64)
    requires Inv(pre) && AllChainBackwards(blobs) && BatchStep(pre, blobs, post)
    ensures s in pre.metas && pre.metas[s].parentSlot < U64_MAX ==>
              s in post.metas && post.metas[s].parentSlot == pre.metas[s].parentSlot
    ensures (s in pre.metas ==> pre.metas[s].parentSlot == U64_MAX) ==>
              forall k :: 0 <= k < |blobs| && blobs[k].slot == s && (forall j :: 0 <= j < k ==> blobs[j].slot != s) ==>
                s in post.metas && post.metas[s].parentSlot == blobs[k].parent
  {
    var staged := StageAll(pre.Cols(), blobs);
    StageAllOk(pre.Cols(), blobs);
    assert GrowsAt(pre.Cols(), staged, s, s in SlotsOf(blobs)) && CoreAt(staged.metas, post.metas, s);
    if s in pre.metas ==> pre.metas[s].parentSlot == U64_MAX {
      forall k | 0 <= k < |blobs| && blobs[k].slot == s && (forall j :: 0 <= j < k ==> blobs[j].slot != s)
        ensures s in post.metas && post.metas[s].parentSlot == blobs[k].parent
      {
        FirstBlobTellsParent(pre.Cols(), blobs, k, s);
      }
    }
  }
}
