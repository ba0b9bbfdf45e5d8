/** What the new-blobs signal and the list of completed slots tell about a batch. */
module Notifications {
  import opened Common
  import opened Staging
  import opened Chaining
  import opened Ledger

  predicate SlotHasUpdates(m: SlotMeta, backup: Option<SlotMeta>) {
    && m.isConnected
    && ((backup.None? && m.consumed != 0) || (backup.Some? && backup.value.consumed != m.consumed))
  }

  /** The blobs that a consumer following the connected slots can read. */
  ghost function Visible(metas: Metas): set<(u64, u64)> {
    set s, i | s in metas && metas[s].isConnected && 0 <= i < metas[s].consumed :: (s, i)
  }

  ghost predicate IsFullIn(metas: Metas, s: u64) {
    s in metas && metas[s].IsFull()
  }

  /** Everything a batch changes at slot `s`, seen from the columns before and after it. */
  ghost predicate StepAt(pre: Ledger, blobs: seq<Blob>, post: Ledger, s: u64) {
    && (s in pre.metas ==>
          && s in post.metas
          && CoreGrows(pre.metas[s], BlobsOf(pre.data, s), post.metas[s], BlobsOf(post.data, s))
          && (pre.metas[s].isConnected ==> post.metas[s].isConnected))
    && (forall i :: i in BlobsOf(pre.data, s) ==>
          i in BlobsOf(post.data, s) && BlobsOf(post.data, s)[i] == BlobsOf(pre.data, s)[i])
    && (s in SlotsOf(blobs) ==> s in post.metas && !post.metas[s].IsOrphan())
    && (s !in SlotsOf(blobs) ==>
          && (s in post.metas ==> post.metas[s].SameCore(if s in pre.metas then pre.metas[s] else NewMeta(s, U64_MAX)))
          && BlobsOf(post.data, s) == BlobsOf(pre.data, s))
  }

  /** Stored blobs are never overwritten and no mark, index or parent that is set is taken back. */
  lemma StepIsMonotone(pre: Ledger, blobs: seq<Blob>, post: Ledger, s: u64)
    requires Inv(pre) && AllChainBackwards(blobs) && BatchStep(pre, blobs, post)
    ensures StepAt(pre, blobs, post, s)
  {
    var staged := StageAll(pre.Cols(), blobs);
    StageAllOk(pre.Cols(), blobs);
    StepInv(pre, blobs, post);
    assert GrowsAt(pre.Cols(), staged, s, s in SlotsOf(blobs)) && CoreAt(staged.metas, post.metas, s);
    assert DataOkAt(pre.Cols(), s) && DataOkAt(staged, s) && DataOkAt(post.Cols(), s);
  }

  lemma StepFull(pre: Ledger, blobs: seq<Blob>, post: Ledger, s: u64)
    requires Inv(pre) && AllChainBackwards(blobs) && BatchStep(pre, blobs, post)
    ensures IsFullIn(pre.metas, s) ==> IsFullIn(post.metas, s)
    ensures s in SlotsOf(blobs) ==> s in post.metas
    ensures s in SlotsOf(blobs) ==>
              (IsNewlyCompleted(post.metas[s], Backup(pre.metas, s)) <==>
                 IsFullIn(post.metas, s) && !IsFullIn(pre.metas, s))
    ensures IsFullIn(post.metas, s) && !IsFullIn(pre.metas, s) ==> s in SlotsOf(blobs)
  {
    StepIsMonotone(pre, blobs, post, s);
    if s in pre.metas {
      StepInv(pre, blobs, post);
      KnownStepFull(pre, post, s);
    }
  }

  lemma KnownStepFull(pre: Ledger, post: Ledger, s: u64)
    requires Inv(pre) && Inv(post) && s in pre.metas && s in post.metas
    requires CoreGrows(pre.metas[s], BlobsOf(pre.data, s), post.metas[s], BlobsOf(post.data, s))
    ensures post.metas[s].IsFull() && post.metas[s].consumed == pre.metas[s].consumed <==> pre.metas[s].IsFull()
  {
    assert DataOkAt(pre.Cols(), s) && DataOkAt(post.Cols(), s);
    NewlyFullConsumesMore(s, pre.metas[s], BlobsOf(pre.data, s), post.metas[s], BlobsOf(post.data, s));
  }

  /** The completed slots are exact: a touched slot counts as newly completed iff the batch made it full. */
  lemma CompletedIsExact(pre: Ledger, blobs: seq<Blob>, post: Ledger)
    requires Inv(pre) && AllChainBackwards(blobs) && BatchStep(pre, blobs, post)
    ensures forall s: u64 ::
              s in SlotsOf(blobs) && s in post.metas && IsNewlyCompleted(post.metas[s], Backup(pre.metas, s))
              <==> IsFullIn(post.metas, s) && !IsFullIn(pre.metas, s)
  {
    forall s: u64
      ensures s in SlotsOf(blobs) && s in post.metas && IsNewlyCompleted(post.metas[s], Backup(pre.metas, s))
              <==> IsFullIn(post.metas, s) && !IsFullIn(pre.metas, s)
    {
      StepFull(pre, blobs, post, s);
    }
  }

  /** A slot that is newly connected without a new blob of its own has an ancestor that consumed one. */
  lemma {:induction false} NewlyConnectedHasUpdate(pre: Ledger, blobs: seq<Blob>, post: Ledger, s: u64) returns (t: u64)
    requires Inv(pre) && AllChainBackwards(blobs) && BatchStep(pre, blobs, post)
    requires s in pre.metas && s in post.metas && !pre.metas[s].IsOrphan()
    requires !pre.metas[s].isConnected && post.metas[s].isConnected
    ensures t in SlotsOf(blobs) && t in post.metas && SlotHasUpdates(post.metas[t], Backup(pre.metas, t))
    decreases s
  {
    StepInv(pre, blobs, post);
    assert BaseAt(pre.metas, {}, s) && BaseAt(post.metas, {}, s);
    var p := pre.metas[s].parentSlot;
    StepIsMonotone(pre, blobs, post, s);
    StepIsMonotone(pre, blobs, post, p);
    StepFull(pre, blobs, post, p);
    assert IsChild(pre.metas, {}, p, s) && CompleteAt(pre.metas, {}, {}, s);
    assert Passes(post.metas, p) && !Passes(pre.metas, p);
    if pre.metas[p].IsFull() {
      assert DataOkAt(pre.Cols(), p) && DataOkAt(post.Cols(), p) && BaseAt(pre.metas, {}, p);
      t := NewlyConnectedHasUpdate(pre, blobs, post, p);
    } else {
      t := p;
    }
  }

  lemma UpdateIsVisible(pre: Ledger, blobs: seq<Blob>, post: Ledger, t: u64)
    requires Inv(pre) && AllChainBackwards(blobs) && BatchStep(pre, blobs, post)
    requires t in SlotsOf(blobs) && t in post.metas && SlotHasUpdates(post.metas[t], Backup(pre.metas, t))
    ensures exists x :: x in Visible(post.metas) && x !in Visible(pre.metas)
  {
    StepIsMonotone(pre, blobs, post, t);
    var x := (t, if t in pre.metas then pre.metas[t].consumed else 0);
    assert x in Visible(post.metas) && x !in Visible(pre.metas);
  }

  lemma VisibleHasUpdate(pre: Ledger, blobs: seq<Blob>, post: Ledger, s: u64, i: u64) returns (t: u64)
    requires Inv(pre) && AllChainBackwards(blobs) && BatchStep(pre, blobs, post)
    requires (s, i) in Visible(post.metas) && (s, i) !in Visible(pre.metas)
    ensures t in SlotsOf(blobs) && t in post.metas && SlotHasUpdates(post.metas[t], Backup(pre.metas, t))
  {
    StepIsMonotone(pre, blobs, post, s);
    StepInv(pre, blobs, post);
    assert DataOkAt(pre.Cols(), s) && DataOkAt(post.Cols(), s);
    if s in SlotsOf(blobs) && SlotHasUpdates(post.metas[s], Backup(pre.metas, s)) {
      t := s;
    } else {
      assert s in pre.metas && pre.metas[s].consumed == post.metas[s].consumed && !pre.metas[s].isConnected;
      assert pre.metas[s].IsOrphan() ==> 0 !in BlobsOf(pre.data, s);
      t := NewlyConnectedHasUpdate(pre, blobs, post, s);
    }
  }

  /** The new-blobs signal is exact: some touched slot has updates iff strictly more became visible. */
  lemma SignalIsExact(pre: Ledger, blobs: seq<Blob>, post: Ledger)
    requires Inv(pre) && AllChainBackwards(blobs) && BatchStep(pre, blobs, post)
    ensures Visible(pre.metas) <= Visible(post.metas)
    ensures (exists s :: s in SlotsOf(blobs) && s in post.metas && SlotHasUpdates(post.metas[s], Backup(pre.metas, s)))
              <==> Visible(pre.metas) < Visible(post.metas)
  {
    forall x | x in Visible(pre.metas) ensures x in Visible(post.metas) {
      StepIsMonotone(pre, blobs, post, x.0);
    }
    if s :| s in SlotsOf(blobs) && s in post.metas && SlotHasUpdates(post.metas[s], Backup(pre.metas, s)) {
      UpdateIsVisible(pre, blobs, post, s);
    }
    if Visible(pre.metas) < Visible(post.metas) {
      var x :| x in Visible(post.metas) && x !in Visible(pre.metas);
      var t := VisibleHasUpdate(pre, blobs, post, x.0, x.1);
    }
  }

  /** More can be read iff some connected slot has more consecutive blobs than could be read of it before. */
  lemma VisibleGrew(pre: Metas, post: Metas)
    requires Visible(pre) <= Visible(post)
    ensures Visible(pre) < Visible(post) <==>
              exists s :: s in post && post[s].isConnected &&
                post[s].consumed > if s in pre && pre[s].isConnected then pre[s].consumed else 0
  {
    if Visible(pre) < Visible(post) {
      var x :| x in Visible(post) && x !in Visible(pre);
      assert x.0 in post && post[x.0].isConnected && post[x.0].consumed > x.1;
    }
    if s :| s in post && post[s].isConnected &&
            post[s].consumed > if s in pre && pre[s].isConnected then pre[s].consumed else 0
    {
      var i: u64 := if s in pre && pre[s].isConnected then pre[s].consumed else 0;
      assert (s, i) in Visible(post) && (s, i) !in Visible(pre);
    }
  }
}
