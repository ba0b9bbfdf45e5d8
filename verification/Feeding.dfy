/** The store fed with one batch after the other: the results about runs, stated of the store. */
module Feeding {
  import opened Common
  import opened Staging
  import opened Ledger
  import opened Notifications
  import opened Delivery
  import opened Blocktree

  /** The blobs of one batch, and what erasure decoding recovers in it. */
  datatype Arrival = Arrival(blobs: seq<Blob>, recovered: seq<Blob>)

  ghost function Batches(arrivals: seq<Arrival>): (batches: seq<seq<Blob>>)
    ensures |batches| == |arrivals|
    ensures forall i :: 0 <= i < |arrivals| ==> batches[i] == arrivals[i].blobs + arrivals[i].recovered
  {
    seq(|arrivals|, i requires 0 <= i < |arrivals| => arrivals[i].blobs + arrivals[i].recovered)
  }

  ghost predicate Arrives(arrivals: seq<Arrival>) {
    forall i :: 0 <= i < |arrivals| ==> AllChainBackwards(arrivals[i].blobs) && AllChainBackwards(arrivals[i].recovered)
  }

  /** The reports of batch `i` tell exactly what it did; completed slots are reported if anyone listens. */
  ghost predicate ToldAt(listened: bool, states: seq<Ledger>, signals: seq<bool>, completed: seq<seq<u64>>, i: nat)
    requires i + 1 < |states| && i < |signals| && i < |completed|
  {
    && (signals[i] <==> Visible(states[i].metas) < Visible(states[i + 1].metas))
    && NoDuplicates(completed[i]) && forall s: u64 :: s in completed[i] <==> listened && CompletedIn(states, i, s)
  }

  ghost predicate Told(listened: bool, states: seq<Ledger>, signals: seq<bool>, completed: seq<seq<u64>>) {
    && |states| == |signals| + 1 == |completed| + 1
    && forall i: nat :: i < |signals| ==> ToldAt(listened, states, signals, completed, i)
  }

  lemma RunSnoc(states: seq<Ledger>, batches: seq<seq<Blob>>, post: Ledger, batch: seq<Blob>)
    requires IsRun(states, batches) && AllChainBackwards(batch) && BatchStep(states[|batches|], batch, post)
    ensures IsRun(states + [post], batches + [batch])
  {
    var ss, bs := states + [post], batches + [batch];
    forall i | 0 <= i < |bs| ensures AllChainBackwards(bs[i]) && BatchStep(ss[i], bs[i], ss[i + 1]) {
      if i < |batches| {
        assert BatchStep(states[i], batches[i], states[i + 1]);
      }
    }
  }

  lemma ToldSnoc(
    listened: bool, states: seq<Ledger>, signals: seq<bool>, completed: seq<seq<u64>>, post: Ledger, signal: bool,
    done: seq<u64>)
    requires Told(listened, states, signals, completed) && NoDuplicates(done)
    requires signal <==> Visible(states[|signals|].metas) < Visible(post.metas)
    requires forall s: u64 ::
               s in done <==> listened && IsFullIn(post.metas, s) && !IsFullIn(states[|signals|].metas, s)
    ensures Told(listened, states + [post], signals + [signal], completed + [done])
  {
    var ss, gs, cs := states + [post], signals + [signal], completed + [done];
    forall i: nat | i < |gs| ensures ToldAt(listened, ss, gs, cs, i) {
      if i < |signals| {
        assert ToldAt(listened, states, signals, completed, i);
        assert forall s: u64 :: CompletedIn(ss, i, s) <==> CompletedIn(states, i, s);
      }
    }
  }

  lemma AppendedChainBackwards(a: seq<Blob>, b: seq<Blob>)
    requires AllChainBackwards(a) && AllChainBackwards(b)
    ensures AllChainBackwards(a + b)
  {
  }

  /**
   Feeds a fresh store with the arrivals. The states it goes through are a run, and what it reports is exact; over the
   whole of it every slot that ends up full is reported as completed once, and no other slot is.
   */
  method Feed(store: Blocktree, arrivals: seq<Arrival>)
    returns (signals: seq<bool>, completed: seq<seq<u64>>, ghost states: seq<Ledger>)
    requires store.Valid() && store.State() == EMPTY && Arrives(arrivals)
    modifies store
    ensures store.Valid() && IsRun(states, Batches(arrivals)) && states[|arrivals|] == store.State()
    ensures Told(store.hasCompletedSenders, states, signals, completed)
    ensures EachReportedOnce(store.hasCompletedSenders, store.State(), completed)
  {
    signals, completed, states := [], [], [EMPTY];
    for i := 0 to |arrivals|
      invariant |signals| == i && store.Valid() && IsRun(states, Batches(arrivals[..i])) && states[i] == store.State()
      invariant Told(store.hasCompletedSenders, states, signals, completed)
    {
      var signal, done := store.InsertDataBlobs(arrivals[i].blobs, arrivals[i].recovered);
      NextArrival(arrivals, i, states, store.State());
      ToldSnoc(store.hasCompletedSenders, states, signals, completed, store.State(), signal, done);
      signals, completed, states := signals + [signal], completed + [done], states + [store.State()];
    }
    assert arrivals[..|arrivals|] == arrivals;
    RunReportsOnce(store.hasCompletedSenders, states, Batches(arrivals), signals, completed);
  }

  lemma NextArrival(arrivals: seq<Arrival>, i: nat, states: seq<Ledger>, post: Ledger)
    requires i < |arrivals| && Arrives(arrivals) && IsRun(states, Batches(arrivals[..i]))
    requires BatchStep(states[i], arrivals[i].blobs + arrivals[i].recovered, post)
    ensures IsRun(states + [post], Batches(arrivals[..i + 1]))
  {
    var batch := arrivals[i].blobs + arrivals[i].recovered;
    AppendedChainBackwards(arrivals[i].blobs, arrivals[i].recovered);
    RunSnoc(states, Batches(arrivals[..i]), post, batch);
    assert Batches(arrivals[..i]) + [batch] == Batches(arrivals[..i + 1]);
  }

  ghost predicate EachReportedOnce(listened: bool, l: Ledger, completed: seq<seq<u64>>) {
    forall s: u64 :: multiset(Flatten(completed))[s] == if listened && IsFullIn(l.metas, s) then 1 else 0
  }

  /** Up to any point of a run, a slot has been reported once if it is full and not at all otherwise. */
  lemma {:induction false} ReportedOnce(
    listened: bool, states: seq<Ledger>, batches: seq<seq<Blob>>, signals: seq<bool>, completed: seq<seq<u64>>,
    n: nat, s: u64)
    requires IsRun(states, batches) && Told(listened, states, signals, completed) && n <= |completed| == |batches|
    ensures multiset(Flatten(completed[..n]))[s] == if listened && IsFullIn(states[n].metas, s) then 1 else 0
  {
    if n > 0 {
      ReportedOnce(listened, states, batches, signals, completed, n - 1, s);
      assert ToldAt(listened, states, signals, completed, n - 1);
      CountInNoDuplicates(completed[n - 1], s);
      assert CompletedIn(states, n - 1, s) <==> IsFullIn(states[n].metas, s) && !IsFullIn(states[n - 1].metas, s);
      FullInNext(states, batches, n - 1, s);
      assert completed[..n][..n - 1] == completed[..n - 1];
    }
  }

  lemma FullInNext(states: seq<Ledger>, batches: seq<seq<Blob>>, i: nat, s: u64)
    requires IsRun(states, batches) && i < |batches|
    ensures IsFullIn(states[i].metas, s) ==> IsFullIn(states[i + 1].metas, s)
  {
    RunInv(states, batches, i);
    StepFull(states[i], batches[i], states[i + 1], s);
  }

  lemma RunReportsOnce(
    listened: bool, states: seq<Ledger>, batches: seq<seq<Blob>>, signals: seq<bool>, completed: seq<seq<u64>>)
    requires IsRun(states, batches) && Told(listened, states, signals, completed) && |completed| == |batches|
    ensures EachReportedOnce(listened, states[|batches|], completed)
  {
    forall s: u64
      ensures multiset(Flatten(completed))[s] == if listened && IsFullIn(states[|batches|].metas, s) then 1 else 0
    {
      ReportedOnce(listened, states, batches, signals, completed, |batches|, s);
      assert completed[..|batches|] == completed;
    }
  }

  /** Two stores fed with the same well-formed blobs, in any order, batching or repetition, end up equal. */
  method FeedTwo(a: Blocktree, arrivals: seq<Arrival>, b: Blocktree, arrivals': seq<Arrival>)
    requires a != b && a.Valid() && a.State() == EMPTY && b.Valid() && b.State() == EMPTY
    requires Arrives(arrivals) && Arrives(arrivals')
    requires Delivered(Batches(arrivals)) == Delivered(Batches(arrivals')) && WellFormed(Delivered(Batches(arrivals)))
    modifies a, b
    ensures a.Valid() && b.Valid() && Agree(a.State(), b.State())
  {
    var _, _, states := Feed(a, arrivals);
    var _, _, states' := Feed(b, arrivals');
    DeliveryOrderIsImmaterial(states, Batches(arrivals), states', Batches(arrivals'));
  }
}
