/** The ledger store and the batch insert, in the steps the store takes. */
module Blocktree {
  import opened Common
  import opened Staging
  import opened Chaining
  import opened Ledger
  import opened Notifications
  import opened Ancestry
  import opened EntryLayout

  /** A slot of the working set: the copy the batch changes and what the database holds. */
  datatype Working = Working(meta: SlotMeta, backup: Option<SlotMeta>)

  /** The working set, the slots loaded for chaining and the database together make up `view`. */
  ghost predicate CellAt(db: Metas, working: map<u64, Working>, chained: Metas, view: Metas, s: u64) {
    && (s in working ==> s in view && view[s] == working[s].meta && !working[s].meta.IsOrphan()
                         && working[s].backup == Backup(db, s))
    && (s in chained ==> s !in working && s in view && view[s] == chained[s])
    && (s !in working && s !in chained ==> Backup(view, s) == Backup(db, s))
  }

  /** The blobs put by the batch and the database together make up `view`. */
  ghost predicate DataAt(db: Data, inserted: Data, view: Data, s: u64) {
    && (s in view <==> s in db || s in inserted)
    && BlobsOf(view, s) == BlobsOf(db, s) + BlobsOf(inserted, s)
  }

  ghost predicate Cells(db: Metas, working: map<u64, Working>, chained: Metas, view: Metas) {
    forall s: u64 :: CellAt(db, working, chained, view, s)
  }

  ghost predicate DataCells(db: Data, inserted: Data, view: Data) {
    forall s: u64 :: DataAt(db, inserted, view, s)
  }

  lemma CellsAfterWrite(db: Metas, working: map<u64, Working>, chained: Metas, view: Metas, x: u64, m: SlotMeta)
    requires Cells(db, working, chained, view) && x in working && !m.IsOrphan()
    ensures Cells(db, working[x := Working(m, working[x].backup)], chained, view[x := m])
  {
    var w, v := working[x := Working(m, working[x].backup)], view[x := m];
    forall s: u64 ensures CellAt(db, w, chained, v, s) {
      assert CellAt(db, working, chained, view, s);
    }
  }

  lemma DataAfterPut(db: Data, inserted: Data, view: Data, b: Blob)
    requires DataCells(db, inserted, view)
    ensures DataCells(db, inserted[b.slot := BlobsOf(inserted, b.slot)[b.index := b]],
                      view[b.slot := BlobsOf(view, b.slot)[b.index := b]])
  {
    var x, y := BlobsOf(inserted, b.slot)[b.index := b], BlobsOf(view, b.slot)[b.index := b];
    assert DataAt(db, inserted, view, b.slot);
    assert y == BlobsOf(db, b.slot) + x;
    var i, v := inserted[b.slot := x], view[b.slot := y];
    forall s: u64 ensures DataAt(db, i, v, s) {
      assert DataAt(db, inserted, view, s);
    }
  }

  lemma StageNext(c: Columns, blobs: seq<Blob>, n: nat)
    requires n < |blobs|
    ensures StageAll(c, blobs[..n + 1]) == StageBlob(StageAll(c, blobs[..n]), blobs[n])
    ensures SlotsOf(blobs[..n + 1]) == SlotsOf(blobs[..n]) + {blobs[n].slot}
  {
    assert blobs[..n + 1][..n] == blobs[..n];
    SlotsOfSnoc(blobs[..n + 1]);
  }

  /** One batch in progress. Nothing reaches the columns before the batch is written. */
  class Batch {
    const db: Ledger
    var working: map<u64, Working>
    var chained: Metas
    var inserted: Data
    var orphans: set<u64>
    ghost var view: Columns

    ghost predicate Valid()
      reads this
    {
      Cells(db.metas, working, chained, view.metas) && DataCells(db.data, inserted, view.data)
    }

    constructor (db: Ledger)
      ensures this.db == db && Valid()
      ensures working == map[] && chained == map[] && inserted == map[]
      ensures orphans == db.orphans && view == db.Cols()
    {
      this.db := db;
      working, chained, inserted, orphans := map[], map[], map[], db.orphans;
      view := db.Cols();
      new;
      forall s: u64
        ensures CellAt(db.metas, working, chained, view.metas, s) && DataAt(db.data, inserted, view.data, s)
      {
        assert BlobsOf(db.data, s) + map[] == BlobsOf(db.data, s);
      }
    }

    // ---- Storing blobs ----

    predicate Has(slot: u64, index: u64)
      reads this
    {
      index in BlobsOf(inserted, slot) || index in BlobsOf(db.data, slot)
    }

    lemma HasIsStored(slot: u64)
      requires Valid()
      ensures forall i: u64 :: Has(slot, i) <==> i in BlobsOf(view.data, slot)
    {
      assert DataAt(db.data, inserted, view.data, slot);
    }

    /** Counts the blobs that are stored without a gap from `start` on. */
    method CountConsecutive(slot: u64, start: u64) returns (next: u64)
      requires Valid()
      requires U64_MAX !in BlobsOf(view.data, slot)
      ensures next == NextMissing(BlobsOf(view.data, slot), start)
    {
      next := start;
      HasIsStored(slot);
      while Has(slot, next)
        invariant start <= next
        invariant NextMissing(BlobsOf(view.data, slot), start) == NextMissing(BlobsOf(view.data, slot), next)
        decreases U64_MAX - next
      {
        next := next + 1;
      }
    }

    /** Stores one blob if it is acceptable and brings the working copy of its slot up to date. */
    method CheckInsertDataBlob(b: Blob) returns (stored: bool)
      requires Valid() && chained == map[] && DataOk(view) && ChainsBackwards(b)
      modifies this
      ensures Valid() && chained == map[] && orphans == old(orphans)
      ensures view == StageBlob(old(view), b)
      ensures working.Keys == old(working.Keys) + {b.slot}
      ensures stored <==> ShouldInsert(EntryMeta(old(view.metas), b), BlobsOf(old(view.data), b.slot), b)
      ensures stored <==> IsNew(BlobsOf(old(view.data), b.slot), b)
    {
      LoadWorking(b);
      var m := working[b.slot].meta;
      HasIsStored(b.slot);
      stored := !(b.index < m.consumed || Has(b.slot, b.index)) && b.index < m.lastIndex
                && !(b.isLast && b.index < m.received);
      assert DataOkAt(old(view), b.slot);
      StoresWhatIsNew(old(view), b);
      if stored {
        ghost var loaded, done := m, InsertedMeta(m, BlobsOf(view.data, b.slot), b);
        InsertDataBlob(b);
        assert old(view.metas)[b.slot := loaded][b.slot := done] == old(view.metas)[b.slot := done];
      }
    }

    /** Makes sure that the slot of `b` is in the working set, filling in a parent that was unknown. */
    method LoadWorking(b: Blob)
      requires Valid() && chained == map[] && ChainsBackwards(b)
      modifies `working, `view
      ensures Valid() && working.Keys == old(working.Keys) + {b.slot}
      ensures b.slot in working && working[b.slot].meta == EntryMeta(old(view.metas), b)
      ensures view == Columns(old(view.metas)[b.slot := EntryMeta(old(view.metas), b)], old(view.data))
    {
      assert CellAt(db.metas, working, chained, view.metas, b.slot);
      ghost var before := view.metas;
      if b.slot !in working {
        if b.slot in db.metas {
          var meta := db.metas[b.slot];
          if meta.IsOrphan() {
            meta := meta.(parentSlot := b.parent);
          }
          working := working[b.slot := Working(meta, Some(db.metas[b.slot]))];
        } else {
          working := working[b.slot := Working(NewMeta(b.slot, b.parent), None)];
        }
        view := view.(metas := view.metas[b.slot := working[b.slot].meta]);
      } else {
        assert view.metas[b.slot := EntryMeta(view.metas, b)] == view.metas;
      }
      forall s: u64 ensures CellAt(db.metas, working, chained, view.metas, s) {
        assert CellAt(db.metas, old(working), chained, before, s);
      }
    }

    method InsertDataBlob(b: Blob)
      requires Valid() && chained == map[] && b.slot in working && b.slot in view.metas
      requires b.index < U64_MAX && U64_MAX !in BlobsOf(view.data, b.slot)
      modifies `working, `inserted, `view
      ensures Valid() && working.Keys == old(working.Keys)
      ensures var stored := BlobsOf(old(view.data), b.slot);
              view == Columns(old(view.metas)[b.slot := InsertedMeta(old(view.metas)[b.slot], stored, b)],
                              old(view.data)[b.slot := stored[b.index := b]])
    {
      var entry := working[b.slot];
      var m := entry.meta;
      var newConsumed := m.consumed;
      assert CellAt(db.metas, working, chained, view.metas, b.slot);
      if m.consumed == b.index {
        newConsumed := CountConsecutive(b.slot, b.index + 1);
      }
      inserted := inserted[b.slot := BlobsOf(inserted, b.slot)[b.index := b]];
      m := m.(consumed := newConsumed,
              received := Max(b.index + 1, m.received),
              lastIndex := if m.lastIndex == U64_MAX then (if b.isLast then b.index else U64_MAX) else m.lastIndex);
      working := working[b.slot := Working(m, entry.backup)];
      CellsAfterWrite(db.metas, old(working), chained, view.metas, b.slot, m);
      DataAfterPut(db.data, old(inserted), view.data, b);
      view := Columns(view.metas[b.slot := m], view.data[b.slot := BlobsOf(view.data, b.slot)[b.index := b]]);
    }

    method InsertDataBlobBatch(blobs: seq<Blob>)
      requires Valid() && chained == map[] && DataOk(view) && AllChainBackwards(blobs)
      modifies this
      ensures Valid() && chained == map[] && orphans == old(orphans) && DataOk(view)
      ensures view == StageAll(old(view), blobs)
      ensures working.Keys == old(working.Keys) + SlotsOf(blobs)
    {
      for n := 0 to |blobs|
        invariant Valid() && chained == map[] && orphans == old(orphans) && DataOk(view)
        invariant view == StageAll(old(view), blobs[..n])
        invariant working.Keys == old(working.Keys) + SlotsOf(blobs[..n])
      {
        StageBlobOk(view, blobs[n]);
        StageNext(old(view), blobs, n);
        var _ := CheckInsertDataBlob(blobs[n]);
      }
      assert blobs[..|blobs|] == blobs;
    }

    // ---- Chaining ----

    /** Finds the cell of `s` in the working set, among the loaded slots or in the database, or creates an orphan. */
    method FindSlotMetaElseCreate(s: u64) returns (meta: SlotMeta)
      requires Valid()
      modifies `chained, `view
      ensures Valid() && view == Columns(WithMeta(old(view.metas), s), old(view.data))
      ensures (s in working || s in chained) && old(chained.Keys) <= chained.Keys
      ensures s in view.metas && meta == view.metas[s]
    {
      assert CellAt(db.metas, working, chained, view.metas, s);
      if s in working {
        meta := working[s].meta;
      } else if s in chained {
        meta := chained[s];
      } else {
        meta := if s in db.metas then db.metas[s] else NewMeta(s, U64_MAX);
        chained := chained[s := meta];
        view := view.(metas := WithMeta(view.metas, s));
        forall t: u64 ensures CellAt(db.metas, working, chained, view.metas, t) {
          assert CellAt(db.metas, working, old(chained), old(view.metas), t);
        }
      }
    }

    /** Writes through to the one cell that holds `s`. */
    method SetMeta(s: u64, m: SlotMeta)
      requires Valid() && (s in working || s in chained) && (s in working ==> !m.IsOrphan())
      modifies `working, `chained, `view
      ensures Valid() && view == Columns(old(view.metas)[s := m], old(view.data))
      ensures working.Keys == old(working.Keys) && chained.Keys == old(chained.Keys)
    {
      assert CellAt(db.metas, working, chained, view.metas, s);
      if s in working {
        CellsAfterWrite(db.metas, working, chained, view.metas, s, m);
        working := working[s := Working(m, working[s].backup)];
      } else {
        chained := chained[s := m];
      }
      view := view.(metas := view.metas[s := m]);
      if s !in working {
        forall t: u64 ensures CellAt(db.metas, working, chained, view.metas, t) {
          assert CellAt(db.metas, working, old(chained), old(view.metas), t);
        }
      }
    }

    /** Links a slot to its parent; a parent nobody has heard of becomes an orphan. */
    method ChainToParent(slot: u64)
      requires Valid() && slot in working && slot > 0 && slot in view.metas && view.metas[slot].parentSlot < slot
      modifies `working, `chained, `view, `orphans
      ensures Valid() && view == Columns(Link(old(view.metas), slot), old(view.data))
      ensures working.Keys == old(working.Keys)
      ensures var p := old(view.metas)[slot].parentSlot;
              && p in view.metas
              && orphans == old(orphans) + if view.metas[p].IsOrphan() then {p} else {}
    {
      assert CellAt(db.metas, working, chained, view.metas, slot);
      var prevSlot := working[slot].meta.parentSlot;
      var prev := FindSlotMetaElseCreate(prevSlot);
      assert CellAt(db.metas, working, chained, view.metas, slot);
      assert CellAt(db.metas, working, chained, view.metas, prevSlot);
      SetMeta(prevSlot, prev.(nextSlots := prev.nextSlots + [slot]));
      assert CellAt(db.metas, working, chained, view.metas, slot);
      SetMeta(slot, working[slot].meta.(isConnected := prev.isConnected && prev.IsFull()));
      if prev.IsOrphan() {
        orphans := orphans + {prevSlot};
      }
    }

    /** Marks `slot` and everything below it as connected, stopping below slots that are not full. */
    method TraverseChildren(slot: u64, ghost staged: Metas, ghost unlinked: set<u64>, ghost waiting: set<u64>)
      requires Valid() && slot in working && slot in view.metas && view.metas[slot].isConnected
      requires slot !in unlinked
      requires Chained(view.metas, unlinked, waiting) && SameCores(staged, view.metas)
      modifies `working, `chained, `view
      ensures Valid() && working.Keys == old(working.Keys) && view.data == old(view.data)
      ensures Chained(view.metas, unlinked, waiting - {slot}) && SameCores(staged, view.metas)
      ensures view.metas.Keys == old(view.metas.Keys)
    {
      var stack := [slot];
      ghost var visited: set<u64> := {};
      TraverseStart(view.metas, unlinked, waiting, slot);
      while stack != []
        invariant Valid() && working.Keys == old(working.Keys) && view.data == old(view.data)
        invariant view.metas.Keys == old(view.metas.Keys) && SameCores(staged, view.metas)
        invariant forall i :: 0 <= i < |stack| ==> stack[i] in working || stack[i] in chained
        invariant Traversing(view.metas, unlinked, waiting - {slot}, slot, stack, visited)
        decreases view.metas.Keys - visited
      {
        var x := stack[|stack| - 1];
        assert StackAt(view.metas, unlinked, slot, visited, x);
        TraverseStep(view.metas, unlinked, waiting - {slot}, slot, stack, visited);
        MarkCores(staged, view.metas, x);
        stack := VisitSlot(x, stack, unlinked);
        visited := visited + {x};
      }
      TraverseEnd(view.metas, unlinked, waiting - {slot}, slot, visited);
      PendingKept(old(view.metas), view.metas, staged, unlinked, waiting, slot);
    }

    /** Pops `x`, marks it and, if it is full, pushes its children. */
    method VisitSlot(x: u64, stack: seq<u64>, ghost unlinked: set<u64>) returns (next: seq<u64>)
      requires Valid() && x in view.metas && stack != [] && x == stack[|stack| - 1]
      requires forall i :: 0 <= i < |stack| ==> stack[i] in working || stack[i] in chained
      requires Linked(view.metas, unlinked)
      modifies `working, `chained, `view
      ensures Valid() && working.Keys == old(working.Keys)
      ensures view == Columns(Mark(old(view.metas), x), old(view.data))
      ensures next == PoppedStack(old(view.metas), stack)
      ensures forall i :: 0 <= i < |next| ==> next[i] in working || next[i] in chained
    {
      assert CellAt(db.metas, working, chained, view.metas, x);
      var meta := (if x in working then working[x].meta else chained[x]).(isConnected := true);
      SetMeta(x, meta);
      ghost var marked := view;
      next := stack[..|stack| - 1];
      if meta.IsFull() {
        for i := 0 to |meta.nextSlots|
          invariant Valid() && view == marked && working.Keys == old(working.Keys)
          invariant next == stack[..|stack| - 1] + meta.nextSlots[..i]
          invariant forall i :: 0 <= i < |next| ==> next[i] in working || next[i] in chained
        {
          assert LinkAt(old(view.metas), unlinked, x, meta.nextSlots[i]);
          var _ := FindSlotMetaElseCreate(meta.nextSlots[i]);
          next := next + [meta.nextSlots[i]];
        }
      }
    }

    /** The state between two working slots, when those of `todo` are still to be chained. */
    ghost predicate Chaining(staged: Metas, todo: set<u64>)
      reads this
    {
      && Valid() && todo <= working.Keys
      && Chained(view.metas, Unlinked(db.metas, todo), Waiting(db.metas, staged, todo))
      && SameCores(staged, view.metas)
      && OrphansMid(db.metas, orphans, view.metas, todo)
      && working.Keys <= staged.Keys
    }

    /** Links one working slot and, if it became full and is connected, marks what is below it. */
    method HandleChainingForSlot(slot: u64, ghost staged: Metas, ghost todo: set<u64>)
      requires Chaining(staged, todo) && slot in todo
      modifies `working, `chained, `view, `orphans
      ensures Chaining(staged, todo - {slot})
      ensures working.Keys == old(working.Keys) && view.data == old(view.data)
    {
      LinkWorkingSlot(slot, staged, todo);
      ghost var unlinked, waiting := Unlinked(db.metas, todo - {slot}), Waiting(db.metas, staged, todo);
      TodoMinus(db.metas, staged, todo, slot);
      assert CellAt(db.metas, working, chained, view.metas, slot) && CoreAt(staged, view.metas, slot);
      if IsNewlyCompleted(working[slot].meta, working[slot].backup) && working[slot].meta.isConnected {
        ghost var linked := view.metas;
        TraverseChildren(slot, staged, unlinked, waiting);
        OrphansKept(db.metas, orphans, linked, view.metas, staged, todo - {slot});
      } else {
        NothingToPassOn(view.metas, unlinked, waiting, slot);
        PendingKept(view.metas, view.metas, staged, unlinked, waiting, slot);
      }
    }

    method LinkWorkingSlot(slot: u64, ghost staged: Metas, ghost todo: set<u64>)
      requires Chaining(staged, todo) && slot in todo
      modifies `working, `chained, `view, `orphans
      ensures Valid() && working.Keys == old(working.Keys) && view.data == old(view.data)
      ensures Chained(view.metas, Unlinked(db.metas, todo - {slot}), Waiting(db.metas, staged, todo))
      ensures SameCores(staged, view.metas)
      ensures OrphansMid(db.metas, orphans, view.metas, todo - {slot})
    {
      ghost var unlinked, waiting := Unlinked(db.metas, todo), Waiting(db.metas, staged, todo);
      TodoMinus(db.metas, staged, todo, slot);
      assert CellAt(db.metas, working, chained, view.metas, slot);
      var backup := working[slot].backup;
      var wasOrphan := WasOrphan(backup);
      if slot != 0 && (backup.None? || wasOrphan) {
        assert BaseAt(view.metas, unlinked, slot);
        LinkChained(view.metas, unlinked, waiting, slot);
        LinkCores(staged, view.metas, unlinked, waiting, slot);
        OrphansAfterLink(db.metas, orphans, view.metas, todo, slot);
        ChainToParent(slot);
      } else if slot == 0 {
        ForgetRoot(view.metas, unlinked, waiting);
      } else {
        assert unlinked - {slot} == unlinked;
      }
      OrphansDone(db.metas, orphans, view.metas, todo, slot);
      if wasOrphan {
        orphans := orphans - {slot};
      }
    }

    /** Chains every working slot, in whatever order the working set yields them. */
    method HandleChaining()
      requires Chaining(view.metas, working.Keys)
      modifies `working, `chained, `view, `orphans
      ensures Valid() && working.Keys == old(working.Keys) && view.data == old(view.data)
      ensures Chained(view.metas, {}, {}) && SameCores(old(view.metas), view.metas)
      ensures forall s: u64 :: OrphanAt(Ledger(view.metas, view.data, orphans), s)
    {
      var todo := working.Keys;
      ghost var staged := view.metas;
      while todo != {}
        invariant Chaining(staged, todo) && working.Keys == old(working.Keys) && view.data == old(view.data)
        decreases todo
      {
        var slot :| slot in todo;
        HandleChainingForSlot(slot, staged, todo);
        todo := todo - {slot};
      }
      assert Unlinked(db.metas, {}) == {} && Waiting(db.metas, staged, {}) == {};
      forall s: u64 ensures OrphanAt(Ledger(view.metas, view.data, orphans), s) {
        assert OrphanMidAt(db.metas, orphans, view.metas, {}, s);
      }
    }
  }

  /** The orphan column in the middle of chaining: the former orphans of `todo` are still to be deleted. */
  ghost predicate OrphanMidAt(db: Metas, orphans: set<u64>, view: Metas, todo: set<u64>, s: u64) {
    s in orphans <==> (s in view && view[s].IsOrphan()) || (s in todo && WasOrphan(Backup(db, s)))
  }

  ghost predicate OrphansMid(db: Metas, orphans: set<u64>, view: Metas, todo: set<u64>) {
    forall s: u64 :: OrphanMidAt(db, orphans, view, todo, s)
  }

  lemma OrphansAfterLink(db: Metas, orphans: set<u64>, v: Metas, todo: set<u64>, slot: u64)
    requires OrphansMid(db, orphans, v, todo) && slot in v && v[slot].parentSlot < slot
    ensures var p := v[slot].parentSlot;
            OrphansMid(db, orphans + if Link(v, slot)[p].IsOrphan() then {p} else {}, Link(v, slot), todo)
  {
    var p, w := v[slot].parentSlot, Link(v, slot);
    var o := orphans + if w[p].IsOrphan() then {p} else {};
    forall s: u64 ensures OrphanMidAt(db, o, w, todo, s) {
      assert OrphanMidAt(db, orphans, v, todo, s);
    }
  }

  lemma OrphansDone(db: Metas, orphans: set<u64>, v: Metas, todo: set<u64>, slot: u64)
    requires OrphansMid(db, orphans, v, todo) && slot in v && !v[slot].IsOrphan()
    ensures OrphansMid(db, if WasOrphan(Backup(db, slot)) then orphans - {slot} else orphans, v, todo - {slot})
  {
    var o := if WasOrphan(Backup(db, slot)) then orphans - {slot} else orphans;
    forall s: u64 ensures OrphanMidAt(db, o, v, todo - {slot}, s) {
      assert OrphanMidAt(db, orphans, v, todo, s);
    }
  }

  lemma OrphansKept(db: Metas, orphans: set<u64>, v: Metas, w: Metas, staged: Metas, todo: set<u64>)
    requires OrphansMid(db, orphans, v, todo) && SameCores(staged, v) && SameCores(staged, w) && v.Keys == w.Keys
    ensures OrphansMid(db, orphans, w, todo)
  {
    forall s: u64 ensures OrphanMidAt(db, orphans, w, todo, s) {
      assert OrphanMidAt(db, orphans, v, todo, s) && CoreAt(staged, v, s) && CoreAt(staged, w, s);
    }
  }

  lemma PendingKept(v: Metas, w: Metas, staged: Metas, unlinked: set<u64>, waiting: set<u64>, slot: u64)
    requires Pending(v, unlinked, waiting) && SameCores(staged, v) && SameCores(staged, w) && v.Keys == w.Keys
    requires slot !in unlinked
    ensures Pending(w, unlinked, waiting - {slot})
  {
    forall s: u64 ensures PendingAt(w, unlinked, waiting - {slot}, s) {
      assert PendingAt(v, unlinked, waiting, s) && CoreAt(staged, v, s) && CoreAt(staged, w, s);
    }
  }
  // ---- The store ----

  /** The columns after the puts of a finished batch. */
  function WithPuts(db: Data, inserted: Data): Data {
    map s: u64 | s in db.Keys + inserted.Keys :: BlobsOf(db, s) + BlobsOf(inserted, s)
  }

  lemma PutsMakeView(db: Data, inserted: Data, view: Data)
    requires DataCells(db, inserted, view)
    ensures WithPuts(db, inserted) == view
  {
    var w := WithPuts(db, inserted);
    forall s: u64 ensures (s in w <==> s in view) && (s in w ==> w[s] == view[s]) {
      assert DataAt(db, inserted, view, s);
    }
  }

  /** The metadata puts of a batch when the working slots of `todo` are still to be compared with their backups. */
  ghost predicate PutAt(working: map<u64, Working>, chained: Metas, todo: set<u64>, puts: Metas, s: u64) {
    && (s in puts <==> s in chained || (s in working && s !in todo && Some(working[s].meta) != working[s].backup))
    && (s in chained && s in puts ==> puts[s] == chained[s])
    && (s !in chained && s in puts ==> s in working && puts[s] == working[s].meta)
  }

  lemma MetaPutsMakeView(db: Metas, working: map<u64, Working>, chained: Metas, view: Metas, puts: Metas)
    requires Cells(db, working, chained, view)
    requires forall s: u64 :: PutAt(working, chained, {}, puts, s)
    ensures db + puts == view
  {
    var w := db + puts;
    forall s: u64 ensures (s in w <==> s in view) && (s in w ==> w[s] == view[s]) {
      assert CellAt(db, working, chained, view, s) && PutAt(working, chained, {}, puts, s);
    }
  }

  lemma OrphansBeforeChaining(l: Ledger, d: Columns, touched: set<u64>)
    requires Inv(l) && Grows(l.Cols(), d, touched)
    ensures OrphansMid(l.metas, l.orphans, d.metas, touched)
  {
    forall s: u64 ensures OrphanMidAt(l.metas, l.orphans, d.metas, touched, s) {
      assert OrphanAt(l, s) && GrowsAt(l.Cols(), d, s, s in touched);
    }
  }

  lemma LayoutNext(start: Cursor, ticksPerSlot: nat, entries: seq<Entry>, n: nat)
    requires n < |entries| && ticksPerSlot > 0 && Fits(start, entries)
    ensures Fits(start, entries[..n]) && Fits(start, entries[..n + 1])
    ensures var c := CursorAfter(start, ticksPerSlot, entries[..n]);
            && c.slot < U64_MAX && c.index <= U64_MAX && c.parent <= U64_MAX
            && CursorAfter(start, ticksPerSlot, entries[..n + 1]) == Advance(c, ticksPerSlot, entries[n])
            && Layout(start, ticksPerSlot, entries[..n + 1])
               == Layout(start, ticksPerSlot, entries[..n]) + [PlacedBlob(c, ticksPerSlot, entries[n])]
  {
    assert entries[..n + 1][..n] == entries[..n] && entries[..n + 1][n] == entries[n];
  }

  /** The blob for one entry, in the next slot if this one has all its ticks, and where the entry after it goes. */
  method PlaceEntry(c: Cursor, ticksPerSlot: nat, e: Entry) returns (blob: Blob, next: Cursor)
    requires ticksPerSlot > 0 && c.slot < U64_MAX && c.index <= U64_MAX && c.parent <= U64_MAX
    ensures blob == PlacedBlob(c, ticksPerSlot, e) && next == Advance(c, ticksPerSlot, e)
    ensures c.remaining > 0 ==> blob.slot == c.slot && blob.parent == c.parent && blob.index == c.index
    ensures c.remaining == 0 ==> blob.slot == c.slot + 1 && blob.parent == c.slot && blob.index == 0
    ensures blob.entries == [e]
    ensures blob.isLast <==> e.transactions == [] && (if c.remaining > 0 then c.remaining else ticksPerSlot) == 1
  {
    next := c;
    if next.remaining == 0 {
      next := Cursor(next.slot + 1, next.slot, 0, ticksPerSlot);
    }
    var isLast := false;
    if e.IsTick() {
      next := next.(remaining := next.remaining - 1);
      isLast := next.remaining == 0;
    }
    blob := Blob(next.slot, next.parent, next.index, isLast, [e]);
    next := next.(index := next.index + 1);
  }

  method PlaceAll(start: Cursor, ticksPerSlot: nat, entries: seq<Entry>) returns (blobs: seq<Blob>)
    requires ticksPerSlot > 0 && Fits(start, entries)
    ensures blobs == Layout(start, ticksPerSlot, entries)
  {
    var cursor := start;
    blobs := [];
    for n := 0 to |entries|
      invariant Fits(start, entries[..n]) && cursor == CursorAfter(start, ticksPerSlot, entries[..n])
      invariant blobs == Layout(start, ticksPerSlot, entries[..n])
    {
      LayoutNext(start, ticksPerSlot, entries, n);
      var blob;
      blob, cursor := PlaceEntry(cursor, ticksPerSlot, entries[n]);
      blobs := blobs + [blob];
    }
    assert entries[..|entries|] == entries;
  }

  /** The blobs for a stream of entries: one for each, with the last tick of each slot flagged. */
  method LayOut(startSlot: u64, ticksInStartSlot: nat, startIndex: u64, ticksPerSlot: nat, entries: seq<Entry>)
    returns (blobs: seq<Blob>)
    requires ticksInStartSlot < ticksPerSlot
    requires startSlot + |entries| < U64_MAX && startIndex + |entries| < U64_MAX
    ensures blobs == Layout(StartCursor(startSlot, startIndex, ticksPerSlot, ticksInStartSlot), ticksPerSlot, entries)
    ensures |blobs| == |entries|
    ensures forall i: nat :: i < |blobs| ==>
              NumberedAt(startSlot, startIndex, ticksPerSlot, ticksInStartSlot, entries, blobs, i)
    ensures forall i :: 0 <= i < |blobs| ==>
              blobs[i].entries == [entries[i]] && blobs[i].parent == if blobs[i].slot == 0 then 0 else blobs[i].slot - 1
  {
    var parent := if startSlot == 0 then startSlot else startSlot - 1;
    blobs := PlaceAll(Cursor(startSlot, parent, startIndex, ticksPerSlot - ticksInStartSlot), ticksPerSlot, entries);
    LayoutNumbered(startSlot, startIndex, ticksPerSlot, ticksInStartSlot, entries, blobs);
  }

  class Blocktree {
    var metas: Metas
    var data: Data
    var orphans: set<u64>
    var roots: set<u64>
    const hasCompletedSenders: bool

    ghost function State(): Ledger
      reads this
    {
      Ledger(metas, data, orphans)
    }

    ghost predicate Valid()
      reads this
    {
      Inv(State())
    }

    constructor (hasCompletedSenders: bool)
      ensures Valid() && State() == EMPTY && roots == {}
      ensures this.hasCompletedSenders == hasCompletedSenders
    {
      this.hasCompletedSenders := hasCompletedSenders;
      metas, data, orphans, roots := map[], map[], {}, {};
      new;
      EmptyInv();
    }

    /**
     Inserts a batch of blobs, followed by whatever erasure decoding recovered from them, as one
     atomic write. The result reports the new-blobs signal and the slots that became full.
     */
    method InsertDataBlobs(blobs: seq<Blob>, recovered: seq<Blob>) returns (signal: bool, completed: seq<u64>)
      requires Valid() && AllChainBackwards(blobs) && AllChainBackwards(recovered)
      modifies `metas, `data, `orphans
      ensures Valid() && BatchStep(old(State()), blobs + recovered, State())
      ensures Visible(old(metas)) <= Visible(metas)
      ensures signal <==> Visible(old(metas)) < Visible(metas)
      ensures signal <==>
                exists s :: s in metas && metas[s].isConnected &&
                  metas[s].consumed > if s in old(metas) && old(metas)[s].isConnected then old(metas)[s].consumed else 0
      ensures NoDuplicates(completed)
      ensures hasCompletedSenders ==>
                forall s: u64 :: s in completed <==> IsFullIn(metas, s) && !IsFullIn(old(metas), s)
      ensures !hasCompletedSenders ==> completed == []
    {
      ghost var all, pre := blobs + recovered, State();
      var batch := StageBlobs(blobs, recovered);
      ghost var staged := batch.view.metas;
      batch.HandleChaining();
      ghost var post := Ledger(batch.view.metas, batch.view.data, batch.orphans);
      StepInv(pre, all, post);
      signal, completed := WriteBatch(batch, post);
      SignalIsExact(pre, all, post);
      CompletedIsExact(pre, all, post);
      VisibleGrew(pre.metas, post.metas);
    }

    /** Stores the blobs in a new batch, which is then ready to be chained. */
    method StageBlobs(blobs: seq<Blob>, recovered: seq<Blob>) returns (batch: Batch)
      requires Valid() && AllChainBackwards(blobs) && AllChainBackwards(recovered)
      ensures fresh(batch) && batch.db == State() && batch.Chaining(batch.view.metas, batch.working.Keys)
      ensures batch.view == StageAll(State().Cols(), blobs + recovered)
      ensures batch.working.Keys == SlotsOf(blobs + recovered)
    {
      ghost var all, pre := blobs + recovered, State();
      batch := new Batch(Ledger(metas, data, orphans));
      batch.InsertDataBlobBatch(blobs);
      batch.InsertDataBlobBatch(recovered);
      StageAllConcat(pre.Cols(), blobs, recovered);
      SlotsOfConcat(blobs, recovered);
      assert batch.working.Keys == SlotsOf(all);
      StageAllOk(pre.Cols(), all);
      StagedChained(pre, batch.view, SlotsOf(all));
      OrphansBeforeChaining(pre, batch.view, SlotsOf(all));
      forall s | s in batch.working.Keys ensures s in batch.view.metas {
        assert CellAt(batch.db.metas, batch.working, batch.chained, batch.view.metas, s);
      }
    }

    /** Writes the columns at once and reports what changed, in whatever order the working set yields it. */
    method WriteBatch(batch: Batch, ghost post: Ledger) returns (signal: bool, completed: seq<u64>)
      requires batch.Valid() && batch.db == State()
      requires post == Ledger(batch.view.metas, batch.view.data, batch.orphans)
      modifies `metas, `data, `orphans
      ensures State() == post
      ensures signal <==>
                exists s :: s in batch.working && s in metas && SlotHasUpdates(metas[s], Backup(old(metas), s))
      ensures NoDuplicates(completed) && (!hasCompletedSenders ==> completed == [])
      ensures forall s: u64 :: s in completed <==>
                && hasCompletedSenders && s in batch.working && s in metas
                && IsNewlyCompleted(metas[s], Backup(old(metas), s))
    {
      var working := batch.working;
      var puts := batch.chained;
      var todo := working.Keys;
      signal, completed := false, [];
      forall s: u64 ensures PutAt(working, batch.chained, todo, puts, s) {
        assert CellAt(batch.db.metas, working, batch.chained, batch.view.metas, s);
      }
      while todo != {}
        invariant todo <= working.Keys
        invariant forall s: u64 :: PutAt(working, batch.chained, todo, puts, s)
        invariant signal <==>
                    exists s :: s in working && s !in todo && SlotHasUpdates(working[s].meta, working[s].backup)
        invariant NoDuplicates(completed) && (!hasCompletedSenders ==> completed == [])
        invariant forall s: u64 :: s in completed <==>
                    && hasCompletedSenders && s in working && s !in todo
                    && IsNewlyCompleted(working[s].meta, working[s].backup)
        decreases todo
      {
        var slot :| slot in todo;
        var meta, backup := working[slot].meta, working[slot].backup;
        if hasCompletedSenders && IsNewlyCompleted(meta, backup) {
          completed := completed + [slot];
        }
        ghost var before, rest := puts, todo;
        if Some(meta) != backup {
          signal := signal || SlotHasUpdates(meta, backup);
          puts := puts[slot := meta];
        }
        todo := todo - {slot};
        forall s: u64 ensures PutAt(working, batch.chained, todo, puts, s) {
          assert PutAt(working, batch.chained, rest, before, s);
          assert CellAt(batch.db.metas, working, batch.chained, batch.view.metas, slot);
        }
      }
      MetaPutsMakeView(metas, working, batch.chained, batch.view.metas, puts);
      PutsMakeView(data, batch.inserted, batch.view.data);
      metas, data, orphans := metas + puts, WithPuts(data, batch.inserted), batch.orphans;
      forall s: u64 ensures s in working ==>
        s in metas && metas[s] == working[s].meta && working[s].backup == Backup(old(metas), s)
      {
        assert CellAt(batch.db.metas, working, batch.chained, batch.view.metas, s);
      }
    }

    /**
     Lays a stream of entries out over consecutive slots, one blob for each entry, flags the blob
     with the last tick of each slot, and inserts the lot as one batch.
     */
    method WriteEntries(startSlot: u64, ticksInStartSlot: nat, startIndex: u64, ticksPerSlot: nat, entries: seq<Entry>)
      requires Valid() && ticksInStartSlot < ticksPerSlot
      requires startSlot + |entries| < U64_MAX && startIndex + |entries| < U64_MAX
      modifies `metas, `data, `orphans
      ensures Valid()
      ensures var start := StartCursor(startSlot, startIndex, ticksPerSlot, ticksInStartSlot);
              BatchStep(old(State()), Layout(start, ticksPerSlot, entries), State())
      ensures var start := StartCursor(startSlot, startIndex, ticksPerSlot, ticksInStartSlot);
              var end := CursorAfter(start, ticksPerSlot, entries).slot;
              startIndex == 0 && Unused(old(data), startSlot, end) ==>
                ReadsBack(State(), start, ticksPerSlot, end, entries)
      ensures var start := StartCursor(startSlot, startIndex, ticksPerSlot, ticksInStartSlot);
              var last := CursorAfter(start, ticksPerSlot, entries).slot;
              entries != [] ==>
                forall s: u64 :: startSlot <= s <= last && (s in old(metas) ==> old(metas)[s].parentSlot == U64_MAX) ==>
                  && s in metas && metas[s].parentSlot == (if s == 0 then 0 else s - 1)
                  && (s > 0 ==> s - 1 in metas && s in metas[s - 1].nextSlots)
    {
      ghost var start := StartCursor(startSlot, startIndex, ticksPerSlot, ticksInStartSlot);
      ghost var pre := State();
      var blobs := LayOut(startSlot, ticksInStartSlot, startIndex, ticksPerSlot, entries);
      InsertLaidOut(blobs);
      ghost var last := CursorAfter(start, ticksPerSlot, entries).slot;
      ReadBackIfUnused(pre, start, ticksPerSlot, entries, State(), blobs, last);
      if entries != [] {
        LayoutChains(pre, start, ticksPerSlot, entries, State(), blobs, last);
      }
    }

    method InsertLaidOut(blobs: seq<Blob>)
      requires Valid() && AllChainBackwards(blobs)
      modifies `metas, `data, `orphans
      ensures Valid() && BatchStep(old(State()), blobs, State())
    {
      var _, _ := InsertDataBlobs(blobs, []);
      assert blobs + [] == blobs;
    }

    /** The blobs stored from `start` on without a gap, but at most `max` of them. */
    method GetSlotConsecutiveBlobs(slot: u64, start: u64, max: Option<nat>) returns (blobs: seq<Blob>)
      requires Valid()
      ensures var stored := BlobsOf(data, slot);
              var gap := NextMissing(stored, start);
              && |blobs| == (if max.Some? then Min(max.value, gap - start) else gap - start)
              && (forall i :: 0 <= i < |blobs| ==> start + i in stored && blobs[i] == stored[start + i])
    {
      blobs := [];
      var current: int := start;
      ghost var gap := NextMissing(BlobsOf(data, slot), start);
      assert DataOkAt(State().Cols(), slot);
      while max != Some(|blobs|) && current in BlobsOf(data, slot)
        invariant current == start + |blobs| <= gap
        invariant max.Some? ==> |blobs| <= max.value
        invariant forall i :: 0 <= i < |blobs| ==>
                    start + i in BlobsOf(data, slot) && blobs[i] == BlobsOf(data, slot)[start + i]
        decreases gap - current
      {
        blobs := blobs + [BlobsOf(data, slot)[current]];
        current := current + 1;
      }
    }

    /** The entries of those blobs, and how many blobs there were. */
    method GetSlotEntriesWithBlobCount(
      slot: u64, start: u64, max: Option<nat>) returns (entries: seq<Entry>, count: nat)
      requires Valid()
      ensures var gap := NextMissing(BlobsOf(data, slot), start);
              count == if max.Some? then Min(max.value, gap - start) else gap - start
      ensures entries == EntriesBetween(BlobsOf(data, slot), start, start + count)
      ensures start == 0 && max.None? ==> entries == SlotEntries(data, slot)
    {
      var blobs := GetSlotConsecutiveBlobs(slot, start, max);
      entries, count := [], |blobs|;
      for i := 0 to |blobs|
        invariant entries == EntriesBetween(BlobsOf(data, slot), start, start + i)
      {
        EntriesOfNext(BlobsOf(data, slot), start, start + i);
        entries := entries + blobs[i].entries;
      }
    }

    predicate IsRoot(slot: u64)
      reads this
    {
      slot in roots
    }

    /** Marks the slots from `newRoot` back to, but not including, `prevRoot` as roots. */
    method SetRoot(newRoot: u64, prevRoot: u64)
      requires Valid() && (newRoot == 0 || newRoot == prevRoot || Descends(metas, prevRoot, newRoot))
      modifies `roots
      ensures newRoot == 0 ==> roots == old(roots) + {0}
      ensures newRoot > 0 ==> roots == old(roots) + PathTo(metas, newRoot, prevRoot)
      ensures newRoot > 0 && Descends(metas, prevRoot, newRoot) ==>
                forall s: u64 :: s in roots <==>
                  s in old(roots) || (Descends(metas, s, newRoot) && !Descends(metas, s, prevRoot))
      ensures RootChain(metas, old(roots), prevRoot) && newRoot > 0 ==> RootChain(metas, roots, newRoot)
    {
      if newRoot == 0 {
        roots := roots + {0};
      } else {
        var current := newRoot;
        while current != prevRoot
          invariant current == prevRoot || Descends(metas, prevRoot, current)
          invariant roots + PathTo(metas, current, prevRoot) == old(roots) + PathTo(metas, newRoot, prevRoot)
          decreases current
        {
          roots := roots + {current};
          current := metas[current].parentSlot;
        }
        if Descends(metas, prevRoot, newRoot) {
          forall s: u64
            ensures s in PathTo(metas, newRoot, prevRoot) <==>
                      Descends(metas, s, newRoot) && !Descends(metas, s, prevRoot)
          {
            PathAndAncestors(metas, newRoot, prevRoot, s);
            if s in PathTo(metas, newRoot, prevRoot) {
              PathIsAbove(metas, newRoot, prevRoot, s);
            }
          }
        }
        if RootChain(metas, old(roots), prevRoot) && newRoot != prevRoot {
          ExtendRoots(metas, old(roots), prevRoot, newRoot);
        }
      }
    }
  }
}
