/**
 The data phase of a batch insert: which blobs of a batch are stored and how the metadata of
 their slots follows the stored indexes. Everything here is independent of the chaining of slots.
 */
module Staging {
  import opened Common

  /** The metadata kept for one slot. `U64_MAX` marks an unset `lastIndex` or `parentSlot`. */
  datatype SlotMeta = SlotMeta(
    slot: u64,
    consumed: u64,
    received: u64,
    lastIndex: u64,
    parentSlot: u64,
    nextSlots: seq<u64>,
    isConnected: bool)
  {
    predicate IsFull() {
      lastIndex != U64_MAX && consumed == lastIndex + 1
    }

    predicate IsOrphan() {
      parentSlot == U64_MAX
    }

    /** Equality of everything that chaining does not touch. */
    ghost predicate SameCore(other: SlotMeta) {
      && slot == other.slot
      && consumed == other.consumed
      && received == other.received
      && lastIndex == other.lastIndex
      && parentSlot == other.parentSlot
    }
  }

  function NewMeta(slot: u64, parent: u64): SlotMeta {
    SlotMeta(slot, 0, 0, U64_MAX, parent, [], slot == 0)
  }

  /** The data column, keyed by slot and then by index within the slot. */
  type Blobs = map<u64, Blob>
  type Data = map<u64, Blobs>
  type Metas = map<u64, SlotMeta>

  /** The metadata and data columns as seen in the middle of a batch. */
  datatype Columns = Columns(metas: Metas, data: Data)

  /** What is stored for slot `s`. */
  function BlobsOf(data: Data, s: u64): Blobs {
    if s in data then data[s] else map[]
  }

  /** The shape every blob must have: parents precede their children and slot 0 is its own parent. */
  predicate ChainsBackwards(b: Blob) {
    if b.slot == 0 then b.parent == 0 else b.parent < b.slot
  }

  ghost predicate AllChainBackwards(blobs: seq<Blob>) {
    forall i :: 0 <= i < |blobs| ==> ChainsBackwards(blobs[i])
  }

  ghost function SlotsOf(blobs: seq<Blob>): set<u64> {
    set i | 0 <= i < |blobs| :: blobs[i].slot
  }

  // ---- What the code computes for one blob ----

  /** The working copy of the slot's metadata that a blob meets, with an unknown parent filled in. */
  function EntryMeta(metas: Metas, b: Blob): SlotMeta {
    if b.slot !in metas then NewMeta(b.slot, b.parent)
    else if metas[b.slot].IsOrphan() then metas[b.slot].(parentSlot := b.parent)
    else metas[b.slot]
  }

  predicate ShouldInsert(m: SlotMeta, stored: Blobs, b: Blob) {
    && !(b.index < m.consumed || b.index in stored)
    && b.index < m.lastIndex
    && !(b.isLast && b.index < m.received)
  }

  /** The first index from `i` on at which nothing is stored. */
  function NextMissing(stored: Blobs, i: u64): (r: u64)
    ensures i <= r
    ensures forall j: u64 :: i <= j < r ==> j in stored
    ensures r < U64_MAX ==> r !in stored
    decreases U64_MAX - i
  {
    if i < U64_MAX && i in stored then NextMissing(stored, i + 1) else i
  }

  function InsertedMeta(m: SlotMeta, stored: Blobs, b: Blob): SlotMeta
    requires b.index < U64_MAX
  {
    m.(consumed := if m.consumed == b.index then NextMissing(stored, b.index + 1) else m.consumed,
       received := Max(b.index + 1, m.received),
       lastIndex := if m.lastIndex == U64_MAX && b.isLast then b.index else m.lastIndex)
  }

  function StageBlob(c: Columns, b: Blob): Columns {
    var m, stored := EntryMeta(c.metas, b), BlobsOf(c.data, b.slot);
    if ShouldInsert(m, stored, b) then
      Columns(c.metas[b.slot := InsertedMeta(m, stored, b)], c.data[b.slot := stored[b.index := b]])
    else
      Columns(c.metas[b.slot := m], c.data)
  }

  function StageAll(c: Columns, blobs: seq<Blob>): Columns {
    if blobs == [] then c
    else StageBlob(StageAll(c, blobs[..|blobs| - 1]), blobs[|blobs| - 1])
  }

  lemma {:induction false} StageAllConcat(c: Columns, a: seq<Blob>, b: seq<Blob>)
    ensures StageAll(c, a + b) == StageAll(StageAll(c, a), b)
  {
    if b == [] {
      assert a + b == a;
    } else {
      var front, last := b[..|b| - 1], b[|b| - 1];
      StageAllConcat(c, a, front);
      StageAllSnoc(c, a + front, last);
      StageAllSnoc(StageAll(c, a), front, last);
      Snoc(b);
      ConcatSnoc(a, b);
    }
  }

  lemma StageAllSnoc(c: Columns, blobs: seq<Blob>, b: Blob)
    ensures StageAll(c, blobs + [b]) == StageBlob(StageAll(c, blobs), b)
  {
    assert (blobs + [b])[..|blobs|] == blobs;
  }

  // ---- What the metadata of a slot means ----

  /**
   The metadata `m` of slot `s` against what is stored for it: `consumed` is the least index not
   stored, `received` is one past the greatest one stored, and `lastIndex` is the one stored index
   that is flagged as last, which is also the greatest.
   */
  ghost predicate SlotOk(m: SlotMeta, s: u64, stored: Blobs) {
    && m.slot == s
    && (forall i: u64 :: i < m.consumed ==> i in stored)
    && m.consumed !in stored
    && (forall i :: i in stored ==> i < m.received)
    && (m.received > 0 ==> m.received - 1 in stored)
    && (forall i :: i in stored ==> stored[i].slot == s && stored[i].index == i)
    && (forall i :: i in stored ==> (stored[i].isLast <==> i == m.lastIndex))
    && (m.lastIndex != U64_MAX ==> m.received == m.lastIndex + 1)
    && (m.IsOrphan() ==> m.received == 0)
    && (m.IsOrphan() || ParentOk(m, s))
  }

  ghost predicate ParentOk(m: SlotMeta, s: u64) {
    if s == 0 then m.parentSlot == 0 else m.parentSlot < s
  }

  ghost predicate DataOkAt(c: Columns, s: u64) {
    && (s in c.data ==> s in c.metas)
    && (s in c.metas ==> SlotOk(c.metas[s], s, BlobsOf(c.data, s)))
  }

  ghost predicate DataOk(c: Columns) {
    forall s: u64 :: DataOkAt(c, s)
  }

  /** A slot is full iff it stores exactly the indexes up to its last one. */
  lemma FullSlotIsComplete(m: SlotMeta, s: u64, stored: Blobs)
    requires SlotOk(m, s, stored)
    ensures m.IsFull() <==> m.lastIndex != U64_MAX && forall i: u64 :: i <= m.lastIndex <==> i in stored
  {
    if m.lastIndex != U64_MAX && !m.IsFull() {
      assert m.consumed <= m.lastIndex by {
        assert m.received !in stored;
      }
      assert m.consumed !in stored;
    }
  }

  // ---- How a slot may grow ----

  /** What slot `s` can become while blobs are stored: nothing that is set is ever changed back. */
  ghost predicate SlotGrows(m: SlotMeta, x: Blobs, n: SlotMeta, y: Blobs) {
    CoreGrows(m, x, n, y) && n.nextSlots == m.nextSlots && n.isConnected == m.isConnected
  }

  ghost predicate CoreGrows(m: SlotMeta, x: Blobs, n: SlotMeta, y: Blobs) {
    && m.consumed <= n.consumed
    && m.received <= n.received
    && (m.lastIndex != U64_MAX ==> n.lastIndex == m.lastIndex)
    && (!m.IsOrphan() ==> n.parentSlot == m.parentSlot)
    && (forall i :: i in x ==> i in y && y[i] == x[i])
  }

  /** The effect of staging blobs on slot `s`, where `touched` tells whether one of them was for `s`. */
  ghost predicate GrowsAt(c: Columns, d: Columns, s: u64, touched: bool) {
    && (s in d.metas <==> s in c.metas || touched)
    && (s in c.metas ==> SlotGrows(c.metas[s], BlobsOf(c.data, s), d.metas[s], BlobsOf(d.data, s)))
    && (s in c.metas && !touched ==> d.metas[s] == c.metas[s] && BlobsOf(d.data, s) == BlobsOf(c.data, s))
    && (touched ==> !d.metas[s].IsOrphan())
    && (touched && s !in c.metas ==> d.metas[s].nextSlots == [] && d.metas[s].isConnected == (s == 0))
  }

  ghost predicate Grows(c: Columns, d: Columns, touched: set<u64>) {
    forall s: u64 :: GrowsAt(c, d, s, s in touched)
  }

  lemma StoredSlotOk(m: SlotMeta, s: u64, stored: Blobs, b: Blob)
    requires SlotOk(m, s, stored) && !m.IsOrphan()
    requires b.slot == s && ShouldInsert(m, stored, b)
    ensures SlotOk(InsertedMeta(m, stored, b), s, stored[b.index := b])
    ensures SlotGrows(m, stored, InsertedMeta(m, stored, b), stored[b.index := b])
  {
    var n := InsertedMeta(m, stored, b);
    var y := stored[b.index := b];
    assert n.consumed !in y by {
      if n.consumed == U64_MAX {
        assert U64_MAX !in stored;
      }
    }
  }

  lemma EntryMetaOk(c: Columns, b: Blob)
    requires DataOkAt(c, b.slot) && ChainsBackwards(b)
    ensures SlotOk(EntryMeta(c.metas, b), b.slot, BlobsOf(c.data, b.slot)) && !EntryMeta(c.metas, b).IsOrphan()
    ensures var m, stored := EntryMeta(c.metas, b), BlobsOf(c.data, b.slot);
            if b.slot in c.metas then SlotGrows(c.metas[b.slot], stored, m, stored) else m == NewMeta(b.slot, b.parent)
  {
  }

  /** What staging a blob makes of its own slot. */
  lemma StageBlobHere(c: Columns, b: Blob) returns (n: SlotMeta, y: Blobs)
    requires DataOkAt(c, b.slot) && ChainsBackwards(b)
    ensures b.slot in StageBlob(c, b).metas && StageBlob(c, b).metas[b.slot] == n
    ensures BlobsOf(StageBlob(c, b).data, b.slot) == y
    ensures SlotOk(n, b.slot, y) && SlotGrows(EntryMeta(c.metas, b), BlobsOf(c.data, b.slot), n, y)
  {
    var m, stored := EntryMeta(c.metas, b), BlobsOf(c.data, b.slot);
    EntryMetaOk(c, b);
    n, y := m, stored;
    if ShouldInsert(m, stored, b) {
      StoredSlotOk(m, b.slot, stored, b);
      n, y := InsertedMeta(m, stored, b), stored[b.index := b];
    }
  }

  /** One blob keeps the meaning of all metadata and only ever adds to what is stored. */
  lemma StageBlobAt(c: Columns, b: Blob, s: u64)
    requires DataOkAt(c, s) && ChainsBackwards(b)
    ensures DataOkAt(StageBlob(c, b), s)
    ensures GrowsAt(c, StageBlob(c, b), s, s == b.slot)
  {
    if s == b.slot {
      EntryMetaOk(c, b);
      var n, y := StageBlobHere(c, b);
    }
  }

  lemma StageBlobOk(c: Columns, b: Blob)
    requires DataOk(c) && ChainsBackwards(b)
    ensures DataOk(StageBlob(c, b))
    ensures Grows(c, StageBlob(c, b), {b.slot})
  {
    forall s: u64 ensures DataOkAt(StageBlob(c, b), s) && GrowsAt(c, StageBlob(c, b), s, s in {b.slot}) {
      assert DataOkAt(c, s);
      StageBlobAt(c, b, s);
    }
  }

  lemma GrowsAtTrans(a: Columns, b: Columns, c: Columns, s: u64, t: bool, u: bool)
    requires GrowsAt(a, b, s, t) && GrowsAt(b, c, s, u)
    ensures GrowsAt(a, c, s, t || u)
  {
  }

  lemma GrowsTrans(a: Columns, b: Columns, c: Columns, t: set<u64>, u: set<u64>)
    requires Grows(a, b, t) && Grows(b, c, u)
    ensures Grows(a, c, t + u)
  {
    forall s: u64 ensures GrowsAt(a, c, s, s in t + u) {
      GrowsAtTrans(a, b, c, s, s in t, s in u);
    }
  }

  lemma SlotsOfSnoc(blobs: seq<Blob>)
    requires blobs != []
    ensures SlotsOf(blobs) == SlotsOf(blobs[..|blobs| - 1]) + {blobs[|blobs| - 1].slot}
  {
  }

  lemma SlotsOfConcat(a: seq<Blob>, b: seq<Blob>)
    ensures SlotsOf(a + b) == SlotsOf(a) + SlotsOf(b)
  {
    forall s | s in SlotsOf(b) ensures s in SlotsOf(a + b) {
      var i :| 0 <= i < |b| && b[i].slot == s;
      assert (a + b)[|a| + i].slot == s;
    }
    forall s | s in SlotsOf(a) ensures s in SlotsOf(a + b) {
      var i :| 0 <= i < |a| && a[i].slot == s;
      assert (a + b)[i].slot == s;
    }
  }

  /** A whole batch keeps the meaning of all metadata and never overwrites a stored blob. */
  lemma {:induction false} StageAllOk(c: Columns, blobs: seq<Blob>)
    requires DataOk(c) && AllChainBackwards(blobs)
    ensures DataOk(StageAll(c, blobs))
    ensures Grows(c, StageAll(c, blobs), SlotsOf(blobs))
  {
    if blobs != [] {
      var front, last := blobs[..|blobs| - 1], blobs[|blobs| - 1];
      var mid := StageAll(c, front);
      StageAllOk(c, front);
      StageBlobOk(mid, last);
      GrowsTrans(c, mid, StageBlob(mid, last), SlotsOf(front), {last.slot});
      SlotsOfSnoc(blobs);
    }
  }

  /**
   A slot is full without having consumed anything new only if it was full before, so comparing
   `consumed` with the backup copy detects exactly the slots that became full.
   */
  lemma NewlyFullConsumesMore(s: u64, m: SlotMeta, x: Blobs, n: SlotMeta, y: Blobs)
    requires SlotOk(m, s, x) && SlotOk(n, s, y) && CoreGrows(m, x, n, y)
    ensures n.IsFull() && n.consumed == m.consumed <==> m.IsFull()
  {
    if n.IsFull() && n.consumed == m.consumed {
      assert n.lastIndex in x;
    }
    if m.IsFull() {
      assert n.received !in y;
    }
  }

  // ---- What is stored, and which parent is believed ----

  /** A blob that is new to its slot, lies before its flagged end, and does not flag an end before what is stored. */
  ghost predicate IsNew(stored: Blobs, b: Blob) {
    && b.index < U64_MAX && b.index !in stored
    && (forall i :: i in stored && stored[i].isLast ==> b.index < i)
    && (b.isLast ==> forall i :: i in stored ==> i < b.index)
  }

  /** The three checks against the metadata, told by the stored blobs alone. */
  lemma ShouldInsertIff(m: SlotMeta, s: u64, stored: Blobs, b: Blob)
    requires SlotOk(m, s, stored)
    ensures ShouldInsert(m, stored, b) <==>
              && b.index < U64_MAX && b.index !in stored
              && (forall i :: i in stored && stored[i].isLast ==> b.index < i)
              && (b.isLast ==> forall i :: i in stored ==> i < b.index)
  {
    if m.lastIndex != U64_MAX {
      assert m.lastIndex in stored && stored[m.lastIndex].isLast;
    }
    if m.received > 0 {
      assert m.received - 1 in stored;
    }
  }

  lemma StoresWhatIsNew(c: Columns, b: Blob)
    requires DataOkAt(c, b.slot) && ChainsBackwards(b)
    ensures ShouldInsert(EntryMeta(c.metas, b), BlobsOf(c.data, b.slot), b) <==> IsNew(BlobsOf(c.data, b.slot), b)
  {
    EntryMetaOk(c, b);
    ShouldInsertIff(EntryMeta(c.metas, b), b.slot, BlobsOf(c.data, b.slot), b);
  }

  /** A blob is stored exactly if the slot's stored blobs leave room for it, and nothing else is. */
  lemma StoredIff(c: Columns, b: Blob, s: u64)
    requires DataOkAt(c, b.slot) && ChainsBackwards(b)
    ensures var x, y := BlobsOf(c.data, s), BlobsOf(StageBlob(c, b).data, s);
            y == if s == b.slot && IsNew(x, b) then x[b.index := b] else x
  {
    StoresWhatIsNew(c, b);
  }

  lemma {:induction false} Untouched(c: Columns, blobs: seq<Blob>, s: u64)
    requires s !in SlotsOf(blobs)
    ensures s in StageAll(c, blobs).metas <==> s in c.metas
    ensures s in c.metas ==> StageAll(c, blobs).metas[s] == c.metas[s]
  {
    if blobs != [] {
      SlotsOfSnoc(blobs);
      Untouched(c, blobs[..|blobs| - 1], s);
    }
  }

  /** Of a slot whose parent is not known, the first blob of a batch tells it. */
  lemma {:induction false} FirstBlobTellsParent(c: Columns, blobs: seq<Blob>, k: nat, s: u64)
    requires k < |blobs| && AllChainBackwards(blobs) && blobs[k].slot == s
    requires forall j :: 0 <= j < k ==> blobs[j].slot != s
    requires s in c.metas ==> c.metas[s].parentSlot == U64_MAX
    ensures s in StageAll(c, blobs).metas && StageAll(c, blobs).metas[s].parentSlot == blobs[k].parent
  {
    var front := blobs[..|blobs| - 1];
    if k == |front| {
      Untouched(c, front, s);
    } else {
      FirstBlobTellsParent(c, front, k, s);
      assert ChainsBackwards(blobs[k]);
    }
  }
}
