/** How a stream of entries is laid out over the slots of the ledger, and what reading the slots gives back. */
module EntryLayout {
  import opened Arithmetic
  import opened Common
  import opened Staging
  import opened Ledger
  import opened Notifications

  /** Where the next entry goes: `remaining` ticks are still missing in `slot`. */
  datatype Cursor = Cursor(slot: nat, parent: nat, index: nat, remaining: nat)

  function StartCursor(slot: u64, index: u64, ticksPerSlot: nat, ticksInSlot: nat): Cursor
    requires ticksInSlot <= ticksPerSlot
  {
    Cursor(slot, if slot == 0 then slot else slot - 1, index, ticksPerSlot - ticksInSlot)
  }

  /** The cursor moved on to the next slot if its slot has all its ticks. */
  function OpenSlot(c: Cursor, ticksPerSlot: nat): Cursor {
    if c.remaining == 0 then Cursor(c.slot + 1, c.slot, 0, ticksPerSlot) else c
  }

  function Advance(c: Cursor, ticksPerSlot: nat, e: Entry): Cursor
    requires ticksPerSlot > 0
  {
    var o := OpenSlot(c, ticksPerSlot);
    Cursor(o.slot, o.parent, o.index + 1, if e.IsTick() then o.remaining - 1 else o.remaining)
  }

  function CursorAfter(c: Cursor, ticksPerSlot: nat, entries: seq<Entry>): (r: Cursor)
    requires ticksPerSlot > 0
    ensures r.slot <= c.slot + |entries|
    ensures r.index <= c.index + |entries|
    ensures c.parent == (if c.slot == 0 then 0 else c.slot - 1) ==> r.parent == (if r.slot == 0 then 0 else r.slot - 1)
  {
    if entries == [] then c
    else Advance(CursorAfter(c, ticksPerSlot, entries[..|entries| - 1]), ticksPerSlot, entries[|entries| - 1])
  }

  ghost predicate Fits(c: Cursor, entries: seq<Entry>) {
    && c.slot + |entries| <= U64_MAX
    && c.index + |entries| <= U64_MAX
    && c.parent == if c.slot == 0 then 0 else c.slot - 1
  }

  function PlacedBlob(c: Cursor, ticksPerSlot: nat, e: Entry): Blob
    requires ticksPerSlot > 0 && c.slot < U64_MAX && c.index <= U64_MAX && c.parent <= U64_MAX
  {
    var o := OpenSlot(c, ticksPerSlot);
    Blob(o.slot, o.parent, o.index, e.IsTick() && o.remaining == 1, [e])
  }

  ghost function Layout(c: Cursor, ticksPerSlot: nat, entries: seq<Entry>): (blobs: seq<Blob>)
    requires ticksPerSlot > 0 && Fits(c, entries)
    ensures AllChainBackwards(blobs)
  {
    if entries == [] then []
    else
      var front, last := entries[..|entries| - 1], entries[|entries| - 1];
      Layout(c, ticksPerSlot, front) + [PlacedBlob(CursorAfter(c, ticksPerSlot, front), ticksPerSlot, last)]
  }

  // ---- The layout in numbers ----

  lemma {:induction false} LayoutAt(c: Cursor, ticksPerSlot: nat, entries: seq<Entry>, i: nat)
    requires ticksPerSlot > 0 && Fits(c, entries) && i < |entries|
    ensures |Layout(c, ticksPerSlot, entries)| == |entries|
    ensures Fits(c, entries[..i])
    ensures Layout(c, ticksPerSlot, entries)[i]
            == PlacedBlob(CursorAfter(c, ticksPerSlot, entries[..i]), ticksPerSlot, entries[i])
    decreases |entries|
  {
    var front := entries[..|entries| - 1];
    if i < |front| {
      LayoutAt(c, ticksPerSlot, front, i);
      assert front[..i] == entries[..i];
    } else if front != [] {
      LayoutAt(c, ticksPerSlot, front, 0);
    }
  }

  lemma {:induction false} CursorSnoc(c: Cursor, ticksPerSlot: nat, entries: seq<Entry>, i: nat)
    requires ticksPerSlot > 0 && i < |entries|
    ensures CursorAfter(c, ticksPerSlot, entries[..i + 1])
            == Advance(CursorAfter(c, ticksPerSlot, entries[..i]), ticksPerSlot, entries[i])
  {
    assert entries[..i + 1][..i] == entries[..i];
  }

  /** The ticks that the slots from `first` on have got, by the cursor and by the stream. */
  ghost predicate InStep(c: Cursor, first: nat, ticksPerSlot: nat, ticks: nat) {
    && first <= c.slot && c.remaining <= ticksPerSlot
    && Times(c.slot - first, ticksPerSlot) + (ticksPerSlot - c.remaining) == ticks
  }

  lemma {:induction false} OpenInStep(c: Cursor, first: nat, ticksPerSlot: nat, ticks: nat)
    requires ticksPerSlot > 0 && InStep(c, first, ticksPerSlot, ticks)
    ensures var o := OpenSlot(c, ticksPerSlot);
            InStep(o, first, ticksPerSlot, ticks) && o.remaining > 0
  {
    assert (c.slot + 1 - first) * ticksPerSlot == (c.slot - first) * ticksPerSlot + ticksPerSlot;
  }

  lemma {:induction false} CursorInStep(c: Cursor, ticksPerSlot: nat, ticks: nat, entries: seq<Entry>)
    requires ticks < ticksPerSlot && c.remaining == ticksPerSlot - ticks
    ensures InStep(CursorAfter(c, ticksPerSlot, entries), c.slot, ticksPerSlot, ticks + Ticks(entries))
  {
    if entries != [] {
      var front := entries[..|entries| - 1];
      CursorInStep(c, ticksPerSlot, ticks, front);
      OpenInStep(CursorAfter(c, ticksPerSlot, front), c.slot, ticksPerSlot, ticks + Ticks(front));
    }
  }

  /** Where an entry goes follows from the number of ticks before it. */
  lemma {:induction false} OpenedInNumbers(o: Cursor, first: nat, ticksPerSlot: nat, ticks: nat)
    requires InStep(o, first, ticksPerSlot, ticks) && o.remaining > 0
    ensures o.slot == first + Quotient(ticks, ticksPerSlot)
    ensures o.remaining == 1 <==> Quotient(ticks + 1, ticksPerSlot) > Quotient(ticks, ticksPerSlot)
  {
    DivModUnique(ticks, ticksPerSlot, o.slot - first, ticksPerSlot - o.remaining);
    if o.remaining == 1 {
      DivModUnique(ticks + 1, ticksPerSlot, o.slot - first + 1, 0);
    } else {
      DivModUnique(ticks + 1, ticksPerSlot, o.slot - first, ticksPerSlot - o.remaining + 1);
    }
  }

  lemma {:induction false} PlacedInNumbers(c: Cursor, first: nat, ticksPerSlot: nat, ticks: nat, e: Entry)
    requires ticksPerSlot > 0 && c.slot < U64_MAX && c.index <= U64_MAX
    requires InStep(c, first, ticksPerSlot, ticks) && c.parent == if c.slot == 0 then 0 else c.slot - 1
    ensures var b := PlacedBlob(c, ticksPerSlot, e);
            && b.slot == first + Quotient(ticks, ticksPerSlot) && b.entries == [e]
            && (b.isLast <==> e.transactions == [] && Quotient(ticks + 1, ticksPerSlot) > Quotient(ticks, ticksPerSlot))
            && b.parent == if b.slot == 0 then 0 else b.slot - 1
  {
    OpenInStep(c, first, ticksPerSlot, ticks);
    OpenedInNumbers(OpenSlot(c, ticksPerSlot), first, ticksPerSlot, ticks);
  }

  /**
   The blob of entry `i` in numbers: its slot is counted by the ticks before it, it names the slot before as its parent,
   it carries that one entry, and it is flagged iff the entry is the last tick of its slot.
   */
  lemma {:induction false} LayoutInNumbers(
    slot: u64, index: u64, ticksPerSlot: nat, ticksInSlot: nat, entries: seq<Entry>, i: nat, blobs: seq<Blob>)
    requires ticksInSlot < ticksPerSlot && i < |entries|
    requires slot + |entries| <= U64_MAX && index + |entries| <= U64_MAX
    requires blobs == Layout(StartCursor(slot, index, ticksPerSlot, ticksInSlot), ticksPerSlot, entries)
    ensures |blobs| == |entries| && blobs[i].entries == [entries[i]]
    ensures var ticks := ticksInSlot + Ticks(entries[..i]);
            && blobs[i].slot == slot + Quotient(ticks, ticksPerSlot)
            && (blobs[i].isLast <==>
                  entries[i].transactions == [] && Quotient(ticks + 1, ticksPerSlot) > Quotient(ticks, ticksPerSlot))
    ensures blobs[i].parent == if blobs[i].slot == 0 then 0 else blobs[i].slot - 1
  {
    var start, front := StartCursor(slot, index, ticksPerSlot, ticksInSlot), entries[..i];
    LayoutAt(start, ticksPerSlot, entries, i);
    CursorInStep(start, ticksPerSlot, ticksInSlot, front);
    PlacedInNumbers(
      CursorAfter(start, ticksPerSlot, front), slot, ticksPerSlot, ticksInSlot + Ticks(front), entries[i]);
  }

  /** Within a slot the indexes go up one by one, from the given one in the first slot and from 0 in the others. */
  lemma {:induction false} LayoutIndexes(
    slot: u64, index: u64, ticksPerSlot: nat, ticksInSlot: nat, entries: seq<Entry>, i: nat, blobs: seq<Blob>)
    requires ticksInSlot < ticksPerSlot && i < |entries|
    requires slot + |entries| <= U64_MAX && index + |entries| <= U64_MAX
    requires blobs == Layout(StartCursor(slot, index, ticksPerSlot, ticksInSlot), ticksPerSlot, entries)
    ensures |blobs| == |entries|
    ensures i == 0 ==> blobs[i].slot == slot && blobs[i].index == index
    ensures i > 0 ==>
              blobs[i].index == if blobs[i].slot == blobs[i - 1].slot then blobs[i - 1].index + 1 else 0
  {
    var start := StartCursor(slot, index, ticksPerSlot, ticksInSlot);
    LayoutAt(start, ticksPerSlot, entries, i);
    if i > 0 {
      LayoutAt(start, ticksPerSlot, entries, i - 1);
      CursorSnoc(start, ticksPerSlot, entries, i - 1);
    }
  }

  /** Blob `i` against the number of ticks before it and against the blob before it. */
  ghost predicate NumberedAt(
    slot: u64, index: u64, ticksPerSlot: nat, ticksInSlot: nat, entries: seq<Entry>, blobs: seq<Blob>, i: nat)
    requires ticksPerSlot > 0 && i < |entries| == |blobs|
  {
    var ticks := ticksInSlot + Ticks(entries[..i]);
    && blobs[i].slot == slot + Quotient(ticks, ticksPerSlot)
    && (blobs[i].isLast <==>
          entries[i].transactions == [] && Quotient(ticks + 1, ticksPerSlot) > Quotient(ticks, ticksPerSlot))
    && blobs[i].index == if i == 0 then index
                         else if blobs[i].slot == blobs[i - 1].slot then blobs[i - 1].index + 1 else 0
  }

  lemma {:induction false} BlobIsNumbered(
    slot: u64, index: u64, ticksPerSlot: nat, ticksInSlot: nat, entries: seq<Entry>, i: nat, blobs: seq<Blob>)
    requires ticksInSlot < ticksPerSlot && i < |entries|
    requires slot + |entries| <= U64_MAX && index + |entries| <= U64_MAX
    requires blobs == Layout(StartCursor(slot, index, ticksPerSlot, ticksInSlot), ticksPerSlot, entries)
    ensures |blobs| == |entries| && NumberedAt(slot, index, ticksPerSlot, ticksInSlot, entries, blobs, i)
    ensures blobs[i].entries == [entries[i]] && blobs[i].parent == if blobs[i].slot == 0 then 0 else blobs[i].slot - 1
  {
    LayoutInNumbers(slot, index, ticksPerSlot, ticksInSlot, entries, i, blobs);
    LayoutIndexes(slot, index, ticksPerSlot, ticksInSlot, entries, i, blobs);
  }

  /** All blobs of a layout in numbers. */
  lemma {:induction false} LayoutNumbered(
    slot: u64, index: u64, ticksPerSlot: nat, ticksInSlot: nat, entries: seq<Entry>, blobs: seq<Blob>)
    requires ticksInSlot < ticksPerSlot
    requires slot + |entries| <= U64_MAX && index + |entries| <= U64_MAX
    requires blobs == Layout(StartCursor(slot, index, ticksPerSlot, ticksInSlot), ticksPerSlot, entries)
    ensures |blobs| == |entries|
    ensures forall i: nat :: i < |blobs| ==> NumberedAt(slot, index, ticksPerSlot, ticksInSlot, entries, blobs, i)
    ensures forall i :: 0 <= i < |blobs| ==>
              blobs[i].entries == [entries[i]] && blobs[i].parent == if blobs[i].slot == 0 then 0 else blobs[i].slot - 1
  {
    if entries != [] {
      BlobIsNumbered(slot, index, ticksPerSlot, ticksInSlot, entries, 0, blobs);
    }
    forall i: nat | i < |blobs|
      ensures NumberedAt(slot, index, ticksPerSlot, ticksInSlot, entries, blobs, i)
      ensures blobs[i].entries == [entries[i]] && blobs[i].parent == if blobs[i].slot == 0 then 0 else blobs[i].slot - 1
    {
      BlobIsNumbered(slot, index, ticksPerSlot, ticksInSlot, entries, i, blobs);
    }
  }

  /** Every slot that the cursor has come through got a blob. */
  lemma {:induction false} EverySlotIsWritten(c: Cursor, ticksPerSlot: nat, entries: seq<Entry>, s: u64)
    requires ticksPerSlot > 0 && Fits(c, entries) && c.slot < s <= CursorAfter(c, ticksPerSlot, entries).slot
    ensures s in SlotsOf(Layout(c, ticksPerSlot, entries))
  {
    var front, e := entries[..|entries| - 1], entries[|entries| - 1];
    LayoutSlots(c, ticksPerSlot, entries);
    if s <= CursorAfter(c, ticksPerSlot, front).slot {
      EverySlotIsWritten(c, ticksPerSlot, front, s);
    }
  }

  lemma {:induction false} LayoutSlots(c: Cursor, ticksPerSlot: nat, entries: seq<Entry>)
    requires ticksPerSlot > 0 && Fits(c, entries) && entries != []
    ensures Fits(c, entries[..|entries| - 1])
    ensures SlotsOf(Layout(c, ticksPerSlot, entries)) ==
              SlotsOf(Layout(c, ticksPerSlot, entries[..|entries| - 1])) +
              {OpenSlot(CursorAfter(c, ticksPerSlot, entries[..|entries| - 1]), ticksPerSlot).slot}
  {
    var all := Layout(c, ticksPerSlot, entries);
    assert all[..|all| - 1] == Layout(c, ticksPerSlot, entries[..|entries| - 1]);
    SlotsOfSnoc(all);
  }

  /** Every blob of a layout names the slot before its own. */
  lemma {:induction false} LayoutParents(c: Cursor, ticksPerSlot: nat, entries: seq<Entry>, i: nat)
    requires ticksPerSlot > 0 && Fits(c, entries) && i < |entries|
    ensures |Layout(c, ticksPerSlot, entries)| == |entries|
    ensures var b := Layout(c, ticksPerSlot, entries)[i];
            b.parent == if b.slot == 0 then 0 else b.slot - 1
  {
    LayoutAt(c, ticksPerSlot, entries, i);
  }

  lemma {:induction false} FirstOfSlot(blobs: seq<Blob>, s: u64) returns (k: nat)
    requires s in SlotsOf(blobs)
    ensures k < |blobs| && blobs[k].slot == s && forall j :: 0 <= j < k ==> blobs[j].slot != s
  {
    k := 0;
    while blobs[k].slot != s
      invariant k < |blobs| && forall j :: 0 <= j < k ==> blobs[j].slot != s
      decreases |blobs| - k
    {
      k := k + 1;
    }
  }

  /** Every blob names the slot before its own. */
  ghost predicate InARow(blobs: seq<Blob>) {
    forall i :: 0 <= i < |blobs| ==> blobs[i].parent == if blobs[i].slot == 0 then 0 else blobs[i].slot - 1
  }

  /** A slot that gets such a blob and whose parent was not known hangs below the slot before it. */
  lemma {:induction false} HangsBelow(pre: Ledger, blobs: seq<Blob>, post: Ledger, s: u64)
    requires Inv(pre) && AllChainBackwards(blobs) && InARow(blobs) && BatchStep(pre, blobs, post)
    requires s in SlotsOf(blobs) && (s in pre.metas ==> pre.metas[s].parentSlot == U64_MAX)
    ensures s in post.metas && post.metas[s].parentSlot == if s == 0 then 0 else s - 1
    ensures s > 0 ==> s - 1 in post.metas && s in post.metas[s - 1].nextSlots
  {
    var k := FirstOfSlot(blobs, s);
    StepParents(pre, blobs, post, s);
    StepInv(pre, blobs, post);
    SlotMeaning(post, s);
  }

  lemma {:induction false} WrittenInARow(pre: Ledger, blobs: seq<Blob>, post: Ledger, lo: nat, hi: nat)
    requires Inv(pre) && AllChainBackwards(blobs) && InARow(blobs) && BatchStep(pre, blobs, post)
    requires forall s: u64 :: lo <= s <= hi ==> s in SlotsOf(blobs)
    ensures forall s: u64 :: lo <= s <= hi && (s in pre.metas ==> pre.metas[s].parentSlot == U64_MAX) ==>
              && s in post.metas && post.metas[s].parentSlot == (if s == 0 then 0 else s - 1)
              && (s > 0 ==> s - 1 in post.metas && s in post.metas[s - 1].nextSlots)
  {
    forall s: u64 | lo <= s <= hi && (s in pre.metas ==> pre.metas[s].parentSlot == U64_MAX)
      ensures s in post.metas && post.metas[s].parentSlot == (if s == 0 then 0 else s - 1)
      ensures s > 0 ==> s - 1 in post.metas && s in post.metas[s - 1].nextSlots
    {
      HangsBelow(pre, blobs, post, s);
    }
  }

  /** A layout goes to all slots that it comes through, and chains them. */
  lemma {:induction false} LayoutInARow(c: Cursor, ticksPerSlot: nat, entries: seq<Entry>, blobs: seq<Blob>, last: nat)
    requires ticksPerSlot > 0 && Fits(c, entries) && entries != [] && c.remaining > 0
    requires blobs == Layout(c, ticksPerSlot, entries) && last == CursorAfter(c, ticksPerSlot, entries).slot
    ensures AllChainBackwards(blobs) && InARow(blobs) && forall s: u64 :: c.slot <= s <= last ==> s in SlotsOf(blobs)
  {
    LayoutAt(c, ticksPerSlot, entries, 0);
    forall i | 0 <= i < |blobs| ensures blobs[i].parent == if blobs[i].slot == 0 then 0 else blobs[i].slot - 1 {
      LayoutParents(c, ticksPerSlot, entries, i);
    }
    forall s: u64 | c.slot <= s <= last ensures s in SlotsOf(blobs) {
      if s == c.slot {
        assert blobs[0].slot == s;
      } else {
        EverySlotIsWritten(c, ticksPerSlot, entries, s);
      }
    }
  }

  /** Writing a stream chains the slots that it goes to, as far as their parents were not known, in a row. */
  lemma {:induction false} LayoutChains(
    pre: Ledger, c: Cursor, ticksPerSlot: nat, entries: seq<Entry>, post: Ledger, blobs: seq<Blob>, last: nat)
    requires Inv(pre) && ticksPerSlot > 0 && Fits(c, entries) && entries != [] && c.remaining > 0
    requires blobs == Layout(c, ticksPerSlot, entries) && last == CursorAfter(c, ticksPerSlot, entries).slot
    requires BatchStep(pre, blobs, post)
    ensures forall s: u64 :: c.slot <= s <= last && (s in pre.metas ==> pre.metas[s].parentSlot == U64_MAX) ==>
              && s in post.metas && post.metas[s].parentSlot == (if s == 0 then 0 else s - 1)
              && (s > 0 ==> s - 1 in post.metas && s in post.metas[s - 1].nextSlots)
  {
    LayoutInARow(c, ticksPerSlot, entries, blobs, last);
    WrittenInARow(pre, blobs, post, c.slot, last);
  }

  // ---- Reading back ----

  /** The entries of the blobs stored at `start`, `start + 1`, and so on up to before `end`. */
  ghost function EntriesBetween(stored: Blobs, start: nat, end: nat): seq<Entry> {
    if end <= start then []
    else EntriesBetween(stored, start, end - 1) + if end - 1 in stored then stored[end - 1].entries else []
  }

  lemma EntriesOfNext(stored: Blobs, start: nat, end: nat)
    requires start <= end && end in stored
    ensures EntriesBetween(stored, start, end + 1) == EntriesBetween(stored, start, end) + stored[end].entries
  {
  }

  /** What reading a slot from its first blob on yields. */
  ghost function SlotEntries(data: Data, s: u64): seq<Entry> {
    EntriesBetween(BlobsOf(data, s), 0, NextMissing(BlobsOf(data, s), 0))
  }

  /** The entries of the slots from `a` up to before `b`. */
  ghost function EntriesOfSlots(data: Data, a: nat, b: nat): seq<Entry>
    requires b <= U64_MAX
  {
    if b <= a then [] else EntriesOfSlots(data, a, b - 1) + SlotEntries(data, b - 1)
  }

  ghost predicate EndsInTick(entries: seq<Entry>) {
    entries != [] && entries[|entries| - 1].IsTick()
  }

  // ---- The round trip ----

  /** Slot `s` stores exactly the indexes below `k`, and the last of them is flagged iff `closed`. */
  ghost predicate FilledTo(stored: Blobs, k: nat, closed: bool) {
    && (forall i: u64 :: i in stored <==> i < k)
    && (forall i :: i in stored ==> (stored[i].isLast <==> closed && i == k - 1))
  }

  lemma AppendBlob(c: Columns, b: Blob)
    requires DataOk(c) && b.index < U64_MAX && FilledTo(BlobsOf(c.data, b.slot), b.index, false)
    ensures StageBlob(c, b).data == c.data[b.slot := BlobsOf(c.data, b.slot)[b.index := b]]
    ensures FilledTo(BlobsOf(StageBlob(c, b).data, b.slot), b.index + 1, b.isLast)
  {
    assert DataOkAt(c, b.slot);
    var stored := BlobsOf(c.data, b.slot);
    var m := EntryMeta(c.metas, b);
    assert b.index !in stored;
    if b.index > 0 {
      assert b.index - 1 in stored;
    }
    assert m.consumed == b.index && m.received == b.index && m.lastIndex == U64_MAX;
  }

  lemma FilledIsConsecutive(stored: Blobs, k: nat, closed: bool)
    requires FilledTo(stored, k, closed) && k < U64_MAX
    ensures NextMissing(stored, 0) == k
  {
    assert k !in stored;
  }

  lemma {:induction false} EntriesBetweenFrame(x: Blobs, y: Blobs, end: nat)
    requires forall i: u64 :: i < end ==> (i in x <==> i in y) && (i in x ==> x[i] == y[i])
    requires end <= U64_MAX
    ensures EntriesBetween(x, 0, end) == EntriesBetween(y, 0, end)
  {
    if end > 0 {
      EntriesBetweenFrame(x, y, end - 1);
    }
  }

  lemma {:induction false} EntriesOfSlotsFrame(d: Data, e: Data, a: nat, b: nat)
    requires b <= U64_MAX && forall s: u64 :: a <= s < b ==> BlobsOf(d, s) == BlobsOf(e, s)
    ensures EntriesOfSlots(d, a, b) == EntriesOfSlots(e, a, b)
  {
    if a < b {
      EntriesOfSlotsFrame(d, e, a, b - 1);
      SlotEntriesFrame(d, e, b - 1);
    }
  }

  lemma SlotEntriesFrame(d: Data, e: Data, s: u64)
    requires BlobsOf(d, s) == BlobsOf(e, s)
    ensures SlotEntries(d, s) == SlotEntries(e, s)
  {
  }

  /** A finished slot: complete, flagged at its end, with the given number of ticks and a tick as its last entry. */
  ghost predicate DoneSlot(data: Data, s: u64, ticks: nat) {
    var stored, es := BlobsOf(data, s), SlotEntries(data, s);
    && FilledTo(stored, NextMissing(stored, 0), true)
    && EndsInTick(es)
    && Ticks(es) == ticks
  }

  /** The slot the cursor is in holds what was written to it so far. */
  ghost predicate OpenAt(data: Data, c: Cursor, ticks: nat, written: seq<Entry>)
    requires c.slot <= U64_MAX
  {
    var stored := BlobsOf(data, c.slot);
    && FilledTo(stored, c.index, c.remaining == 0)
    && EntriesBetween(stored, 0, c.index) == written
    && Ticks(written) + c.remaining == ticks
    && (c.remaining == 0 ==> EndsInTick(written))
  }

  ghost function TicksNeeded(start: Cursor, ticksPerSlot: nat, s: nat): nat {
    if s == start.slot then start.remaining else ticksPerSlot
  }

  ghost predicate AroundCursor(data: Data, start: Cursor, ticksPerSlot: nat, c: Cursor, hi: nat, s: u64) {
    && (start.slot <= s < c.slot ==> DoneSlot(data, s, TicksNeeded(start, ticksPerSlot, s)))
    && (c.slot < s <= hi ==> BlobsOf(data, s) == map[])
  }

  /**
   The data column after `written` was laid out from `start` on: `here` went to the slot the cursor
   `c` is in now, the rest to the slots before it, and the slots after it up to `hi` are unused.
   */
  ghost predicate LaidOut(
    data: Data, start: Cursor, ticksPerSlot: nat, c: Cursor, here: seq<Entry>, written: seq<Entry>, hi: nat)
  {
    && start.slot <= c.slot <= hi < U64_MAX && c.index < U64_MAX
    && (forall s: u64 :: AroundCursor(data, start, ticksPerSlot, c, hi, s))
    && EntriesOfSlots(data, start.slot, c.slot) + here == written
    && OpenAt(data, c, TicksNeeded(start, ticksPerSlot, c.slot), here)
  }

  lemma CloseSlot(data: Data, c: Cursor, ticks: nat, here: seq<Entry>)
    requires c.slot < U64_MAX && c.index < U64_MAX && c.remaining == 0 && OpenAt(data, c, ticks, here)
    ensures SlotEntries(data, c.slot) == here && DoneSlot(data, c.slot, ticks)
  {
    FilledIsConsecutive(BlobsOf(data, c.slot), c.index, true);
  }

  /** Moving on to the next slot leaves a finished slot behind. */
  lemma OpenNextSlot(
    data: Data, start: Cursor, ticksPerSlot: nat, c: Cursor, here: seq<Entry>, written: seq<Entry>, hi: nat)
    requires LaidOut(data, start, ticksPerSlot, c, here, written, hi)
    requires c.slot < hi && c.remaining == 0 && ticksPerSlot > 0
    ensures LaidOut(data, start, ticksPerSlot, OpenSlot(c, ticksPerSlot), [], written, hi)
  {
    var o := OpenSlot(c, ticksPerSlot);
    CloseSlot(data, c, TicksNeeded(start, ticksPerSlot, c.slot), here);
    AroundNext(data, start, ticksPerSlot, c, o, hi);
    EmptyIsOpen(data, o, ticksPerSlot);
    NothingMore(data, start, c, here, written);
  }

  lemma AroundNext(data: Data, start: Cursor, ticksPerSlot: nat, c: Cursor, o: Cursor, hi: nat)
    requires start.slot <= c.slot < hi < U64_MAX && o.slot == c.slot + 1
    requires DoneSlot(data, c.slot, TicksNeeded(start, ticksPerSlot, c.slot))
    requires forall s: u64 :: AroundCursor(data, start, ticksPerSlot, c, hi, s)
    ensures forall s: u64 :: AroundCursor(data, start, ticksPerSlot, o, hi, s)
    ensures BlobsOf(data, o.slot) == map[]
  {
    forall s: u64 ensures AroundCursor(data, start, ticksPerSlot, o, hi, s) {
      assert AroundCursor(data, start, ticksPerSlot, c, hi, s);
    }
    assert AroundCursor(data, start, ticksPerSlot, c, hi, o.slot);
  }

  lemma EmptyIsOpen(data: Data, o: Cursor, ticksPerSlot: nat)
    requires o.slot <= U64_MAX && o.index == 0 && o.remaining == ticksPerSlot > 0 && BlobsOf(data, o.slot) == map[]
    ensures OpenAt(data, o, ticksPerSlot, [])
  {
  }

  lemma NothingMore(data: Data, start: Cursor, c: Cursor, here: seq<Entry>, written: seq<Entry>)
    requires start.slot <= c.slot < U64_MAX && SlotEntries(data, c.slot) == here
    requires EntriesOfSlots(data, start.slot, c.slot) + here == written
    ensures EntriesOfSlots(data, start.slot, c.slot + 1) + [] == written
  {
    assert written + [] == written;
  }

  lemma AppendOpen(c: Columns, o: Cursor, ticksPerSlot: nat, ticks: nat, e: Entry, here: seq<Entry>)
    requires DataOk(c) && 0 < o.remaining && o.slot < U64_MAX && o.index < U64_MAX && o.parent <= U64_MAX
    requires ticksPerSlot > 0 && OpenAt(c.data, o, ticks, here)
    ensures OpenAt(StageBlob(c, PlacedBlob(o, ticksPerSlot, e)).data, Advance(o, ticksPerSlot, e), ticks, here + [e])
  {
    var b := PlacedBlob(o, ticksPerSlot, e);
    AppendBlob(c, b);
    EntriesWithOneMore(BlobsOf(c.data, o.slot), b);
    TicksConcat(here, [e]);
  }

  lemma EntriesWithOneMore(stored: Blobs, b: Blob)
    requires b.index !in stored && b.index < U64_MAX
    ensures EntriesBetween(stored[b.index := b], 0, b.index + 1) == EntriesBetween(stored, 0, b.index) + b.entries
  {
    EntriesBetweenFrame(stored, stored[b.index := b], b.index);
  }

  /** Writing one more entry keeps the layout. */
  lemma WriteOne(
    c: Columns, start: Cursor, ticksPerSlot: nat, o: Cursor, here: seq<Entry>, written: seq<Entry>, hi: nat, e: Entry)
    requires DataOk(c) && 0 < o.remaining && ticksPerSlot > 0 && o.parent <= U64_MAX && o.index < U64_MAX - 1
    requires LaidOut(c.data, start, ticksPerSlot, o, here, written, hi)
    ensures LaidOut(StageBlob(c, PlacedBlob(o, ticksPerSlot, e)).data, start, ticksPerSlot,
                    Advance(o, ticksPerSlot, e), here + [e], written + [e], hi)
  {
    var b := PlacedBlob(o, ticksPerSlot, e);
    var d := c.data[b.slot := BlobsOf(c.data, b.slot)[b.index := b]];
    AppendOpen(c, o, ticksPerSlot, TicksNeeded(start, ticksPerSlot, o.slot), e, here);
    AppendBlob(c, b);
    LaidOutFrame(c.data, d, start, ticksPerSlot, o, Advance(o, ticksPerSlot, e), hi);
    Associative(EntriesOfSlots(c.data, start.slot, o.slot), here, [e]);
  }

  lemma LaidOutFrame(
    data: Data, d: Data, start: Cursor, ticksPerSlot: nat, o: Cursor, a: Cursor, hi: nat)
    requires start.slot <= o.slot <= hi < U64_MAX && a.slot == o.slot
    requires forall s: u64 :: s != o.slot ==> BlobsOf(d, s) == BlobsOf(data, s)
    requires forall s: u64 :: AroundCursor(data, start, ticksPerSlot, o, hi, s)
    ensures forall s: u64 :: AroundCursor(d, start, ticksPerSlot, a, hi, s)
    ensures EntriesOfSlots(d, start.slot, o.slot) == EntriesOfSlots(data, start.slot, o.slot)
  {
    EntriesOfSlotsFrame(data, d, start.slot, o.slot);
    forall s: u64 ensures AroundCursor(d, start, ticksPerSlot, a, hi, s) {
      assert AroundCursor(data, start, ticksPerSlot, o, hi, s);
    }
  }

  // ---- The whole stream ----

  lemma LayoutStep(
    c: Columns, start: Cursor, ticksPerSlot: nat, cur: Cursor, here: seq<Entry>, written: seq<Entry>, hi: nat, e: Entry)
    returns (here': seq<Entry>)
    requires DataOk(c) && ticksPerSlot > 0 && cur.parent <= U64_MAX && cur.index < U64_MAX - 1
    requires LaidOut(c.data, start, ticksPerSlot, cur, here, written, hi) && OpenSlot(cur, ticksPerSlot).slot <= hi
    ensures LaidOut(StageBlob(c, PlacedBlob(cur, ticksPerSlot, e)).data, start, ticksPerSlot,
                    Advance(cur, ticksPerSlot, e), here', written + [e], hi)
  {
    here' := here;
    if cur.remaining == 0 {
      OpenNextSlot(c.data, start, ticksPerSlot, cur, here, written, hi);
      here' := [];
    }
    OpenedIsOpen(cur, ticksPerSlot, e);
    WriteOne(c, start, ticksPerSlot, OpenSlot(cur, ticksPerSlot), here', written, hi, e);
    here' := here' + [e];
  }

  /** It makes no difference whether the next slot was opened before. */
  lemma OpenedIsOpen(cur: Cursor, ticksPerSlot: nat, e: Entry)
    requires ticksPerSlot > 0 && OpenSlot(cur, ticksPerSlot).slot < U64_MAX
    requires cur.index <= U64_MAX && cur.parent <= U64_MAX
    ensures var o := OpenSlot(cur, ticksPerSlot);
            && o.remaining > 0 && o.index <= cur.index && o.parent <= U64_MAX && (cur.remaining > 0 ==> o == cur)
            && PlacedBlob(o, ticksPerSlot, e) == PlacedBlob(cur, ticksPerSlot, e)
            && Advance(o, ticksPerSlot, e) == Advance(cur, ticksPerSlot, e)
  {
  }

  lemma {:induction false} LayoutAll(c: Columns, start: Cursor, ticksPerSlot: nat, entries: seq<Entry>, hi: nat)
    returns (here: seq<Entry>)
    requires DataOk(c) && ticksPerSlot > 0 && start.index == 0 && 0 < start.remaining
    requires Fits(start, entries) && |entries| < U64_MAX
    requires CursorAfter(start, ticksPerSlot, entries).slot <= hi < U64_MAX
    requires Unused(c.data, start.slot, hi)
    ensures LaidOut(StageAll(c, Layout(start, ticksPerSlot, entries)).data, start, ticksPerSlot,
                    CursorAfter(start, ticksPerSlot, entries), here, entries, hi)
  {
    if entries == [] {
      here := [];
      LayoutStart(c.data, start, ticksPerSlot, hi);
    } else {
      var front, e := entries[..|entries| - 1], entries[|entries| - 1];
      var before := LayoutAll(c, start, ticksPerSlot, front, hi);
      var d, cur := StageAll(c, Layout(start, ticksPerSlot, front)), CursorAfter(start, ticksPerSlot, front);
      assert DataOk(d) by { StageAllOk(c, Layout(start, ticksPerSlot, front)); }
      here := LayoutStep(d, start, ticksPerSlot, cur, before, front, hi, e);
      Snoc(entries);
      StageLayout(c, start, ticksPerSlot, entries);
      assert CursorAfter(start, ticksPerSlot, entries) == Advance(cur, ticksPerSlot, e);
    }
  }

  ghost predicate Unused(data: Data, lo: nat, hi: nat) {
    forall s: u64 :: lo <= s <= hi ==> BlobsOf(data, s) == map[]
  }

  lemma LayoutStart(data: Data, start: Cursor, ticksPerSlot: nat, hi: nat)
    requires start.slot <= hi < U64_MAX && start.index == 0 && 0 < start.remaining
    requires Unused(data, start.slot, hi)
    ensures LaidOut(data, start, ticksPerSlot, start, [], [], hi)
  {
    forall s: u64 ensures AroundCursor(data, start, ticksPerSlot, start, hi, s) {
    }
  }

  lemma StageLayout(c: Columns, start: Cursor, ticksPerSlot: nat, entries: seq<Entry>)
    requires entries != [] && ticksPerSlot > 0 && Fits(start, entries)
    ensures var front, e := entries[..|entries| - 1], entries[|entries| - 1];
            StageAll(c, Layout(start, ticksPerSlot, entries))
            == StageBlob(StageAll(c, Layout(start, ticksPerSlot, front)),
                         PlacedBlob(CursorAfter(start, ticksPerSlot, front), ticksPerSlot, e))
  {
    var all := Layout(start, ticksPerSlot, entries);
    assert all[..|all| - 1] == Layout(start, ticksPerSlot, entries[..|entries| - 1]);
  }

  /** A full slot with the given number of ticks, the last of which is its last entry. */
  ghost predicate FinishedSlot(l: Ledger, s: u64, ticks: nat) {
    IsFullIn(l.metas, s) && EndsInTick(SlotEntries(l.data, s)) && Ticks(SlotEntries(l.data, s)) == ticks
  }

  /** The slots up to `last` read back as the stream, and those before `last` are finished. */
  ghost predicate ReadsBack(l: Ledger, start: Cursor, ticksPerSlot: nat, last: nat, entries: seq<Entry>)
    requires last < U64_MAX
  {
    && EntriesOfSlots(l.data, start.slot, last + 1) == entries
    && forall s: u64 :: start.slot <= s < last ==> FinishedSlot(l, s, TicksNeeded(start, ticksPerSlot, s))
  }

  /**
   Writing a stream of entries from the start of an unused range of slots and reading the slots back
   gives the stream again, and every slot before the last is complete, holds its share of the ticks
   and ends in one.
   */
  lemma WriteThenRead(pre: Ledger, start: Cursor, ticksPerSlot: nat, entries: seq<Entry>, post: Ledger)
    requires Inv(pre) && ticksPerSlot > 0 && start.index == 0 && 0 < start.remaining && Fits(start, entries)
    requires BatchStep(pre, Layout(start, ticksPerSlot, entries), post)
    requires |entries| < U64_MAX && CursorAfter(start, ticksPerSlot, entries).slot < U64_MAX
    requires Unused(pre.data, start.slot, CursorAfter(start, ticksPerSlot, entries).slot)
    ensures ReadsBack(post, start, ticksPerSlot, CursorAfter(start, ticksPerSlot, entries).slot, entries)
  {
    var here := LayoutAll(pre.Cols(), start, ticksPerSlot, entries, CursorAfter(start, ticksPerSlot, entries).slot);
    assert post.data == StageAll(pre.Cols(), Layout(start, ticksPerSlot, entries)).data;
    StepInv(pre, Layout(start, ticksPerSlot, entries), post);
    ReadStream(post, start, ticksPerSlot, entries, here);
  }

  lemma ReadStream(l: Ledger, start: Cursor, ticksPerSlot: nat, entries: seq<Entry>, here: seq<Entry>)
    requires Inv(l) && ticksPerSlot > 0 && CursorAfter(start, ticksPerSlot, entries).slot < U64_MAX
    requires LaidOut(l.data, start, ticksPerSlot, CursorAfter(start, ticksPerSlot, entries), here, entries,
                     CursorAfter(start, ticksPerSlot, entries).slot)
    ensures ReadsBack(l, start, ticksPerSlot, CursorAfter(start, ticksPerSlot, entries).slot, entries)
  {
    ReadLayout(l, start, ticksPerSlot, CursorAfter(start, ticksPerSlot, entries), here, entries);
  }

  lemma ReadLayout(l: Ledger, start: Cursor, ticksPerSlot: nat, c: Cursor, here: seq<Entry>, written: seq<Entry>)
    requires Inv(l) && LaidOut(l.data, start, ticksPerSlot, c, here, written, c.slot)
    ensures ReadsBack(l, start, ticksPerSlot, c.slot, written)
  {
    FilledIsConsecutive(BlobsOf(l.data, c.slot), c.index, c.remaining == 0);
    forall s: u64 | start.slot <= s < c.slot
      ensures FinishedSlot(l, s, TicksNeeded(start, ticksPerSlot, s))
    {
      assert AroundCursor(l.data, start, ticksPerSlot, c, c.slot, s);
      DoneSlotIsFull(l, s, TicksNeeded(start, ticksPerSlot, s));
    }
  }

  lemma DoneSlotIsFull(l: Ledger, s: u64, ticks: nat)
    requires Inv(l) && DoneSlot(l.data, s, ticks)
    ensures IsFullIn(l.metas, s)
  {
    assert DataOkAt(l.Cols(), s);
    var stored := BlobsOf(l.data, s);
    var k := NextMissing(stored, 0);
    assert k > 0 && k - 1 in stored && stored[k - 1].isLast;
    assert k !in stored;
    FullSlotIsComplete(l.metas[s], s, stored);
  }

  lemma {:induction false} ReadBackIfUnused(
    pre: Ledger, start: Cursor, ticksPerSlot: nat, entries: seq<Entry>, post: Ledger, blobs: seq<Blob>, last: nat)
    requires Inv(pre) && ticksPerSlot > 0 && Fits(start, entries) && 0 < start.remaining && |entries| < U64_MAX
    requires blobs == Layout(start, ticksPerSlot, entries) && last == CursorAfter(start, ticksPerSlot, entries).slot
    requires last < U64_MAX && BatchStep(pre, blobs, post)
    ensures start.index == 0 && Unused(pre.data, start.slot, last) ==>
              ReadsBack(post, start, ticksPerSlot, last, entries)
  {
    if start.index == 0 && Unused(pre.data, start.slot, last) {
      WriteThenRead(pre, start, ticksPerSlot, entries, post);
    }
  }
}
