/**
 Chaining: how the slots touched by a batch are linked to their parents and how the `isConnected`
 mark is carried down the tree of slots. The working slots are visited in any order, so the
 invariants name the slots that still wait to be linked (`unlinked`) and the slots that became
 full and still wait to be propagated from (`waiting`).
 */
module Chaining {
  import opened Common
  import opened Staging

  /** `c` hangs below `p`: its parent is known to be `p` and the link has been made. */
  ghost predicate IsChild(v: Metas, unlinked: set<u64>, p: u64, c: u64) {
    c in v && c > 0 && c !in unlinked && !v[c].IsOrphan() && v[c].parentSlot == p
  }

  ghost predicate Passes(v: Metas, p: u64) {
    p in v && v[p].isConnected && v[p].IsFull()
  }

  /** `nextSlots` of `p` lists `c` iff `c` hangs below `p`. */
  ghost predicate LinkAt(v: Metas, unlinked: set<u64>, p: u64, c: u64) {
    p in v ==> (c in v[p].nextSlots <==> IsChild(v, unlinked, p, c))
  }

  ghost predicate BaseAt(v: Metas, unlinked: set<u64>, s: u64) {
    s in v ==>
      && NoDuplicates(v[s].nextSlots)
      && (v[s].IsOrphan() || ParentOk(v[s], s))
      && (s == 0 ==> v[s].isConnected)
      && (s > 0 && s !in unlinked && !v[s].IsOrphan() ==> v[s].parentSlot in v)
      && (s > 0 && v[s].isConnected ==> s !in unlinked && !v[s].IsOrphan() && Passes(v, v[s].parentSlot))
  }

  ghost predicate CompleteAt(v: Metas, unlinked: set<u64>, waiting: set<u64>, c: u64) {
    forall p: u64 :: IsChild(v, unlinked, p, c) && Passes(v, p) && p !in waiting ==> v[c].isConnected
  }

  ghost predicate PendingAt(v: Metas, unlinked: set<u64>, waiting: set<u64>, s: u64) {
    s in unlinked ==> s in v && !v[s].IsOrphan() && (v[s].IsFull() ==> s in waiting)
  }

  ghost predicate Linked(v: Metas, unlinked: set<u64>) {
    && (forall s: u64 :: BaseAt(v, unlinked, s))
    && (forall p: u64, c: u64 :: LinkAt(v, unlinked, p, c))
  }

  ghost predicate Complete(v: Metas, unlinked: set<u64>, waiting: set<u64>) {
    forall c: u64 :: CompleteAt(v, unlinked, waiting, c)
  }

  ghost predicate Pending(v: Metas, unlinked: set<u64>, waiting: set<u64>) {
    forall s: u64 :: PendingAt(v, unlinked, waiting, s)
  }

  /** The state of the metadata between two working slots. */
  ghost predicate Chained(v: Metas, unlinked: set<u64>, waiting: set<u64>) {
    Linked(v, unlinked) && Complete(v, unlinked, waiting) && Pending(v, unlinked, waiting)
  }

  // ---- Linking one slot to its parent ----

  /** The metadata with a blank orphan for `p` if `p` was unknown. */
  function WithMeta(v: Metas, p: u64): Metas {
    if p in v then v else v[p := NewMeta(p, U64_MAX)]
  }

  function Link(v: Metas, slot: u64): Metas
    requires slot in v
  {
    var p := v[slot].parentSlot;
    var w := WithMeta(v, p);
    var prev := w[p].(nextSlots := w[p].nextSlots + [slot]);
    var x := w[p := prev];
    x[slot := x[slot].(isConnected := prev.isConnected && prev.IsFull())]
  }

  lemma LinkBase(v: Metas, unlinked: set<u64>, waiting: set<u64>, slot: u64, s: u64)
    requires Chained(v, unlinked, waiting) && slot in unlinked && slot > 0 && slot in v
    ensures BaseAt(Link(v, slot), unlinked - {slot}, s)
  {
    var p := v[slot].parentSlot;
    var w := Link(v, slot);
    assert PendingAt(v, unlinked, waiting, slot) && BaseAt(v, unlinked, slot) && BaseAt(v, unlinked, s);
    assert BaseAt(v, unlinked, p) && LinkAt(v, unlinked, p, slot);
    if s == p {
      assert w[p].nextSlots == (if p in v then v[p].nextSlots else []) + [slot];
    }
  }

  lemma LinkLink(v: Metas, unlinked: set<u64>, waiting: set<u64>, slot: u64, p: u64, c: u64)
    requires Chained(v, unlinked, waiting) && slot in unlinked && slot > 0 && slot in v
    ensures LinkAt(Link(v, slot), unlinked - {slot}, p, c)
  {
    assert PendingAt(v, unlinked, waiting, slot) && BaseAt(v, unlinked, slot);
    assert LinkAt(v, unlinked, p, c) && BaseAt(v, unlinked, c);
  }

  lemma LinkComplete(v: Metas, unlinked: set<u64>, waiting: set<u64>, slot: u64, c: u64)
    requires Chained(v, unlinked, waiting) && slot in unlinked && slot > 0 && slot in v
    ensures CompleteAt(Link(v, slot), unlinked - {slot}, waiting, c)
  {
    assert PendingAt(v, unlinked, waiting, slot) && BaseAt(v, unlinked, slot);
    assert CompleteAt(v, unlinked, waiting, c) && BaseAt(v, unlinked, c);
    var w := Link(v, slot);
    forall p: u64 | IsChild(w, unlinked - {slot}, p, c) && Passes(w, p) && p !in waiting
      ensures w[c].isConnected
    {
      if c != slot {
        assert IsChild(v, unlinked, p, c);
      }
    }
  }

  /** Linking a waiting slot to its parent keeps the chaining invariant. */
  lemma LinkChained(v: Metas, unlinked: set<u64>, waiting: set<u64>, slot: u64)
    requires Chained(v, unlinked, waiting) && slot in unlinked && slot > 0 && slot in v
    ensures Chained(Link(v, slot), unlinked - {slot}, waiting)
  {
    var w := Link(v, slot);
    forall s: u64 ensures BaseAt(w, unlinked - {slot}, s) {
      LinkBase(v, unlinked, waiting, slot, s);
    }
    forall p: u64, c: u64 ensures LinkAt(w, unlinked - {slot}, p, c) {
      LinkLink(v, unlinked, waiting, slot, p, c);
    }
    forall c: u64 ensures CompleteAt(w, unlinked - {slot}, waiting, c) {
      LinkComplete(v, unlinked, waiting, slot, c);
    }
    forall s: u64 ensures PendingAt(w, unlinked - {slot}, waiting, s) {
      assert PendingAt(v, unlinked, waiting, s);
    }
  }

  // ---- Carrying the connected mark down from a slot that became full ----

  function Mark(v: Metas, x: u64): Metas
    requires x in v
  {
    v[x := v[x].(isConnected := true)]
  }

  ghost predicate StackAt(v: Metas, unlinked: set<u64>, slot: u64, visited: set<u64>, x: u64) {
    && x in v && x !in visited && slot <= x
    && (x == slot ==> v[x].isConnected)
    && (x > slot ==> x !in unlinked && !v[x].IsOrphan() && v[x].parentSlot in visited && Passes(v, v[x].parentSlot))
  }

  ghost predicate VisitedAt(v: Metas, slot: u64, visited: set<u64>, y: u64) {
    y in visited ==> y in v && slot <= y && (y > slot ==> !v[y].IsOrphan() && v[y].parentSlot in visited)
  }

  ghost predicate FrontAt(v: Metas, unlinked: set<u64>, waiting: set<u64>, stack: seq<u64>, c: u64) {
    forall p: u64 :: IsChild(v, unlinked, p, c) && Passes(v, p) && p !in waiting ==>
      v[c].isConnected || c in stack || p in stack
  }

  /** The traversal from `slot`: what is on the stack is next to what was visited. */
  ghost predicate Traversing(
    v: Metas, unlinked: set<u64>, waiting: set<u64>, slot: u64, stack: seq<u64>, visited: set<u64>)
  {
    && Linked(v, unlinked)
    && NoDuplicates(stack)
    && (forall i :: 0 <= i < |stack| ==> StackAt(v, unlinked, slot, visited, stack[i]))
    && (forall y: u64 :: VisitedAt(v, slot, visited, y))
    && (forall c: u64 :: FrontAt(v, unlinked, waiting, stack, c))
  }

  lemma MarkLinked(v: Metas, unlinked: set<u64>, x: u64)
    requires Linked(v, unlinked) && x in v
    requires x > 0 ==> v[x].isConnected || (x !in unlinked && !v[x].IsOrphan() && Passes(v, v[x].parentSlot))
    ensures Linked(Mark(v, x), unlinked)
  {
    var w := Mark(v, x);
    forall s: u64 ensures BaseAt(w, unlinked, s) {
      assert BaseAt(v, unlinked, s) && BaseAt(v, unlinked, x);
    }
    forall p: u64, c: u64 ensures LinkAt(w, unlinked, p, c) {
      assert LinkAt(v, unlinked, p, c);
    }
  }

  ghost function PoppedStack(v: Metas, stack: seq<u64>): seq<u64>
    requires stack != [] && stack[|stack| - 1] in v
  {
    var x := stack[|stack| - 1];
    stack[..|stack| - 1] + if v[x].IsFull() then v[x].nextSlots else []
  }

  /** The children of the popped slot are new to the traversal. */
  lemma ChildrenAreNew(
    v: Metas, unlinked: set<u64>, waiting: set<u64>, slot: u64, stack: seq<u64>, visited: set<u64>, c: u64)
    requires stack != [] && Traversing(v, unlinked, waiting, slot, stack, visited)
    requires stack[|stack| - 1] in v && c in v[stack[|stack| - 1]].nextSlots
    ensures c !in stack && c !in visited && c > stack[|stack| - 1] >= slot
    ensures c in v && c !in unlinked && !v[c].IsOrphan() && v[c].parentSlot == stack[|stack| - 1]
  {
    var x := stack[|stack| - 1];
    assert StackAt(v, unlinked, slot, visited, x);
    assert LinkAt(v, unlinked, x, c) && BaseAt(v, unlinked, c) && VisitedAt(v, slot, visited, c);
  }

  lemma PoppedStackOk(
    v: Metas, unlinked: set<u64>, waiting: set<u64>, slot: u64, stack: seq<u64>, visited: set<u64>)
    requires stack != [] && Traversing(v, unlinked, waiting, slot, stack, visited)
    requires stack[|stack| - 1] in v
    ensures NoDuplicates(PoppedStack(v, stack))
    ensures var x := stack[|stack| - 1];
            forall i :: 0 <= i < |PoppedStack(v, stack)| ==>
              StackAt(Mark(v, x), unlinked, slot, visited + {x}, PoppedStack(v, stack)[i])
  {
    var x := stack[|stack| - 1];
    var next := PoppedStack(v, stack);
    var n := |stack| - 1;
    assert StackAt(v, unlinked, slot, visited, stack[n]) && BaseAt(v, unlinked, x);
    forall i | 0 <= i < |next| ensures StackAt(Mark(v, x), unlinked, slot, visited + {x}, next[i]) {
      if i < n {
        assert StackAt(v, unlinked, slot, visited, stack[i]);
      } else {
        ChildrenAreNew(v, unlinked, waiting, slot, stack, visited, next[i]);
      }
    }
    forall i, j | 0 <= i < j < |next| ensures next[i] != next[j] {
      if i < n <= j {
        ChildrenAreNew(v, unlinked, waiting, slot, stack, visited, next[j]);
      } else if n <= i {
        assert v[x].nextSlots[i - n] == next[i] && v[x].nextSlots[j - n] == next[j];
      }
    }
  }

  lemma PoppedFront(
    v: Metas, unlinked: set<u64>, waiting: set<u64>, slot: u64, stack: seq<u64>, visited: set<u64>, c: u64)
    requires stack != [] && Traversing(v, unlinked, waiting, slot, stack, visited)
    requires stack[|stack| - 1] in v
    ensures FrontAt(Mark(v, stack[|stack| - 1]), unlinked, waiting, PoppedStack(v, stack), c)
  {
    var x := stack[|stack| - 1];
    var w, next := Mark(v, x), PoppedStack(v, stack);
    assert FrontAt(v, unlinked, waiting, stack, c) && LinkAt(v, unlinked, x, c);
    forall p: u64 | IsChild(w, unlinked, p, c) && Passes(w, p) && p !in waiting
      ensures w[c].isConnected || c in next || p in next
    {
      if p == x {
        assert c in v[x].nextSlots;
      } else {
        assert IsChild(v, unlinked, p, c) && Passes(v, p);
        if p in stack { InFront(stack, p); }
        if c in stack && c != x { InFront(stack, c); }
      }
    }
  }

  lemma InFront(stack: seq<u64>, p: u64)
    requires stack != [] && p in stack && p != stack[|stack| - 1]
    ensures p in stack[..|stack| - 1]
  {
  }

  /** One step of the traversal: mark the top of the stack, push its children if it is full. */
  lemma TraverseStep(
    v: Metas, unlinked: set<u64>, waiting: set<u64>, slot: u64, stack: seq<u64>, visited: set<u64>)
    requires stack != [] && Traversing(v, unlinked, waiting, slot, stack, visited)
    requires stack[|stack| - 1] in v
    ensures var x := stack[|stack| - 1];
            && x !in visited
            && Traversing(Mark(v, x), unlinked, waiting, slot, PoppedStack(v, stack), visited + {x})
  {
    var x := stack[|stack| - 1];
    assert StackAt(v, unlinked, slot, visited, x);
    MarkLinked(v, unlinked, x);
    PoppedStackOk(v, unlinked, waiting, slot, stack, visited);
    forall y: u64 ensures VisitedAt(Mark(v, x), slot, visited + {x}, y) {
      assert VisitedAt(v, slot, visited, y);
    }
    forall c: u64 ensures FrontAt(Mark(v, x), unlinked, waiting, PoppedStack(v, stack), c) {
      PoppedFront(v, unlinked, waiting, slot, stack, visited, c);
    }
  }

  lemma TraverseStart(v: Metas, unlinked: set<u64>, waiting: set<u64>, slot: u64)
    requires Chained(v, unlinked, waiting) && slot in v && v[slot].isConnected
    ensures Traversing(v, unlinked, waiting - {slot}, slot, [slot], {})
  {
    assert StackAt(v, unlinked, slot, {}, slot);
    forall y: u64 ensures VisitedAt(v, slot, {}, y) {
    }
    forall c: u64 ensures FrontAt(v, unlinked, waiting - {slot}, [slot], c) {
      assert CompleteAt(v, unlinked, waiting, c);
    }
  }

  lemma TraverseEnd(v: Metas, unlinked: set<u64>, waiting: set<u64>, slot: u64, visited: set<u64>)
    requires Traversing(v, unlinked, waiting, slot, [], visited)
    ensures Linked(v, unlinked) && Complete(v, unlinked, waiting)
  {
    forall c: u64 ensures CompleteAt(v, unlinked, waiting, c) {
      assert FrontAt(v, unlinked, waiting, [], c);
    }
  }

  /** A slot that is not connected has nothing to pass on. */
  lemma NothingToPassOn(v: Metas, unlinked: set<u64>, waiting: set<u64>, slot: u64)
    requires Complete(v, unlinked, waiting) && slot in v
    requires slot in waiting ==> !v[slot].isConnected
    ensures Complete(v, unlinked, waiting - {slot})
  {
    forall c: u64 ensures CompleteAt(v, unlinked, waiting - {slot}, c) {
      assert CompleteAt(v, unlinked, waiting, c);
    }
  }

  // ---- What chaining leaves alone ----

  /**
   `v` against the staged metadata `m`: chaining changes only `nextSlots` and `isConnected`, never
   takes a connected mark away, and only adds blank orphans that some slot names as its parent.
   */
  ghost predicate CoreAt(m: Metas, v: Metas, s: u64) {
    && (s in m ==> s in v && v[s].SameCore(m[s]) && (m[s].isConnected ==> v[s].isConnected))
    && (s in v && s !in m ==> v[s].SameCore(NewMeta(s, U64_MAX)) && v[s].nextSlots != [])
  }

  ghost predicate SameCores(m: Metas, v: Metas) {
    forall s: u64 :: CoreAt(m, v, s)
  }

  lemma LinkCores(m: Metas, v: Metas, unlinked: set<u64>, waiting: set<u64>, slot: u64)
    requires SameCores(m, v) && Chained(v, unlinked, waiting) && slot in unlinked && slot > 0 && slot in v
    ensures SameCores(m, Link(v, slot))
  {
    forall s: u64 ensures CoreAt(m, Link(v, slot), s) {
      assert CoreAt(m, v, s) && BaseAt(v, unlinked, slot) && PendingAt(v, unlinked, waiting, slot);
    }
  }

  lemma MarkCores(m: Metas, v: Metas, x: u64)
    requires SameCores(m, v) && x in v
    ensures SameCores(m, Mark(v, x))
  {
    forall s: u64 ensures CoreAt(m, Mark(v, x), s) {
      assert CoreAt(m, v, s);
    }
  }
}
