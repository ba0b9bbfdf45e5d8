/** The parent relation between slots, the path from a slot back to slot 0, and the chain of roots. */
module Ancestry {
  import opened Common
  import opened Staging
  import opened Chaining
  import opened Ledger

  /** `a` is `s` itself or lies on the way from `s` back to slot 0. */
  ghost predicate Descends(metas: Metas, a: u64, s: u64)
    decreases s
  {
    s in metas && (a == s || (s > 0 && metas[s].parentSlot < s && Descends(metas, a, metas[s].parentSlot)))
  }

  /** The slots from `s` back to `stop`, the latter excluded. */
  ghost function PathTo(metas: Metas, s: u64, stop: u64): set<u64>
    decreases s
  {
    if s == stop || s !in metas || s == 0 || metas[s].parentSlot >= s then {}
    else {s} + PathTo(metas, metas[s].parentSlot, stop)
  }

  /** The roots are slot 0 and exactly the slots on the path from there to the newest root. */
  ghost predicate RootChain(metas: Metas, roots: set<u64>, newest: u64) {
    Descends(metas, 0, newest) && forall s: u64 :: s in roots <==> Descends(metas, s, newest)
  }

  lemma {:induction false} DescendsTrans(metas: Metas, a: u64, b: u64, c: u64)
    requires Descends(metas, a, b) && Descends(metas, b, c)
    ensures Descends(metas, a, c) && a <= b <= c
    decreases c, b
  {
    if b != c {
      DescendsTrans(metas, a, b, metas[c].parentSlot);
    } else if a != b {
      DescendsTrans(metas, a, metas[b].parentSlot, metas[b].parentSlot);
    }
  }

  /** Two slots on the way back from `c` lie on one line. */
  lemma {:induction false} AncestorsAreOrdered(metas: Metas, a: u64, b: u64, c: u64)
    requires Descends(metas, a, c) && Descends(metas, b, c) && a <= b
    ensures Descends(metas, a, b)
    decreases c
  {
    if b == c {
    } else if a == c {
      DescendsTrans(metas, b, c, c);
    } else {
      AncestorsAreOrdered(metas, a, b, metas[c].parentSlot);
    }
  }

  lemma {:induction false} PathAndAncestors(metas: Metas, s: u64, stop: u64, x: u64)
    requires Descends(metas, stop, s)
    ensures Descends(metas, x, s) <==> x in PathTo(metas, s, stop) || Descends(metas, x, stop)
    decreases s
  {
    if s != stop {
      PathAndAncestors(metas, metas[s].parentSlot, stop, x);
      if Descends(metas, x, stop) {
        DescendsTrans(metas, x, stop, s);
      }
    }
  }

  /** Rooting a descendant of the newest root extends the chain of roots by the path between them. */
  lemma ExtendRoots(metas: Metas, roots: set<u64>, prev: u64, next: u64)
    requires RootChain(metas, roots, prev) && Descends(metas, prev, next)
    ensures RootChain(metas, roots + PathTo(metas, next, prev), next)
  {
    var extended := roots + PathTo(metas, next, prev);
    DescendsTrans(metas, 0, prev, next);
    forall s: u64 ensures s in extended <==> Descends(metas, s, next) {
      PathAndAncestors(metas, next, prev, s);
    }
  }

  /** What is passed on the way back to `stop` comes after it. */
  lemma {:induction false} PathIsAbove(metas: Metas, s: u64, stop: u64, x: u64)
    requires Descends(metas, stop, s) && x in PathTo(metas, s, stop)
    ensures stop < x && !Descends(metas, x, stop)
    decreases s
  {
    DescendsTrans(metas, stop, s, s);
    if x == s {
      if Descends(metas, x, stop) {
        DescendsTrans(metas, x, stop, stop);
      }
    } else {
      PathIsAbove(metas, metas[s].parentSlot, stop, x);
    }
  }

  // ---- Walking back over the parents ----

  /** Where `n` steps from a slot to its parent lead, if each slot on the way is known. */
  ghost function Walk(metas: Metas, s: u64, n: nat): Option<u64>
    decreases n
  {
    if n == 0 then Some(s)
    else if s in metas then Walk(metas, metas[s].parentSlot, n - 1)
    else None
  }

  ghost predicate Meets(metas: Metas, a: u64, s: u64) {
    exists n: nat :: Walk(metas, s, n) == Some(a)
  }

  lemma {:induction false} WalkDescends(l: Ledger, a: u64, s: u64, n: nat)
    requires Inv(l) && U64_MAX !in l.metas && a < U64_MAX && Walk(l.metas, s, n) == Some(a)
    ensures s == a || Descends(l.metas, a, s)
    decreases n
  {
    if n > 0 {
      WalkDescends(l, a, l.metas[s].parentSlot, n - 1);
      assert BaseAt(l.metas, {}, s);
    }
  }

  lemma {:induction false} DescendsMeets(metas: Metas, a: u64, s: u64) returns (n: nat)
    requires Descends(metas, a, s)
    ensures Walk(metas, s, n) == Some(a)
    decreases s
  {
    if s == a {
      n := 0;
    } else {
      n := DescendsMeets(metas, a, metas[s].parentSlot);
      n := n + 1;
    }
  }

  /** The walk back from a slot ends at `a` exactly if it begins there or the slot descends from `a`. */
  lemma WalkMeets(l: Ledger, a: u64, s: u64)
    requires Inv(l) && U64_MAX !in l.metas && a < U64_MAX
    ensures Meets(l.metas, a, s) <==> s == a || Descends(l.metas, a, s)
  {
    if Meets(l.metas, a, s) {
      var n: nat :| Walk(l.metas, s, n) == Some(a);
      WalkDescends(l, a, s, n);
    }
    if Descends(l.metas, a, s) {
      var n := DescendsMeets(l.metas, a, s);
    } else if s == a {
      assert Walk(l.metas, s, 0) == Some(a);
    }
  }
}
