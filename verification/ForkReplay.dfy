/** Replaying the whole ledger: the worklist over the tree of full slots, pruned at every root it meets. */
module ForkReplay {
  import opened Common
  import opened Staging
  import opened Chaining
  import opened Ledger
  import opened Notifications
  import opened Ancestry
  import opened EntryLayout
  import opened ProofOfHistory
  import opened Transactions
  import opened Grouping
  import opened Replay
  import opened Blocktree

  // ---- What a fork contains ----

  /** All entries on the way from slot 0 to `s`. */
  ghost function PathEntries(l: Ledger, s: u64): seq<Entry>
    decreases s
  {
    if HasParent(l, s) then PathEntries(l, l.metas[s].parentSlot) + SlotEntries(l.data, s)
    else SlotEntries(l.data, s)
  }

  /** The start of the ledger: the bank before the first entry, and the hash the first entry continues from. */
  datatype Genesis = Genesis(program: Program, bank: BankState, hash: Hash)

  ghost function Rest(path: seq<Entry>): seq<Entry> {
    if path == [] then [] else path[1..]
  }

  /**
   A path that can be replayed: its first entry is the pseudo tick of the ledger, which the bank
   never sees, the hashes chain from genesis, and the bank runs the rest without an error.
   */
  ghost predicate Good(g: Genesis, path: seq<Entry>) {
    Chains(g, path) && RunError(g.program, Rest(path), g.bank).None?
  }

  ghost predicate Chains(g: Genesis, path: seq<Entry>) {
    HashesChain(g, path) && NoSelfConflict(Rest(path))
  }

  ghost predicate HashesChain(g: Genesis, path: seq<Entry>) {
    (path != [] ==> path[0].IsTick()) && VerifyEntries(path, g.hash)
  }

  ghost predicate HasParent(l: Ledger, s: u64) {
    s in l.metas && s > 0 && l.metas[s].parentSlot < s
  }

  /** The entries of the slot that the bank runs. */
  ghost function RunAt(l: Ledger, s: u64): seq<Entry> {
    if HasParent(l, s) then SlotEntries(l.data, s) else Rest(SlotEntries(l.data, s))
  }

  /** The entries can run like this, under some schedules. */
  ghost predicate CanRun(p: Program, entries: seq<Entry>, before: BankState, ran: Ran) {
    exists schedules :: AreSchedules(entries, schedules) && Parallel(p, entries, before, schedules) == ran
  }

  /** The slot can be replayed, slot after slot on the way to it, and `bank` is a bank that may come out. */
  ghost predicate Replayed(l: Ledger, g: Genesis, s: u64, bank: BankState)
    decreases s, 1
  {
    && PathEntries(l, s) != [] && Chains(g, PathEntries(l, s))
    && exists before :: Before(l, g, s, before) && CanRun(g.program, RunAt(l, s), before, Ran(bank, None))
  }

  ghost predicate Before(l: Ledger, g: Genesis, s: u64, bank: BankState)
    decreases s, 0
  {
    if HasParent(l, s) then Replayed(l, g, l.metas[s].parentSlot, bank) else bank == g.bank
  }

  ghost predicate CanReplay(l: Ledger, g: Genesis, s: u64) {
    exists bank :: Replayed(l, g, s, bank)
  }

  /** Replaying the slot can fail: it has no entries to begin with, a hash is wrong, or an error can come up. */
  ghost predicate CanFail(l: Ledger, g: Genesis, s: u64) {
    || PathEntries(l, s) == [] || !HashesChain(g, PathEntries(l, s))
    || exists before :: Before(l, g, s, before) && CanRunIntoError(g.program, RunAt(l, s), before)
  }

  ghost predicate CanRunIntoError(p: Program, entries: seq<Entry>, before: BankState) {
    exists ran :: CanRun(p, entries, before, ran) && ran.error.Some?
  }

  /** The entries up to the slot chain and run without an error one transaction at a time. */
  ghost predicate Replayable(l: Ledger, g: Genesis, s: u64) {
    PathEntries(l, s) != [] && Good(g, PathEntries(l, s))
  }

  /** In every slot, no transaction of a group that is run can change what another one of the group uses. */
  ghost predicate Orderly(l: Ledger, g: Genesis) {
    forall s: u64 :: Grouping.Orderly(g.program, RunAt(l, s))
  }

  /** What the replay carries along a fork. */
  datatype Progress = Progress(bank: BankState, entryHeight: nat, lastHash: Hash)

  /** The entries of the path are counted, and the last one is known. */
  ghost predicate Counts(g: Genesis, path: seq<Entry>, st: Progress) {
    st.entryHeight == |path| && st.lastHash == LastHash(path, g.hash)
  }

  ghost predicate Tracks(l: Ledger, g: Genesis, s: u64, st: Progress) {
    Replayed(l, g, s, st.bank) && Counts(g, PathEntries(l, s), st)
  }

  lemma RestConcat(a: seq<Entry>, b: seq<Entry>)
    requires a != []
    ensures Rest(a + b) == Rest(a) + b
  {
  }

  lemma NoSelfConflictConcat(a: seq<Entry>, b: seq<Entry>)
    ensures NoSelfConflict(a + b) <==> NoSelfConflict(a) && NoSelfConflict(b)
  {
    if NoSelfConflict(a + b) {
      forall i | 0 <= i < |a| ensures Lockable(a[i].transactions, {}) {
        assert (a + b)[i] == a[i];
      }
      forall i | 0 <= i < |b| ensures Lockable(b[i].transactions, {}) {
        assert (a + b)[|a| + i] == b[i];
      }
    }
  }

  lemma ChainsConcat(g: Genesis, path: seq<Entry>, more: seq<Entry>)
    requires path != [] && Chains(g, path)
    ensures Chains(g, path + more) <==> HashesChain(g, path + more) && NoSelfConflict(more)
    ensures HashesChain(g, path + more) <==> VerifyEntries(more, LastHash(path, g.hash))
    ensures LastHash(path + more, g.hash) == LastHash(more, LastHash(path, g.hash))
  {
    RestConcat(path, more);
    VerifyConcat(path, more, g.hash);
    NoSelfConflictConcat(Rest(path), more);
    assert (path + more)[0] == path[0];
  }

  /** Extending a non-empty path. */
  lemma GoodConcat(g: Genesis, path: seq<Entry>, more: seq<Entry>)
    requires path != [] && Good(g, path)
    ensures var b := RunEntries(g.program, Rest(path), g.bank);
            Good(g, path + more) <==>
              && VerifyEntries(more, LastHash(path, g.hash))
              && RunError(g.program, more, b).None?
              && NoSelfConflict(more)
    ensures RunEntries(g.program, Rest(path + more), g.bank)
            == RunEntries(g.program, more, RunEntries(g.program, Rest(path), g.bank))
    ensures LastHash(path + more, g.hash) == LastHash(more, LastHash(path, g.hash))
  {
    RestConcat(path, more);
    VerifyConcat(path, more, g.hash);
    RunEntriesConcat(g.program, Rest(path), more, g.bank);
    NoSelfConflictConcat(Rest(path), more);
  }

  lemma NothingToRun(p: Program, b: BankState)
    ensures CanRun(p, [], b, Ran(b, None))
  {
    var entries: seq<Entry> := [];
    var schedules := AllLoadFirst(entries);
    AllLoadFirstScheduled(entries);
    assert ScheduledAt(entries, schedules, 0) && Group(entries, 0) == [];
    EmptyPlay(p, b, schedules[0]);
  }

  /** Verifies and runs the entries of one slot on top of a path. */
  method ReplayEntries(g: Genesis, st: Progress, entries: seq<Entry>, ghost path: seq<Entry>)
    returns (r: Option<Progress>)
    requires path != [] && Chains(g, path) && Counts(g, path, st)
    ensures r.Some? ==>
              && Chains(g, path + entries) && Counts(g, path + entries, r.value)
              && CanRun(g.program, entries, st.bank, Ran(r.value.bank, None))
    ensures r.None? ==> !HashesChain(g, path + entries) || CanRunIntoError(g.program, entries, st.bank)
  {
    ChainsConcat(g, path, entries);
    if entries == [] {
      assert path + entries == path;
      NothingToRun(g.program, st.bank);
      return Some(st);
    }
    if !VerifyEntries(entries, st.lastHash) {
      return None;
    }
    var bank := new Bank(g.program, st.bank);
    var e, schedules := bank.ProcessEntries(entries);
    assert CanRun(g.program, entries, st.bank, Ran(bank.State(), e));
    r := if e.Some? then None
         else Some(Progress(
           BankState(bank.accounts, bank.ticks), st.entryHeight + |entries|, entries[|entries| - 1].hash));
  }

  lemma ChainsFirst(g: Genesis, e: Entry)
    ensures Chains(g, [e]) <==> e.IsTick() && VerifyEntry(e, g.hash)
    ensures Rest([e]) == []
  {
    var one := [e];
    assert Rest(one) == [];
    assert VerifyEntries(one, g.hash) <==> VerifyAt(one, g.hash, 0);
  }

  /** Replays slot 0: its first entry must be a tick that continues from genesis, and the bank does not see it. */
  method ReplayFirstSlot(g: Genesis, entries: seq<Entry>) returns (r: Option<Progress>)
    ensures r.Some? ==>
              && entries != [] && Chains(g, entries) && Counts(g, entries, r.value)
              && CanRun(g.program, Rest(entries), g.bank, Ran(r.value.bank, None))
    ensures r.None? ==>
              entries == [] || !HashesChain(g, entries) || CanRunIntoError(g.program, Rest(entries), g.bank)
  {
    if entries == [] {
      return None;
    }
    var entry0, rest := entries[0], entries[1..];
    assert entries == [entry0] + rest;
    ChainsFirst(g, entry0);
    if !(entry0.IsTick() && VerifyEntry(entry0, g.hash)) {
      VerifyConcat([entry0], rest, g.hash);
      return None;
    }
    r := ReplayEntries(g, Progress(g.bank, 1, entry0.hash), rest, [entry0]);
  }

  // ---- Orderly slots are replayed in ledger order ----

  /** Entries that are orderly can run in one way only, that of ledger order. */
  lemma OrderlyRun(p: Program, entries: seq<Entry>, before: BankState, ran: Ran)
    requires Grouping.Orderly(p, entries) && CanRun(p, entries, before, ran)
    ensures ran.error.None? <==> RunError(p, entries, before).None? && NoSelfConflict(entries)
    ensures ran.error.None? ==> ran.bank == RunEntries(p, entries, before)
  {
    var schedules :| AreSchedules(entries, schedules) && Parallel(p, entries, before, schedules) == ran;
    OrderlyIsLedgerOrder(p, entries, before, schedules);
    var applied: nat :| Processed(p, entries, applied, before, ran.bank, ran.error);
    assert entries[..|entries|] == entries;
  }

  /** The bank is that of running the path one transaction at a time. */
  ghost predicate RanInOrder(g: Genesis, path: seq<Entry>, bank: BankState) {
    Good(g, path) && bank == RunEntries(g.program, Rest(path), g.bank)
  }

  /** One more slot on top of a path that ran in order. */
  lemma SlotInOrder(g: Genesis, path: seq<Entry>, entries: seq<Entry>, before: BankState, ran: Ran)
    requires path != [] && RanInOrder(g, path, before) && Grouping.Orderly(g.program, entries)
    requires CanRun(g.program, entries, before, ran)
    ensures ran.error.None? && Chains(g, path + entries) ==> RanInOrder(g, path + entries, ran.bank)
    ensures ran.error.Some? ==> !Good(g, path + entries)
  {
    OrderlyRun(g.program, entries, before, ran);
    GoodConcat(g, path, entries);
    ChainsConcat(g, path, entries);
  }

  /** The first slot. */
  lemma FirstInOrder(g: Genesis, path: seq<Entry>, ran: Ran)
    requires Grouping.Orderly(g.program, Rest(path)) && CanRun(g.program, Rest(path), g.bank, ran)
    ensures ran.error.None? && Chains(g, path) ==> RanInOrder(g, path, ran.bank)
    ensures ran.error.Some? ==> !Good(g, path)
  {
    OrderlyRun(g.program, Rest(path), g.bank, ran);
  }

  /** In an orderly ledger a replayed slot has the effect of the entries up to it, one transaction at a time. */
  lemma {:induction false} OrderlyReplay(l: Ledger, g: Genesis, s: u64, bank: BankState)
    requires Orderly(l, g) && Replayed(l, g, s, bank)
    ensures RanInOrder(g, PathEntries(l, s), bank)
    decreases s
  {
    var before :| Before(l, g, s, before) && CanRun(g.program, RunAt(l, s), before, Ran(bank, None));
    if HasParent(l, s) {
      OrderlyReplay(l, g, l.metas[s].parentSlot, before);
      SlotInOrder(g, PathEntries(l, l.metas[s].parentSlot), SlotEntries(l.data, s), before, Ran(bank, None));
    } else {
      FirstInOrder(g, PathEntries(l, s), Ran(bank, None));
    }
  }

  /** In an orderly ledger a slot whose replay can fail cannot be replayed. */
  lemma OrderlyFailure(l: Ledger, g: Genesis, s: u64)
    requires Orderly(l, g) && CanFail(l, g, s)
    ensures !Replayable(l, g, s)
  {
    if PathEntries(l, s) != [] && HashesChain(g, PathEntries(l, s)) {
      var before :| Before(l, g, s, before) && CanRunIntoError(g.program, RunAt(l, s), before);
      var ran :| CanRun(g.program, RunAt(l, s), before, ran) && ran.error.Some?;
      if HasParent(l, s) {
        OrderlyReplay(l, g, l.metas[s].parentSlot, before);
        SlotInOrder(g, PathEntries(l, l.metas[s].parentSlot), SlotEntries(l.data, s), before, ran);
      } else {
        FirstInOrder(g, PathEntries(l, s), ran);
      }
    }
  }

  /** If no group of a slot has two transactions that use the same account, the ledger is orderly for any program. */
  lemma NoSharingIsOrderly(l: Ledger, g: Genesis)
    requires forall s: u64 :: NoGroupShares(RunAt(l, s))
    ensures Orderly(l, g)
  {
    forall s: u64 ensures Grouping.Orderly(g.program, RunAt(l, s)) {
      assert NoGroupShares(RunAt(l, s));
      NoGroupSharesIsOrderly(g.program, RunAt(l, s));
    }
  }

  // ---- The worklist ----

  /** `t` is `r`, or a full slot whose parent is again below `r` through full slots only. */
  ghost predicate FullBelow(metas: Metas, r: u64, t: u64)
    decreases t
  {
    && t in metas
    && (t == r ||
        (t > 0 && metas[t].IsFull() && metas[t].parentSlot < t && FullBelow(metas, r, metas[t].parentSlot)))
  }

  lemma {:induction false} FullBelowTrans(metas: Metas, a: u64, b: u64, c: u64)
    requires FullBelow(metas, a, b) && FullBelow(metas, b, c)
    ensures FullBelow(metas, a, c) && b <= c
    decreases c
  {
    if b != c {
      FullBelowTrans(metas, a, b, metas[c].parentSlot);
    }
  }

  lemma {:induction false} FullBelowDescends(metas: Metas, r: u64, t: u64)
    requires FullBelow(metas, r, t)
    ensures Descends(metas, r, t)
    decreases t
  {
    if t != r {
      FullBelowDescends(metas, r, metas[t].parentSlot);
    }
  }

  /** What lies below a slot lies below one of its full children. */
  lemma {:induction false} BelowAChild(metas: Metas, r: u64, t: u64) returns (c: u64)
    requires FullBelow(metas, r, t) && t != r
    ensures c in metas && c > 0 && metas[c].IsFull() && metas[c].parentSlot == r && r < c && FullBelow(metas, c, t)
    decreases t
  {
    var p := metas[t].parentSlot;
    if p == r {
      c := t;
    } else {
      c := BelowAChild(metas, r, p);
    }
  }

  datatype PendingSlot = PendingSlot(slot: u64, meta: SlotMeta, before: Progress)

  datatype BankForksInfo = BankForksInfo(bank: BankState, bankSlot: u64, entryHeight: nat)

  ghost predicate Descending(p: seq<PendingSlot>) {
    forall i, j :: 0 <= i < j < |p| ==> p[i].slot > p[j].slot
  }

  ghost predicate DistinctSlots(p: seq<PendingSlot>) {
    forall i, j :: 0 <= i < j < |p| ==> p[i].slot != p[j].slot
  }

  /** Inserts one more slot into a worklist that is sorted by decreasing slot. */
  method InsertPending(p: seq<PendingSlot>, x: PendingSlot) returns (q: seq<PendingSlot>)
    requires Descending(p) && forall i :: 0 <= i < |p| ==> p[i].slot != x.slot
    ensures Descending(q) && |q| == |p| + 1
    ensures forall y :: y in q <==> y in p || y == x
  {
    var i := 0;
    while i < |p| && p[i].slot > x.slot
      invariant i <= |p| && forall j :: 0 <= j < i ==> p[j].slot > x.slot
    {
      i := i + 1;
    }
    q := p[..i] + [x] + p[i..];
    InsertedInOrder(p, x, i, q);
  }

  lemma InsertedInOrder(p: seq<PendingSlot>, x: PendingSlot, i: nat, q: seq<PendingSlot>)
    requires Descending(p) && i <= |p| && q == p[..i] + [x] + p[i..]
    requires (forall j :: 0 <= j < i ==> p[j].slot > x.slot) && (i < |p| ==> p[i].slot < x.slot)
    ensures Descending(q)
    ensures forall y :: y in q <==> y in p || y == x
  {
    assert p == p[..i] + p[i..];
    forall j, k | 0 <= j < k < |q| ensures q[j].slot > q[k].slot {
      assert j != i ==> q[j] == p[if j < i then j else j - 1];
      assert k != i ==> q[k] == p[if k < i then k else k - 1];
    }
  }

  method SortPending(p: seq<PendingSlot>) returns (q: seq<PendingSlot>)
    requires DistinctSlots(p)
    ensures Descending(q) && |q| == |p|
    ensures forall y :: y in q <==> y in p
  {
    q := [];
    for i := 0 to |p|
      invariant Descending(q) && |q| == i
      invariant forall y :: y in q <==> y in p[..i]
    {
      forall j | 0 <= j < |q| ensures q[j].slot != p[i].slot {
        assert q[j] in p[..i];
      }
      q := InsertPending(q, p[i]);
    }
    assert p[..|p|] == p;
  }

  // ---- Children and reports of one slot ----

  ghost function FullChildren(metas: Metas, next: seq<u64>, st: Progress): seq<PendingSlot> {
    if next == [] then []
    else
      var c := next[|next| - 1];
      FullChildren(metas, next[..|next| - 1], st) +
      if c in metas && metas[c].IsFull() then [PendingSlot(c, metas[c], st)] else []
  }

  ghost function NotFull(metas: Metas, next: seq<u64>): nat {
    if next == [] then 0
    else
      var c := next[|next| - 1];
      NotFull(metas, next[..|next| - 1]) + if c in metas && metas[c].IsFull() then 0 else 1
  }

  /** How often a slot is reported: once if it has no child, and otherwise once for each child that is not full. */
  ghost function ExpectedReports(metas: Metas, s: u64): nat
    requires s in metas
  {
    if metas[s].nextSlots == [] then 1 else NotFull(metas, metas[s].nextSlots)
  }

  ghost function Reports(forks: seq<BankForksInfo>, s: u64): nat {
    if forks == [] then 0
    else Reports(forks[..|forks| - 1], s) + if forks[|forks| - 1].bankSlot == s then 1 else 0
  }

  lemma {:induction false} ReportsConcat(a: seq<BankForksInfo>, b: seq<BankForksInfo>, s: u64)
    ensures Reports(a + b, s) == Reports(a, s) + Reports(b, s)
  {
    if b == [] {
      assert a + b == a;
    } else {
      ReportsConcat(a, b[..|b| - 1], s);
      assert (a + b)[..|a + b| - 1] == a + b[..|b| - 1];
    }
  }

  /** Where in the list a slot is reported. */
  ghost function ReportsAt(forks: seq<BankForksInfo>, v: u64): set<int> {
    set i | 0 <= i < |forks| && forks[i].bankSlot == v
  }

  lemma {:induction false} ReportsAreCounted(forks: seq<BankForksInfo>, v: u64)
    ensures Reports(forks, v) == |ReportsAt(forks, v)|
  {
    if forks == [] {
      assert ReportsAt(forks, v) == {};
    } else {
      var n, front := |forks| - 1, forks[..|forks| - 1];
      ReportsAreCounted(front, v);
      assert ReportsAt(forks, v) == ReportsAt(front, v) + if forks[n].bankSlot == v then {n} else {};
    }
  }

  /** The children that are not full. */
  ghost function ChildrenNotFull(metas: Metas, next: seq<u64>): set<u64> {
    set c | c in next && !(c in metas && metas[c].lastIndex < U64_MAX && metas[c].consumed == metas[c].lastIndex + 1)
  }

  lemma OneMoreChild(metas: Metas, front: seq<u64>, c: u64)
    ensures ChildrenNotFull(metas, front + [c]) ==
              ChildrenNotFull(metas, front) + if IsFullIn(metas, c) then {} else {c}
  {
  }

  lemma NoDuplicatesSnoc<T>(s: seq<T>)
    requires NoDuplicates(s) && s != []
    ensures NoDuplicates(s[..|s| - 1]) && s[|s| - 1] !in s[..|s| - 1]
  {
  }

  lemma {:induction false} NotFullIsCounted(metas: Metas, next: seq<u64>)
    requires NoDuplicates(next)
    ensures NotFull(metas, next) == |ChildrenNotFull(metas, next)|
  {
    if next == [] {
      assert ChildrenNotFull(metas, next) == {};
    } else {
      var front, c := next[..|next| - 1], next[|next| - 1];
      NoDuplicatesSnoc(next);
      NotFullIsCounted(metas, front);
      Snoc(next);
      OneMoreChild(metas, front, c);
    }
  }

  /** A slot is reported iff it is full up to the root and has no child or one that is not full. */
  ghost predicate ReportedIff(metas: Metas, forks: seq<BankForksInfo>, root: u64, v: u64) {
    (exists f :: f in forks && f.bankSlot == v) <==>
      && FullBelow(metas, root, v)
      && (metas[v].nextSlots == [] || exists c :: c in metas[v].nextSlots && !IsFullIn(metas, c))
  }

  /** It is reported once if it has no child, and otherwise once for each child that is not full. */
  ghost predicate ReportedAt(metas: Metas, forks: seq<BankForksInfo>, root: u64, v: u64) {
    |ReportsAt(forks, v)| ==
      if !FullBelow(metas, root, v) then 0
      else if metas[v].nextSlots == [] then 1 else |ChildrenNotFull(metas, metas[v].nextSlots)|
  }

  lemma ReportsInWords(l: Ledger, root: u64, forks: seq<BankForksInfo>, v: u64)
    requires Inv(l)
    requires Reports(forks, v) == if FullBelow(l.metas, root, v) then ExpectedReports(l.metas, v) else 0
    ensures ReportedAt(l.metas, forks, root, v) && ReportedIff(l.metas, forks, root, v)
  {
    ReportsAreCounted(forks, v);
    if FullBelow(l.metas, root, v) {
      assert BaseAt(l.metas, {}, v);
      NotFullIsCounted(l.metas, l.metas[v].nextSlots);
      SomeNotFull(l.metas, l.metas[v].nextSlots);
    }
    ReportedSomewhere(forks, v);
  }

  lemma SomeNotFull(metas: Metas, next: seq<u64>)
    ensures |ChildrenNotFull(metas, next)| > 0 <==> exists c :: c in next && !IsFullIn(metas, c)
  {
    SomeOrNone(ChildrenNotFull(metas, next));
    if c :| c in next && !IsFullIn(metas, c) {
      assert c in ChildrenNotFull(metas, next);
    }
    if ChildrenNotFull(metas, next) != {} {
      var c :| c in ChildrenNotFull(metas, next);
      assert c in next && !IsFullIn(metas, c);
    }
  }

  lemma SomeOrNone<T>(s: set<T>)
    ensures |s| > 0 <==> s != {}
  {
  }

  lemma ReportedSomewhere(forks: seq<BankForksInfo>, v: u64)
    ensures |ReportsAt(forks, v)| > 0 <==> exists f :: f in forks && f.bankSlot == v
  {
    SomeOrNone(ReportsAt(forks, v));
    if f :| f in forks && f.bankSlot == v {
      var i :| 0 <= i < |forks| && forks[i] == f;
      assert i in ReportsAt(forks, v);
    }
    if ReportsAt(forks, v) != {} {
      var i :| i in ReportsAt(forks, v);
      assert forks[i] in forks;
    }
  }

  lemma {:induction false} FullChildrenMembers(metas: Metas, next: seq<u64>, st: Progress, x: PendingSlot)
    ensures x in FullChildren(metas, next, st) <==>
              x.slot in next && x.slot in metas && metas[x.slot].IsFull() && x == PendingSlot(x.slot, metas[x.slot], st)
  {
    if next != [] {
      FullChildrenMembers(metas, next[..|next| - 1], st, x);
      Snoc(next);
    }
  }

  lemma {:induction false} FullChildrenDistinct(metas: Metas, next: seq<u64>, st: Progress)
    requires NoDuplicates(next)
    ensures DistinctSlots(FullChildren(metas, next, st))
  {
    if next != [] {
      var front := next[..|next| - 1];
      FullChildrenDistinct(metas, front, st);
      var f := FullChildren(metas, front, st);
      forall i | 0 <= i < |f| ensures f[i].slot != next[|next| - 1] {
        FullChildrenMembers(metas, front, st, f[i]);
      }
    }
  }

  // ---- The invariant of the worklist ----

  /** A pending slot is full, lies below the root and comes after everything visited, its parent included. */
  ghost predicate PendingOk(l: Ledger, root: u64, visited: set<u64>, x: PendingSlot) {
    && x.slot in l.metas && x.meta == l.metas[x.slot]
    && FullBelow(l.metas, root, x.slot)
    && (forall v :: v in visited ==> v < x.slot)
    && (x.slot > 0 ==> x.meta.parentSlot < x.slot && x.meta.parentSlot in visited)
  }

  /** A pending slot carries its parent's progress. */
  ghost predicate CarriesAt(l: Ledger, g: Genesis, x: PendingSlot) {
    if x.slot == 0 then x.before == Progress(g.bank, 0, g.hash) else Tracks(l, g, x.meta.parentSlot, x.before)
  }

  ghost predicate Carries(l: Ledger, g: Genesis, pending: seq<PendingSlot>) {
    forall x :: x in pending ==> CarriesAt(l, g, x)
  }

  ghost predicate AllPendingOk(l: Ledger, root: u64, visited: set<u64>, pending: seq<PendingSlot>) {
    forall x :: x in pending ==> PendingOk(l, root, visited, x)
  }

  /** What lies below the root through full slots was visited or lies below a pending slot. */
  ghost predicate CoveredAt(metas: Metas, root: u64, since: set<u64>, pending: seq<PendingSlot>, t: u64) {
    FullBelow(metas, root, t) ==> t in since || exists x :: x in pending && FullBelow(metas, x.slot, t)
  }

  ghost predicate Covered(metas: Metas, root: u64, since: set<u64>, pending: seq<PendingSlot>) {
    forall t: u64 :: CoveredAt(metas, root, since, pending, t)
  }

  /** The slots visited since the root are reported as often as they should be, and no others are reported. */
  ghost predicate CountAt(metas: Metas, root: u64, since: set<u64>, forks: seq<BankForksInfo>, v: u64) {
    && (v in since ==> v in metas && FullBelow(metas, root, v))
    && Reports(forks, v) == if v in since && v in metas then ExpectedReports(metas, v) else 0
  }

  ghost predicate Counted(metas: Metas, root: u64, since: set<u64>, forks: seq<BankForksInfo>) {
    forall v: u64 :: CountAt(metas, root, since, forks, v)
  }

  /** A report tells the state of the bank and the number of entries at the end of its fork. */
  ghost predicate ForkOk(l: Ledger, g: Genesis, f: BankForksInfo) {
    Replayed(l, g, f.bankSlot, f.bank) && f.entryHeight == |PathEntries(l, f.bankSlot)|
  }

  ghost predicate AllForksOk(l: Ledger, g: Genesis, forks: seq<BankForksInfo>) {
    forall f :: f in forks ==> ForkOk(l, g, f)
  }

  ghost predicate RootOk(roots: set<u64>, root: u64, visited: set<u64>) {
    && (forall v :: v in visited && v in roots ==> v <= root)
    && (visited != {} ==> root in visited && root in roots)
  }

  ghost predicate Walking(
    l: Ledger, roots: set<u64>, root: u64, pending: seq<PendingSlot>, forks: seq<BankForksInfo>,
    visited: set<u64>, since: set<u64>)
  {
    && Descending(pending)
    && AllPendingOk(l, root, visited, pending)
    && Covered(l.metas, root, since, pending)
    && Counted(l.metas, root, since, forks)
    && RootOk(roots, root, visited)
  }

  lemma ChildOf(l: Ledger, s: u64, c: u64)
    requires Inv(l) && s in l.metas
    ensures c in l.metas[s].nextSlots <==> c in l.metas && c > 0 && l.metas[c].parentSlot == s && s < c
  {
    assert LinkAt(l.metas, {}, s, c) && BaseAt(l.metas, {}, c);
  }

  /** The worklist after slot `s` was replayed: what was pending, and its full children. */
  lemma NextPending(
    l: Ledger, root: u64, root': u64, visited: set<u64>, base: seq<PendingSlot>, s: u64, st: Progress,
    pending': seq<PendingSlot>)
    requires Inv(l) && s in l.metas && FullBelow(l.metas, root', s)
    requires forall v :: v in visited ==> v < s
    requires forall x :: x in base ==> PendingOk(l, root', visited, x) && s < x.slot
    requires forall x :: x in pending' <==> x in base || x in FullChildren(l.metas, l.metas[s].nextSlots, st)
    ensures AllPendingOk(l, root', visited + {s}, pending')
  {
    forall x | x in pending' ensures PendingOk(l, root', visited + {s}, x) {
      if x !in base {
        FullChildrenMembers(l.metas, l.metas[s].nextSlots, st, x);
        ChildOf(l, s, x.slot);
      }
    }
  }

  lemma NextDistinct(
    l: Ledger, root: u64, visited: set<u64>, base: seq<PendingSlot>, s: u64, st: Progress)
    requires Inv(l) && s in l.metas && s !in visited && Descending(base)
    requires forall x :: x in base ==> PendingOk(l, root, visited, x) && s < x.slot
    ensures DistinctSlots(base + FullChildren(l.metas, l.metas[s].nextSlots, st))
  {
    var next := l.metas[s].nextSlots;
    var f := FullChildren(l.metas, next, st);
    assert BaseAt(l.metas, {}, s);
    FullChildrenDistinct(l.metas, next, st);
    forall i, j | 0 <= i < |base| && 0 <= j < |f| ensures base[i].slot != f[j].slot {
      assert base[i] in base && f[j] in f;
      FullChildrenMembers(l.metas, next, st, f[j]);
      ChildOf(l, s, f[j].slot);
    }
  }

  lemma NextCovered(
    l: Ledger, root: u64, since: set<u64>, pending: seq<PendingSlot>, base: seq<PendingSlot>, s: u64, st: Progress,
    pending': seq<PendingSlot>)
    requires Inv(l) && s in l.metas && Covered(l.metas, root, since, pending)
    requires forall x :: x in pending ==> x in base || x.slot == s
    requires forall x :: x in base || x in FullChildren(l.metas, l.metas[s].nextSlots, st) ==> x in pending'
    ensures Covered(l.metas, root, since + {s}, pending')
  {
    forall t: u64 ensures CoveredAt(l.metas, root, since + {s}, pending', t) {
      assert CoveredAt(l.metas, root, since, pending, t);
      if FullBelow(l.metas, s, t) && t != s {
        BelowReplayed(l, s, t, st);
      }
    }
  }

  lemma BelowReplayed(l: Ledger, s: u64, t: u64, st: Progress)
    requires Inv(l) && s in l.metas && FullBelow(l.metas, s, t) && t != s
    ensures exists x :: x in FullChildren(l.metas, l.metas[s].nextSlots, st) && FullBelow(l.metas, x.slot, t)
  {
    var c := BelowAChild(l.metas, s, t);
    var x := PendingSlot(c, l.metas[c], st);
    ChildOf(l, s, c);
    FullChildrenMembers(l.metas, l.metas[s].nextSlots, st, x);
  }

  /** A root prunes: only what is below it counts from now on. */
  lemma RootCovered(l: Ledger, s: u64, st: Progress, pending': seq<PendingSlot>)
    requires Inv(l) && s in l.metas
    requires forall x :: x in FullChildren(l.metas, l.metas[s].nextSlots, st) ==> x in pending'
    ensures Covered(l.metas, s, {s}, pending')
  {
    forall t: u64 ensures CoveredAt(l.metas, s, {s}, pending', t) {
      if FullBelow(l.metas, s, t) && t != s {
        BelowReplayed(l, s, t, st);
      }
    }
  }

  lemma NextCounted(
    metas: Metas, root: u64, since: set<u64>, forks: seq<BankForksInfo>, s: u64, forks': seq<BankForksInfo>)
    requires Counted(metas, root, since, forks) && s in metas && s !in since && FullBelow(metas, root, s)
    requires forall v: u64 :: Reports(forks', v) == Reports(forks, v) + if v == s then ExpectedReports(metas, s) else 0
    ensures Counted(metas, root, since + {s}, forks')
  {
    forall v: u64 ensures CountAt(metas, root, since + {s}, forks', v) {
      assert CountAt(metas, root, since, forks, v);
    }
  }

  lemma NothingCounted(metas: Metas, root: u64)
    ensures Counted(metas, root, {}, [])
  {
    forall v: u64 ensures CountAt(metas, root, {}, [], v) {
    }
  }

  // ---- The replay itself ----

  /** Fetches the entries of a pending slot and replays them on top of its parent. */
  method ReplaySlot(blocktree: Blocktree, g: Genesis, x: PendingSlot, ghost root: u64, ghost visited: set<u64>)
    returns (r: Option<Progress>)
    requires blocktree.Valid() && PendingOk(blocktree.State(), root, visited, x) && CarriesAt(blocktree.State(), g, x)
    ensures r.Some? ==> Tracks(blocktree.State(), g, x.slot, r.value)
    ensures r.None? ==> CanFail(blocktree.State(), g, x.slot)
  {
    var entries, _ := blocktree.GetSlotEntriesWithBlobCount(x.slot, 0, None);
    ghost var l := blocktree.State();
    if x.slot == 0 {
      assert Before(l, g, 0, g.bank);
      r := ReplayFirstSlot(g, entries);
    } else {
      assert Before(l, g, x.slot, x.before.bank);
      r := ReplayEntries(g, x.before, entries, PathEntries(l, x.meta.parentSlot));
    }
  }

  /** Looks at the children of a slot: full ones become pending, and for each other one the slot is reported. */
  method Branch(metas: Metas, s: u64, st: Progress, pending: seq<PendingSlot>, forks: seq<BankForksInfo>)
    returns (pending': seq<PendingSlot>, forks': seq<BankForksInfo>)
    requires s in metas && forall c :: c in metas[s].nextSlots ==> c in metas
    ensures pending' == pending + FullChildren(metas, metas[s].nextSlots, st)
    ensures forall v: u64 :: Reports(forks', v) == Reports(forks, v) + if v == s then ExpectedReports(metas, s) else 0
    ensures forall f :: f in forks' ==> f in forks || f == BankForksInfo(st.bank, s, st.entryHeight)
    ensures BankForksInfo(st.bank, s, st.entryHeight) in forks' <==>
              || BankForksInfo(st.bank, s, st.entryHeight) in forks || metas[s].nextSlots == []
              || exists c :: c in metas[s].nextSlots && !metas[c].IsFull()
    ensures forall x :: x in pending' <==>
              || x in pending
              || (x.slot in metas[s].nextSlots && metas[x.slot].IsFull() && x == PendingSlot(x.slot, metas[x.slot], st))
  {
    var info := BankForksInfo(st.bank, s, st.entryHeight);
    var next := metas[s].nextSlots;
    pending', forks' := pending, forks;
    if next == [] {
      ReportsSnoc(forks, info);
      forks' := forks + [info];
      return;
    }
    assert NotFull(metas, next[..0]) == 0 && next[..0] == [];
    for i := 0 to |next|
      invariant pending' == pending + FullChildren(metas, next[..i], st)
      invariant forall v: u64 ::
                  Reports(forks', v) == Reports(forks, v) + if v == s then NotFull(metas, next[..i]) else 0
      invariant forall f :: f in forks' ==> f in forks || f == info
      invariant info in forks' <==> info in forks || NotFull(metas, next[..i]) > 0
    {
      assert next[..i + 1][..i] == next[..i];
      var c := next[i];
      if metas[c].IsFull() {
        pending' := pending' + [PendingSlot(c, metas[c], st)];
      } else {
        ReportsSnoc(forks', info);
        forks' := forks' + [info];
      }
    }
    assert next[..|next|] == next;
    SomeChildNotFull(metas, next);
    forall x ensures x in pending' <==>
      || x in pending || (x.slot in next && metas[x.slot].IsFull() && x == PendingSlot(x.slot, metas[x.slot], st))
    {
      FullChildrenMembers(metas, next, st, x);
    }
  }

  lemma {:induction false} SomeChildNotFull(metas: Metas, next: seq<u64>)
    requires forall c :: c in next ==> c in metas
    ensures NotFull(metas, next) > 0 <==> exists c :: c in next && !metas[c].IsFull()
  {
    if next != [] {
      SomeChildNotFull(metas, next[..|next| - 1]);
      Snoc(next);
    }
  }

  /** The same with the pending slots in order. */
  method BranchInOrder(metas: Metas, s: u64, st: Progress, pending: seq<PendingSlot>, forks: seq<BankForksInfo>)
    returns (pending': seq<PendingSlot>, forks': seq<BankForksInfo>)
    requires s in metas && forall c :: c in metas[s].nextSlots ==> c in metas
    requires DistinctSlots(pending + FullChildren(metas, metas[s].nextSlots, st))
    ensures Descending(pending')
    ensures forall x :: x in pending' <==> x in pending + FullChildren(metas, metas[s].nextSlots, st)
    ensures forall v: u64 :: Reports(forks', v) == Reports(forks, v) + if v == s then ExpectedReports(metas, s) else 0
    ensures forall f :: f in forks' ==> f in forks || f == BankForksInfo(st.bank, s, st.entryHeight)
  {
    var unsorted;
    unsorted, forks' := Branch(metas, s, st, pending, forks);
    pending' := SortPending(unsorted);
  }

  lemma ReportsSnoc(forks: seq<BankForksInfo>, f: BankForksInfo)
    ensures forall v: u64 :: Reports(forks + [f], v) == Reports(forks, v) + if v == f.bankSlot then 1 else 0
  {
    forall v: u64 ensures Reports(forks + [f], v) == Reports(forks, v) + if v == f.bankSlot then 1 else 0 {
      ReportsConcat(forks, [f], v);
    }
  }

  /** What stays pending when slot `s` is taken: nothing if it is a root. */
  function Kept<T>(s: seq<T>, isRoot: bool): seq<T> {
    if isRoot then [] else s
  }

  lemma KeptPending(
    l: Ledger, root: u64, pending: seq<PendingSlot>, visited: set<u64>, isRoot: bool)
    requires pending != [] && Descending(pending) && AllPendingOk(l, root, visited, pending)
    ensures var base := Kept(pending[..|pending| - 1], isRoot);
            var s := pending[|pending| - 1].slot;
            && Descending(base)
            && forall x :: x in base ==> PendingOk(l, if isRoot then s else root, visited, x) && s < x.slot
  {
    var base := pending[..|pending| - 1];
    forall x | x in base ensures PendingOk(l, root, visited, x) && pending[|pending| - 1].slot < x.slot {
      var i :| 0 <= i < |base| && base[i] == x;
      assert pending[i] in pending;
    }
  }

  lemma CanBranch(
    l: Ledger, root: u64, pending: seq<PendingSlot>, visited: set<u64>, isRoot: bool, st: Progress)
    requires Inv(l) && pending != [] && Descending(pending) && AllPendingOk(l, root, visited, pending)
    ensures var s := pending[|pending| - 1].slot;
            && s in l.metas
            && (forall c :: c in l.metas[s].nextSlots ==> c in l.metas)
            && DistinctSlots(Kept(pending[..|pending| - 1], isRoot) + FullChildren(l.metas, l.metas[s].nextSlots, st))
  {
    var x := pending[|pending| - 1];
    assert x in pending;
    forall c | c in l.metas[x.slot].nextSlots ensures c in l.metas {
      ChildOf(l, x.slot, c);
    }
    KeptPending(l, root, pending, visited, isRoot);
    NextDistinct(l, if isRoot then x.slot else root, visited, Kept(pending[..|pending| - 1], isRoot), x.slot, st);
  }

  lemma Visited(
    l: Ledger, roots: set<u64>, root: u64, pending: seq<PendingSlot>, forks: seq<BankForksInfo>,
    st: Progress,
    visited: set<u64>, since: set<u64>, isRoot: bool, pending': seq<PendingSlot>, forks': seq<BankForksInfo>, s: u64)
    requires Inv(l) && pending != [] && Walking(l, roots, root, pending, forks, visited, since)
    requires s == pending[|pending| - 1].slot && s in l.metas && (isRoot <==> s in roots) && since <= visited
    requires Descending(pending')
    requires var all := Kept(pending[..|pending| - 1], isRoot) + FullChildren(l.metas, l.metas[s].nextSlots, st);
             forall x :: x in pending' <==> x in all
    requires forall v: u64 ::
               Reports(forks', v) == Reports(Kept(forks, isRoot), v) + if v == s then ExpectedReports(l.metas, s) else 0
    requires visited == {} ==> isRoot
    ensures Walking(l, roots, if isRoot then s else root, pending', forks', visited + {s},
                    if isRoot then {s} else since + {s})
  {
    var base, root' := Kept(pending[..|pending| - 1], isRoot), if isRoot then s else root;
    var x := pending[|pending| - 1];
    assert x in pending && PendingOk(l, root, visited, x);
    KeptPending(l, root, pending, visited, isRoot);
    NextPending(l, root, root', visited, base, s, st, pending');
    VisitedCounts(l, root, pending, forks, st, since, isRoot, pending', forks', s);
  }

  lemma NextCarries(
    l: Ledger, g: Genesis, pending: seq<PendingSlot>, forks: seq<BankForksInfo>, isRoot: bool, s: u64, st: Progress,
    pending': seq<PendingSlot>, forks': seq<BankForksInfo>)
    requires Inv(l) && s in l.metas && pending != [] && Carries(l, g, pending) && AllForksOk(l, g, forks)
    requires Tracks(l, g, s, st)
    requires var all := Kept(pending[..|pending| - 1], isRoot) + FullChildren(l.metas, l.metas[s].nextSlots, st);
             forall x :: x in pending' <==> x in all
    requires forall f :: f in forks' ==> f in Kept(forks, isRoot) || f == BankForksInfo(st.bank, s, st.entryHeight)
    ensures Carries(l, g, pending') && AllForksOk(l, g, forks')
  {
    forall x | x in pending' ensures CarriesAt(l, g, x) {
      if x in FullChildren(l.metas, l.metas[s].nextSlots, st) {
        FullChildrenMembers(l.metas, l.metas[s].nextSlots, st, x);
        ChildOf(l, s, x.slot);
      } else {
        assert x in pending;
      }
    }
  }

  lemma VisitedCounts(
    l: Ledger, root: u64, pending: seq<PendingSlot>, forks: seq<BankForksInfo>, st: Progress, since: set<u64>,
    isRoot: bool, pending': seq<PendingSlot>, forks': seq<BankForksInfo>, s: u64)
    requires Inv(l) && pending != [] && s == pending[|pending| - 1].slot && s in l.metas
    requires Covered(l.metas, root, since, pending) && Counted(l.metas, root, since, forks)
    requires s !in since && FullBelow(l.metas, root, s)
    requires var all := Kept(pending[..|pending| - 1], isRoot) + FullChildren(l.metas, l.metas[s].nextSlots, st);
             forall x :: x in pending' <==> x in all
    requires forall v: u64 ::
               Reports(forks', v) == Reports(Kept(forks, isRoot), v) + if v == s then ExpectedReports(l.metas, s) else 0
    ensures Covered(l.metas, if isRoot then s else root, if isRoot then {s} else since + {s}, pending')
    ensures Counted(l.metas, if isRoot then s else root, if isRoot then {s} else since + {s}, forks')
  {
    if isRoot {
      RootCovered(l, s, st, pending');
      NothingCounted(l.metas, s);
      NextCounted(l.metas, s, {}, [], s, forks');
    } else {
      Snoc(pending);
      NextCovered(l, root, since, pending, pending[..|pending| - 1], s, st, pending');
      NextCounted(l.metas, root, since, forks, s, forks');
    }
  }

  /** One round of the worklist, once the slot has been replayed. */
  method VisitSlot(
    blocktree: Blocktree, g: Genesis, root: u64, pending: seq<PendingSlot>, forks: seq<BankForksInfo>, st: Progress,
    ghost visited: set<u64>, ghost since: set<u64>)
    returns (root': u64, pending': seq<PendingSlot>, forks': seq<BankForksInfo>, ghost since': set<u64>)
    requires blocktree.Valid() && pending != []
    requires Walking(blocktree.State(), blocktree.roots, root, pending, forks, visited, since) && since <= visited
    requires var s := pending[|pending| - 1].slot;
             && Carries(blocktree.State(), g, pending) && AllForksOk(blocktree.State(), g, forks)
             && Tracks(blocktree.State(), g, s, st)
             && (visited == {} ==> s in blocktree.roots)
    ensures var s := pending[|pending| - 1].slot;
            && Walking(blocktree.State(), blocktree.roots, root', pending', forks', visited + {s}, since')
            && Carries(blocktree.State(), g, pending') && AllForksOk(blocktree.State(), g, forks')
            && (root' == root || root' == s)
            && since' <= visited + {s}
  {
    var s := pending[|pending| - 1].slot;
    var isRoot := blocktree.IsRoot(s);
    CanBranch(blocktree.State(), root, pending, visited, isRoot, st);
    pending', forks' :=
      BranchInOrder(blocktree.metas, s, st, Kept(pending[..|pending| - 1], isRoot), Kept(forks, isRoot));
    Visited(blocktree.State(), blocktree.roots, root, pending, forks, st, visited, since, isRoot, pending', forks', s);
    NextCarries(blocktree.State(), g, pending, forks, isRoot, s, st, pending', forks');
    root', since' := if isRoot then s else root, if isRoot then {s} else since + {s};
  }

  // ---- The whole ledger ----

  ghost predicate Increasing(s: seq<u64>) {
    forall i, j :: 0 <= i < j < |s| ==> s[i] < s[j]
  }

  /** `order` lists the slots of `visited` in increasing order. */
  ghost predicate Listed(order: seq<u64>, visited: set<u64>) {
    Increasing(order) && forall s :: s in order <==> s in visited
  }

  lemma ListNext(order: seq<u64>, visited: set<u64>, s: u64)
    requires Listed(order, visited) && forall v :: v in visited ==> v < s
    ensures Listed(order + [s], visited + {s})
  {
    forall i | 0 <= i < |order| ensures order[i] < s {
      assert order[i] in order;
    }
  }

  /** The slots that the walk comes to: full up to slot 0, and below every root that it came to before them. */
  ghost predicate Reached(metas: Metas, roots: set<u64>, v: u64)
    decreases v
  {
    && FullBelow(metas, 0, v)
    && forall r: u64 :: r < v && r in roots && Reached(metas, roots, r) ==> FullBelow(metas, r, v)
  }

  ghost predicate ReachedIsVisited(metas: Metas, roots: set<u64>, root: u64, visited: set<u64>, t: u64) {
    t <= root && Reached(metas, roots, t) ==> t in visited
  }

  /** Only slots that can be reached were visited, and none was left out up to the root. */
  ghost predicate Reaching(l: Ledger, roots: set<u64>, root: u64, visited: set<u64>) {
    && (forall v :: v in visited ==> Reached(l.metas, roots, v))
    && (visited == {} ==> root == 0)
    && (visited != {} ==> forall t: u64 :: ReachedIsVisited(l.metas, roots, root, visited, t))
  }

  ghost predicate AllCanReplay(l: Ledger, g: Genesis, visited: set<u64>) {
    forall v :: v in visited ==> CanReplay(l, g, v)
  }

  lemma ReachedIsCovered(
    l: Ledger, roots: set<u64>, root: u64, pending: seq<PendingSlot>, visited: set<u64>, since: set<u64>,
    t: u64)
    requires Reaching(l, roots, root, visited) && RootOk(roots, root, visited) && since <= visited
    requires Covered(l.metas, root, since, pending) && Reached(l.metas, roots, t)
    ensures t in visited || exists x :: x in pending && FullBelow(l.metas, x.slot, t)
  {
    assert CoveredAt(l.metas, root, since, pending, t);
    assert visited != {} ==> ReachedIsVisited(l.metas, roots, root, visited, t);
  }

  lemma {:induction false} BelowIsLater(metas: Metas, r: u64, t: u64)
    requires FullBelow(metas, r, t)
    ensures r <= t
    decreases t
  {
    if t != r {
      BelowIsLater(metas, r, metas[t].parentSlot);
    }
  }

  lemma LeastIsLast(pending: seq<PendingSlot>, x: PendingSlot)
    requires Descending(pending) && x in pending
    ensures pending[|pending| - 1].slot <= x.slot
  {
  }

  /** What lies before the least pending slot and can be reached was visited. */
  lemma ReachedBefore(
    l: Ledger, roots: set<u64>, root: u64, pending: seq<PendingSlot>, visited: set<u64>, since: set<u64>,
    t: u64)
    requires Reaching(l, roots, root, visited) && RootOk(roots, root, visited) && since <= visited
    requires Covered(l.metas, root, since, pending) && Reached(l.metas, roots, t)
    requires pending != [] && Descending(pending) && t < pending[|pending| - 1].slot
    ensures t in visited
  {
    ReachedIsCovered(l, roots, root, pending, visited, since, t);
    if t !in visited {
      var x :| x in pending && FullBelow(l.metas, x.slot, t);
      BelowIsLater(l.metas, x.slot, t);
      LeastIsLast(pending, x);
    }
  }

  /** The least pending slot can be reached. */
  lemma NextIsReached(
    l: Ledger, roots: set<u64>, root: u64, pending: seq<PendingSlot>, visited: set<u64>, since: set<u64>,
    s: u64)
    requires Reaching(l, roots, root, visited) && RootOk(roots, root, visited) && since <= visited
    requires Covered(l.metas, root, since, pending)
    requires pending != [] && Descending(pending) && s == pending[|pending| - 1].slot
    requires FullBelow(l.metas, 0, s) && FullBelow(l.metas, root, s)
    ensures Reached(l.metas, roots, s)
  {
    forall r: u64 | r < s && r in roots && Reached(l.metas, roots, r) ensures FullBelow(l.metas, r, s) {
      ReachedBefore(l, roots, root, pending, visited, since, r);
      assert r <= root && Reached(l.metas, roots, root);
      if r < root {
        assert FullBelow(l.metas, r, root);
        FullBelowTrans(l.metas, r, root, s);
      }
    }
  }

  lemma NextReaching(
    l: Ledger, roots: set<u64>, root: u64, pending: seq<PendingSlot>, visited: set<u64>, since: set<u64>,
    s: u64,
    root': u64)
    requires Reaching(l, roots, root, visited) && RootOk(roots, root, visited) && since <= visited
    requires Covered(l.metas, root, since, pending)
    requires pending != [] && Descending(pending) && s == pending[|pending| - 1].slot
    requires Reached(l.metas, roots, s)
    requires root' == s || (root' == root && visited != {})
    ensures Reaching(l, roots, root', visited + {s})
  {
    forall t: u64 ensures ReachedIsVisited(l.metas, roots, root', visited + {s}, t) {
      if t <= root' && Reached(l.metas, roots, t) && t != s {
        if root' == s {
          ReachedBefore(l, roots, root, pending, visited, since, t);
        } else {
          assert ReachedIsVisited(l.metas, roots, root, visited, t);
        }
      }
    }
  }

  /** The worklist, from slot 0 until nothing is pending or a slot fails. */
  method WalkForks(blocktree: Blocktree, g: Genesis)
    returns (r: Option<seq<BankForksInfo>>, root: u64, ghost order: seq<u64>, ghost visited: set<u64>,
             ghost since: set<u64>, ghost failed: u64)
    requires blocktree.Valid() && 0 in blocktree.metas && 0 in blocktree.roots
    ensures Listed(order, visited) && since <= visited
    ensures Reaching(blocktree.State(), blocktree.roots, root, visited) && AllCanReplay(blocktree.State(), g, visited)
    ensures r.Some? ==>
              && Walking(blocktree.State(), blocktree.roots, root, [], r.value, visited, since) && visited != {}
              && FullBelow(blocktree.metas, 0, root) && AllForksOk(blocktree.State(), g, r.value)
    ensures r.None? ==>
              Reached(blocktree.metas, blocktree.roots, failed) && CanFail(blocktree.State(), g, failed)
  {
    ghost var l := blocktree.State();
    var pending := [PendingSlot(0, blocktree.metas[0], Progress(g.bank, 0, g.hash))];
    var forks := [];
    root, order, visited, since, failed := 0, [], {}, {}, 0;
    WalkStart(l, blocktree.roots, pending, Progress(g.bank, 0, g.hash));
    while pending != []
      invariant Listed(order, visited) && visited <= l.metas.Keys && since <= visited
      invariant Walking(l, blocktree.roots, root, pending, forks, visited, since)
      invariant Carries(l, g, pending) && AllForksOk(l, g, forks) && AllCanReplay(l, g, visited)
      invariant Reaching(l, blocktree.roots, root, visited)
      invariant FullBelow(l.metas, 0, root)
      invariant visited == {} ==> pending != [] && pending[|pending| - 1].slot == 0
      decreases l.metas.Keys - visited
    {
      var x := pending[|pending| - 1];
      PopReached(l, blocktree.roots, root, pending, forks, visited, since);
      var st := ReplaySlot(blocktree, g, x, root, visited);
      if st.None? {
        return None, root, order, visited, since, x.slot;
      }
      ghost var root0, pending0, since0 := root, pending, since;
      root, pending, forks, since := VisitSlot(blocktree, g, root, pending, forks, st.value, visited, since);
      ListNext(order, visited, x.slot);
      assert CanReplay(l, g, x.slot);
      NextReaching(l, blocktree.roots, root0, pending0, visited, since0, x.slot, root);
      order, visited := order + [x.slot], visited + {x.slot};
    }
    r := Some(forks);
  }

  /**
   Replays every fork of full slots and reports where the forks end. `order` lists the slots in the order they were
   visited. Whether it can fail is decided by the slots that the walk comes to; in an orderly ledger it fails exactly if
   one of them cannot be replayed, and the banks are those of running one transaction at a time.
   */
  method ProcessBlocktree(blocktree: Blocktree, g: Genesis)
    returns (r: Option<seq<BankForksInfo>>, root: u64, ghost order: seq<u64>)
    requires blocktree.Valid() && 0 in blocktree.metas
    modifies blocktree`roots
    ensures blocktree.roots == old(blocktree.roots) + {0}
    ensures Increasing(order) && forall v :: v in order ==> Reached(blocktree.metas, blocktree.roots, v)
    ensures r.Some? ==>
              && (forall v: u64 :: Reached(blocktree.metas, blocktree.roots, v) ==> v in order)
              && root in blocktree.roots && root in order
              && (forall v :: v in order && v in blocktree.roots ==> v <= root)
              && (forall v: u64 :: Reports(r.value, v) ==
                    if FullBelow(blocktree.metas, root, v) then ExpectedReports(blocktree.metas, v) else 0)
              && AllForksOk(blocktree.State(), g, r.value)
              && (forall v: u64 :: ReportedIff(blocktree.metas, r.value, root, v))
              && (forall v: u64 :: ReportedAt(blocktree.metas, r.value, root, v))
              && (forall n: u64 ::
                    RootChain(blocktree.metas, blocktree.roots, n) && FullBelow(blocktree.metas, 0, n) ==> root == n)
    ensures forall v :: v in order ==> CanReplay(blocktree.State(), g, v)
    ensures r.None? ==>
              exists v: u64 :: Reached(blocktree.metas, blocktree.roots, v) && CanFail(blocktree.State(), g, v)
    ensures Orderly(blocktree.State(), g) ==>
              && (r.Some? <==>
                    forall v: u64 ::
                      Reached(blocktree.metas, blocktree.roots, v) ==> Replayable(blocktree.State(), g, v))
              && (r.Some? ==>
                    forall f :: f in r.value ==> RanInOrder(g, PathEntries(blocktree.State(), f.bankSlot), f.bank))
  {
    blocktree.SetRoot(0, 0);
    ghost var l := blocktree.State();
    ghost var visited, since, failed;
    r, root, order, visited, since, failed := WalkForks(blocktree, g);
    if r.None? {
      FailedInOrder(l, g, blocktree.roots, failed);
    } else {
      WalkEnd(l, blocktree.roots, root, r.value, visited, since);
      AllReached(l, blocktree.roots, root, visited, since);
      ReplayedInOrder(l, g, blocktree.roots, visited, r.value);
      AllReportsInWords(l, root, r.value);
    }
  }

  lemma AllReportsInWords(l: Ledger, root: u64, forks: seq<BankForksInfo>)
    requires Inv(l)
    requires forall v: u64 :: Reports(forks, v) ==
               if FullBelow(l.metas, root, v) then ExpectedReports(l.metas, v) else 0
    ensures forall v: u64 :: ReportedAt(l.metas, forks, root, v)
    ensures forall v: u64 :: ReportedIff(l.metas, forks, root, v)
  {
    forall v: u64 ensures ReportedAt(l.metas, forks, root, v) && ReportedIff(l.metas, forks, root, v) {
      ReportsInWords(l, root, forks, v);
    }
  }

  lemma FailedInOrder(l: Ledger, g: Genesis, roots: set<u64>, s: u64)
    requires Reached(l.metas, roots, s) && CanFail(l, g, s)
    ensures Orderly(l, g) ==> exists v: u64 :: Reached(l.metas, roots, v) && !Replayable(l, g, v)
  {
    if Orderly(l, g) {
      OrderlyFailure(l, g, s);
    }
  }

  lemma ReplayedInOrder(l: Ledger, g: Genesis, roots: set<u64>, visited: set<u64>, forks: seq<BankForksInfo>)
    requires AllForksOk(l, g, forks) && AllCanReplay(l, g, visited)
    requires forall v: u64 :: Reached(l.metas, roots, v) ==> v in visited
    ensures Orderly(l, g) ==> forall v: u64 :: Reached(l.metas, roots, v) ==> Replayable(l, g, v)
    ensures Orderly(l, g) ==> forall f :: f in forks ==> RanInOrder(g, PathEntries(l, f.bankSlot), f.bank)
  {
    if Orderly(l, g) {
      forall v: u64 | Reached(l.metas, roots, v) ensures Replayable(l, g, v) {
        var bank :| Replayed(l, g, v, bank);
        OrderlyReplay(l, g, v, bank);
      }
      forall f | f in forks ensures RanInOrder(g, PathEntries(l, f.bankSlot), f.bank) {
        OrderlyReplay(l, g, f.bankSlot, f.bank);
      }
    }
  }

  lemma PopReached(
    l: Ledger, roots: set<u64>, root: u64, pending: seq<PendingSlot>, forks: seq<BankForksInfo>,
    visited: set<u64>, since: set<u64>)
    requires pending != [] && Walking(l, roots, root, pending, forks, visited, since) && since <= visited
    requires Reaching(l, roots, root, visited) && FullBelow(l.metas, 0, root)
    ensures var x := pending[|pending| - 1];
            && x in pending && PendingOk(l, root, visited, x) && x.slot in l.metas && x.slot !in visited
            && FullBelow(l.metas, 0, x.slot) && Reached(l.metas, roots, x.slot)
  {
    var x := pending[|pending| - 1];
    assert x in pending && PendingOk(l, root, visited, x);
    FullBelowTrans(l.metas, 0, root, x.slot);
    NextIsReached(l, roots, root, pending, visited, since, x.slot);
  }

  lemma AllReached(l: Ledger, roots: set<u64>, root: u64, visited: set<u64>, since: set<u64>)
    requires Reaching(l, roots, root, visited) && RootOk(roots, root, visited) && since <= visited
    requires Covered(l.metas, root, since, [])
    ensures forall v: u64 :: Reached(l.metas, roots, v) ==> v in visited
  {
    forall v: u64 | Reached(l.metas, roots, v) ensures v in visited {
      ReachedIsCovered(l, roots, root, [], visited, since, v);
    }
  }

  lemma WalkStart(l: Ledger, roots: set<u64>, pending: seq<PendingSlot>, st: Progress)
    requires Inv(l) && 0 in l.metas && pending == [PendingSlot(0, l.metas[0], st)]
    ensures Walking(l, roots, 0, pending, [], {}, {})
  {
    NothingCounted(l.metas, 0);
    forall t: u64 ensures CoveredAt(l.metas, 0, {}, pending, t) {
      assert pending[0] in pending;
    }
  }

  /** When nothing is pending, exactly what is below the last root met has been visited since. */
  lemma WalkEnd(
    l: Ledger, roots: set<u64>, root: u64, forks: seq<BankForksInfo>, visited: set<u64>, since: set<u64>)
    requires Inv(l) && Walking(l, roots, root, [], forks, visited, since) && since <= visited && visited != {}
    requires FullBelow(l.metas, 0, root)
    ensures forall v: u64 :: Reports(forks, v) == if FullBelow(l.metas, root, v) then ExpectedReports(l.metas, v) else 0
    ensures forall n: u64 :: RootChain(l.metas, roots, n) && FullBelow(l.metas, 0, n) ==> root == n
    ensures forall v: u64 :: FullBelow(l.metas, root, v) ==> v in visited
  {
    forall v: u64 | FullBelow(l.metas, root, v) ensures v in visited {
      assert CoveredAt(l.metas, root, since, [], v);
    }
    forall v: u64 ensures Reports(forks, v) == if FullBelow(l.metas, root, v) then ExpectedReports(l.metas, v) else 0 {
      assert CountAt(l.metas, root, since, forks, v) && CoveredAt(l.metas, root, since, [], v);
    }
    forall n: u64 | RootChain(l.metas, roots, n) && FullBelow(l.metas, 0, n) ensures root == n {
      assert Descends(l.metas, root, n) && Descends(l.metas, n, n);
      FullBelowFrom(l.metas, root, n);
      DescendsTrans(l.metas, root, n, n);
      assert CoveredAt(l.metas, root, since, [], n);
    }
  }

  lemma {:induction false} FullBelowFrom(metas: Metas, r: u64, n: u64)
    requires Descends(metas, r, n) && FullBelow(metas, 0, n)
    ensures FullBelow(metas, r, n)
    decreases n
  {
    if n != r {
      FullBelowFrom(metas, r, metas[n].parentSlot);
    }
  }
}
