/** Entries run in ledger order, or in groups that are locked together and run in parallel; when the two agree. */
module Grouping {
  import opened Common
  import opened Transactions

  // ---- Ledger order ----

  ghost function RunEntry(p: Program, e: Entry, b: BankState): BankState {
    if e.IsTick() then BankState(b.accounts, b.ticks + [e.hash])
    else BankState(RunTxs(p, e.transactions, b.accounts, b.ticks), b.ticks)
  }

  /** The bank after running the entries in ledger order, one transaction at a time. */
  ghost function RunEntries(p: Program, entries: seq<Entry>, b: BankState): BankState {
    if entries == [] then b
    else RunEntry(p, entries[|entries| - 1], RunEntries(p, entries[..|entries| - 1], b))
  }

  /** The first error of the run in ledger order. */
  ghost function RunError(p: Program, entries: seq<Entry>, b: BankState): Option<TransactionError> {
    if entries == [] then None
    else
      var front, last := entries[..|entries| - 1], entries[|entries| - 1];
      var e, mid := RunError(p, front, b), RunEntries(p, front, b);
      if e.Some? then e else TxsError(p, last.transactions, mid.accounts, mid.ticks)
  }

  lemma {:induction false} RunEntriesConcat(p: Program, a: seq<Entry>, b: seq<Entry>, s: BankState)
    ensures RunEntries(p, a + b, s) == RunEntries(p, b, RunEntries(p, a, s))
    ensures RunError(p, a + b, s) ==
              var e := RunError(p, a, s);
              if e.Some? then e else RunError(p, b, RunEntries(p, a, s))
  {
    if b == [] {
      assert a + b == a;
    } else {
      var front, last := b[..|b| - 1], b[|b| - 1];
      RunEntriesConcat(p, a, front, s);
      RunEntriesSnoc(p, a + front, last, s);
      RunEntriesSnoc(p, front, last, RunEntries(p, a, s));
      Snoc(b);
      ConcatSnoc(a, b);
    }
  }

  lemma RunEntriesSnoc(p: Program, entries: seq<Entry>, last: Entry, s: BankState)
    ensures var mid, e := RunEntries(p, entries, s), RunError(p, entries, s);
            && RunEntries(p, entries + [last], s) == RunEntry(p, last, mid)
            && RunError(p, entries + [last], s) ==
               if e.Some? then e else TxsError(p, last.transactions, mid.accounts, mid.ticks)
  {
    assert (entries + [last])[..|entries|] == entries;
  }

  /** The entries before `n` took effect, and the error is theirs or that entry `n` conflicts with itself. */
  ghost predicate Stopped(
    p: Program, entries: seq<Entry>, n: nat, pre: BankState, post: BankState, r: Option<TransactionError>)
  {
    && n <= |entries| && post == RunEntries(p, entries[..n], pre)
    && (|| (r == RunError(p, entries[..n], pre) && RunError(p, entries, pre).Some?)
        || Conflicted(p, entries, n, pre, r))
  }

  /**
   The first `applied` entries took effect as if run one transaction at a time; these are all of them, without an
   error, iff running all of them has none and no entry conflicts with itself.
   */
  ghost predicate Processed(
    p: Program, entries: seq<Entry>, applied: nat, pre: BankState, post: BankState, r: Option<TransactionError>)
  {
    && applied <= |entries| && post == RunEntries(p, entries[..applied], pre)
    && (r.None? ==> applied == |entries|)
    && (r.None? <==> RunError(p, entries, pre).None? && NoSelfConflict(entries))
    && (r.Some? ==> r == RunError(p, entries[..applied], pre) || Conflicted(p, entries, applied, pre, r))
  }

  ghost predicate NoSelfConflict(entries: seq<Entry>) {
    forall i :: 0 <= i < |entries| ==> Lockable(entries[i].transactions, {})
  }

  /** Entry `n` conflicts with itself, and the entries before it ran without an error. */
  ghost predicate Conflicted(
    p: Program, entries: seq<Entry>, n: nat, b: BankState, r: Option<TransactionError>)
  {
    && n < |entries| && !Lockable(entries[n].transactions, {})
    && RunError(p, entries[..n], b).None?
    && r == Some(AccountInUse)
  }

  /** One more entry, in words: a tick is registered, and transactions see the ticks before them. */
  lemma OneMoreEntry(p: Program, entries: seq<Entry>, e: Entry, b: BankState)
    ensures RunEntries(p, [], b) == b && RunError(p, [], b) == None
    ensures var before, after := RunEntries(p, entries, b), RunEntries(p, entries + [e], b);
            && (e.transactions == [] ==> after == BankState(before.accounts, before.ticks + [e.hash]))
            && (e.transactions != [] ==>
                  after == BankState(RunTxs(p, e.transactions, before.accounts, before.ticks), before.ticks))
            && RunError(p, entries + [e], b) ==
               if RunError(p, entries, b).Some? then RunError(p, entries, b)
               else TxsError(p, e.transactions, before.accounts, before.ticks)
  {
    RunEntriesSnoc(p, entries, e, b);
  }

  // ---- Entries that are locked together ----

  ghost function LockedOf(txs: seq<Transaction>): set<Pubkey> {
    set i, k | 0 <= i < |txs| && k in Locked(txs[i]) :: k
  }

  lemma LockedOfConcat(a: seq<Transaction>, b: seq<Transaction>)
    ensures LockedOf(a + b) == LockedOf(a) + LockedOf(b)
  {
    forall k | k in LockedOf(b) ensures k in LockedOf(a + b) {
      var i :| 0 <= i < |b| && k in Locked(b[i]);
      assert (a + b)[|a| + i] == b[i];
    }
    forall k | k in LockedOf(a) ensures k in LockedOf(a + b) {
      var i :| 0 <= i < |a| && k in Locked(a[i]);
      assert (a + b)[i] == a[i];
    }
  }

  lemma LockableByItself(txs: seq<Transaction>, held: set<Pubkey>)
    requires Lockable(txs, held)
    ensures Lockable(txs, {})
  {
    forall i ensures FreeAt(txs, {}, i) {
    }
  }

  lemma GroupGrows(group: seq<Entry>, e: Entry)
    requires IsGroup(group) && !e.IsTick() && Lockable(e.transactions, LockedOf(TransactionsOf(group)))
    ensures IsGroup(group + [e])
    ensures LockedOf(TransactionsOf(group + [e])) == LockedOf(TransactionsOf(group)) + LockedOf(e.transactions)
  {
    var a, b := TransactionsOf(group), e.transactions;
    assert (group + [e])[..|group|] == group;
    LockedOfConcat(a, b);
    forall i ensures FreeAt(a + b, {}, i) {
    }
    forall i, j ensures DisjointAt(a + b, i, j) {
      assert DisjointAt(a, i, j) && DisjointAt(b, i - |a|, j - |a|);
      assert FreeAt(b, LockedOf(a), j - |a|) && FreeAt(b, LockedOf(a), i - |a|);
      assert 0 <= i < |a| ==> Locked(a[i]) <= LockedOf(a);
      assert 0 <= j < |a| ==> Locked(a[j]) <= LockedOf(a);
    }
  }

  lemma EmptyGroup()
    ensures IsGroup([]) && LockedOf(TransactionsOf([])) == {}
  {
    forall i ensures FreeAt([], {}, i) {
    }
    forall i, j ensures DisjointAt([], i, j) {
    }
  }

  lemma SliceSnoc<T>(s: seq<T>, i: nat, j: nat)
    requires i <= j < |s|
    ensures s[i..j] + [s[j]] == s[i..j + 1]
  {
  }

  /** A tick that comes up when everything before it has taken effect. */
  lemma TickRun(p: Program, entries: seq<Entry>, i: nat, b: BankState)
    requires i < |entries| && entries[i].IsTick()
    ensures var before := RunEntries(p, entries[..i], b);
            RunEntries(p, entries[..i + 1], b) == BankState(before.accounts, before.ticks + [entries[i].hash])
    ensures RunError(p, entries[..i + 1], b) == RunError(p, entries[..i], b)
  {
    assert entries[..i + 1][..i] == entries[..i];
  }

  lemma RunSlice(p: Program, entries: seq<Entry>, i: nat, j: nat, b: BankState)
    requires i <= j <= |entries|
    ensures RunEntries(p, entries[..j], b) == RunEntries(p, entries[i..j], RunEntries(p, entries[..i], b))
    ensures RunError(p, entries[..i], b).None? ==>
              RunError(p, entries[..j], b) == RunError(p, entries[i..j], RunEntries(p, entries[..i], b))
  {
    assert entries[..i] + entries[i..j] == entries[..j];
    RunEntriesConcat(p, entries[..i], entries[i..j], b);
  }

  lemma StopsInside(p: Program, entries: seq<Entry>, i: nat, b: BankState)
    requires i <= |entries| && RunError(p, entries[..i], b).Some?
    ensures RunError(p, entries, b).Some?
  {
    assert entries[..i] + entries[i..] == entries;
    RunEntriesConcat(p, entries[..i], entries[i..], b);
  }

  /** Entries that are locked together: none is a tick and no two transactions lock the same account. */
  ghost predicate IsGroup(group: seq<Entry>) {
    (forall i :: 0 <= i < |group| ==> !group[i].IsTick()) && Lockable(TransactionsOf(group), {})
  }

  lemma {:induction false} TransactionsOfConcat(a: seq<Entry>, b: seq<Entry>)
    ensures TransactionsOf(a + b) == TransactionsOf(a) + TransactionsOf(b)
  {
    if b == [] {
      assert a + b == a;
    } else {
      var front, last := b[..|b| - 1], b[|b| - 1];
      TransactionsOfConcat(a, front);
      TransactionsOfSnoc(a + front, last);
      TransactionsOfSnoc(front, last);
      Snoc(b);
      ConcatSnoc(a, b);
      Associative(TransactionsOf(a), TransactionsOf(front), last.transactions);
    }
  }

  lemma TransactionsOfSnoc(entries: seq<Entry>, e: Entry)
    ensures TransactionsOf(entries + [e]) == TransactionsOf(entries) + e.transactions
  {
    assert (entries + [e])[..|entries|] == entries;
  }

  lemma TransactionsOfPrefix(group: seq<Entry>, j: nat)
    requires j < |group|
    ensures TransactionsOf(group[..j + 1]) == TransactionsOf(group[..j]) + group[j].transactions
    ensures |TransactionsOf(group[..j + 1])| <= |TransactionsOf(group)|
  {
    assert group[..j + 1][..j] == group[..j];
    assert group[..j + 1] + group[j + 1..] == group;
    TransactionsOfConcat(group[..j + 1], group[j + 1..]);
  }

  /** Running the entries of a group is running their transactions. */
  lemma {:induction false} GroupRun(p: Program, group: seq<Entry>, b: BankState)
    requires forall i :: 0 <= i < |group| ==> !group[i].IsTick()
    ensures RunEntries(p, group, b) == BankState(RunTxs(p, TransactionsOf(group), b.accounts, b.ticks), b.ticks)
    ensures RunError(p, group, b) == TxsError(p, TransactionsOf(group), b.accounts, b.ticks)
  {
    if group != [] {
      var front, last := group[..|group| - 1], group[|group| - 1];
      GroupRun(p, front, b);
      RunTxsConcat(p, TransactionsOf(front), last.transactions, b.accounts, b.ticks);
    }
  }

  // ---- The groups ----

  /**
   Where the group begins that the first `i` entries end with: a tick and an entry that cannot be locked together with
   the group before it end a group. This depends on nothing but ticks and locks.
   */
  ghost function GroupStart(entries: seq<Entry>, i: nat): (start: nat)
    requires i <= |entries|
    ensures start <= i
    decreases i, 0
  {
    if i == 0 then 0
    else if entries[i - 1].IsTick() then i
    else if Joins(entries, i - 1) then GroupStart(entries, i - 1)
    else i - 1
  }

  ghost function Group(entries: seq<Entry>, i: nat): seq<Entry>
    requires i <= |entries|
    decreases i, 1
  {
    entries[GroupStart(entries, i)..i]
  }

  /** Entry `i` can be locked together with the group before it. */
  ghost predicate Joins(entries: seq<Entry>, i: nat)
    requires i < |entries|
    decreases i, 2
  {
    Lockable(entries[i].transactions, LockedOf(TransactionsOf(Group(entries, i))))
  }

  /** Entry `i` is added to the group before it. */
  ghost predicate Continues(entries: seq<Entry>, i: nat)
    requires i < |entries|
  {
    !entries[i].IsTick() && Joins(entries, i)
  }

  lemma {:induction false} Extends(entries: seq<Entry>, i: nat)
    requires i < |entries| && Continues(entries, i)
    ensures GroupStart(entries, i + 1) == GroupStart(entries, i)
    ensures Group(entries, i + 1) == Group(entries, i) + [entries[i]]
    ensures TransactionsOf(Group(entries, i + 1)) == TransactionsOf(Group(entries, i)) + entries[i].transactions
  {
    SliceSnoc(entries, GroupStart(entries, i), i);
    TransactionsOfSnoc(Group(entries, i), entries[i]);
  }

  lemma {:induction false} Starts(entries: seq<Entry>, i: nat)
    requires i < |entries| && !Continues(entries, i)
    ensures GroupStart(entries, i + 1) == if entries[i].IsTick() then i + 1 else i
    ensures Group(entries, i + 1) == if entries[i].IsTick() then [] else [entries[i]]
  {
  }

  /** No entry before `i` conflicts with itself, so that the groups up to there are run. */
  ghost predicate Fine(entries: seq<Entry>, i: nat)
    requires i <= |entries|
  {
    forall j :: 0 <= j < i ==> Lockable(entries[j].transactions, {})
  }

  lemma {:induction false} NoLocks(e: Entry)
    requires e.IsTick()
    ensures Lockable(e.transactions, {})
  {
    EmptyGroup();
  }

  lemma {:induction false} GroupsAreGroups(entries: seq<Entry>, i: nat)
    requires i <= |entries| && Fine(entries, i)
    ensures IsGroup(Group(entries, i))
  {
    EmptyGroup();
    if i > 0 {
      GroupsAreGroups(entries, i - 1);
      NextIsGroup(entries, i - 1);
    }
  }

  lemma {:induction false} NextIsGroup(entries: seq<Entry>, i: nat)
    requires i < |entries| && IsGroup(Group(entries, i)) && Lockable(entries[i].transactions, {})
    ensures IsGroup(Group(entries, i + 1))
  {
    EmptyGroup();
    if Continues(entries, i) {
      Extends(entries, i);
      GroupGrows(Group(entries, i), entries[i]);
    } else {
      Starts(entries, i);
      if !entries[i].IsTick() {
        GroupGrows([], entries[i]);
        assert [entries[i]] == [] + [entries[i]];
      }
    }
  }

  lemma {:induction false} EmptyAfterTick(entries: seq<Entry>, i: nat)
    requires 0 < i <= |entries| && GroupStart(entries, i) == i
    ensures entries[i - 1].transactions == []
  {
  }

  /** A group begins at the first entry, after a tick, or with an entry that cannot be locked with the group before. */
  lemma {:induction false} WhyItBegins(entries: seq<Entry>, i: nat)
    requires i <= |entries| && 0 < GroupStart(entries, i)
    ensures var start := GroupStart(entries, i);
            entries[start - 1].transactions == [] || (start < i && !Joins(entries, start))
  {
    var start := GroupStart(entries, i);
    if start == i {
      EmptyAfterTick(entries, i);
    } else if Joins(entries, i - 1) {
      WhyItBegins(entries, i - 1);
    }
  }

  lemma {:induction false} NoTickInside(entries: seq<Entry>, i: nat, j: nat)
    requires i <= |entries| && GroupStart(entries, i) <= j < i
    ensures entries[j].transactions != []
    decreases i
  {
    if j < i - 1 {
      NoTickInside(entries, i - 1, j);
    }
  }

  /**
   The groups, in words: no tick is in one, no account is locked twice in one, and a group that is not the first begins
   after a tick or with an entry that locks an account that the group before it holds.
   */
  lemma {:induction false} GroupsInWords(entries: seq<Entry>, i: nat)
    requires i <= |entries| && Fine(entries, i)
    ensures forall j :: GroupStart(entries, i) <= j < i ==> entries[j].transactions != []
    ensures var txs := TransactionsOf(Group(entries, i));
            forall a, b, k :: 0 <= a < b < |txs| && k in txs[a].accounts ==> k !in txs[b].accounts
    ensures var start := GroupStart(entries, i);
            0 < start ==>
              || entries[start - 1].transactions == []
              || (start < i && SharesLock(TransactionsOf(Group(entries, start)), entries[start].transactions))
  {
    var start, txs := GroupStart(entries, i), TransactionsOf(Group(entries, i));
    forall j | start <= j < i ensures entries[j].transactions != [] {
      NoTickInside(entries, i, j);
    }
    GroupsAreGroups(entries, i);
    forall a, b, k | 0 <= a < b < |txs| && k in txs[a].accounts ensures k !in txs[b].accounts {
      assert DisjointAt(txs, a, b);
      assert k in Locked(txs[a]);
    }
    if 0 < start {
      WhyItBegins(entries, i);
      if entries[start - 1].transactions != [] {
        ConflictsWith(entries[start].transactions, TransactionsOf(Group(entries, start)));
      }
    }
  }

  ghost predicate SharesLock(a: seq<Transaction>, b: seq<Transaction>) {
    exists i, j, k :: 0 <= i < |a| && 0 <= j < |b| && k in a[i].accounts && k in b[j].accounts
  }

  /** What can be locked by itself but not beside others shares an account with them. */
  lemma {:induction false} ConflictsWith(txs: seq<Transaction>, group: seq<Transaction>)
    requires Lockable(txs, {}) && !Lockable(txs, LockedOf(group))
    ensures SharesLock(group, txs)
  {
    forall i, j ensures DisjointAt(txs, i, j) {
    }
    var j :| !FreeAt(txs, LockedOf(group), j);
    var k :| k in Locked(txs[j]) && k in LockedOf(group);
    var i :| 0 <= i < |group| && k in Locked(group[i]);
    assert k in group[i].accounts && k in txs[j].accounts;
  }

  // ---- Running the groups ----

  /** How a run ended. */
  datatype Ran = Ran(bank: BankState, error: Option<TransactionError>)

  /** A group run in parallel under a schedule, and the first error in ledger order. */
  ghost function PlayGroup(p: Program, group: seq<Entry>, b: BankState, schedule: seq<int>): Ran {
    var txs := TransactionsOf(group);
    var f := Play(p, txs, b.accounts, b.ticks, schedule);
    Ran(BankState(f.accounts, b.ticks), FirstErr(Errors(f, |txs|)))
  }

  /** What entry `e` does once the group before it has run. */
  ghost function After(e: Entry, r: Ran): Ran {
    if r.error.Some? then r
    else if e.IsTick() then Ran(BankState(r.bank.accounts, r.bank.ticks + [e.hash]), None)
    else if Lockable(e.transactions, {}) then r
    else Ran(r.bank, Some(AccountInUse))
  }

  /** Taking up entry `i`: it is added to the group, or the group is run under the schedule. */
  ghost function Next(p: Program, entries: seq<Entry>, i: nat, schedule: seq<int>, prev: Ran): Ran
    requires i < |entries|
  {
    if prev.error.Some? || Continues(entries, i) then prev
    else After(entries[i], PlayGroup(p, Group(entries, i), prev.bank, schedule))
  }

  /** The bank when the first `i` entries have been taken up and the last group of them is still to run. */
  ghost function RunTo(p: Program, entries: seq<Entry>, i: nat, b: BankState, schedules: seq<seq<int>>): Ran
    requires i <= |entries| < |schedules|
  {
    if i == 0 then Ran(b, None)
    else Next(p, entries, i - 1, schedules[i - 1], RunTo(p, entries, i - 1, b, schedules))
  }

  /** The groups run one after the other, each under its schedule, up to the first error. */
  ghost function Parallel(p: Program, entries: seq<Entry>, b: BankState, schedules: seq<seq<int>>): Ran
    requires |entries| < |schedules|
  {
    var last := RunTo(p, entries, |entries|, b, schedules);
    if last.error.Some? then last
    else PlayGroup(p, Group(entries, |entries|), last.bank, schedules[|entries|])
  }

  ghost predicate ScheduledAt(entries: seq<Entry>, schedules: seq<seq<int>>, i: nat)
    requires i <= |entries| < |schedules|
  {
    IsSchedule(schedules[i], |TransactionsOf(Group(entries, i))|)
  }

  /** A schedule for the group before every entry, and one for the last group. */
  ghost predicate AreSchedules(entries: seq<Entry>, schedules: seq<seq<int>>) {
    |schedules| == |entries| + 1 && forall i: nat :: i <= |entries| ==> ScheduledAt(entries, schedules, i)
  }

  /** In every group, all transactions load before the first one stores. */
  ghost function AllLoadFirst(entries: seq<Entry>): (schedules: seq<seq<int>>)
    ensures |schedules| == |entries| + 1
  {
    seq(|entries| + 1, i requires 0 <= i <= |entries| => LoadsFirst(|TransactionsOf(Group(entries, i))|))
  }

  lemma {:induction false} AllLoadFirstScheduled(entries: seq<Entry>)
    ensures AreSchedules(entries, AllLoadFirst(entries))
  {
    var schedules := AllLoadFirst(entries);
    forall i: nat | i <= |entries| ensures ScheduledAt(entries, schedules, i) {
    }
  }

  /** Taking up one entry keeps `inv`, a property of a number of entries and the run over them. */
  ghost predicate KeptAt(
    p: Program, entries: seq<Entry>, schedules: seq<seq<int>>, inv: (nat, Ran) -> bool, i: nat, r: Ran)
    requires i < |entries| < |schedules|
  {
    inv(i, r) ==> inv(i + 1, Next(p, entries, i, schedules[i], r))
  }

  /** What taking up one entry keeps holds of every run. */
  lemma {:induction false} RunToKeeps(
    p: Program, entries: seq<Entry>, i: nat, b: BankState, schedules: seq<seq<int>>, inv: (nat, Ran) -> bool)
    requires i <= |entries| < |schedules| && inv(0, Ran(b, None))
    requires forall j: nat, r :: j < |entries| ==> KeptAt(p, entries, schedules, inv, j, r)
    ensures inv(i, RunTo(p, entries, i, b, schedules))
  {
    if i > 0 {
      RunToKeeps(p, entries, i - 1, b, schedules, inv);
      assert KeptAt(p, entries, schedules, inv, i - 1, RunTo(p, entries, i - 1, b, schedules));
    }
  }

  lemma StepOfSchedule(schedule: seq<int>, n: nat, i: int)
    requires IsSchedule(schedule, n) && i in schedule
    ensures 0 <= i < n
  {
    assert multiset(schedule)[i] > 0;
  }

  /** Nothing happens when there is no group to run. */
  lemma {:induction false} EmptyPlay(p: Program, b: BankState, schedule: seq<int>)
    requires IsSchedule(schedule, 0)
    ensures PlayGroup(p, [], b, schedule) == Ran(b, None)
  {
    if schedule != [] {
      StepOfSchedule(schedule, 0, schedule[0]);
    }
    var f := Play(p, [], b.accounts, b.ticks, []);
    assert f.accounts == b.accounts && Errors(f, 0) == [];
  }

  /** A schedule that is not used yet can be replaced. */
  lemma {:induction false} RunToFrame(
    p: Program, entries: seq<Entry>, i: nat, b: BankState, schedules: seq<seq<int>>, j: nat, x: seq<int>)
    requires i <= j <= |entries| < |schedules|
    ensures RunTo(p, entries, i, b, schedules[j := x]) == RunTo(p, entries, i, b, schedules)
  {
    if i > 0 {
      RunToFrame(p, entries, i - 1, b, schedules, j, x);
    }
  }

  lemma {:induction false} ErrorStays(
    p: Program, entries: seq<Entry>, i: nat, j: nat, b: BankState, schedules: seq<seq<int>>)
    requires i <= j <= |entries| < |schedules| && RunTo(p, entries, i, b, schedules).error.Some?
    ensures RunTo(p, entries, j, b, schedules) == RunTo(p, entries, i, b, schedules)
  {
    if i < j {
      ErrorStays(p, entries, i, j - 1, b, schedules);
    }
  }

  lemma {:induction false} NoErrorIsFine(
    p: Program, entries: seq<Entry>, i: nat, b: BankState, schedules: seq<seq<int>>)
    requires i <= |entries| < |schedules| && RunTo(p, entries, i, b, schedules).error.None?
    ensures Fine(entries, i)
  {
    if i > 0 {
      NoErrorIsFine(p, entries, i - 1, b, schedules);
      NextIsFine(p, entries, i - 1, schedules[i - 1], RunTo(p, entries, i - 1, b, schedules));
    }
  }

  lemma {:induction false} NextIsFine(p: Program, entries: seq<Entry>, i: nat, schedule: seq<int>, prev: Ran)
    requires i < |entries| && Next(p, entries, i, schedule, prev).error.None?
    ensures Lockable(entries[i].transactions, {})
  {
    if Continues(entries, i) {
      LockableByItself(entries[i].transactions, LockedOf(TransactionsOf(Group(entries, i))));
    } else if entries[i].IsTick() {
      NoLocks(entries[i]);
    }
  }

  /** `inv` is that the ticks are those of ledger order. */
  ghost predicate IsTicked(p: Program, entries: seq<Entry>, b: BankState, inv: (nat, Ran) -> bool) {
    forall i: nat, r :: inv(i, r) <==>
      i <= |entries| && (r.error.None? ==> r.bank.ticks == RunEntries(p, entries[..i], b).ticks)
  }

  lemma {:induction false} TickKept(
    p: Program, entries: seq<Entry>, b: BankState, schedules: seq<seq<int>>, inv: (nat, Ran) -> bool, i: nat, r: Ran)
    requires i < |entries| < |schedules| && IsTicked(p, entries, b, inv)
    ensures KeptAt(p, entries, schedules, inv, i, r)
  {
    assert entries[..i + 1] == entries[..i] + [entries[i]];
    OneMoreEntry(p, entries[..i], entries[i], b);
  }

  lemma {:induction false} RunToTicks(
    p: Program, entries: seq<Entry>, b: BankState, schedules: seq<seq<int>>, inv: (nat, Ran) -> bool)
    requires |entries| < |schedules| && IsTicked(p, entries, b, inv)
    ensures inv(|entries|, RunTo(p, entries, |entries|, b, schedules))
  {
    forall i: nat, r | i < |entries| ensures KeptAt(p, entries, schedules, inv, i, r) {
      TickKept(p, entries, b, schedules, inv, i, r);
    }
    RunToKeeps(p, entries, |entries|, b, schedules, inv);
  }

  /** Whatever the schedules, a run without an error registers the ticks of ledger order. */
  lemma {:induction false} ParallelTicks(p: Program, entries: seq<Entry>, b: BankState, schedules: seq<seq<int>>)
    requires |entries| < |schedules| && Parallel(p, entries, b, schedules).error.None?
    ensures Parallel(p, entries, b, schedules).bank.ticks == RunEntries(p, entries, b).ticks
  {
    RunToTicks(p, entries, b, schedules, (i: nat, r: Ran) =>
      i <= |entries| && (r.error.None? ==> r.bank.ticks == RunEntries(p, entries[..i], b).ticks));
    assert entries[..|entries|] == entries;
  }

  // ---- When parallel runs are ledger order ----

  /** No transaction of a group that is run can change an account that another one of the group uses. */
  ghost predicate Orderly(p: Program, entries: seq<Entry>) {
    forall i: nat :: i <= |entries| ==> OrderlyAt(p, entries, i)
  }

  ghost predicate OrderlyAt(p: Program, entries: seq<Entry>, i: nat)
    requires i <= |entries|
  {
    Fine(entries, i) ==> Independent(p, TransactionsOf(Group(entries, i)))
  }

  /** Running an independent group leads from the entries before it to the entries up to its end. */
  lemma {:induction false} GroupInOrder(
    p: Program, entries: seq<Entry>, i: nat, b: BankState, schedule: seq<int>, prev: BankState)
    requires i <= |entries| && Fine(entries, i) && OrderlyAt(p, entries, i)
    requires IsSchedule(schedule, |TransactionsOf(Group(entries, i))|)
    requires var start := GroupStart(entries, i);
             prev == RunEntries(p, entries[..start], b) && RunError(p, entries[..start], b).None?
    ensures PlayGroup(p, Group(entries, i), prev, schedule)
            == Ran(RunEntries(p, entries[..i], b), RunError(p, entries[..i], b))
  {
    var group := Group(entries, i);
    GroupsAreGroups(entries, i);
    IndependentPlay(p, TransactionsOf(group), prev.accounts, prev.ticks, schedule);
    GroupRun(p, group, prev);
    RunSlice(p, entries, GroupStart(entries, i), i, b);
  }

  /** How far the run is: up to the last group, or stopped at some entry. */
  ghost predicate InOrder(p: Program, entries: seq<Entry>, i: nat, b: BankState, ran: Ran)
    requires i <= |entries|
  {
    if ran.error.None? then
      var start := GroupStart(entries, i);
      Fine(entries, i) && ran.bank == RunEntries(p, entries[..start], b) && RunError(p, entries[..start], b).None?
    else exists n: nat :: Stopped(p, entries, n, b, ran.bank, ran.error)
  }

  /** `inv` is that the run is in order. */
  ghost predicate IsInOrder(p: Program, entries: seq<Entry>, b: BankState, inv: (nat, Ran) -> bool) {
    forall i: nat, r :: inv(i, r) <==> i <= |entries| && InOrder(p, entries, i, b, r)
  }

  lemma {:induction false} RunToInOrder(
    p: Program, entries: seq<Entry>, b: BankState, schedules: seq<seq<int>>, inv: (nat, Ran) -> bool)
    requires Orderly(p, entries) && AreSchedules(entries, schedules) && IsInOrder(p, entries, b, inv)
    ensures inv(|entries|, RunTo(p, entries, |entries|, b, schedules))
  {
    assert inv(0, Ran(b, None)) by {
      assert InOrder(p, entries, 0, b, Ran(b, None));
    }
    forall i: nat, r | i < |entries| ensures KeptAt(p, entries, schedules, inv, i, r) {
      assert OrderlyAt(p, entries, i) && ScheduledAt(entries, schedules, i);
      InOrderKept(p, entries, b, schedules, inv, i, r);
    }
    RunToKeeps(p, entries, |entries|, b, schedules, inv);
  }

  lemma {:induction false} InOrderKept(
    p: Program, entries: seq<Entry>, b: BankState, schedules: seq<seq<int>>, inv: (nat, Ran) -> bool, i: nat, r: Ran)
    requires i < |entries| < |schedules| && OrderlyAt(p, entries, i) && ScheduledAt(entries, schedules, i)
    requires IsInOrder(p, entries, b, inv)
    ensures KeptAt(p, entries, schedules, inv, i, r)
  {
    if inv(i, r) {
      NextInOrder(p, entries, i, b, schedules[i], r);
    }
  }

  lemma {:induction false} NextInOrder(
    p: Program, entries: seq<Entry>, i: nat, b: BankState, schedule: seq<int>, prev: Ran)
    requires i < |entries| && OrderlyAt(p, entries, i)
    requires IsSchedule(schedule, |TransactionsOf(Group(entries, i))|) && InOrder(p, entries, i, b, prev)
    ensures InOrder(p, entries, i + 1, b, Next(p, entries, i, schedule, prev))
  {
    var next := Next(p, entries, i, schedule, prev);
    if prev.error.None? {
      if next.error.None? {
        NextIsFine(p, entries, i, schedule, prev);
      }
      if Continues(entries, i) {
        Extends(entries, i);
      } else {
        GroupInOrder(p, entries, i, b, schedule, prev.bank);
        AfterInOrder(p, entries, i, b, next);
      }
    }
  }

  lemma {:induction false} AfterInOrder(p: Program, entries: seq<Entry>, i: nat, b: BankState, next: Ran)
    requires i < |entries| && Fine(entries, i) && !Continues(entries, i)
    requires next == After(entries[i], Ran(RunEntries(p, entries[..i], b), RunError(p, entries[..i], b)))
    requires next.error.None? ==> Fine(entries, i + 1)
    ensures InOrder(p, entries, i + 1, b, next)
  {
    Starts(entries, i);
    if RunError(p, entries[..i], b).Some? {
      StopsInside(p, entries, i, b);
      assert Stopped(p, entries, i, b, next.bank, next.error);
    } else if entries[i].IsTick() {
      TickRun(p, entries, i, b);
    } else if !Lockable(entries[i].transactions, {}) {
      assert Stopped(p, entries, i, b, next.bank, next.error);
    }
  }

  /** The run and ledger order agree: they have the same effect and the same error. */
  ghost predicate Agrees(p: Program, entries: seq<Entry>, b: BankState, ran: Ran) {
    exists applied: nat :: Processed(p, entries, applied, b, ran.bank, ran.error)
  }

  /** Under every schedule, entries whose groups are independent have the effect of ledger order. */
  lemma {:induction false} OrderlyIsLedgerOrder(p: Program, entries: seq<Entry>, b: BankState, schedules: seq<seq<int>>)
    requires Orderly(p, entries) && AreSchedules(entries, schedules)
    ensures Agrees(p, entries, b, Parallel(p, entries, b, schedules))
  {
    var n := |entries|;
    var last, ran := RunTo(p, entries, n, b, schedules), Parallel(p, entries, b, schedules);
    RunToInOrder(p, entries, b, schedules, (i: nat, r: Ran) => i <= n && InOrder(p, entries, i, b, r));
    assert entries[..n] == entries;
    if last.error.None? {
      assert OrderlyAt(p, entries, n) && ScheduledAt(entries, schedules, n);
      GroupInOrder(p, entries, n, b, schedules[n], last.bank);
      assert Processed(p, entries, n, b, ran.bank, ran.error);
    } else {
      var m: nat :| Stopped(p, entries, m, b, last.bank, last.error);
      assert Processed(p, entries, m, b, ran.bank, ran.error);
    }
  }

  // ---- Exactly when no program can race ----

  /** No two transactions of a group that is run use the same account. */
  ghost predicate NoGroupShares(entries: seq<Entry>) {
    forall i: nat :: i <= |entries| ==> GroupSharesNot(entries, i)
  }

  ghost predicate GroupSharesNot(entries: seq<Entry>, i: nat)
    requires i <= |entries|
  {
    Fine(entries, i) ==> NoSharing(TransactionsOf(Group(entries, i)))
  }

  lemma {:induction false} NoGroupSharesIsOrderly(p: Program, entries: seq<Entry>)
    requires NoGroupShares(entries)
    ensures Orderly(p, entries)
  {
    forall i: nat | i <= |entries| ensures OrderlyAt(p, entries, i) {
      assert GroupSharesNot(entries, i);
      if Fine(entries, i) {
        NoSharingIsIndependent(p, TransactionsOf(Group(entries, i)));
      }
    }
  }

  /** Whatever the schedules, the program has the effect of ledger order. */
  ghost predicate AlwaysAgrees(entries: seq<Entry>, p: Program, b: BankState) {
    forall schedules :: AreSchedules(entries, schedules) ==> Agrees(p, entries, b, Parallel(p, entries, b, schedules))
  }

  /** With all loads of a group before the first store, the program has the effect of ledger order. */
  ghost predicate LoadingFirstAgrees(entries: seq<Entry>, p: Program, b: BankState) {
    Agrees(p, entries, b, Parallel(p, entries, b, AllLoadFirst(entries)))
  }

  ghost function UsersTo(entries: seq<Entry>, i: nat, k: Pubkey): nat
    requires i <= |entries|
  {
    Users(TransactionsOf(entries[..i]), k)
  }

  lemma {:induction false} UsersSplit(entries: seq<Entry>, i: nat, j: nat, k: Pubkey)
    requires i <= j <= |entries|
    ensures UsersTo(entries, j, k) == UsersTo(entries, i, k) + Users(TransactionsOf(entries[i..j]), k)
  {
    assert entries[..i] + entries[i..j] == entries[..j];
    TransactionsOfConcat(entries[..i], entries[i..j]);
    UsersConcat(TransactionsOf(entries[..i]), TransactionsOf(entries[i..j]), k);
  }

  /** In ledger order every user of the account adds one to it. */
  lemma {:induction false} LedgerCredits(p: Program, entries: seq<Entry>, b: BankState, k: Pubkey)
    requires Credits(p, k)
    ensures ValueAt(RunEntries(p, entries, b).accounts, k) == ValueAt(b.accounts, k) + Users(TransactionsOf(entries), k)
    ensures RunError(p, entries, b).None?
  {
    if entries != [] {
      var front, last := entries[..|entries| - 1], entries[|entries| - 1];
      LedgerCredits(p, front, b, k);
      var mid := RunEntries(p, front, b);
      CreditsAddUp(p, last.transactions, mid.accounts, mid.ticks, k);
      UsersConcat(TransactionsOf(front), last.transactions, k);
    }
  }

  /** A group that loads before it stores adds one at most, and then only if it has a user. */
  lemma {:induction false} GroupCredits(p: Program, entries: seq<Entry>, i: nat, b: BankState, k: Pubkey)
    requires i <= |entries| && Credits(p, k)
    ensures var group := Group(entries, i);
            var r := PlayGroup(p, group, b, LoadsFirst(|TransactionsOf(group)|));
            && r.error.None? && ValueAt(r.bank.accounts, k) <= ValueAt(b.accounts, k) + 1
            && (Users(TransactionsOf(group), k) == 0 ==> ValueAt(r.bank.accounts, k) == ValueAt(b.accounts, k))
  {
    CreditsInFlight(p, TransactionsOf(Group(entries, i)), b.accounts, b.ticks, k);
  }

  /**
   The run is never ahead of ledger order. From entry `i0` on, which ends a group with two users of the account, it is
   behind, or will be when the group is run.
   */
  ghost predicate Lags(entries: seq<Entry>, i0: nat, k: Pubkey, i: nat, ran: Ran)
    requires i <= |entries|
  {
    if ran.error.None? then
      var value, start := ValueAt(ran.bank.accounts, k), GroupStart(entries, i);
      && Fine(entries, i) && value <= UsersTo(entries, start, k)
      && (i >= i0 ==> value < UsersTo(entries, start, k) || Users(TransactionsOf(Group(entries, i)), k) >= 2)
    else StoppedBehind(entries, i0, k, ran)
  }

  /** The run stopped, behind ledger order, at the first entry that conflicts with itself. */
  ghost predicate StoppedBehind(entries: seq<Entry>, i0: nat, k: Pubkey, ran: Ran) {
    && ran.error == Some(AccountInUse)
    && exists c: nat :: StoppedAt(entries, i0, k, ran, c)
  }

  ghost predicate StoppedAt(entries: seq<Entry>, i0: nat, k: Pubkey, ran: Ran, c: nat) {
    && i0 <= c < |entries| && Fine(entries, c) && !Lockable(entries[c].transactions, {})
    && ValueAt(ran.bank.accounts, k) < UsersTo(entries, c, k)
  }

  /** Running the group makes up nothing. */
  lemma {:induction false} FlushLags(p: Program, entries: seq<Entry>, i0: nat, k: Pubkey, i: nat, prev: Ran, r: Ran)
    requires i <= |entries| && Credits(p, k) && Lags(entries, i0, k, i, prev) && prev.error.None?
    requires r == PlayGroup(p, Group(entries, i), prev.bank, LoadsFirst(|TransactionsOf(Group(entries, i))|))
    ensures r.error.None? && ValueAt(r.bank.accounts, k) <= UsersTo(entries, i, k)
    ensures i >= i0 ==> ValueAt(r.bank.accounts, k) < UsersTo(entries, i, k)
  {
    GroupCredits(p, entries, i, prev.bank, k);
    UsersSplit(entries, GroupStart(entries, i), i, k);
  }

  lemma {:induction false} FirstLags(entries: seq<Entry>, i0: nat, k: Pubkey)
    requires i0 <= |entries| && Users(TransactionsOf(Group(entries, i0)), k) >= 2
    ensures Lags(entries, i0, k, 0, Ran(BankState(map[], []), None))
  {
  }

  /** `inv` is that the run lags. */
  ghost predicate IsLag(entries: seq<Entry>, i0: nat, k: Pubkey, inv: (nat, Ran) -> bool) {
    forall i: nat, r :: inv(i, r) <==> i <= |entries| && Lags(entries, i0, k, i, r)
  }

  lemma {:induction false} CreditsLag(
    p: Program, entries: seq<Entry>, i0: nat, k: Pubkey, b: BankState, schedules: seq<seq<int>>,
    inv: (nat, Ran) -> bool)
    requires Credits(p, k) && i0 <= |entries| && Fine(entries, i0) && b == BankState(map[], [])
    requires Users(TransactionsOf(Group(entries, i0)), k) >= 2 && schedules == AllLoadFirst(entries)
    requires IsLag(entries, i0, k, inv)
    ensures inv(|entries|, RunTo(p, entries, |entries|, b, schedules))
  {
    assert inv(0, Ran(b, None)) by {
      FirstLags(entries, i0, k);
    }
    forall i: nat, r | i < |entries| ensures KeptAt(p, entries, schedules, inv, i, r) {
      LagsKept(p, entries, i0, k, schedules, inv, i, r);
    }
    RunToKeeps(p, entries, |entries|, b, schedules, inv);
  }

  lemma {:induction false} LagsKept(
    p: Program, entries: seq<Entry>, i0: nat, k: Pubkey, schedules: seq<seq<int>>, inv: (nat, Ran) -> bool, i: nat,
    r: Ran)
    requires Credits(p, k) && i0 <= |entries| && Fine(entries, i0) && schedules == AllLoadFirst(entries)
    requires Users(TransactionsOf(Group(entries, i0)), k) >= 2
    requires IsLag(entries, i0, k, inv) && i < |entries|
    ensures KeptAt(p, entries, schedules, inv, i, r)
  {
    if inv(i, r) {
      NextLags(p, entries, i0, k, i, schedules[i], r);
    }
  }

  lemma {:induction false} NextLags(
    p: Program, entries: seq<Entry>, i0: nat, k: Pubkey, i: nat, schedule: seq<int>, prev: Ran)
    requires Credits(p, k) && i0 <= |entries| && i < |entries| && Fine(entries, i0)
    requires Users(TransactionsOf(Group(entries, i0)), k) >= 2
    requires schedule == LoadsFirst(|TransactionsOf(Group(entries, i))|) && Lags(entries, i0, k, i, prev)
    ensures Lags(entries, i0, k, i + 1, Next(p, entries, i, schedule, prev))
  {
    if prev.error.None? {
      if Continues(entries, i) {
        JoinLags(entries, i0, k, i, prev);
      } else {
        var r := PlayGroup(p, Group(entries, i), prev.bank, schedule);
        FlushLags(p, entries, i0, k, i, prev, r);
        AfterLags(entries, i0, k, i, r, After(entries[i], r));
      }
    }
  }

  lemma {:induction false} JoinLags(entries: seq<Entry>, i0: nat, k: Pubkey, i: nat, prev: Ran)
    requires i0 <= |entries| && i < |entries| && Continues(entries, i)
    requires Users(TransactionsOf(Group(entries, i0)), k) >= 2
    requires prev.error.None? && Lags(entries, i0, k, i, prev)
    ensures Lags(entries, i0, k, i + 1, prev)
  {
    Extends(entries, i);
    LockableByItself(entries[i].transactions, LockedOf(TransactionsOf(Group(entries, i))));
    UsersConcat(TransactionsOf(Group(entries, i)), entries[i].transactions, k);
  }

  lemma {:induction false} AfterLags(entries: seq<Entry>, i0: nat, k: Pubkey, i: nat, r: Ran, next: Ran)
    requires i0 <= |entries| && i < |entries| && Fine(entries, i0) && Fine(entries, i)
    requires Users(TransactionsOf(Group(entries, i0)), k) >= 2
    requires !Continues(entries, i) && next == After(entries[i], r)
    requires r.error.None? && ValueAt(r.bank.accounts, k) <= UsersTo(entries, i, k)
    requires i >= i0 ==> ValueAt(r.bank.accounts, k) < UsersTo(entries, i, k)
    ensures Lags(entries, i0, k, i + 1, next)
  {
    Starts(entries, i);
    if entries[i].IsTick() {
      NoLocks(entries[i]);
      UsersSplit(entries, i, i + 1, k);
    } else if !Lockable(entries[i].transactions, {}) {
      assert i0 <= i;
      assert StoppedAt(entries, i0, k, next, i);
    }
  }

  /** A run that is behind does not agree with ledger order. */
  lemma {:induction false} BehindDisagrees(p: Program, entries: seq<Entry>, i0: nat, k: Pubkey, ran: Ran)
    requires Credits(p, k)
    requires if ran.error.None? then ValueAt(ran.bank.accounts, k) < UsersTo(entries, |entries|, k)
             else StoppedBehind(entries, i0, k, ran)
    ensures !Agrees(p, entries, BankState(map[], []), ran)
  {
    var b := BankState(map[], []);
    forall applied: nat ensures !Processed(p, entries, applied, b, ran.bank, ran.error) {
      if Processed(p, entries, applied, b, ran.bank, ran.error) {
        LedgerCredits(p, entries[..applied], b, k);
        if ran.error.Some? {
          var c: nat :| StoppedAt(entries, i0, k, ran, c);
          assert c <= applied;
          UsersSplit(entries, c, applied, k);
        }
      }
    }
  }

  lemma {:induction false} SharingDisagrees(entries: seq<Entry>, i0: nat) returns (p: Program)
    requires i0 <= |entries| && !GroupSharesNot(entries, i0)
    ensures !LoadingFirstAgrees(entries, p, BankState(map[], []))
  {
    var k := SharedAccount(TransactionsOf(Group(entries, i0)));
    p := Crediting(k);
    var n, b, schedules := |entries|, BankState(map[], []), AllLoadFirst(entries);
    var last := RunTo(p, entries, n, b, schedules);
    AllLoadFirstScheduled(entries);
    CreditsLag(p, entries, i0, k, b, schedules, (i: nat, r: Ran) => i <= n && Lags(entries, i0, k, i, r));
    if last.error.None? {
      FlushLags(p, entries, i0, k, n, last, PlayGroup(p, Group(entries, n), last.bank, schedules[n]));
    }
    BehindDisagrees(p, entries, i0, k, Parallel(p, entries, b, schedules));
  }

  /**
   Every program has the effect of ledger order, under all schedules or under those in which all load first, exactly
   if no group that is run has two transactions that use the same account.
   */
  lemma {:induction false} LedgerOrderIff(entries: seq<Entry>)
    ensures (forall p, b :: AlwaysAgrees(entries, p, b)) <==> NoGroupShares(entries)
    ensures (forall p, b :: LoadingFirstAgrees(entries, p, b)) <==> NoGroupShares(entries)
  {
    AllLoadFirstScheduled(entries);
    forall p, b | AlwaysAgrees(entries, p, b) ensures LoadingFirstAgrees(entries, p, b) {
    }
    if NoGroupShares(entries) {
      forall p, b ensures AlwaysAgrees(entries, p, b) {
        NoGroupSharesIsOrderly(p, entries);
        forall schedules | AreSchedules(entries, schedules)
          ensures Agrees(p, entries, b, Parallel(p, entries, b, schedules))
        {
          OrderlyIsLedgerOrder(p, entries, b, schedules);
        }
      }
    } else {
      var i: nat :| i <= |entries| && !GroupSharesNot(entries, i);
      var p := SharingDisagrees(entries, i);
    }
  }

  /** Entries are orderly exactly if what a transaction can change is locked for all of its group that use it. */
  lemma {:induction false} OrderlyIff(p: Program, entries: seq<Entry>)
    ensures Orderly(p, entries) <==> forall i: nat :: i <= |entries| ==> LockedWhereChanged(p, entries, i)
  {
    forall i: nat | i <= |entries| ensures OrderlyAt(p, entries, i) <==> LockedWhereChanged(p, entries, i) {
      if Fine(entries, i) {
        GroupsAreGroups(entries, i);
        LocksMakeIndependent(p, TransactionsOf(Group(entries, i)));
      }
    }
  }

  ghost predicate LockedWhereChanged(p: Program, entries: seq<Entry>, i: nat)
    requires i <= |entries|
  {
    Fine(entries, i) ==> Disciplined(p, TransactionsOf(Group(entries, i)))
  }
}
