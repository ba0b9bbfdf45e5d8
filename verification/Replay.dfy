/** Replaying entries: groups of entries are locked together and run in parallel. */
module Replay {
  import opened Common
  import opened Transactions
  import opened Grouping

  ghost function KeysOf(txs: seq<Transaction>): set<Pubkey> {
    set i, k | 0 <= i < |txs| && k in Keys(txs[i]) :: k
  }

  /** The accounts locked for those transactions whose lock succeeded. */
  ghost function LockedKeys(txs: seq<Transaction>, results: seq<Option<TransactionError>>): set<Pubkey>
    requires |txs| == |results|
  {
    set i, k | 0 <= i < |txs| && results[i].None? && k in Locked(txs[i]) :: k
  }

  /** The accounts used by those transactions, locked or not. */
  ghost function UsedKeys(txs: seq<Transaction>, results: seq<Option<TransactionError>>): set<Pubkey>
    requires |txs| == |results|
  {
    set i, k | 0 <= i < |txs| && results[i].None? && k in Keys(txs[i]) :: k
  }

  /** The lock of transaction `i` is granted iff none of its accounts is held or was locked for an earlier one. */
  ghost predicate GrantedAt(
    txs: seq<Transaction>, results: seq<Option<TransactionError>>, held: set<Pubkey>, i: nat)
    requires i < |txs| && i < |results| <= |txs|
  {
    results[i].None? <==>
      forall k :: k in txs[i].accounts ==>
        k !in held && forall j :: 0 <= j < i && results[j].None? ==> k !in txs[j].accounts
  }

  lemma NextGranted(
    txs: seq<Transaction>, results: seq<Option<TransactionError>>, held: set<Pubkey>, i: nat,
    result: Option<TransactionError>)
    requires i < |txs| && |results| == i && forall j: nat :: j < i ==> GrantedAt(txs, results, held, j)
    requires result.None? <==> Locked(txs[i]) !! held + LockedKeys(txs[..i], results)
    ensures forall j: nat :: j <= i ==> GrantedAt(txs, results + [result], held, j)
  {
    var all := results + [result];
    forall j: nat | j <= i ensures GrantedAt(txs, all, held, j) {
      if j < i {
        assert GrantedAt(txs, results, held, j);
      } else {
        forall k ensures k in LockedKeys(txs[..i], results) <==>
                           exists h :: 0 <= h < i && results[h].None? && k in txs[h].accounts
        {
          LockedKeysIff(txs, results, i, k);
        }
        assert Locked(txs[i]) !! held + LockedKeys(txs[..i], results) <==>
          forall k :: k in txs[i].accounts ==> k !in held && k !in LockedKeys(txs[..i], results);
      }
    }
  }

  lemma LockedKeysIff(txs: seq<Transaction>, results: seq<Option<TransactionError>>, i: nat, k: Pubkey)
    requires i <= |txs| && |results| == i
    ensures k in LockedKeys(txs[..i], results) <==>
              exists h :: 0 <= h < i && results[h].None? && k in txs[h].accounts
  {
    if h :| 0 <= h < i && results[h].None? && k in txs[h].accounts {
      assert k in Locked(txs[..i][h]);
    }
    if k in LockedKeys(txs[..i], results) {
      var h :| 0 <= h < i && results[h].None? && k in Locked(txs[..i][h]);
      assert k in txs[h].accounts;
    }
  }

  lemma UsedKeysIff(txs: seq<Transaction>, results: seq<Option<TransactionError>>, k: Pubkey)
    requires |txs| == |results|
    ensures k in UsedKeys(txs, results) <==>
              exists h :: 0 <= h < |txs| && results[h].None? && (k in txs[h].accounts || k in txs[h].creditOnly)
  {
    if h :| 0 <= h < |txs| && results[h].None? && (k in txs[h].accounts || k in txs[h].creditOnly) {
      assert k in Keys(txs[h]);
    }
    if k in UsedKeys(txs, results) {
      var h :| 0 <= h < |txs| && results[h].None? && k in Keys(txs[h]);
      assert k in txs[h].accounts || k in txs[h].creditOnly;
    }
  }

  lemma FirstErrUpTo(
    errors: seq<Option<TransactionError>>, offset: nat, next: nat, results: seq<Option<TransactionError>>)
    requires offset <= next <= |errors| && FirstErr(results) == FirstErr(errors[..offset])
    ensures FirstErr(results + [FirstErr(errors[offset..next])]) == FirstErr(errors[..next])
  {
    var slice := errors[offset..next];
    assert errors[..next] == errors[..offset] + slice;
    FirstErrConcat(errors[..offset], slice);
    FirstErrConcat(results, [FirstErr(slice)]);
  }

  /** The first error of each entry, and the first of those. */
  method FirstErrByEntry(group: seq<Entry>, errors: seq<Option<TransactionError>>) returns (r: Option<TransactionError>)
    requires |errors| == |TransactionsOf(group)|
    ensures r == FirstErr(errors)
  {
    var results := [];
    var offset := 0;
    for j := 0 to |group|
      invariant offset == |TransactionsOf(group[..j])| <= |errors|
      invariant FirstErr(results) == FirstErr(errors[..offset])
    {
      var next := offset + |group[j].transactions|;
      TransactionsOfPrefix(group, j);
      FirstErrUpTo(errors, offset, next, results);
      results := results + [FirstErr(errors[offset..next])];
      offset := next;
    }
    r := FirstErr(results);
    assert group[..|group|] == group && errors[..offset] == errors;
  }

  class Bank {
    const program: Program
    var accounts: Accounts
    var ticks: seq<Hash>
    var locks: set<Pubkey>

    constructor (program: Program, state: BankState)
      ensures this.program == program && State() == state && locks == {}
    {
      this.program := program;
      accounts, ticks, locks := state.accounts, state.ticks, {};
    }

    ghost function State(): BankState
      reads this
    {
      BankState(accounts, ticks)
    }

    /** Locks the accounts of each transaction, but not its credit-only ones, in turn, unless one is already locked. */
    method LockAccounts(txs: seq<Transaction>) returns (results: seq<Option<TransactionError>>)
      modifies `locks
      ensures |results| == |txs|
      ensures locks == old(locks) + LockedKeys(txs, results) && old(locks) !! LockedKeys(txs, results)
      ensures AllOk(results) <==> Lockable(txs, old(locks))
      ensures forall i :: 0 <= i < |txs| ==> results[i] == None || results[i] == Some(AccountInUse)
      ensures forall k :: k in locks <==>
                k in old(locks) || exists i :: 0 <= i < |txs| && results[i].None? && k in txs[i].accounts
      ensures forall i: nat :: i < |txs| ==> GrantedAt(txs, results, old(locks), i)
    {
      results := [];
      for i := 0 to |txs|
        invariant |results| == i
        invariant locks == old(locks) + LockedKeys(txs[..i], results) && old(locks) !! LockedKeys(txs[..i], results)
        invariant AllOk(results) <==> Lockable(txs[..i], old(locks))
        invariant forall j :: 0 <= j < i ==> results[j] == None || results[j] == Some(AccountInUse)
        invariant forall j: nat :: j < i ==> GrantedAt(txs, results, old(locks), j)
      {
        var result := LockAccount(txs[i].accounts);
        assert forall k :: k in txs[i].accounts <==> k in Locked(txs[i]);
        LockOne(txs, i, results, result, old(locks));
        NextGranted(txs, results, old(locks), i, result);
        results := results + [result];
      }
      assert txs[..|txs|] == txs;
      forall k ensures k in LockedKeys(txs, results) <==>
                         exists i :: 0 <= i < |txs| && results[i].None? && k in txs[i].accounts
      {
        LockedKeysIff(txs, results, |txs|, k);
      }
    }

    method LockAccount(keys: seq<Pubkey>) returns (result: Option<TransactionError>)
      modifies `locks
      ensures result == if (forall k :: k in keys ==> k !in old(locks)) then None else Some(AccountInUse)
      ensures locks == if result.None? then old(locks) + (set k | k in keys) else old(locks)
    {
      for i := 0 to |keys|
        invariant locks == old(locks) && forall j :: 0 <= j < i ==> keys[j] !in locks
      {
        if keys[i] in locks {
          return Some(AccountInUse);
        }
      }
      for i := 0 to |keys|
        invariant locks == old(locks) + set k | k in keys[..i]
      {
        locks := locks + {keys[i]};
      }
      assert keys[..|keys|] == keys;
      result := None;
    }

    /**
     Releases the accounts of those transactions whose lock succeeded: all accounts that such a transaction uses, even
     the credit-only ones, which may be locked for another transaction.
     */
    method UnlockAccounts(txs: seq<Transaction>, results: seq<Option<TransactionError>>)
      requires |txs| == |results|
      requires forall i :: 0 <= i < |txs| ==> results[i] == None || results[i] == Some(AccountInUse)
      modifies `locks
      ensures locks == old(locks) - UsedKeys(txs, results)
      ensures forall k :: k in locks <==>
                && k in old(locks)
                && !exists i :: 0 <= i < |txs| && results[i].None? && (k in txs[i].accounts || k in txs[i].creditOnly)
    {
      for i := 0 to |txs|
        invariant locks == old(locks) - UsedKeys(txs[..i], results[..i])
      {
        UsedSnoc(txs, results, i);
        if results[i] != Some(AccountInUse) {
          locks := locks - Keys(txs[i]);
        }
      }
      assert txs[..|txs|] == txs && results[..|txs|] == results;
      forall k ensures k in UsedKeys(txs, results) <==>
        exists i :: 0 <= i < |txs| && results[i].None? && (k in txs[i].accounts || k in txs[i].creditOnly)
      {
        UsedKeysIff(txs, results, k);
      }
    }

    /**
     Runs transactions in parallel: every transaction loads its accounts in one step and stores them in a later one,
     and the steps of all of them interleave in any way. For independent ones this is running them in ledger order.
     */
    method ExecuteInterleaved(txs: seq<Transaction>)
      returns (errors: seq<Option<TransactionError>>, ghost schedule: seq<int>)
      modifies `accounts
      ensures IsSchedule(schedule, |txs|)
      ensures var f := Play(program, txs, old(accounts), ticks, schedule);
              accounts == f.accounts && errors == Errors(f, |txs|)
      ensures Independent(program, txs) ==>
                && accounts == RunTxs(program, txs, old(accounts), ticks)
                && errors == ErrorsAlone(program, txs, old(accounts), ticks)
    {
      var outcomes;
      outcomes, schedule := TakeSteps(txs);
      errors := seq(|txs|, i requires i in outcomes => outcomes[i].error);
      IndependentErrors(program, txs, old(accounts), ticks, schedule, Flight(map[], outcomes, accounts));
    }

    /** The steps of all transactions, in any order. */
    method TakeSteps(txs: seq<Transaction>) returns (outcomes: map<int, Outcome>, ghost schedule: seq<int>)
      modifies `accounts
      ensures IsSchedule(schedule, |txs|) && outcomes.Keys == Upto(|txs|)
      ensures Play(program, txs, old(accounts), ticks, schedule) == Flight(map[], outcomes, accounts)
    {
      var toLoad := Upto(|txs|);
      var loaded: map<int, Accounts> := map[];
      outcomes, schedule := map[], [];
      while toLoad + loaded.Keys != {}
        invariant Placed(|txs|, schedule, toLoad, Flight(loaded, outcomes, accounts))
        invariant Play(program, txs, old(accounts), ticks, schedule) == Flight(loaded, outcomes, accounts)
        decreases toLoad, loaded.Keys
      {
        var i :| i in toLoad + loaded.Keys;
        ghost var before, f := toLoad, Flight(loaded, outcomes, accounts);
        assert PlacedAt(|txs|, schedule, toLoad, f, i);
        PlaySnoc(program, txs, old(accounts), ticks, schedule, i);
        if i in toLoad {
          toLoad, loaded := toLoad - {i}, loaded[i := Restrict(accounts, Keys(txs[i]))];
          LoadMoves(|txs|, schedule, before, f, i, toLoad, Flight(loaded, outcomes, accounts));
        } else {
          var outcome := program(txs[i], loaded[i], ticks);
          accounts := Commit(accounts, txs[i], outcome);
          loaded, outcomes := loaded - {i}, outcomes[i := outcome];
          StoreMoves(|txs|, schedule, toLoad, f, i, Flight(loaded, outcomes, accounts));
        }
        schedule := schedule + [i];
      }
      assert loaded.Keys == {};
      AllPlaced(|txs|, schedule, toLoad, Flight(loaded, outcomes, accounts));
    }

    /** Runs a group of entries in parallel and reports the first error in ledger order. */
    method ParExecuteEntries(group: seq<Entry>) returns (r: Option<TransactionError>, ghost schedule: seq<int>)
      modifies `accounts
      ensures IsSchedule(schedule, |TransactionsOf(group)|)
      ensures PlayGroup(program, group, old(State()), schedule) == Ran(State(), r)
      ensures Independent(program, TransactionsOf(group)) ==>
                && accounts == RunTxs(program, TransactionsOf(group), old(accounts), ticks)
                && r == TxsError(program, TransactionsOf(group), old(accounts), ticks)
    {
      var txs := TransactionsOf(group);
      var errors;
      errors, schedule := ExecuteInterleaved(txs);
      r := FirstErrByEntry(group, errors);
      if Independent(program, txs) {
        IndependentPlay(program, txs, old(accounts), ticks, schedule);
      }
    }

    /** Runs a group and releases its locks, whether or not there was an error. */
    method FlushGroup(group: seq<Entry>) returns (r: Option<TransactionError>, ghost schedule: seq<int>)
      modifies `accounts, `locks
      ensures locks == old(locks) - KeysOf(TransactionsOf(group)) && ticks == old(ticks)
      ensures IsSchedule(schedule, |TransactionsOf(group)|)
      ensures PlayGroup(program, group, old(State()), schedule) == Ran(State(), r)
    {
      r, schedule := ParExecuteEntries(group);
      DropGroup(group);
    }

    /** Releases the locks of a group, all of which were granted. */
    method DropGroup(group: seq<Entry>)
      modifies `locks
      ensures locks == old(locks) - KeysOf(TransactionsOf(group))
    {
      for i := 0 to |group|
        invariant locks == old(locks) - KeysOf(TransactionsOf(group[..i]))
      {
        TransactionsOfPrefix(group, i);
        KeysOfConcat(TransactionsOf(group[..i]), group[i].transactions);
        var granted: seq<Option<TransactionError>> := seq(|group[i].transactions|, _ => None);
        GrantedUses(group[i].transactions, granted);
        UnlockAccounts(group[i].transactions, granted);
      }
      assert group[..|group|] == group;
    }

    /**
     Processes entries in order: locks entry after entry into a group, and runs the group when a tick or an entry that
     conflicts with the group comes up. Whatever the entries are, no lock is left and the groups are run one after the
     other, each under some schedule. If no transaction of a group can change what another one of the group uses, this
     is running one transaction at a time.
     */
    method ProcessEntries(entries: seq<Entry>) returns (r: Option<TransactionError>, ghost schedules: seq<seq<int>>)
      requires locks == {}
      modifies `accounts, `ticks, `locks
      ensures locks == {} && AreSchedules(entries, schedules)
      ensures Parallel(program, entries, old(State()), schedules) == Ran(State(), r)
      ensures r.None? ==> NoSelfConflict(entries) && ticks == RunEntries(program, entries, old(State())).ticks
      ensures Orderly(program, entries) ==> Agrees(program, entries, old(State()), Ran(State(), r))
    {
      var group := [];
      ghost var pre := State();
      schedules := AllLoadFirst(entries);
      AllLoadFirstScheduled(entries);
      EmptyGroup();
      for i := 0 to |entries|
        invariant Processing(entries, pre, schedules, i, group)
      {
        if entries[i].IsTick() {
          r, schedules := ProcessTick(entries, pre, schedules, i, group);
          group := [];
        } else {
          r, group, schedules := EnterGroup(entries, pre, schedules, i, group);
        }
        if r.Some? {
          EndsHalted(entries, pre, schedules, i, r);
          return;
        }
      }
      ghost var last := State();
      r, schedules := RunPending(entries, pre, schedules, |entries|, group);
      GroupLocks(group);
      EndsFlushed(entries, pre, schedules, last, r);
    }

    lemma {:induction false} EndsHalted(
      entries: seq<Entry>, pre: BankState, schedules: seq<seq<int>>, i: nat, r: Option<TransactionError>)
      requires r.Some? && Halted(entries, pre, schedules, i, r)
      ensures Ended(program, entries, pre, schedules, State(), r)
    {
      ErrorStays(program, entries, i + 1, |entries|, pre, schedules);
      Ends(program, entries, pre, schedules);
    }

    lemma {:induction false} EndsFlushed(
      entries: seq<Entry>, pre: BankState, schedules: seq<seq<int>>, last: BankState, r: Option<TransactionError>)
      requires Flushed(entries, pre, schedules, |entries|, last, r)
      ensures Ended(program, entries, pre, schedules, State(), r)
    {
      Ends(program, entries, pre, schedules);
    }

    /** Locks an entry into the group, running the group first if the entry conflicts with it. */
    method EnterGroup(
      entries: seq<Entry>, ghost pre: BankState, ghost schedules: seq<seq<int>>, i: nat, group: seq<Entry>)
      returns (r: Option<TransactionError>, next: seq<Entry>, ghost schedules': seq<seq<int>>)
      requires Processing(entries, pre, schedules, i, group) && i < |entries| && !entries[i].IsTick()
      modifies `accounts, `locks
      ensures r.None? ==> Processing(entries, pre, schedules', i + 1, next)
      ensures r.Some? ==> Halted(entries, pre, schedules', i, r)
    {
      var results := LockAccounts(entries[i].transactions);
      NoFirstErr(results);
      if FirstErr(results).None? {
        GrantedLocks(entries[i].transactions, results);
        Joined(entries, pre, schedules, i, group);
        r, next, schedules' := None, group + [entries[i]], schedules;
      } else {
        r, next, schedules' := ResolveConflict(entries, pre, schedules, i, group, results);
      }
    }

    /** With the locks of the entry added, the group is one entry longer. */
    lemma {:induction false} Joined(
      entries: seq<Entry>, pre: BankState, schedules: seq<seq<int>>, i: nat, group: seq<Entry>)
      requires i < |entries| && !entries[i].IsTick() && Joins(entries, i) && Ahead(entries, pre, schedules, i, group)
      requires locks == LockedOf(TransactionsOf(group)) + LockedOf(entries[i].transactions)
      ensures Processing(entries, pre, schedules, i + 1, group + [entries[i]])
    {
      JoinsGroup(entries, i, group);
    }

    /** Without a group to run there is nothing to flush. */
    lemma {:induction false} NothingToFlush(entries: seq<Entry>, pre: BankState, schedules: seq<seq<int>>, i: nat)
      requires Ahead(entries, pre, schedules, i, [])
      ensures Flushed(entries, pre, schedules, i, State(), None)
    {
      EmptyGroup();
      assert ScheduledAt(entries, schedules, i);
      EmptyPlay(program, State(), schedules[i]);
    }

    /** An entry that could not be locked conflicts with itself, or with the group, which is then run first. */
    method ResolveConflict(
      entries: seq<Entry>, ghost pre: BankState, ghost schedules: seq<seq<int>>, i: nat, group: seq<Entry>,
      results: seq<Option<TransactionError>>)
      returns (r: Option<TransactionError>, next: seq<Entry>, ghost schedules': seq<seq<int>>)
      requires i < |entries| && !entries[i].IsTick() && !Joins(entries, i) && Ahead(entries, pre, schedules, i, group)
      requires |results| == |entries[i].transactions| && FirstErr(results).Some?
      requires forall j :: 0 <= j < |results| ==> results[j] == None || results[j] == Some(AccountInUse)
      requires locks == LockedOf(TransactionsOf(group)) + LockedKeys(entries[i].transactions, results)
      modifies `accounts, `locks
      ensures r.None? ==> Processing(entries, pre, schedules', i + 1, next)
      ensures r.Some? ==> Halted(entries, pre, schedules', i, r)
    {
      next, schedules' := [], schedules;
      if group == [] {
        EmptyGroup();
        NothingToFlush(entries, pre, schedules, i);
        assert locks == LockedKeys(entries[i].transactions, results);
        r := Reject(entries, pre, schedules, i, results, State());
      } else {
        r, schedules' := RunAndRelease(entries, pre, schedules, i, group, results);
        if r.None? {
          r, next := EnterEmptyGroup(entries, pre, schedules', i, old(State()));
        }
      }
    }

    /** Takes back what was locked for an entry that conflicts with itself, and reports the error. */
    method Reject(
      entries: seq<Entry>, ghost pre: BankState, ghost schedules: seq<seq<int>>, i: nat,
      results: seq<Option<TransactionError>>, ghost before: BankState)
      returns (r: Option<TransactionError>)
      requires i < |entries| && !entries[i].IsTick() && !Joins(entries, i) && !Lockable(entries[i].transactions, {})
      requires |results| == |entries[i].transactions| && FirstErr(results).Some?
      requires forall j :: 0 <= j < |results| ==> results[j] == None || results[j] == Some(AccountInUse)
      requires locks == LockedKeys(entries[i].transactions, results)
      requires Flushed(entries, pre, schedules, i, before, None)
      modifies `locks
      ensures r.Some? && Halted(entries, pre, schedules, i, r)
    {
      r := FirstErr(results);
      OnlyInUse(results);
      UsedCoverLocked(entries[i].transactions, results);
      UnlockAccounts(entries[i].transactions, results);
    }

    /** Runs the group that an entry conflicts with, and takes back what was locked for the entry. */
    method RunAndRelease(
      entries: seq<Entry>, ghost pre: BankState, ghost schedules: seq<seq<int>>, i: nat, group: seq<Entry>,
      results: seq<Option<TransactionError>>)
      returns (r: Option<TransactionError>, ghost schedules': seq<seq<int>>)
      requires i < |entries| && !entries[i].IsTick() && !Joins(entries, i) && Ahead(entries, pre, schedules, i, group)
      requires |results| == |entries[i].transactions|
      requires forall j :: 0 <= j < |results| ==> results[j] == None || results[j] == Some(AccountInUse)
      requires locks == LockedOf(TransactionsOf(group)) + LockedKeys(entries[i].transactions, results)
      modifies `accounts, `locks
      ensures locks == {} && ticks == old(ticks) && Flushed(entries, pre, schedules', i, old(State()), r)
    {
      r, schedules' := RunPending(entries, pre, schedules, i, group);
      GroupLocks(group);
      UsedCoverLocked(entries[i].transactions, results);
      UnlockAccounts(entries[i].transactions, results);
    }

    /** Locks an entry when nothing else is locked, which fails only if the entry conflicts with itself. */
    method EnterEmptyGroup(
      entries: seq<Entry>, ghost pre: BankState, ghost schedules: seq<seq<int>>, i: nat, ghost before: BankState)
      returns (r: Option<TransactionError>, next: seq<Entry>)
      requires i < |entries| && !entries[i].IsTick() && !Joins(entries, i) && locks == {}
      requires Flushed(entries, pre, schedules, i, before, None)
      modifies `locks
      ensures r.None? ==> Processing(entries, pre, schedules, i + 1, next)
      ensures r.Some? ==> Halted(entries, pre, schedules, i, r)
    {
      var results := LockAccounts(entries[i].transactions);
      NoFirstErr(results);
      r, next := None, [entries[i]];
      if FirstErr(results).None? {
        GrantedLocks(entries[i].transactions, results);
        FirstOfGroup(entries, i);
      } else {
        r := Reject(entries, pre, schedules, i, results, before);
      }
    }

    /** Runs the group and registers the tick after it. */
    method ProcessTick(
      entries: seq<Entry>, ghost pre: BankState, ghost schedules: seq<seq<int>>, i: nat, group: seq<Entry>)
      returns (r: Option<TransactionError>, ghost schedules': seq<seq<int>>)
      requires Processing(entries, pre, schedules, i, group) && i < |entries| && entries[i].IsTick()
      modifies `accounts, `ticks, `locks
      ensures r.None? ==> Processing(entries, pre, schedules', i + 1, [])
      ensures r.Some? ==> Halted(entries, pre, schedules', i, r)
    {
      r, schedules' := RunPending(entries, pre, schedules, i, group);
      GroupLocks(group);
      if r.None? {
        ticks := ticks + [entries[i].hash];
        EmptyGroup();
      }
    }

    /** The entries before `i` are taken up, and their last group, which is still to run, is `group`. */
    ghost predicate Ahead(
      entries: seq<Entry>, pre: BankState, schedules: seq<seq<int>>, i: nat, group: seq<Entry>)
      reads this
    {
      && i <= |entries| && group == Group(entries, i) && AreSchedules(entries, schedules)
      && RunTo(program, entries, i, pre, schedules) == Ran(State(), None)
    }

    /** Besides, the group is locked. */
    ghost predicate Processing(
      entries: seq<Entry>, pre: BankState, schedules: seq<seq<int>>, i: nat, group: seq<Entry>)
      reads this
    {
      Ahead(entries, pre, schedules, i, group) && locks == LockedOf(TransactionsOf(group))
    }

    /** The group before entry `i` has run. */
    ghost predicate Flushed(
      entries: seq<Entry>, pre: BankState, schedules: seq<seq<int>>, i: nat, before: BankState,
      r: Option<TransactionError>)
      reads this
    {
      && i <= |entries| && AreSchedules(entries, schedules)
      && RunTo(program, entries, i, pre, schedules) == Ran(before, None)
      && PlayGroup(program, Group(entries, i), before, schedules[i]) == Ran(State(), r)
    }

    /** The run ended with an error when it came to entry `i`. */
    ghost predicate Halted(
      entries: seq<Entry>, pre: BankState, schedules: seq<seq<int>>, i: nat, r: Option<TransactionError>)
      reads this
    {
      && i < |entries| && locks == {} && AreSchedules(entries, schedules)
      && RunTo(program, entries, i + 1, pre, schedules) == Ran(State(), r)
    }

    /** Runs the group, so that everything up to `i` has taken effect. */
    method RunPending(
      entries: seq<Entry>, ghost pre: BankState, ghost schedules: seq<seq<int>>, ghost i: nat, group: seq<Entry>)
      returns (r: Option<TransactionError>, ghost schedules': seq<seq<int>>)
      requires Ahead(entries, pre, schedules, i, group)
      modifies `accounts, `locks
      ensures locks == old(locks) - KeysOf(TransactionsOf(group)) && ticks == old(ticks)
      ensures Flushed(entries, pre, schedules', i, old(State()), r)
    {
      ghost var schedule;
      r, schedule := FlushGroup(group);
      schedules' := schedules[i := schedule];
      OneSchedule(entries, schedules, i, schedule, schedules');
      RunToFrame(program, entries, i, pre, schedules, i, schedule);
    }
  }

  lemma {:induction false} OneSchedule(
    entries: seq<Entry>, schedules: seq<seq<int>>, i: nat, schedule: seq<int>, schedules': seq<seq<int>>)
    requires i <= |entries| && AreSchedules(entries, schedules) && schedules' == schedules[i := schedule]
    requires IsSchedule(schedule, |TransactionsOf(Group(entries, i))|)
    ensures AreSchedules(entries, schedules')
  {
    forall j: nat | j <= |entries| ensures ScheduledAt(entries, schedules', j) {
      assert ScheduledAt(entries, schedules, j);
    }
  }

  /** An entry that can be locked together with the group is part of it. */
  lemma {:induction false} JoinsGroup(entries: seq<Entry>, i: nat, group: seq<Entry>)
    requires i < |entries| && group == Group(entries, i) && !entries[i].IsTick() && Joins(entries, i)
    ensures Group(entries, i + 1) == group + [entries[i]]
    ensures LockedOf(TransactionsOf(group + [entries[i]]))
            == LockedOf(TransactionsOf(group)) + LockedOf(entries[i].transactions)
  {
    Extends(entries, i);
    LockedOfConcat(TransactionsOf(group), entries[i].transactions);
  }

  /** An entry that cannot is the first of the next group. */
  lemma {:induction false} FirstOfGroup(entries: seq<Entry>, i: nat)
    requires i < |entries| && !entries[i].IsTick() && !Joins(entries, i)
    ensures Group(entries, i + 1) == [entries[i]] && TransactionsOf([entries[i]]) == entries[i].transactions
  {
    Starts(entries, i);
    TransactionsOfSnoc([], entries[i]);
    assert [] + [entries[i]] == [entries[i]];
  }

  /** What is known of a run when it ends. */
  ghost predicate Ended(
    p: Program, entries: seq<Entry>, pre: BankState, schedules: seq<seq<int>>, post: BankState,
    r: Option<TransactionError>)
  {
    && AreSchedules(entries, schedules) && Parallel(p, entries, pre, schedules) == Ran(post, r)
    && (r.None? ==> NoSelfConflict(entries) && post.ticks == RunEntries(p, entries, pre).ticks)
    && (Orderly(p, entries) ==> Agrees(p, entries, pre, Ran(post, r)))
  }

  lemma {:induction false} Ends(p: Program, entries: seq<Entry>, pre: BankState, schedules: seq<seq<int>>)
    requires AreSchedules(entries, schedules)
    ensures var ran := Parallel(p, entries, pre, schedules);
            Ended(p, entries, pre, schedules, ran.bank, ran.error)
  {
    if Parallel(p, entries, pre, schedules).error.None? {
      NoErrorIsFine(p, entries, |entries|, pre, schedules);
      ParallelTicks(p, entries, pre, schedules);
    }
    if Orderly(p, entries) {
      OrderlyIsLedgerOrder(p, entries, pre, schedules);
    }
  }

  /** What the locks of a group, all released, leave. */
  lemma GroupLocks(group: seq<Entry>)
    ensures LockedOf(TransactionsOf(group)) <= KeysOf(TransactionsOf(group))
  {
    var txs := TransactionsOf(group);
    forall k | k in LockedOf(txs) ensures k in KeysOf(txs) {
      var i :| 0 <= i < |txs| && k in Locked(txs[i]);
      assert k in Keys(txs[i]);
    }
  }

  lemma UsedCoverLocked(txs: seq<Transaction>, results: seq<Option<TransactionError>>)
    requires |txs| == |results|
    ensures LockedKeys(txs, results) <= UsedKeys(txs, results)
  {
    forall k | k in LockedKeys(txs, results) ensures k in UsedKeys(txs, results) {
      var i :| 0 <= i < |txs| && results[i].None? && k in Locked(txs[i]);
      assert k in Keys(txs[i]);
    }
  }

  lemma {:induction false} OnlyInUse(results: seq<Option<TransactionError>>)
    requires forall i :: 0 <= i < |results| ==> results[i] == None || results[i] == Some(AccountInUse)
    ensures FirstErr(results) == None || FirstErr(results) == Some(AccountInUse)
  {
    if results != [] {
      OnlyInUse(results[..|results| - 1]);
    }
  }

  lemma KeysOfConcat(a: seq<Transaction>, b: seq<Transaction>)
    ensures KeysOf(a + b) == KeysOf(a) + KeysOf(b)
  {
    forall k | k in KeysOf(b) ensures k in KeysOf(a + b) {
      var i :| 0 <= i < |b| && k in Keys(b[i]);
      assert (a + b)[|a| + i] == b[i];
    }
    forall k | k in KeysOf(a) ensures k in KeysOf(a + b) {
      var i :| 0 <= i < |a| && k in Keys(a[i]);
      assert (a + b)[i] == a[i];
    }
  }

  lemma GrantedLocks(txs: seq<Transaction>, results: seq<Option<TransactionError>>)
    requires |txs| == |results| && AllOk(results)
    ensures LockedKeys(txs, results) == LockedOf(txs)
  {
  }

  lemma GrantedUses(txs: seq<Transaction>, results: seq<Option<TransactionError>>)
    requires |txs| == |results| && AllOk(results)
    ensures UsedKeys(txs, results) == KeysOf(txs)
  {
  }

  /** The errors of the transactions, each of them run by itself. */
  ghost function ErrorsAlone(
    p: Program, txs: seq<Transaction>, init: Accounts, ticks: seq<Hash>): seq<Option<TransactionError>>
  {
    seq(|txs|, i requires 0 <= i < |txs| => Execute(p, txs[i], init, ticks).error)
  }

  lemma IndependentErrors(
    p: Program, txs: seq<Transaction>, init: Accounts, ticks: seq<Hash>, schedule: seq<int>, f: Flight)
    requires IsSchedule(schedule, |txs|) && f == Play(p, txs, init, ticks, schedule)
    ensures Independent(p, txs) ==>
              f.accounts == RunTxs(p, txs, init, ticks) && Errors(f, |txs|) == ErrorsAlone(p, txs, init, ticks)
  {
    if Independent(p, txs) {
      IndependentPlay(p, txs, init, ticks, schedule);
      PlayInFlight(p, txs, init, ticks, schedule);
      AllStored(p, txs, init, ticks, schedule);
    }
  }

  /** Each of `n` transactions is still to load, has loaded or has stored, as its steps in the schedule say. */
  ghost predicate Placed(n: nat, schedule: seq<int>, toLoad: set<int>, f: Flight) {
    forall i :: PlacedAt(n, schedule, toLoad, f, i)
  }

  ghost predicate PlacedAt(n: nat, schedule: seq<int>, toLoad: set<int>, f: Flight, i: int) {
    && (i in toLoad || i in f.loaded || i in f.outcomes <==> 0 <= i < n)
    && !(i in toLoad && i in f.loaded) && !(i in toLoad && i in f.outcomes) && !(i in f.loaded && i in f.outcomes)
    && multiset(schedule)[i] == if i in f.loaded then 1 else if i in f.outcomes then 2 else 0
  }

  lemma LoadMoves(
    n: nat, schedule: seq<int>, toLoad: set<int>, f: Flight, i: int, toLoad': set<int>, f': Flight)
    requires Placed(n, schedule, toLoad, f) && i in toLoad && toLoad' == toLoad - {i}
    requires f'.loaded.Keys == f.loaded.Keys + {i} && f'.outcomes.Keys == f.outcomes.Keys
    ensures Placed(n, schedule + [i], toLoad', f')
  {
    assert multiset(schedule + [i]) == multiset(schedule) + multiset{i};
    forall j ensures PlacedAt(n, schedule + [i], toLoad', f', j) {
      assert PlacedAt(n, schedule, toLoad, f, j);
    }
  }

  lemma StoreMoves(n: nat, schedule: seq<int>, toLoad: set<int>, f: Flight, i: int, f': Flight)
    requires Placed(n, schedule, toLoad, f) && i in f.loaded
    requires f'.loaded.Keys == f.loaded.Keys - {i} && f'.outcomes.Keys == f.outcomes.Keys + {i}
    ensures Placed(n, schedule + [i], toLoad, f')
  {
    assert multiset(schedule + [i]) == multiset(schedule) + multiset{i};
    forall j ensures PlacedAt(n, schedule + [i], toLoad, f', j) {
      assert PlacedAt(n, schedule, toLoad, f, j);
    }
  }

  lemma AllPlaced(n: nat, schedule: seq<int>, toLoad: set<int>, f: Flight)
    requires Placed(n, schedule, toLoad, f) && toLoad + f.loaded.Keys == {}
    ensures f.outcomes.Keys == Upto(n) && IsSchedule(schedule, n)
  {
    forall i ensures (i in f.outcomes.Keys <==> i in Upto(n)) && multiset(schedule)[i] == if 0 <= i < n then 2 else 0 {
      assert PlacedAt(n, schedule, toLoad, f, i);
      assert i !in toLoad + f.loaded.Keys;
    }
  }

  lemma UsedSnoc(txs: seq<Transaction>, results: seq<Option<TransactionError>>, i: nat)
    requires i < |txs| == |results|
    ensures UsedKeys(txs[..i + 1], results[..i + 1])
            == UsedKeys(txs[..i], results[..i]) + if results[i].None? then Keys(txs[i]) else {}
  {
    var a, b := UsedKeys(txs[..i + 1], results[..i + 1]), UsedKeys(txs[..i], results[..i]);
    forall k | k in Keys(txs[i]) && results[i].None? ensures k in a {
      assert txs[..i + 1][i] == txs[i] && results[..i + 1][i] == results[i];
    }
  }

  lemma AllOkSnoc(results: seq<Option<TransactionError>>, result: Option<TransactionError>)
    ensures AllOk(results + [result]) <==> AllOk(results) && result.None?
  {
    var all := results + [result];
    if AllOk(all) {
      assert all[|results|].None?;
      forall j | 0 <= j < |results| ensures results[j].None? {
        assert all[j].None?;
      }
    }
  }

  lemma LockOne(
    txs: seq<Transaction>, i: nat, results: seq<Option<TransactionError>>, result: Option<TransactionError>,
    held: set<Pubkey>)
    requires i < |txs| && |results| == i
    requires AllOk(results) <==> Lockable(txs[..i], held)
    requires held !! LockedKeys(txs[..i], results)
    requires result.None? <==> Locked(txs[i]) !! held + LockedKeys(txs[..i], results)
    ensures LockedKeys(txs[..i + 1], results + [result])
            == LockedKeys(txs[..i], results) + if result.None? then Locked(txs[i]) else {}
    ensures AllOk(results + [result]) <==> Lockable(txs[..i + 1], held)
  {
    var front, all, locked := txs[..i], txs[..i + 1], LockedKeys(txs[..i], results);
    assert all == front + [txs[i]];
    if AllOk(results + [result]) {
      AllOkSnoc(results, result);
      assert forall j :: 0 <= j < i ==> Locked(front[j]) <= locked;
      forall j ensures FreeAt(all, held, j) {
        assert FreeAt(front, held, j);
      }
      forall j, k ensures DisjointAt(all, j, k) {
        assert DisjointAt(front, j, k);
      }
    }
    if Lockable(all, held) {
      forall j ensures FreeAt(front, held, j) {
        assert FreeAt(all, held, j);
      }
      forall j, k ensures DisjointAt(front, j, k) {
        assert DisjointAt(all, j, k);
      }
      assert FreeAt(all, held, i);
      forall k | k in locked ensures k !in Locked(txs[i]) {
        var j :| 0 <= j < i && k in Locked(front[j]);
        assert DisjointAt(all, j, i);
      }
      AllOkSnoc(results, result);
    }
  }
}
