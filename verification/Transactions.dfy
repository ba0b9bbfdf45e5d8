/** Transactions that load and store accounts: one at a time, or in parallel with their steps interleaved in any way. */
module Transactions {
  import opened Common

  type Account = nat
  type Accounts = map<Pubkey, Account>

  datatype TransactionError = AccountInUse | Failed(code: nat)

  /** What executing a transaction yields: account values to store and an error, if there was one. */
  datatype Outcome = Outcome(writes: Accounts, error: Option<TransactionError>)

  /** Executes a transaction on the accounts it loaded and the ticks registered so far. */
  type Program = (Transaction, Accounts, seq<Hash>) -> Outcome

  // ---- One transaction at a time ----

  /** The accounts that are locked for a transaction. */
  function Locked(tx: Transaction): set<Pubkey> {
    set k | k in tx.accounts
  }

  /** The accounts that a transaction loads and stores. */
  function Keys(tx: Transaction): set<Pubkey> {
    Locked(tx) + set k | k in tx.creditOnly
  }

  function Restrict(m: Accounts, keys: set<Pubkey>): Accounts {
    map k | k in m && k in keys :: m[k]
  }

  /** Loads the accounts of the transaction, and no others, and executes it. */
  function Execute(p: Program, tx: Transaction, accounts: Accounts, ticks: seq<Hash>): Outcome {
    p(tx, Restrict(accounts, Keys(tx)), ticks)
  }

  /** Stores the accounts of the transaction, and no others. */
  function Commit(accounts: Accounts, tx: Transaction, o: Outcome): Accounts {
    accounts + Restrict(o.writes, Keys(tx))
  }

  datatype BankState = BankState(accounts: Accounts, ticks: seq<Hash>)

  /** The accounts after running the transactions one after the other. */
  ghost function RunTxs(p: Program, txs: seq<Transaction>, accounts: Accounts, ticks: seq<Hash>): Accounts {
    if txs == [] then accounts
    else
      var before := RunTxs(p, txs[..|txs| - 1], accounts, ticks);
      Commit(before, txs[|txs| - 1], Execute(p, txs[|txs| - 1], before, ticks))
  }

  /** The first error met when running the transactions one after the other. */
  ghost function TxsError(
    p: Program, txs: seq<Transaction>, accounts: Accounts, ticks: seq<Hash>): Option<TransactionError>
  {
    if txs == [] then None
    else
      var front, last := txs[..|txs| - 1], txs[|txs| - 1];
      var e := TxsError(p, front, accounts, ticks);
      if e.Some? then e else Execute(p, last, RunTxs(p, front, accounts, ticks), ticks).error
  }

  lemma {:induction false} RunTxsConcat(
    p: Program, a: seq<Transaction>, b: seq<Transaction>, accounts: Accounts, ticks: seq<Hash>)
    ensures RunTxs(p, a + b, accounts, ticks) == RunTxs(p, b, RunTxs(p, a, accounts, ticks), ticks)
    ensures TxsError(p, a + b, accounts, ticks) ==
              var e := TxsError(p, a, accounts, ticks);
              if e.Some? then e else TxsError(p, b, RunTxs(p, a, accounts, ticks), ticks)
  {
    if b == [] {
      assert a + b == a;
    } else {
      var front, last := b[..|b| - 1], b[|b| - 1];
      RunTxsConcat(p, a, front, accounts, ticks);
      RunTxsSnoc(p, a + front, last, accounts, ticks);
      RunTxsSnoc(p, front, last, RunTxs(p, a, accounts, ticks), ticks);
      Snoc(b);
      ConcatSnoc(a, b);
    }
  }

  lemma RunTxsSnoc(p: Program, txs: seq<Transaction>, tx: Transaction, accounts: Accounts, ticks: seq<Hash>)
    ensures var before, e := RunTxs(p, txs, accounts, ticks), TxsError(p, txs, accounts, ticks);
            && RunTxs(p, txs + [tx], accounts, ticks) == Commit(before, tx, Execute(p, tx, before, ticks))
            && TxsError(p, txs + [tx], accounts, ticks) == if e.Some? then e else Execute(p, tx, before, ticks).error
  {
    assert (txs + [tx])[..|txs|] == txs;
  }

  /**
   One more transaction, in words: it is given its accounts as they are then, the credit-only ones too and no others,
   and what it writes to these is stored.
   */
  lemma OneMoreRuns(
    p: Program, txs: seq<Transaction>, tx: Transaction, accounts: Accounts, ticks: seq<Hash>, before: Accounts,
    loaded: Accounts, k: Pubkey)
    requires before == RunTxs(p, txs, accounts, ticks)
    requires forall x :: x in loaded <==> x in before && (x in tx.accounts || x in tx.creditOnly)
    requires forall x :: x in loaded ==> loaded[x] == before[x]
    ensures RunTxs(p, [], accounts, ticks) == accounts && TxsError(p, [], accounts, ticks) == None
    ensures var after, outcome := RunTxs(p, txs + [tx], accounts, ticks), p(tx, loaded, ticks);
            var stored := k in outcome.writes && (k in tx.accounts || k in tx.creditOnly);
            && (k in after <==> k in before || stored)
            && (k in after ==> after[k] == if stored then outcome.writes[k] else before[k])
    ensures TxsError(p, txs + [tx], accounts, ticks) ==
              if TxsError(p, txs, accounts, ticks).Some? then TxsError(p, txs, accounts, ticks)
              else p(tx, loaded, ticks).error
  {
    RunTxsSnoc(p, txs, tx, accounts, ticks);
    assert loaded == Restrict(before, Keys(tx));
  }

  // ---- Transactions that can run in any order ----

  /** Every transaction can be locked while `held` is: no two lock the same account, and none locks one of `held`. */
  ghost predicate Lockable(txs: seq<Transaction>, held: set<Pubkey>) {
    (forall i :: FreeAt(txs, held, i)) && (forall i, j :: DisjointAt(txs, i, j))
  }

  ghost predicate FreeAt(txs: seq<Transaction>, held: set<Pubkey>, i: int) {
    0 <= i < |txs| ==> Locked(txs[i]) !! held
  }

  ghost predicate DisjointAt(txs: seq<Transaction>, i: int, j: int) {
    0 <= i < |txs| && 0 <= j < |txs| && i != j ==> Locked(txs[i]) !! Locked(txs[j])
  }

  function Lookup(accounts: Accounts, k: Pubkey): Option<Account> {
    if k in accounts then Some(accounts[k]) else None
  }

  /** On these accounts the transaction stores another value for `k` than it loaded. */
  ghost predicate ChangesOn(p: Program, tx: Transaction, loaded: Accounts, ticks: seq<Hash>, k: Pubkey) {
    var writes := p(tx, loaded, ticks).writes;
    k in writes && Lookup(loaded, k) != Some(writes[k])
  }

  /** There is a way to execute the transaction that changes the account; storing what was loaded changes nothing. */
  ghost predicate CanChange(p: Program, tx: Transaction, k: Pubkey) {
    exists loaded: Accounts, ticks: seq<Hash> :: ChangesOn(p, tx, loaded, ticks, k)
  }

  /** No transaction can change an account that another one of them uses. */
  ghost predicate Independent(p: Program, txs: seq<Transaction>) {
    forall i, j :: IndependentAt(p, txs, i, j)
  }

  ghost predicate IndependentAt(p: Program, txs: seq<Transaction>, i: int, j: int) {
    0 <= i < |txs| && 0 <= j < |txs| && i != j ==>
      forall k :: k in Keys(txs[i]) && k in Keys(txs[j]) ==> !CanChange(p, txs[i], k)
  }

  /** An account that one transaction can change and another one uses is locked for both. */
  ghost predicate Disciplined(p: Program, txs: seq<Transaction>) {
    forall i, j :: DisciplinedAt(p, txs, i, j)
  }

  ghost predicate DisciplinedAt(p: Program, txs: seq<Transaction>, i: int, j: int) {
    0 <= i < |txs| && 0 <= j < |txs| && i != j ==>
      forall k :: k in Keys(txs[i]) && k in Keys(txs[j]) && CanChange(p, txs[i], k) ==>
        k in Locked(txs[i]) && k in Locked(txs[j])
  }

  /** Transactions that are locked together are independent exactly under that discipline. */
  lemma LocksMakeIndependent(p: Program, txs: seq<Transaction>)
    requires Lockable(txs, {})
    ensures Disciplined(p, txs) <==> Independent(p, txs)
  {
    if Disciplined(p, txs) {
      forall i, j ensures IndependentAt(p, txs, i, j) {
        assert DisciplinedAt(p, txs, i, j) && DisjointAt(txs, i, j);
      }
    }
    if Independent(p, txs) {
      forall i, j ensures DisciplinedAt(p, txs, i, j) {
        assert IndependentAt(p, txs, i, j);
      }
    }
  }

  /** Transaction `i`, when it is the only one to run, changes account `k`. */
  ghost predicate Changes(p: Program, txs: seq<Transaction>, init: Accounts, ticks: seq<Hash>, i: int, k: Pubkey) {
    0 <= i < |txs| && k in Keys(txs[i]) && ChangesOn(p, txs[i], Restrict(init, Keys(txs[i])), ticks, k)
  }

  lemma NobodyElseUses(p: Program, txs: seq<Transaction>, init: Accounts, ticks: seq<Hash>, i: int, j: int, k: Pubkey)
    requires Independent(p, txs) && Changes(p, txs, init, ticks, i, k) && 0 <= j < |txs| && i != j
    ensures k !in Keys(txs[j])
  {
    assert CanChange(p, txs[i], k);
    assert IndependentAt(p, txs, i, j);
  }

  /** At key `k`, exactly the transactions of `done` have taken effect, each as if alone. */
  ghost predicate KeyAt(
    p: Program, txs: seq<Transaction>, init: Accounts, ticks: seq<Hash>, done: set<int>, accounts: Accounts, k: Pubkey)
  {
    && (forall i :: i in done && Changes(p, txs, init, ticks, i, k) ==>
          Lookup(accounts, k) == Some(Execute(p, txs[i], init, ticks).writes[k]))
    && (NoneChanges(p, txs, init, ticks, done, k) ==> Lookup(accounts, k) == Lookup(init, k))
  }

  ghost predicate NoneChanges(
    p: Program, txs: seq<Transaction>, init: Accounts, ticks: seq<Hash>, done: set<int>, k: Pubkey)
  {
    forall i :: i in done ==> !Changes(p, txs, init, ticks, i, k)
  }

  ghost predicate Effects(
    p: Program, txs: seq<Transaction>, init: Accounts, ticks: seq<Hash>, done: set<int>, accounts: Accounts)
  {
    forall k: Pubkey :: KeyAt(p, txs, init, ticks, done, accounts, k)
  }

  lemma SameLookups(a: Accounts, b: Accounts)
    requires forall k: Pubkey :: Lookup(a, k) == Lookup(b, k)
    ensures a == b
  {
    assert forall k :: k in a <==> Lookup(a, k).Some?;
    assert forall k :: k in b <==> Lookup(b, k).Some?;
  }

  /** What another transaction uses, nobody else changes. */
  lemma UsedIsUnchanged(
    p: Program, txs: seq<Transaction>, init: Accounts, ticks: seq<Hash>, done: set<int>, i: int, k: Pubkey)
    requires Independent(p, txs) && 0 <= i < |txs| && i !in done && k in Keys(txs[i])
    ensures NoneChanges(p, txs, init, ticks, done, k)
  {
    forall j | j in done ensures !Changes(p, txs, init, ticks, j, k) {
      if Changes(p, txs, init, ticks, j, k) {
        NobodyElseUses(p, txs, init, ticks, j, i, k);
      }
    }
  }

  /** A transaction that has not run yet still finds its accounts as they were. */
  lemma LoadsInitial(
    p: Program, txs: seq<Transaction>, init: Accounts, ticks: seq<Hash>, done: set<int>, accounts: Accounts, i: int)
    requires Independent(p, txs) && Effects(p, txs, init, ticks, done, accounts)
    requires 0 <= i < |txs| && i !in done
    ensures Restrict(accounts, Keys(txs[i])) == Restrict(init, Keys(txs[i]))
  {
    var a, b := Restrict(accounts, Keys(txs[i])), Restrict(init, Keys(txs[i]));
    forall k: Pubkey ensures Lookup(a, k) == Lookup(b, k) {
      if k in Keys(txs[i]) {
        UsedIsUnchanged(p, txs, init, ticks, done, i, k);
        assert KeyAt(p, txs, init, ticks, done, accounts, k);
      }
    }
    SameLookups(a, b);
  }

  lemma CommitEffectAt(
    p: Program, txs: seq<Transaction>, init: Accounts, ticks: seq<Hash>, done: set<int>, accounts: Accounts, i: int,
    after: Accounts, k: Pubkey)
    requires Independent(p, txs) && KeyAt(p, txs, init, ticks, done, accounts, k)
    requires 0 <= i < |txs| && i !in done && after == Commit(accounts, txs[i], Execute(p, txs[i], init, ticks))
    ensures KeyAt(p, txs, init, ticks, done + {i}, after, k)
  {
    if k in Keys(txs[i]) {
      UsedIsUnchanged(p, txs, init, ticks, done, i, k);
      assert Lookup(Restrict(init, Keys(txs[i])), k) == Lookup(init, k);
      assert i in done + {i};
    } else {
      assert Lookup(after, k) == Lookup(accounts, k);
      assert forall j :: j in done ==> j in done + {i};
    }
  }

  lemma CommitEffect(
    p: Program, txs: seq<Transaction>, init: Accounts, ticks: seq<Hash>, done: set<int>, accounts: Accounts, i: int)
    requires Independent(p, txs) && Effects(p, txs, init, ticks, done, accounts)
    requires 0 <= i < |txs| && i !in done
    ensures Effects(p, txs, init, ticks, done + {i}, Commit(accounts, txs[i], Execute(p, txs[i], init, ticks)))
  {
    var after := Commit(accounts, txs[i], Execute(p, txs[i], init, ticks));
    forall k: Pubkey ensures KeyAt(p, txs, init, ticks, done + {i}, after, k) {
      assert KeyAt(p, txs, init, ticks, done, accounts, k);
      CommitEffectAt(p, txs, init, ticks, done, accounts, i, after, k);
    }
  }

  function Upto(n: nat): (s: set<int>)
    ensures forall i :: i in s <==> 0 <= i < n
  {
    if n == 0 then {} else Upto(n - 1) + {n - 1}
  }

  /** Running the transactions in order has the same effects, and every one meets the accounts as they were. */
  lemma {:induction false} InOrderEffects(p: Program, txs: seq<Transaction>, init: Accounts, ticks: seq<Hash>, n: nat)
    requires Independent(p, txs) && n <= |txs|
    ensures Effects(p, txs, init, ticks, Upto(n), RunTxs(p, txs[..n], init, ticks))
  {
    if n == 0 {
      forall k: Pubkey ensures KeyAt(p, txs, init, ticks, Upto(0), init, k) {
      }
    } else {
      var before := RunTxs(p, txs[..n - 1], init, ticks);
      assert txs[..n][..n - 1] == txs[..n - 1];
      InOrderEffects(p, txs, init, ticks, n - 1);
      LoadsInitial(p, txs, init, ticks, Upto(n - 1), before, n - 1);
      CommitEffect(p, txs, init, ticks, Upto(n - 1), before, n - 1);
      assert Upto(n) == Upto(n - 1) + {n - 1};
    }
  }

  lemma EffectsDetermine(
    p: Program, txs: seq<Transaction>, init: Accounts, ticks: seq<Hash>, done: set<int>, a: Accounts, b: Accounts)
    requires Effects(p, txs, init, ticks, done, a) && Effects(p, txs, init, ticks, done, b)
    ensures a == b
  {
    forall k: Pubkey ensures Lookup(a, k) == Lookup(b, k) {
      assert KeyAt(p, txs, init, ticks, done, a, k) && KeyAt(p, txs, init, ticks, done, b, k);
    }
    SameLookups(a, b);
  }

  // ---- Errors ----

  function FirstErr(results: seq<Option<TransactionError>>): Option<TransactionError> {
    if results == [] then None
    else
      var e := FirstErr(results[..|results| - 1]);
      if e.Some? then e else results[|results| - 1]
  }

  lemma {:induction false} FirstErrConcat(a: seq<Option<TransactionError>>, b: seq<Option<TransactionError>>)
    ensures FirstErr(a + b) == if FirstErr(a).Some? then FirstErr(a) else FirstErr(b)
  {
    if b == [] {
      assert a + b == a;
    } else {
      var front, last := b[..|b| - 1], b[|b| - 1];
      FirstErrConcat(a, front);
      FirstErrSnoc(a + front, last);
      FirstErrSnoc(front, last);
      Snoc(b);
      ConcatSnoc(a, b);
    }
  }

  lemma FirstErrSnoc(results: seq<Option<TransactionError>>, result: Option<TransactionError>)
    ensures FirstErr(results + [result]) == if FirstErr(results).Some? then FirstErr(results) else result
  {
    assert (results + [result])[..|results|] == results;
  }

  /** The errors of independent transactions do not depend on the order they run in either. */
  lemma {:induction false} InOrderErrors(
    p: Program, txs: seq<Transaction>, init: Accounts, ticks: seq<Hash>, errors: seq<Option<TransactionError>>, n: nat)
    requires Independent(p, txs) && n <= |txs| == |errors|
    requires forall i :: 0 <= i < |txs| ==> errors[i] == Execute(p, txs[i], init, ticks).error
    ensures TxsError(p, txs[..n], init, ticks) == FirstErr(errors[..n])
  {
    if n > 0 {
      assert txs[..n][..n - 1] == txs[..n - 1] && errors[..n][..n - 1] == errors[..n - 1];
      InOrderErrors(p, txs, init, ticks, errors, n - 1);
      InOrderEffects(p, txs, init, ticks, n - 1);
      LoadsInitial(p, txs, init, ticks, Upto(n - 1), RunTxs(p, txs[..n - 1], init, ticks), n - 1);
    }
  }

  ghost predicate AllOk(results: seq<Option<TransactionError>>) {
    forall i :: 0 <= i < |results| ==> results[i].None?
  }

  lemma {:induction false} NoFirstErr(results: seq<Option<TransactionError>>)
    ensures FirstErr(results).None? <==> AllOk(results)
  {
    if results != [] {
      NoFirstErr(results[..|results| - 1]);
    }
  }

  // ---- Parallel runs ----

  /** What has been loaded and not stored yet, what has been stored, and the accounts as they are. */
  datatype Flight = Flight(loaded: map<int, Accounts>, outcomes: map<int, Outcome>, accounts: Accounts)

  /** The first step of a transaction loads its accounts, the second stores them. */
  ghost function Step(p: Program, txs: seq<Transaction>, ticks: seq<Hash>, f: Flight, i: int): Flight {
    if !(0 <= i < |txs|) || i in f.outcomes then f
    else if i in f.loaded then
      var o := p(txs[i], f.loaded[i], ticks);
      Flight(f.loaded - {i}, f.outcomes[i := o], Commit(f.accounts, txs[i], o))
    else Flight(f.loaded[i := Restrict(f.accounts, Keys(txs[i]))], f.outcomes, f.accounts)
  }

  /** The steps of a schedule in their order, each given by the transaction whose step it is. */
  ghost function Play(p: Program, txs: seq<Transaction>, init: Accounts, ticks: seq<Hash>, schedule: seq<int>): Flight {
    if schedule == [] then Flight(map[], map[], init)
    else Step(p, txs, ticks, Play(p, txs, init, ticks, schedule[..|schedule| - 1]), schedule[|schedule| - 1])
  }

  /** A schedule for `n` transactions: two steps of each, interleaved in any way. */
  ghost predicate IsSchedule(schedule: seq<int>, n: nat) {
    forall i :: multiset(schedule)[i] == if 0 <= i < n then 2 else 0
  }

  ghost function Errors(f: Flight, n: nat): seq<Option<TransactionError>> {
    seq(n, i => if i in f.outcomes then f.outcomes[i].error else None)
  }

  lemma PlaySnoc(p: Program, txs: seq<Transaction>, init: Accounts, ticks: seq<Hash>, schedule: seq<int>, i: int)
    ensures Play(p, txs, init, ticks, schedule + [i]) == Step(p, txs, ticks, Play(p, txs, init, ticks, schedule), i)
  {
    assert (schedule + [i])[..|schedule|] == schedule;
  }

  /** A transaction has loaded after its first step and stored after its second. */
  lemma {:induction false} PlayPlaces(
    p: Program, txs: seq<Transaction>, init: Accounts, ticks: seq<Hash>, schedule: seq<int>, i: int)
    requires 0 <= i < |txs|
    ensures var f, n := Play(p, txs, init, ticks, schedule), multiset(schedule)[i];
            (i in f.loaded <==> n == 1) && (i in f.outcomes <==> n >= 2)
  {
    if schedule != [] {
      var front, last := schedule[..|schedule| - 1], schedule[|schedule| - 1];
      PlayPlaces(p, txs, init, ticks, front, i);
      Snoc(schedule);
      assert multiset(front + [last]) == multiset(front) + multiset{last};
    }
  }

  ghost predicate Inside(f: Flight, n: nat) {
    (forall i :: i in f.loaded ==> 0 <= i < n) && (forall i :: i in f.outcomes ==> 0 <= i < n)
  }

  lemma {:induction false} PlayInside(
    p: Program, txs: seq<Transaction>, init: Accounts, ticks: seq<Hash>, schedule: seq<int>)
    ensures Inside(Play(p, txs, init, ticks, schedule), |txs|)
  {
    if schedule != [] {
      PlayInside(p, txs, init, ticks, schedule[..|schedule| - 1]);
      StepInside(p, txs, ticks, Play(p, txs, init, ticks, schedule[..|schedule| - 1]), schedule[|schedule| - 1]);
    }
  }

  lemma StepInside(p: Program, txs: seq<Transaction>, ticks: seq<Hash>, f: Flight, i: int)
    requires Inside(f, |txs|)
    ensures Inside(Step(p, txs, ticks, f, i), |txs|)
  {
  }

  /** What was loaded is as it was at first, and exactly the transactions of `outcomes` have taken effect. */
  ghost predicate InFlight(p: Program, txs: seq<Transaction>, init: Accounts, ticks: seq<Hash>, f: Flight) {
    && (forall i :: i in f.loaded && 0 <= i < |txs| ==> f.loaded[i] == Restrict(init, Keys(txs[i])))
    && (forall i :: i in f.outcomes && 0 <= i < |txs| ==> f.outcomes[i] == Execute(p, txs[i], init, ticks))
    && Effects(p, txs, init, ticks, f.outcomes.Keys, f.accounts)
  }

  lemma StepInFlight(p: Program, txs: seq<Transaction>, init: Accounts, ticks: seq<Hash>, f: Flight, i: int)
    requires Independent(p, txs) && InFlight(p, txs, init, ticks, f)
    ensures InFlight(p, txs, init, ticks, Step(p, txs, ticks, f, i))
  {
    if 0 <= i < |txs| && i !in f.outcomes {
      if i in f.loaded {
        CommitEffect(p, txs, init, ticks, f.outcomes.Keys, f.accounts, i);
        assert f.outcomes[i := p(txs[i], f.loaded[i], ticks)].Keys == f.outcomes.Keys + {i};
      } else {
        LoadsInitial(p, txs, init, ticks, f.outcomes.Keys, f.accounts, i);
      }
    }
  }

  lemma {:induction false} PlayInFlight(
    p: Program, txs: seq<Transaction>, init: Accounts, ticks: seq<Hash>, schedule: seq<int>)
    requires Independent(p, txs)
    ensures InFlight(p, txs, init, ticks, Play(p, txs, init, ticks, schedule))
  {
    if schedule == [] {
      forall k: Pubkey ensures KeyAt(p, txs, init, ticks, {}, init, k) {
      }
      assert Play(p, txs, init, ticks, []).outcomes.Keys == {};
    } else {
      PlayInFlight(p, txs, init, ticks, schedule[..|schedule| - 1]);
      StepInFlight(
        p, txs, init, ticks, Play(p, txs, init, ticks, schedule[..|schedule| - 1]), schedule[|schedule| - 1]);
    }
  }

  lemma AllStored(p: Program, txs: seq<Transaction>, init: Accounts, ticks: seq<Hash>, schedule: seq<int>)
    requires IsSchedule(schedule, |txs|)
    ensures Play(p, txs, init, ticks, schedule).outcomes.Keys == Upto(|txs|)
    ensures Play(p, txs, init, ticks, schedule).loaded.Keys == {}
  {
    var f := Play(p, txs, init, ticks, schedule);
    PlayInside(p, txs, init, ticks, schedule);
    forall i | 0 <= i < |txs| ensures i in f.outcomes && i !in f.loaded {
      PlayPlaces(p, txs, init, ticks, schedule, i);
    }
  }

  /** Independent transactions end as in ledger order, with the same first error, whatever the schedule. */
  lemma IndependentPlay(p: Program, txs: seq<Transaction>, init: Accounts, ticks: seq<Hash>, schedule: seq<int>)
    requires Independent(p, txs) && IsSchedule(schedule, |txs|)
    ensures var f := Play(p, txs, init, ticks, schedule);
            && f.accounts == RunTxs(p, txs, init, ticks)
            && FirstErr(Errors(f, |txs|)) == TxsError(p, txs, init, ticks)
  {
    var f := Play(p, txs, init, ticks, schedule);
    PlayInFlight(p, txs, init, ticks, schedule);
    AllStored(p, txs, init, ticks, schedule);
    InOrderEffects(p, txs, init, ticks, |txs|);
    assert txs[..|txs|] == txs;
    EffectsDetermine(p, txs, init, ticks, Upto(|txs|), f.accounts, RunTxs(p, txs, init, ticks));
    var errors := Errors(f, |txs|);
    InOrderErrors(p, txs, init, ticks, errors, |txs|);
    assert errors[..|txs|] == errors;
  }

  // ---- Transactions that share an account can race ----

  ghost predicate NoSharing(txs: seq<Transaction>) {
    forall i, j :: 0 <= i < j < |txs| ==> Keys(txs[i]) !! Keys(txs[j])
  }

  lemma NoSharingIsIndependent(p: Program, txs: seq<Transaction>)
    requires NoSharing(txs)
    ensures Independent(p, txs)
  {
    forall i, j ensures IndependentAt(p, txs, i, j) {
      if 0 <= i < j < |txs| {
        assert Keys(txs[i]) !! Keys(txs[j]);
      } else if 0 <= j < i < |txs| {
        assert Keys(txs[j]) !! Keys(txs[i]);
      }
    }
  }

  ghost function Range(n: nat): seq<int> {
    if n == 0 then [] else Range(n - 1) + [n - 1]
  }

  lemma {:induction false} CountInRange(n: nat, i: int)
    ensures multiset(Range(n))[i] == if 0 <= i < n then 1 else 0
  {
    if n > 0 {
      CountInRange(n - 1, i);
    }
  }

  /** All transactions load before any stores, which they then do in ledger order. */
  ghost function LoadsFirst(n: nat): (schedule: seq<int>)
    ensures IsSchedule(schedule, n)
  {
    assert forall i :: multiset(Range(n) + Range(n))[i] == if 0 <= i < n then 2 else 0 by {
      forall i ensures multiset(Range(n) + Range(n))[i] == if 0 <= i < n then 2 else 0 {
        CountInRange(n, i);
      }
    }
    Range(n) + Range(n)
  }

  /** Transactions before `lo` have stored and those from there up to `hi` have loaded, all of the first accounts. */
  ghost predicate Stage(
    p: Program, txs: seq<Transaction>, init: Accounts, ticks: seq<Hash>, f: Flight, lo: nat, hi: nat)
    requires lo <= hi <= |txs|
  {
    forall i: int :: StageAt(p, txs, init, ticks, f, lo, hi, i)
  }

  ghost predicate StageAt(
    p: Program, txs: seq<Transaction>, init: Accounts, ticks: seq<Hash>, f: Flight, lo: nat, hi: nat, i: int)
    requires lo <= hi <= |txs|
  {
    && (i in f.loaded <==> lo <= i < hi) && (i in f.outcomes <==> 0 <= i < lo)
    && (i in f.loaded ==> f.loaded[i] == Restrict(init, Keys(txs[i])))
    && (i in f.outcomes ==> f.outcomes[i] == Execute(p, txs[i], init, ticks))
  }

  lemma LoadNext(
    p: Program, txs: seq<Transaction>, init: Accounts, ticks: seq<Hash>, f: Flight, hi: nat, f': Flight, hi': nat)
    requires hi < |txs| && Stage(p, txs, init, ticks, f, 0, hi) && f.accounts == init
    requires f' == Step(p, txs, ticks, f, hi) && hi' == hi + 1
    ensures Stage(p, txs, init, ticks, f', 0, hi') && f'.accounts == init
  {
    assert StageAt(p, txs, init, ticks, f, 0, hi, hi);
    forall i: int ensures StageAt(p, txs, init, ticks, f', 0, hi', i) {
      assert StageAt(p, txs, init, ticks, f, 0, hi, i);
    }
  }

  lemma StoreNext(
    p: Program, txs: seq<Transaction>, init: Accounts, ticks: seq<Hash>, f: Flight, lo: nat, n: nat, f': Flight,
    lo': nat)
    requires lo < n == |txs| && Stage(p, txs, init, ticks, f, lo, n)
    requires f' == Step(p, txs, ticks, f, lo) && lo' == lo + 1
    ensures Stage(p, txs, init, ticks, f', lo', n)
    ensures f'.accounts == Commit(f.accounts, txs[lo], Execute(p, txs[lo], init, ticks))
  {
    assert StageAt(p, txs, init, ticks, f, lo, n, lo);
    forall i: int ensures StageAt(p, txs, init, ticks, f', lo', n, i) {
      assert StageAt(p, txs, init, ticks, f, lo, n, i);
    }
  }

  lemma NothingLoaded(p: Program, txs: seq<Transaction>, init: Accounts, ticks: seq<Hash>, n: nat)
    requires n == 0
    ensures Stage(p, txs, init, ticks, Play(p, txs, init, ticks, []), 0, n)
  {
    var f := Play(p, txs, init, ticks, []);
    forall i: int ensures StageAt(p, txs, init, ticks, f, 0, n, i) {
    }
  }

  /** After the schedule the first `m` transactions have loaded. */
  ghost predicate HaveLoaded(
    p: Program, txs: seq<Transaction>, init: Accounts, ticks: seq<Hash>, schedule: seq<int>, m: nat)
    requires m <= |txs|
  {
    var f := Play(p, txs, init, ticks, schedule);
    Stage(p, txs, init, ticks, f, 0, m) && f.accounts == init
  }

  lemma OneMoreLoads(p: Program, txs: seq<Transaction>, init: Accounts, ticks: seq<Hash>, schedule: seq<int>, m: nat)
    requires m < |txs| && HaveLoaded(p, txs, init, ticks, schedule, m)
    ensures HaveLoaded(p, txs, init, ticks, schedule + [m], m + 1)
  {
    var f, f' := Play(p, txs, init, ticks, schedule), Play(p, txs, init, ticks, schedule + [m]);
    PlaySnoc(p, txs, init, ticks, schedule, m);
    LoadNext(p, txs, init, ticks, f, m, f', m + 1);
  }

  lemma {:induction false} PlayLoads(p: Program, txs: seq<Transaction>, init: Accounts, ticks: seq<Hash>, m: nat)
    requires m <= |txs|
    ensures HaveLoaded(p, txs, init, ticks, Range(m), m)
  {
    if m == 0 {
      NothingLoaded(p, txs, init, ticks, m);
    } else {
      PlayLoads(p, txs, init, ticks, m - 1);
      OneMoreLoads(p, txs, init, ticks, Range(m - 1), m - 1);
    }
  }

  /** The accounts after the first `m` transactions have stored what they made of the accounts as they were at first. */
  ghost function StoredFirst(p: Program, txs: seq<Transaction>, init: Accounts, ticks: seq<Hash>, m: nat): Accounts
    requires m <= |txs|
  {
    if m == 0 then init
    else Commit(StoredFirst(p, txs, init, ticks, m - 1), txs[m - 1], Execute(p, txs[m - 1], init, ticks))
  }

  /** After the schedule all transactions have loaded and the first `m` have stored. */
  ghost predicate HaveStored(
    p: Program, txs: seq<Transaction>, init: Accounts, ticks: seq<Hash>, schedule: seq<int>, m: nat)
    requires m <= |txs|
  {
    var f := Play(p, txs, init, ticks, schedule);
    Stage(p, txs, init, ticks, f, m, |txs|) && f.accounts == StoredFirst(p, txs, init, ticks, m)
  }

  lemma NoneStored(p: Program, txs: seq<Transaction>, init: Accounts, ticks: seq<Hash>, m: nat)
    requires m == 0
    ensures HaveStored(p, txs, init, ticks, Range(|txs|) + Range(m), m)
  {
    PlayLoads(p, txs, init, ticks, |txs|);
    assert Range(|txs|) + Range(m) == Range(|txs|);
  }

  lemma OneMoreStores(
    p: Program, txs: seq<Transaction>, init: Accounts, ticks: seq<Hash>, schedule: seq<int>, m: nat,
    schedule': seq<int>, m': nat)
    requires m < |txs| && HaveStored(p, txs, init, ticks, schedule, m) && schedule' == schedule + [m] && m' == m + 1
    ensures HaveStored(p, txs, init, ticks, schedule', m')
  {
    var f, f' := Play(p, txs, init, ticks, schedule), Play(p, txs, init, ticks, schedule');
    PlaySnoc(p, txs, init, ticks, schedule, m);
    StoreNext(p, txs, init, ticks, f, m, |txs|, f', m');
  }

  lemma RangesGrow(n: nat, m: nat)
    requires m > 0
    ensures Range(n) + Range(m) == Range(n) + Range(m - 1) + [m - 1]
  {
    Associative(Range(n), Range(m - 1), [m - 1]);
  }

  lemma {:induction false} PlayStores(p: Program, txs: seq<Transaction>, init: Accounts, ticks: seq<Hash>, m: nat)
    requires m <= |txs|
    ensures HaveStored(p, txs, init, ticks, Range(|txs|) + Range(m), m)
  {
    if m == 0 {
      NoneStored(p, txs, init, ticks, m);
    } else {
      PlayStores(p, txs, init, ticks, m - 1);
      RangesGrow(|txs|, m);
      OneMoreStores(p, txs, init, ticks, Range(|txs|) + Range(m - 1), m - 1, Range(|txs|) + Range(m), m);
    }
  }

  ghost function ValueAt(accounts: Accounts, k: Pubkey): nat {
    if k in accounts then accounts[k] else 0
  }

  /** A program that adds one to account `k` for every transaction that uses it, and never fails. */
  ghost predicate Credits(p: Program, k: Pubkey) {
    forall tx, loaded, ticks :: p(tx, loaded, ticks) == Outcome(map[k := ValueAt(loaded, k) + 1], None)
  }

  lemma Crediting(k: Pubkey) returns (p: Program)
    ensures Credits(p, k)
  {
    p := (tx: Transaction, loaded: Accounts, ts: seq<Hash>) =>
      Outcome(map[k := (if k in loaded then loaded[k] else 0) + 1], None);
  }

  ghost function Users(txs: seq<Transaction>, k: Pubkey): nat {
    if txs == [] then 0 else Users(txs[..|txs| - 1], k) + if k in Keys(txs[|txs| - 1]) then 1 else 0
  }

  lemma {:induction false} UsersConcat(a: seq<Transaction>, b: seq<Transaction>, k: Pubkey)
    ensures Users(a + b, k) == Users(a, k) + Users(b, k)
  {
    if b == [] {
      assert a + b == a;
    } else {
      UsersConcat(a, b[..|b| - 1], k);
      assert (a + b)[..|a + b| - 1] == a + b[..|b| - 1];
    }
  }

  /** In ledger order every user of the account adds one. */
  lemma {:induction false} CreditsAddUp(p: Program, txs: seq<Transaction>, init: Accounts, ticks: seq<Hash>, k: Pubkey)
    requires Credits(p, k)
    ensures ValueAt(RunTxs(p, txs, init, ticks), k) == ValueAt(init, k) + Users(txs, k)
    ensures TxsError(p, txs, init, ticks).None?
  {
    if txs != [] {
      CreditsAddUp(p, txs[..|txs| - 1], init, ticks, k);
    }
  }

  /** If all load before any stores, they add no more than one together. */
  lemma {:induction false} CreditsGetLost(
    p: Program, txs: seq<Transaction>, init: Accounts, ticks: seq<Hash>, k: Pubkey, m: nat)
    requires Credits(p, k) && m <= |txs|
    ensures ValueAt(StoredFirst(p, txs, init, ticks, m), k) <= ValueAt(init, k) + 1
    ensures Users(txs[..m], k) == 0 ==> ValueAt(StoredFirst(p, txs, init, ticks, m), k) == ValueAt(init, k)
  {
    if m > 0 {
      CreditsGetLost(p, txs, init, ticks, k, m - 1);
      assert txs[..m][..m - 1] == txs[..m - 1];
      assert ValueAt(Restrict(init, Keys(txs[m - 1])), k) <= ValueAt(init, k);
    }
  }

  lemma CreditsInFlight(p: Program, txs: seq<Transaction>, init: Accounts, ticks: seq<Hash>, k: Pubkey)
    requires Credits(p, k)
    ensures var f := Play(p, txs, init, ticks, LoadsFirst(|txs|));
            && ValueAt(f.accounts, k) <= ValueAt(init, k) + 1
            && (Users(txs, k) == 0 ==> ValueAt(f.accounts, k) == ValueAt(init, k))
            && FirstErr(Errors(f, |txs|)).None?
  {
    var f := Play(p, txs, init, ticks, LoadsFirst(|txs|));
    PlayStores(p, txs, init, ticks, |txs|);
    CreditsGetLost(p, txs, init, ticks, k, |txs|);
    assert txs[..|txs|] == txs;
    NoErrors(p, txs, init, ticks, f, k);
  }

  lemma NoErrors(p: Program, txs: seq<Transaction>, init: Accounts, ticks: seq<Hash>, f: Flight, k: Pubkey)
    requires Credits(p, k) && Stage(p, txs, init, ticks, f, |txs|, |txs|)
    ensures FirstErr(Errors(f, |txs|)).None?
  {
    forall i | 0 <= i < |txs| ensures Errors(f, |txs|)[i].None? {
      assert StageAt(p, txs, init, ticks, f, |txs|, |txs|, i);
    }
    NoFirstErr(Errors(f, |txs|));
  }

  lemma {:induction false} TwoUsers(txs: seq<Transaction>, i: nat, j: nat, k: Pubkey)
    requires i < j < |txs| && k in Keys(txs[i]) && k in Keys(txs[j])
    ensures Users(txs, k) >= 2
  {
    var front := txs[..|txs| - 1];
    if j < |front| {
      TwoUsers(front, i, j, k);
    } else {
      OneUser(front, i, k);
    }
  }

  lemma {:induction false} OneUser(txs: seq<Transaction>, i: nat, k: Pubkey)
    requires i < |txs| && k in Keys(txs[i])
    ensures Users(txs, k) >= 1
  {
    if i < |txs| - 1 {
      OneUser(txs[..|txs| - 1], i, k);
    }
  }

  lemma SharedAccount(txs: seq<Transaction>) returns (k: Pubkey)
    requires !NoSharing(txs)
    ensures Users(txs, k) >= 2
  {
    var i, j :| 0 <= i < j < |txs| && !(Keys(txs[i]) !! Keys(txs[j]));
    k :| k in Keys(txs[i]) && k in Keys(txs[j]);
    TwoUsers(txs, i, j, k);
  }

  /** Whatever the schedule, the program ends as in ledger order. */
  ghost predicate NeverRaces(txs: seq<Transaction>, ticks: seq<Hash>, p: Program, init: Accounts) {
    forall schedule :: IsSchedule(schedule, |txs|) ==>
      Play(p, txs, init, ticks, schedule).accounts == RunTxs(p, txs, init, ticks)
  }

  /** If all transactions load before the first one stores, the program ends as in ledger order. */
  ghost predicate LoadingFirstIsFine(txs: seq<Transaction>, ticks: seq<Hash>, p: Program, init: Accounts) {
    Play(p, txs, init, ticks, LoadsFirst(|txs|)).accounts == RunTxs(p, txs, init, ticks)
  }

  /**
   Every program ends as in ledger order, under every schedule or under the one schedule in which all load first,
   exactly if no two transactions use the same account.
   */
  lemma RaceFreeIff(txs: seq<Transaction>, ticks: seq<Hash>)
    ensures (forall p, init :: NeverRaces(txs, ticks, p, init)) <==> NoSharing(txs)
    ensures (forall p, init :: LoadingFirstIsFine(txs, ticks, p, init)) <==> NoSharing(txs)
  {
    forall p, init | NeverRaces(txs, ticks, p, init) ensures LoadingFirstIsFine(txs, ticks, p, init) {
    }
    if NoSharing(txs) {
      forall p, init ensures NeverRaces(txs, ticks, p, init) {
        NoSharingIsIndependent(p, txs);
        forall schedule | IsSchedule(schedule, |txs|)
          ensures Play(p, txs, init, ticks, schedule).accounts == RunTxs(p, txs, init, ticks)
        {
          IndependentPlay(p, txs, init, ticks, schedule);
        }
      }
    } else {
      var k := SharedAccount(txs);
      var p := Crediting(k);
      CreditsAddUp(p, txs, map[], ticks, k);
      CreditsInFlight(p, txs, map[], ticks, k);
      assert !LoadingFirstIsFine(txs, ticks, p, map[]);
    }
  }

  /** The locks do not keep two transactions apart that share a credit-only account. */
  lemma CreditOnlyCanRace(a: Transaction, b: Transaction, k: Pubkey, ticks: seq<Hash>) returns (p: Program)
    requires Locked(a) !! Locked(b) && k in a.creditOnly && k in b.creditOnly
    ensures Lockable([a, b], {}) && !NeverRaces([a, b], ticks, p, map[])
  {
    var txs := [a, b];
    forall i ensures FreeAt(txs, {}, i) {
    }
    forall i, j ensures DisjointAt(txs, i, j) {
    }
    TwoUsers(txs, 0, 1, k);
    p := Crediting(k);
    CreditsAddUp(p, txs, map[], ticks, k);
    CreditsInFlight(p, txs, map[], ticks, k);
  }
}
