/** How the exchange bench splits one account's funds over many keys, each funded key helping to fund the rest. */
module Funding {
  import opened Common
  import opened Arithmetic

  const MAX_TRANSFERS_PER_TX := 4

  /** A key and the balance that the bookkeeping believes it to have. */
  datatype Account = Account(key: Pubkey, balance: nat)

  datatype Transfer = Transfer(payer: Pubkey, payees: seq<Pubkey>, amount: nat)

  type Balances = map<Pubkey, int>

  // ---- Transfers ----

  function Move(m: Balances, payer: Pubkey, payee: Pubkey, amount: nat): (r: Balances)
    requires payer in m && payee in m
    ensures r.Keys == m.Keys
  {
    var paid := m[payer := m[payer] - amount];
    paid[payee := paid[payee] + amount]
  }

  ghost predicate Knows(m: Balances, keys: seq<Pubkey>) {
    forall x :: x in keys ==> x in m
  }

  /** One transaction moves the same amount to each payee in turn. */
  function Pay(m: Balances, t: Transfer, n: nat): (r: Balances)
    requires t.payer in m && Knows(m, t.payees) && n <= |t.payees|
    ensures r.Keys == m.Keys
  {
    if n == 0 then m else Move(Pay(m, t, n - 1), t.payer, t.payees[n - 1], t.amount)
  }

  ghost predicate IsTransfer(t: Transfer) {
    NoDuplicates(t.payees) && t.payer !in t.payees
  }

  lemma {:induction false} PayAt(m: Balances, t: Transfer, n: nat, x: Pubkey)
    requires t.payer in m && Knows(m, t.payees) && n <= |t.payees| && IsTransfer(t) && x in m
    ensures x == t.payer ==> Pay(m, t, n)[x] == m[x] - n * t.amount
    ensures x != t.payer ==> Pay(m, t, n)[x] == m[x] + if x in t.payees[..n] then t.amount else 0
  {
    if n > 0 {
      PayAt(m, t, n - 1, x);
      NextPayee(t.payees, n, x);
      assert n * t.amount == (n - 1) * t.amount + t.amount;
    }
  }

  lemma NextPayee(payees: seq<Pubkey>, n: nat, x: Pubkey)
    requires NoDuplicates(payees) && 0 < n <= |payees|
    ensures x in payees[..n] <==> x in payees[..n - 1] || x == payees[n - 1]
    ensures payees[n - 1] !in payees[..n - 1] && payees[n - 1] in payees
  {
    assert payees[..n] == payees[..n - 1] + [payees[n - 1]];
  }

  function Total(m: Balances, keys: seq<Pubkey>): int
    requires forall x :: x in keys ==> x in m
  {
    if keys == [] then 0 else Total(m, keys[..|keys| - 1]) + m[keys[|keys| - 1]]
  }

  lemma {:induction false} TotalUpdate(m: Balances, keys: seq<Pubkey>, x: Pubkey, v: int)
    requires Knows(m, keys) && NoDuplicates(keys) && x in m
    ensures Total(m[x := v], keys) == Total(m, keys) + if x in keys then v - m[x] else 0
  {
    if keys != [] {
      TotalUpdate(m, keys[..|keys| - 1], x, v);
      Snoc(keys);
    }
  }

  /** No transfer between two of the parties changes what they have together. */
  lemma {:induction false} PayKeepsTotal(m: Balances, t: Transfer, n: nat, keys: seq<Pubkey>)
    requires Knows(m, keys) && NoDuplicates(keys)
    requires t.payer in keys && (forall x :: x in t.payees ==> x in keys) && n <= |t.payees|
    ensures Total(Pay(m, t, n), keys) == Total(m, keys)
  {
    if n > 0 {
      PayKeepsTotal(m, t, n - 1, keys);
      var m1 := Pay(m, t, n - 1);
      var paid := m1[t.payer := m1[t.payer] - t.amount];
      TotalUpdate(m1, keys, t.payer, m1[t.payer] - t.amount);
      TotalUpdate(paid, keys, t.payees[n - 1], paid[t.payees[n - 1]] + t.amount);
    }
  }

  // ---- The pigeonhole ----

  lemma {:induction false} SomeoneHasMore(m: Balances, keys: seq<Pubkey>, share: nat) returns (x: Pubkey)
    requires Knows(m, keys) && Total(m, keys) > |keys| * share
    ensures x in keys && m[x] > share
  {
    var rest, last := keys[..|keys| - 1], keys[|keys| - 1];
    assert |keys| * share == |rest| * share + share;
    if m[last] > share {
      x := last;
    } else {
      x := SomeoneHasMore(m, rest, share);
    }
  }

  /** If all have `share` on average and one has less, then one has more. */
  lemma {:induction false} Pigeonhole(m: Balances, keys: seq<Pubkey>, share: nat, less: Pubkey) returns (x: Pubkey)
    requires Knows(m, keys) && Total(m, keys) >= |keys| * share && less in keys && m[less] < share
    ensures x in keys && m[x] > share
  {
    var rest, last := keys[..|keys| - 1], keys[|keys| - 1];
    assert |keys| * share == |rest| * share + share;
    if m[last] > share {
      x := last;
    } else if m[last] < share {
      x := SomeoneHasMore(m, rest, share);
    } else {
      x := Pigeonhole(m, rest, share, less);
    }
  }

  /** If all have at least `share`, and no more than that on average, then each has exactly that. */
  lemma {:induction false} EachHasShare(m: Balances, keys: seq<Pubkey>, share: nat, x: Pubkey)
    requires Knows(m, keys) && Total(m, keys) <= |keys| * share && x in keys
    requires forall y :: y in keys ==> m[y] >= share
    ensures m[x] == share
  {
    var rest, last := keys[..|keys| - 1], keys[|keys| - 1];
    assert |keys| * share == |rest| * share + share;
    if m[last] > share || x != last {
      if Total(m, rest) < |rest| * share {
        AtLeastShare(m, rest, share);
      } else if m[last] == share {
        EachHasShare(m, rest, share, x);
      }
    }
  }

  lemma {:induction false} AtLeastShare(m: Balances, keys: seq<Pubkey>, share: nat)
    requires Knows(m, keys) && forall y :: y in keys ==> m[y] >= share
    ensures Total(m, keys) >= |keys| * share
  {
    if keys != [] {
      AtLeastShare(m, keys[..|keys| - 1], share);
    }
  }

  // ---- The books ----

  ghost predicate HasAccount(accounts: seq<Account>, x: Pubkey) {
    exists i :: 0 <= i < |accounts| && accounts[i].key == x
  }

  ghost predicate IsMultiple(b: nat, difs: nat) {
    difs > 0 && b >= difs && b % difs == 0
  }

  ghost predicate AccountAt(
    difs: nat, parties: seq<Pubkey>, tracked: Balances, accounts: seq<Account>, notfunded: seq<Pubkey>, i: nat)
    requires difs > 0 && i < |accounts|
  {
    && accounts[i].key in parties && accounts[i].key !in notfunded
    && accounts[i].key in tracked && tracked[accounts[i].key] == accounts[i].balance
    && IsMultiple(accounts[i].balance, difs)
  }

  ghost predicate PartyAt(difs: nat, tracked: Balances, accounts: seq<Account>, notfunded: seq<Pubkey>, x: Pubkey) {
    && x in tracked
    && (x in notfunded ==> tracked[x] == 0)
    && (x !in notfunded ==> tracked[x] >= difs)
    && (tracked[x] > difs ==> HasAccount(accounts, x))
  }

  /**
   The parties have `difs` each on average. Those not funded yet have nothing, the others a positive multiple of
   `difs`, and whoever has more than `difs` is among the accounts to pay from.
   */
  ghost predicate Sound(
    difs: nat, parties: seq<Pubkey>, tracked: Balances, accounts: seq<Account>, notfunded: seq<Pubkey>)
    requires difs > 0
  {
    && NoDuplicates(parties) && NoDuplicates(notfunded) && (forall x :: x in notfunded ==> x in parties)
    && Knows(tracked, parties) && Total(tracked, parties) == |parties| * difs
    && (forall x :: x in parties ==> PartyAt(difs, tracked, accounts, notfunded, x))
    && (forall i: nat :: i < |accounts| ==> AccountAt(difs, parties, tracked, accounts, notfunded, i))
    && DistinctAccounts(accounts)
  }

  ghost predicate DistinctAccounts(accounts: seq<Account>) {
    forall i, j :: 0 <= i < j < |accounts| ==> accounts[i].key != accounts[j].key
  }

  /** While a key is not funded some account has more than its share. */
  lemma SomeoneCanPay(
    difs: nat, parties: seq<Pubkey>, tracked: Balances, accounts: seq<Account>, notfunded: seq<Pubkey>)
    requires difs > 0 && Sound(difs, parties, tracked, accounts, notfunded) && notfunded != []
    ensures accounts != []
  {
    assert notfunded[0] in notfunded;
    assert PartyAt(difs, tracked, accounts, notfunded, notfunded[0]);
    var x := Pigeonhole(tracked, parties, difs, notfunded[0]);
    assert PartyAt(difs, tracked, accounts, notfunded, x);
  }

  /** Once all keys are funded, everyone has exactly `difs`. */
  lemma AllHaveShare(difs: nat, parties: seq<Pubkey>, tracked: Balances, accounts: seq<Account>, x: Pubkey)
    requires difs > 0 && Sound(difs, parties, tracked, accounts, []) && x in parties
    ensures tracked[x] == difs
  {
    forall y | y in parties ensures tracked[y] >= difs {
      assert PartyAt(difs, tracked, accounts, [], y);
    }
    EachHasShare(tracked, parties, difs, x);
  }

  /** An account that has no more than `difs` is not needed any more. */
  lemma DropAccount(
    difs: nat, parties: seq<Pubkey>, tracked: Balances, accounts: seq<Account>, notfunded: seq<Pubkey>, i: nat)
    requires difs > 0 && Sound(difs, parties, tracked, accounts, notfunded)
    requires i < |accounts| && accounts[i].balance <= difs
    ensures Sound(difs, parties, tracked, accounts[..i] + accounts[i + 1..], notfunded)
  {
    var rest := accounts[..i] + accounts[i + 1..];
    forall j: nat | j < |rest| ensures AccountAt(difs, parties, tracked, rest, notfunded, j) {
      assert AccountAt(difs, parties, tracked, accounts, notfunded, if j < i then j else j + 1);
    }
    forall x | x in parties ensures PartyAt(difs, tracked, rest, notfunded, x) {
      assert PartyAt(difs, tracked, accounts, notfunded, x);
      if tracked[x] > difs {
        var j :| 0 <= j < |accounts| && accounts[j].key == x;
        assert AccountAt(difs, parties, tracked, accounts, notfunded, j);
        assert rest[if j < i then j else j - 1].key == x;
      }
    }
  }

  // ---- One payment ----

  /** What each of `m` payees gets from an account, in whole multiples of `difs`. */
  function PerUnit(b: nat, difs: nat, m: nat): nat
    requires difs > 0 && b >= difs && m > 0
  {
    Times(Quotient(Quotient(b - difs, difs), m), difs)
  }

  /** Splitting what an account has above `difs` over `m` payees leaves whole multiples of `difs` everywhere. */
  lemma SplitUnits(b: nat, difs: nat, m: nat, perUnit: nat)
    requires difs > 0 && b >= difs && b % difs == 0 && 1 <= m <= (b - difs) / difs
    requires perUnit == PerUnit(b, difs, m)
    ensures perUnit >= difs && perUnit % difs == 0
    ensures b - m * perUnit >= difs && (b - m * perUnit) % difs == 0
  {
    var k := (b - difs) / difs;
    var q := k / m;
    assert b / difs * difs == b;
    assert k + 1 == b / difs by {
      DivModUnique(b - difs, difs, b / difs - 1, 0);
    }
    assert q >= 1 by {
      DivModUnique(k, m, k / m, k % m);
    }
    assert q * difs >= difs by {
      MulMonotone(1, q, difs);
    }
    DivModUnique(perUnit, difs, q, 0);
    var left := k + 1 - m * q;
    assert m * q <= k;
    assert b - m * perUnit == left * difs by {
      assert m * (q * difs) == (m * q) * difs;
      assert (k + 1) * difs - (m * q) * difs == left * difs;
    }
    MulMonotone(1, left, difs);
    DivModUnique(b - m * perUnit, difs, left, 0);
  }

  function Funded(payees: seq<Pubkey>, amount: nat): (r: seq<Account>)
    ensures |r| == |payees| && forall i :: 0 <= i < |r| ==> r[i] == Account(payees[i], amount)
  {
    seq(|payees|, i requires 0 <= i < |payees| => Account(payees[i], amount))
  }

  lemma PayeesAreNotFunded(notfunded: seq<Pubkey>, m: nat, payees: seq<Pubkey>, left: seq<Pubkey>)
    requires NoDuplicates(notfunded) && m <= |notfunded|
    requires left == notfunded[..|notfunded| - m] && payees == notfunded[|notfunded| - m..]
    ensures NoDuplicates(payees) && NoDuplicates(left) && |payees| == m
    ensures forall x :: x in notfunded <==> x in payees || x in left
    ensures forall x :: x in payees ==> x !in left
  {
    assert notfunded == left + payees;
  }

  /** The books before and after a payment that leaves the payer with `rest`. */
  ghost predicate Paid(
    difs: nat, parties: seq<Pubkey>, tracked: Balances, accounts: seq<Account>, notfunded: seq<Pubkey>, i: nat,
    t: Transfer, rest: nat, tracked': Balances, accounts': seq<Account>, left: seq<Pubkey>)
  {
    && i < |accounts| && t.payer == accounts[i].key && IsTransfer(t)
    && t.payer in parties && (forall x :: x in t.payees ==> x in parties)
    && IsMultiple(t.amount, difs) && IsMultiple(rest, difs)
    && NoDuplicates(left) && (forall x :: x in notfunded <==> x in t.payees || x in left)
    && (forall x :: x in t.payees ==> x !in left)
    && accounts' == accounts[i := Account(t.payer, rest)] + Funded(t.payees, t.amount)
    && (forall x :: x in parties ==> PaidAt(tracked, t, rest, tracked', x))
  }

  ghost predicate PaidAt(tracked: Balances, t: Transfer, rest: nat, tracked': Balances, x: Pubkey) {
    && x in tracked && x in tracked'
    && tracked'[x] == if x == t.payer then rest else if x in t.payees then tracked[x] + t.amount else tracked[x]
  }

  lemma PaidAccounts(
    difs: nat, parties: seq<Pubkey>, tracked: Balances, accounts: seq<Account>, notfunded: seq<Pubkey>, i: nat,
    t: Transfer, rest: nat, tracked': Balances, accounts': seq<Account>, left: seq<Pubkey>, j: nat)
    requires difs > 0 && Sound(difs, parties, tracked, accounts, notfunded)
    requires Paid(difs, parties, tracked, accounts, notfunded, i, t, rest, tracked', accounts', left)
    requires j < |accounts'|
    ensures AccountAt(difs, parties, tracked', accounts', left, j)
  {
    if j < |accounts| {
      assert AccountAt(difs, parties, tracked, accounts, notfunded, j);
      assert PaidAt(tracked, t, rest, tracked', accounts[j].key);
    } else {
      var x := t.payees[j - |accounts|];
      assert accounts'[j] == Account(x, t.amount);
      assert PartyAt(difs, tracked, accounts, notfunded, x);
      assert PaidAt(tracked, t, rest, tracked', x);
    }
  }

  lemma PaidParties(
    difs: nat, parties: seq<Pubkey>, tracked: Balances, accounts: seq<Account>, notfunded: seq<Pubkey>, i: nat,
    t: Transfer, rest: nat, tracked': Balances, accounts': seq<Account>, left: seq<Pubkey>, x: Pubkey)
    requires difs > 0 && Sound(difs, parties, tracked, accounts, notfunded)
    requires Paid(difs, parties, tracked, accounts, notfunded, i, t, rest, tracked', accounts', left)
    requires x in parties
    ensures PartyAt(difs, tracked', accounts', left, x)
  {
    assert PartyAt(difs, tracked, accounts, notfunded, x);
    assert PaidAt(tracked, t, rest, tracked', x);
    if x in t.payees {
      var j :| 0 <= j < |t.payees| && t.payees[j] == x;
      assert accounts'[|accounts| + j].key == x;
    } else if x == t.payer {
      assert AccountAt(difs, parties, tracked, accounts, notfunded, i);
      assert accounts'[i].key == x;
    } else if HasAccount(accounts, x) {
      var j :| 0 <= j < |accounts| && accounts[j].key == x;
      assert accounts'[j].key == x;
    }
  }

  lemma PaidAreDistinct(
    difs: nat, parties: seq<Pubkey>, tracked: Balances, accounts: seq<Account>, notfunded: seq<Pubkey>, i: nat,
    t: Transfer, rest: nat, tracked': Balances, accounts': seq<Account>, left: seq<Pubkey>)
    requires difs > 0 && Sound(difs, parties, tracked, accounts, notfunded)
    requires Paid(difs, parties, tracked, accounts, notfunded, i, t, rest, tracked', accounts', left)
    ensures DistinctAccounts(accounts')
  {
    forall j, k | 0 <= j < k < |accounts'| ensures accounts'[j].key != accounts'[k].key {
      if j < |accounts| {
        assert AccountAt(difs, parties, tracked, accounts, notfunded, j);
        assert accounts'[j].key == accounts[j].key;
      }
      assert k >= |accounts| ==> accounts'[k].key == t.payees[k - |accounts|];
    }
  }

  /** A payment keeps the books sound; in particular it keeps the total. */
  lemma PaymentIsSound(
    difs: nat, parties: seq<Pubkey>, tracked: Balances, accounts: seq<Account>, notfunded: seq<Pubkey>, i: nat,
    t: Transfer, rest: nat, tracked': Balances, accounts': seq<Account>, left: seq<Pubkey>)
    requires difs > 0 && Sound(difs, parties, tracked, accounts, notfunded)
    requires Paid(difs, parties, tracked, accounts, notfunded, i, t, rest, tracked', accounts', left)
    requires t.payer in tracked && Knows(tracked, t.payees) && tracked' == Pay(tracked, t, |t.payees|)
    ensures Sound(difs, parties, tracked', accounts', left)
  {
    PayKeepsTotal(tracked, t, |t.payees|, parties);
    PaidAreDistinct(difs, parties, tracked, accounts, notfunded, i, t, rest, tracked', accounts', left);
    forall j: nat | j < |accounts'| ensures AccountAt(difs, parties, tracked', accounts', left, j) {
      PaidAccounts(difs, parties, tracked, accounts, notfunded, i, t, rest, tracked', accounts', left, j);
    }
    forall x | x in parties ensures PartyAt(difs, tracked', accounts', left, x) {
      PaidParties(difs, parties, tracked, accounts, notfunded, i, t, rest, tracked', accounts', left, x);
    }
  }

  // ---- Rounds ----

  /** The balances on the chain after a series of transactions, each of which its payer can afford. */
  ghost predicate CanPay(m: Balances, t: Transfer) {
    && IsTransfer(t) && t.payer in m && Knows(m, t.payees)
    && m[t.payer] >= |t.payees| * t.amount
  }

  ghost predicate Affordable(m: Balances, ts: seq<Transfer>)
    decreases |ts|, 0
  {
    ts == [] || (Affordable(m, ts[..|ts| - 1]) && CanPay(PayAll(m, ts[..|ts| - 1]), ts[|ts| - 1]))
  }

  ghost function PayAll(m: Balances, ts: seq<Transfer>): (r: Balances)
    requires Affordable(m, ts)
    ensures r.Keys == m.Keys
    decreases |ts|, 1
  {
    if ts == [] then m
    else Pay(PayAll(m, ts[..|ts| - 1]), ts[|ts| - 1], |ts[|ts| - 1].payees|)
  }

  lemma OneMorePaid(m: Balances, ts: seq<Transfer>, t: Transfer)
    requires Affordable(m, ts) && CanPay(PayAll(m, ts), t)
    ensures Affordable(m, ts + [t]) && PayAll(m, ts + [t]) == Pay(PayAll(m, ts), t, |t.payees|)
  {
    assert (ts + [t])[..|ts|] == ts;
  }

  /** The chain holds what is tracked on top of what each account had beside it. */
  ghost predicate Follows(balances: Balances, beside: Balances, tracked: Balances) {
    && tracked.Keys <= balances.Keys == beside.Keys
    && forall x :: x in balances ==> FollowsAt(balances, beside, tracked, x)
  }

  ghost predicate FollowsAt(balances: Balances, beside: Balances, tracked: Balances, x: Pubkey) {
    && x in balances && x in beside && beside[x] >= 0
    && balances[x] == beside[x] + if x in tracked then tracked[x] else 0
  }

  lemma PayAtAll(m: Balances, t: Transfer, x: Pubkey)
    requires t.payer in m && Knows(m, t.payees) && IsTransfer(t) && x in m
    ensures Pay(m, t, |t.payees|)[x] ==
            if x == t.payer then m[x] - |t.payees| * t.amount else if x in t.payees then m[x] + t.amount else m[x]
  {
    PayAt(m, t, |t.payees|, x);
    assert t.payees[..|t.payees|] == t.payees;
  }

  lemma PayFollows(
    balances: Balances, beside: Balances, tracked: Balances, t: Transfer, balances': Balances, tracked': Balances)
    requires Follows(balances, beside, tracked) && CanPay(tracked, t)
    requires t.payer in balances && Knows(balances, t.payees)
    requires balances' == Pay(balances, t, |t.payees|) && tracked' == Pay(tracked, t, |t.payees|)
    ensures CanPay(balances, t) && Follows(balances', beside, tracked')
  {
    assert FollowsAt(balances, beside, tracked, t.payer);
    forall x | x in balances' ensures FollowsAt(balances', beside, tracked', x) {
      assert FollowsAt(balances, beside, tracked, x);
      PayAtAll(balances, t, x);
      if x in tracked {
        PayAtAll(tracked, t, x);
      }
    }
  }

  /** Whatever the books can afford the chain can afford, with the same effect. */
  lemma {:induction false} PayAllFollows(balances: Balances, beside: Balances, tracked: Balances, ts: seq<Transfer>)
    requires Follows(balances, beside, tracked) && Affordable(tracked, ts)
    ensures Affordable(balances, ts) && Follows(PayAll(balances, ts), beside, PayAll(tracked, ts))
  {
    if ts != [] {
      var before, t := ts[..|ts| - 1], ts[|ts| - 1];
      PayAllFollows(balances, beside, tracked, before);
      var balances1, tracked1 := PayAll(balances, before), PayAll(tracked, before);
      PayFollows(balances1, beside, tracked1, t, Pay(balances1, t, |t.payees|), PayAll(tracked, ts));
    }
  }

  /** The last `m` keys that are not funded yet each get an equal share of what the account has above `difs`. */
  lemma PlanPayment(
    difs: nat, parties: seq<Pubkey>, tracked: Balances, accounts: seq<Account>, notfunded: seq<Pubkey>, i: nat,
    m: nat, t: Transfer, rest: int, accounts': seq<Account>, left: seq<Pubkey>)
    requires difs > 0 && Sound(difs, parties, tracked, accounts, notfunded)
    requires i < |accounts| && 1 <= m <= |notfunded| && m <= (accounts[i].balance - difs) / difs
    requires t == Transfer(accounts[i].key, notfunded[|notfunded| - m..], PerUnit(accounts[i].balance, difs, m))
    requires left == notfunded[..|notfunded| - m] && rest == accounts[i].balance - m * t.amount
    requires rest >= 0 ==> accounts' == accounts[i := Account(t.payer, rest)] + Funded(t.payees, t.amount)
    ensures rest >= 0 && CanPay(tracked, t)
    ensures Sound(difs, parties, Pay(tracked, t, m), accounts', left)
  {
    assert AccountAt(difs, parties, tracked, accounts, notfunded, i);
    SplitUnits(accounts[i].balance, difs, m, t.amount);
    PayeesAreNotFunded(notfunded, m, t.payees, left);
    PaidBooks(difs, parties, tracked, accounts, notfunded, i, t, rest, accounts', left);
  }

  lemma PaidBooks(
    difs: nat, parties: seq<Pubkey>, tracked: Balances, accounts: seq<Account>, notfunded: seq<Pubkey>, i: nat,
    t: Transfer, rest: nat, accounts': seq<Account>, left: seq<Pubkey>)
    requires difs > 0 && Sound(difs, parties, tracked, accounts, notfunded)
    requires i < |accounts| && t.payer == accounts[i].key && NoDuplicates(t.payees)
    requires IsMultiple(t.amount, difs) && IsMultiple(rest, difs) && rest == accounts[i].balance - |t.payees| * t.amount
    requires NoDuplicates(left) && (forall x :: x in notfunded <==> x in t.payees || x in left)
    requires forall x :: x in t.payees ==> x !in left
    requires accounts' == accounts[i := Account(t.payer, rest)] + Funded(t.payees, t.amount)
    ensures CanPay(tracked, t) && Sound(difs, parties, Pay(tracked, t, |t.payees|), accounts', left)
  {
    assert AccountAt(difs, parties, tracked, accounts, notfunded, i);
    var tracked' := Pay(tracked, t, |t.payees|);
    forall x | x in parties ensures PaidAt(tracked, t, rest, tracked', x) {
      PayAtAll(tracked, t, x);
    }
    PaymentIsSound(difs, parties, tracked, accounts, notfunded, i, t, rest, tracked', accounts', left);
  }

  lemma MoreThanOneUnit(b: nat, difs: nat)
    requires IsMultiple(b, difs) && b > difs
    ensures (b - difs) / difs >= 1
  {
    if b - difs < difs {
      DivModUnique(b, difs, 1, b - difs);
    } else {
      DivModUnique(b - difs, difs, (b - difs) / difs, (b - difs) % difs);
      if (b - difs) / difs <= 0 {
        MulMonotone((b - difs) / difs, 0, difs);
      }
    }
  }

  /** The state of a round: what it pays leads from the books before it to the books as they are now. */
  ghost predicate Planning(
    difs: nat, parties: seq<Pubkey>, tracked: Balances, toFund: seq<Transfer>, accounts: seq<Account>,
    notfunded: seq<Pubkey>)
  {
    difs > 0 && Affordable(tracked, toFund) && Sound(difs, parties, PayAll(tracked, toFund), accounts, notfunded)
  }

  ghost predicate PlannedPayment(
    difs: nat, parties: seq<Pubkey>, tracked: Balances, toFund: seq<Transfer>, accounts: seq<Account>, i: nat,
    t: Transfer, rest: nat, left: seq<Pubkey>)
    requires i < |accounts|
  {
    Planning(
      difs, parties, tracked, toFund + [t], accounts[i := Account(t.payer, rest)] + Funded(t.payees, t.amount), left)
  }

  lemma PlanStep(
    difs: nat, parties: seq<Pubkey>, tracked: Balances, toFund: seq<Transfer>, accounts: seq<Account>,
    notfunded: seq<Pubkey>, i: nat, m: nat, t: Transfer, rest: int, left: seq<Pubkey>)
    requires Planning(difs, parties, tracked, toFund, accounts, notfunded)
    requires i < |accounts| && 1 <= m <= |notfunded| && m <= (accounts[i].balance - difs) / difs
    requires t == Transfer(accounts[i].key, notfunded[|notfunded| - m..], PerUnit(accounts[i].balance, difs, m))
    requires left == notfunded[..|notfunded| - m] && rest == accounts[i].balance - m * t.amount
    ensures rest >= 0 && PlannedPayment(difs, parties, tracked, toFund, accounts, i, t, rest, left)
    ensures IsTransfer(t) && t.payer in tracked && Knows(tracked, t.payees) && |t.payees| == m
  {
    var accounts' := if rest >= 0 then accounts[i := Account(t.payer, rest)] + Funded(t.payees, t.amount) else [];
    PlanPayment(difs, parties, PayAll(tracked, toFund), accounts, notfunded, i, m, t, rest, accounts', left);
    OneMorePaid(tracked, toFund, t);
  }

  /** How many keys an account pays. */
  function MaxUnits(b: nat, difs: nat, keys: nat): nat
    requires difs > 0 && b >= difs
  {
    Min(Min(keys, MAX_TRANSFERS_PER_TX), (b - difs) / difs)
  }

  lemma MaxUnitsIsSome(b: nat, difs: nat, keys: nat)
    requires IsMultiple(b, difs)
    ensures MaxUnits(b, difs, keys) == 0 <==> keys == 0 || b == difs
  {
    if b > difs {
      MoreThanOneUnit(b, difs);
    }
  }

  /** A funded account pays as many of the keys that are not funded yet as it can, up to four. */
  method PayFrom(
    difs: nat, f: Account, notfunded: seq<Pubkey>, ghost parties: seq<Pubkey>, ghost tracked: Balances,
    ghost toFund: seq<Transfer>, ghost accounts: seq<Account>, ghost i: nat)
    returns (payment: Option<Transfer>, rest: nat, left: seq<Pubkey>)
    requires Planning(difs, parties, tracked, toFund, accounts, notfunded) && i < |accounts| && accounts[i] == f
    requires f.key in tracked && tracked[f.key] == f.balance
    ensures f.balance > difs && notfunded != [] ==> payment.Some?
    ensures payment.None? ==> rest == f.balance && left == notfunded && (notfunded == [] || f.balance == difs)
    ensures payment.Some? ==>
              var m, units := |payment.value.payees|, (f.balance - difs) / difs;
              && 1 <= m <= |notfunded| && m <= units && (m == |notfunded| || m == units || m == MAX_TRANSFERS_PER_TX)
              && left == notfunded[..|notfunded| - m] && payment.value.payees == notfunded[|notfunded| - m..]
              && payment.value.amount == Times(units / m, difs)
              && rest == f.balance - Times(m, payment.value.amount)
    ensures payment.Some? ==>
              && payment.value.payer == f.key && |left| < |notfunded|
              && 1 <= |payment.value.payees| <= MAX_TRANSFERS_PER_TX && CanPay(tracked, payment.value)
              && PlannedPayment(difs, parties, tracked, toFund, accounts, i, payment.value, rest, left)
  {
    assert AccountAt(difs, parties, PayAll(tracked, toFund), accounts, notfunded, i);
    var maxUnits := MaxUnits(f.balance, difs, |notfunded|);
    MaxUnitsIsSome(f.balance, difs, |notfunded|);
    if maxUnits == 0 {
      return None, f.balance, notfunded;
    }
    var start := |notfunded| - maxUnits;
    var t := Transfer(f.key, notfunded[start..], PerUnit(f.balance, difs, maxUnits));
    left := notfunded[..start];
    PlanStep(
      difs, parties, tracked, toFund, accounts, notfunded, i, maxUnits, t, f.balance - maxUnits * t.amount, left);
    rest := f.balance - maxUnits * t.amount;
    payment := Some(t);
  }

  method PayNext(
    difs: nat, f: Account, notfunded: seq<Pubkey>, ghost parties: seq<Pubkey>, ghost tracked: Balances,
    ghost toFund: seq<Transfer>, ghost accounts: seq<Account>, ghost i: nat)
    returns (payment: Option<Transfer>, rest: nat, left: seq<Pubkey>)
    requires Planning(difs, parties, tracked, toFund, accounts, notfunded) && i < |accounts| && accounts[i] == f
    requires f.key in tracked && tracked[f.key] == f.balance
    ensures f.balance > difs && notfunded != [] ==> payment.Some?
    ensures payment.None? ==> rest == f.balance && left == notfunded
    ensures payment.Some? ==>
              && payment.value.payer == f.key && |left| < |notfunded|
              && 1 <= |payment.value.payees| <= MAX_TRANSFERS_PER_TX && CanPay(tracked, payment.value)
              && PlannedPayment(difs, parties, tracked, toFund, accounts, i, payment.value, rest, left)
  {
    payment, rest, left := PayFrom(difs, f, notfunded, parties, tracked, toFund, accounts, i);
  }

  lemma UpdateOfConcat(a: seq<Account>, b: seq<Account>, i: nat, x: Account, c: seq<Account>)
    requires i < |a|
    ensures (a + b)[i := x] + c == a[i := x] + (b + c)
  {
  }

  /** Transfers that can be confirmed in any order: everyone can pay from the start and pays at most once. */
  ghost predicate Payable(m: Balances, ts: seq<Transfer>) {
    && (forall i :: 0 <= i < |ts| ==> CanPay(m, ts[i]))
    && (forall i, j :: 0 <= i < j < |ts| ==> ts[i].payer != ts[j].payer)
  }

  ghost predicate PayerBefore(accounts: seq<Account>, i: nat, t: Transfer) {
    exists a :: 0 <= a < i && a < |accounts| && accounts[a].key == t.payer
  }

  ghost predicate PaidBefore(accounts: seq<Account>, i: nat, tracked: Balances, ts: seq<Transfer>) {
    && Payable(tracked, ts)
    && forall t :: t in ts ==> PayerBefore(accounts, i, t) && 1 <= |t.payees| <= MAX_TRANSFERS_PER_TX
  }

  lemma PaidNext(accounts: seq<Account>, i: nat, tracked: Balances, ts: seq<Transfer>, t: Transfer)
    requires PaidBefore(accounts, i, tracked, ts) && DistinctAccounts(accounts) && i < |accounts|
    requires t.payer == accounts[i].key && CanPay(tracked, t) && 1 <= |t.payees| <= MAX_TRANSFERS_PER_TX
    ensures PaidBefore(accounts, i + 1, tracked, ts + [t])
  {
    forall j | 0 <= j < |ts| ensures ts[j].payer != t.payer {
      assert PayerBefore(accounts, i, ts[j]);
    }
    forall u | u in ts + [t] ensures PayerBefore(accounts, i + 1, u) {
      assert u in ts ==> PayerBefore(accounts, i, u);
    }
  }

  lemma NobodyPaid(accounts: seq<Account>, i: nat, tracked: Balances, ts: seq<Transfer>)
    requires PaidBefore(accounts, i, tracked, ts)
    ensures PaidBefore(accounts, i + 1, tracked, ts)
  {
    forall u | u in ts ensures PayerBefore(accounts, i + 1, u) {
      assert PayerBefore(accounts, i, u);
    }
  }

  /** One round of payments from every funded account. */
  method PlanRound(
    difs: nat, funded0: seq<Account>, notfunded0: seq<Pubkey>, ghost parties: seq<Pubkey>, ghost tracked: Balances)
    returns (funded: seq<Account>, newFunded: seq<Account>, notfunded: seq<Pubkey>, toFund: seq<Transfer>)
    requires Planning(difs, parties, tracked, [], funded0, notfunded0)
    requires notfunded0 != [] && funded0 != [] && funded0[0].balance > difs
    ensures Planning(difs, parties, tracked, toFund, funded + newFunded, notfunded) && Payable(tracked, toFund)
    ensures |notfunded| < |notfunded0|
    ensures forall t :: t in toFund ==> 1 <= |t.payees| <= MAX_TRANSFERS_PER_TX
  {
    funded, newFunded, notfunded, toFund := funded0, [], notfunded0, [];
    assert funded + newFunded == funded;
    for i := 0 to |funded0|
      invariant |funded| == |funded0| && funded[i..] == funded0[i..] && PaidBefore(funded0, i, tracked, toFund)
      invariant Planning(difs, parties, tracked, toFund, funded + newFunded, notfunded)
      invariant if i == 0 then notfunded == notfunded0 else |notfunded| < |notfunded0|
    {
      assert funded[i] == funded[i..][0] == funded0[i];
      assert AccountAt(difs, parties, tracked, funded0, notfunded0, i);
      var payment, rest, left := PayNext(difs, funded[i], notfunded, parties, tracked, toFund, funded + newFunded, i);
      assert funded[i..][1..] == funded[i + 1..] && funded0[i..][1..] == funded0[i + 1..];
      if payment.None? {
        NobodyPaid(funded0, i, tracked, toFund);
        continue;
      }
      PaidNext(funded0, i, tracked, toFund, payment.value);
      var f, added := Account(funded[i].key, rest), Funded(payment.value.payees, payment.value.amount);
      UpdateOfConcat(funded, newFunded, i, f, added);
      funded, newFunded := funded[i := f], newFunded + added;
      notfunded, toFund := left, toFund + [payment.value];
    }
  }

  // ---- The order of confirmation ----

  /** What a transfer does to an account. */
  ghost function Net(t: Transfer, x: Pubkey): int {
    if x == t.payer then -(|t.payees| * t.amount) else if x in t.payees then t.amount else 0
  }

  ghost function NetAll(ts: seq<Transfer>, x: Pubkey): int {
    if ts == [] then 0 else NetAll(ts[..|ts| - 1], x) + Net(ts[|ts| - 1], x)
  }

  lemma {:induction false} PayAllAt(m: Balances, ts: seq<Transfer>, x: Pubkey)
    requires Affordable(m, ts) && x in m
    ensures PayAll(m, ts)[x] == m[x] + NetAll(ts, x)
  {
    if ts != [] {
      PayAllAt(m, ts[..|ts| - 1], x);
      PayAtAll(PayAll(m, ts[..|ts| - 1]), ts[|ts| - 1], x);
    }
  }

  lemma {:induction false} NetAllConcat(a: seq<Transfer>, b: seq<Transfer>, x: Pubkey)
    ensures NetAll(a + b, x) == NetAll(a, x) + NetAll(b, x)
  {
    if b == [] {
      assert a + b == a;
    } else {
      NetAllConcat(a, b[..|b| - 1], x);
      assert (a + b)[..|a + b| - 1] == a + b[..|b| - 1];
    }
  }

  /** Moving one of the transfers still to be confirmed to the front of them changes nothing. */
  lemma NetOfNext(done: seq<Transfer>, left: seq<Transfer>, i: nat, x: Pubkey)
    requires i < |left|
    ensures NetAll(done + [left[i]] + (left[..i] + left[i + 1..]), x) == NetAll(done + left, x)
  {
    var t, a, b := [left[i]], left[..i], left[i + 1..];
    assert left == a + t + b;
    NetAllConcat(done + t, a + b, x);
    NetAllConcat(done, t, x);
    NetAllConcat(a, b, x);
    NetAllConcat(done, left, x);
    NetAllConcat(a + t, b, x);
    NetAllConcat(a, t, x);
  }

  lemma PayableNext(m: Balances, done: seq<Transfer>, left: seq<Transfer>, i: nat)
    requires i < |left| && Payable(m, done + left)
    ensures Payable(m, done + [left[i]] + (left[..i] + left[i + 1..]))
  {
    var was, now := done + left, done + [left[i]] + (left[..i] + left[i + 1..]);
    var n := |done|;
    assert forall j :: 0 <= j < |now| ==> now[j] == was[PlaceBefore(n, i, j)];
    forall j, k | 0 <= j < k < |now| ensures now[j].payer != now[k].payer {
      var a, b := PlaceBefore(n, i, j), PlaceBefore(n, i, k);
      assert a != b;
      assert if a < b then was[a].payer != was[b].payer else was[b].payer != was[a].payer;
    }
  }

  /** Where the transfer at place `j` was before the one at place `n + i` was moved to place `n`. */
  function PlaceBefore(n: nat, i: nat, j: nat): nat {
    if j < n then j else if j == n then n + i else if j <= n + i then j - 1 else j
  }

  lemma {:induction false} NobodyElsePays(ts: seq<Transfer>, x: Pubkey)
    requires forall i :: 0 <= i < |ts| ==> ts[i].payer != x
    ensures NetAll(ts, x) >= 0
  {
    if ts != [] {
      NobodyElsePays(ts[..|ts| - 1], x);
    }
  }

  /** Whoever can pay from the start can pay whenever it is their turn. */
  lemma CanPayNow(m: Balances, done: seq<Transfer>, rest: seq<Transfer>, t: Transfer)
    requires Payable(m, done + [t] + rest) && Affordable(m, done)
    ensures CanPay(PayAll(m, done), t)
  {
    var all := done + [t] + rest;
    assert all[|done|] == t;
    forall i | 0 <= i < |done| ensures done[i].payer != t.payer {
      assert all[i] == done[i];
    }
    NobodyElsePays(done, t.payer);
    PayAllAt(m, done, t.payer);
  }

  lemma SameNetSamePay(m: Balances, a: seq<Transfer>, b: seq<Transfer>)
    requires Affordable(m, a) && Affordable(m, b) && forall x :: NetAll(a, x) == NetAll(b, x)
    ensures PayAll(m, a) == PayAll(m, b)
  {
    forall x | x in m ensures PayAll(m, a)[x] == PayAll(m, b)[x] {
      PayAllAt(m, a, x);
      PayAllAt(m, b, x);
    }
  }

  /** The chain as the bench sees it, with every transfer it sends confirmed. */
  class Client {
    var balances: Balances

    constructor (balances: Balances)
      ensures this.balances == balances
    {
      this.balances := balances;
    }

    /** The transfers of a round are confirmed in whatever order; each is affordable when its turn comes. */
    method SendTransfers(toFund: seq<Transfer>)
      requires Payable(balances, toFund) && Affordable(balances, toFund)
      modifies this
      ensures balances == PayAll(old(balances), toFund)
    {
      var left := toFund;
      ghost var done, m := [], balances;
      assert [] + toFund == toFund;
      while left != []
        invariant Affordable(m, done) && balances == PayAll(m, done) && Payable(m, done + left)
        invariant forall x :: NetAll(done + left, x) == NetAll(toFund, x)
        decreases |left|
      {
        var i: nat :| i < |left|;
        var t, rest := left[i], left[..i] + left[i + 1..];
        forall x ensures NetAll(done + [t] + rest, x) == NetAll(toFund, x) {
          NetOfNext(done, left, i, x);
        }
        PayableNext(m, done, left, i);
        CanPayNow(m, done, rest, t);
        OneMorePaid(m, done, t);
        balances := Pay(balances, t, |t.payees|);
        left, done := rest, done + [t];
      }
      assert done + left == done;
      SameNetSamePay(m, done, toFund);
    }

    /** Keeps the accounts that have something left to give, both on the chain and in the books. */
    method Retain(accounts: seq<Account>, difs: nat, ghost parties: seq<Pubkey>, ghost tracked: Balances,
                  ghost notfunded: seq<Pubkey>, ghost beside: Balances)
      returns (kept: seq<Account>)
      requires difs > 0 && Sound(difs, parties, tracked, accounts, notfunded) && Follows(balances, beside, tracked)
      ensures Sound(difs, parties, tracked, kept, notfunded)
      ensures forall i :: 0 <= i < |kept| ==> kept[i].balance > difs
    {
      kept := [];
      assert [] + accounts[0..] == accounts;
      for i := 0 to |accounts|
        invariant Sound(difs, parties, tracked, kept + accounts[i..], notfunded)
        invariant forall j :: 0 <= j < |kept| ==> kept[j].balance > difs
      {
        ghost var all := kept + accounts[i..];
        NextToRetain(kept, accounts, i);
        assert AccountAt(difs, parties, tracked, all, notfunded, |kept|);
        assert FollowsAt(balances, beside, tracked, accounts[i].key);
        if balances[accounts[i].key] > difs && accounts[i].balance > difs {
          kept := kept + [accounts[i]];
        } else {
          DropAccount(difs, parties, tracked, all, notfunded, |kept|);
        }
      }
      assert kept + accounts[|accounts|..] == kept;
    }

    /**
     Funds every destination with `difs`, out of the source. The loop ends, someone is always there to pay for the
     keys left, and all that changes is that the source has paid `difs` to each destination.
     */
    method FundKeys(source: Pubkey, dests: seq<Pubkey>, difs: nat)
      requires difs > 0 && NoDuplicates(dests) && source !in dests
      requires source in balances && Knows(balances, dests) && forall x :: x in balances ==> balances[x] >= 0
      requires balances[source] >= (|dests| + 1) * difs
      modifies this
      ensures balances.Keys == old(balances).Keys
      ensures balances[source] == old(balances)[source] - |dests| * difs
      ensures forall x :: x in dests ==> balances[x] == old(balances)[x] + difs
      ensures forall x :: x in balances && x != source && x !in dests ==> balances[x] == old(balances)[x]
    {
      var total := difs * (|dests| + 1);
      var funded, notfunded := [Account(source, total)], dests;
      ghost var parties := [source] + dests;
      ghost var tracked := FirstTracked(parties, source, total);
      ghost var beside := FirstBeside(balances, source, total);
      FirstBooks(difs, source, dests, total, parties, tracked);
      FirstFollows(balances, parties, source, total);
      while notfunded != []
        invariant difs > 0 && Sound(difs, parties, tracked, funded, notfunded) && Follows(balances, beside, tracked)
        invariant notfunded != [] ==> forall i :: 0 <= i < |funded| ==> funded[i].balance > difs
        invariant tracked.Keys == FirstTracked(parties, source, total).Keys
        decreases |notfunded|
      {
        SomeoneCanPay(difs, parties, tracked, funded, notfunded);
        funded, notfunded, tracked := FundRound(difs, funded, notfunded, parties, tracked, beside);
      }
      EveryoneIsFunded(difs, source, dests, total, parties, tracked, funded, old(balances), balances);
    }

    /** A round pays at least one more key, and leaves books and chain in step, with the same total. */
    method FundRound(difs: nat, funded: seq<Account>, notfunded: seq<Pubkey>, ghost parties: seq<Pubkey>,
                     ghost tracked: Balances, ghost beside: Balances)
      returns (kept: seq<Account>, left: seq<Pubkey>, ghost tracked': Balances)
      requires difs > 0 && Sound(difs, parties, tracked, funded, notfunded) && Follows(balances, beside, tracked)
      requires notfunded != [] && funded != [] && funded[0].balance > difs
      modifies this
      ensures Sound(difs, parties, tracked', kept, left) && Follows(balances, beside, tracked')
      ensures |left| < |notfunded| && tracked'.Keys == tracked.Keys
      ensures forall i :: 0 <= i < |kept| ==> kept[i].balance > difs
    {
      var paid, added, rest, toFund := PlanRound(difs, funded, notfunded, parties, tracked);
      left, tracked' := rest, PayAll(tracked, toFund);
      PayAllFollows(balances, beside, tracked, toFund);
      PayableFollows(balances, beside, tracked, toFund);
      SendTransfers(toFund);
      kept := Retain(paid + added, difs, parties, tracked', left, beside);
    }
  }

  lemma NextToRetain(kept: seq<Account>, accounts: seq<Account>, i: nat)
    requires i < |accounts|
    ensures var all := kept + accounts[i..];
            && all[|kept|] == accounts[i] && all == kept + [accounts[i]] + accounts[i + 1..]
            && all[..|kept|] + all[|kept| + 1..] == kept + accounts[i + 1..]
  {
  }

  ghost function FirstTracked(parties: seq<Pubkey>, source: Pubkey, total: nat): Balances {
    map x: Pubkey | x in parties :: if x == source then total else 0
  }

  ghost function FirstBeside(balances: Balances, source: Pubkey, total: nat): Balances {
    map x: Pubkey | x in balances :: if x == source then balances[x] - total else balances[x]
  }

  lemma FirstFollows(balances: Balances, parties: seq<Pubkey>, source: Pubkey, total: nat)
    requires Knows(balances, parties) && source in parties && balances[source] >= total
    requires forall x :: x in balances ==> balances[x] >= 0
    ensures Follows(balances, FirstBeside(balances, source, total), FirstTracked(parties, source, total))
  {
    var beside, tracked := FirstBeside(balances, source, total), FirstTracked(parties, source, total);
    forall x | x in balances ensures FollowsAt(balances, beside, tracked, x) {
    }
  }

  lemma {:induction false} TotalOfFirst(m: Balances, keys: seq<Pubkey>, total: int)
    requires Knows(m, keys) && keys != [] && m[keys[0]] == total && forall i :: 0 < i < |keys| ==> m[keys[i]] == 0
    ensures Total(m, keys) == total
  {
    if |keys| > 1 {
      TotalOfFirst(m, keys[..|keys| - 1], total);
    } else {
      assert keys[..|keys| - 1] == [];
    }
  }

  lemma FirstParties(
    difs: nat, source: Pubkey, dests: seq<Pubkey>, total: nat, parties: seq<Pubkey>, tracked: Balances,
    funded: seq<Account>)
    requires source !in dests && total >= difs > 0
    requires parties == [source] + dests && tracked == FirstTracked(parties, source, total)
    requires funded == [Account(source, total)]
    ensures forall x :: x in parties ==> PartyAt(difs, tracked, funded, dests, x)
  {
    assert funded[0].key == source;
    forall x | x in parties ensures PartyAt(difs, tracked, funded, dests, x) {
    }
  }

  lemma FirstTotal(source: Pubkey, dests: seq<Pubkey>, total: nat, difs: nat, parties: seq<Pubkey>, tracked: Balances)
    requires source !in dests && parties == [source] + dests && tracked == FirstTracked(parties, source, total)
    requires total == difs * (|dests| + 1)
    ensures Knows(tracked, parties) && Total(tracked, parties) == |parties| * difs
  {
    forall i | 0 < i < |parties| ensures tracked[parties[i]] == 0 {
      assert parties[i] in dests;
    }
    TotalOfFirst(tracked, parties, total);
    assert |parties| * difs == difs * (|dests| + 1);
  }

  lemma FirstBooks(difs: nat, source: Pubkey, dests: seq<Pubkey>, total: nat, parties: seq<Pubkey>, tracked: Balances)
    requires difs > 0 && NoDuplicates(dests) && source !in dests && total == difs * (|dests| + 1)
    requires parties == [source] + dests && tracked == FirstTracked(parties, source, total)
    ensures Sound(difs, parties, tracked, [Account(source, total)], dests)
    ensures dests != [] ==> total > difs
  {
    var funded := [Account(source, total)];
    FirstTotal(source, dests, total, difs, parties, tracked);
    FirstAmount(difs, |dests|, total);
    assert AccountAt(difs, parties, tracked, funded, dests, 0);
    FirstParties(difs, source, dests, total, parties, tracked, funded);
  }

  lemma FirstAmount(difs: nat, n: nat, total: nat)
    requires difs > 0 && total == difs * (n + 1)
    ensures IsMultiple(total, difs) && (n > 0 ==> total > difs)
  {
    DivModUnique(total, difs, n + 1, 0);
    MulMonotone(1, n + 1, difs);
    if n > 0 {
      MulMonotone(2, n + 1, difs);
    }
  }

  lemma EveryoneIsFunded(
    difs: nat, source: Pubkey, dests: seq<Pubkey>, total: nat, parties: seq<Pubkey>, tracked: Balances,
    accounts: seq<Account>, before: Balances, after: Balances)
    requires difs > 0 && total == difs * (|dests| + 1) && source !in dests && parties == [source] + dests
    requires Sound(difs, parties, tracked, accounts, []) && Follows(after, FirstBeside(before, source, total), tracked)
    requires source in before && tracked.Keys == FirstTracked(parties, source, total).Keys
    ensures after.Keys == before.Keys && after[source] == before[source] - |dests| * difs
    ensures forall x :: x in dests ==> x in after && after[x] == before[x] + difs
    ensures forall x :: x in after && x != source && x !in dests ==> after[x] == before[x]
  {
    var beside := FirstBeside(before, source, total);
    assert total == |dests| * difs + difs;
    AllHaveShare(difs, parties, tracked, accounts, source);
    assert FollowsAt(after, beside, tracked, source);
    forall x | x in dests ensures x in after && after[x] == before[x] + difs {
      assert x in parties;
      AllHaveShare(difs, parties, tracked, accounts, x);
      assert FollowsAt(after, beside, tracked, x);
    }
    forall x | x in after && x != source && x !in dests ensures after[x] == before[x] {
      assert FollowsAt(after, beside, tracked, x);
    }
  }

  lemma PayableFollows(balances: Balances, beside: Balances, tracked: Balances, ts: seq<Transfer>)
    requires Follows(balances, beside, tracked) && Payable(tracked, ts)
    ensures Payable(balances, ts)
  {
    forall i | 0 <= i < |ts| ensures CanPay(balances, ts[i]) {
      assert CanPay(tracked, ts[i]) && FollowsAt(balances, beside, tracked, ts[i].payer);
    }
  }
}
