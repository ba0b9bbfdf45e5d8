/** The order book of the exchange bench and the loop that takes swaps out of it. */
module OrderBook {
  import opened Common
  import opened Arithmetic

  const SCALER := 1000

  datatype Direction = To | From

  datatype Order = Order(pubkey: Pubkey, direction: Direction, tokens: nat, price: nat)

  /** A trade is refused if no token would change hands. */
  predicate CheckTrade(o: Order)
    requires o.direction.From? ==> o.price > 0
  {
    match o.direction
    case To => Times(o.tokens, o.price) / SCALER != 0
    case From => Times(o.tokens, SCALER) / o.price != 0
  }

  /** An order trades at least one token iff the product of what it gives and asks is large enough. */
  lemma CheckTradeIff(o: Order)
    requires o.direction.From? ==> o.price > 0
    ensures o.direction.To? ==> (CheckTrade(o) <==> Times(o.tokens, o.price) >= SCALER)
    ensures o.direction.From? ==> (CheckTrade(o) <==> Times(o.tokens, SCALER) >= o.price)
  {
    match o.direction
    case To => QuotientIsPositive(Times(o.tokens, o.price), SCALER);
    case From => QuotientIsPositive(Times(o.tokens, SCALER), o.price);
  }

  // ---- Sums of prices ----

  ghost function Prices(m: multiset<Order>): nat
    decreases |m|
  {
    if m == multiset{} then 0 else var o :| o in m; o.price + Prices(m - multiset{o})
  }

  lemma {:induction false} PricesRemove(m: multiset<Order>, o: Order)
    requires o in m
    ensures Prices(m) == o.price + Prices(m - multiset{o})
    decreases |m|
  {
    var x :| x in m && Prices(m) == x.price + Prices(m - multiset{x});
    if x != o {
      PricesRemove(m - multiset{x}, o);
      PricesRemove(m - multiset{o}, x);
      RemoveBoth(m, x, o);
    }
  }

  lemma RemoveBoth(m: multiset<Order>, x: Order, o: Order)
    ensures m - multiset{x} - multiset{o} == m - multiset{o} - multiset{x}
  {
  }

  /** No choice of up to `k` orders from each side gains more than `bound` in price. */
  ghost predicate Bounded(to: multiset<Order>, from: multiset<Order>, k: nat, bound: int) {
    forall a: multiset<Order>, b: multiset<Order> :: GainAtMost(to, from, k, bound, a, b)
  }

  ghost predicate GainAtMost(
    to: multiset<Order>, from: multiset<Order>, k: nat, bound: int, a: multiset<Order>, b: multiset<Order>)
  {
    a <= to && b <= from && |a| == |b| <= k ==> Prices(b) - Prices(a) <= bound
  }

  ghost predicate IsCheapest(m: multiset<Order>, o: Order) {
    o in m && forall x :: x in m ==> o.price <= x.price
  }

  ghost predicate IsDearest(m: multiset<Order>, o: Order) {
    o in m && forall x :: x in m ==> x.price <= o.price
  }

  lemma {:induction false} CheapestExists(m: multiset<Order>) returns (o: Order)
    requires m != multiset{}
    ensures IsCheapest(m, o)
    decreases |m|
  {
    var first :| first in m;
    var rest := m - multiset{first};
    o := first;
    if rest != multiset{} {
      var x := CheapestExists(rest);
      if x.price < o.price {
        o := x;
      }
    }
    forall y | y in m ensures o.price <= y.price {
      assert y == first || y in rest;
    }
  }

  lemma {:induction false} DearestExists(m: multiset<Order>) returns (o: Order)
    requires m != multiset{}
    ensures IsDearest(m, o)
    decreases |m|
  {
    var first :| first in m;
    var rest := m - multiset{first};
    o := first;
    if rest != multiset{} {
      var x := DearestExists(rest);
      if x.price > o.price {
        o := x;
      }
    }
    forall y | y in m ensures y.price <= o.price {
      assert y == first || y in rest;
    }
  }

  /** Any order of a choice can be traded for the best one without losing, which leaves a choice from the rest. */
  lemma TradeCheapest(m: multiset<Order>, t: Order, a: multiset<Order>) returns (a': multiset<Order>)
    requires IsCheapest(m, t) && a <= m && a != multiset{}
    ensures a' <= m - multiset{t} && |a'| == |a| - 1 && Prices(a) >= t.price + Prices(a')
  {
    var x :| x in a;
    x := if t in a then t else x;
    PricesRemove(a, x);
    a' := a - multiset{x};
  }

  lemma TradeDearest(m: multiset<Order>, f: Order, b: multiset<Order>) returns (b': multiset<Order>)
    requires IsDearest(m, f) && b <= m && b != multiset{}
    ensures b' <= m - multiset{f} && |b'| == |b| - 1 && Prices(b) <= f.price + Prices(b')
  {
    var x :| x in b;
    x := if f in b then f else x;
    PricesRemove(b, x);
    b' := b - multiset{x};
  }

  /** Taking the cheapest and the dearest order first loses nothing: a bound on the rest makes a bound on the whole. */
  lemma Exchange(
    to: multiset<Order>, from: multiset<Order>, t: Order, f: Order, to': multiset<Order>, from': multiset<Order>,
    k: nat, bound: nat, total: int)
    requires IsCheapest(to, t) && IsDearest(from, f) && f.price >= t.price && k >= 1
    requires to' == to - multiset{t} && from' == from - multiset{f}
    requires Bounded(to', from', k - 1, bound) && total == f.price - t.price + bound
    ensures Bounded(to, from, k, total)
  {
    forall a: multiset<Order>, b: multiset<Order> ensures GainAtMost(to, from, k, total, a, b) {
      if a <= to && b <= from && |a| == |b| <= k {
        if |a| > 0 {
          var a' := TradeCheapest(to, t, a);
          var b' := TradeDearest(from, f, b);
          assert GainAtMost(to', from', k - 1, bound, a', b');
        } else {
          assert a == multiset{} && b == multiset{};
        }
      }
    }
  }

  /** Where every price asked is above every price offered, no choice gains anything. */
  ghost predicate NoneViable(to: multiset<Order>, from: multiset<Order>) {
    forall t, f :: t in to && f in from ==> f.price < t.price
  }

  lemma {:induction false} NothingToGain(
    to: multiset<Order>, from: multiset<Order>, a: multiset<Order>, b: multiset<Order>)
    requires NoneViable(to, from) && a <= to && b <= from && |a| == |b|
    ensures Prices(b) <= Prices(a)
    decreases |a|
  {
    if |a| > 0 {
      var t :| t in a;
      var f :| f in b;
      PricesRemove(a, t);
      PricesRemove(b, f);
      assert t in to && f in from;
      NothingToGain(to, from, a - multiset{t}, b - multiset{f});
    } else {
      assert a == multiset{} && b == multiset{};
    }
  }

  lemma BoundedByNothing(to: multiset<Order>, from: multiset<Order>, k: nat)
    requires k == 0 || NoneViable(to, from)
    ensures Bounded(to, from, k, 0)
  {
    forall a: multiset<Order>, b: multiset<Order> ensures GainAtMost(to, from, k, 0, a, b) {
      if a <= to && b <= from && |a| == |b| <= k {
        if k == 0 {
          assert a == multiset{} && b == multiset{};
        } else {
          NothingToGain(to, from, a, b);
        }
      }
    }
  }

  // ---- The book ----

  type Pair = (Order, Order)

  function Spread(p: Pair): int {
    p.1.price - p.0.price
  }

  /** What the first `n` swaps gain, and the orders they take from each side. */
  ghost function TotalSpread(swaps: seq<Pair>, n: nat): int
    requires n <= |swaps|
  {
    if n == 0 then 0 else TotalSpread(swaps, n - 1) + Spread(swaps[n - 1])
  }

  ghost function Tos(swaps: seq<Pair>, n: nat): multiset<Order>
    requires n <= |swaps|
  {
    if n == 0 then multiset{} else Tos(swaps, n - 1) + multiset{swaps[n - 1].0}
  }

  ghost function Froms(swaps: seq<Pair>, n: nat): multiset<Order>
    requires n <= |swaps|
  {
    if n == 0 then multiset{} else Froms(swaps, n - 1) + multiset{swaps[n - 1].1}
  }

  /** The two heaps; which of several equally good orders is on top of a heap is left open. */
  class OrderBook {
    var toAb: multiset<Order>
    var fromAb: multiset<Order>

    constructor ()
      ensures toAb == multiset{} && fromAb == multiset{}
    {
      toAb, fromAb := multiset{}, multiset{};
    }

    method Push(o: Order) returns (ok: bool)
      requires o.direction.From? ==> o.price > 0
      modifies this
      ensures ok <==> CheckTrade(o)
      ensures o.direction.To? ==> (ok <==> Times(o.tokens, o.price) >= SCALER)
      ensures o.direction.From? ==> (ok <==> Times(o.tokens, SCALER) >= o.price)
      ensures toAb == old(toAb) + if ok && o.direction.To? then multiset{o} else multiset{}
      ensures fromAb == old(fromAb) + if ok && o.direction.From? then multiset{o} else multiset{}
    {
      ok := CheckTrade(o);
      CheckTradeIff(o);
      if ok {
        match o.direction
        case To => toAb := toAb + multiset{o};
        case From => fromAb := fromAb + multiset{o};
      }
    }

    /** Takes the cheapest and the dearest order out if they can trade. */
    method Pop() returns (pair: Option<Pair>)
      modifies this
      ensures pair.None? ==> NoneViable(toAb, fromAb) && toAb == old(toAb) && fromAb == old(fromAb)
      ensures pair.Some? ==>
                && IsCheapest(old(toAb), pair.value.0) && IsDearest(old(fromAb), pair.value.1)
                && Spread(pair.value) >= 0 && pair.value.0.price <= pair.value.1.price
                && toAb == old(toAb) - multiset{pair.value.0} && fromAb == old(fromAb) - multiset{pair.value.1}
    {
      if toAb == multiset{} || fromAb == multiset{} {
        return None;
      }
      ghost var _ := CheapestExists(toAb);
      ghost var _ := DearestExists(fromAb);
      var to: Order :| to in toAb && forall x :: x in toAb ==> to.price <= x.price;
      var from: Order :| from in fromAb && forall x :: x in fromAb ==> x.price <= from.price;
      if from.price < to.price {
        return None;
      }
      toAb, fromAb := toAb - multiset{to}, fromAb - multiset{from};
      pair := Some((to, from));
    }

    /**
     Takes swaps out until none is viable or a batch is full; even an empty batch takes one. The swaps come
     in order of decreasing spread, and together they gain as much as any choice of no more than a batch could.
     */
    method TakeSwaps(batchSize: nat) returns (swaps: seq<Pair>)
      modifies this
      ensures |swaps| <= Max(batchSize, 1)
      ensures |swaps| < Max(batchSize, 1) ==> NoneViable(toAb, fromAb)
      ensures old(toAb) == toAb + Tos(swaps, |swaps|) && old(fromAb) == fromAb + Froms(swaps, |swaps|)
      ensures Decreasing(swaps)
      ensures Bounded(old(toAb), old(fromAb), Max(batchSize, 1), TotalSpread(swaps, |swaps|))
    {
      swaps := [];
      ghost var books := [Book(toAb, fromAb)];
      while true
        invariant |swaps| < Max(batchSize, 1) && IsRun(books, swaps)
        invariant books[0] == Book(old(toAb), old(fromAb)) && books[|swaps|] == Book(toAb, fromAb)
        decreases Max(batchSize, 1) - |swaps|
      {
        var pair := Pop();
        if pair.None? {
          break;
        }
        OneMorePopped(books, swaps, pair.value, Book(toAb, fromAb));
        swaps, books := swaps + [pair.value], books + [Book(toAb, fromAb)];
        if |swaps| >= batchSize {
          break;
        }
      }
      RunIsBest(books, swaps, Max(batchSize, 1));
    }
  }

  datatype Book = Book(to: multiset<Order>, from: multiset<Order>)

  /** A pop takes the cheapest order of one side and the dearest of the other. */
  ghost predicate Popped(b: Book, p: Pair, b': Book) {
    && IsCheapest(b.to, p.0) && IsDearest(b.from, p.1) && Spread(p) >= 0
    && b'.to == b.to - multiset{p.0} && b'.from == b.from - multiset{p.1}
  }

  ghost predicate PoppedAt(books: seq<Book>, swaps: seq<Pair>, i: nat) {
    i + 1 < |books| && i < |swaps| && Popped(books[i], swaps[i], books[i + 1])
  }

  /** In prices: what is offered is at least what is asked, and the difference goes down. */
  lemma InOrderOfPrices(swaps: seq<Pair>, i: nat, j: nat)
    requires Decreasing(swaps) && i <= j < |swaps|
    ensures swaps[i].1.price - swaps[i].0.price >= swaps[j].1.price - swaps[j].0.price >= 0
  {
    assert Spread(swaps[i]) >= Spread(swaps[j]) >= 0;
  }

  /** The books before and after each of a series of pops. */
  ghost predicate IsRun(books: seq<Book>, swaps: seq<Pair>) {
    |books| == |swaps| + 1 && forall i: nat :: i < |swaps| ==> PoppedAt(books, swaps, i)
  }

  lemma OneMorePopped(books: seq<Book>, swaps: seq<Pair>, p: Pair, b: Book)
    requires IsRun(books, swaps) && Popped(books[|swaps|], p, b)
    ensures IsRun(books + [b], swaps + [p])
  {
    forall i: nat | i < |swaps + [p]| ensures PoppedAt(books + [b], swaps + [p], i) {
      assert i < |swaps| ==> PoppedAt(books, swaps, i);
    }
  }

  /** Viable swaps in order of decreasing spread. */
  ghost predicate Decreasing(swaps: seq<Pair>) {
    && (forall i :: 0 <= i < |swaps| ==> Spread(swaps[i]) >= 0)
    && (forall i, j :: 0 <= i < j < |swaps| ==> Spread(swaps[i]) >= Spread(swaps[j]))
  }

  lemma LessIsLeft(all: multiset<Order>, m: multiset<Order>, o: Order, m': multiset<Order>)
    requires m <= all && m' == m - multiset{o}
    ensures m' <= all
  {
  }

  /** A later swap is made of orders that the earlier one passed over. */
  lemma {:induction false} LaterIsLeft(books: seq<Book>, swaps: seq<Pair>, i: nat, j: nat)
    requires IsRun(books, swaps) && i <= j < |books|
    ensures books[j].to <= books[i].to && books[j].from <= books[i].from
    decreases j - i
  {
    if i < j {
      LaterIsLeft(books, swaps, i, j - 1);
      assert PoppedAt(books, swaps, j - 1);
      LessIsLeft(books[i].to, books[j - 1].to, swaps[j - 1].0, books[j].to);
      LessIsLeft(books[i].from, books[j - 1].from, swaps[j - 1].1, books[j].from);
    }
  }

  lemma SwapsAreInOrder(books: seq<Book>, swaps: seq<Pair>)
    requires IsRun(books, swaps)
    ensures Decreasing(swaps)
  {
    forall i: nat, j: nat | i <= j < |swaps| ensures Spread(swaps[i]) >= Spread(swaps[j]) >= 0 {
      LaterIsLeft(books, swaps, i, j);
      assert PoppedAt(books, swaps, i) && PoppedAt(books, swaps, j);
    }
  }

  ghost predicate Less(m: multiset<Order>, o: Order, m': multiset<Order>) {
    o in m && m' == m - multiset{o}
  }

  ghost predicate MakeUp(all: multiset<Order>, left: multiset<Order>, taken: multiset<Order>) {
    all == left + taken
  }

  lemma OneMoreTaken(all: multiset<Order>, m: multiset<Order>, taken: multiset<Order>, o: Order, m': multiset<Order>)
    requires MakeUp(all, m, taken) && Less(m, o, m')
    ensures MakeUp(all, m', taken + multiset{o})
  {
  }

  lemma TakenAt(books: seq<Book>, swaps: seq<Pair>, i: nat)
    requires IsRun(books, swaps) && i < |swaps|
    ensures Less(books[i].to, swaps[i].0, books[i + 1].to) && Less(books[i].from, swaps[i].1, books[i + 1].from)
  {
    assert PoppedAt(books, swaps, i);
  }

  /** What is taken and what is left make up each side of the book. */
  lemma {:induction false} TosAreConserved(books: seq<Book>, swaps: seq<Pair>, n: nat)
    requires IsRun(books, swaps) && n <= |swaps|
    ensures MakeUp(books[0].to, books[n].to, Tos(swaps, n))
  {
    if n > 0 {
      TosAreConserved(books, swaps, n - 1);
      TakenAt(books, swaps, n - 1);
      OneMoreTaken(books[0].to, books[n - 1].to, Tos(swaps, n - 1), swaps[n - 1].0, books[n].to);
    }
  }

  lemma {:induction false} FromsAreConserved(books: seq<Book>, swaps: seq<Pair>, n: nat)
    requires IsRun(books, swaps) && n <= |swaps|
    ensures MakeUp(books[0].from, books[n].from, Froms(swaps, n))
  {
    if n > 0 {
      FromsAreConserved(books, swaps, n - 1);
      TakenAt(books, swaps, n - 1);
      OneMoreTaken(books[0].from, books[n - 1].from, Froms(swaps, n - 1), swaps[n - 1].1, books[n].from);
    }
  }

  lemma ExchangeAt(books: seq<Book>, swaps: seq<Pair>, i: nat, left: nat, bound: nat)
    requires IsRun(books, swaps) && i < |swaps| && BookBounded(books[i + 1], left, bound)
    ensures Spread(swaps[i]) >= 0 && BookBounded(books[i], left + 1, Spread(swaps[i]) + bound)
  {
    var b, p, b' := books[i], swaps[i], books[i + 1];
    assert PoppedAt(books, swaps, i);
    Exchange(b.to, b.from, p.0, p.1, b'.to, b'.from, left + 1, bound, Spread(p) + bound);
  }

  ghost predicate BookBounded(b: Book, k: nat, bound: int) {
    Bounded(b.to, b.from, k, bound)
  }

  /** What the swaps gain and a bound on what is left make a bound on what any choice could gain. */
  lemma {:induction false} BestFirstIsBest(books: seq<Book>, swaps: seq<Pair>, n: nat, left: nat, bound: nat)
    requires IsRun(books, swaps) && n <= |swaps| && BookBounded(books[n], left, bound)
    ensures BookBounded(books[0], left + n, TotalSpread(swaps, n) + bound)
  {
    if n > 0 {
      ExchangeAt(books, swaps, n - 1, left, bound);
      BestFirstIsBest(books, swaps, n - 1, left + 1, Spread(swaps[n - 1]) + bound);
    }
  }

  /** What the swaps of a whole run are. */
  lemma RunIsBest(books: seq<Book>, swaps: seq<Pair>, k: nat)
    requires IsRun(books, swaps) && |swaps| <= k
    requires |swaps| == k || NoneViable(books[|swaps|].to, books[|swaps|].from)
    ensures Decreasing(swaps)
    ensures books[0].to == books[|swaps|].to + Tos(swaps, |swaps|)
    ensures books[0].from == books[|swaps|].from + Froms(swaps, |swaps|)
    ensures Bounded(books[0].to, books[0].from, k, TotalSpread(swaps, |swaps|))
  {
    SwapsAreInOrder(books, swaps);
    TosAreConserved(books, swaps, |swaps|);
    FromsAreConserved(books, swaps, |swaps|);
    RunIsBounded(books, swaps, k);
  }

  lemma RunIsBounded(books: seq<Book>, swaps: seq<Pair>, k: nat)
    requires IsRun(books, swaps) && |swaps| <= k
    requires |swaps| == k || NoneViable(books[|swaps|].to, books[|swaps|].from)
    ensures BookBounded(books[0], k, TotalSpread(swaps, |swaps|))
  {
    BoundedByNothing(books[|swaps|].to, books[|swaps|].from, k - |swaps|);
    BestFirstIsBest(books, swaps, |swaps|, k - |swaps|, 0);
  }

  /** `n` orders that cost `total` together. */
  ghost predicate Cost(m: multiset<Order>, n: nat, total: int) {
    |m| == n && Prices(m) == total
  }

  lemma NothingCosts()
    ensures Cost(multiset{}, 0, 0)
  {
  }

  lemma OneMoreCosts(m: multiset<Order>, o: Order, m': multiset<Order>, n: nat, total: int)
    requires Cost(m, n, total) && m' == m + multiset{o}
    ensures Cost(m', n + 1, total + o.price)
  {
    PricesRemove(m', o);
    assert m' - multiset{o} == m;
  }

  ghost function Asked(pairs: seq<Pair>, n: nat): nat
    requires n <= |pairs|
  {
    if n == 0 then 0 else Asked(pairs, n - 1) + pairs[n - 1].0.price
  }

  lemma {:induction false} TosCost(pairs: seq<Pair>, n: nat)
    requires n <= |pairs|
    ensures Cost(Tos(pairs, n), n, Asked(pairs, n))
  {
    if n == 0 {
      NothingCosts();
    } else {
      TosCost(pairs, n - 1);
      OneMoreCosts(Tos(pairs, n - 1), pairs[n - 1].0, Tos(pairs, n), n - 1, Asked(pairs, n - 1));
    }
  }

  lemma {:induction false} FromsCost(pairs: seq<Pair>, n: nat)
    requires n <= |pairs|
    ensures Cost(Froms(pairs, n), n, Asked(pairs, n) + TotalSpread(pairs, n))
  {
    if n == 0 {
      NothingCosts();
    } else {
      FromsCost(pairs, n - 1);
      OneMoreCosts(
        Froms(pairs, n - 1), pairs[n - 1].1, Froms(pairs, n), n - 1, Asked(pairs, n - 1) + TotalSpread(pairs, n - 1));
    }
  }

  /** Under such a bound no pairing of up to `k` orders from each side gains more, whichever way it pairs them. */
  lemma NoPairingGainsMore(to: multiset<Order>, from: multiset<Order>, k: nat, bound: int, pairs: seq<Pair>)
    requires Bounded(to, from, k, bound) && |pairs| <= k
    requires Tos(pairs, |pairs|) <= to && Froms(pairs, |pairs|) <= from
    ensures TotalSpread(pairs, |pairs|) <= bound
  {
    TosCost(pairs, |pairs|);
    FromsCost(pairs, |pairs|);
    assert GainAtMost(to, from, k, bound, Tos(pairs, |pairs|), Froms(pairs, |pairs|));
  }
}
