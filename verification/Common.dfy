/** Machine integers and the plain records shared by the ledger, entry and replay modules. */
module Common {

  const U64_MAX := 0xFFFF_FFFF_FFFF_FFFF

  type u64 = n: int | 0 <= n <= U64_MAX

  datatype Option<+T> = None | Some(value: T)

  type Pubkey = nat
  type Signature = nat

  /**
   A collision-free hash: every way of computing a hash is a constructor of its own.
   `Seed` is a hash with no known preimage, such as the genesis hash.
   */
  datatype Hash =
    | Seed(n: nat)
    | Hashed(prev: Hash)
    | Mixed(prev: Hash, mixin: Hash)
    | Digest(signatures: seq<Signature>)

  /**
   `accounts` are the keys the bank locks for the transaction, `creditOnly` the unsigned credit-only keys after
   them, which it does not lock, `size` is the serialized size and `message` stands for everything else that an
   execution may depend on.
   */
  datatype Transaction =
    Transaction(signatures: seq<Signature>, accounts: seq<Pubkey>, creditOnly: seq<Pubkey>, size: nat, message: nat)

  datatype Entry = Entry(numHashes: u64, hash: Hash, transactions: seq<Transaction>) {
    predicate IsTick() {
      transactions == []
    }
  }

  /** A data blob: header fields and the entries its payload deserializes to. */
  datatype Blob = Blob(slot: u64, parent: u64, index: u64, isLast: bool, entries: seq<Entry>)

  function Min(a: int, b: int): int {
    if a < b then a else b
  }

  function Max(a: int, b: int): int {
    if a < b then b else a
  }

  ghost predicate NoDuplicates<T>(s: seq<T>) {
    forall i, j :: 0 <= i < j < |s| ==> s[i] != s[j]
  }

  function Flatten<T>(ss: seq<seq<T>>): seq<T> {
    if ss == [] then [] else Flatten(ss[..|ss| - 1]) + ss[|ss| - 1]
  }

  lemma Snoc<T>(s: seq<T>)
    requires s != []
    ensures s == s[..|s| - 1] + [s[|s| - 1]]
  {
  }

  lemma ConcatSnoc<T>(a: seq<T>, b: seq<T>)
    requires b != []
    ensures a + b == a + b[..|b| - 1] + [b[|b| - 1]]
  {
  }

  lemma {:induction false} FlattenConcat<T>(a: seq<seq<T>>, b: seq<seq<T>>)
    ensures Flatten(a + b) == Flatten(a) + Flatten(b)
  {
    if b == [] {
      assert a + b == a;
    } else {
      var front, last := b[..|b| - 1], b[|b| - 1];
      FlattenConcat(a, front);
      FlattenSnoc(a + front, last);
      FlattenSnoc(front, last);
      Snoc(b);
      ConcatSnoc(a, b);
      Associative(Flatten(a), Flatten(front), last);
    }
  }

  lemma FlattenSnoc<T>(ss: seq<seq<T>>, s: seq<T>)
    ensures Flatten(ss + [s]) == Flatten(ss) + s
  {
    assert (ss + [s])[..|ss|] == ss;
  }

  lemma Associative<T>(a: seq<T>, b: seq<T>, c: seq<T>)
    ensures a + (b + c) == a + b + c
  {
  }

  function Ticks(entries: seq<Entry>): nat {
    if entries == [] then 0 else Ticks(entries[..|entries| - 1]) + if entries[|entries| - 1].IsTick() then 1 else 0
  }

  lemma {:induction false} TicksConcat(a: seq<Entry>, b: seq<Entry>)
    ensures Ticks(a + b) == Ticks(a) + Ticks(b)
  {
    if b == [] {
      assert a + b == a;
    } else {
      var front, last := b[..|b| - 1], b[|b| - 1];
      TicksConcat(a, front);
      TicksSnoc(a + front, last);
      TicksSnoc(front, last);
      Snoc(b);
      ConcatSnoc(a, b);
    }
  }

  lemma TicksSnoc(entries: seq<Entry>, e: Entry)
    ensures Ticks(entries + [e]) == Ticks(entries) + if e.IsTick() then 1 else 0
  {
    assert (entries + [e])[..|entries|] == entries;
  }

  function TransactionsOf(entries: seq<Entry>): seq<Transaction> {
    if entries == [] then [] else TransactionsOf(entries[..|entries| - 1]) + entries[|entries| - 1].transactions
  }
}
