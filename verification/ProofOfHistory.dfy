/** The hash clock, entries chained by it, and what a verified chain of entries proves. */
module ProofOfHistory {
  import opened Common
  import opened Chunking

  // ---- The hash clock ----

  function HashTimes(h: Hash, n: nat): Hash {
    if n == 0 then h else Hashed(HashTimes(h, n - 1))
  }

  /** How many hash steps lead to a hash from one with no known preimage. */
  ghost function Depth(h: Hash): nat {
    match h
    case Hashed(p) => Depth(p) + 1
    case Mixed(p, _) => Depth(p) + 1
    case _ => 0
  }

  datatype PohEntry = PohEntry(numHashes: u64, hash: Hash)

  class Poh {
    var hash: Hash
    var numHashes: u64
    const hashesPerTick: u64
    var remainingHashes: u64

    ghost predicate Valid()
      reads this
    {
      hashesPerTick > 1 && remainingHashes >= 1 && numHashes + remainingHashes <= hashesPerTick
    }

    constructor (hash: Hash, hashesPerTick: Option<u64>)
      requires hashesPerTick.Some? ==> hashesPerTick.value > 1
      ensures Valid() && this.hash == hash && numHashes == 0
      ensures this.hashesPerTick == (if hashesPerTick.Some? then hashesPerTick.value else U64_MAX)
      ensures remainingHashes == this.hashesPerTick
    {
      var perTick := if hashesPerTick.Some? then hashesPerTick.value else U64_MAX;
      this.hash, this.hashesPerTick := hash, perTick;
      numHashes, remainingHashes := 0, perTick;
    }

    /** Hashes on, but leaves room for the hash of the tick that must follow. */
    method Hash(maxNumHashes: u64) returns (mustTick: bool)
      requires Valid()
      modifies this
      ensures Valid()
      ensures var n := Min(old(remainingHashes) - 1, maxNumHashes);
              && hash == HashTimes(old(hash), n) && Depth(hash) == Depth(old(hash)) + n
              && numHashes == old(numHashes) + n
              && remainingHashes == old(remainingHashes) - n
      ensures mustTick <==> remainingHashes == 1
    {
      var n := Min(remainingHashes - 1, maxNumHashes);
      for i := 0 to n
        invariant hash == HashTimes(old(hash), i) && Depth(hash) == Depth(old(hash)) + i
        invariant numHashes == old(numHashes) && remainingHashes == old(remainingHashes)
      {
        hash := Hashed(hash);
      }
      numHashes := numHashes + n;
      remainingHashes := remainingHashes - n;
      mustTick := remainingHashes == 1;
    }

    /** Mixes a hash in, unless only the hash of a tick is left to make. */
    method Record(mixin: Common.Hash) returns (entry: Option<PohEntry>)
      requires Valid()
      modifies this
      ensures Valid()
      ensures old(remainingHashes) == 1 ==> entry == None && unchanged(this)
      ensures old(remainingHashes) > 1 ==>
                && hash == Mixed(old(hash), mixin) && numHashes == 0 && remainingHashes == old(remainingHashes) - 1
                && entry == Some(PohEntry(old(numHashes) + 1, hash))
    {
      if remainingHashes == 1 {
        return None;
      }
      hash := Mixed(hash, mixin);
      var n := numHashes + 1;
      numHashes := 0;
      remainingHashes := remainingHashes - 1;
      entry := Some(PohEntry(n, hash));
    }

    /** Makes one more hash; with a fixed number of hashes per tick, only the last of them is a tick. */
    method Tick() returns (entry: Option<PohEntry>)
      requires Valid()
      modifies this
      ensures Valid() && hash == Hashed(old(hash))
      ensures entry.Some? <==> hashesPerTick == U64_MAX || old(remainingHashes) == 1
      ensures entry.Some? ==>
                && entry.value == PohEntry(old(numHashes) + 1, hash)
                && numHashes == 0 && remainingHashes == hashesPerTick
      ensures entry.None? ==> numHashes == old(numHashes) + 1 && remainingHashes == old(remainingHashes) - 1
    {
      hash := Hashed(hash);
      if hashesPerTick < U64_MAX && remainingHashes - 1 != 0 {
        numHashes, remainingHashes := numHashes + 1, remainingHashes - 1;
        return None;
      }
      var n := numHashes + 1;
      numHashes, remainingHashes := 0, hashesPerTick;
      entry := Some(PohEntry(n, hash));
    }
  }

  // ---- Entries ----

  /** The first signature of each transaction that has one. */
  function FirstSignatures(txs: seq<Transaction>): seq<Signature> {
    if txs == [] then []
    else FirstSignatures(txs[..|txs| - 1]) +
         if txs[|txs| - 1].signatures == [] then [] else [txs[|txs| - 1].signatures[0]]
  }

  /** The hash that `numHashes` steps after `start` lead to, with the transactions mixed in at the last one. */
  function EntryHash(start: Hash, numHashes: u64, txs: seq<Transaction>): Hash {
    if numHashes == 0 && txs == [] then start
    else
      var h := HashTimes(start, if numHashes == 0 then 0 else numHashes - 1);
      if txs == [] then Hashed(h) else Mixed(h, Digest(FirstSignatures(txs)))
  }

  ghost predicate AllSigned(txs: seq<Transaction>) {
    forall i :: 0 <= i < |txs| ==> txs[i].signatures != []
  }

  lemma {:induction false} FirstSignaturesConcat(a: seq<Transaction>, b: seq<Transaction>)
    ensures FirstSignatures(a + b) == FirstSignatures(a) + FirstSignatures(b)
  {
    if b == [] {
      assert a + b == a;
    } else {
      var front, last := b[..|b| - 1], b[|b| - 1];
      FirstSignaturesConcat(a, front);
      FirstSignaturesSnoc(a + front, last);
      FirstSignaturesSnoc(front, last);
      Snoc(b);
      ConcatSnoc(a, b);
    }
  }

  /** A transaction without a signature adds nothing, and any other one its first signature. */
  lemma FirstSignaturesSnoc(txs: seq<Transaction>, tx: Transaction)
    ensures FirstSignatures(txs + [tx]) ==
              if tx.signatures == [] then FirstSignatures(txs) else FirstSignatures(txs) + [tx.signatures[0]]
  {
    assert (txs + [tx])[..|txs|] == txs;
  }

  /** Of signed transactions it is the first signature of each, in their order. */
  lemma {:induction false} FirstSignaturesOfSigned(txs: seq<Transaction>)
    requires AllSigned(txs)
    ensures |FirstSignatures(txs)| == |txs|
    ensures forall i :: 0 <= i < |txs| ==> FirstSignatures(txs)[i] == txs[i].signatures[0]
  {
    if txs != [] {
      FirstSignaturesOfSigned(txs[..|txs| - 1]);
    }
  }

  method HashTransactions(txs: seq<Transaction>) returns (h: Hash)
    ensures h == Digest(FirstSignatures(txs))
    ensures AllSigned(txs) ==>
              && h.Digest? && |h.signatures| == |txs|
              && forall i :: 0 <= i < |txs| ==> h.signatures[i] == txs[i].signatures[0]
  {
    var signatures := [];
    for i := 0 to |txs|
      invariant signatures == FirstSignatures(txs[..i])
    {
      assert txs[..i + 1][..i] == txs[..i];
      if txs[i].signatures != [] {
        signatures := signatures + [txs[i].signatures[0]];
      }
    }
    assert txs[..|txs|] == txs;
    h := Digest(signatures);
    if AllSigned(txs) {
      FirstSignaturesOfSigned(txs);
    }
  }

  /**
   Runs a fresh clock. `None` stands for the panic when the clock does not record, which is exactly when all its
   `U64_MAX` hashes but the last are spent.
   */
  method NextHash(start: Hash, numHashes: u64, txs: seq<Transaction>) returns (h: Option<Hash>)
    ensures h == if numHashes == U64_MAX && txs != [] then None else Some(EntryHash(start, numHashes, txs))
    ensures h.Some? ==>
              && Depth(h.value) == Depth(start) + (if numHashes == 0 && txs != [] then 1 else numHashes)
              && (txs != [] ==> h.value.Mixed? && h.value.mixin.Digest?)
              && (txs != [] && AllSigned(txs) ==>
                    && |h.value.mixin.signatures| == |txs|
                    && forall i :: 0 <= i < |txs| ==> h.value.mixin.signatures[i] == txs[i].signatures[0])
  {
    if numHashes == 0 && txs == [] {
      return Some(start);
    }
    var poh := new Poh(start, None);
    var _ := poh.Hash(if numHashes == 0 then 0 else numHashes - 1);
    if txs == [] {
      var tick := poh.Tick();
      h := Some(tick.value.hash);
    } else {
      var mixin := HashTransactions(txs);
      var record := poh.Record(mixin);
      h := if record.Some? then Some(record.value.hash) else None;
    }
  }

  predicate VerifyEntry(e: Entry, start: Hash) {
    e.hash == EntryHash(start, e.numHashes, e.transactions)
  }

  function HashBefore(entries: seq<Entry>, start: Hash, i: nat): Hash
    requires i <= |entries|
  {
    if i == 0 then start else entries[i - 1].hash
  }

  /** Every entry continues from the hash of the one before it. */
  predicate VerifyEntries(entries: seq<Entry>, start: Hash) {
    forall i: nat :: i < |entries| ==> VerifyAt(entries, start, i)
  }

  function LastHash(entries: seq<Entry>, start: Hash): Hash {
    HashBefore(entries, start, |entries|)
  }

  predicate VerifyAt(entries: seq<Entry>, start: Hash, i: nat)
    requires i < |entries|
  {
    VerifyEntry(entries[i], HashBefore(entries, start, i))
  }

  lemma VerifyAtConcat(a: seq<Entry>, b: seq<Entry>, start: Hash, i: nat)
    requires i < |a| + |b|
    ensures i < |a| ==> (VerifyAt(a + b, start, i) <==> VerifyAt(a, start, i))
    ensures i >= |a| ==> (VerifyAt(a + b, start, i) <==> VerifyAt(b, LastHash(a, start), i - |a|))
  {
  }

  lemma VerifyConcat(a: seq<Entry>, b: seq<Entry>, start: Hash)
    ensures VerifyEntries(a + b, start) <==> VerifyEntries(a, start) && VerifyEntries(b, LastHash(a, start))
    ensures LastHash(a + b, start) == LastHash(b, LastHash(a, start))
  {
    var c, mid := a + b, LastHash(a, start);
    if VerifyEntries(c, start) {
      forall i: nat | i < |a| ensures VerifyAt(a, start, i) {
        assert VerifyAt(c, start, i);
        VerifyAtConcat(a, b, start, i);
      }
      forall i: nat | i < |b| ensures VerifyAt(b, mid, i) {
        assert VerifyAt(c, start, |a| + i);
        VerifyAtConcat(a, b, start, |a| + i);
      }
    } else {
      var i: nat :| i < |c| && !VerifyAt(c, start, i);
      VerifyAtConcat(a, b, start, i);
    }
  }

  // ---- What a verified chain proves ----

  datatype HashStep = Plain | MixIn(signatures: seq<Signature>)

  function Repeat<T>(x: T, n: nat): seq<T> {
    if n == 0 then [] else Repeat(x, n - 1) + [x]
  }

  /** The hash steps that an entry stands for. */
  function StepsOf(e: Entry): seq<HashStep> {
    if e.numHashes == 0 && e.transactions == [] then []
    else Repeat(Plain, PlainHashes(e)) + [LastStep(e)]
  }

  function PlainHashes(e: Entry): nat {
    if e.numHashes == 0 then 0 else e.numHashes - 1
  }

  function LastStep(e: Entry): HashStep {
    if e.transactions == [] then Plain else MixIn(FirstSignatures(e.transactions))
  }

  function StepsOfAll(entries: seq<Entry>): seq<HashStep> {
    if entries == [] then [] else StepsOfAll(entries[..|entries| - 1]) + StepsOf(entries[|entries| - 1])
  }

  function Perform(h: Hash, steps: seq<HashStep>): Hash {
    if steps == [] then h
    else PerformStep(Perform(h, steps[..|steps| - 1]), steps[|steps| - 1])
  }

  lemma {:induction false} PerformConcat(h: Hash, a: seq<HashStep>, b: seq<HashStep>)
    ensures Perform(h, a + b) == Perform(Perform(h, a), b)
  {
    if b == [] {
      assert a + b == a;
    } else {
      var front, last := b[..|b| - 1], b[|b| - 1];
      PerformConcat(h, a, front);
      PerformSnoc(h, a + front, last);
      PerformSnoc(Perform(h, a), front, last);
      Snoc(b);
      ConcatSnoc(a, b);
    }
  }

  function PerformStep(h: Hash, step: HashStep): Hash {
    match step
    case Plain => Hashed(h)
    case MixIn(signatures) => Mixed(h, Digest(signatures))
  }

  lemma PerformSnoc(h: Hash, steps: seq<HashStep>, step: HashStep)
    ensures Perform(h, steps + [step]) == PerformStep(Perform(h, steps), step)
  {
    assert (steps + [step])[..|steps|] == steps;
  }

  lemma {:induction false} PerformPlain(h: Hash, n: nat)
    ensures Perform(h, Repeat(Plain, n)) == HashTimes(h, n)
  {
    if n > 0 {
      PerformPlain(h, n - 1);
      PerformSnoc(h, Repeat(Plain, n - 1), Plain);
    }
  }

  lemma EntryPerforms(e: Entry, start: Hash)
    requires VerifyEntry(e, start)
    ensures e.hash == Perform(start, StepsOf(e))
  {
    if !(e.numHashes == 0 && e.transactions == []) {
      EntryHashSteps(e, start);
      PerformPlain(start, PlainHashes(e));
      PerformSnoc(start, Repeat(Plain, PlainHashes(e)), LastStep(e));
    }
  }

  lemma EntryHashSteps(e: Entry, start: Hash)
    requires VerifyEntry(e, start) && !(e.numHashes == 0 && e.transactions == [])
    ensures e.hash == PerformStep(HashTimes(start, PlainHashes(e)), LastStep(e))
  {
  }

  lemma {:induction false} EntriesPerform(entries: seq<Entry>, start: Hash)
    requires VerifyEntries(entries, start)
    ensures LastHash(entries, start) == Perform(start, StepsOfAll(entries))
  {
    if entries != [] {
      var front, last := entries[..|entries| - 1], entries[|entries| - 1];
      Snoc(entries);
      VerifyConcat(front, [last], start);
      EntriesPerform(front, start);
      assert VerifyAt([last], LastHash(front, start), 0);
      EntryPerforms(last, LastHash(front, start));
      PerformConcat(start, StepsOfAll(front), StepsOf(last));
    }
  }

  lemma {:induction false} PerformDepth(h: Hash, steps: seq<HashStep>)
    ensures Depth(Perform(h, steps)) == Depth(h) + |steps|
  {
    if steps != [] {
      PerformDepth(h, steps[..|steps| - 1]);
    }
  }

  lemma {:induction false} PerformInjective(h: Hash, a: seq<HashStep>, b: seq<HashStep>)
    requires Perform(h, a) == Perform(h, b)
    ensures a == b
  {
    SameLength(h, a, b);
    if a != [] {
      var a', x, b', y := a[..|a| - 1], a[|a| - 1], b[..|b| - 1], b[|b| - 1];
      StepIsInjective(Perform(h, a'), x, Perform(h, b'), y);
      PerformInjective(h, a', b');
      Snoc(a);
      Snoc(b);
    }
  }

  lemma SameLength(h: Hash, a: seq<HashStep>, b: seq<HashStep>)
    requires Perform(h, a) == Perform(h, b)
    ensures |a| == |b|
  {
    PerformDepth(h, a);
    PerformDepth(h, b);
  }

  lemma StepIsInjective(h: Hash, x: HashStep, k: Hash, y: HashStep)
    requires PerformStep(h, x) == PerformStep(k, y)
    ensures h == k && x == y
  {
  }

  /**
   The final hash pins the history down: two chains of entries that verify from the same start to
   the same final hash performed the same hash steps and mixed in the same signatures at the same ones.
   */
  lemma FinalHashFixesHistory(a: seq<Entry>, b: seq<Entry>, start: Hash)
    requires VerifyEntries(a, start) && VerifyEntries(b, start) && LastHash(a, start) == LastHash(b, start)
    ensures StepsOfAll(a) == StepsOfAll(b)
  {
    EntriesPerform(a, start);
    EntriesPerform(b, start);
    PerformInjective(start, StepsOfAll(a), StepsOfAll(b));
  }

  /** A verified entry takes as many hash steps as it says, and one if it only has transactions. */
  lemma VerifiedTime(e: Entry, start: Hash)
    requires VerifyEntry(e, start)
    ensures Depth(e.hash) == Depth(start) + if e.numHashes == 0 && e.transactions != [] then 1 else e.numHashes
  {
    EntryPerforms(e, start);
    PerformDepth(start, StepsOf(e));
    RepeatLength(Plain, PlainHashes(e));
  }

  lemma {:induction false} RepeatLength<T>(x: T, n: nat)
    ensures |Repeat(x, n)| == n
  {
    if n > 0 {
      RepeatLength(x, n - 1);
    }
  }

  /** All signatures that the steps mix in, in their order. */
  ghost function MixedIn(steps: seq<HashStep>): seq<Signature> {
    if steps == [] then []
    else
      var last := steps[|steps| - 1];
      MixedIn(steps[..|steps| - 1]) + if last.MixIn? then last.signatures else []
  }

  lemma {:induction false} MixedInConcat(a: seq<HashStep>, b: seq<HashStep>)
    ensures MixedIn(a + b) == MixedIn(a) + MixedIn(b)
  {
    if b == [] {
      assert a + b == a;
    } else {
      var front, last := b[..|b| - 1], b[|b| - 1];
      MixedInConcat(a, front);
      MixedInSnoc(a + front, last);
      MixedInSnoc(front, last);
      Snoc(b);
      ConcatSnoc(a, b);
      Associative(MixedIn(a), MixedIn(front), if last.MixIn? then last.signatures else []);
    }
  }

  lemma MixedInSnoc(steps: seq<HashStep>, step: HashStep)
    ensures MixedIn(steps + [step]) == MixedIn(steps) + if step.MixIn? then step.signatures else []
  {
    assert (steps + [step])[..|steps|] == steps;
  }

  lemma {:induction false} PlainMixesNothing(n: nat)
    ensures MixedIn(Repeat(Plain, n)) == []
  {
    if n > 0 {
      PlainMixesNothing(n - 1);
      MixedInSnoc(Repeat(Plain, n - 1), Plain);
    }
  }

  lemma EntryMixesIn(e: Entry)
    ensures MixedIn(StepsOf(e)) == FirstSignatures(e.transactions)
  {
    if !(e.numHashes == 0 && e.transactions == []) {
      PlainMixesNothing(PlainHashes(e));
      MixedInSnoc(Repeat(Plain, PlainHashes(e)), LastStep(e));
    }
  }

  lemma {:induction false} ChainMixesIn(entries: seq<Entry>)
    ensures MixedIn(StepsOfAll(entries)) == FirstSignatures(TransactionsOf(entries))
  {
    if entries != [] {
      var front, last := entries[..|entries| - 1], entries[|entries| - 1];
      ChainMixesIn(front);
      EntryMixesIn(last);
      MixedInConcat(StepsOfAll(front), StepsOf(last));
      FirstSignaturesConcat(TransactionsOf(front), last.transactions);
    }
  }

  /**
   Two chains of signed transactions that verify from the same start to the same final hash have the same number of
   transactions, and each of them the same first signature as its counterpart.
   */
  lemma FinalHashFixesSignatures(a: seq<Entry>, b: seq<Entry>, start: Hash)
    requires VerifyEntries(a, start) && VerifyEntries(b, start) && LastHash(a, start) == LastHash(b, start)
    requires AllSigned(TransactionsOf(a)) && AllSigned(TransactionsOf(b))
    ensures |TransactionsOf(a)| == |TransactionsOf(b)|
    ensures forall i :: 0 <= i < |TransactionsOf(a)| ==>
              TransactionsOf(a)[i].signatures[0] == TransactionsOf(b)[i].signatures[0]
  {
    FinalHashFixesHistory(a, b, start);
    ChainMixesIn(a);
    ChainMixesIn(b);
    FirstSignaturesOfSigned(TransactionsOf(a));
    FirstSignaturesOfSigned(TransactionsOf(b));
  }

  // ---- Making entries ----

  /** Room for serialized entries in a blob: 64 KiB less 128 bytes for the network and twice the 112 byte header. */
  const BLOB_DATA_SIZE := 64 * 1024 - 128 - 2 * 112

  function TransactionBytes(txs: seq<Transaction>): nat {
    if txs == [] then 0 else TransactionBytes(txs[..|txs| - 1]) + txs[|txs| - 1].size
  }

  /** The serialized size of a list of one entry: two lengths, the hash count, the hash and the transactions. */
  function SerializedToBlobSize(txs: seq<Transaction>): nat {
    8 + 8 + 32 + 8 + TransactionBytes(txs)
  }

  /** The serialized size of a list of entries. */
  function SerializedSize(entries: seq<Entry>): nat {
    if entries == [] then 8
    else SerializedSize(entries[..|entries| - 1]) + 8 + 32 + 8 + TransactionBytes(entries[|entries| - 1].transactions)
  }

  lemma SerializedSizeSnoc(entries: seq<Entry>, e: Entry)
    ensures SerializedSize(entries + [e]) == SerializedSize(entries) + 48 + TransactionBytes(e.transactions)
  {
    assert (entries + [e])[..|entries|] == entries;
  }

  lemma {:induction false} TransactionBytesConcat(a: seq<Transaction>, b: seq<Transaction>)
    ensures TransactionBytes(a + b) == TransactionBytes(a) + TransactionBytes(b)
  {
    if b == [] {
      assert a + b == a;
    } else {
      var front, last := b[..|b| - 1], b[|b| - 1];
      TransactionBytesConcat(a, front);
      TransactionBytesSnoc(a + front, last);
      TransactionBytesSnoc(front, last);
      Snoc(b);
      ConcatSnoc(a, b);
    }
  }

  lemma TransactionBytesSnoc(txs: seq<Transaction>, tx: Transaction)
    ensures TransactionBytes(txs + [tx]) == TransactionBytes(txs) + tx.size
  {
    assert (txs + [tx])[..|txs|] == txs;
  }

  lemma {:induction false} SerializedSizeConcat(a: seq<Entry>, b: seq<Entry>)
    ensures SerializedSize(a + b) + 8 == SerializedSize(a) + SerializedSize(b)
  {
    if b == [] {
      assert a + b == a;
    } else {
      var front, last := b[..|b| - 1], b[|b| - 1];
      SerializedSizeConcat(a, front);
      SerializedSizeSnoc(a + front, last);
      SerializedSizeSnoc(front, last);
      Snoc(b);
      ConcatSnoc(a, b);
    }
  }

  /** What is cut into chunks by the size of an entry in a blob of its own is measured like a list of one entry. */
  lemma OneEntrySize(e: Entry)
    ensures SerializedSize([e]) == SerializedToBlobSize(e.transactions)
  {
    SerializedSizeSnoc([], e);
    assert [] + [e] == [e];
  }

  lemma SizesAreMonotone()
    ensures Monotone(SerializedToBlobSize) && Monotone(SerializedSize)
  {
    forall s: seq<Transaction>, i, j | 0 <= i <= j <= |s|
      ensures SerializedToBlobSize(s[i..j]) <= SerializedToBlobSize(s)
    {
      assert s == s[..i] + s[i..j] + s[j..];
      TransactionBytesConcat(s[..i] + s[i..j], s[j..]);
      TransactionBytesConcat(s[..i], s[i..j]);
    }
    forall s: seq<Entry>, i, j | 0 <= i <= j <= |s|
      ensures SerializedSize(s[i..j]) <= SerializedSize(s)
    {
      assert s == s[..i] + s[i..j] + s[j..];
      SerializedSizeConcat(s[..i] + s[i..j], s[j..]);
      SerializedSizeConcat(s[..i], s[i..j]);
      AtLeastLength(s[..i]);
      AtLeastLength(s[j..]);
    }
  }

  /** A transaction that does not fit a blob by itself keeps the cutting loop from ending. */
  lemma OversizedTransactionIsStuck(tx: Transaction)
    requires tx.size > BLOB_DATA_SIZE - 56
    ensures exists x: nat :: Stuck([tx], BLOB_DATA_SIZE, SerializedToBlobSize, x)
  {
    var txs := [tx];
    SizesAreMonotone();
    assert [txs[0]] == txs && txs[..|txs| - 1] == [];
    assert TransactionBytes(txs) == tx.size;
    StuckIffOversized(txs, BLOB_DATA_SIZE, SerializedToBlobSize);
  }

  lemma AtLeastLength(entries: seq<Entry>)
    ensures SerializedSize(entries) >= 8
  {
  }

  /** A new entry verifies from the hash it was made from. */
  function NewEntry(prev: Hash, numHashes: u64, txs: seq<Transaction>): (e: Entry)
    requires SerializedToBlobSize(txs) <= BLOB_DATA_SIZE
    ensures VerifyEntry(e, prev) && e.transactions == txs
    ensures e.numHashes == if numHashes == 0 && txs != [] then 1 else numHashes
  {
    if numHashes == 0 && txs == [] then Entry(0, prev, txs)
    else if numHashes == 0 then Entry(1, EntryHash(prev, 1, txs), txs)
    else Entry(numHashes, EntryHash(prev, numHashes, txs), txs)
  }

  lemma {:induction false} TransactionsOfChunks(entries: seq<Entry>, chunks: seq<seq<Transaction>>)
    requires |entries| == |chunks| && forall i :: 0 <= i < |chunks| ==> entries[i].transactions == chunks[i]
    ensures TransactionsOf(entries) == Flatten(chunks)
  {
    if entries != [] {
      TransactionsOfChunks(entries[..|entries| - 1], chunks[..|chunks| - 1]);
    }
  }

  lemma VerifySnoc(entries: seq<Entry>, e: Entry, start: Hash)
    requires VerifyEntries(entries, start) && VerifyEntry(e, LastHash(entries, start))
    ensures VerifyEntries(entries + [e], start) && LastHash(entries + [e], start) == e.hash
  {
    VerifyConcat(entries, [e], start);
  }

  /** One entry for each chunk; the hashes that are due are counted to the first of them. */
  method ChainChunks(startHash: Hash, numHashes: u64, chunks: seq<seq<Transaction>>)
    returns (entries: seq<Entry>, lastHash: Hash, hashesLeft: u64)
    requires forall i :: 0 <= i < |chunks| ==> chunks[i] != [] && SerializedToBlobSize(chunks[i]) <= BLOB_DATA_SIZE
    ensures |entries| == |chunks| && forall i :: 0 <= i < |chunks| ==> entries[i].transactions == chunks[i]
    ensures forall i :: 0 <= i < |chunks| ==> entries[i].numHashes == if i == 0 && numHashes > 0 then numHashes else 1
    ensures VerifyEntries(entries, startHash)
    ensures lastHash == LastHash(entries, startHash) && hashesLeft == if chunks == [] then numHashes else 0
  {
    entries, lastHash, hashesLeft := [], startHash, numHashes;
    for i := 0 to |chunks|
      invariant |entries| == i && lastHash == LastHash(entries, startHash)
      invariant hashesLeft == if i == 0 then numHashes else 0
      invariant forall j :: 0 <= j < i ==> entries[j].transactions == chunks[j]
      invariant forall j :: 0 <= j < i ==> entries[j].numHashes == if j == 0 && numHashes > 0 then numHashes else 1
      invariant VerifyEntries(entries, startHash)
    {
      var e := NewEntry(lastHash, hashesLeft, chunks[i]);
      VerifySnoc(entries, e, startHash);
      entries, lastHash, hashesLeft := entries + [e], e.hash, 0;
    }
  }

  /**
   Makes as few entries as blobs can hold of the transactions, one after the other, and leaves the
   caller with the hash to go on from and the hashes that are still due.
   */
  method NextEntriesMut(startHash: Hash, numHashes: u64, txs: seq<Transaction>)
    returns (entries: seq<Entry>, lastHash: Hash, hashesLeft: u64)
    requires EachFits(txs, BLOB_DATA_SIZE, SerializedToBlobSize)
    ensures VerifyEntries(entries, startHash) && TransactionsOf(entries) == txs
    ensures lastHash == LastHash(entries, startHash) && hashesLeft == if txs == [] then numHashes else 0
    ensures forall i :: 0 <= i < |entries| ==>
              && !entries[i].IsTick()
              && SerializedToBlobSize(entries[i].transactions) <= BLOB_DATA_SIZE
              && entries[i].numHashes == if i == 0 && numHashes > 0 then numHashes else 1
    ensures forall other :: IsSplit(other, txs, BLOB_DATA_SIZE, SerializedToBlobSize) ==> |entries| <= |other|
  {
    SizesAreMonotone();
    var chunks := SplitSerializableChunks(txs, BLOB_DATA_SIZE, SerializedToBlobSize);
    entries, lastHash, hashesLeft := ChainChunks(startHash, numHashes, chunks);
    TransactionsOfChunks(entries, chunks);
    if chunks != [] {
      assert Flatten(chunks) != [] by { assert chunks[|chunks| - 1] != []; }
    }
  }

  method NextEntries(startHash: Hash, numHashes: u64, txs: seq<Transaction>) returns (entries: seq<Entry>)
    requires EachFits(txs, BLOB_DATA_SIZE, SerializedToBlobSize)
    ensures VerifyEntries(entries, startHash) && TransactionsOf(entries) == txs
  {
    var made, _, _ := NextEntriesMut(startHash, numHashes, txs);
    entries := made;
  }

  // ---- Entries in blobs and back ----

  /** Packs entries into as few blob payloads as can hold them in order. */
  method ToBlobs(entries: seq<Entry>) returns (payloads: seq<seq<Entry>>)
    requires EachFits(entries, BLOB_DATA_SIZE, SerializedSize)
    ensures IsSplit(payloads, entries, BLOB_DATA_SIZE, SerializedSize)
    ensures forall other :: IsSplit(other, entries, BLOB_DATA_SIZE, SerializedSize) ==> |payloads| <= |other|
  {
    SizesAreMonotone();
    payloads := SplitSerializableChunks(entries, BLOB_DATA_SIZE, SerializedSize);
  }

  ghost predicate Readable(payloads: seq<Option<seq<Entry>>>) {
    forall i :: 0 <= i < |payloads| ==> payloads[i].Some?
  }

  ghost function Values(payloads: seq<Option<seq<Entry>>>): seq<seq<Entry>>
    requires Readable(payloads)
  {
    seq(|payloads|, i requires 0 <= i < |payloads| => payloads[i].value)
  }

  lemma NextPayload(payloads: seq<Option<seq<Entry>>>, i: nat)
    requires i < |payloads| && Readable(payloads[..i]) && payloads[i].Some?
    ensures Readable(payloads[..i + 1])
    ensures Flatten(Values(payloads[..i + 1])) == Flatten(Values(payloads[..i])) + payloads[i].value
  {
    var before, after := payloads[..i], payloads[..i + 1];
    forall j | 0 <= j < |after| ensures after[j].Some? {
      assert j < i ==> after[j] == before[j];
    }
    assert Values(after) == Values(before) + [payloads[i].value];
    FlattenSnoc(Values(before), payloads[i].value);
  }

  /** Unpacks blob payloads; `None` stands for a payload that does not deserialize, which fails the whole call. */
  method ReconstructEntriesFromBlobs(payloads: seq<Option<seq<Entry>>>) returns (r: Option<(seq<Entry>, nat)>)
    ensures r.Some? <==> Readable(payloads)
    ensures r.Some? ==> r.value.0 == Flatten(Values(payloads)) && r.value.1 == Ticks(r.value.0)
  {
    var entries: seq<Entry>, ticks: nat := [], 0;
    for i := 0 to |payloads|
      invariant Readable(payloads[..i])
      invariant entries == Flatten(Values(payloads[..i])) && ticks == Ticks(entries)
    {
      if payloads[i].None? {
        return None;
      }
      var more := payloads[i].value;
      TicksConcat(entries, more);
      NextPayload(payloads, i);
      entries, ticks := entries + more, ticks + Ticks(more);
    }
    assert payloads[..|payloads|] == payloads;
    r := Some((entries, ticks));
  }

  /** Packing entries into blobs and unpacking them gives the entries and their number of ticks back. */
  method PackThenUnpack(entries: seq<Entry>) returns (r: Option<(seq<Entry>, nat)>)
    requires EachFits(entries, BLOB_DATA_SIZE, SerializedSize)
    ensures r == Some((entries, Ticks(entries)))
  {
    var packed := ToBlobs(entries);
    var payloads := seq(|packed|, i requires 0 <= i < |packed| => Some(packed[i]));
    r := ReconstructEntriesFromBlobs(payloads);
    assert Values(payloads) == packed;
  }
}
