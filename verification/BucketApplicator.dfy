/** Applying a bucket to the ledger in bounded pieces (src/bucket/BucketApplicator.cpp).

    Every piece ends on a border entry, and the `break` that ends the piece skips the
    iterator's increment: the next piece applies the border entry a second time. The proofs
    below show that the pieces nevertheless add up to one plain pass over the bucket. */
module BucketApplicator {
  import opened Wrappers

  datatype LedgerEntry<K, D> = LedgerEntry(key: K, data: D)

  datatype BucketEntry<K, D> = Live(entry: LedgerEntry<K, D>) | Dead(key: K)
  {
    function Key(): K {
      if Live? then entry.key else key
    }
  }

  type Ledger<K, D> = map<K, LedgerEntry<K, D>>

  // ----- What a bucket means -----

  function ApplyEntry<K, D>(ledger: Ledger<K, D>, e: BucketEntry<K, D>): Ledger<K, D> {
    match e
    case Live(entry) => ledger[entry.key := entry]
    case Dead(key) => ledger - {key}
  }

  /** The plain left fold of the entries over the ledger. */
  function ApplyAll<K, D>(ledger: Ledger<K, D>, es: seq<BucketEntry<K, D>>): Ledger<K, D> {
    if es == [] then ledger
    else ApplyEntry(ApplyAll(ledger, es[..|es| - 1]), es[|es| - 1])
  }

  /** What a reader of the ledger sees under `key`: the last entry of the bucket that names the
      key decides, and keys the bucket does not name keep their old entry. */
  lemma {:induction false} LastEntryWins<K, D>(ledger: Ledger<K, D>, es: seq<BucketEntry<K, D>>, key: K)
    ensures (forall i :: 0 <= i < |es| ==> es[i].Key() != key) ==>
              (key in ApplyAll(ledger, es) <==> key in ledger) &&
              (key in ledger ==> ApplyAll(ledger, es)[key] == ledger[key])
    ensures forall i :: 0 <= i < |es| && es[i].Key() == key && (forall j :: i < j < |es| ==> es[j].Key() != key) ==>
              (key in ApplyAll(ledger, es) <==> es[i].Live?) &&
              (es[i].Live? ==> ApplyAll(ledger, es)[key] == es[i].entry)
  {
    if es != [] {
      LastEntryWins(ledger, es[..|es| - 1], key);
      forall i | 0 <= i < |es| && es[i].Key() == key && (forall j :: i < j < |es| ==> es[j].Key() != key)
        ensures (key in ApplyAll(ledger, es) <==> es[i].Live?) &&
                (es[i].Live? ==> ApplyAll(ledger, es)[key] == es[i].entry)
      {
        if i < |es| - 1 {
          assert es[..|es| - 1][i].Key() == key;
        }
      }
    }
  }

  /** Applying the border entry once more changes nothing. */
  lemma BorderEntryTwice<K, D>(ledger: Ledger<K, D>, es: seq<BucketEntry<K, D>>, i: nat)
    requires i < |es|
    ensures ApplyEntry(ApplyAll(ledger, es[..i + 1]), es[i]) == ApplyAll(ledger, es[..i + 1])
    ensures ApplyAll(ledger, es[..i + 1]) == ApplyEntry(ApplyAll(ledger, es[..i]), es[i])
  {
    assert es[..i + 1][..i] == es[..i];
  }

  /** Within piece number `pieces` the test `(mSize & 0xff) == 0xff` fires at its last entry only. */
  lemma BreakAtPieceEnd(size: nat, pieces: nat)
    requires 256 * pieces <= size <= 256 * pieces + 255
    ensures size % 256 == 255 <==> size == 256 * pieces + 255
    ensures (256 * pieces + 255 + 1) / 256 == pieces + 1
  {
  }

  lemma PiecesOf(n: nat, pieces: nat)
    requires 255 * pieces <= n < 255 * pieces + 255
    ensures n / 255 == pieces
  {
  }

  // ----- The ledger -----

  class LedgerRoot<K(==), D> {
    var entries: Ledger<K, D>

    constructor (initial: Ledger<K, D>)
      ensures entries == initial
    {
      entries := initial;
    }
  }

  /** A transaction over the root: nothing is visible outside before Commit. */
  class LedgerState<K(==), D> {
    const root: LedgerRoot<K, D>
    var entries: Ledger<K, D>

    constructor (r: LedgerRoot<K, D>)
      ensures root == r && entries == r.entries
    {
      root := r;
      entries := r.entries;
    }

    method Load(key: K) returns (entry: Option<LedgerEntry<K, D>>)
      ensures entry == if key in entries then Some(entries[key]) else None
    {
      entry := if key in entries then Some(entries[key]) else None;
    }

    method Create(entry: LedgerEntry<K, D>)
      requires entry.key !in entries
      modifies this
      ensures entries == old(entries)[entry.key := entry]
    {
      entries := entries[entry.key := entry];
    }

    method SetCurrent(key: K, entry: LedgerEntry<K, D>)
      requires key in entries
      modifies this
      ensures entries == old(entries)[key := entry]
    {
      entries := entries[key := entry];
    }

    method Erase(key: K)
      requires key in entries
      modifies this
      ensures entries == old(entries) - {key}
    {
      entries := entries - {key};
    }

    method Commit()
      modifies root
      ensures root.entries == entries
    {
      root.entries := entries;
    }
  }

  // ----- The applicator -----

  class BucketApplicator<K(==), D> {
    const root: LedgerRoot<K, D>
    const bucket: seq<BucketEntry<K, D>>
    var iter: nat
    var size: nat

    constructor (r: LedgerRoot<K, D>, b: seq<BucketEntry<K, D>>)
      ensures root == r && bucket == b && iter == 0 && size == 0
    {
      root := r;
      bucket := b;
      iter := 0;
      size := 0;
    }

    /** operator bool: there is an entry under the iterator. */
    predicate More()
      reads this
    {
      iter < |bucket|
    }

    /** How many leading entries of the bucket the ledger holds between two calls. */
    function Done(): nat
      reads this
    {
      if size == 0 || iter == |bucket| then iter else iter + 1
    }

    /** The number of full pieces behind the iterator, between two calls. */
    function Pieces(): nat
      reads this
    {
      (size + 1) / 256
    }

    /** Where the iterator and the counter stand between two calls: nothing done yet, on the
        border entry of a full piece, or behind the last entry. */
    predicate BetweenCalls()
      reads this
    {
      if iter < |bucket| then
        (size == 0 && iter == 0) || (size + 1 == 256 * Pieces() && iter + 1 == 255 * Pieces())
      else
        iter == |bucket| && size == |bucket| + |bucket| / 255
    }

    method ApplyCurrent(ls: LedgerState<K, D>)
      requires iter < |bucket|
      modifies ls
      ensures ls.entries == ApplyEntry(old(ls.entries), bucket[iter])
    {
      if bucket[iter].Live? {
        var bucketEntry := bucket[iter].entry;
        var entry := ls.Load(bucketEntry.key);
        if entry.Some? {
          ls.SetCurrent(bucketEntry.key, bucketEntry);
        } else {
          ls.Create(bucketEntry);
        }
      } else {
        var entry := ls.Load(bucket[iter].key);
        if entry.Some? {
          ls.Erase(bucket[iter].key);
        }
      }
    }

    /** One piece. `initial` is the ledger before the first piece. The committed ledger is again
        the fold of a prefix of the bucket, a strictly longer one, and at most 256 entries were
        applied. */
    method Advance(ghost initial: Ledger<K, D>)
      requires BetweenCalls()
      requires root.entries == ApplyAll(initial, bucket[..Done()])
      modifies this, root
      ensures BetweenCalls()
      ensures root.entries == ApplyAll(initial, bucket[..Done()])
      ensures old(size) <= size <= old(size) + 256
      ensures old(More()) ==> old(iter) < iter
      ensures old(More()) && More() ==> Pieces() == old(Pieces()) + 1 && old(Done()) < Done()
      ensures old(More()) && !More() ==> old(Pieces()) == |bucket| / 255
      ensures !old(More()) ==> size == old(size)
    {
      hide ApplyAll, ApplyEntry;
      var ls := new LedgerState<K, D>(root);
      ghost var done, pieces := Done(), Pieces();
      while iter < |bucket|
        invariant iter <= |bucket|
        invariant old(More()) ==> size == iter + pieces
        invariant old(More()) ==> 256 * pieces - 1 <= size < 256 * pieces + 255
        invariant if iter == old(iter) then done == old(Done()) && size == old(size)
                  else old(iter) < iter == done && 256 * pieces <= size && old(More())
        invariant ls.entries == ApplyAll(initial, bucket[..done])
        invariant root.entries == old(root.entries) && ls.root == root
      {
        BorderEntryTwice(initial, bucket, iter);
        ApplyCurrent(ls);
        done := iter + 1;
        size := size + 1;
        BreakAtPieceEnd(size, pieces);
        if size % 256 == 255 {
          break;
        }
        iter := iter + 1;
      }
      if old(More()) && iter == |bucket| {
        PiecesOf(|bucket|, pieces);
      }
      ls.Commit();
    }
  }

  /** while (applicator) advance(): the whole bucket, whatever its length. */
  method ApplyBucket<K(==), D>(root: LedgerRoot<K, D>, bucket: seq<BucketEntry<K, D>>)
    returns (applications: nat, calls: nat)
    modifies root
    ensures root.entries == ApplyAll(old(root.entries), bucket)
    ensures applications == |bucket| + |bucket| / 255
    ensures calls == if |bucket| == 0 then 0 else |bucket| / 255 + 1
  {
    var applicator := new BucketApplicator<K, D>(root, bucket);
    ghost var initial := root.entries;
    calls := 0;
    while applicator.More()
      invariant applicator.root == root && applicator.bucket == bucket
      invariant applicator.BetweenCalls()
      invariant root.entries == ApplyAll(initial, bucket[..applicator.Done()])
      invariant applicator.More() ==> calls == applicator.Pieces()
      invariant !applicator.More() ==> calls == if |bucket| == 0 then 0 else |bucket| / 255 + 1
      decreases |bucket| - applicator.iter
    {
      applicator.Advance(initial);
      calls := calls + 1;
    }
    assert bucket[..|bucket|] == bucket;
    applications := applicator.size;
  }
}
