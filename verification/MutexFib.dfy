/**
 mutex_fib: one lock around a trie. With every call exclusive, a FIB is exactly its prefix map; the lock-free variants
 are measured against this one.
 */
module MutexFibs {
  import opened Wrappers
  import opened Bits
  import opened TrieStore
  import opened RadixTries
  import opened FibUpdates

  class MutexFib<V> {
    const trie: RadixTrie<V>

    ghost predicate Valid()
      reads trie, trie.Memory()
    {
      trie.Valid()
    }

    ghost function Contents(): map<Bits, V>
      reads trie
    {
      trie.Contents()
    }

    constructor (maxBits: nat)
      ensures Valid() && Contents() == map[] && trie.maxBits == maxBits && fresh(trie) && trie.Memory() == {}
    {
      hide Sound, Good, Table, Disposed;
      trie := new RadixTrie(maxBits);
    }

    method Lookup(address: Bits) returns (best: Option<V>)
      requires Valid() && |address| == trie.maxBits
      ensures best == Lpm(Contents(), address)
    {
      best := trie.Lookup(address);
    }

    /** apply_locked: whether the update created a prefix or removed one. */
    method ApplyLocked(update: Update<V>) returns (effective: bool)
      requires Valid() && |update.key| <= trie.maxBits
      modifies trie, trie.Memory()
      ensures Valid() && fresh(trie.Memory() - old(trie.Memory()))
      ensures Contents() == Step(old(Contents()), update)
      ensures effective <==> (update.Add? <==> update.key !in old(Contents()))
    {
      if update.Add? {
        ghost var how;
        effective, how := trie.Insert(update.key, update.value);
      } else {
        ghost var how, dropped;
        effective, how, dropped := trie.Erase(update.key);
      }
    }

    /** apply: the whole batch in order, and how many updates had an effect on which prefixes are stored. */
    method Apply(updates: seq<Update<V>>) returns (applied: nat)
      requires Valid() && forall u :: u in updates ==> |u.key| <= trie.maxBits
      modifies trie, trie.Memory()
      ensures Valid() && fresh(trie.Memory() - old(trie.Memory()))
      ensures Contents() == Batch(old(Contents()), updates)
      ensures applied == Effective(old(Contents()), updates)
    {
      hide Batch, Effective, Step, Sound, Good, Table, Disposed, Lpm;
      applied := 0;
      var i := 0;
      NoUpdates(Contents());
      assert updates[..0] == [];
      while i < |updates|
        invariant i <= |updates| && Valid() && fresh(trie.Memory() - old(trie.Memory()))
        invariant Contents() == Batch(old(Contents()), updates[..i])
        invariant applied == Effective(old(Contents()), updates[..i])
      {
        ghost var before := Contents();
        var effective := ApplyLocked(updates[i]);
        applied := applied + if effective then 1 else 0;
        OneMore(old(Contents()), updates, i);
        i := i + 1;
      }
      assert updates[..i] == updates;
    }
  }

  lemma NoUpdates<V>(table: map<Bits, V>)
    ensures Batch(table, []) == table && Effective(table, []) == 0
  {
  }

  lemma OneMore<V>(table: map<Bits, V>, updates: seq<Update<V>>, i: nat)
    requires i < |updates|
    ensures Batch(table, updates[..i + 1]) == Step(Batch(table, updates[..i]), updates[i])
    ensures Effective(table, updates[..i + 1]) == Effective(table, updates[..i]) +
      if updates[i].Add? <==> updates[i].key in Batch(table, updates[..i]) then 0 else 1
  {
    assert updates[..i + 1] == updates[..i] + [updates[i]];
    BatchConcat(table, updates[..i], [updates[i]]);
    EffectiveConcat(table, updates[..i], [updates[i]]);
    assert [updates[i]][1..] == [];
  }
}
