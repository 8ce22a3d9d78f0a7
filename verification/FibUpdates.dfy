/** What a control plane asks a FIB to do, and what a batch of it means for the table. */
module FibUpdates {
  import opened Wrappers
  import opened Bits

  datatype Update<V> = Add(key: Bits, value: V) | Remove(key: Bits)

  function Step<V>(table: map<Bits, V>, update: Update<V>): map<Bits, V> {
    match update
    case Add(k, value) => table[k := value]
    case Remove(k) => table - {k}
  }

  function Batch<V>(table: map<Bits, V>, updates: seq<Update<V>>): map<Bits, V>
    decreases |updates|
  {
    if updates == [] then table else Batch(Step(table, updates[0]), updates[1..])
  }

  lemma {:induction false} BatchConcat<V>(table: map<Bits, V>, a: seq<Update<V>>, b: seq<Update<V>>)
    ensures Batch(table, a + b) == Batch(Batch(table, a), b)
    decreases |a|
  {
    if a == [] {
      assert a + b == b;
    } else {
      BatchConcat(Step(table, a[0]), a[1..], b);
      assert (a + b)[1..] == a[1..] + b;
    }
  }

  /** The update of a batch that decides what is stored for k: the last one for k. */
  function LastFor<V>(updates: seq<Update<V>>, k: Bits): Option<Update<V>>
    decreases |updates|
  {
    if updates == [] then None
    else if updates[|updates| - 1].key == k then Some(updates[|updates| - 1])
    else LastFor(updates[..|updates| - 1], k)
  }

  /** A batch leaves for every prefix what the last update of that prefix says, or what was there before. */
  lemma {:induction false} BatchDecides<V>(table: map<Bits, V>, updates: seq<Update<V>>, k: Bits)
    ensures Get(Batch(table, updates), k) ==
      match LastFor(updates, k)
      case None => Get(table, k)
      case Some(Add(_, value)) => Some(value)
      case Some(Remove(_)) => None
    decreases |updates|
  {
    if updates == [] {
    } else {
      var n := |updates| - 1;
      BatchDecides(table, updates[..n], k);
      BatchConcat(table, updates[..n], [updates[n]]);
      assert updates == updates[..n] + [updates[n]];
      assert Batch(Batch(table, updates[..n]), [updates[n]]) == Step(Batch(table, updates[..n]), updates[n]) by {
        assert [updates[n]][1..] == [];
      }
    }
  }

  /** Where no prefix occurs twice, every update is the one that decides. */
  lemma {:induction false} OnlyOne<V>(updates: seq<Update<V>>, i: nat)
    requires i < |updates| && forall j, k :: 0 <= j < k < |updates| ==> updates[j].key != updates[k].key
    ensures LastFor(updates, updates[i].key) == Some(updates[i])
    decreases |updates|
  {
    if i < |updates| - 1 {
      OnlyOne(updates[..|updates| - 1], i);
    }
  }

  lemma {:induction false} NoneFor<V>(updates: seq<Update<V>>, k: Bits)
    requires forall u :: u in updates ==> u.key != k
    ensures LastFor(updates, k) == None
    decreases |updates|
  {
    if updates == [] {
    } else {
      NoneFor(updates[..|updates| - 1], k);
    }
  }

  /** How many updates of a batch create a prefix that is not stored, or remove one that is. */
  function Effective<V>(table: map<Bits, V>, updates: seq<Update<V>>): nat
    decreases |updates|
  {
    if updates == [] then 0
    else
      var effect := if updates[0].Add? <==> updates[0].key in table then 0 else 1;
      effect + Effective(Step(table, updates[0]), updates[1..])
  }

  lemma {:induction false} EffectiveConcat<V>(table: map<Bits, V>, a: seq<Update<V>>, b: seq<Update<V>>)
    ensures Effective(table, a + b) == Effective(table, a) + Effective(Batch(table, a), b)
    decreases |a|
  {
    if a == [] {
      assert a + b == b;
    } else {
      EffectiveConcat(Step(table, a[0]), a[1..], b);
      assert (a + b)[1..] == a[1..] + b;
    }
  }

  /** The updates at which their prefix comes to be stored or ceases to be. */
  ghost function Effects<V>(table: map<Bits, V>, updates: seq<Update<V>>): set<nat> {
    set i: nat | i < |updates| &&
      !(updates[i].key in Batch(table, updates[..i]) <==> updates[i].key in Batch(table, updates[..i + 1]))
  }

  lemma EffectsMore<V>(table: map<Bits, V>, before: seq<Update<V>>, last: Update<V>)
    ensures var was, now := Batch(table, before), Batch(table, before + [last]);
      Effects(table, before + [last]) ==
        Effects(table, before) + if last.key in was <==> last.key in now then {} else {|before|}
    ensures |before| !in Effects(table, before)
  {
    hide Batch;
    var updates := before + [last];
    assert updates[..|before|] == before && updates[..|before| + 1] == updates;
    forall i: nat | i < |before| ensures i in Effects(table, updates) <==> i in Effects(table, before) {
      assert before[..i] == updates[..i] && before[..i + 1] == updates[..i + 1];
    }
  }

  lemma {:induction false} EffectiveCounts<V>(table: map<Bits, V>, updates: seq<Update<V>>)
    ensures Effective(table, updates) == |Effects(table, updates)|
    decreases |updates|
  {
    hide Effects;
    if updates == [] {
      NoEffects(table);
    } else {
      var n := |updates| - 1;
      var before, last := updates[..n], [updates[n]];
      assert updates == before + last && last[1..] == [];
      EffectiveCounts(table, before);
      EffectiveConcat(table, before, last);
      BatchConcat(table, before, last);
      EffectsMore(table, before, updates[n]);
    }
  }

  lemma NoEffects<V>(table: map<Bits, V>)
    ensures Effects(table, []) == {}
  {
  }
}
