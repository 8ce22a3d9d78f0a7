/**
 seqlock_fib: the sequence is odd while a batch is written, and a reader accepts a walk only if it loaded the same
 even sequence before and after it. Walks and stores interleave as in ConcurrentTrie.
 */
module SeqlockFib {
  import opened Wrappers
  import opened Bits
  import opened TrieStore
  import opened TrieSteps
  import opened FibUpdates
  import CT = ConcurrentTrie

  /** Where a reader stands in visit. `since` is the first batch boundary that is not
      over when it enters (history). */
  datatype Phase<V> =
    | Resting
    | Trying(address: Bits, since: nat)
    | Sampled(address: Bits, since: nat, before: nat)
    | Walking(since: nat, before: nat)
    | Accepted(address: Bits, since: nat, before: nat, answer: Option<V>)

  /** The history `tables` holds the table at every batch boundary, and `batches` what led from one to the next. */
  datatype State<R, V> = State(
    core: CT.State<R, V>,
    sequence: nat,
    left: seq<Update<V>>,
    phases: seq<Phase<V>>,
    retries: nat,
    tables: seq<map<Bits, V>>,
    batches: seq<seq<Update<V>>>)

  datatype Action<R, V> =
    | Enter(i: nat, address: Bits) | Sample(i: nat) | Walk(i: nat, step: CT.Action<R, V>) | Check(i: nat)
    | Open(batch: seq<Update<V>>) | Write(store: CT.Action<R, V>) | Skip | Close

  predicate Odd(n: nat) {
    n % 2 == 1
  }

  /** The writer's store belongs to the update that is next in the batch, or ends the erasure of the last one. */
  ghost predicate Serves<R, V>(s: State<R, V>, store: CT.Action<R, V>) {
    match store
    case Insert(k, value, _) => s.left != [] && s.left[0] == Add(k, value)
    case Erase(_, node, _) => s.left != [] && node in s.core.t.mem && s.left[0] == Remove(s.core.t.mem[node].key)
    case Prune => true
    case _ => false
  }

  ghost predicate Enabled<R, V>(s: State<R, V>, a: Action<R, V>, maxBits: nat) {
    match a
    case Enter(i, address) => i < |s.phases| && (s.phases[i].Resting? || s.phases[i].Accepted?) && |address| == maxBits
    case Sample(i) => i < |s.phases| && s.phases[i].Trying?
    case Walk(i, step) =>
      && i < |s.phases| && CT.Enabled(s.core, step, maxBits)
      && match step {
           case Begin(r, address) => r == i && s.phases[i].Sampled? && address == s.phases[i].address
           case Visit(r) => r == i && s.phases[i].Walking?
           case Follow(r) => r == i && s.phases[i].Walking?
           case _ => false
         }
    case Check(i) => i < |s.phases| && i < |s.core.walkers| && s.phases[i].Walking? && s.core.walkers[i].pc.Finished?
    case Open(_) => !Odd(s.sequence)
    case Write(store) => Odd(s.sequence) && CT.Enabled(s.core, store, maxBits) && Serves(s, store)
    case Skip =>
      && Odd(s.sequence) && s.core.writer.Idle?
      && s.left != [] && s.left[0].Remove? && s.left[0].key !in Table(s.core.t)
    case Close => Odd(s.sequence) && s.core.writer.Idle? && s.left == []
  }

  ghost function Apply<R, V>(s: State<R, V>, a: Action<R, V>, maxBits: nat): State<R, V>
    requires Enabled(s, a, maxBits)
  {
    match a
    case Enter(i, address) => s.(phases := s.phases[i := Trying(address, (s.sequence + 1) / 2)])
    case Sample(i) =>
      if Odd(s.sequence) then s.(retries := s.retries + 1)
      else s.(phases := s.phases[i := Sampled(s.phases[i].address, s.phases[i].since, s.sequence)])
    case Walk(i, step) =>
      var phase := if step.Begin? then Phase.Walking(s.phases[i].since, s.phases[i].before) else s.phases[i];
      s.(core := CT.Apply(s.core, step, maxBits), phases := s.phases[i := phase])
    case Check(i) =>
      var w, phase := s.core.walkers[i], s.phases[i];
      if s.sequence == phase.before then
        s.(phases := s.phases[i := Accepted(w.address, phase.since, phase.before, CT.Answer(w))])
      else s.(phases := s.phases[i := Trying(w.address, phase.since)], retries := s.retries + 1)
    case Open(batch) => s.(sequence := s.sequence + 1, left := batch, batches := s.batches + [batch])
    case Write(store) =>
      s.(core := CT.Apply(s.core, store, maxBits), left := if store.Prune? then s.left else s.left[1..])
    case Skip => s.(left := s.left[1..])
    case Close => s.(sequence := s.sequence + 1, tables := s.tables + [Table(s.core.t)])
  }

  ghost predicate Start<R, V>(s: State<R, V>) {
    && CT.Start(s.core) && s.sequence == 0 && s.left == [] && s.batches == [] && s.tables == [map[]]
    && |s.phases| == |s.core.walkers| && forall p :: p in s.phases ==> p.Resting?
  }

  ghost predicate IsRun<R, V>(states: seq<State<R, V>>, actions: seq<Action<R, V>>, maxBits: nat) {
    && |states| == |actions| + 1
    && Start(states[0])
    && forall i :: 0 <= i < |actions| ==>
         Enabled(states[i], actions[i], maxBits) && states[i + 1] == Apply(states[i], actions[i], maxBits)
  }

  // ---- invariants ----

  /** The boundaries follow one another by whole batches. */
  ghost predicate Batched<V>(tables: seq<map<Bits, V>>, batches: seq<seq<Update<V>>>) {
    |batches| + 1 >= |tables| && forall i :: 0 < i < |tables| ==> tables[i] == Batch(tables[i - 1], batches[i - 1])
  }

  /** Outside a section the table is the last boundary; inside, the rest of the batch will take it to the next one. */
  ghost predicate WriterOk<R, V>(s: State<R, V>) {
    && |s.tables| == s.sequence / 2 + 1 && Batched(s.tables, s.batches)
    && if Odd(s.sequence) then
         && |s.batches| == |s.tables|
         && Batch(Table(s.core.t), s.left) == Batch(s.tables[|s.tables| - 1], s.batches[|s.tables| - 1])
       else
         |s.batches| + 1 == |s.tables| && s.core.writer.Idle? && Table(s.core.t) == s.tables[|s.tables| - 1]
  }

  /** While the sequence is what the reader sampled, its walk has lived through one table only. */
  ghost predicate Unmoved<R, V>(s: State<R, V>, w: CT.Walker<R, V>, before: nat) {
    s.sequence == before && |s.tables| > 0 ==>
      forall i :: 0 <= i < |w.tables| ==> w.tables[i] == s.tables[|s.tables| - 1]
  }

  ghost predicate PhaseOk<R, V>(s: State<R, V>, i: nat)
    requires i < |s.phases| && |s.phases| == |s.core.walkers|
  {
    match s.phases[i]
    case Resting => true
    case Trying(_, since) => since <= (s.sequence + 1) / 2
    case Sampled(_, since, before) => !Odd(before) && since <= before / 2 && before <= s.sequence
    case Walking(since, before) =>
      && !Odd(before) && since <= before / 2 && before <= s.sequence
      && !s.core.walkers[i].pc.Outside? && Unmoved(s, s.core.walkers[i], before)
    case Accepted(address, since, before, answer) =>
      && !Odd(before) && since <= before / 2 < |s.tables|
      && answer == Lpm(s.tables[before / 2], address)
  }

  ghost predicate Inv<R, V>(s: State<R, V>, maxBits: nat) {
    && CT.Inv(s.core, maxBits) && WriterOk(s) && |s.phases| == |s.core.walkers|
    && forall i :: 0 <= i < |s.phases| ==> PhaseOk(s, i)
  }

  lemma CoreStep<R, V>(s: State<R, V>, step: CT.Action<R, V>, maxBits: nat)
    requires CT.Inv(s.core, maxBits) && CT.Enabled(s.core, step, maxBits)
    ensures var c' := CT.Apply(s.core, step, maxBits);
      && CT.Inv(c', maxBits) && |c'.walkers| == |s.core.walkers|
      && (step.Begin? || step.Visit? || step.Follow? ==> c'.t == s.core.t && c'.writer == s.core.writer)
      && (step.Begin? || step.Visit? || step.Follow? ==>
            forall i :: 0 <= i < |c'.walkers| && i != step.i ==> c'.walkers[i] == s.core.walkers[i])
  {
    hide CT.Inv;
    CT.StepKeepsInv(s.core, step, maxBits);
  }

  /** A store moves the table by its update. */
  lemma WriteStep<R, V>(s: State<R, V>, store: CT.Action<R, V>, maxBits: nat)
    requires CT.Inv(s.core, maxBits) && CT.Enabled(s.core, store, maxBits) && Serves(s, store)
    ensures var t, t' := s.core.t, CT.Apply(s.core, store, maxBits).t;
      Table(t') == if store.Prune? then Table(t) else Step(Table(t), s.left[0])
  {
    hide Good, Table, Fits, Inserted, Pruned, Compressed, CompressedBut, Bounded;
    CT.WriterInvGood(s.core.t, s.core.writer, maxBits);
    match store {
      case Insert(k, value, how) => InsertionEvolves(s.core.t, k, value, how, maxBits);
      case Erase(slot, node, up) => ErasureEvolves(s.core.t, slot, node, up, maxBits);
      case Prune => PruneEvolves(s.core.t, s.core.writer, maxBits);
    }
  }

  lemma StepKeepsWriter<R, V>(s: State<R, V>, a: Action<R, V>, maxBits: nat)
    requires CT.Inv(s.core, maxBits) && WriterOk(s) && Enabled(s, a, maxBits)
    ensures WriterOk(Apply(s, a, maxBits))
  {
    hide CT.Inv, CT.Apply, CT.Enabled, Table;
    if a.Write? {
      WriteStep(s, a.store, maxBits);
    } else if a.Walk? {
      CoreStep(s, a.step, maxBits);
    } else if a.Skip? {
      assert Step(Table(s.core.t), s.left[0]) == Table(s.core.t);
    }
  }

  /** A finished walk over one table gives its longest match. */
  lemma WalkOverOneTable<R, V>(t: Trie<R, V>, w: CT.Walker<R, V>, table: map<Bits, V>, maxBits: nat)
    requires CT.WalkerOk(t, w, maxBits) && w.pc.Finished?
    requires forall i :: 0 <= i < |w.tables| ==> w.tables[i] == table
    ensures CT.Answer(w) == Lpm(table, w.address)
  {
    hide Lpm;
    CT.Unchanged(w.tables, w.address);
    CT.OneOverlap(w);
  }

  lemma CheckKeepsPhase<R, V>(s: State<R, V>, i: nat, maxBits: nat)
    requires Inv(s, maxBits) && Enabled(s, Check(i), maxBits)
    ensures PhaseOk(Apply(s, Check(i), maxBits), i)
  {
    hide WriterInv, CT.HeapOk, CT.WalkerOk, Lpm, CT.Answer;
    assert PhaseOk(s, i);
    var w := s.core.walkers[i];
    if s.sequence == s.phases[i].before {
      WalkOverOneTable(s.core.t, w, s.tables[|s.tables| - 1], maxBits);
    }
  }

  lemma BeginOneTable<R, V>(s: State<R, V>, i: nat, address: Bits, maxBits: nat)
    requires CT.Enabled(s.core, CT.Begin(i, address), maxBits)
    ensures CT.Apply(s.core, CT.Begin(i, address), maxBits).walkers[i].tables == [Table(s.core.t)]
    ensures CT.Apply(s.core, CT.Begin(i, address), maxBits).walkers[i].pc.Reading?
  {
  }

  lemma WalkSameTables<R, V>(s: State<R, V>, step: CT.Action<R, V>, maxBits: nat)
    requires CT.Enabled(s.core, step, maxBits) && (step.Visit? || step.Follow?)
    ensures CT.Apply(s.core, step, maxBits).walkers[step.i].tables == s.core.walkers[step.i].tables
    ensures !CT.Apply(s.core, step, maxBits).walkers[step.i].pc.Outside?
  {
  }

  lemma WalkKeepsPhase<R, V>(s: State<R, V>, i: nat, step: CT.Action<R, V>, maxBits: nat, j: nat)
    requires Inv(s, maxBits) && Enabled(s, Walk(i, step), maxBits) && j < |s.phases|
    ensures |Apply(s, Walk(i, step), maxBits).core.walkers| == |s.phases|
    ensures PhaseOk(Apply(s, Walk(i, step), maxBits), j)
  {
    hide CT.Inv, CT.Apply, CT.Enabled, Lpm, Table;
    assert PhaseOk(s, j);
    CoreStep(s, step, maxBits);
    if j == i {
      if step.Begin? {
        BeginOneTable(s, i, step.address, maxBits);
      } else {
        WalkSameTables(s, step, maxBits);
      }
    }
  }

  lemma StoreKeepsPcs<R, V>(s: State<R, V>, store: CT.Action<R, V>, maxBits: nat, j: nat)
    requires CT.Inv(s.core, maxBits) && CT.Enabled(s.core, store, maxBits) && Serves(s, store) && j < |s.core.walkers|
    ensures |CT.Apply(s.core, store, maxBits).walkers| == |s.core.walkers|
    ensures CT.Apply(s.core, store, maxBits).walkers[j].pc == s.core.walkers[j].pc
  {
    hide WriterInv, CT.WalkerOk, CT.HeapOk, Inserted, Pruned, Table;
  }

  lemma OthersKeepPhase<R, V>(s: State<R, V>, a: Action<R, V>, maxBits: nat, j: nat)
    requires Inv(s, maxBits) && Enabled(s, a, maxBits) && j < |s.phases| && !a.Walk?
    requires a.Check? ==> a.i != j
    ensures |Apply(s, a, maxBits).core.walkers| == |s.phases|
    ensures PhaseOk(Apply(s, a, maxBits), j)
  {
    hide CT.Inv, CT.Apply, CT.Enabled, Lpm, Table, Batched;
    assert PhaseOk(s, j);
    if a.Write? {
      StoreKeepsPcs(s, a.store, maxBits, j);
    }
  }

  lemma StepKeepsInv<R, V>(s: State<R, V>, a: Action<R, V>, maxBits: nat)
    requires Inv(s, maxBits) && Enabled(s, a, maxBits)
    ensures Inv(Apply(s, a, maxBits), maxBits)
  {
    hide CT.Inv, CT.Apply, CT.Enabled, WriterOk, PhaseOk, Serves;
    var s' := Apply(s, a, maxBits);
    StepKeepsWriter(s, a, maxBits);
    if a.Walk? {
      CoreStep(s, a.step, maxBits);
    } else if a.Write? {
      CoreStep(s, a.store, maxBits);
    }
    forall j | 0 <= j < |s'.phases| ensures PhaseOk(s', j) {
      if a.Walk? {
        WalkKeepsPhase(s, a.i, a.step, maxBits, j);
      } else if a.Check? && a.i == j {
        CheckKeepsPhase(s, j, maxBits);
      } else {
        OthersKeepPhase(s, a, maxBits, j);
      }
    }
  }

  lemma {:induction false} RunKeepsInv<R, V>(states: seq<State<R, V>>, actions: seq<Action<R, V>>, maxBits: nat, i: nat)
    requires IsRun(states, actions, maxBits) && i < |states|
    ensures Inv(states[i], maxBits)
  {
    hide Enabled, Apply;
    if i == 0 {
    } else {
      RunKeepsInv(states, actions, maxBits, i - 1);
      StepKeepsInv(states[i - 1], actions[i - 1], maxBits);
    }
  }

  /** Seqlock reads are linearizable and see batches whole. When a check accepts at step i, its answer is the longest
      match in the table at the last batch boundary, which is not older than the visit; and the boundaries are what
      whole batches lead to, one after the other, from the empty table. */
  lemma AcceptedReadsAreLinearizable<R, V>(states: seq<State<R, V>>, actions: seq<Action<R, V>>, maxBits: nat, i: nat)
    requires IsRun(states, actions, maxBits) && i < |actions| && actions[i].Check?
    requires states[i + 1].phases[actions[i].i].Accepted?
    ensures var s, visit := states[i + 1], states[i + 1].phases[actions[i].i];
      && |s.tables| > 0 && visit.since <= |s.tables| - 1 && visit.before == 2 * (|s.tables| - 1)
      && visit.answer == Lpm(s.tables[|s.tables| - 1], visit.address)
      && s.tables[|s.tables| - 1] == Table(s.core.t)
      && Batched(s.tables, s.batches)
  {
    hide Lpm, Table, Batched, CT.Inv;
    RunKeepsInv(states, actions, maxBits, i);
    RunKeepsInv(states, actions, maxBits, i + 1);
    assert PhaseOk(states[i + 1], actions[i].i);
    assert PhaseOk(states[i], actions[i].i);
  }

  /** An answer once accepted stays the longest match of a boundary that lies within its visit. */
  lemma AnswersStand<R, V>(states: seq<State<R, V>>, actions: seq<Action<R, V>>, maxBits: nat, i: nat, r: nat)
    requires IsRun(states, actions, maxBits) && i < |states| && r < |states[i].phases| && states[i].phases[r].Accepted?
    ensures var s, visit := states[i], states[i].phases[r];
      visit.since <= visit.before / 2 < |s.tables| && visit.answer == Lpm(s.tables[visit.before / 2], visit.address)
  {
    RunKeepsInv(states, actions, maxBits, i);
    assert PhaseOk(states[i], r);
  }

  // ---- progress ----

  /** Where a visit stands that sampled the sequence when it was this, and has not been disturbed. */
  ghost predicate Undisturbed<R, V>(s: State<R, V>, r: nat, sequence: nat) {
    && r < |s.phases| && s.sequence == sequence && !Odd(sequence)
    && (s.phases[r].Sampled? || s.phases[r].Walking? ==> s.phases[r].before == sequence)
  }

  lemma StepKeepsUndisturbed<R, V>(s: State<R, V>, a: Action<R, V>, maxBits: nat, r: nat, sequence: nat)
    requires Enabled(s, a, maxBits) && !a.Open? && !a.Close? && Undisturbed(s, r, sequence)
    ensures Undisturbed(Apply(s, a, maxBits), r, sequence)
  {
    hide CT.Apply, CT.Enabled, Table;
  }

  lemma {:induction false} StaysUndisturbed<R, V>(
      states: seq<State<R, V>>, actions: seq<Action<R, V>>, maxBits: nat, i: nat, j: nat, r: nat)
    requires IsRun(states, actions, maxBits) && i < j < |states| && actions[i] == Sample(r)
    requires states[i + 1].phases[r].Sampled?
    requires forall k :: i < k < j ==> !actions[k].Open? && !actions[k].Close?
    ensures Undisturbed(states[j], r, states[i + 1].sequence)
    decreases j
  {
    if j == i + 1 {
      RunKeepsInv(states, actions, maxBits, i);
      assert PhaseOk(states[i], r);
    } else {
      hide Enabled, Apply, Undisturbed;
      StaysUndisturbed(states, actions, maxBits, i, j - 1, r);
      StepKeepsUndisturbed(states[j - 1], actions[j - 1], maxBits, r, states[i + 1].sequence);
    }
  }

  /** A check accepts when no batch began or ended since its visit last sampled the sequence, whatever other readers
      do. */
  lemma UndisturbedAccepts<R, V>(
      states: seq<State<R, V>>, actions: seq<Action<R, V>>, maxBits: nat, i: nat, j: nat, r: nat)
    requires IsRun(states, actions, maxBits) && i < j < |actions| && actions[i] == Sample(r) && actions[j] == Check(r)
    requires states[i + 1].phases[r].Sampled?
    requires forall k :: i < k < j ==> !actions[k].Open? && !actions[k].Close?
    ensures states[j + 1].phases[r].Accepted?
  {
    StaysUndisturbed(states, actions, maxBits, i, j, r);
  }

  /** The reader's next step in a visit. */
  function Turn<R, V>(s: State<R, V>, r: nat): Action<R, V>
    requires r < |s.phases| && r < |s.core.walkers| && !s.phases[r].Resting? && !s.phases[r].Accepted?
  {
    match s.phases[r]
    case Trying(_, _) => Sample(r)
    case Sampled(address, _, _) => Walk(r, CT.Begin(r, address))
    case Walking(_, _) =>
      if s.core.walkers[r].pc.Finished? then Check(r) else Walk(r, CT.NextStep(s.core.walkers[r], r))
  }

  predicate Visiting<V>(phase: Phase<V>) {
    phase.Trying? || phase.Sampled? || phase.Walking?
  }

  /** Only a visit in its walk has a lookup under way. */
  ghost predicate Ready<R, V>(s: State<R, V>, i: nat, maxBits: nat)
    requires i < |s.phases| && |s.phases| == |s.core.walkers|
  {
    match s.phases[i]
    case Trying(address, _) => !CT.Walking(s.core.walkers[i]) && |address| == maxBits
    case Sampled(address, _, _) => !CT.Walking(s.core.walkers[i]) && |address| == maxBits
    case Walking(_, _) => !s.core.walkers[i].pc.Outside?
    case _ => !CT.Walking(s.core.walkers[i])
  }

  ghost predicate AllReady<R, V>(s: State<R, V>, maxBits: nat) {
    |s.phases| == |s.core.walkers| && forall i :: 0 <= i < |s.phases| ==> Ready(s, i, maxBits)
  }

  lemma StoreKeepsReady<R, V>(s: State<R, V>, store: CT.Action<R, V>, maxBits: nat, j: nat)
    requires Inv(s, maxBits) && j < |s.phases| && Ready(s, j, maxBits) && Enabled(s, Write(store), maxBits)
    ensures |Apply(s, Write(store), maxBits).core.walkers| == |s.phases|
    ensures Ready(Apply(s, Write(store), maxBits), j, maxBits)
  {
    hide CT.Apply, CT.Enabled, CT.Inv, Table, WriterOk, PhaseOk;
    CoreStep(s, store, maxBits);
    StoreKeepsPcs(s, store, maxBits, j);
  }

  lemma WalkKeepsReady<R, V>(s: State<R, V>, i: nat, step: CT.Action<R, V>, maxBits: nat, j: nat)
    requires Inv(s, maxBits) && j < |s.phases| && Ready(s, j, maxBits) && Enabled(s, Walk(i, step), maxBits)
    ensures |Apply(s, Walk(i, step), maxBits).core.walkers| == |s.phases|
    ensures Ready(Apply(s, Walk(i, step), maxBits), j, maxBits)
  {
    hide CT.Apply, CT.Enabled, CT.Inv, Table, WriterOk, PhaseOk;
    CoreStep(s, step, maxBits);
    if i == j && step.Begin? {
      BeginOneTable(s, j, step.address, maxBits);
    } else if i == j {
      WalkSameTables(s, step, maxBits);
    }
  }

  lemma OthersKeepReady<R, V>(s: State<R, V>, a: Action<R, V>, maxBits: nat, j: nat)
    requires |s.phases| == |s.core.walkers| && j < |s.phases| && Ready(s, j, maxBits) && Enabled(s, a, maxBits)
    requires !s.core.walkers[j].pc.Outside? ==> |s.core.walkers[j].address| == maxBits
    requires !a.Write? && !a.Walk?
    ensures |Apply(s, a, maxBits).core.walkers| == |Apply(s, a, maxBits).phases| == |s.phases|
    ensures Ready(Apply(s, a, maxBits), j, maxBits)
  {
    hide CT.Apply, CT.Enabled, Table, Lpm, CT.Answer;
  }

  lemma StepKeepsOneReady<R, V>(s: State<R, V>, a: Action<R, V>, maxBits: nat, j: nat)
    requires Inv(s, maxBits) && j < |s.phases| && Ready(s, j, maxBits) && Enabled(s, a, maxBits)
    requires |Apply(s, a, maxBits).core.walkers| == |Apply(s, a, maxBits).phases| == |s.phases|
    ensures Ready(Apply(s, a, maxBits), j, maxBits)
  {
    assert CT.Inv(s.core, maxBits) && |s.phases| == |s.core.walkers|;
    hide Ready, Inv, CT.Inv, Enabled, Apply;
    if a.Write? {
      StoreKeepsReady(s, a.store, maxBits, j);
    } else if a.Walk? {
      WalkKeepsReady(s, a.i, a.step, maxBits, j);
    } else {
      if !s.core.walkers[j].pc.Outside? {
        WidthOf(s.core, j, maxBits);
      }
      OthersKeepReady(s, a, maxBits, j);
    }
  }

  lemma WidthOf<R, V>(core: CT.State<R, V>, i: nat, maxBits: nat)
    requires CT.Inv(core, maxBits) && i < |core.walkers| && !core.walkers[i].pc.Outside?
    ensures |core.walkers[i].address| == maxBits
  {
    assert CT.WalkerOk(core.t, core.walkers[i], maxBits);
  }

  lemma StepKeepsReady<R, V>(s: State<R, V>, a: Action<R, V>, maxBits: nat)
    requires Inv(s, maxBits) && AllReady(s, maxBits) && Enabled(s, a, maxBits)
    ensures AllReady(Apply(s, a, maxBits), maxBits)
  {
    hide Apply, Enabled, Ready, Inv;
    SamePhases(s, a, maxBits);
    forall j | 0 <= j < |Apply(s, a, maxBits).phases| ensures Ready(Apply(s, a, maxBits), j, maxBits) {
      assert Ready(s, j, maxBits);
      StepKeepsOneReady(s, a, maxBits, j);
    }
  }

  lemma SamePhases<R, V>(s: State<R, V>, a: Action<R, V>, maxBits: nat)
    requires Inv(s, maxBits) && Enabled(s, a, maxBits)
    ensures |Apply(s, a, maxBits).core.walkers| == |Apply(s, a, maxBits).phases| == |s.phases|
  {
    StepKeepsInv(s, a, maxBits);
    hide CT.Apply, CT.Enabled, Table, CT.Inv;
  }

  lemma {:induction false} RunKeepsReady<R, V>(
      states: seq<State<R, V>>, actions: seq<Action<R, V>>, maxBits: nat, i: nat)
    requires IsRun(states, actions, maxBits) && i < |states|
    ensures AllReady(states[i], maxBits)
  {
    hide Enabled, Apply;
    if i == 0 {
      assert forall w :: w in states[0].core.walkers ==> w.pc.Outside?;
    } else {
      RunKeepsReady(states, actions, maxBits, i - 1);
      RunKeepsInv(states, actions, maxBits, i - 1);
      StepKeepsReady(states[i - 1], actions[i - 1], maxBits);
    }
  }

  function Remaining<R, V>(s: State<R, V>, r: nat, maxBits: nat): int
    requires r < |s.phases| && r < |s.core.walkers|
  {
    match s.phases[r]
    case Trying(_, _) => 2 * maxBits + 7
    case Sampled(_, _, _) => 2 * maxBits + 6
    case Walking(_, _) => CT.ToGo(s.core.walkers[r], maxBits) + 1
    case _ => 0
  }

  /** While the sequence is even and nobody else moves, the reader's next step is enabled and brings it nearer to its
      end. */
  lemma TurnWorks<R, V>(s: State<R, V>, r: nat, maxBits: nat)
    requires Inv(s, maxBits) && AllReady(s, maxBits) && Undisturbed(s, r, s.sequence) && Visiting(s.phases[r])
    ensures Enabled(s, Turn(s, r), maxBits)
    ensures var s' := Apply(s, Turn(s, r), maxBits);
      && s'.sequence == s.sequence && |s'.core.walkers| == |s'.phases| == |s.phases|
      && (s'.phases[r].Accepted? || Visiting(s'.phases[r]))
      && 0 <= Remaining(s', r, maxBits) < Remaining(s, r, maxBits) <= 2 * maxBits + 7
  {
    hide CT.Inv, CT.Apply, CT.Enabled, Table, WriterOk, PhaseOk, Lpm, CT.Answer;
    assert Ready(s, r, maxBits);
    match s.phases[r] {
      case Trying(_, _) =>
      case Sampled(address, _, _) => BeginWorks(s.core, r, address, maxBits);
      case Walking(_, _) =>
        if !s.core.walkers[r].pc.Finished? {
          CT.NextStepWorks(s.core, maxBits, r);
          CoreStep(s, CT.NextStep(s.core.walkers[r], r), maxBits);
        }
    }
  }

  lemma BeginWorks<R, V>(core: CT.State<R, V>, r: nat, address: Bits, maxBits: nat)
    requires r < |core.walkers| && !CT.Walking(core.walkers[r]) && |address| == maxBits
    ensures CT.Enabled(core, CT.Begin(r, address), maxBits)
    ensures var core' := CT.Apply(core, CT.Begin(r, address), maxBits);
      |core'.walkers| == |core.walkers| && CT.ToGo(core'.walkers[r], maxBits) == 2 * maxBits + 3
  {
  }

  /** These steps of one reader lead from one state to the next. */
  ghost predicate Alone<R, V>(states: seq<State<R, V>>, actions: seq<Action<R, V>>, r: nat, maxBits: nat) {
    && |states| == |actions| + 1
    && forall k :: 0 <= k < |actions| ==>
         && r < |states[k].phases| && r < |states[k].core.walkers| && Visiting(states[k].phases[r])
         && actions[k] == Turn(states[k], r) && Enabled(states[k], actions[k], maxBits)
         && states[k + 1] == Apply(states[k], actions[k], maxBits)
  }

  lemma {:induction false} Finishes<R, V>(s: State<R, V>, r: nat, maxBits: nat)
      returns (states: seq<State<R, V>>, actions: seq<Action<R, V>>)
    requires Inv(s, maxBits) && AllReady(s, maxBits) && Undisturbed(s, r, s.sequence) && Visiting(s.phases[r])
    ensures Alone(states, actions, r, maxBits) && states[0] == s && |actions| <= Remaining(s, r, maxBits)
    ensures r < |states[|actions|].phases| && states[|actions|].phases[r].Accepted?
    decreases Remaining(s, r, maxBits)
  {
    assert r < |s.phases| == |s.core.walkers|;
    hide Enabled, Apply, Undisturbed, Turn;
    TurnWorks(s, r, maxBits);
    var a := Turn(s, r);
    var s' := Apply(s, a, maxBits);
    if s'.phases[r].Accepted? {
      states, actions := [s, s'], [a];
    } else {
      StepKeepsInv(s, a, maxBits);
      StepKeepsReady(s, a, maxBits);
      TurnIsQuiet(s, r);
      StepKeepsUndisturbed(s, a, maxBits, r, s.sequence);
      states, actions := Finishes(s', r, maxBits);
      hide AllReady, Inv;
      AloneBefore(s, states, actions, r, maxBits);
      states, actions := [s] + states, [a] + actions;
    }
  }

  lemma AloneBefore<R, V>(
      s: State<R, V>, states: seq<State<R, V>>, actions: seq<Action<R, V>>, r: nat, maxBits: nat)
    requires Alone(states, actions, r, maxBits) && r < |s.phases| && r < |s.core.walkers| && Visiting(s.phases[r])
    requires Enabled(s, Turn(s, r), maxBits) && states[0] == Apply(s, Turn(s, r), maxBits)
    ensures Alone([s] + states, [Turn(s, r)] + actions, r, maxBits)
  {
    hide Enabled, Apply, Turn;
    var after, moves := [s] + states, [Turn(s, r)] + actions;
    forall k | 0 <= k < |moves|
      ensures r < |after[k].phases| && r < |after[k].core.walkers| && Visiting(after[k].phases[r])
      ensures moves[k] == Turn(after[k], r) && Enabled(after[k], moves[k], maxBits)
      ensures after[k + 1] == Apply(after[k], moves[k], maxBits)
    {
      if k > 0 {
        assert after[k] == states[k - 1] && moves[k] == actions[k - 1] && after[k + 1] == states[k];
      }
    }
  }

  lemma TurnIsQuiet<R, V>(s: State<R, V>, r: nat)
    requires r < |s.phases| && r < |s.core.walkers| && Visiting(s.phases[r])
    ensures !Turn(s, r).Open? && !Turn(s, r).Close?
  {
  }

  /** A visit is never in the way of itself: from any state of any run in which no batch is open, a reader that is about
      to sample the sequence can finish alone, with an answer, in a number of steps that the width bounds. */
  lemma VisitFinishesAlone<R, V>(
      states: seq<State<R, V>>, actions: seq<Action<R, V>>, maxBits: nat, i: nat, r: nat)
      returns (more: seq<State<R, V>>, steps: seq<Action<R, V>>)
    requires IsRun(states, actions, maxBits) && i < |states| && !Odd(states[i].sequence)
    requires r < |states[i].phases| && states[i].phases[r].Trying?
    ensures Alone(more, steps, r, maxBits) && more[0] == states[i] && |steps| <= 2 * maxBits + 7
    ensures r < |more[|steps|].phases| && more[|steps|].phases[r].Accepted?
  {
    RunKeepsInv(states, actions, maxBits, i);
    RunKeepsReady(states, actions, maxBits, i);
    more, steps := Finishes(states[i], r, maxBits);
  }
}
