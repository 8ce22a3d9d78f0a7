/**
 rcu_fib: lookups under a read guard of the epoch domain, and a serialised writer that retires what it unlinks.

 The state is that of EpochProtocol and that of ConcurrentTrie side by side. A store of the writer that takes a node
 or a value out of the trie is, in the domain, the unlinking of that object, after which the thread retires it.
 A thread exits with garbage two epochs old, if any, as EpochOrphans shows it must.
 */
module RcuFib {
  import opened Wrappers
  import opened Bits
  import opened TrieStore
  import opened TrieSteps
  import CT = ConcurrentTrie
  import EP = EpochProtocol
  import ES = EpochSafety
  import EO = EpochOrphans

  /** The least age of what an exiting thread leaves behind. */
  const EXIT_AGE: nat := 2

  /** Nodes and boxed values are numbered apart, and both are objects of the domain. */
  type Core = CT.State<nat, nat>

  function NodeObject(x: nat): EP.Object {
    2 * x
  }

  function BoxObject(b: nat): EP.Object {
    2 * b + 1
  }

  /** Thread i walks as walker i. `guarded` holds the threads that have started a lookup under their present guard,
      `boxes` every value ever boxed, `holder` the thread that stored last. */
  datatype State = State(epoch: EP.State, core: Core, boxes: set<nat>, guarded: set<nat>, holder: nat)

  datatype Action =
    | Domain(thread: nat, step: EP.Action)
    | Lookup(thread: nat, walk: CT.Action<nat, nat>)
    | Write(thread: nat, store: CT.Action<nat, nat>)

  /** What a store takes out of the trie: a value it replaces or clears, or a node it drops. */
  ghost function DroppedBy(core: Core, store: CT.Action<nat, nat>, maxBits: nat): Option<EP.Object>
    requires CT.Enabled(core, store, maxBits)
  {
    match store
    case Insert(_, _, Replace(x)) =>
      if core.t.mem[x].value.Some? then Some(BoxObject(core.t.mem[x].value.value)) else None
    case Erase(_, node, _) => Some(BoxObject(core.t.mem[node].value.value))
    case Prune =>
      var dropped := Pruned(core.t, core.writer).2;
      if dropped.Some? then Some(NodeObject(dropped.value)) else None
    case _ => None
  }

  ghost predicate Enabled(s: State, a: Action, maxBits: nat) {
    a.thread < |s.epoch.threads| && a.thread < |s.core.walkers| &&
    var thread := s.epoch.threads[a.thread];
    match a
    case Domain(t, step) =>
      EP.Allowed(EXIT_AGE, s.epoch, t, step) && !step.Unlink? && (step.Unpin? ==> !CT.Walking(s.core.walkers[t]))
    case Lookup(t, walk) =>
      && thread.pc.Idle? && thread.nesting > 0 && CT.Enabled(s.core, walk, maxBits)
      && (walk.Begin? || walk.Visit? || walk.Follow?) && walk.i == t
    case Write(t, store) =>
      && thread.pc.Idle? && CT.Enabled(s.core, store, maxBits) && (store.Insert? || store.Erase? || store.Prune?)
      && (s.core.writer.Idle? || t == s.holder) && (store.Insert? ==> store.value !in s.boxes)
      && (DroppedBy(s.core, store, maxBits).Some? ==> DroppedBy(s.core, store, maxBits).value !in s.epoch.unlinked)
  }

  ghost function Apply(s: State, a: Action, maxBits: nat): State
    requires Enabled(s, a, maxBits)
  {
    match a
    case Domain(t, step) =>
      s.(epoch := EP.Apply(s.epoch, t, step), guarded := if step.Unpin? then s.guarded - {t} else s.guarded)
    case Lookup(t, walk) =>
      s.(core := CT.Apply(s.core, walk, maxBits), guarded := s.guarded + if walk.Begin? then {t} else {})
    case Write(t, store) =>
      var dropped := DroppedBy(s.core, store, maxBits);
      s.(core := CT.Apply(s.core, store, maxBits),
         epoch := if dropped.Some? then EP.Apply(s.epoch, t, EP.Unlink(dropped.value)) else s.epoch,
         boxes := s.boxes + if store.Insert? then {store.value} else {},
         holder := t)
  }

  ghost predicate Start(s: State, n: nat) {
    && s.epoch == EP.Start(n) && CT.Start(s.core) && |s.core.walkers| == n && s.boxes == {} && s.guarded == {}
  }

  ghost predicate IsRun(n: nat, states: seq<State>, actions: seq<Action>, maxBits: nat) {
    && |states| == |actions| + 1
    && Start(states[0], n)
    && forall i :: 0 <= i < |actions| ==>
         Enabled(states[i], actions[i], maxBits) && states[i + 1] == Apply(states[i], actions[i], maxBits)
  }

  // ---- invariants ----

  /** A node is unlinked exactly when it has been in the trie and no longer is. */
  ghost predicate Tracked(t: Trie<nat, nat>, unlinked: set<EP.Object>) {
    forall x: nat :: NodeObject(x) in unlinked <==> x in t.mem && !Live(t, x)
  }

  ghost predicate Stored(t: Trie<nat, nat>, b: nat) {
    exists x :: x in t.mem && t.mem[x].value == Some(b)
  }

  /** A value is unlinked exactly when it has been in the trie and no longer is; and it is in one node only. */
  ghost predicate Boxed(t: Trie<nat, nat>, unlinked: set<EP.Object>, boxes: set<nat>) {
    && (forall x :: x in t.mem && t.mem[x].value.Some? ==>
          t.mem[x].value.value in boxes && BoxObject(t.mem[x].value.value) !in unlinked)
    && (forall b: nat :: BoxObject(b) in unlinked <==> b in boxes && !Stored(t, b))
    && (forall x, y :: x in t.mem && y in t.mem && t.mem[x].value.Some? && t.mem[x].value == t.mem[y].value ==> x == y)
  }

  /** What was unlinked by some moment is only pointed to by what was unlinked by then. */
  ghost predicate ClosedAt(t: Trie<nat, nat>, x: nat, past: set<EP.Object>)
    requires x in t.mem
  {
    NodeObject(x) !in past ==>
      && (forall bit :: t.mem[x].Child(bit).Some? ==> NodeObject(t.mem[x].Child(bit).value) !in past)
      && (t.mem[x].value.Some? ==> BoxObject(t.mem[x].value.value) !in past)
  }

  ghost predicate Closed(t: Trie<nat, nat>, past: set<EP.Object>) {
    forall x :: x in t.mem ==> ClosedAt(t, x, past)
  }

  ghost predicate SnapshotsClosed(s: State) {
    forall r: nat :: ES.Pinned(s.epoch, r) ==> Closed(s.core.t, s.epoch.records[r].seen)
  }

  /** The objects a walker has a pointer to were not unlinked when its reader announced itself. */
  ghost predicate HoldsUnseen(w: CT.Walker<nat, nat>, past: set<EP.Object>) {
    && (w.pc.Reading? && w.pc.current.Some? ==> NodeObject(w.pc.current.value) !in past)
    && (w.pc.Passing? ==> NodeObject(w.pc.x) !in past)
    && (w.best.Some? ==> BoxObject(w.best.value.1) !in past)
  }

  ghost predicate GuardOk(s: State, t: nat) {
    && t < |s.epoch.threads| && t < |s.core.walkers|
    && s.epoch.threads[t].nesting > 0 && s.epoch.threads[t].record.Some?
    && ES.Pinned(s.epoch, s.epoch.threads[t].record.value)
    && HoldsUnseen(s.core.walkers[t], s.epoch.records[s.epoch.threads[t].record.value].seen)
  }

  ghost predicate Guarded(s: State) {
    && (forall t :: t in s.guarded ==> GuardOk(s, t))
    && (forall t :: 0 <= t < |s.core.walkers| && CT.Walking(s.core.walkers[t]) ==> t in s.guarded)
  }

  ghost predicate Inv(s: State, maxBits: nat) {
    && ES.Inv(s.epoch) && EO.OrphansSafe(s.epoch) && CT.Inv(s.core, maxBits)
    && |s.core.walkers| == |s.epoch.threads|
    && Tracked(s.core.t, s.epoch.unlinked) && Boxed(s.core.t, s.epoch.unlinked, s.boxes)
    && SnapshotsClosed(s) && Guarded(s)
  }

  // ---- a store of the writer, in the trie ----

  /** The values that a store changes: a fresh one may come, an old one may go. */
  ghost predicate ValueStep(t: Trie<nat, nat>, t': Trie<nat, nat>, came: Option<nat>, went: Option<nat>) {
    && (forall x :: x in t'.mem && t'.mem[x].value.Some? ==>
          t'.mem[x].value == came || (x in t.mem && t'.mem[x].value == t.mem[x].value && t.mem[x].value != went))
    && (forall x, y :: x in t'.mem && y in t'.mem && came.Some? && t'.mem[x].value == came == t'.mem[y].value ==>
         x == y)
    && (forall x :: x in t.mem && t.mem[x].value != went && t.mem[x].value.Some? ==>
          x in t'.mem && t'.mem[x].value == t.mem[x].value)
    && (went.Some? ==> Stored(t, went.value)) && (came.Some? ==> Stored(t', came.value))
  }

  lemma NewValue(t: Trie<nat, nat>, t': Trie<nat, nat>, z: nat, value: nat, boxes: set<nat>, unlinked: set<EP.Object>)
    requires Boxed(t, unlinked, boxes) && value !in boxes && z !in t.mem && z in t'.mem
    requires t'.mem[z].value == Some(value) && t.mem.Keys <= t'.mem.Keys
    requires forall y :: y in t'.mem && y != z ==>
      if y in t.mem then t'.mem[y].value == t.mem[y].value else t'.mem[y].value.None?
    ensures ValueStep(t, t', Some(value), None)
  {
    assert Stored(t', value);
    assert forall x :: x in t.mem ==> x in t'.mem.Keys;
  }

  lemma InsertValues(
      t: Trie<nat, nat>, k: Bits, value: nat, how: Insertion<nat, nat>, boxes: set<nat>, unlinked: set<EP.Object>)
    requires Fits(t, k, how) && Boxed(t, unlinked, boxes) && value !in boxes
    ensures ValueStep(t, Inserted(t, k, value, how), Some(value), if how.Replace? then t.mem[how.x].value else None)
  {
    hide Boxed, ValueStep;
    var t' := Inserted(t, k, value, how);
    match how {
      case Leaf(slot, x) =>
        PublishLeaf(t, slot, x, k, Some(value), t');
        NewValue(t, t', x, value, boxes, unlinked);
      case Above(slot, c, x) =>
        PublishAbove(t, slot, c, x, k, Some(value), t');
        NewValue(t, t', x, value, boxes, unlinked);
      case Between(slot, bit, c, branch, leaf, j) =>
        SplitKeys(t, slot, bit, c, branch, leaf, j, k, value);
        SplitValues(t, slot, bit, c, branch, leaf, j, k, value);
        NewValue(t, t', leaf, value, boxes, unlinked);
      case Replace(x) => ReplacedValue(t, x, value, boxes, unlinked);
    }
  }

  lemma SplitValues(
      t: Trie<nat, nat>, slot: Slot<nat>, bit: bool, c: nat, branch: nat, leaf: nat, j: Bits, k: Bits, value: nat)
    requires (slot.ChildSlot? ==> slot.owner in t.mem) && branch !in t.mem && leaf !in t.mem && branch != leaf
    ensures var t' := Split(t, slot, bit, c, branch, leaf, j, k, value);
      && t'.mem[leaf].value == Some(value) && t.mem.Keys <= t'.mem.Keys
      && forall y :: y in t'.mem && y != leaf ==>
           if y in t.mem then t'.mem[y].value == t.mem[y].value else t'.mem[y].value.None?
  {
  }

  lemma ReplacedValue(t: Trie<nat, nat>, x: nat, value: nat, boxes: set<nat>, unlinked: set<EP.Object>)
    requires x in t.mem && Boxed(t, unlinked, boxes) && value !in boxes
    ensures ValueStep(t, t.StoreValue(x, Some(value)), Some(value), t.mem[x].value)
  {
  }

  lemma ClearedValue(t: Trie<nat, nat>, x: nat, boxes: set<nat>, unlinked: set<EP.Object>)
    requires x in t.mem && Boxed(t, unlinked, boxes) && t.mem[x].value.Some?
    ensures ValueStep(t, t.StoreValue(x, None), None, t.mem[x].value)
  {
  }

  lemma PrunedValues(t: Trie<nat, nat>, w: Writer<nat>)
    requires !w.Idle? && w.node in t.mem && (w.slot.ChildSlot? ==> w.slot.owner in t.mem)
    ensures ValueStep(t, Pruned(t, w).0, None, None)
  {
  }

  lemma BoxedStep(
      t: Trie<nat, nat>, t': Trie<nat, nat>, unlinked: set<EP.Object>, boxes: set<nat>, came: Option<nat>,
      went: Option<nat>)
    requires Boxed(t, unlinked, boxes) && ValueStep(t, t', came, went) && (came.Some? ==> came.value !in boxes)
    ensures Boxed(t', unlinked + (if went.Some? then {BoxObject(went.value)} else {}),
                  boxes + if came.Some? then {came.value} else {})
    ensures went.Some? ==> BoxObject(went.value) !in unlinked
  {
  }

  lemma ClosedStep(
      t: Trie<nat, nat>, t': Trie<nat, nat>, dropped: Option<nat>, unlinked': set<EP.Object>, boxes': set<nat>,
      past: set<EP.Object>, maxBits: nat)
    requires Evolves(t, t', dropped) && CT.HeapOk(t', maxBits)
    requires Tracked(t', unlinked') && Boxed(t', unlinked', boxes') && past <= unlinked' && Closed(t, past)
    ensures Closed(t', past)
  {
    hide Rooted, Complete;
    forall x | x in t'.mem ensures ClosedAt(t', x, past) {
      if Live(t', x) {
        forall bit | t'.mem[x].Child(bit).Some? ensures NodeObject(t'.mem[x].Child(bit).value) !in past {
          ChildLive(t', x, bit);
        }
      } else {
        assert CT.NodeOk(t', x, maxBits);
        assert ClosedAt(t, x, past) && t'.mem[x] == t.mem[x];
      }
    }
  }

  lemma TrackedStep(
      t: Trie<nat, nat>, t': Trie<nat, nat>, dropped: Option<nat>, unlinked: set<EP.Object>,
      unlinked': set<EP.Object>)
    requires Evolves(t, t', dropped) && Tracked(t, unlinked)
    requires forall x: nat :: NodeObject(x) in unlinked' <==> NodeObject(x) in unlinked || dropped == Some(x)
    ensures Tracked(t', unlinked')
    ensures dropped.Some? ==> NodeObject(dropped.value) !in unlinked
  {
    hide Good;
    forall x: nat ensures NodeObject(x) in unlinked' <==> x in t'.mem && !Live(t', x) {
      assert x in t.mem ==> x in t'.mem;
    }
  }

  // ---- every step ----

  lemma DomainStep(s: State, t: nat, step: EP.Action, maxBits: nat)
    requires Inv(s, maxBits) && Enabled(s, Domain(t, step), maxBits)
    ensures var e' := EP.Apply(s.epoch, t, step);
      && ES.Inv(e') && EO.OrphansSafe(e') && e'.unlinked == s.epoch.unlinked && |e'.threads| == |s.epoch.threads|
  {
    hide ES.Inv, EO.OrphansSafe, CT.Inv, Tracked, Boxed, SnapshotsClosed, Guarded;
    ES.StepKeepsInv(s.epoch, t, step);
    EO.StepKeepsOrphansSafe(EXIT_AGE, s.epoch, t, step);
  }

  /** Announcing takes the snapshot of what is unlinked, which is closed. */
  lemma UnlinkedClosed(t: Trie<nat, nat>, unlinked: set<EP.Object>, boxes: set<nat>)
    requires Good(t) && Tracked(t, unlinked) && Boxed(t, unlinked, boxes)
    ensures Closed(t, unlinked)
  {
    hide Rooted, Nested, Complete;
    forall x | x in t.mem ensures ClosedAt(t, x, unlinked) {
      if Live(t, x) {
        forall bit | t.mem[x].Child(bit).Some? ensures NodeObject(t.mem[x].Child(bit).value) !in unlinked {
          ChildLive(t, x, bit);
        }
      }
    }
  }

  lemma DomainKeepsSnapshots(s: State, t: nat, step: EP.Action, maxBits: nat)
    requires Inv(s, maxBits) && Enabled(s, Domain(t, step), maxBits)
    ensures SnapshotsClosed(Apply(s, Domain(t, step), maxBits))
  {
    hide EO.OrphansSafe, CT.Inv, Tracked, Boxed, Closed, Guarded, EP.Allowed, EP.Apply, ES.RecordsOwned;
    InvFacts(s, maxBits);
    var s' := Apply(s, Domain(t, step), maxBits);
    UnlinkedClosed(s.core.t, s.epoch.unlinked, s.boxes);
    AllowedIsEnabled(s.epoch, t, step);
    forall r: nat | ES.Pinned(s'.epoch, r) ensures Closed(s'.core.t, s'.epoch.records[r].seen) {
      ES.StepReader(s.epoch, t, step, r);
    }
  }

  lemma AllowedIsEnabled(e: EP.State, t: nat, step: EP.Action)
    requires EP.Allowed(EXIT_AGE, e, t, step)
    ensures EP.Enabled(e, t, step)
  {
  }

  lemma InvFacts(s: State, maxBits: nat)
    requires Inv(s, maxBits)
    ensures Good(s.core.t) && ES.RecordsOwned(s.epoch) && CT.HeapOk(s.core.t, maxBits)
    ensures forall r: nat :: ES.Pinned(s.epoch, r) ==>
      r < |s.epoch.records| && s.epoch.records[r].seen <= s.epoch.unlinked
    ensures forall t: nat :: t < |s.core.walkers| ==> CT.WalkerOk(s.core.t, s.core.walkers[t], maxBits)
  {
    CT.WriterInvGood(s.core.t, s.core.writer, maxBits);
    forall r: nat | ES.Pinned(s.epoch, r) ensures s.epoch.records[r].seen <= s.epoch.unlinked {
      assert ES.EpochClose(s.epoch, r);
    }
  }

  /** A guard keeps its record and its snapshot as long as it lasts. */
  lemma DomainKeepsGuard(s: State, t: nat, step: EP.Action, maxBits: nat, u: nat)
    requires Inv(s, maxBits) && Enabled(s, Domain(t, step), maxBits) && u in Apply(s, Domain(t, step), maxBits).guarded
    ensures GuardOk(Apply(s, Domain(t, step), maxBits), u)
  {
    hide EO.OrphansSafe, CT.Inv, Tracked, Boxed, SnapshotsClosed;
    InvFacts(s, maxBits);
    AllowedIsEnabled(s.epoch, t, step);
    assert GuardOk(s, u);
    GuardLasts(s.epoch, t, step, u);
  }

  lemma GuardLasts(e: EP.State, t: nat, step: EP.Action, u: nat)
    requires ES.RecordsOwned(e) && EP.Enabled(e, t, step) && !(step.Unpin? && t == u)
    requires u < |e.threads| && e.threads[u].nesting > 0 && e.threads[u].record.Some?
    requires ES.Pinned(e, e.threads[u].record.value)
    ensures var e', r := EP.Apply(e, t, step), e.threads[u].record.value;
      && u < |e'.threads| && e'.threads[u].nesting > 0 && e'.threads[u].record == e.threads[u].record
      && ES.Pinned(e', r) && e'.records[r].seen == e.records[r].seen
  {
    assert ES.Owner(e, e.threads[u]) && ES.Owner(e, e.threads[t]);
    ES.DistinctRecords(e, t, u);
  }

  lemma DomainKeepsGuarded(s: State, t: nat, step: EP.Action, maxBits: nat)
    requires Inv(s, maxBits) && Enabled(s, Domain(t, step), maxBits)
    ensures Guarded(Apply(s, Domain(t, step), maxBits))
  {
    hide ES.Inv, EO.OrphansSafe, CT.Inv, Tracked, Boxed, SnapshotsClosed, GuardOk, EP.Allowed, EP.Apply;
    var s' := Apply(s, Domain(t, step), maxBits);
    forall u | u in s'.guarded ensures GuardOk(s', u) {
      DomainKeepsGuard(s, t, step, maxBits, u);
    }
  }

  lemma RootUnseen(t: Trie<nat, nat>, unlinked: set<EP.Object>)
    requires Good(t) && Tracked(t, unlinked) && t.root.Some?
    ensures NodeObject(t.root.value) !in unlinked
  {
  }

  /** What a walker reads through a pointer it may hold, it may hold. */
  lemma WalkHolds(t: Trie<nat, nat>, w: CT.Walker<nat, nat>, past: set<EP.Object>, maxBits: nat)
    requires Closed(t, past) && HoldsUnseen(w, past)
    ensures w.pc.Reading? && (w.pc.current.Some? ==> w.pc.current.value in t.mem) ==>
      HoldsUnseen(CT.Visited(t, w, maxBits), past)
    ensures w.pc.Passing? && w.pc.x in t.mem && |t.mem[w.pc.x].key| < |w.address| ==>
      HoldsUnseen(CT.Followed(t, w), past)
  {
    if w.pc.Reading? && w.pc.current.Some? && w.pc.current.value in t.mem {
      assert ClosedAt(t, w.pc.current.value, past);
    }
    if w.pc.Passing? && w.pc.x in t.mem {
      assert ClosedAt(t, w.pc.x, past);
    }
  }

  lemma LookupKeepsGuard(s: State, t: nat, walk: CT.Action<nat, nat>, maxBits: nat)
    requires Inv(s, maxBits) && Enabled(s, Lookup(t, walk), maxBits)
    ensures GuardOk(Apply(s, Lookup(t, walk), maxBits), t)
  {
    hide EO.OrphansSafe, CT.Inv, Tracked, Boxed, Closed;
    InvFacts(s, maxBits);
    assert ES.Owner(s.epoch, s.epoch.threads[t]);
    var r := s.epoch.threads[t].record.value;
    assert ES.Pinned(s.epoch, r);
    var past := s.epoch.records[r].seen;
    var w := s.core.walkers[t];
    if walk.Begin? {
      if s.core.t.root.Some? {
        RootUnseen(s.core.t, s.epoch.unlinked);
      }
    } else {
      assert GuardOk(s, t);
      WalkHolds(s.core.t, w, past, maxBits);
    }
  }

  lemma LookupKeepsGuarded(s: State, t: nat, walk: CT.Action<nat, nat>, maxBits: nat)
    requires Inv(s, maxBits) && Enabled(s, Lookup(t, walk), maxBits)
    ensures Guarded(Apply(s, Lookup(t, walk), maxBits))
  {
    hide ES.Inv, EO.OrphansSafe, CT.Inv, Tracked, Boxed, SnapshotsClosed;
    var s' := Apply(s, Lookup(t, walk), maxBits);
    LookupKeepsGuard(s, t, walk, maxBits);
    forall u | u in s'.guarded ensures GuardOk(s', u) {
      if u != t {
        assert GuardOk(s, u);
      }
    }
  }

  lemma UnlinkKeeps(e: EP.State, t: nat, item: EP.Object)
    requires ES.Inv(e) && EO.OrphansSafe(e) && EP.Enabled(e, t, EP.Unlink(item))
    ensures var e' := EP.Apply(e, t, EP.Unlink(item));
      && ES.Inv(e') && EO.OrphansSafe(e') && e'.unlinked == e.unlinked + {item} && e'.records == e.records
      && |e'.threads| == |e.threads|
      && forall u :: 0 <= u < |e.threads| ==>
           e'.threads[u].nesting == e.threads[u].nesting && e'.threads[u].record == e.threads[u].record
  {
    hide ES.Inv, EO.OrphansSafe;
    ES.StepKeepsInv(e, t, EP.Unlink(item));
    EO.StepKeepsOrphansSafe(EXIT_AGE, e, t, EP.Unlink(item));
  }

  /** What a store does: the trie evolves, and the one object it takes out had not been unlinked before. */
  lemma WriteInTrie(s: State, store: CT.Action<nat, nat>, maxBits: nat)
      returns (dropped: Option<nat>, came: Option<nat>, went: Option<nat>)
    requires CT.Inv(s.core, maxBits) && Boxed(s.core.t, s.epoch.unlinked, s.boxes) && CT.Enabled(s.core, store, maxBits)
    requires (store.Insert? || store.Erase? || store.Prune?) && (store.Insert? ==> store.value !in s.boxes)
    ensures var c' := CT.Apply(s.core, store, maxBits);
      && Evolves(s.core.t, c'.t, dropped) && ValueStep(s.core.t, c'.t, came, went)
      && c' == CT.Stored(s.core, c'.t, c'.writer, dropped)
    ensures came == if store.Insert? then Some(store.value) else None
    ensures DroppedBy(s.core, store, maxBits) ==
      if dropped.Some? then Some(NodeObject(dropped.value))
      else if went.Some? then Some(BoxObject(went.value)) else None
    ensures dropped.None? || went.None?
  {
    hide Good, Table, Evolves, Bounded, CompressedBut, Holds, ValueStep, Boxed, Inserted, CT.WalkerOk, CT.HeapOk;
    CT.WriterInvGood(s.core.t, s.core.writer, maxBits);
    dropped := CT.WriterStep(s.core, store, maxBits);
    came := if store.Insert? then Some(store.value) else None;
    went := None;
    match store {
      case Insert(k, value, how) =>
        InsertValues(s.core.t, k, value, how, s.boxes, s.epoch.unlinked);
        if how.Replace? {
          went := s.core.t.mem[how.x].value;
        }
      case Erase(slot, node, up) =>
        ClearedValue(s.core.t, node, s.boxes, s.epoch.unlinked);
        went := s.core.t.mem[node].value;
      case Prune => PrunedValues(s.core.t, s.core.writer);
    }
  }

  lemma WriteKeepsGuarded(s: State, t: nat, store: CT.Action<nat, nat>, maxBits: nat)
    requires Inv(s, maxBits) && Enabled(s, Write(t, store), maxBits)
    ensures Guarded(Apply(s, Write(t, store), maxBits))
  {
    hide EO.OrphansSafe, CT.Inv, Tracked, Boxed, SnapshotsClosed, EP.Apply, DroppedBy, ES.Inv;
    var s' := Apply(s, Write(t, store), maxBits);
    var dropped := DroppedBy(s.core, store, maxBits);
    if dropped.Some? {
      UnlinkKeeps(s.epoch, t, dropped.value);
    }
    WriteKeepsWalkers(s.core, store, maxBits);
    forall u | u in s'.guarded ensures GuardOk(s', u) {
      assert GuardOk(s, u);
    }
  }

  /** A store does not move the readers. */
  lemma WriteKeepsWalkers(c: Core, store: CT.Action<nat, nat>, maxBits: nat)
    requires CT.Enabled(c, store, maxBits) && (store.Insert? || store.Erase? || store.Prune?)
    ensures var c' := CT.Apply(c, store, maxBits);
      && |c'.walkers| == |c.walkers|
      && forall u :: 0 <= u < |c.walkers| ==>
           c'.walkers[u].pc == c.walkers[u].pc && c'.walkers[u].best == c.walkers[u].best
  {
    hide Inserted, Pruned, Table, Fits;
  }

  lemma WriteKeepsSnapshots(s: State, s': State, t: nat, dropped: Option<nat>, maxBits: nat)
    requires Inv(s, maxBits) && CT.HeapOk(s'.core.t, maxBits) && Evolves(s.core.t, s'.core.t, dropped)
    requires Tracked(s'.core.t, s'.epoch.unlinked) && Boxed(s'.core.t, s'.epoch.unlinked, s'.boxes)
    requires s'.epoch.records == s.epoch.records && s.epoch.unlinked <= s'.epoch.unlinked
    ensures SnapshotsClosed(s')
  {
    hide Good, Evolves, Tracked, Boxed, Closed, CT.HeapOk, Guarded, EO.OrphansSafe, CT.Inv;
    InvFacts(s, maxBits);
    forall r: nat | ES.Pinned(s'.epoch, r) ensures Closed(s'.core.t, s'.epoch.records[r].seen) {
      assert ES.Pinned(s.epoch, r);
      ClosedStep(s.core.t, s'.core.t, dropped, s'.epoch.unlinked, s'.boxes, s.epoch.records[r].seen, maxBits);
    }
  }

  lemma CoreHeap(c: Core, maxBits: nat)
    requires CT.Inv(c, maxBits)
    ensures CT.HeapOk(c.t, maxBits) && Good(c.t)
  {
    CT.WriterInvGood(c.t, c.writer, maxBits);
  }

  lemma WriteKeepsInv(s: State, t: nat, store: CT.Action<nat, nat>, maxBits: nat)
    requires Inv(s, maxBits) && Enabled(s, Write(t, store), maxBits)
    ensures Inv(Apply(s, Write(t, store), maxBits), maxBits)
  {
    hide EO.OrphansSafe, CT.Inv, Tracked, Boxed, SnapshotsClosed, Guarded, ES.Inv, EP.Apply, DroppedBy, Evolves;
    hide ValueStep, CT.Apply, Good, CT.HeapOk;
    var s' := Apply(s, Write(t, store), maxBits);
    WriteKeepsGuarded(s, t, store, maxBits);
    WriteKeepsWalkers(s.core, store, maxBits);
    CT.StepKeepsInv(s.core, store, maxBits);
    CoreHeap(s'.core, maxBits);
    var dropped, came, went := WriteInTrie(s, store, maxBits);
    var item := DroppedBy(s.core, store, maxBits);
    if item.Some? {
      UnlinkKeeps(s.epoch, t, item.value);
    }
    TrackedStep(s.core.t, s'.core.t, dropped, s.epoch.unlinked, s'.epoch.unlinked);
    BoxedStep(s.core.t, s'.core.t, s.epoch.unlinked, s.boxes, came, went);
    BoxedAlso(
      s'.core.t, s.epoch.unlinked + (if went.Some? then {BoxObject(went.value)} else {}), s'.epoch.unlinked, s'.boxes);
    WriteKeepsSnapshots(s, s', t, dropped, maxBits);
  }

  /** Nodes are not boxes. */
  lemma BoxedAlso(t: Trie<nat, nat>, unlinked: set<EP.Object>, unlinked': set<EP.Object>, boxes: set<nat>)
    requires Boxed(t, unlinked, boxes) && forall b: nat :: BoxObject(b) in unlinked' <==> BoxObject(b) in unlinked
    ensures Boxed(t, unlinked', boxes)
  {
  }

  lemma StepKeepsInv(s: State, a: Action, maxBits: nat)
    requires Inv(s, maxBits) && Enabled(s, a, maxBits)
    ensures Inv(Apply(s, a, maxBits), maxBits)
  {
    hide EO.OrphansSafe, CT.Inv, Tracked, Boxed, SnapshotsClosed, Guarded, ES.Inv, EP.Apply, CT.Apply, CT.Enabled;
    hide EP.Allowed, DroppedBy;
    match a {
      case Domain(t, step) =>
        DomainStep(s, t, step, maxBits);
        DomainKeepsSnapshots(s, t, step, maxBits);
        DomainKeepsGuarded(s, t, step, maxBits);
      case Lookup(t, walk) =>
        CT.StepKeepsInv(s.core, walk, maxBits);
        LookupKeepsGuarded(s, t, walk, maxBits);
        LookupSame(s, t, walk, maxBits);
      case Write(t, store) => WriteKeepsInv(s, t, store, maxBits);
    }
  }

  lemma LookupSame(s: State, t: nat, walk: CT.Action<nat, nat>, maxBits: nat)
    requires Enabled(s, Lookup(t, walk), maxBits) && SnapshotsClosed(s)
    ensures var s' := Apply(s, Lookup(t, walk), maxBits);
      s'.core.t == s.core.t && |s'.core.walkers| == |s.core.walkers| && SnapshotsClosed(s')
  {
  }

  lemma StartDomain(n: nat)
    ensures ES.Inv(EP.Start(n)) && EO.OrphansSafe(EP.Start(n))
  {
  }

  lemma StartCore(core: Core, maxBits: nat)
    requires CT.Start(core)
    ensures CT.Inv(core, maxBits)
  {
  }

  lemma StartInv(s: State, n: nat, maxBits: nat)
    requires Start(s, n)
    ensures Inv(s, maxBits)
  {
    StartDomain(n);
    StartCore(s.core, maxBits);
    hide ES.Inv, EO.OrphansSafe, CT.Inv;
  }

  lemma {:induction false} RunKeepsInv(n: nat, states: seq<State>, actions: seq<Action>, maxBits: nat, i: nat)
    requires IsRun(n, states, actions, maxBits) && i < |states|
    ensures Inv(states[i], maxBits)
  {
    hide Enabled, Apply, Inv, Start;
    if i == 0 {
      StartInv(states[0], n, maxBits);
    } else {
      RunKeepsInv(n, states, actions, maxBits, i - 1);
      StepKeepsInv(states[i - 1], actions[i - 1], maxBits);
    }
  }

  // ---- the theorems ----

  ghost predicate PointsTo(t: Trie<nat, nat>, x: nat, y: nat) {
    x in t.mem && (t.mem[x].left == Some(y) || t.mem[x].right == Some(y))
  }

  /** A path of child pointers in the present memory, through live nodes or retired ones. */
  ghost predicate Path(t: Trie<nat, nat>, path: seq<nat>) {
    path != [] && forall i :: 0 <= i < |path| ==> path[i] in t.mem && (i > 0 ==> PointsTo(t, path[i - 1], path[i]))
  }

  ghost predicate Freed(e: EP.State, item: EP.Object) {
    exists f :: f in e.freed && f.item == item
  }

  lemma {:induction false} PathUnseen(t: Trie<nat, nat>, path: seq<nat>, past: set<EP.Object>, k: nat)
    requires Closed(t, past) && Path(t, path) && NodeObject(path[0]) !in past && k < |path|
    ensures path[k] in t.mem && NodeObject(path[k]) !in past
    ensures t.mem[path[k]].value.Some? ==> BoxObject(t.mem[path[k]].value.value) !in past
  {
    if k == 0 {
    } else {
      PathUnseen(t, path, past, k - 1);
      assert ClosedAt(t, path[k - 1], past);
      assert PointsTo(t, path[k - 1], path[k]);
      assert t.mem[path[k - 1]].Child(t.mem[path[k - 1]].right == Some(path[k])) == Some(path[k]);
    }
    assert ClosedAt(t, path[k], past);
  }

  /** What was not unlinked when a pinned reader announced itself has not been freed. */
  lemma UnseenUnfreed(e: EP.State, r: nat, item: EP.Object)
    requires ES.Inv(e) && EO.OrphansSafe(e) && ES.Pinned(e, r) && item !in e.records[r].seen
    ensures !Freed(e, item)
  {
    assert EO.GraceHoldsForAll(e);
    forall f | f in e.freed ensures f.item != item {
      assert !ES.MayHold(e, r, f.item);
    }
  }

  /** The node a lookup under a guard stands at, if any. */
  ghost function Position(w: CT.Walker<nat, nat>): Option<nat> {
    match w.pc
    case Reading(current) => current
    case Passing(x) => Some(x)
    case _ => None
  }

  /** No node and no value that a guarded lookup holds or can still reach is freed: neither the answer it has, until
      its guard ends, nor anything down any chain of child pointers from where it stands, even through nodes that were
      retired long ago. */
  lemma GuardProtects(s: State, maxBits: nat, u: nat, path: seq<nat>, k: nat)
    requires Inv(s, maxBits) && u in s.guarded
    ensures u < |s.core.walkers|
    ensures var w := s.core.walkers[u];
      && (w.best.Some? ==> !Freed(s.epoch, BoxObject(w.best.value.1)))
      && (Path(s.core.t, path) && Position(w) == Some(path[0]) && k < |path| ==>
            && !Freed(s.epoch, NodeObject(path[k]))
            && (s.core.t.mem[path[k]].value.Some? ==>
                  !Freed(s.epoch, BoxObject(s.core.t.mem[path[k]].value.value))))
  {
    hide ES.Inv, EO.OrphansSafe, CT.Inv, Tracked, Boxed, Closed, Freed;
    assert GuardOk(s, u);
    var r, w := s.epoch.threads[u].record.value, s.core.walkers[u];
    if w.best.Some? {
      UnseenUnfreed(s.epoch, r, BoxObject(w.best.value.1));
    }
    if Path(s.core.t, path) && Position(w) == Some(path[0]) && k < |path| {
      PathUnseen(s.core.t, path, s.epoch.records[r].seen, k);
      UnseenUnfreed(s.epoch, r, NodeObject(path[k]));
      if s.core.t.mem[path[k]].value.Some? {
        UnseenUnfreed(s.epoch, r, BoxObject(s.core.t.mem[path[k]].value.value));
      }
    }
  }

  /** So it is in every state of every run. */
  lemma NothingReachableIsFreed(
      n: nat, states: seq<State>, actions: seq<Action>, maxBits: nat, i: nat, u: nat, path: seq<nat>, k: nat)
    requires IsRun(n, states, actions, maxBits) && i < |states| && u in states[i].guarded
    ensures u < |states[i].core.walkers|
    ensures var s, w := states[i], states[i].core.walkers[u];
      && (w.best.Some? ==> !Freed(s.epoch, BoxObject(w.best.value.1)))
      && (Path(s.core.t, path) && Position(w) == Some(path[0]) && k < |path| ==>
            && !Freed(s.epoch, NodeObject(path[k]))
            && (s.core.t.mem[path[k]].value.Some? ==>
                  !Freed(s.epoch, BoxObject(s.core.t.mem[path[k]].value.value))))
  {
    hide Inv, Freed, Path, Position;
    RunKeepsInv(n, states, actions, maxBits, i);
    GuardProtects(states[i], maxBits, u, path, k);
  }

  /** A lookup walks under a guard, always: where it stands exists and is not freed, and its next step is enabled. */
  lemma LookupsAreGuarded(n: nat, states: seq<State>, actions: seq<Action>, maxBits: nat, i: nat, u: nat)
    requires IsRun(n, states, actions, maxBits) && i < |states| && u < |states[i].core.walkers|
    requires CT.Walking(states[i].core.walkers[u])
    ensures u in states[i].guarded && u < |states[i].epoch.threads| && states[i].epoch.threads[u].nesting > 0
    ensures Position(states[i].core.walkers[u]).Some? ==>
      var x := Position(states[i].core.walkers[u]).value;
      x in states[i].core.t.mem && !Freed(states[i].epoch, NodeObject(x))
  {
    hide WriterInv, CT.HeapOk, ES.Inv, EO.OrphansSafe, Tracked, Boxed, SnapshotsClosed, Freed;
    RunKeepsInv(n, states, actions, maxBits, i);
    var s := states[i];
    assert GuardOk(s, u);
    var w := s.core.walkers[u];
    assert CT.WalkerOk(s.core.t, w, maxBits);
    if Position(w).Some? {
      NothingReachableIsFreed(n, states, actions, maxBits, i, u, [Position(w).value], 0);
    }
  }

  /** What a lookup returns is what ConcurrentTrie promises, reclamation or not: it misses nothing that was stored
      throughout since its last read; it was stored under a covering prefix when it was read; it is the longest match
      at that read if no covering prefix was lost since, and at the start or the end if at most one changed. */
  lemma LookupsAreRight(n: nat, states: seq<State>, actions: seq<Action>, maxBits: nat, i: nat, u: nat)
    requires IsRun(n, states, actions, maxBits) && i < |states|
    requires u < |states[i].core.walkers| && states[i].core.walkers[u].pc.Finished?
    ensures var w := states[i].core.walkers[u];
      && w.visited <= maxBits + 1 && w.readAt < |w.tables|
      && (forall k :: CT.Throughout(w.tables[w.readAt..], k) && k <= w.address ==> CT.Covered(w.best, k))
      && CT.Genuine(w)
      && (CT.NothingLost(w) ==> CT.Answer(w) == Lpm(w.tables[w.readAt], w.address))
      && (CT.Changes(w.tables, w.address) <= 1 ==>
            CT.Answer(w) == Lpm(w.tables[0], w.address) || CT.Answer(w) == Lpm(w.tables[|w.tables| - 1], w.address))
  {
    hide WriterInv, CT.HeapOk, ES.Inv, EO.OrphansSafe, Tracked, Boxed, SnapshotsClosed, Guarded;
    hide CT.Gradual, CT.Changes, CT.Answer, CT.Genuine, CT.NothingLost, CT.Covered, Lpm;
    RunKeepsInv(n, states, actions, maxBits, i);
    var w := states[i].core.walkers[u];
    CT.FinishedIsRight(states[i].core.t, w, maxBits);
  }

  /** Nothing leaks and nothing is retired that is in use: in every run the objects that have been unlinked are exactly
      the nodes and the values that were in the trie and no longer are. EpochAccounting says what becomes of them. */
  lemma UnlinkedExactly(n: nat, states: seq<State>, actions: seq<Action>, maxBits: nat, i: nat)
    requires IsRun(n, states, actions, maxBits) && i < |states|
    ensures var s := states[i];
      && (forall x: nat :: NodeObject(x) in s.epoch.unlinked <==> x in s.core.t.mem && !Live(s.core.t, x))
      && (forall b: nat :: BoxObject(b) in s.epoch.unlinked <==> b in s.boxes && !Stored(s.core.t, b))
  {
    hide CT.Inv, ES.Inv, EO.OrphansSafe, SnapshotsClosed, Guarded;
    RunKeepsInv(n, states, actions, maxBits, i);
  }

  /** The writer never unlinks an object twice, so its stores are never refused by the domain. */
  lemma UnlinksOnce(n: nat, states: seq<State>, actions: seq<Action>, maxBits: nat, i: nat, store: CT.Action<nat, nat>)
    requires IsRun(n, states, actions, maxBits) && i < |states|
    requires CT.Enabled(states[i].core, store, maxBits) && (store.Insert? || store.Erase? || store.Prune?)
    requires store.Insert? ==> store.value !in states[i].boxes
    ensures DroppedBy(states[i].core, store, maxBits).Some? ==>
      DroppedBy(states[i].core, store, maxBits).value !in states[i].epoch.unlinked
  {
    hide CT.Inv, ES.Inv, EO.OrphansSafe, SnapshotsClosed, Guarded, DroppedBy, CT.Apply, CT.Enabled, Evolves, ValueStep;
    hide Boxed, Tracked;
    var s := states[i];
    RunKeepsInv(n, states, actions, maxBits, i);
    var dropped, came, went := WriteInTrie(s, store, maxBits);
    var t' := CT.Apply(s.core, store, maxBits).t;
    BoxedStep(s.core.t, t', s.epoch.unlinked, s.boxes, came, went);
    if dropped.Some? {
      TrackedStep(s.core.t, t', dropped, s.epoch.unlinked, s.epoch.unlinked + {NodeObject(dropped.value)});
    }
  }
}
