/**
 The writer of a trie, store by store, as concurrent readers see it.

 An insertion reads what it likes and then makes one store. An erasure makes up to three: it clears the value,
 then drops the node, then its parent. Only one writer runs at a time, so what it reads in between cannot change.
 A node that it dropped stays in memory, for the readers that still hold it.
 */
module TrieSteps {
  import opened Wrappers
  import opened Bits
  import opened TrieStore

  /** The store that an insertion makes, with the nodes it has built for it. */
  datatype Insertion<R, V> =
    | Leaf(slot: Slot<R>, x: R)
    | Above(slot: Slot<R>, c: R, x: R)
    | Between(slot: Slot<R>, bit: bool, c: R, branch: R, leaf: R, j: Bits)
    | Replace(x: R)

  /** The descent for k ends where this store is the one to make. */
  ghost predicate Fits<R, V>(t: Trie<R, V>, k: Bits, how: Insertion<R, V>) {
    match how
    case Leaf(slot, x) => x !in t.mem && OnPath(t, slot, k) && t.Load(slot) == None
    case Above(slot, c, x) =>
      x !in t.mem && OnPath(t, slot, k) && t.Load(slot) == Some(c) && c in t.mem && k < t.mem[c].key
    case Between(slot, bit, c, branch, leaf, j) =>
      && branch !in t.mem && leaf !in t.mem && branch != leaf
      && OnPath(t, slot, k) && t.Load(slot) == Some(c) && c in t.mem && Fork(t.mem[c].key, k, j, bit)
    case Replace(x) => Live(t, x) && t.mem[x].key == k
  }

  ghost function Inserted<R, V>(t: Trie<R, V>, k: Bits, value: V, how: Insertion<R, V>): Trie<R, V>
    requires Fits(t, k, how)
  {
    match how
    case Leaf(slot, x) => Publish(t, x, Node(k, Some(value), None, None), slot)
    case Above(slot, c, x) =>
      Publish(t, x, Node.Node(k, Some(value), None, None).WithChild(t.mem[c].key[|k|], Some(c)), slot)
    case Between(slot, bit, c, branch, leaf, j) => Split(t, slot, bit, c, branch, leaf, j, k, value)
    case Replace(x) => t.StoreValue(x, Some(value))
  }

  /** Where the writer stands: between operations, or in the middle of an erasure. `slot` holds `node`, and
      `up` holds the owner of `slot`. */
  datatype Writer<R> =
    | Idle
    | Pruning(slot: Slot<R>, node: R, up: Slot<R>)
    | PruningParent(slot: Slot<R>, node: R)

  ghost predicate CanErase<R, V>(t: Trie<R, V>, slot: Slot<R>, node: R, up: Slot<R>) {
    && Live(t, node) && t.mem[node].value.Some?
    && Holds(t, slot, Some(node)) && (slot.ChildSlot? ==> Holds(t, up, Some(slot.owner)))
  }

  ghost predicate OneChild<R, V>(t: Trie<R, V>, node: R) {
    node in t.mem && (t.mem[node].left.None? || t.mem[node].right.None?)
  }

  ghost function Bypassed<R, V>(t: Trie<R, V>, slot: Slot<R>, node: R): Trie<R, V>
    requires node in t.mem && (slot.ChildSlot? ==> slot.owner in t.mem)
  {
    t.Store(slot, Survivor(t.mem[node])).(index := t.index - {t.mem[node].key})
  }

  /** Bypassing a node x that holds no value and has at most one child, and retiring it. */
  lemma BypassedIs<R, V>(t: Trie<R, V>, slot: Slot<R>, x: R, t': Trie<R, V>, maxBits: nat, retired: seq<R>)
    requires Good(t) && Bounded(t, maxBits) && Live(t, x) && Holds(t, slot, Some(x))
    requires slot.ChildSlot? ==> slot.owner in t.mem
    requires t.mem[x].value.None? && (t.mem[x].left.None? || t.mem[x].right.None?)
    requires CompressedBut(t, {t.mem[x].key}) && Disposed(t, retired)
    requires t' == Bypassed(t, slot, x)
    ensures Bypasses(t, slot, x, t') && Disposed(t', retired + [x])
    ensures Good(t') && Bounded(t', maxBits) && Table(t') == Table(t)
    ensures |t'.index| + 1 == |t.index| && t'.mem.Keys == t.mem.Keys
    ensures slot.RootSlot? || Survivor(t.mem[x]).Some? || t.mem[slot.owner].value.Some? ==> CompressedBut(t', {})
    ensures slot.ChildSlot? ==> Live(t', slot.owner) && CompressedBut(t', {t.mem[slot.owner].key})
    ensures slot.ChildSlot? ==> t'.mem[slot.owner].value == t.mem[slot.owner].value
    ensures slot.ChildSlot? && t.mem[slot.owner].value.None? ==> t'.mem[slot.owner].Child(!slot.bit).Some?
  {
    hide Good, Table, Bounded, CompressedBut, Disposed, Holds, Bypasses;
    NodeBypassed(t, slot, x, t', maxBits);
    BypassDisposes(t, slot, x, t', retired);
  }

  /** What the writer knows at each point: the strong invariant between operations, and in the middle of one that
      only the node it is looking at may not earn its place. */
  ghost predicate WriterInv<R, V>(t: Trie<R, V>, w: Writer<R>, maxBits: nat) {
    && Good(t) && Bounded(t, maxBits)
    && match w
       case Idle => Compressed(t)
       case Pruning(slot, node, up) =>
         && Live(t, node) && t.mem[node].value.None? && CompressedBut(t, {t.mem[node].key})
         && Holds(t, slot, Some(node)) && (slot.ChildSlot? ==> Holds(t, up, Some(slot.owner)))
       case PruningParent(slot, node) =>
         && Live(t, node) && t.mem[node].value.None? && CompressedBut(t, {t.mem[node].key})
         && Holds(t, slot, Some(node)) && (t.mem[node].left.Some? || t.mem[node].right.Some?)
  }

  /** The next step of a pruning writer, and the node it drops. */
  ghost function Pruned<R, V>(t: Trie<R, V>, w: Writer<R>): (Trie<R, V>, Writer<R>, Option<R>)
    requires !w.Idle? && w.node in t.mem && (w.slot.ChildSlot? ==> w.slot.owner in t.mem)
  {
    if !OneChild(t, w.node) then (t, Idle, None)
    else
      var next :=
        if w.Pruning? && w.slot.ChildSlot? && t.mem[w.slot.owner].value.None?
        then PruningParent(w.up, w.slot.owner) else Idle;
      (Bypassed(t, w.slot, w.node), next, Some(w.node))
  }

  /** A whole insertion: one store. */
  ghost predicate InsertionRun<R, V>(t: Trie<R, V>, k: Bits, value: V, how: Insertion<R, V>, t': Trie<R, V>) {
    Fits(t, k, how) && t' == Inserted(t, k, value, how)
  }

  /** What an insertion that makes a new node for k does to all that a writer keeps. */
  ghost predicate Adds<R, V>(
      t: Trie<R, V>, k: Bits, value: V, how: Insertion<R, V>, t': Trie<R, V>, maxBits: nat, retired: seq<R>,
      more: nat) {
    && Sound(t', maxBits) && Disposed(t', retired) && InsertionRun(t, k, value, how, t')
    && k !in Table(t) && Table(t') == Table(t)[k := value]
    && |t'.index| == |t.index| + more && |Table(t')| == |Table(t)| + 1
  }

  lemma LeafAdds<R, V>(
      t: Trie<R, V>, slot: Slot<R>, x: R, k: Bits, value: V, t': Trie<R, V>, maxBits: nat, retired: seq<R>)
    requires Sound(t, maxBits) && Disposed(t, retired) && |k| <= maxBits
    requires OnPath(t, slot, k) && t.Load(slot) == None && x !in t.mem
    requires t' == Publish(t, x, Node(k, Some(value), None, None), slot)
    ensures Adds(t, k, value, Leaf(slot, x), t', maxBits, retired, 1)
  {
    hide Sound, Table, Disposed, Publish;
    LeafInserted(t, slot, x, k, value, t', maxBits);
    PublishDisposes(t, x, Node(k, Some(value), None, None), slot, retired);
  }

  lemma AboveAdds<R, V>(
      t: Trie<R, V>, slot: Slot<R>, side: bool, c: R, x: R, k: Bits, value: V, t': Trie<R, V>, maxBits: nat,
      retired: seq<R>)
    requires Sound(t, maxBits) && Disposed(t, retired) && |k| <= maxBits
    requires OnPath(t, slot, k) && t.Load(slot) == Some(c) && x !in t.mem
    requires c in t.mem && k < t.mem[c].key && side == t.mem[c].key[|k|]
    requires t' == Publish(
      t, x, Node(k, Some(value), if side then None else Some(c), if side then Some(c) else None), slot)
    ensures Adds(t, k, value, Above(slot, c, x), t', maxBits, retired, 1)
  {
    hide Sound, Table, Disposed, Publish;
    var node := Node.Node(k, Some(value), None, None).WithChild(side, Some(c));
    assert node == Node(k, Some(value), if side then None else Some(c), if side then Some(c) else None);
    AboveInserted(t, slot, c, x, k, value, t', maxBits);
    PublishDisposes(t, x, node, slot, retired);
  }

  lemma ForkAt(key: Bits, k: Bits, n: nat)
    requires n == Shared(key, k) && n < |key| && n < |k|
    ensures Fork(key, k, k[..n], key[n])
  {
  }

  lemma SplitAdds<R, V>(
      t: Trie<R, V>, slot: Slot<R>, bit: bool, c: R, branch: R, leaf: R, j: Bits, k: Bits, value: V, t': Trie<R, V>,
      maxBits: nat, retired: seq<R>)
    requires Sound(t, maxBits) && Disposed(t, retired) && |k| <= maxBits
    requires OnPath(t, slot, k) && t.Load(slot) == Some(c)
    requires branch !in t.mem && leaf !in t.mem && branch != leaf
    requires c in t.mem && Fork(t.mem[c].key, k, j, bit)
    requires t' == Split(t, slot, bit, c, branch, leaf, j, k, value)
    ensures Adds(t, k, value, Between(slot, bit, c, branch, leaf, j), t', maxBits, retired, 2)
  {
    hide Sound, Table, Disposed, Split, Fork;
    SplitInserted(t, slot, bit, c, branch, leaf, j, k, value, t', maxBits);
    SplitDisposes(t, slot, bit, c, branch, leaf, j, k, value, retired);
  }

  /** The rest of an erasure, which drops these nodes, in this order. */
  ghost predicate PruningRun<R, V>(t: Trie<R, V>, w: Writer<R>, t': Trie<R, V>, dropped: seq<R>)
    decreases match w case Idle => 0 case PruningParent(_, _) => 1 case Pruning(_, _, _) => 2
  {
    if w.Idle? then t' == t && dropped == []
    else
      && w.node in t.mem && (w.slot.ChildSlot? ==> w.slot.owner in t.mem)
      && var (t1, w1, first) := Pruned(t, w);
         if first.None? then PruningRun(t1, w1, t', dropped)
         else dropped != [] && dropped[0] == first.value && PruningRun(t1, w1, t', dropped[1..])
  }

  lemma PruningStops<R, V>(t: Trie<R, V>, w: Writer<R>)
    requires !w.Idle? && w.node in t.mem && (w.slot.ChildSlot? ==> w.slot.owner in t.mem)
    requires w.Pruning? && OneChild(t, w.node) ==> w.slot.RootSlot? || t.mem[w.slot.owner].value.Some?
    ensures OneChild(t, w.node) ==> PruningRun(t, w, Bypassed(t, w.slot, w.node), [w.node])
    ensures !OneChild(t, w.node) ==> PruningRun(t, w, t, [])
  {
    assert Pruned(t, w).1 == Idle;
  }

  lemma PruningGoesOn<R, V>(t: Trie<R, V>, w: Writer<R>, t': Trie<R, V>, dropped: seq<R>)
    requires w.Pruning? && w.node in t.mem && w.slot.ChildSlot? && w.slot.owner in t.mem
    requires OneChild(t, w.node) && t.mem[w.slot.owner].value.None?
    requires PruningRun(Bypassed(t, w.slot, w.node), PruningParent(w.up, w.slot.owner), t', dropped)
    ensures PruningRun(t, w, t', [w.node] + dropped)
  {
    assert ([w.node] + dropped)[1..] == dropped;
  }

  /** A whole erasure, which enters the pruning at `w`. */
  ghost predicate ErasureRun<R, V>(t: Trie<R, V>, k: Bits, w: Writer<R>, t': Trie<R, V>, dropped: seq<R>) {
    && w.Pruning? && CanErase(t, w.slot, w.node, w.up) && t.mem[w.node].key == k
    && PruningRun(t.StoreValue(w.node, None), w, t', dropped)
  }

  // ---- what readers can rely on ----

  /** t' follows t by a store that drops at most one node: all that is dead is frozen, and what dies now does not
      change by it. */
  ghost predicate Evolves<R, V>(t: Trie<R, V>, t': Trie<R, V>, dropped: Option<R>) {
    && Good(t')
    && (forall y :: y in t.mem ==> y in t'.mem && t'.mem[y].key == t.mem[y].key)
    && (forall y :: y in t.mem && !Live(t, y) ==> !Live(t', y) && t'.mem[y] == t.mem[y])
    && (forall y :: y in t.mem && Live(t, y) ==> (Live(t', y) <==> dropped != Some(y)))
    && (forall y :: y in t'.mem && y !in t.mem ==> Live(t', y))
    && (dropped.Some? ==> Live(t, dropped.value) && t.mem[dropped.value].value.None?
                          && t'.mem[dropped.value] == t.mem[dropped.value])
  }

  lemma InsertionEvolves<R, V>(t: Trie<R, V>, k: Bits, value: V, how: Insertion<R, V>, maxBits: nat)
    requires Sound(t, maxBits) && |k| <= maxBits && Fits(t, k, how)
    ensures var t' := Inserted(t, k, value, how);
      Sound(t', maxBits) && Evolves(t, t', None) && Table(t') == Table(t)[k := value]
  {
    var t' := Inserted(t, k, value, how);
    match how {
      case Leaf(slot, x) => LeafEvolves(t, k, value, slot, x, maxBits);
      case Above(slot, c, x) => AboveEvolves(t, k, value, slot, c, x, maxBits);
      case Between(slot, bit, c, branch, leaf, j) => SplitEvolves(t, k, value, slot, bit, c, branch, leaf, j, maxBits);
      case Replace(x) => ReplaceEvolves(t, k, value, x, maxBits);
    }
  }

  lemma LeafFrames<R, V>(t: Trie<R, V>, slot: Slot<R>, x: R, k: Bits, value: V, t': Trie<R, V>)
    requires Good(t) && Good(t') && PublishesLeaf(t, slot, x, k, Some(value), t') && t'.mem.Keys == t.mem.Keys + {x}
    ensures Evolves(t, t', None)
  {
    hide Rooted, Nested, Complete;
    LeafIndexed(t, slot, x, k, Some(value), t');
    GrowthEvolves(t, slot, Some(x), t');
  }

  lemma AboveFrames<R, V>(t: Trie<R, V>, slot: Slot<R>, c: R, x: R, k: Bits, value: V, t': Trie<R, V>)
    requires Good(t) && Good(t') && Interposes(t, slot, c, x, k, Some(value), t') && t'.mem.Keys == t.mem.Keys + {x}
    ensures Evolves(t, t', None)
  {
    hide Rooted, Nested, Complete;
    InterposeIndexed(t, slot, c, x, k, Some(value), t');
    GrowthEvolves(t, slot, Some(x), t');
  }

  lemma LeafEvolves<R, V>(t: Trie<R, V>, k: Bits, value: V, slot: Slot<R>, x: R, maxBits: nat)
    requires Sound(t, maxBits) && |k| <= maxBits && Fits(t, k, Leaf(slot, x))
    ensures var t' := Inserted(t, k, value, Leaf(slot, x));
      Sound(t', maxBits) && Evolves(t, t', None) && Table(t') == Table(t)[k := value]
  {
    hide Good, Compressed, Table, Publish, Evolves, PublishesLeaf;
    var t' := Inserted(t, k, value, Leaf(slot, x));
    PublishLeaf(t, slot, x, k, Some(value), t');
    LeafInserted(t, slot, x, k, value, t', maxBits);
    LeafFrames(t, slot, x, k, value, t');
  }

  lemma AboveEvolves<R, V>(t: Trie<R, V>, k: Bits, value: V, slot: Slot<R>, c: R, x: R, maxBits: nat)
    requires Sound(t, maxBits) && |k| <= maxBits && Fits(t, k, Above(slot, c, x))
    ensures var t' := Inserted(t, k, value, Above(slot, c, x));
      Sound(t', maxBits) && Evolves(t, t', None) && Table(t') == Table(t)[k := value]
  {
    hide Good, Compressed, Table, Publish, Evolves, Interposes;
    var t' := Inserted(t, k, value, Above(slot, c, x));
    PublishAbove(t, slot, c, x, k, Some(value), t');
    AboveInserted(t, slot, c, x, k, value, t', maxBits);
    AboveFrames(t, slot, c, x, k, value, t');
  }

  /** A store to a live slot that leads to nodes just built. */
  lemma GrowthEvolves<R, V>(t: Trie<R, V>, slot: Slot<R>, pointer: Option<R>, t': Trie<R, V>)
    requires Good(t) && Good(t') && (slot.ChildSlot? ==> Live(t, slot.owner)) && StoresSlot(t, slot, pointer, t')
    requires t.index.Keys <= t'.index.Keys && forall j :: j in t.index ==> t'.index[j] == t.index[j]
    requires forall j :: j in t'.index && j !in t.index ==> t'.index[j] !in t.mem
    requires forall y :: y in t'.mem && y !in t.mem ==> Live(t', y)
    ensures Evolves(t, t', None)
  {
    hide Rooted, Nested, Complete;
    forall y | y in t.mem && !Live(t, y) ensures !Live(t', y) && t'.mem[y] == t.mem[y] {
      SameChildren(t, slot, pointer, t', y);
    }
  }

  lemma SplitStores<R, V>(t: Trie<R, V>, k: Bits, value: V, slot: Slot<R>, bit: bool, c: R, branch: R, leaf: R, j: Bits)
    requires Good(t) && (slot.ChildSlot? ==> slot.owner in t.mem)
    requires branch !in t.mem && leaf !in t.mem && branch != leaf
    requires k !in t.index && j !in t.index && j != k
    ensures var t' := Split(t, slot, bit, c, branch, leaf, j, k, value);
      && StoresSlot(t, slot, Some(branch), t')
      && t.index.Keys <= t'.index.Keys && (forall i :: i in t.index ==> t'.index[i] == t.index[i])
      && (forall i :: i in t'.index && i !in t.index ==> t'.index[i] !in t.mem)
      && (forall y :: y in t'.mem && y !in t.mem ==> Live(t', y))
  {
    hide Rooted, Nested, Complete;
    var t' := Split(t, slot, bit, c, branch, leaf, j, k, value);
    assert t'.mem.Keys == t.mem.Keys + {branch} + {leaf};
    assert Live(t', branch) && Live(t', leaf);
  }

  lemma SplitKeyNew<R, V>(t: Trie<R, V>, slot: Slot<R>, c: R, j: Bits, k: Bits, bit: bool)
    requires Good(t) && OnPath(t, slot, k) && t.Load(slot) == Some(c) && c in t.mem && Fork(t.mem[c].key, k, j, bit)
    ensures k !in t.index && j !in t.index && j != k
  {
    hide Rooted, Nested, Complete;
    ForkOnPath(t, slot, c, j, k, bit);
    if j in t.index {
      NothingBetween(t, slot, c, j, j);
    }
    if k in t.index {
      UnderSlot(t, slot, k);
    }
  }

  lemma SplitEvolves<R, V>(
      t: Trie<R, V>, k: Bits, value: V, slot: Slot<R>, bit: bool, c: R, branch: R, leaf: R, j: Bits, maxBits: nat)
    requires Sound(t, maxBits) && |k| <= maxBits && Fits(t, k, Between(slot, bit, c, branch, leaf, j))
    ensures var t' := Inserted(t, k, value, Between(slot, bit, c, branch, leaf, j));
      Sound(t', maxBits) && Evolves(t, t', None) && Table(t') == Table(t)[k := value]
  {
    hide Good, Compressed, Table, StoresSlot, Evolves, Split;
    var t' := Split(t, slot, bit, c, branch, leaf, j, k, value);
    SplitInserted(t, slot, bit, c, branch, leaf, j, k, value, t', maxBits);
    ForkOnPath(t, slot, c, j, k, bit);
    SplitKeyNew(t, slot, c, j, k, bit);
    SplitStores(t, k, value, slot, bit, c, branch, leaf, j);
    GrowthEvolves(t, slot, Some(branch), t');
  }

  lemma ReplaceEvolves<R, V>(t: Trie<R, V>, k: Bits, value: V, x: R, maxBits: nat)
    requires Sound(t, maxBits) && Fits(t, k, Replace(x))
    ensures var t' := Inserted(t, k, value, Replace(x));
      Sound(t', maxBits) && Evolves(t, t', None) && Table(t') == Table(t)[k := value]
  {
    hide Rooted, Nested, Complete, Compressed, Table;
    ValueReplaced(t, x, value, Inserted(t, k, value, Replace(x)), maxBits);
  }

  /** Clearing the value takes the prefix out of the table; nothing is dropped yet. */
  lemma ErasureEvolves<R, V>(t: Trie<R, V>, slot: Slot<R>, node: R, up: Slot<R>, maxBits: nat)
    requires Sound(t, maxBits) && CanErase(t, slot, node, up)
    ensures var t' := t.StoreValue(node, None);
      && WriterInv(t', Pruning(slot, node, up), maxBits) && Evolves(t, t', None)
      && Table(t') == Table(t) - {t.mem[node].key}
  {
    hide Rooted, Nested, Complete, Compressed, Table;
    ValueErased(t, node, t.StoreValue(node, None), maxBits);
  }

  lemma BypassEvolves<R, V>(t: Trie<R, V>, slot: Slot<R>, x: R, t': Trie<R, V>)
    requires Good(t) && Good(t') && Bypasses(t, slot, x, t') && t'.mem.Keys == t.mem.Keys
    ensures Evolves(t, t', Some(x))
  {
    hide Rooted, Nested, Complete;
    BypassIndexed(t, slot, x, t');
    SlotHoldsLive(t, slot);
    forall y | y in t.mem && (y == x || !Live(t, y)) ensures t'.mem[y] == t.mem[y] {
      SameChildren(t, slot, Survivor(t.mem[x]), t', y);
    }
  }

  lemma BypassFrame<R, V>(t: Trie<R, V>, slot: Slot<R>, x: R, t': Trie<R, V>)
    requires Good(t) && Bypasses(t, slot, x, t') && slot.ChildSlot?
    ensures slot.owner in t.mem && slot.owner in t'.mem && t'.mem[slot.owner].value == t.mem[slot.owner].value
    ensures t'.mem[slot.owner].key == t.mem[slot.owner].key
  {
  }

  lemma EvolvesSelf<R, V>(t: Trie<R, V>)
    requires Good(t)
    ensures Evolves(t, t, None)
  {
  }

  lemma PruneEvolves<R, V>(t: Trie<R, V>, w: Writer<R>, maxBits: nat)
    requires !w.Idle? && WriterInv(t, w, maxBits)
    ensures var (t', w', dropped) := Pruned(t, w);
      WriterInv(t', w', maxBits) && Evolves(t, t', dropped) && Table(t') == Table(t)
  {
    hide Good, Live, CompressedBut, Table, Bounded, Bypasses, Evolves, Holds;
    HoldsFacts(t, w.slot, Some(w.node));
    var (t', w', dropped) := Pruned(t, w);
    if OneChild(t, w.node) {
      NodeBypassed(t, w.slot, w.node, t', maxBits);
      BypassEvolves(t, w.slot, w.node, t');
      if w'.PruningParent? {
        HigherSlot(t, w.slot, w.node, t', w.up);
        HoldsFacts(t', w.up, Some(w.slot.owner));
        BypassFrame(t, w.slot, w.node, t');
      }
    } else {
      DebtSettled(t, w.node, maxBits);
      EvolvesSelf(t);
    }
  }
}
