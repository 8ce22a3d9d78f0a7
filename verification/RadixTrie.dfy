/**
 radix_trie: a path-compressed binary trie, changed in place through its slots.

 The ghost field `shape` mirrors every node ever built, and knows the live ones by key. Retiring is the
 Reclaimer's part: the trie records, in order, what it hands over.
 */
module RadixTries {
  import opened Wrappers
  import opened Bits
  import opened TrieStore
  import opened TrieSteps

  class TrieNode<V> {
    const key: Bits
    var value: Option<V>
    var left: TrieNode?<V>
    var right: TrieNode?<V>

    constructor (key: Bits, value: Option<V>)
      ensures this.key == key && this.value == value && left == null && right == null
    {
      this.key := key;
      this.value := value;
      left := null;
      right := null;
    }

    function Child(bit: bool): TrieNode?<V>
      reads this
    {
      if bit then right else left
    }

    /** The node as TrieStore sees it. */
    ghost function View(): Node<TrieNode<V>, V>
      reads `value, `left, `right
    {
      Node(key, value, Ref(left), Ref(right))
    }
  }

  ghost function Ref<V>(node: TrieNode?<V>): Option<TrieNode<V>> {
    if node == null then None else Some(node)
  }

  /** A slot is the root pointer, or a child pointer of its owner. */
  ghost function SlotOf<V>(owner: TrieNode?<V>, bit: bool): Slot<TrieNode<V>> {
    if owner == null then RootSlot else ChildSlot(owner, bit)
  }

  class RadixTrie<V> {
    const maxBits: nat
    var root: TrieNode?<V>
    var size: nat
    var nodes: nat
    var retiredNodes: seq<TrieNode<V>>
    var retiredValues: seq<V>
    ghost var shape: Trie<TrieNode<V>, V>

    /** Every node ever built, live or retired. */
    ghost function Memory(): set<TrieNode<V>>
      reads `shape
    {
      shape.mem.Keys
    }

    ghost predicate Mirrored()
      reads `root, `shape, Memory()`value, Memory()`left, Memory()`right
    {
      && shape.root == Ref(root)
      && forall x :: x in shape.mem ==> shape.mem[x] == x.View()
    }

    /** The strong invariant, which holds between operations. */
    ghost predicate Valid()
      reads this, Memory()
    {
      && Mirrored()
      && Sound(shape, maxBits)
      && nodes == |shape.index|
      && size == |Table(shape)|
      && Disposed(shape, retiredNodes)
    }

    /** The prefix map the trie stands for. */
    ghost function Contents(): map<Bits, V>
      reads this
    {
      Table(shape)
    }

    constructor (maxBits: nat)
      ensures Valid() && Memory() == {} && Contents() == map[]
      ensures this.maxBits == maxBits && retiredNodes == [] && retiredValues == []
    {
      this.maxBits := maxBits;
      root := null;
      size := 0;
      nodes := 0;
      retiredNodes := [];
      retiredValues := [];
      shape := Trie(None, map[], map[]);
    }

    // ---- reading ----

    /** lookup: the value of the longest stored prefix of the address. */
    method Lookup(address: Bits) returns (best: Option<V>)
      requires Valid() && |address| == maxBits
      ensures best == Lpm(Contents(), address)
    {
      hide Rooted, Nested, Complete, Compressed, Table, Lpm;
      best := None;
      ghost var bestKey: Bits := [];
      SearchStart(shape, address);
      var current := root;
      while current != null
        invariant Searching(shape, address, Ref(current), best, bestKey)
        decreases if current == null then 0 else 1 + maxBits - |current.key|
      {
        if !(current.key <= address) {
          SearchEnd(shape, address, Some(current), best, bestKey);
          return;
        }
        ghost var before, beforeKey := best, bestKey;
        if current.value.Some? {
          best := current.value;
          bestKey := current.key;
        }
        if |current.key| >= maxBits {
          SearchFull(shape, address, current, before, beforeKey);
          return;
        }
        SearchStep(shape, address, current, before, beforeKey);
        var next := current.Child(address[|current.key|]);
        assert shape.mem[current].Child(address[|current.key|]) == Ref(next);
        if next != null {
          ChildLive(shape, current, address[|current.key|]);
        }
        current := next;
      }
      SearchEnd(shape, address, None, best, bestKey);
    }

    /** find_exact: the value stored for exactly this prefix. */
    method FindExact(prefix: Bits) returns (found: Option<V>)
      requires Valid() && |prefix| <= maxBits
      ensures found == Get(Contents(), prefix)
    {
      hide Rooted, Nested, Complete, Compressed, Table;
      LocateStart(shape, prefix);
      var current := root;
      while current != null
        invariant Locating(shape, prefix, Ref(current))
        decreases if current == null then 0 else 1 + maxBits - |current.key|
      {
        LocateEnd(shape, prefix, Some(current));
        if |current.key| > |prefix| || !(current.key <= prefix) {
          return None;
        }
        if |current.key| == |prefix| {
          return current.value;
        }
        LocateStep(shape, prefix, current);
        var next := current.Child(prefix[|current.key|]);
        assert shape.mem[current].Child(prefix[|current.key|]) == Ref(next);
        if next != null {
          ChildLive(shape, current, prefix[|current.key|]);
        }
        current := next;
      }
      LocateEnd(shape, prefix, None);
      return None;
    }

    /** for_each: what the callback is given, in the order of the calls. */
    method ForEach() returns (entries: seq<(Bits, V)>)
      requires Valid()
      ensures Lists(entries, Contents(), [])
    {
      HeadsRoot(shape);
      entries := Walk(root, []);
    }

    /** walk: a node before what is below it, the zero side before the one side. The part of the table it visits
        is what lies below the ghost key k. */
    method Walk(node: TrieNode?<V>, ghost k: Bits) returns (entries: seq<(Bits, V)>)
      requires Valid() && Heads(shape, k, Ref(node))
      ensures Lists(entries, Contents(), k)
      decreases if node == null then 0 else 1 + maxBits - |node.key|
    {
      hide Good, Table, Lists, Mirrored, Live, Heads;
      if node == null {
        NothingListed(shape, k);
        return [];
      }
      HeadsFacts(shape, k, node);
      NodeMirrored(node);
      HeadsChild(shape, node, false);
      HeadsChild(shape, node, true);
      if node.left != null {
        HeadsFacts(shape, node.key + [false], node.left);
        NodeMirrored(node.left);
      }
      if node.right != null {
        HeadsFacts(shape, node.key + [true], node.right);
        NodeMirrored(node.right);
      }
      var own := if node.value.Some? then [(node.key, node.value.value)] else [];
      var zeros := Walk(node.left, node.key + [false]);
      var ones := Walk(node.right, node.key + [true]);
      HeadsListed(shape, k, node, own, zeros, ones);
      entries := own + zeros + ones;
    }

    lemma NodeMirrored(x: TrieNode<V>)
      requires Mirrored() && x in Memory()
      ensures shape.mem[x] == Node(x.key, x.value, Ref(x.left), Ref(x.right))
      ensures forall bit :: shape.mem[x].Child(bit) == Ref(x.Child(bit))
    {
    }

    lemma RootMirrored()
      requires Mirrored()
      ensures shape.root == Ref(root)
    {
    }

    // ---- writing ----

    /** A node built in private, before any store publishes it. */
    method NewNode(key: Bits, value: Option<V>, left: TrieNode?<V>, right: TrieNode?<V>) returns (node: TrieNode<V>)
      requires Mirrored()
      modifies `shape
      ensures Mirrored() && fresh(node) && node !in old(Memory()) && node.key == key
      ensures shape == old(shape).Allocate(node, Node(key, value, Ref(left), Ref(right)))
    {
      node := new TrieNode(key, value);
      node.left := left;
      node.right := right;
      shape := shape.Allocate(node, node.View());
    }

    /** One store through a slot, with the history of what is live from then on. */
    method StoreSlot(owner: TrieNode?<V>, bit: bool, pointer: TrieNode?<V>, ghost index: map<Bits, TrieNode<V>>)
      requires Mirrored() && (owner != null ==> owner in Memory())
      modifies `root, `shape, owner
      ensures Mirrored() && shape == old(shape).Store(SlotOf(owner, bit), Ref(pointer)).(index := index)
    {
      if owner == null {
        root := pointer;
      } else if bit {
        owner.right := pointer;
      } else {
        owner.left := pointer;
      }
      shape := shape.Store(SlotOf(owner, bit), Ref(pointer)).(index := index);
    }

    /** The only child of a node, or nothing, takes its place. */
    method StoreSurvivor(owner: TrieNode?<V>, bit: bool, node: TrieNode<V>)
      requires Mirrored() && (owner != null ==> owner in Memory()) && node in Memory()
      requires node.left == null || node.right == null
      modifies `root, `shape, owner
      ensures Mirrored() && shape == Bypassed(old(shape), SlotOf(owner, bit), node)
    {
      hide Mirrored;
      NodeMirrored(node);
      var survivor := if node.left != null then node.left else node.right;
      StoreSlot(owner, bit, survivor, shape.index - {node.key});
    }

    /** An exchange of a node's value. */
    method ExchangeValue(current: TrieNode<V>, value: Option<V>) returns (before: Option<V>)
      requires Mirrored() && current in Memory()
      modifies `shape, current
      ensures Mirrored() && shape == old(shape).StoreValue(current, value) && before == old(shape).mem[current].value
    {
      before := current.value;
      current.value := value;
      shape := shape.StoreValue(current, value);
    }

    /** A node is complete before the one store that publishes it. */
    method PublishNode(owner: TrieNode?<V>, bit: bool, key: Bits, boxed: V, left: TrieNode?<V>, right: TrieNode?<V>)
        returns (ghost node: TrieNode<V>)
      requires Mirrored() && (owner != null ==> owner in Memory())
      modifies `root, `shape, owner
      ensures Mirrored() && fresh(node) && node !in old(Memory()) && Memory() == old(Memory()) + {node}
      ensures shape == Publish(old(shape), node, Node(key, Some(boxed), Ref(left), Ref(right)), SlotOf(owner, bit))
    {
      var x := NewNode(key, Some(boxed), left, right);
      StoreSlot(owner, bit, x, shape.index[key := x]);
      node := x;
    }

    /** The empty slot at the end of the path receives a leaf. */
    method InsertLeaf(owner: TrieNode?<V>, bit: bool, prefix: Bits, boxed: V)
        returns (ghost how: Insertion<TrieNode<V>, V>)
      requires Valid() && |prefix| <= maxBits && (owner != null ==> owner in Memory())
      requires OnPath(shape, SlotOf(owner, bit), prefix) && shape.Load(SlotOf(owner, bit)).None?
      modifies `root, `shape, `nodes, `size, owner
      ensures Valid() && fresh(Memory() - old(Memory()))
      ensures prefix !in old(Contents()) && Contents() == old(Contents())[prefix := boxed]
      ensures InsertionRun(old(shape), prefix, boxed, how, shape)
      ensures retiredNodes == old(retiredNodes) && retiredValues == old(retiredValues)
    {
      hide Sound, Table, OnPath, Disposed, Mirrored, Publish, InsertionRun;
      ghost var t := shape;
      ghost var leaf := PublishNode(owner, bit, prefix, boxed, null, null);
      how := Leaf(SlotOf(owner, bit), leaf);
      LeafAdds(t, SlotOf(owner, bit), leaf, prefix, boxed, shape, maxBits, retiredNodes);
      nodes := nodes + 1;
      size := size + 1;
    }

    /** The new prefix covers `current`, and becomes its parent. */
    method InsertAbove(owner: TrieNode?<V>, bit: bool, current: TrieNode<V>, prefix: Bits, boxed: V)
        returns (ghost how: Insertion<TrieNode<V>, V>)
      requires Valid() && |prefix| <= maxBits && (owner != null ==> owner in Memory()) && current in Memory()
      requires OnPath(shape, SlotOf(owner, bit), prefix) && shape.Load(SlotOf(owner, bit)) == Some(current)
      requires prefix < current.key
      modifies `root, `shape, `nodes, `size, owner
      ensures Valid() && fresh(Memory() - old(Memory()))
      ensures prefix !in old(Contents()) && Contents() == old(Contents())[prefix := boxed]
      ensures InsertionRun(old(shape), prefix, boxed, how, shape)
      ensures retiredNodes == old(retiredNodes) && retiredValues == old(retiredValues)
    {
      hide Sound, Table, OnPath, Disposed, Mirrored, Publish, InsertionRun;
      ghost var t := shape;
      NodeMirrored(current);
      var side := current.key[|prefix|];
      ghost var above := PublishNode(
        owner, bit, prefix, boxed, if side then null else current, if side then current else null);
      how := Above(SlotOf(owner, bit), current, above);
      AboveAdds(t, SlotOf(owner, bit), side, current, above, prefix, boxed, shape, maxBits, retiredNodes);
      nodes := nodes + 1;
      size := size + 1;
    }

    /** Both new nodes are complete before the one store that publishes them. */
    method PublishSplit(owner: TrieNode?<V>, bit: bool, existing: TrieNode<V>, prefix: Bits, boxed: V, shared: nat)
        returns (side: bool, ghost branch: TrieNode<V>, ghost leaf: TrieNode<V>)
      requires Mirrored() && (owner != null ==> owner in Memory()) && existing in Memory()
      requires shared < |existing.key| && shared <= |prefix|
      modifies `root, `shape, owner
      ensures Mirrored() && side == existing.key[shared]
      ensures fresh(branch) && fresh(leaf) && branch !in old(Memory()) && leaf !in old(Memory()) && branch != leaf
      ensures shape ==
        Split(old(shape), SlotOf(owner, bit), side, existing, branch, leaf, prefix[..shared], prefix, boxed)
      ensures Memory() == old(Memory()) + {branch} + {leaf}
    {
      side := existing.key[shared];
      var lower := NewNode(prefix, Some(boxed), null, null);
      var upper := NewNode(prefix[..shared], None, if side then lower else existing, if side then existing else lower);
      StoreSlot(owner, bit, upper, shape.index[prefix[..shared] := upper][prefix := lower]);
      branch, leaf := upper, lower;
    }

    /** split: a branch over the shared bits, with `existing` and a new leaf below it, published by one store. */
    method SplitSlot(owner: TrieNode?<V>, bit: bool, existing: TrieNode<V>, prefix: Bits, boxed: V, shared: nat)
        returns (ghost how: Insertion<TrieNode<V>, V>)
      requires Valid() && |prefix| <= maxBits && (owner != null ==> owner in Memory()) && existing in Memory()
      requires OnPath(shape, SlotOf(owner, bit), prefix) && shape.Load(SlotOf(owner, bit)) == Some(existing)
      requires shared == Shared(existing.key, prefix) && shared < |prefix| && shared < |existing.key|
      modifies `root, `shape, `nodes, `size, owner
      ensures Valid() && fresh(Memory() - old(Memory()))
      ensures prefix !in old(Contents()) && Contents() == old(Contents())[prefix := boxed]
      ensures InsertionRun(old(shape), prefix, boxed, how, shape)
      ensures retiredNodes == old(retiredNodes) && retiredValues == old(retiredValues)
    {
      hide Sound, Table, OnPath, Disposed, Mirrored, Split, InsertionRun, Shared, Fork;
      ghost var t, j := shape, prefix[..shared];
      NodeMirrored(existing);
      ForkAt(existing.key, prefix, shared);
      var side: bool;
      ghost var branch, leaf;
      side, branch, leaf := PublishSplit(owner, bit, existing, prefix, boxed, shared);
      how := Between(SlotOf(owner, bit), side, existing, branch, leaf, j);
      SplitAdds(t, SlotOf(owner, bit), side, existing, branch, leaf, j, prefix, boxed, shape, maxBits, retiredNodes);
      nodes := nodes + 2;
      size := size + 1;
    }

    /** The exact node exists: its value is exchanged, and an old value retired. */
    method ReplaceValue(current: TrieNode<V>, boxed: V) returns (created: bool, ghost how: Insertion<TrieNode<V>, V>)
      requires Valid() && current in Memory() && Live(shape, current)
      modifies `shape, `size, `retiredValues, current
      ensures Valid() && Memory() == old(Memory())
      ensures Contents() == old(Contents())[current.key := boxed]
      ensures InsertionRun(old(shape), current.key, boxed, how, shape)
      ensures created <==> current.key !in old(Contents())
      ensures retiredNodes == old(retiredNodes)
      ensures retiredValues == old(retiredValues) + if created then [] else [old(Contents())[current.key]]
    {
      hide Sound, Good, Indexed, Rooted, Nested, Complete, Live, Table, OnPath, Disposed, Bounded, CompressedBut;
      hide Compressed, Mirrored;
      ghost var t := shape;
      NodeMirrored(current);
      created := current.value.None?;
      if created {
        size := size + 1;
      } else {
        retiredValues := retiredValues + [current.value.value];
      }
      var before := ExchangeValue(current, Some(boxed));
      assert Mirrored();
      how := Replace(current);
      ValueReplaced(t, current, boxed, shape, maxBits);
      ValueDisposes(t, current, Some(boxed), retiredNodes);
    }

    /** insert: true when the prefix was not stored before. A replaced value is handed to the reclaimer. */
    method Insert(prefix: Bits, boxed: V) returns (created: bool, ghost how: Insertion<TrieNode<V>, V>)
      requires Valid() && |prefix| <= maxBits
      modifies this, Memory()
      ensures Valid() && fresh(Memory() - old(Memory()))
      ensures Contents() == old(Contents())[prefix := boxed]
      ensures InsertionRun(old(shape), prefix, boxed, how, shape)
      ensures created <==> prefix !in old(Contents())
      ensures retiredNodes == old(retiredNodes)
      ensures retiredValues == old(retiredValues) + if created then [] else [old(Contents())[prefix]]
    {
      hide Sound, Good, Indexed, Rooted, Nested, Complete, Live, Table, OnPath, Disposed, Bounded, CompressedBut;
      hide Compressed, Mirrored, Shared, Descended, InsertionRun;
      SoundIsGood(shape, maxBits);
      DescentStart(shape, prefix);
      RootMirrored();
      var owner: TrieNode?<V>, bit := null, false;
      var current := root;
      while current != null
        invariant unchanged(this) && unchanged(old(Memory())) && Valid()
        invariant Descended(shape, SlotOf(owner, bit), prefix, Ref(current)) && (owner != null ==> owner in Memory())
        decreases if owner == null then |prefix| + 1 else |prefix| - |owner.key|
      {
        if owner != null {
          NodeMirrored(owner);
        }
        DescentFacts(shape, SlotOf(owner, bit), prefix, Ref(current));
        NodeMirrored(current);
        var shared := Shared(current.key, prefix);
        SharedCases(current.key, prefix);
        if shared < |current.key| && shared < |prefix| {
          how := SplitSlot(owner, bit, current, prefix, boxed, shared);
          return true, how;
        }
        if |current.key| == |prefix| {
          created, how := ReplaceValue(current, boxed);
          return;
        }
        if |prefix| < |current.key| {
          how := InsertAbove(owner, bit, current, prefix, boxed);
          return true, how;
        }
        DescentStep(shape, SlotOf(owner, bit), prefix, current);
        owner, bit := current, prefix[|current.key|];
        current := owner.Child(bit);
      }
      DescentFacts(shape, SlotOf(owner, bit), prefix, None);
      how := InsertLeaf(owner, bit, prefix, boxed);
      return true, how;
    }

    /** Valid, but for nodes that may not earn their place. */
    ghost predicate ValidBut(debt: set<Bits>)
      reads this, Memory()
    {
      && Mirrored()
      && Good(shape) && Bounded(shape, maxBits) && CompressedBut(shape, debt)
      && nodes == |shape.index|
      && size == |Table(shape)|
      && Disposed(shape, retiredNodes)
    }

    /** Unlink, then retire: the only child of a node, or null, takes the node's place. Then only the owner of
        the slot may not earn its place, if it has no value and the node had no child. */
    method Bypass(owner: TrieNode?<V>, bit: bool, node: TrieNode<V>)
      requires ValidBut({node.key}) && node in Memory() && node.value.None? && (node.left == null || node.right == null)
      requires (owner != null ==> owner in Memory()) && Holds(shape, SlotOf(owner, bit), Some(node))
      modifies `root, `shape, `nodes, `retiredNodes, owner
      ensures ValidBut(if owner == null then {} else {owner.key})
      ensures Memory() == old(Memory()) && Contents() == old(Contents())
      ensures retiredNodes == old(retiredNodes) + [node] && nodes == old(nodes) - 1
      ensures Bypasses(old(shape), SlotOf(owner, bit), node, shape)
      ensures shape == Bypassed(old(shape), SlotOf(owner, bit), node)
      ensures owner != null && owner.value.None? ==> owner.Child(!bit) != null
      ensures owner == null || owner.value.Some? || old(node.left) != null || old(node.right) != null ==> ValidBut({})
    {
      hide Good, Live, Table, Disposed, Bounded, CompressedBut, Mirrored, Holds, Bypasses, Bypassed;
      ghost var t := shape;
      HoldsFacts(t, SlotOf(owner, bit), Some(node));
      NodeMirrored(node);
      if owner != null {
        NodeMirrored(owner);
      }
      StoreSurvivor(owner, bit, node);
      BypassedIs(t, SlotOf(owner, bit), node, shape, maxBits, retiredNodes);
      if owner != null {
        NodeMirrored(owner);
      }
      retiredNodes := retiredNodes + [node];
      nodes := nodes - 1;
      assert Mirrored();
    }

    /** The second half of prune: the parent may now be a node without a value and with one child. */
    method PruneParent(parent: TrieNode<V>, grand: TrieNode?<V>, grandBit: bool)
        returns (ghost dropped: seq<TrieNode<V>>)
      requires ValidBut({parent.key}) && parent in Memory()
      requires parent.value.None? && (parent.left != null || parent.right != null)
      requires Holds(shape, SlotOf(grand, grandBit), Some(parent)) && (grand != null ==> grand in Memory())
      modifies `root, `shape, `nodes, `retiredNodes, grand
      ensures ValidBut({}) && Memory() == old(Memory()) && Contents() == old(Contents())
      ensures PruningRun(old(shape), PruningParent(SlotOf(grand, grandBit), parent), shape, dropped)
      ensures retiredNodes == old(retiredNodes) + dropped
    {
      hide Good, Live, Table, Disposed, Bounded, CompressedBut, Mirrored, Holds, Bypasses, PruningRun, Bypassed;
      ghost var t, w := shape, PruningParent(SlotOf(grand, grandBit), parent);
      HoldsFacts(t, w.slot, Some(parent));
      NodeMirrored(parent);
      PruningStops(t, w);
      if parent.left != null && parent.right != null {
        DebtSettled(t, parent, maxBits);
        return [];
      }
      Bypass(grand, grandBit, parent);
      return [parent];
    }

    /** prune: drop the node that lost its value, and then its parent, if they no longer earn their place. */
    method Prune(current: TrieNode<V>, parent: TrieNode?<V>, bit: bool, grand: TrieNode?<V>, grandBit: bool)
        returns (ghost dropped: seq<TrieNode<V>>)
      requires ValidBut({current.key}) && current in Memory() && current.value.None?
      requires Holds(shape, SlotOf(parent, bit), Some(current))
      requires parent != null ==> parent in Memory() && Holds(shape, SlotOf(grand, grandBit), Some(parent))
      requires grand != null ==> grand in Memory()
      modifies `root, `shape, `nodes, `retiredNodes, parent, grand
      ensures ValidBut({}) && Memory() == old(Memory()) && Contents() == old(Contents())
      ensures PruningRun(old(shape), Pruning(SlotOf(parent, bit), current, SlotOf(grand, grandBit)), shape, dropped)
      ensures retiredNodes == old(retiredNodes) + dropped
    {
      hide Good, Live, Table, Disposed, Bounded, CompressedBut, Mirrored, Holds, Bypasses, PruningRun, Bypassed;
      ghost var t, w := shape, Pruning(SlotOf(parent, bit), current, SlotOf(grand, grandBit));
      HoldsFacts(t, w.slot, Some(current));
      NodeMirrored(current);
      if current.left != null && current.right != null {
        DebtSettled(t, current, maxBits);
        PruningStops(t, w);
        return [];
      }
      Bypass(parent, bit, current);
      if parent == null {
        PruningStops(t, w);
        return [current];
      }
      BypassFrame(t, w.slot, current, shape);
      NodeMirrored(parent);
      if parent.value.Some? {
        PruningStops(t, w);
        return [current];
      }
      HigherSlot(t, w.slot, current, shape, w.up);
      HoldsFacts(shape, w.up, Some(parent));
      dropped := PruneParent(parent, grand, grandBit);
      PruningGoesOn(t, w, shape, dropped);
      dropped := [current] + dropped;
    }

    /** The end of erase: the value is exchanged for nothing and retired, and the node is pruned. */
    method TakeValue(current: TrieNode<V>, parent: TrieNode?<V>, bit: bool, grand: TrieNode?<V>, grandBit: bool)
        returns (ghost dropped: seq<TrieNode<V>>)
      requires Valid() && current in Memory() && current.value.Some?
      requires Holds(shape, SlotOf(parent, bit), Some(current))
      requires parent != null ==> parent in Memory() && Holds(shape, SlotOf(grand, grandBit), Some(parent))
      requires grand != null ==> grand in Memory()
      modifies this, current, parent, grand
      ensures Valid() && Memory() == old(Memory()) && Contents() == old(Contents()) - {current.key}
      ensures ErasureRun(
                old(shape), current.key, Pruning(SlotOf(parent, bit), current, SlotOf(grand, grandBit)), shape, dropped)
      ensures retiredValues == old(retiredValues) + [old(current.value.value)]
      ensures retiredNodes == old(retiredNodes) + dropped
      ensures Get(old(Contents()), current.key) == old(current.value)
    {
      hide Good, Live, Table, Disposed, Bounded, CompressedBut, Mirrored, Holds, PruningRun;
      ghost var t := shape;
      SoundIsGood(t, maxBits);
      HoldsFacts(t, SlotOf(parent, bit), Some(current));
      NodeMirrored(current);
      retiredValues := retiredValues + [current.value.value];
      var before := ExchangeValue(current, None);
      ValueErased(t, current, shape, maxBits);
      ValueDisposes(t, current, None, retiredNodes);
      size := size - 1;
      ValueHolds(t, current, None, shape, SlotOf(parent, bit), Some(current));
      NodeMirrored(current);
      if parent != null {
        ValueHolds(t, current, None, shape, SlotOf(grand, grandBit), Some(parent));
      }
      dropped := Prune(current, parent, bit, grand, grandBit);
    }

    /** erase: true when the prefix was stored. Its value and the nodes it kept in place are retired. */
    method Erase(prefix: Bits)
        returns (erased: bool, ghost how: Writer<TrieNode<V>>, ghost dropped: seq<TrieNode<V>>)
      requires Valid() && |prefix| <= maxBits
      modifies this, Memory()
      ensures Valid() && Memory() == old(Memory())
      ensures Contents() == old(Contents()) - {prefix}
      ensures erased <==> prefix in old(Contents())
      ensures erased ==> ErasureRun(old(shape), prefix, how, shape, dropped)
      ensures !erased ==> shape == old(shape) && dropped == []
      ensures retiredValues == old(retiredValues) + if erased then [old(Contents())[prefix]] else []
      ensures retiredNodes == old(retiredNodes) + dropped
    {
      hide Sound, Good, Indexed, Rooted, Nested, Complete, Live, Table, OnPath, Disposed, Bounded, CompressedBut;
      hide Compressed, Mirrored, Holds, Locating;
      ghost var t := shape;
      SoundIsGood(t, maxBits);
      LocateStart(t, prefix);
      HoldsRoot(t);
      RootMirrored();
      var parent: TrieNode?<V>, bit := null, false;
      var grand: TrieNode?<V>, grandBit := null, false;
      var current := root;
      while current != null
        invariant unchanged(this) && unchanged(old(Memory())) && Valid()
        invariant Locating(t, prefix, Ref(current)) && Holds(t, SlotOf(parent, bit), Ref(current))
        invariant parent != null ==> parent in t.mem && Holds(t, SlotOf(grand, grandBit), Some(parent))
        invariant grand != null ==> grand in t.mem
        decreases if current == null then 0 else 1 + maxBits - |current.key|
      {
        HoldsFacts(t, SlotOf(parent, bit), Some(current));
        NodeMirrored(current);
        LocateEnd(t, prefix, Some(current));
        if |current.key| > |prefix| || !(current.key <= prefix) {
          AbsentUnchanged(t, prefix);
          return false, Idle, [];
        }
        if |current.key| == |prefix| {
          break;
        }
        LocateStep(t, prefix, current);
        HoldsChild(t, SlotOf(parent, bit), current, prefix[|current.key|]);
        grand, grandBit := parent, bit;
        parent, bit := current, prefix[|current.key|];
        current := parent.Child(bit);
        if current != null {
          HoldsFacts(t, SlotOf(parent, bit), Some(current));
          NodeMirrored(current);
        }
      }
      LocateEnd(t, prefix, Ref(current));
      if current == null {
        AbsentUnchanged(t, prefix);
        return false, Idle, [];
      }
      HoldsFacts(t, SlotOf(parent, bit), Some(current));
      NodeMirrored(current);
      if current.value.None? {
        AbsentUnchanged(t, prefix);
        return false, Idle, [];
      }
      assert current.key == prefix;
      dropped := TakeValue(current, parent, bit, grand, grandBit);
      return true, Pruning(SlotOf(parent, bit), current, SlotOf(grand, grandBit)), dropped;
    }
  }

  lemma SharedCases(a: Bits, b: Bits)
    ensures var n := Shared(a, b);
      (n == |a| ==> a <= b) && (n == |b| ==> b <= a) && (n == |a| == |b| ==> a == b)
  {
  }

  lemma AbsentUnchanged<R, V>(t: Trie<R, V>, k: Bits)
    requires Get(Table(t), k) == None
    ensures Table(t) - {k} == Table(t)
  {
  }
}
