/**
 The memory of a path-compressed trie and what each of its stores does to the table it denotes.

 R is the type of node references, V that of values. `index` holds the nodes reachable from the root, by
 key; a node that a writer has unlinked stays in `mem` but leaves `index`. Slots are what the writer stores
 to: the root pointer or one child pointer of a node.
 */
module TrieStore {
  import opened Wrappers
  import opened Bits

  datatype Node<R, V> = Node(key: Bits, value: Option<V>, left: Option<R>, right: Option<R>) {
    function Child(bit: bool): Option<R> {
      if bit then right else left
    }

    function WithChild(bit: bool, child: Option<R>): (node: Node<R, V>) {
      if bit then this.(right := child) else this.(left := child)
    }
  }

  datatype Slot<+R> = RootSlot | ChildSlot(owner: R, bit: bool)

  /** `index` maps the key of every live node to the node. */
  datatype Trie<R, V> = Trie(root: Option<R>, index: map<Bits, R>, mem: map<R, Node<R, V>>) {
    function Load(slot: Slot<R>): Option<R>
      requires slot.ChildSlot? ==> slot.owner in mem
    {
      match slot
      case RootSlot => root
      case ChildSlot(owner, bit) => mem[owner].Child(bit)
    }

    function Store(slot: Slot<R>, pointer: Option<R>): Trie<R, V>
      requires slot.ChildSlot? ==> slot.owner in mem
    {
      match slot
      case RootSlot => this.(root := pointer)
      case ChildSlot(owner, bit) => this.(mem := mem[owner := mem[owner].WithChild(bit, pointer)])
    }

    function StoreValue(x: R, value: Option<V>): Trie<R, V>
      requires x in mem
    {
      this.(mem := mem[x := mem[x].(value := value)])
    }

    /** A freshly built node, not yet published. */
    function Allocate(x: R, node: Node<R, V>): Trie<R, V> {
      this.(mem := mem[x := node])
    }
  }

  /** j lies strictly below k, on the side of `bit`. */
  ghost predicate Under(k: Bits, bit: bool, j: Bits) {
    k < j && j[|k|] == bit
  }

  ghost predicate Indexed<R, V>(t: Trie<R, V>) {
    forall k :: k in t.index ==> t.index[k] in t.mem && t.mem[t.index[k]].key == k
  }

  ghost predicate Live<R, V>(t: Trie<R, V>, x: R) {
    x in t.mem && t.mem[x].key in t.index && t.index[t.mem[x].key] == x
  }

  ghost function At<R, V>(t: Trie<R, V>, k: Bits): Node<R, V>
    requires Indexed(t) && k in t.index
  {
    t.mem[t.index[k]]
  }

  ghost predicate Rooted<R, V>(t: Trie<R, V>) {
    && (t.root.None? ==> t.index == map[])
    && (t.root.Some? ==> Live(t, t.root.value) && forall k :: k in t.index ==> t.mem[t.root.value].key <= k)
  }

  /** Every child pointer leads to a live node with a strictly longer key, on the side of its bit. */
  ghost predicate Nested<R, V>(t: Trie<R, V>)
    requires Indexed(t)
  {
    forall k, bit :: k in t.index && At(t, k).Child(bit).Some? ==>
      Live(t, At(t, k).Child(bit).value) && Under(k, bit, t.mem[At(t, k).Child(bit).value].key)
  }

  /** From a node the bits of a longer key lead on towards it. */
  ghost predicate Leads<R, V>(t: Trie<R, V>, x: R, k: Bits) {
    x in t.mem && t.mem[x].key < k &&
    var next := t.mem[x].Child(k[|t.mem[x].key|]);
    next.Some? && next.value in t.mem && t.mem[next.value].key <= k
  }

  ghost predicate Complete<R, V>(t: Trie<R, V>) {
    forall j, k :: j in t.index && k in t.index && j < k ==> Leads(t, t.index[j], k)
  }

  /** The shape that every single store keeps. */
  ghost predicate Good<R, V>(t: Trie<R, V>) {
    Indexed(t) && Rooted(t) && Nested(t) && Complete(t)
  }

  /** Path compression: a node without a value has two children. */
  ghost predicate Earns<R, V>(node: Node<R, V>) {
    node.value.Some? || (node.left.Some? && node.right.Some?)
  }

  ghost predicate Compressed<R, V>(t: Trie<R, V>) {
    CompressedBut(t, {})
  }

  /** Every node but those at the keys in `debt` earns its place. */
  ghost predicate CompressedBut<R, V>(t: Trie<R, V>, debt: set<Bits>) {
    forall k :: k in t.index && t.index[k] in t.mem && k !in debt ==> Earns(t.mem[t.index[k]])
  }

  /** The prefix map the live nodes denote. */
  ghost function Table<R, V>(t: Trie<R, V>): map<Bits, V> {
    map k | k in t.index && t.index[k] in t.mem && t.mem[t.index[k]].value.Some? :: t.mem[t.index[k]].value.value
  }

  /** The strong invariant, which holds between a writer's operations. */
  ghost predicate Sound<R, V>(t: Trie<R, V>, maxBits: nat) {
    Good(t) && Compressed(t) && Bounded(t, maxBits)
  }

  ghost predicate Bounded<R, V>(t: Trie<R, V>, maxBits: nat) {
    forall k :: k in t.index ==> |k| <= maxBits
  }

  /** The slot at which a descent for key k has arrived. */
  ghost predicate OnPath<R, V>(t: Trie<R, V>, slot: Slot<R>, k: Bits) {
    slot.ChildSlot? ==>
      Live(t, slot.owner) && Under(t.mem[slot.owner].key, slot.bit, k)
  }

  /** A slot that readers can reach holds `pointer`. */
  ghost predicate Holds<R, V>(t: Trie<R, V>, slot: Slot<R>, pointer: Option<R>) {
    (slot.ChildSlot? ==> Live(t, slot.owner)) && t.Load(slot) == pointer
  }

  // ---- what a slot on the path covers ----

  /** Two prefixes of one key are comparable. */
  lemma Comparable(a: Bits, b: Bits, k: Bits)
    requires a <= k && b <= k
    ensures a == b || a < b || b < a
  {
    if |a| <= |b| {
      assert a == b[..|a|];
    } else {
      assert b == a[..|b|];
    }
  }

  /** A live key that takes the slot's turn lies under what the slot holds. */
  lemma UnderSlot<R, V>(t: Trie<R, V>, slot: Slot<R>, j: Bits)
    requires Good(t) && j in t.index
    requires slot.ChildSlot? ==> Live(t, slot.owner) && Under(t.mem[slot.owner].key, slot.bit, j)
    ensures t.Load(slot).Some? && Live(t, t.Load(slot).value) && t.mem[t.Load(slot).value].key <= j
  {
    if slot.ChildSlot? {
      assert Leads(t, slot.owner, j);
      assert At(t, t.mem[slot.owner].key).Child(slot.bit).Some?;
    }
  }

  lemma UniqueParent<R, V>(t: Trie<R, V>, slot: Slot<R>, k: Bits, j: Bits, bit: bool)
    requires Good(t) && k in t.index && j in t.index && (slot.ChildSlot? ==> Live(t, slot.owner))
    requires t.Load(slot) == Some(t.index[k]) && At(t, j).Child(bit) == Some(t.index[k])
    ensures slot == ChildSlot(t.index[j], bit)
  {
    assert Under(j, bit, k);
    if slot.ChildSlot? {
      var o := t.mem[slot.owner].key;
      assert At(t, o).Child(slot.bit).Some?;
      assert Under(o, slot.bit, k);
      Comparable(o, j, k);
      if o < j {
      } else if j < o {
      }
    }
  }

  /** If only what is stored for k changes, the table changes at k only. */
  lemma TableUpdated<R, V>(t: Trie<R, V>, t': Trie<R, V>, k: Bits)
    requires Indexed(t) && Indexed(t') && k in t'.index
    requires forall j :: j != k ==> (j in t'.index <==> j in t.index)
    requires forall j :: j in t.index && j != k ==> At(t', j).value == At(t, j).value
    ensures Table(t') == if At(t', k).value.Some? then Table(t)[k := At(t', k).value.value] else Table(t) - {k}
  {
    var value := At(t', k).value;
    if value.Some? {
      var table := Table(t)[k := value.value];
      assert forall j :: j in Table(t') <==> j in table;
      assert forall j :: j in table ==> Table(t')[j] == table[j];
    } else {
      var table := Table(t) - {k};
      assert forall j :: j in Table(t') <==> j in table;
      assert forall j :: j in table ==> Table(t')[j] == table[j];
    }
  }

  /** A node that appears for a new key adds its value, if it has one, and changes nothing else. */
  lemma TableGrows<R, V>(t: Trie<R, V>, t': Trie<R, V>, k: Bits, value: Option<V>)
    requires Indexed(t) && Indexed(t') && k in t'.index && k !in t.index && At(t', k).value == value
    requires t'.index == t.index[k := t'.index[k]]
    requires forall j :: j in t.index ==> At(t', j).value == At(t, j).value
    ensures k !in Table(t)
    ensures Table(t') == if value.Some? then Table(t)[k := value.value] else Table(t)
  {
    TableUpdated(t, t', k);
    assert Table(t) - {k} == Table(t);
  }

  // ---- one store ----

  /** t' results from t by one store of `pointer` to `slot`; nodes allocated meanwhile are not in t. */
  ghost predicate StoresSlot<R, V>(t: Trie<R, V>, slot: Slot<R>, pointer: Option<R>, t': Trie<R, V>) {
    && t'.root == (if slot.RootSlot? then pointer else t.root)
    && t.mem.Keys <= t'.mem.Keys
    && (forall y :: y in t.mem ==> t'.mem[y].key == t.mem[y].key && t'.mem[y].value == t.mem[y].value)
    && (forall y, bit :: y in t.mem ==>
          t'.mem[y].Child(bit) == if slot == ChildSlot(y, bit) then pointer else t.mem[y].Child(bit))
  }

  /** Building x in private, one store that publishes it, and the history of what is live. */
  function Publish<R, V>(t: Trie<R, V>, x: R, node: Node<R, V>, slot: Slot<R>): Trie<R, V>
    requires slot.ChildSlot? ==> slot.owner in t.mem
  {
    t.Allocate(x, node).Store(slot, Some(x)).(index := t.index[node.key := x])
  }

  lemma PublishStores<R, V>(t: Trie<R, V>, x: R, node: Node<R, V>, slot: Slot<R>)
    requires x !in t.mem && (slot.ChildSlot? ==> slot.owner in t.mem)
    ensures var t' := Publish(t, x, node, slot);
      StoresSlot(t, slot, Some(x), t') && x in t'.mem && t'.mem[x] == node
  {
  }

  // ---- publishing a leaf ----

  /** The slot is empty: a new node is stored into it. */
  ghost predicate PublishesLeaf<R, V>(t: Trie<R, V>, slot: Slot<R>, x: R, k: Bits, value: Option<V>, t': Trie<R, V>) {
    && x !in t.mem && OnPath(t, slot, k) && t.Load(slot) == None
    && StoresSlot(t, slot, Some(x), t')
    && x in t'.mem && t'.mem[x] == Node(k, value, None, None)
    && t'.index == t.index[k := x]
  }

  /** Nothing at or below k is live while the slot for k is empty. */
  lemma NothingUnderEmptySlot<R, V>(t: Trie<R, V>, slot: Slot<R>, k: Bits, j: Bits)
    requires Good(t) && OnPath(t, slot, k) && t.Load(slot) == None && j in t.index
    ensures !(k <= j)
    ensures slot.RootSlot? ==> false
    ensures slot.ChildSlot? && j < k ==> j <= t.mem[slot.owner].key
  {
    if slot.RootSlot? || k <= j {
      UnderSlot(t, slot, j);
    } else if j < k {
      var o := t.mem[slot.owner].key;
      Comparable(o, j, k);
      if Under(o, slot.bit, j) {
        UnderSlot(t, slot, j);
      }
    }
  }

  lemma LeafIndexed<R, V>(t: Trie<R, V>, slot: Slot<R>, x: R, k: Bits, value: Option<V>, t': Trie<R, V>)
    requires Good(t) && PublishesLeaf(t, slot, x, k, value, t')
    ensures Indexed(t') && k !in t.index && Live(t', x)
    ensures forall y :: Live(t, y) ==> Live(t', y)
  {
    if k in t.index {
      NothingUnderEmptySlot(t, slot, k, k);
    }
  }

  lemma LeafNested<R, V>(t: Trie<R, V>, slot: Slot<R>, x: R, k: Bits, value: Option<V>, t': Trie<R, V>)
    requires Good(t) && PublishesLeaf(t, slot, x, k, value, t') && Indexed(t')
    ensures Nested(t')
  {
    LeafIndexed(t, slot, x, k, value, t');
    forall j, bit | j in t'.index && At(t', j).Child(bit).Some?
      ensures Live(t', At(t', j).Child(bit).value) && Under(j, bit, t'.mem[At(t', j).Child(bit).value].key)
    {
      if slot != ChildSlot(t'.index[j], bit) && j in t.index {
        assert At(t', j).Child(bit) == At(t, j).Child(bit);
      }
    }
  }

  lemma LeafComplete<R, V>(
      t: Trie<R, V>, slot: Slot<R>, x: R, k: Bits, value: Option<V>, t': Trie<R, V>, i: Bits, j: Bits)
    requires Good(t) && PublishesLeaf(t, slot, x, k, value, t') && Indexed(t') && k !in t.index
    requires i in t'.index && j in t'.index && i < j
    ensures Leads(t', t'.index[i], j)
  {
    if j == k {
      NothingUnderEmptySlot(t, slot, k, i);
      var o := t.mem[slot.owner].key;
      if i != o {
        assert Leads(t, t.index[i], o);
      }
    } else {
      NothingUnderEmptySlot(t, slot, k, j);
      assert Leads(t, t.index[i], j);
      assert slot != ChildSlot(t.index[i], j[|i|]);
    }
  }

  lemma LeafKeepsGood<R, V>(t: Trie<R, V>, slot: Slot<R>, x: R, k: Bits, value: Option<V>, t': Trie<R, V>)
    requires Good(t) && PublishesLeaf(t, slot, x, k, value, t')
    ensures Good(t')
  {
    LeafIndexed(t, slot, x, k, value, t');
    LeafNested(t, slot, x, k, value, t');
    forall i, j | i in t'.index && j in t'.index && i < j ensures Leads(t', t'.index[i], j) {
      LeafComplete(t, slot, x, k, value, t', i, j);
    }
    forall j | slot.RootSlot? && j in t.index ensures false {
      NothingUnderEmptySlot(t, slot, k, j);
    }
  }

  lemma LeafTable<R, V>(t: Trie<R, V>, slot: Slot<R>, x: R, k: Bits, value: V, t': Trie<R, V>)
    requires Good(t) && PublishesLeaf(t, slot, x, k, Some(value), t') && Indexed(t')
    ensures k !in Table(t) && Table(t') == Table(t)[k := value]
  {
    LeafIndexed(t, slot, x, k, Some(value), t');
    TableGrows(t, t', k, Some(value));
  }

  // ---- interposing a node above what a slot holds ----

  /** The slot holds c, whose key is longer than k: a new node for k takes its place, with c as its child. */
  ghost predicate Interposes<R, V>(
      t: Trie<R, V>, slot: Slot<R>, c: R, x: R, k: Bits, value: Option<V>, t': Trie<R, V>) {
    && x !in t.mem && OnPath(t, slot, k) && t.Load(slot) == Some(c)
    && c in t.mem && k < t.mem[c].key
    && StoresSlot(t, slot, Some(x), t')
    && x in t'.mem && t'.mem[x] == Node.Node(k, value, None, None).WithChild(t.mem[c].key[|k|], Some(c))
    && t'.index == t.index[k := x]
  }

  lemma SlotHoldsLive<R, V>(t: Trie<R, V>, slot: Slot<R>)
    requires Good(t) && (slot.ChildSlot? ==> Live(t, slot.owner)) && t.Load(slot).Some?
    ensures Live(t, t.Load(slot).value)
    ensures slot.ChildSlot? ==> Under(t.mem[slot.owner].key, slot.bit, t.mem[t.Load(slot).value].key)
  {
    if slot.ChildSlot? {
      assert At(t, t.mem[slot.owner].key).Child(slot.bit).Some?;
    }
  }

  /** No live key lies between the slot's owner and k. */
  lemma NothingBetween<R, V>(t: Trie<R, V>, slot: Slot<R>, c: R, k: Bits, j: Bits)
    requires Good(t) && OnPath(t, slot, k) && t.Load(slot) == Some(c) && c in t.mem && k < t.mem[c].key
    requires j in t.index
    ensures j != k
    ensures k < j ==> t.mem[c].key <= j
    ensures j < k ==> slot.ChildSlot? && j <= t.mem[slot.owner].key
  {
    if slot.RootSlot? {
      UnderSlot(t, slot, j);
    } else {
      var o := t.mem[slot.owner].key;
      if j == k || k < j {
        UnderSlot(t, slot, j);
      } else if j < k {
        Comparable(o, j, k);
        if Under(o, slot.bit, j) {
          UnderSlot(t, slot, j);
        }
      }
    }
  }

  lemma InterposeIndexed<R, V>(t: Trie<R, V>, slot: Slot<R>, c: R, x: R, k: Bits, value: Option<V>, t': Trie<R, V>)
    requires Good(t) && Interposes(t, slot, c, x, k, value, t')
    ensures Indexed(t') && k !in t.index && Live(t', x) && Live(t, c)
    ensures forall y :: Live(t, y) ==> Live(t', y)
  {
    SlotHoldsLive(t, slot);
    if k in t.index {
      NothingBetween(t, slot, c, k, k);
    }
  }

  lemma InterposeNested<R, V>(t: Trie<R, V>, slot: Slot<R>, c: R, x: R, k: Bits, value: Option<V>, t': Trie<R, V>)
    requires Good(t) && Interposes(t, slot, c, x, k, value, t') && Indexed(t')
    ensures Nested(t')
  {
    InterposeIndexed(t, slot, c, x, k, value, t');
    forall j, bit | j in t'.index && At(t', j).Child(bit).Some?
      ensures Live(t', At(t', j).Child(bit).value) && Under(j, bit, t'.mem[At(t', j).Child(bit).value].key)
    {
      if slot != ChildSlot(t'.index[j], bit) && j in t.index {
        assert At(t', j).Child(bit) == At(t, j).Child(bit);
      }
    }
  }

  lemma InterposeComplete<R, V>(
      t: Trie<R, V>, slot: Slot<R>, c: R, x: R, k: Bits, value: Option<V>, t': Trie<R, V>, i: Bits, j: Bits)
    requires Good(t) && Interposes(t, slot, c, x, k, value, t') && Indexed(t') && k !in t.index
    requires i in t'.index && j in t'.index && i < j
    ensures Leads(t', t'.index[i], j)
  {
    if j == k {
      NothingBetween(t, slot, c, k, i);
      var o := t.mem[slot.owner].key;
      if i != o {
        assert Leads(t, t.index[i], o);
      }
    } else if i == k {
      NothingBetween(t, slot, c, k, j);
    } else {
      assert Leads(t, t.index[i], j);
    }
  }

  lemma InterposeKeepsGood<R, V>(t: Trie<R, V>, slot: Slot<R>, c: R, x: R, k: Bits, value: Option<V>, t': Trie<R, V>)
    requires Good(t) && Interposes(t, slot, c, x, k, value, t')
    ensures Good(t')
  {
    InterposeIndexed(t, slot, c, x, k, value, t');
    InterposeNested(t, slot, c, x, k, value, t');
    forall i, j | i in t'.index && j in t'.index && i < j ensures Leads(t', t'.index[i], j) {
      InterposeComplete(t, slot, c, x, k, value, t', i, j);
    }
  }

  lemma InterposeTable<R, V>(t: Trie<R, V>, slot: Slot<R>, c: R, x: R, k: Bits, value: Option<V>, t': Trie<R, V>)
    requires Good(t) && Interposes(t, slot, c, x, k, value, t') && Indexed(t')
    ensures k !in Table(t)
    ensures Table(t') == if value.Some? then Table(t)[k := value.value] else Table(t)
  {
    InterposeIndexed(t, slot, c, x, k, value, t');
    TableGrows(t, t', k, value);
  }

  // ---- changing a value in place ----

  ghost predicate StoresValue<R, V>(t: Trie<R, V>, x: R, value: Option<V>, t': Trie<R, V>) {
    && t'.root == t.root && t'.index == t.index && x in t.mem
    && t.mem.Keys <= t'.mem.Keys
    && (forall y :: y in t.mem ==> t'.mem[y] == if y == x then t.mem[y].(value := value) else t.mem[y])
  }

  lemma ValueKeepsGood<R, V>(t: Trie<R, V>, x: R, value: Option<V>, t': Trie<R, V>)
    requires Good(t) && Live(t, x) && StoresValue(t, x, value, t')
    ensures Good(t')
  {
    forall i, j | i in t'.index && j in t'.index && i < j ensures Leads(t', t'.index[i], j) {
      assert Leads(t, t.index[i], j);
    }
    forall j, bit | j in t'.index && At(t', j).Child(bit).Some?
      ensures Live(t', At(t', j).Child(bit).value) && Under(j, bit, t'.mem[At(t', j).Child(bit).value].key)
    {
      assert At(t', j).Child(bit) == At(t, j).Child(bit);
    }
  }

  lemma ValueTable<R, V>(t: Trie<R, V>, x: R, value: Option<V>, t': Trie<R, V>)
    requires Good(t) && Live(t, x) && StoresValue(t, x, value, t') && Indexed(t')
    ensures Table(t') == if value.Some? then Table(t)[t.mem[x].key := value.value] else Table(t) - {t.mem[x].key}
    ensures t.mem[x].key in Table(t) <==> t.mem[x].value.Some?
    ensures t.mem[x].value.Some? ==> Table(t)[t.mem[x].key] == t.mem[x].value.value
  {
    var k := t.mem[x].key;
    TableUpdated(t, t', k);
  }

  // ---- bypassing a node ----

  function Survivor<R, V>(node: Node<R, V>): Option<R> {
    if node.left.Some? then node.left else node.right
  }

  /** The slot holds x, which has no value and at most one child; that child takes its place. */
  ghost predicate Bypasses<R, V>(t: Trie<R, V>, slot: Slot<R>, x: R, t': Trie<R, V>) {
    && Live(t, x) && (slot.ChildSlot? ==> Live(t, slot.owner)) && t.Load(slot) == Some(x)
    && t.mem[x].value.None? && (t.mem[x].left.None? || t.mem[x].right.None?)
    && StoresSlot(t, slot, Survivor(t.mem[x]), t')
    && t'.index == t.index - {t.mem[x].key}
  }

  lemma BypassIndexed<R, V>(t: Trie<R, V>, slot: Slot<R>, x: R, t': Trie<R, V>)
    requires Good(t) && Bypasses(t, slot, x, t')
    ensures Indexed(t')
    ensures forall y :: Live(t, y) && y != x ==> Live(t', y)
    ensures !Live(t', x)
  {
  }

  /** A live key below x lies below its survivor. */
  lemma SurvivorLeads<R, V>(t: Trie<R, V>, x: R, j: Bits)
    requires Good(t) && Live(t, x) && (t.mem[x].left.None? || t.mem[x].right.None?)
    requires j in t.index && t.mem[x].key < j
    ensures Survivor(t.mem[x]).Some? && Live(t, Survivor(t.mem[x]).value)
    ensures t.mem[Survivor(t.mem[x]).value].key <= j
  {
    assert Leads(t, x, j);
    assert At(t, t.mem[x].key).Child(j[|t.mem[x].key|]).Some?;
  }

  lemma BypassNested<R, V>(t: Trie<R, V>, slot: Slot<R>, x: R, t': Trie<R, V>)
    requires Good(t) && Bypasses(t, slot, x, t') && Indexed(t')
    ensures Nested(t')
  {
    BypassIndexed(t, slot, x, t');
    SlotHoldsLive(t, slot);
    forall j, bit | j in t'.index && At(t', j).Child(bit).Some?
      ensures Live(t', At(t', j).Child(bit).value) && Under(j, bit, t'.mem[At(t', j).Child(bit).value].key)
    {
      if slot == ChildSlot(t'.index[j], bit) {
        var side := t.mem[x].left.None?;
        assert At(t, t.mem[x].key).Child(side) == At(t', j).Child(bit);
      } else {
        assert At(t', j).Child(bit) == At(t, j).Child(bit);
        if At(t, j).Child(bit) == Some(x) {
          UniqueParent(t, slot, t.mem[x].key, j, bit);
        }
      }
    }
  }

  lemma BypassComplete<R, V>(t: Trie<R, V>, slot: Slot<R>, x: R, t': Trie<R, V>, i: Bits, j: Bits)
    requires Good(t) && Bypasses(t, slot, x, t') && Indexed(t')
    requires i in t'.index && j in t'.index && i < j
    ensures Leads(t', t'.index[i], j)
  {
    assert Leads(t, t.index[i], j);
    if slot == ChildSlot(t.index[i], j[|i|]) {
      assert t.mem[x].key <= j && j != t.mem[x].key;
      SurvivorLeads(t, x, j);
    }
  }

  lemma BypassKeepsGood<R, V>(t: Trie<R, V>, slot: Slot<R>, x: R, t': Trie<R, V>)
    requires Good(t) && Bypasses(t, slot, x, t')
    ensures Good(t')
  {
    BypassIndexed(t, slot, x, t');
    BypassNested(t, slot, x, t');
    forall i, j | i in t'.index && j in t'.index && i < j ensures Leads(t', t'.index[i], j) {
      BypassComplete(t, slot, x, t', i, j);
    }
    BypassRooted(t, slot, x, t');
  }

  lemma BypassRooted<R, V>(t: Trie<R, V>, slot: Slot<R>, x: R, t': Trie<R, V>)
    requires Good(t) && Bypasses(t, slot, x, t') && Indexed(t')
    ensures Rooted(t')
  {
    BypassIndexed(t, slot, x, t');
    if slot.RootSlot? {
      if t'.root.Some? {
        var side := t.mem[x].left.None?;
        assert At(t, t.mem[x].key).Child(side) == t'.root;
        assert Live(t, t'.root.value) && t'.root.value != x;
      }
      forall j | j in t'.index ensures t'.root.Some? && t'.mem[t'.root.value].key <= j {
        assert t.mem[x].key <= j && j != t.mem[x].key;
        SurvivorLeads(t, x, j);
      }
    } else {
      SlotHoldsLive(t, slot);
    }
  }

  lemma BypassTable<R, V>(t: Trie<R, V>, slot: Slot<R>, x: R, t': Trie<R, V>)
    requires Good(t) && Bypasses(t, slot, x, t') && Indexed(t')
    ensures Table(t') == Table(t)
  {
    forall k ensures k in Table(t') <==> k in Table(t) {
      if k in t.index && k != t.mem[x].key {
        assert At(t', k).value == At(t, k).value;
      }
    }
  }

  // ---- path compression through the stores ----

  lemma LeafCompressed<R, V>(t: Trie<R, V>, slot: Slot<R>, x: R, k: Bits, value: V, t': Trie<R, V>, debt: set<Bits>)
    requires Good(t) && PublishesLeaf(t, slot, x, k, Some(value), t') && Indexed(t') && CompressedBut(t, debt)
    requires debt == {}
      || (slot.ChildSlot? && debt == {t.mem[slot.owner].key} && t.mem[slot.owner].Child(!slot.bit).Some?)
    ensures Compressed(t')
  {
    LeafIndexed(t, slot, x, k, Some(value), t');
    forall j | j in t'.index ensures Earns(At(t', j)) {
      if j != k {
        var y := t.index[j];
        assert At(t', j).Child(false) == t'.mem[y].Child(false) && At(t', j).Child(true) == t'.mem[y].Child(true);
        assert At(t, j).Child(false) == t.mem[y].Child(false) && At(t, j).Child(true) == t.mem[y].Child(true);
      }
    }
  }

  lemma InterposeCompressed<R, V>(t: Trie<R, V>, slot: Slot<R>, c: R, x: R, k: Bits, value: Option<V>, t': Trie<R, V>)
    requires Good(t) && Interposes(t, slot, c, x, k, value, t') && Indexed(t') && Compressed(t)
    ensures CompressedBut(t', if value.Some? then {} else {k})
  {
    InterposeIndexed(t, slot, c, x, k, value, t');
    forall j | j in t'.index && (value.Some? || j != k) ensures Earns(At(t', j)) {
      if j != k {
        var y := t.index[j];
        assert Earns(At(t, j));
        assert At(t', j).Child(false) == t'.mem[y].Child(false) && At(t', j).Child(true) == t'.mem[y].Child(true);
        assert At(t, j).Child(false) == t.mem[y].Child(false) && At(t, j).Child(true) == t.mem[y].Child(true);
      }
    }
  }

  /** Bypassing x settles its debt; only the owner of the slot may now be in debt, and only if x had no child. */
  lemma BypassCompressed<R, V>(t: Trie<R, V>, slot: Slot<R>, x: R, t': Trie<R, V>)
    requires Good(t) && Bypasses(t, slot, x, t') && Indexed(t') && CompressedBut(t, {t.mem[x].key})
    ensures slot.RootSlot? || Survivor(t.mem[x]).Some? || t.mem[slot.owner].value.Some? ==> Compressed(t')
    ensures slot.ChildSlot? ==> CompressedBut(t', {t.mem[slot.owner].key})
    ensures slot.ChildSlot? && t.mem[slot.owner].value.None? ==> t'.mem[slot.owner].Child(!slot.bit).Some?
  {
    SlotHoldsLive(t, slot);
    forall j | j in t'.index && slot != ChildSlot(t.index[j], true) && slot != ChildSlot(t.index[j], false)
      ensures Earns(At(t', j))
    {
      assert Earns(At(t, j));
      SameChildren(t, slot, Survivor(t.mem[x]), t', t.index[j]);
    }
    if slot.ChildSlot? {
      var o := t.mem[slot.owner].key;
      assert Earns(At(t, o));
      assert t'.mem[slot.owner].Child(!slot.bit) == t.mem[slot.owner].Child(!slot.bit);
      assert t'.mem[slot.owner].Child(slot.bit) == Survivor(t.mem[x]);
    }
  }

  lemma SameChildren<R, V>(t: Trie<R, V>, slot: Slot<R>, pointer: Option<R>, t': Trie<R, V>, y: R)
    requires StoresSlot(t, slot, pointer, t') && y in t.mem
    requires slot != ChildSlot(y, true) && slot != ChildSlot(y, false)
    ensures t'.mem[y] == t.mem[y]
  {
    assert t'.mem[y].Child(false) == t.mem[y].Child(false) && t'.mem[y].Child(true) == t.mem[y].Child(true);
  }

  // ---- searching ----

  /** A walk for `address` has reached `current` with `best`, stored under `bestKey`, as its answer so far:
      every stored prefix of the address is no longer than that or still ahead. */
  ghost predicate Searching<R, V>(t: Trie<R, V>, address: Bits, current: Option<R>, best: Option<V>, bestKey: Bits)
    requires Indexed(t)
  {
    && (current.Some? ==> Live(t, current.value))
    && (best.Some? ==> bestKey <= address && bestKey in t.index && At(t, bestKey).value == best)
    && (forall k :: Stored(t, k) && k <= address ==>
          (best.Some? && |k| <= |bestKey|) || (current.Some? && t.mem[current.value].key <= k))
  }

  lemma SearchStart<R, V>(t: Trie<R, V>, address: Bits)
    requires Good(t)
    ensures Searching(t, address, t.root, None, [])
  {
  }

  ghost predicate Stored<R, V>(t: Trie<R, V>, k: Bits)
    requires Indexed(t)
  {
    k in t.index && At(t, k).value.Some?
  }

  lemma InTable<R, V>(t: Trie<R, V>, k: Bits)
    requires Indexed(t)
    ensures k in Table(t) <==> Stored(t, k)
    ensures k in Table(t) ==> Table(t)[k] == At(t, k).value.value
  {
  }

  /** Below x the walk's next child is the way to every stored prefix of the address. */
  lemma NextLeads<R, V>(t: Trie<R, V>, address: Bits, x: R, k: Bits)
    requires Good(t) && Live(t, x) && k in t.index && t.mem[x].key < k <= address
    ensures var next := t.mem[x].Child(address[|t.mem[x].key|]);
      next.Some? && next.value in t.mem && t.mem[next.value].key <= k
  {
    assert Leads(t, x, k);
  }

  lemma ChildLive<R, V>(t: Trie<R, V>, x: R, bit: bool)
    requires Good(t) && Live(t, x) && t.mem[x].Child(bit).Some?
    ensures Live(t, t.mem[x].Child(bit).value) && Under(t.mem[x].key, bit, t.mem[t.mem[x].Child(bit).value].key)
  {
    assert At(t, t.mem[x].key) == t.mem[x];
  }

  lemma SearchStep<R, V>(t: Trie<R, V>, address: Bits, x: R, best: Option<V>, bestKey: Bits)
    requires Good(t) && Searching(t, address, Some(x), best, bestKey)
    requires t.mem[x].key <= address && |t.mem[x].key| < |address|
    ensures var node := t.mem[x];
      Searching(t, address, node.Child(address[|node.key|]),
                if node.value.Some? then node.value else best, if node.value.Some? then node.key else bestKey)
  {
    var node := t.mem[x];
    var bit := address[|node.key|];
    if node.Child(bit).Some? {
      ChildLive(t, x, bit);
    }
    var best', bestKey' :=
      if node.value.Some? then node.value else best, if node.value.Some? then node.key else bestKey;
    forall k | Stored(t, k) && k <= address
      ensures (best'.Some? && |k| <= |bestKey'|) || (node.Child(bit).Some? && t.mem[node.Child(bit).value].key <= k)
    {
      Comparable(k, node.key, address);
      if node.key < k {
        NextLeads(t, address, x, k);
      }
    }
  }

  /** A walk ends with the longest match: at a null pointer, at a key that does not cover the address,
      or at the address itself, whose value it has read. */
  lemma SearchEnd<R, V>(t: Trie<R, V>, address: Bits, current: Option<R>, best: Option<V>, bestKey: Bits)
    requires Good(t) && Searching(t, address, current, best, bestKey)
    requires current.Some? ==> !(t.mem[current.value].key <= address)
    ensures best == Lpm(Table(t), address)
  {
    forall k ensures k in Table(t) <==> Stored(t, k) {
      InTable(t, k);
    }
    if best.Some? {
      LongestMatchIs(Table(t), address, |address|, bestKey);
    } else {
      NoMatch(Table(t), address, |address|);
    }
  }

  lemma SearchFull<R, V>(t: Trie<R, V>, address: Bits, x: R, best: Option<V>, bestKey: Bits)
    requires Good(t) && Searching(t, address, Some(x), best, bestKey) && t.mem[x].key == address
    ensures (if t.mem[x].value.Some? then t.mem[x].value else best) == Lpm(Table(t), address)
  {
    var value := t.mem[x].value;
    assert At(t, address) == t.mem[x];
    var best', bestKey' := if value.Some? then value else best, if value.Some? then address else bestKey;
    forall k | Stored(t, k) && k <= address ensures best'.Some? && |k| <= |bestKey'| {
      if address <= k {
        assert k == address;
      }
    }
    SearchEnd(t, address, None, best', bestKey');
  }

  // ---- searching for one key ----

  /** A descent for k has not gone past it. */
  ghost predicate Locating<R, V>(t: Trie<R, V>, k: Bits, current: Option<R>) {
    && (current.Some? ==> Live(t, current.value))
    && (k in t.index ==> current.Some? && current.value in t.mem && t.mem[current.value].key <= k)
  }

  lemma LocateStart<R, V>(t: Trie<R, V>, k: Bits)
    requires Good(t)
    ensures Locating(t, k, t.root)
  {
  }

  lemma LocateStep<R, V>(t: Trie<R, V>, k: Bits, x: R)
    requires Good(t) && Locating(t, k, Some(x)) && t.mem[x].key < k
    ensures Locating(t, k, t.mem[x].Child(k[|t.mem[x].key|]))
  {
    assert At(t, t.mem[x].key) == t.mem[x];
    if k in t.index {
      assert Leads(t, x, k);
    }
  }

  lemma LocateEnd<R, V>(t: Trie<R, V>, k: Bits, current: Option<R>)
    requires Good(t) && Locating(t, k, current)
    ensures current.None? ==> k !in t.index && Get(Table(t), k) == None
    ensures current.Some? && !(t.mem[current.value].key <= k) ==> k !in t.index && Get(Table(t), k) == None
    ensures current.Some? && t.mem[current.value].key == k ==>
      t.index[k] == current.value && Get(Table(t), k) == t.mem[current.value].value
  {
    InTable(t, k);
  }

  // ---- whole operations ----

  /** Every node ever built is either live or has been retired, once. */
  ghost predicate Disposed<R, V>(t: Trie<R, V>, retired: seq<R>) {
    && (forall x :: x in t.mem ==> (Live(t, x) <==> x !in retired))
    && (forall x :: x in retired ==> x in t.mem)
    && (forall i, j :: 0 <= i < j < |retired| ==> retired[i] != retired[j])
  }

  lemma PublishDisposes<R, V>(t: Trie<R, V>, x: R, node: Node<R, V>, slot: Slot<R>, retired: seq<R>)
    requires x !in t.mem && node.key !in t.index && (slot.ChildSlot? ==> slot.owner in t.mem) && Disposed(t, retired)
    ensures Disposed(Publish(t, x, node, slot), retired)
  {
    var t' := Publish(t, x, node, slot);
    forall y | y in t'.mem ensures Live(t', y) <==> y !in retired {
      if y != x {
        assert Live(t', y) <==> Live(t, y);
      }
    }
  }

  lemma ValueDisposes<R, V>(t: Trie<R, V>, x: R, value: Option<V>, retired: seq<R>)
    requires x in t.mem && Disposed(t, retired)
    ensures Disposed(t.StoreValue(x, value), retired)
  {
    var t' := t.StoreValue(x, value);
    forall y | y in t'.mem ensures Live(t', y) <==> y !in retired {
      assert Live(t', y) <==> Live(t, y);
    }
  }

  lemma HoldsFacts<R, V>(t: Trie<R, V>, slot: Slot<R>, pointer: Option<R>)
    requires Good(t) && Holds(t, slot, pointer)
    ensures slot.ChildSlot? ==> slot.owner in t.mem && Live(t, slot.owner)
    ensures t.Load(slot) == pointer
    ensures pointer.Some? ==> Live(t, pointer.value) && pointer.value in t.mem
    ensures pointer.Some? ==> t.mem[pointer.value].key in t.index && |t.index| > 0
    ensures pointer.Some? && slot.ChildSlot? ==> |t.mem[slot.owner].key| < |t.mem[pointer.value].key|
  {
    if pointer.Some? {
      SlotHoldsLive(t, slot);
      assert |t.index| == |t.index - {t.mem[pointer.value].key}| + 1 by {
        assert t.index == (t.index - {t.mem[pointer.value].key})[t.mem[pointer.value].key := pointer.value];
      }
    }
  }

  /** What a new node at a new key leaves alone. */
  lemma Grown<R, V>(t: Trie<R, V>, slot: Slot<R>, x: R, k: Bits, t': Trie<R, V>, maxBits: nat)
    requires Bounded(t, maxBits) && |k| <= maxBits && k !in t.index && x !in t.mem
    requires StoresSlot(t, slot, Some(x), t') && t'.index == t.index[k := x]
    ensures Bounded(t', maxBits) && |t'.index| == |t.index| + 1
  {
  }

  lemma PublishLeaf<R, V>(t: Trie<R, V>, slot: Slot<R>, x: R, k: Bits, value: Option<V>, t': Trie<R, V>)
    requires OnPath(t, slot, k) && t.Load(slot) == None && x !in t.mem
    requires t' == Publish(t, x, Node(k, value, None, None), slot)
    ensures PublishesLeaf(t, slot, x, k, value, t') && t'.mem.Keys == t.mem.Keys + {x}
  {
    PublishStores(t, x, Node(k, value, None, None), slot);
  }

  lemma PublishAbove<R, V>(t: Trie<R, V>, slot: Slot<R>, c: R, x: R, k: Bits, value: Option<V>, t': Trie<R, V>)
    requires OnPath(t, slot, k) && t.Load(slot) == Some(c) && x !in t.mem && c in t.mem && k < t.mem[c].key
    requires t' == Publish(t, x, Node.Node(k, value, None, None).WithChild(t.mem[c].key[|k|], Some(c)), slot)
    ensures Interposes(t, slot, c, x, k, value, t') && t'.mem.Keys == t.mem.Keys + {x}
  {
    PublishStores(t, x, Node.Node(k, value, None, None).WithChild(t.mem[c].key[|k|], Some(c)), slot);
  }

  /** Insertion at an empty slot, whose owner may be a branch that is in debt for this leaf. */
  lemma LeafSettles<R, V>(
      t: Trie<R, V>, slot: Slot<R>, x: R, k: Bits, value: V, t': Trie<R, V>, maxBits: nat, debt: set<Bits>)
    requires Good(t) && CompressedBut(t, debt) && Bounded(t, maxBits)
    requires debt == {} || (slot.ChildSlot? && slot.owner in t.mem && debt == {t.mem[slot.owner].key}
                            && t.mem[slot.owner].Child(!slot.bit).Some?)
    requires |k| <= maxBits && OnPath(t, slot, k) && t.Load(slot) == None && x !in t.mem
    requires t' == Publish(t, x, Node(k, Some(value), None, None), slot)
    ensures Sound(t', maxBits) && k !in Table(t) && Table(t') == Table(t)[k := value] && k !in t.index
    ensures |t'.index| == |t.index| + 1 && |Table(t')| == |Table(t)| + 1 && t'.mem.Keys == t.mem.Keys + {x}
  {
    hide Good, Indexed, Live, Table, OnPath, Bounded, CompressedBut, Publish, StoresSlot;
    PublishLeaf(t, slot, x, k, Some(value), t');
    LeafIndexed(t, slot, x, k, Some(value), t');
    LeafKeepsGood(t, slot, x, k, Some(value), t');
    LeafTable(t, slot, x, k, value, t');
    LeafCompressed(t, slot, x, k, value, t', debt);
    Grown(t, slot, x, k, t', maxBits);
  }

  lemma LeafInserted<R, V>(t: Trie<R, V>, slot: Slot<R>, x: R, k: Bits, value: V, t': Trie<R, V>, maxBits: nat)
    requires Sound(t, maxBits) && |k| <= maxBits && OnPath(t, slot, k) && t.Load(slot) == None && x !in t.mem
    requires t' == Publish(t, x, Node(k, Some(value), None, None), slot)
    ensures Sound(t', maxBits) && k !in Table(t) && Table(t') == Table(t)[k := value] && k !in t.index
    ensures |t'.index| == |t.index| + 1 && |Table(t')| == |Table(t)| + 1 && t'.mem.Keys == t.mem.Keys + {x}
  {
    hide Good, Table, OnPath, Bounded, CompressedBut, Publish;
    LeafSettles(t, slot, x, k, value, t', maxBits, {});
  }

  /** Insertion above the node c that a slot holds. */
  lemma AboveInserted<R, V>(t: Trie<R, V>, slot: Slot<R>, c: R, x: R, k: Bits, value: V, t': Trie<R, V>, maxBits: nat)
    requires Sound(t, maxBits) && |k| <= maxBits && OnPath(t, slot, k) && t.Load(slot) == Some(c) && x !in t.mem
    requires c in t.mem && k < t.mem[c].key
    requires t' == Publish(t, x, Node.Node(k, Some(value), None, None).WithChild(t.mem[c].key[|k|], Some(c)), slot)
    ensures Sound(t', maxBits) && k !in Table(t) && Table(t') == Table(t)[k := value] && k !in t.index
    ensures |t'.index| == |t.index| + 1 && |Table(t')| == |Table(t)| + 1 && t'.mem.Keys == t.mem.Keys + {x}
  {
    hide Good, Indexed, Live, Table, OnPath, Bounded, CompressedBut, Publish, StoresSlot;
    PublishAbove(t, slot, c, x, k, Some(value), t');
    InterposeIndexed(t, slot, c, x, k, Some(value), t');
    InterposeKeepsGood(t, slot, c, x, k, Some(value), t');
    InterposeTable(t, slot, c, x, k, Some(value), t');
    InterposeCompressed(t, slot, c, x, k, Some(value), t');
    Grown(t, slot, x, k, t', maxBits);
  }

  /** The memory after a split: one store, of a branch built with both children in place. */
  function Split<R, V>(
      t: Trie<R, V>, slot: Slot<R>, bit: bool, c: R, branch: R, leaf: R, j: Bits, k: Bits, value: V): Trie<R, V>
    requires slot.ChildSlot? ==> slot.owner in t.mem
  {
    var node := Node.Node(j, None, if bit then Some(leaf) else Some(c), if bit then Some(c) else Some(leaf));
    t.Allocate(leaf, Node(k, Some(value), None, None)).Allocate(branch, node).Store(slot, Some(branch))
      .(index := t.index[j := branch][k := leaf])
  }

  /** A split is an interposed branch and then a leaf in its empty slot, done by one store. */
  lemma SplitIsTwoSteps<R, V>(
      t: Trie<R, V>, slot: Slot<R>, bit: bool, c: R, branch: R, leaf: R, j: Bits, k: Bits, value: V)
    requires slot.ChildSlot? ==> slot.owner in t.mem
    requires branch !in t.mem && leaf !in t.mem && branch != leaf
    ensures var t1 := Publish(t, branch, Node.Node(j, None, None, None).WithChild(bit, Some(c)), slot);
      && branch in t1.mem && t1.mem.Keys == t.mem.Keys + {branch}
      && Split(t, slot, bit, c, branch, leaf, j, k, value)
         == Publish(t1, leaf, Node(k, Some(value), None, None), ChildSlot(branch, !bit))
  {
    var t1 := Publish(t, branch, Node.Node(j, None, None, None).WithChild(bit, Some(c)), slot);
    var t2 := Publish(t1, leaf, Node(k, Some(value), None, None), ChildSlot(branch, !bit));
    var t' := Split(t, slot, bit, c, branch, leaf, j, k, value);
    assert t'.mem.Keys == t2.mem.Keys;
    assert t'.mem[branch] == t2.mem[branch] && t'.mem[leaf] == t2.mem[leaf];
    forall y | y in t.mem ensures t'.mem[y] == t2.mem[y] {
    }
    assert t'.mem == t2.mem;
  }

  lemma UnderShared(o: Bits, bit: bool, a: Bits, b: Bits)
    requires Under(o, bit, a) && Under(o, bit, b)
    ensures |o| < Shared(a, b)
  {
    assert a[..|o|] == o && b[..|o|] == o;
    SharedIsLongest(a, b, |o|);
  }

  /** j is what two diverging keys share, and `bit` the turn that `key` takes after it. */
  ghost predicate Fork(key: Bits, k: Bits, j: Bits, bit: bool) {
    Shared(key, k) < |key| && Shared(key, k) < |k| && j == k[..Shared(key, k)] && bit == key[Shared(key, k)]
  }

  /** The shared bits still lie below the slot. */
  lemma ForkOnPath<R, V>(t: Trie<R, V>, slot: Slot<R>, c: R, j: Bits, k: Bits, bit: bool)
    requires Good(t) && OnPath(t, slot, k) && t.Load(slot) == Some(c) && c in t.mem && Fork(t.mem[c].key, k, j, bit)
    ensures OnPath(t, slot, j) && j < t.mem[c].key && t.mem[c].key[|j|] == bit && Under(j, !bit, k)
  {
    hide Rooted, Nested, Complete;
    SlotHoldsLive(t, slot);
    if slot.ChildSlot? {
      UnderShared(t.mem[slot.owner].key, slot.bit, t.mem[c].key, k);
    }
  }

  lemma SoundIsGood<R, V>(t: Trie<R, V>, maxBits: nat)
    requires Sound(t, maxBits)
    ensures Good(t)
  {
  }

  /** The first half of a split: the branch, with its other side still empty. */
  lemma BranchInterposed<R, V>(t: Trie<R, V>, slot: Slot<R>, c: R, branch: R, j: Bits, t1: Trie<R, V>, maxBits: nat)
    requires Sound(t, maxBits) && OnPath(t, slot, j) && t.Load(slot) == Some(c) && branch !in t.mem
    requires c in t.mem && j < t.mem[c].key && |j| <= maxBits
    requires t1 == Publish(t, branch, Node.Node(j, None, None, None).WithChild(t.mem[c].key[|j|], Some(c)), slot)
    ensures Good(t1) && Table(t1) == Table(t) && Bounded(t1, maxBits) && |t1.index| == |t.index| + 1
    ensures j !in t.index && t1.index.Keys == t.index.Keys + {j}
    ensures CompressedBut(t1, {j}) && t1.mem.Keys == t.mem.Keys + {branch} && Live(t1, branch)
    ensures t1.mem[branch] == Node.Node(j, None, None, None).WithChild(t.mem[c].key[|j|], Some(c))
  {
    hide Good, Indexed, Live, Table, OnPath, Bounded, CompressedBut, Publish, StoresSlot;
    PublishAbove(t, slot, c, branch, j, None, t1);
    InterposeIndexed(t, slot, c, branch, j, None, t1);
    InterposeKeepsGood(t, slot, c, branch, j, None, t1);
    InterposeTable(t, slot, c, branch, j, None, t1);
    InterposeCompressed(t, slot, c, branch, j, None, t1);
    Grown(t, slot, branch, j, t1, maxBits);
  }

  lemma SplitKeys<R, V>(t: Trie<R, V>, slot: Slot<R>, bit: bool, c: R, branch: R, leaf: R, j: Bits, k: Bits, value: V)
    requires slot.ChildSlot? ==> slot.owner in t.mem
    ensures Split(t, slot, bit, c, branch, leaf, j, k, value).mem.Keys == t.mem.Keys + {branch} + {leaf}
  {
  }

  lemma SplitDisposes<R, V>(
      t: Trie<R, V>, slot: Slot<R>, bit: bool, c: R, branch: R, leaf: R, j: Bits, k: Bits, value: V, retired: seq<R>)
    requires slot.ChildSlot? ==> slot.owner in t.mem
    requires branch !in t.mem && leaf !in t.mem && branch != leaf && k !in t.index && j !in t.index && j != k
    requires Disposed(t, retired)
    ensures Disposed(Split(t, slot, bit, c, branch, leaf, j, k, value), retired)
  {
    var t' := Split(t, slot, bit, c, branch, leaf, j, k, value);
    forall y | y in t'.mem ensures Live(t', y) <==> y !in retired {
      if y != branch && y != leaf {
        assert Live(t', y) <==> Live(t, y);
      }
    }
  }

  lemma SplitInserted<R, V>(
      t: Trie<R, V>, slot: Slot<R>, bit: bool, c: R, branch: R, leaf: R, j: Bits, k: Bits, value: V, t': Trie<R, V>,
      maxBits: nat)
    requires Sound(t, maxBits) && |k| <= maxBits && OnPath(t, slot, k) && t.Load(slot) == Some(c)
    requires branch !in t.mem && leaf !in t.mem && branch != leaf
    requires c in t.mem && Fork(t.mem[c].key, k, j, bit)
    requires t' == Split(t, slot, bit, c, branch, leaf, j, k, value)
    ensures Sound(t', maxBits) && k !in Table(t) && Table(t') == Table(t)[k := value]
    ensures k !in t.index && j !in t.index && j != k
    ensures |t'.index| == |t.index| + 2 && |Table(t')| == |Table(t)| + 1
    ensures t'.mem.Keys == t.mem.Keys + {branch} + {leaf}
  {
    hide Sound, Good, CompressedBut, Table, Bounded, Publish, Split;
    SoundIsGood(t, maxBits);
    ForkOnPath(t, slot, c, j, k, bit);
    SplitIsTwoSteps(t, slot, bit, c, branch, leaf, j, k, value);
    var t1 := Publish(t, branch, Node.Node(j, None, None, None).WithChild(bit, Some(c)), slot);
    BranchInterposed(t, slot, c, branch, j, t1, maxBits);
    LeafSettles(t1, ChildSlot(branch, !bit), leaf, k, value, t', maxBits, {j});
  }

  /** Replacing the value of a node that is there. */
  lemma ValueReplaced<R, V>(t: Trie<R, V>, x: R, value: V, t': Trie<R, V>, maxBits: nat)
    requires Sound(t, maxBits) && Live(t, x) && t' == t.StoreValue(x, Some(value))
    ensures Sound(t', maxBits) && Table(t') == Table(t)[t.mem[x].key := value]
    ensures Get(Table(t), t.mem[x].key) == t.mem[x].value && t'.mem.Keys == t.mem.Keys
    ensures |Table(t')| == if t.mem[x].value.Some? then |Table(t)| else |Table(t)| + 1
  {
    hide Rooted, Nested, Complete, Table;
    ValueKeepsGood(t, x, Some(value), t');
    ValueTable(t, x, Some(value), t');
    forall k | k in t'.index ensures Earns(At(t', k)) {
      assert Earns(At(t, k));
    }
  }

  /** Taking the value of a node away, which leaves the node in debt. */
  lemma ValueErased<R, V>(t: Trie<R, V>, x: R, t': Trie<R, V>, maxBits: nat)
    requires Sound(t, maxBits) && Live(t, x) && t.mem[x].value.Some? && t' == t.StoreValue(x, None)
    ensures Good(t') && Bounded(t', maxBits) && CompressedBut(t', {t.mem[x].key}) && Live(t', x)
    ensures Table(t') == Table(t) - {t.mem[x].key} && |Table(t')| + 1 == |Table(t)|
    ensures Get(Table(t), t.mem[x].key) == t.mem[x].value && t'.mem.Keys == t.mem.Keys
  {
    hide Rooted, Nested, Complete, Table;
    ValueKeepsGood(t, x, None, t');
    ValueTable(t, x, None, t');
    forall k | k in t'.index && k != t.mem[x].key ensures Earns(At(t', k)) {
      assert Earns(At(t, k));
    }
    assert |Table(t)| == |Table(t') + map[t.mem[x].key := Table(t)[t.mem[x].key]]|;
  }

  lemma BypassShrinks<R, V>(t: Trie<R, V>, slot: Slot<R>, x: R, t': Trie<R, V>, maxBits: nat)
    requires Bypasses(t, slot, x, t') && Bounded(t, maxBits)
    ensures Bounded(t', maxBits) && |t'.index| + 1 == |t.index|
  {
    assert t.index == t'.index[t.mem[x].key := x];
  }

  /** The bypassed node, and no other, is to be retired. */
  lemma BypassDisposes<R, V>(t: Trie<R, V>, slot: Slot<R>, x: R, t': Trie<R, V>, retired: seq<R>)
    requires Bypasses(t, slot, x, t') && t'.mem.Keys == t.mem.Keys && Disposed(t, retired)
    ensures Disposed(t', retired + [x])
  {
    forall y | y in t'.mem ensures Live(t', y) <==> y !in retired + [x] {
      assert Live(t', y) <==> Live(t, y) && y != x;
    }
  }

  /** Bypassing a node x that holds no value and has at most one child. */
  lemma NodeBypassed<R, V>(t: Trie<R, V>, slot: Slot<R>, x: R, t': Trie<R, V>, maxBits: nat)
    requires Good(t) && Bounded(t, maxBits) && Live(t, x) && Holds(t, slot, Some(x))
    requires t.mem[x].value.None? && (t.mem[x].left.None? || t.mem[x].right.None?)
    requires CompressedBut(t, {t.mem[x].key})
    requires t' == t.Store(slot, Survivor(t.mem[x])).(index := t.index - {t.mem[x].key})
    ensures Bypasses(t, slot, x, t')
    ensures Good(t') && Bounded(t', maxBits) && Table(t') == Table(t)
    ensures |t'.index| + 1 == |t.index| && t'.mem.Keys == t.mem.Keys
    ensures slot.RootSlot? || Survivor(t.mem[x]).Some? || t.mem[slot.owner].value.Some? ==> CompressedBut(t', {})
    ensures slot.ChildSlot? ==> Live(t', slot.owner) && CompressedBut(t', {t.mem[slot.owner].key})
    ensures slot.ChildSlot? && t.mem[slot.owner].value.None? ==> t'.mem[slot.owner].Child(!slot.bit).Some?
  {
    hide Good, Rooted, Nested, Complete, Table, Bounded, Earns, CompressedBut;
    BypassIndexed(t, slot, x, t');
    BypassKeepsGood(t, slot, x, t');
    BypassTable(t, slot, x, t');
    BypassCompressed(t, slot, x, t');
    BypassShrinks(t, slot, x, t', maxBits);
    HoldsFacts(t, slot, Some(x));
  }

  /** The slot above the bypassing one is as it was. */
  lemma HigherSlot<R, V>(t: Trie<R, V>, slot: Slot<R>, x: R, t': Trie<R, V>, up: Slot<R>)
    requires Good(t) && Bypasses(t, slot, x, t') && slot.ChildSlot? && Holds(t, up, Some(slot.owner))
    ensures Holds(t', up, Some(slot.owner))
  {
    hide Rooted, Nested, Complete;
    BypassIndexed(t, slot, x, t');
    SlotHoldsLive(t, slot);
    SlotHoldsLive(t, up);
    if up.ChildSlot? {
      assert t'.mem[up.owner].Child(up.bit) == t.mem[up.owner].Child(up.bit);
    }
  }

  lemma ValueHolds<R, V>(t: Trie<R, V>, x: R, value: Option<V>, t': Trie<R, V>, slot: Slot<R>, pointer: Option<R>)
    requires x in t.mem && t' == t.StoreValue(x, value) && Holds(t, slot, pointer)
    ensures Holds(t', slot, pointer)
  {
  }

  lemma HoldsRoot<R, V>(t: Trie<R, V>)
    requires Good(t)
    ensures Holds(t, RootSlot, t.root)
  {
  }

  lemma HoldsChild<R, V>(t: Trie<R, V>, slot: Slot<R>, x: R, bit: bool)
    requires Good(t) && Holds(t, slot, Some(x))
    ensures x in t.mem && Holds(t, ChildSlot(x, bit), t.mem[x].Child(bit))
  {
    SlotHoldsLive(t, slot);
  }

  /** A node in debt that has two children is not in debt. */
  lemma DebtSettled<R, V>(t: Trie<R, V>, x: R, maxBits: nat)
    requires Good(t) && Bounded(t, maxBits) && Live(t, x) && CompressedBut(t, {t.mem[x].key})
    requires Earns(t.mem[x])
    ensures CompressedBut(t, {})
  {
  }

  // ---- descending for an insertion ----

  /** The descent for k has arrived at a slot that holds `current`. */
  ghost predicate Descended<R, V>(t: Trie<R, V>, slot: Slot<R>, k: Bits, current: Option<R>) {
    OnPath(t, slot, k) && t.Load(slot) == current
  }

  lemma DescentStart<R, V>(t: Trie<R, V>, k: Bits)
    requires Good(t)
    ensures Descended(t, RootSlot, k, t.root)
  {
  }

  lemma DescentFacts<R, V>(t: Trie<R, V>, slot: Slot<R>, k: Bits, current: Option<R>)
    requires Good(t) && Descended(t, slot, k, current)
    ensures OnPath(t, slot, k) && (slot.ChildSlot? ==> slot.owner in t.mem) && t.Load(slot) == current
    ensures slot.ChildSlot? ==> |t.mem[slot.owner].key| < |k|
    ensures current.Some? ==> current.value in t.mem && Live(t, current.value)
    ensures current.Some? && slot.ChildSlot? ==> |t.mem[slot.owner].key| < |t.mem[current.value].key|
  {
    if current.Some? {
      SlotHoldsLive(t, slot);
    }
  }

  lemma DescentStep<R, V>(t: Trie<R, V>, slot: Slot<R>, k: Bits, x: R)
    requires Good(t) && Descended(t, slot, k, Some(x)) && x in t.mem && t.mem[x].key < k
    ensures Descended(t, ChildSlot(x, k[|t.mem[x].key|]), k, t.mem[x].Child(k[|t.mem[x].key|]))
  {
    SlotHoldsLive(t, slot);
  }

  // ---- visiting ----

  /** What is live at or below k is what is live at or below the node that `pointer` leads to. */
  ghost predicate Heads<R, V>(t: Trie<R, V>, k: Bits, pointer: Option<R>) {
    match pointer
    case None => forall j :: j in t.index ==> !(k <= j)
    case Some(x) => Live(t, x) && k <= t.mem[x].key && forall j :: j in t.index && k <= j ==> t.mem[x].key <= j
  }

  lemma HeadsRoot<R, V>(t: Trie<R, V>)
    requires Good(t)
    ensures Heads(t, [], t.root)
  {
  }

  lemma HeadsChild<R, V>(t: Trie<R, V>, x: R, bit: bool)
    requires Good(t) && Live(t, x)
    ensures Heads(t, t.mem[x].key + [bit], t.mem[x].Child(bit))
  {
    hide Good, Rooted, Nested, Complete;
    var k := t.mem[x].key + [bit];
    forall j | j in t.index && k <= j
      ensures t.mem[x].Child(bit).Some? && t.mem[x].Child(bit).value in t.mem
      ensures t.mem[t.mem[x].Child(bit).value].key <= j
    {
      BelowSide(t.mem[x].key, bit, j);
      NextLeads(t, j, x, j);
    }
    if t.mem[x].Child(bit).Some? {
      ChildLive(t, x, bit);
      SideOf(t.mem[x].key, bit, t.mem[t.mem[x].Child(bit).value].key);
    }
  }

  lemma HeadsListed<R, V>(
      t: Trie<R, V>, k: Bits, x: R, own: seq<(Bits, V)>, zeros: seq<(Bits, V)>, ones: seq<(Bits, V)>)
    requires Good(t) && Heads(t, k, Some(x)) && x in t.mem
    requires own == if t.mem[x].value.Some? then [(t.mem[x].key, t.mem[x].value.value)] else []
    requires Lists(zeros, Table(t), t.mem[x].key + [false]) && Lists(ones, Table(t), t.mem[x].key + [true])
    ensures Lists(own + zeros + ones, Table(t), k)
  {
    hide Rooted, Nested, Complete, Lists;
    ListsJoin(own, zeros, ones, Table(t), k, t.mem[x].key);
  }

  lemma NothingListed<R, V>(t: Trie<R, V>, k: Bits)
    requires Good(t) && Heads(t, k, None)
    ensures Lists([], Table(t), k)
  {
  }

  lemma HeadsFacts<R, V>(t: Trie<R, V>, k: Bits, x: R)
    requires Good(t) && Heads(t, k, Some(x))
    ensures x in t.mem && Live(t, x) && t.mem[x].key in t.index
    ensures k <= t.mem[x].key
  {
  }
}
