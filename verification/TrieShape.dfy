/**
 The shape of a compressed trie is a function of the prefixes it stores: which nodes there are, what they
 hold and how they are linked. So the order of the insertions leaves no trace, an erase undoes an insert down
 to the last node, and the number of nodes is bounded by the number of routes.
 */
module TrieShape {
  import opened Wrappers
  import opened Bits
  import opened TrieStore
  import opened TrieSteps
  import opened RadixTries

  // ---- which keys there are ----

  /** What two stored prefixes share, for every two of them; a prefix shares all of itself with itself. */
  ghost function Joins<V>(table: map<Bits, V>): set<Bits> {
    set p, q | p in table && q in table :: p[..Shared(p, q)]
  }

  /** A walk down from k along the shared bits of two live keys ends at a live key: exactly those bits. */
  lemma {:induction false} JoinIsLive<R, V>(t: Trie<R, V>, k: Bits, p: Bits, q: Bits)
    requires Good(t) && k in t.index && p in t.index && q in t.index
    requires k <= p && k <= q
    ensures p[..Shared(p, q)] in t.index
    decreases Shared(p, q) - |k|
  {
    hide Rooted, Nested, Complete;
    var n := Shared(p, q);
    assert p[..|k|] == k == q[..|k|];
    SharedIsLongest(p, q, |k|);
    if |k| == n {
      assert p[..n] == k;
    } else {
      assert p[..n][|k|] == p[|k|] && q[..n][|k|] == q[|k|];
      var x := t.index[k];
      NextLeads(t, p, x, p);
      NextLeads(t, q, x, q);
      ChildLive(t, x, p[|k|]);
      var child := t.mem[t.mem[x].Child(p[|k|]).value].key;
      assert p[..|child|] == child == q[..|child|];
      SharedIsLongest(p, q, |child|);
      JoinIsLive(t, child, p, q);
    }
  }

  /** Below every live key something is stored. */
  lemma {:induction false} StoredBelow<R, V>(t: Trie<R, V>, maxBits: nat, k: Bits) returns (p: Bits)
    requires Sound(t, maxBits) && k in t.index
    ensures p in Table(t) && k <= p
    decreases maxBits - |k|
  {
    if At(t, k).value.Some? {
      p := k;
    } else {
      assert Earns(At(t, k));
      assert At(t, k).Child(false).Some?;
      ChildLive(t, t.index[k], false);
      p := StoredBelow(t, maxBits, t.mem[At(t, k).Child(false).value].key);
    }
  }

  /** A live key without a value is what two stored prefixes share. */
  lemma LiveIsJoin<R, V>(t: Trie<R, V>, maxBits: nat, k: Bits)
    requires Sound(t, maxBits) && k in t.index
    ensures k in Joins(Table(t))
  {
    if At(t, k).value.Some? {
      assert Shared(k, k) == |k| by {
        SharedIsLongest(k, k, |k|);
      }
      assert k == k[..Shared(k, k)];
    } else {
      assert Earns(At(t, k));
      assert At(t, k).Child(false).Some? && At(t, k).Child(true).Some?;
      ChildLive(t, t.index[k], false);
      ChildLive(t, t.index[k], true);
      var p := StoredBelow(t, maxBits, t.mem[At(t, k).Child(false).value].key);
      var q := StoredBelow(t, maxBits, t.mem[At(t, k).Child(true).value].key);
      Diverge(k, p, q);
    }
  }

  lemma Diverge(k: Bits, p: Bits, q: Bits)
    requires Under(k, false, p) && Under(k, true, q)
    ensures k == p[..Shared(p, q)]
  {
    assert p[..|k|] == k == q[..|k|];
    SharedIsLongest(p, q, |k|);
    assert p[..|k| + 1][|k|] != q[..|k| + 1][|k|];
    SharedIsLongest(p, q, |k| + 1);
  }

  lemma RootAbove<R, V>(t: Trie<R, V>, k: Bits)
    requires Good(t) && k in t.index
    ensures t.root.Some? && t.root.value in t.mem && t.mem[t.root.value].key in t.index && t.mem[t.root.value].key <= k
  {
  }

  /** The nodes of a compressed trie are the stored prefixes and the points where two of them part. */
  lemma KeysAreJoins<R, V>(t: Trie<R, V>, maxBits: nat)
    requires Sound(t, maxBits)
    ensures t.index.Keys == Joins(Table(t))
  {
    hide Table, Rooted, Nested, Complete, Compressed;
    forall k | k in t.index ensures k in Joins(Table(t)) {
      LiveIsJoin(t, maxBits, k);
    }
    forall p, q | p in Table(t) && q in Table(t) ensures p[..Shared(p, q)] in t.index {
      InTable(t, p);
      InTable(t, q);
      RootAbove(t, p);
      RootAbove(t, q);
      JoinIsLive(t, t.mem[t.root.value].key, p, q);
    }
  }

  // ---- how they are linked ----

  ghost function KeyAt<R, V>(t: Trie<R, V>, pointer: Option<R>): Option<Bits> {
    if pointer.Some? && pointer.value in t.mem then Some(t.mem[pointer.value].key) else None
  }

  datatype Shape<V> = Shape(top: Option<Bits>, nodes: map<Bits, Node<Bits, V>>)

  /** The trie with keys for references: two tries of one shape differ only in where their nodes lie. */
  ghost function ShapeOf<R, V>(t: Trie<R, V>): Shape<V> {
    Shape(
      KeyAt(t, t.root),
      map k | k in t.index && t.index[k] in t.mem ::
        var node := t.mem[t.index[k]];
        Node.Node(node.key, node.value, KeyAt(t, node.left), KeyAt(t, node.right)))
  }

  /** `top` is the shortest of the keys at or below k. */
  ghost predicate Shortest(keys: set<Bits>, k: Bits, top: Option<Bits>) {
    match top
    case None => forall j :: j in keys ==> !(k <= j)
    case Some(s) => s in keys && k <= s && forall j :: j in keys && k <= j ==> s <= j
  }

  lemma ShortestIsUnique(keys: set<Bits>, k: Bits, a: Option<Bits>, b: Option<Bits>)
    requires Shortest(keys, k, a) && Shortest(keys, k, b)
    ensures a == b
  {
    match (a, b) {
      case (Some(s), Some(r)) =>
        assert s <= r && r <= s;
        assert s == r;
      case _ =>
    }
  }

  lemma HeadIsShortest<R, V>(t: Trie<R, V>, k: Bits, pointer: Option<R>)
    requires Heads(t, k, pointer)
    ensures Shortest(t.index.Keys, k, KeyAt(t, pointer))
  {
  }

  lemma SameNode<R, S, V>(t: Trie<R, V>, u: Trie<S, V>, k: Bits)
    requires Good(t) && Good(u) && t.index.Keys == u.index.Keys && Table(t) == Table(u) && k in t.index
    ensures At(t, k).value == At(u, k).value
    ensures forall bit :: KeyAt(t, At(t, k).Child(bit)) == KeyAt(u, At(u, k).Child(bit))
  {
    InTable(t, k);
    InTable(u, k);
    forall bit ensures KeyAt(t, At(t, k).Child(bit)) == KeyAt(u, At(u, k).Child(bit)) {
      HeadsChild(t, t.index[k], bit);
      HeadsChild(u, u.index[k], bit);
      HeadIsShortest(t, k + [bit], At(t, k).Child(bit));
      HeadIsShortest(u, k + [bit], At(u, k).Child(bit));
      ShortestIsUnique(t.index.Keys, k + [bit], KeyAt(t, At(t, k).Child(bit)), KeyAt(u, At(u, k).Child(bit)));
    }
  }

  /** Two compressed tries that store the same prefix map have the same shape, whatever their histories. */
  lemma CanonicalShape<R, S, V>(t: Trie<R, V>, u: Trie<S, V>, maxBits: nat)
    requires Sound(t, maxBits) && Sound(u, maxBits) && Table(t) == Table(u)
    ensures ShapeOf(t) == ShapeOf(u)
  {
    hide Joins, Table, Rooted, Nested, Complete, Compressed;
    KeysAreJoins(t, maxBits);
    KeysAreJoins(u, maxBits);
    HeadsRoot(t);
    HeadsRoot(u);
    HeadIsShortest(t, [], t.root);
    HeadIsShortest(u, [], u.root);
    ShortestIsUnique(t.index.Keys, [], KeyAt(t, t.root), KeyAt(u, u.root));
    forall k | k in t.index ensures ShapeOf(t).nodes[k] == ShapeOf(u).nodes[k] {
      SameNode(t, u, k);
      assert KeyAt(t, At(t, k).Child(false)) == KeyAt(u, At(u, k).Child(false));
      assert KeyAt(t, At(t, k).Child(true)) == KeyAt(u, At(u, k).Child(true));
    }
    assert ShapeOf(t).nodes.Keys == t.index.Keys && ShapeOf(u).nodes.Keys == u.index.Keys;
  }

  /** For any two routing tables in memory. */
  lemma SameContentsSameShape<V>(a: RadixTrie<V>, b: RadixTrie<V>)
    requires a.Valid() && b.Valid() && a.maxBits == b.maxBits && a.Contents() == b.Contents()
    ensures ShapeOf(a.shape) == ShapeOf(b.shape) && a.nodes == b.nodes && a.size == b.size
  {
    hide ShapeOf, Table, Sound, Disposed;
    CanonicalShape(a.shape, b.shape, a.maxBits);
    SameKeys(a.shape, b.shape, a.maxBits);
  }

  lemma SameKeys<R, S, V>(t: Trie<R, V>, u: Trie<S, V>, maxBits: nat)
    requires Sound(t, maxBits) && Sound(u, maxBits) && Table(t) == Table(u)
    ensures |t.index| == |u.index|
  {
    hide Sound, Joins, Table;
    KeysAreJoins(t, maxBits);
    KeysAreJoins(u, maxBits);
    assert |t.index.Keys| == |t.index| && |u.index.Keys| == |u.index|;
  }

  /** Erasing what was freshly inserted: the former trie, shape and node count, from the contracts alone. */
  method InsertThenErase<V>(trie: RadixTrie<V>, prefix: Bits, boxed: V) returns (created: bool)
    requires trie.Valid() && |prefix| <= trie.maxBits
    modifies trie, trie.Memory()
    ensures trie.Valid() && created == (prefix !in old(trie.Contents()))
    ensures created ==> ShapeOf(trie.shape) == old(ShapeOf(trie.shape)) && trie.nodes == old(trie.nodes)
    ensures created ==> trie.size == old(trie.size) && trie.Contents() == old(trie.Contents())
  {
    hide ShapeOf, Table, Sound, Disposed, InsertionRun, ErasureRun;
    ghost var was := trie.shape;
    ghost var stored, pruned, dropped;
    var erased: bool;
    created, stored := trie.Insert(prefix, boxed);
    erased, pruned, dropped := trie.Erase(prefix);
    if created {
      assert Table(was)[prefix := boxed] - {prefix} == Table(was);
      CanonicalShape(trie.shape, was, trie.maxBits);
      SameKeys(trie.shape, was, trie.maxBits);
    }
  }

  // ---- how many they are ----

  ghost function Below<R, V>(t: Trie<R, V>, k: Bits): set<Bits> {
    set j | j in t.index && k <= j
  }

  ghost function RoutesBelow<R, V>(t: Trie<R, V>, k: Bits): set<Bits> {
    set j | j in Table(t) && k <= j
  }

  lemma BelowNode<R, V>(t: Trie<R, V>, k: Bits, x: R)
    requires Good(t) && Heads(t, k, Some(x)) && x in t.mem
    ensures var key := t.mem[x].key;
      && Below(t, k) == {key} + Below(t, key + [false]) + Below(t, key + [true])
      && RoutesBelow(t, k) ==
           (if t.mem[x].value.Some? then {key} else {}) + RoutesBelow(t, key + [false]) + RoutesBelow(t, key + [true])
  {
    hide Rooted, Nested, Complete;
    var key := t.mem[x].key;
    forall j | j in t.index ensures k <= j <==> j == key || key + [false] <= j || key + [true] <= j {
      if k <= j && j != key {
        SideOf(key, j[|key|], j);
      } else if key + [false] <= j || key + [true] <= j {
        BelowSide(key, key + [true] <= j, j);
      }
    }
    InTable(t, key);
  }

  lemma ApartCount(a: set<Bits>, key: Bits, zeros: set<Bits>, ones: set<Bits>)
    requires forall j :: j in zeros ==> key + [false] <= j
    requires forall j :: j in ones ==> key + [true] <= j
    requires a <= {key}
    ensures |a + zeros + ones| == |a| + |zeros| + |ones|
  {
    forall j | j in zeros ensures j !in ones && j !in a {
      BelowSide(key, false, j);
      if j in ones {
        BelowSide(key, true, j);
      }
    }
    forall j | j in ones ensures j !in a {
      BelowSide(key, true, j);
    }
    assert (a + zeros) * ones == {};
    assert a * zeros == {};
  }

  /** A subtree has at least one route and fewer than twice as many nodes as routes. */
  lemma {:induction false} CountBelow<R, V>(t: Trie<R, V>, maxBits: nat, k: Bits, pointer: Option<R>)
    requires Sound(t, maxBits) && Heads(t, k, pointer)
    ensures pointer.None? ==> Below(t, k) == {}
    ensures pointer.Some? ==> |Below(t, k)| + 1 <= 2 * |RoutesBelow(t, k)|
    decreases maxBits + 1 - |k|
  {
    if pointer.Some? {
      var x := pointer.value;
      var node := t.mem[x];
      hide Rooted, Nested, Complete;
      HeadsChild(t, x, false);
      HeadsChild(t, x, true);
      CountBelow(t, maxBits, node.key + [false], node.left);
      CountBelow(t, maxBits, node.key + [true], node.right);
      BelowNode(t, k, x);
      var own := if node.value.Some? then {node.key} else {};
      ApartCount({node.key}, node.key, Below(t, node.key + [false]), Below(t, node.key + [true]));
      ApartCount(own, node.key, RoutesBelow(t, node.key + [false]), RoutesBelow(t, node.key + [true]));
      assert Earns(node);
    }
  }

  /** An empty table has no node; n routes take at most 2n - 1. */
  lemma NodeBound<R, V>(t: Trie<R, V>, maxBits: nat)
    requires Sound(t, maxBits)
    ensures |Table(t)| == 0 ==> |t.index| == 0
    ensures |Table(t)| > 0 ==> |t.index| <= 2 * |Table(t)| - 1
  {
    HeadsRoot(t);
    CountBelow(t, maxBits, [], t.root);
    assert Below(t, []) == t.index.Keys && RoutesBelow(t, []) == Table(t).Keys;
    assert |t.index.Keys| == |t.index| && |Table(t).Keys| == |Table(t)|;
  }

  lemma NodeCountBound<V>(trie: RadixTrie<V>)
    requires trie.Valid()
    ensures trie.nodes <= if trie.size == 0 then 0 else 2 * trie.size - 1
  {
    NodeBound(trie.shape, trie.maxBits);
  }
}
