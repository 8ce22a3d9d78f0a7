/**
 Lookups that run while the trie changes under them, without a lock.

 Every load of a child pointer or of a value is a step of its own, and so is every store of the writer. Three
 history variables per lookup decide nothing: the tables in force since it began, which of them was in force at its
 last read of a value, and the nodes dropped since then. From that read on a lookup is as good as a fresh walk.
 */
module ConcurrentTrie {
  import opened Wrappers
  import opened Bits
  import opened TrieStore
  import opened TrieSteps

  datatype Pc<R> =
    | Outside
    | Reading(current: Option<R>)
    | Passing(x: R)
    | Finished

  /** One reader. `best` is the value it would return, with the key of the node it was read from. Of its history,
      `tables` holds the table at its start and after each store since, `readAt` says which of them was in force when
      `best` was read, and `gone` holds the nodes dropped since then. While there is no `best`, both count from the
      start. */
  datatype Walker<R, V> = Walker(
    address: Bits,
    pc: Pc<R>,
    best: Option<(Bits, V)>,
    readAt: nat,
    visited: nat,
    tables: seq<map<Bits, V>>,
    gone: set<R>)

  datatype State<R, V> = State(t: Trie<R, V>, writer: Writer<R>, walkers: seq<Walker<R, V>>)

  datatype Action<R, V> =
    | Begin(i: nat, address: Bits) | Visit(i: nat) | Follow(i: nat)
    | Insert(key: Bits, value: V, how: Insertion<R, V>) | Erase(slot: Slot<R>, node: R, up: Slot<R>) | Prune

  predicate Walking<R, V>(w: Walker<R, V>) {
    w.pc.Reading? || w.pc.Passing?
  }

  ghost predicate Enabled<R, V>(s: State<R, V>, a: Action<R, V>, maxBits: nat) {
    match a
    case Begin(i, address) => i < |s.walkers| && !Walking(s.walkers[i]) && |address| == maxBits
    case Visit(i) =>
      && i < |s.walkers| && s.walkers[i].pc.Reading?
      && (s.walkers[i].pc.current.Some? ==> s.walkers[i].pc.current.value in s.t.mem)
    case Follow(i) =>
      i < |s.walkers| && s.walkers[i].pc.Passing? && s.walkers[i].pc.x in s.t.mem
      && |s.t.mem[s.walkers[i].pc.x].key| < |s.walkers[i].address|
    case Insert(key, _, how) => s.writer.Idle? && |key| <= maxBits && Fits(s.t, key, how)
    case Erase(slot, node, up) => s.writer.Idle? && CanErase(s.t, slot, node, up)
    case Prune =>
      && !s.writer.Idle? && s.writer.node in s.t.mem
      && (s.writer.slot.ChildSlot? ==> s.writer.slot.owner in s.t.mem)
  }

  /** A lookup starts with the load of the root. */
  ghost function Begun<R, V>(t: Trie<R, V>, address: Bits): Walker<R, V> {
    Walker(address, Reading(t.root), None, 0, 0, [Table(t)], {})
  }

  /** The place of the table in force. */
  function Latest<V>(tables: seq<map<Bits, V>>): nat {
    if tables == [] then 0 else |tables| - 1
  }

  /** A node whose key covers the address is read, and is the last one when its key is the whole address. */
  ghost function Visited<R, V>(t: Trie<R, V>, w: Walker<R, V>, maxBits: nat): Walker<R, V>
    requires w.pc.Reading? && (w.pc.current.Some? ==> w.pc.current.value in t.mem)
  {
    if w.pc.current.None? then w.(pc := Finished)
    else
      var node := t.mem[w.pc.current.value];
      if !(node.key <= w.address) then w.(pc := Finished, visited := w.visited + 1)
      else
        var w' := if node.value.None? then w
                  else w.(best := Some((node.key, node.value.value)), readAt := Latest(w.tables), gone := {});
        w'.(visited := w.visited + 1,
           pc := if |node.key| >= maxBits then Finished else Passing(w.pc.current.value))
  }

  ghost function Followed<R, V>(t: Trie<R, V>, w: Walker<R, V>): Walker<R, V>
    requires w.pc.Passing? && w.pc.x in t.mem && |t.mem[w.pc.x].key| < |w.address|
  {
    w.(pc := Reading(t.mem[w.pc.x].Child(w.address[|t.mem[w.pc.x].key|])))
  }

  /** What a lookup under way has lived through after a store of the writer. */
  ghost function Observed<R, V>(w: Walker<R, V>, t': Trie<R, V>, dropped: Option<R>): Walker<R, V> {
    var gone := if dropped.Some? then {dropped.value} else {};
    if Walking(w) then w.(tables := w.tables + [Table(t')], gone := w.gone + gone) else w
  }

  ghost function Stored<R, V>(s: State<R, V>, t': Trie<R, V>, writer': Writer<R>, dropped: Option<R>): State<R, V> {
    State(t', writer', seq(|s.walkers|, i requires 0 <= i < |s.walkers| => Observed(s.walkers[i], t', dropped)))
  }

  ghost function Apply<R, V>(s: State<R, V>, a: Action<R, V>, maxBits: nat): State<R, V>
    requires Enabled(s, a, maxBits)
  {
    match a
    case Begin(i, address) => s.(walkers := s.walkers[i := Begun(s.t, address)])
    case Visit(i) => s.(walkers := s.walkers[i := Visited(s.t, s.walkers[i], maxBits)])
    case Follow(i) => s.(walkers := s.walkers[i := Followed(s.t, s.walkers[i])])
    case Insert(key, value, how) => Stored(s, Inserted(s.t, key, value, how), Idle, None)
    case Erase(slot, node, up) => Stored(s, s.t.StoreValue(node, None), Pruning(slot, node, up), None)
    case Prune => var (t', writer', dropped) := Pruned(s.t, s.writer); Stored(s, t', writer', dropped)
  }

  ghost predicate Start<R, V>(s: State<R, V>) {
    s.t == Trie(None, map[], map[]) && s.writer.Idle? && forall w :: w in s.walkers ==> w.pc.Outside?
  }

  /** A run of one writer and any number of readers, in any interleaving. */
  ghost predicate IsRun<R, V>(states: seq<State<R, V>>, actions: seq<Action<R, V>>, maxBits: nat) {
    && |states| == |actions| + 1
    && Start(states[0])
    && forall i :: 0 <= i < |actions| ==>
         Enabled(states[i], actions[i], maxBits) && states[i + 1] == Apply(states[i], actions[i], maxBits)
  }

  // ---- what a lookup lives through ----

  /** A lookup as if it had begun with its last read. */
  ghost function SinceRead<R, V>(w: Walker<R, V>): Walker<R, V> {
    if w.readAt <= |w.tables| then w.(tables := w.tables[w.readAt..]) else w
  }

  /** k was stored in every one of these tables. */
  ghost predicate Throughout<V>(tables: seq<map<Bits, V>>, k: Bits) {
    forall i :: 0 <= i < |tables| ==> k in tables[i]
  }

  /** What was stored for k in one of the tables. */
  ghost predicate StoredAt<V>(tables: seq<map<Bits, V>>, i: nat, k: Bits, value: V) {
    i < |tables| && k in tables[i] && tables[i][k] == value
  }

  ghost predicate SameBut<V>(a: map<Bits, V>, b: map<Bits, V>, k: Bits) {
    forall j :: j != k ==> Get(a, j) == Get(b, j)
  }

  /** One store changes the table at one prefix at most. */
  ghost predicate OneApart<V>(a: map<Bits, V>, b: map<Bits, V>) {
    exists k :: SameBut(a, b, k)
  }

  ghost predicate Gradual<V>(tables: seq<map<Bits, V>>) {
    forall i :: 0 < i < |tables| ==> OneApart(tables[i - 1], tables[i])
  }

  // ---- invariants ----

  /** Every pointer ever stored, in a live node or a dropped one, leads to a strictly longer key; what is not live
      has no value. */
  ghost predicate NodeOk<R, V>(t: Trie<R, V>, y: R, maxBits: nat)
    requires y in t.mem
  {
    && |t.mem[y].key| <= maxBits
    && (!Live(t, y) ==> t.mem[y].value.None?)
    && forall bit :: t.mem[y].Child(bit).Some? ==>
         t.mem[y].Child(bit).value in t.mem && Under(t.mem[y].key, bit, t.mem[t.mem[y].Child(bit).value].key)
  }

  ghost predicate HeapOk<R, V>(t: Trie<R, V>, maxBits: nat) {
    forall y :: y in t.mem ==> NodeOk(t, y, maxBits)
  }

  /** What a lookup can come across: what is live, or was at its last read, or has been since. */
  ghost predicate Within<R, V>(t: Trie<R, V>, gone: set<R>, x: R) {
    Live(t, x) || x in gone
  }

  /** A node dropped under a lookup leads on to all that has been stored throughout. */
  ghost predicate GoneOk<R, V>(t: Trie<R, V>, gone: set<R>, tables: seq<map<Bits, V>>, x: R) {
    && x in t.mem && !Live(t, x) && !Throughout(tables, t.mem[x].key)
    && (forall bit :: t.mem[x].Child(bit).Some? ==> Within(t, gone, t.mem[x].Child(bit).value))
    && (forall k :: Throughout(tables, k) && t.mem[x].key < k ==> Leads(t, x, k))
  }

  ghost predicate Surrounded<R, V>(t: Trie<R, V>, w: Walker<R, V>) {
    && |w.tables| > 0 && w.tables[|w.tables| - 1] == Table(t)
    && forall x :: x in w.gone ==> GoneOk(t, w.gone, w.tables, x)
  }

  ghost predicate Covered<V>(best: Option<(Bits, V)>, k: Bits) {
    best.Some? && |k| <= |best.value.0|
  }

  /** Whatever covers the address and has been stored throughout is no longer than the answer so far, or ahead. */
  ghost predicate Ahead<R, V>(t: Trie<R, V>, w: Walker<R, V>) {
    match w.pc
    case Outside => true
    case Reading(current) =>
      && (current.Some? ==> current.value in t.mem && Within(t, w.gone, current.value)
                            && (w.best.Some? ==> |w.best.value.0| < |t.mem[current.value].key|))
      && (forall k :: Throughout(w.tables, k) && k <= w.address ==>
            Covered(w.best, k) || (current.Some? && t.mem[current.value].key <= k))
    case Passing(x) =>
      && x in t.mem && Within(t, w.gone, x) && t.mem[x].key <= w.address && |t.mem[x].key| < |w.address|
      && (w.best.Some? ==> |w.best.value.0| <= |t.mem[x].key|)
      && (forall k :: Throughout(w.tables, k) && k <= w.address ==> Covered(w.best, k) || t.mem[x].key < k)
    case Finished =>
      forall k :: Throughout(w.tables, k) && k <= w.address ==> Covered(w.best, k)
  }

  /** The answer so far was in the table, under a prefix of the address, when it was read. */
  ghost predicate Genuine<R, V>(w: Walker<R, V>) {
    match w.best
    case None => w.readAt == 0
    case Some((k, value)) => k <= w.address && StoredAt(w.tables, w.readAt, k, value)
  }

  ghost predicate WaitFree<R, V>(t: Trie<R, V>, w: Walker<R, V>, maxBits: nat) {
    match w.pc
    case Outside => true
    case Reading(current) =>
      w.visited <= maxBits + 1 && (current.Some? ==> current.value in t.mem && w.visited <= |t.mem[current.value].key|)
    case Passing(x) => x in t.mem && w.visited <= |t.mem[x].key| + 1
    case Finished => w.visited <= maxBits + 1
  }

  ghost predicate WalkerOk<R, V>(t: Trie<R, V>, w: Walker<R, V>, maxBits: nat) {
    !w.pc.Outside? ==>
      && |w.address| == maxBits && w.readAt < |w.tables|
      && (Walking(w) ==> Surrounded(t, SinceRead(w)))
      && Ahead(t, SinceRead(w)) && Genuine(w) && Gradual(w.tables) && WaitFree(t, w, maxBits)
  }

  ghost predicate Inv<R, V>(s: State<R, V>, maxBits: nat) {
    && WriterInv(s.t, s.writer, maxBits) && HeapOk(s.t, maxBits)
    && forall i :: 0 <= i < |s.walkers| ==> WalkerOk(s.t, s.walkers[i], maxBits)
  }

  // ---- a store of the writer ----

  lemma ThroughoutExtended<V>(tables: seq<map<Bits, V>>, table: map<Bits, V>, k: Bits)
    ensures Throughout(tables + [table], k) <==> Throughout(tables, k) && k in table
  {
    if Throughout(tables + [table], k) {
      assert (tables + [table])[|tables|] == table;
      forall i | 0 <= i < |tables| ensures k in tables[i] {
        assert (tables + [table])[i] == tables[i];
      }
    }
  }

  /** A frozen node keeps leading where it led. */
  lemma FrozenLeads<R, V>(t: Trie<R, V>, t': Trie<R, V>, dropped: Option<R>, x: R, k: Bits)
    requires Evolves(t, t', dropped) && x in t.mem && x in t'.mem && t'.mem[x] == t.mem[x] && Leads(t, x, k)
    ensures Leads(t', x, k)
  {
  }

  lemma StoreKeepsGone<R, V>(
      t: Trie<R, V>, t': Trie<R, V>, dropped: Option<R>, gone: set<R>, tables: seq<map<Bits, V>>, x: R)
    requires Evolves(t, t', dropped) && GoneOk(t, gone, tables, x)
    ensures GoneOk(t', gone + (if dropped.Some? then {dropped.value} else {}), tables + [Table(t')], x)
  {
    hide Good, Table, Throughout;
    ThroughoutExtended(tables, Table(t'), t.mem[x].key);
    assert t'.mem[x] == t.mem[x];
    forall k | Throughout(tables + [Table(t')], k) && t.mem[x].key < k ensures Leads(t', x, k) {
      ThroughoutExtended(tables, Table(t'), k);
      FrozenLeads(t, t', dropped, x, k);
    }
  }

  lemma DroppedIsOk<R, V>(t: Trie<R, V>, t': Trie<R, V>, x: R, gone: set<R>, tables: seq<map<Bits, V>>)
    requires Good(t) && Evolves(t, t', Some(x)) && |tables| > 0 && tables[|tables| - 1] == Table(t)
    ensures GoneOk(t', gone + {x}, tables + [Table(t')], x)
  {
    assert t'.mem[x] == t.mem[x];
    InTable(t, t.mem[x].key);
    assert !Throughout(tables, t.mem[x].key);
    ThroughoutExtended(tables, Table(t'), t.mem[x].key);
    forall bit | t'.mem[x].Child(bit).Some? ensures Within(t', gone + {x}, t'.mem[x].Child(bit).value) {
      ChildLive(t, x, bit);
    }
    forall k | Throughout(tables + [Table(t')], k) && t'.mem[x].key < k ensures Leads(t', x, k) {
      ThroughoutExtended(tables, Table(t'), k);
      assert k in tables[|tables| - 1];
      InTable(t, k);
      NextLeads(t, k, x, k);
      assert Leads(t, x, k);
      FrozenLeads(t, t', Some(x), x, k);
    }
  }

  lemma StoreKeepsSurrounded<R, V>(t: Trie<R, V>, t': Trie<R, V>, dropped: Option<R>, w: Walker<R, V>)
    requires Good(t) && Evolves(t, t', dropped) && Walking(w) && Surrounded(t, w)
    ensures Surrounded(t', Observed(w, t', dropped))
  {
    hide Good, Evolves, Table, GoneOk;
    var w' := Observed(w, t', dropped);
    forall x | x in w'.gone ensures GoneOk(t', w'.gone, w'.tables, x) {
      if x in w.gone {
        StoreKeepsGone(t, t', dropped, w.gone, w.tables, x);
      } else {
        DroppedIsOk(t, t', x, w.gone, w.tables);
      }
    }
  }

  lemma StoreKeepsAhead<R, V>(t: Trie<R, V>, t': Trie<R, V>, dropped: Option<R>, w: Walker<R, V>)
    requires Evolves(t, t', dropped) && Ahead(t, w)
    ensures Ahead(t', Observed(w, t', dropped))
  {
    hide Good, Table, Throughout;
    var w' := Observed(w, t', dropped);
    if Walking(w) {
      forall k | Throughout(w'.tables, k) ensures Throughout(w.tables, k) {
        ThroughoutExtended(w.tables, Table(t'), k);
      }
    }
  }

  lemma StoreKeepsHeapOk<R, V>(t: Trie<R, V>, t': Trie<R, V>, dropped: Option<R>, maxBits: nat)
    requires HeapOk(t, maxBits) && Evolves(t, t', dropped) && Bounded(t', maxBits)
    ensures HeapOk(t', maxBits)
  {
    hide Rooted, Complete;
    forall y | y in t'.mem ensures NodeOk(t', y, maxBits) {
      if Live(t', y) {
        assert At(t', t'.mem[y].key) == t'.mem[y];
      } else {
        assert NodeOk(t, y, maxBits);
      }
    }
  }

  lemma StoreKeepsHistory<R, V>(t: Trie<R, V>, t': Trie<R, V>, dropped: Option<R>, w: Walker<R, V>)
    requires Walking(w) && Genuine(w) && Gradual(w.tables) && |w.tables| > 0
    requires OneApart(w.tables[|w.tables| - 1], Table(t'))
    ensures Genuine(Observed(w, t', dropped)) && Gradual(Observed(w, t', dropped).tables)
  {
    hide Table, OneApart;
    var w' := Observed(w, t', dropped);
    forall i | 0 < i < |w'.tables| ensures OneApart(w'.tables[i - 1], w'.tables[i]) {
      if i < |w.tables| {
        assert w'.tables[i - 1] == w.tables[i - 1] && w'.tables[i] == w.tables[i];
      }
    }
  }

  lemma StoreKeepsWalker<R, V>(t: Trie<R, V>, t': Trie<R, V>, dropped: Option<R>, w: Walker<R, V>, maxBits: nat)
    requires Good(t) && Evolves(t, t', dropped) && WalkerOk(t, w, maxBits) && OneApart(Table(t), Table(t'))
    ensures WalkerOk(t', Observed(w, t', dropped), maxBits)
  {
    hide Good, Table, OneApart, Ahead, GoneOk, Genuine, Gradual;
    if Walking(w) {
      var since := SinceRead(w);
      assert SinceRead(Observed(w, t', dropped)) == Observed(since, t', dropped) by {
        assert (w.tables + [Table(t')])[w.readAt..] == w.tables[w.readAt..] + [Table(t')];
      }
      assert since.tables[|since.tables| - 1] == w.tables[|w.tables| - 1];
      StoreKeepsAhead(t, t', dropped, since);
      StoreKeepsSurrounded(t, t', dropped, since);
      StoreKeepsHistory(t, t', dropped, w);
    } else if !w.pc.Outside? {
      StoreKeepsAhead(t, t', dropped, SinceRead(w));
    }
  }

  // ---- a step of a reader ----

  lemma BeginOk<R, V>(t: Trie<R, V>, address: Bits, maxBits: nat)
    requires Good(t) && |address| == maxBits
    ensures WalkerOk(t, Begun(t, address), maxBits)
  {
    var w := Begun(t, address);
    assert w.tables[0..] == w.tables;
    forall k | Throughout(w.tables, k) ensures t.root.Some? && t.mem[t.root.value].key <= k {
      assert k in w.tables[0];
      InTable(t, k);
    }
  }

  /** A prefix stored throughout at the key of a node on the way is stored in that node, which is live. */
  lemma ReadsKept<R, V>(t: Trie<R, V>, w: Walker<R, V>, x: R)
    requires Good(t) && Surrounded(t, w) && x in t.mem && Within(t, w.gone, x) && Throughout(w.tables, t.mem[x].key)
    ensures t.mem[x].value.Some?
  {
    assert t.mem[x].key in w.tables[|w.tables| - 1];
    InTable(t, t.mem[x].key);
    assert x in w.gone ==> GoneOk(t, w.gone, w.tables, x);
  }

  lemma ReadsGenuine<R, V>(t: Trie<R, V>, w: Walker<R, V>, x: R, maxBits: nat)
    requires Good(t) && HeapOk(t, maxBits) && x in t.mem && t.mem[x].value.Some?
    requires |w.tables| > 0 && w.tables[|w.tables| - 1] == Table(t)
    ensures StoredAt(w.tables, |w.tables| - 1, t.mem[x].key, t.mem[x].value.value)
  {
    hide Rooted, Nested, Complete, Table, GoneOk;
    assert NodeOk(t, x, maxBits);
    InTable(t, t.mem[x].key);
  }

  /** The node that the visit reads a value from, if any. */
  ghost predicate Reads<R, V>(t: Trie<R, V>, w: Walker<R, V>)
    requires w.pc.Reading? && (w.pc.current.Some? ==> w.pc.current.value in t.mem)
  {
    w.pc.current.Some? && t.mem[w.pc.current.value].key <= w.address && t.mem[w.pc.current.value].value.Some?
  }

  lemma VisitKeepsAhead<R, V>(t: Trie<R, V>, w: Walker<R, V>, maxBits: nat)
    requires Good(t) && w.pc.Reading? && Surrounded(t, w) && Ahead(t, w) && |w.address| == maxBits && !Reads(t, w)
    ensures Ahead(t, Visited(t, w, maxBits))
  {
    hide Good, Surrounded, Throughout, Within;
    var w' := Visited(t, w, maxBits);
    if w.pc.current.Some? {
      var x := w.pc.current.value;
      forall k | Throughout(w.tables, k) && k <= w.address
        ensures Covered(w'.best, k) || (w'.pc.Passing? && t.mem[x].key < k)
      {
        if t.mem[x].key == k {
          ReadsKept(t, w, x);
        } else if t.mem[x].key < k {
          assert t.mem[x].key <= w.address;
        }
      }
    }
  }

  /** Reading a value covers all that is shorter, in whatever table. */
  lemma ReadIsAhead<R, V>(t: Trie<R, V>, w: Walker<R, V>, maxBits: nat)
    requires HeapOk(t, maxBits) && w.pc.Reading? && (w.pc.current.Some? ==> w.pc.current.value in t.mem)
    requires |w.address| == maxBits && |w.tables| > 0 && w.tables[|w.tables| - 1] == Table(t) && Reads(t, w)
    ensures Ahead(t, SinceRead(Visited(t, w, maxBits))) && Surrounded(t, SinceRead(Visited(t, w, maxBits)))
  {
    hide Table;
    var x, w' := w.pc.current.value, SinceRead(Visited(t, w, maxBits));
    assert NodeOk(t, x, maxBits);
    forall k | k <= w.address ensures Covered(w'.best, k) || (w'.pc.Passing? && t.mem[x].key < k) {
      Comparable(k, t.mem[x].key, w.address);
    }
  }

  lemma VisitOk<R, V>(t: Trie<R, V>, w: Walker<R, V>, maxBits: nat)
    requires Good(t) && HeapOk(t, maxBits) && WalkerOk(t, w, maxBits) && w.pc.Reading?
    ensures WalkerOk(t, Visited(t, w, maxBits), maxBits)
  {
    hide Good, Surrounded, Ahead, GoneOk, StoredAt, Gradual;
    var since, w' := SinceRead(w), Visited(t, w, maxBits);
    InMemory(t, since);
    SurroundedNow(t, since);
    assert since.tables[|since.tables| - 1] == w.tables[|w.tables| - 1];
    if Reads(t, w) {
      var x := w.pc.current.value;
      ReadIsAhead(t, w, maxBits);
      ReadsGenuine(t, w, x, maxBits);
      assert NodeOk(t, x, maxBits);
    } else {
      VisitKeepsAhead(t, since, maxBits);
      assert SinceRead(w') == Visited(t, since, maxBits);
      SameSurroundings(t, since, SinceRead(w'));
      assert w.pc.current.Some? ==> NodeOk(t, w.pc.current.value, maxBits);
    }
  }

  lemma SurroundedNow<R, V>(t: Trie<R, V>, w: Walker<R, V>)
    requires Surrounded(t, w)
    ensures |w.tables| > 0 && w.tables[|w.tables| - 1] == Table(t)
  {
  }

  lemma InMemory<R, V>(t: Trie<R, V>, w: Walker<R, V>)
    requires Ahead(t, w)
    ensures w.pc.Reading? && w.pc.current.Some? ==> w.pc.current.value in t.mem
    ensures w.pc.Passing? ==> w.pc.x in t.mem && Within(t, w.gone, w.pc.x) && |t.mem[w.pc.x].key| < |w.address|
  {
  }

  lemma SameSurroundings<R, V>(t: Trie<R, V>, w: Walker<R, V>, w': Walker<R, V>)
    requires Surrounded(t, w) && w'.tables == w.tables && w'.gone == w.gone
    ensures Surrounded(t, w') && |w'.tables| > 0
  {
  }

  /** From a live node or a dropped one, the child towards a prefix stored throughout is on the way to it. */
  lemma StillLeads<R, V>(t: Trie<R, V>, w: Walker<R, V>, x: R, k: Bits)
    requires Good(t) && Surrounded(t, w) && x in t.mem && Within(t, w.gone, x) && Throughout(w.tables, k)
    requires t.mem[x].key < k
    ensures Leads(t, x, k)
  {
    assert k in w.tables[|w.tables| - 1];
    InTable(t, k);
    if Live(t, x) {
      NextLeads(t, k, x, k);
    } else {
      assert GoneOk(t, w.gone, w.tables, x);
    }
  }

  lemma ChildWithin<R, V>(t: Trie<R, V>, w: Walker<R, V>, x: R, bit: bool)
    requires Good(t) && Surrounded(t, w) && x in t.mem && Within(t, w.gone, x) && t.mem[x].Child(bit).Some?
    ensures Within(t, w.gone, t.mem[x].Child(bit).value)
  {
    if Live(t, x) {
      ChildLive(t, x, bit);
    } else {
      assert GoneOk(t, w.gone, w.tables, x);
    }
  }

  lemma FollowKeepsAhead<R, V>(t: Trie<R, V>, w: Walker<R, V>, maxBits: nat)
    requires Good(t) && HeapOk(t, maxBits) && w.pc.Passing? && Surrounded(t, w) && Ahead(t, w)
    ensures Ahead(t, Followed(t, w))
  {
    hide Good, Surrounded, Throughout, Within;
    var x := w.pc.x;
    var bit := w.address[|t.mem[x].key|];
    assert NodeOk(t, x, maxBits);
    if t.mem[x].Child(bit).Some? {
      ChildWithin(t, w, x, bit);
    }
    forall k | Throughout(w.tables, k) && k <= w.address
      ensures Covered(w.best, k) || (t.mem[x].Child(bit).Some? && t.mem[t.mem[x].Child(bit).value].key <= k)
    {
      if !Covered(w.best, k) {
        StillLeads(t, w, x, k);
      }
    }
  }

  lemma FollowOk<R, V>(t: Trie<R, V>, w: Walker<R, V>, maxBits: nat)
    requires Good(t) && HeapOk(t, maxBits) && WalkerOk(t, w, maxBits) && w.pc.Passing?
    ensures w.pc.x in t.mem && |t.mem[w.pc.x].key| < |w.address|
    ensures WalkerOk(t, Followed(t, w), maxBits)
  {
    hide Good, Surrounded, Ahead, GoneOk, StoredAt, Gradual;
    var since := SinceRead(w);
    InMemory(t, since);
    FollowKeepsAhead(t, since, maxBits);
    assert SinceRead(Followed(t, w)) == Followed(t, since);
    SameSurroundings(t, since, SinceRead(Followed(t, w)));
    assert NodeOk(t, w.pc.x, maxBits);
  }

  // ---- every step ----

  lemma InsertApart<V>(a: map<Bits, V>, b: map<Bits, V>, k: Bits)
    requires SameBut(a, b, k)
    ensures OneApart(a, b)
  {
  }

  lemma WriterInvGood<R, V>(t: Trie<R, V>, w: Writer<R>, maxBits: nat)
    requires WriterInv(t, w, maxBits)
    ensures Good(t) && Bounded(t, maxBits) && (w.Idle? ==> Sound(t, maxBits))
    ensures !w.Idle? ==> w.node in t.mem && (w.slot.ChildSlot? ==> w.slot.owner in t.mem)
  {
  }

  lemma WriterStep<R, V>(s: State<R, V>, a: Action<R, V>, maxBits: nat) returns (dropped: Option<R>)
    requires WriterInv(s.t, s.writer, maxBits) && Enabled(s, a, maxBits) && (a.Insert? || a.Erase? || a.Prune?)
    ensures dropped == if a.Prune? then Pruned(s.t, s.writer).2 else None
    ensures var s' := Apply(s, a, maxBits);
      && s' == Stored(s, s'.t, s'.writer, dropped)
      && WriterInv(s'.t, s'.writer, maxBits) && Evolves(s.t, s'.t, dropped) && OneApart(Table(s.t), Table(s'.t))
  {
    hide Good, Table, Evolves, OneApart, Bounded, CompressedBut, Holds, Fits, Inserted, Pruned;
    WriterInvGood(s.t, s.writer, maxBits);
    var t' := Apply(s, a, maxBits).t;
    dropped := None;
    if a.Insert? {
      InsertionEvolves(s.t, a.key, a.value, a.how, maxBits);
      InsertApart(Table(s.t), Table(t'), a.key);
    } else if a.Erase? {
      ErasureEvolves(s.t, a.slot, a.node, a.up, maxBits);
      InsertApart(Table(s.t), Table(t'), s.t.mem[a.node].key);
    } else {
      PruneEvolves(s.t, s.writer, maxBits);
      dropped := Pruned(s.t, s.writer).2;
      InsertApart(Table(s.t), Table(t'), []);
    }
  }

  lemma StepKeepsInv<R, V>(s: State<R, V>, a: Action<R, V>, maxBits: nat)
    requires Inv(s, maxBits) && Enabled(s, a, maxBits)
    ensures Inv(Apply(s, a, maxBits), maxBits)
  {
    hide Good, Table, Evolves, OneApart, WalkerOk, WriterInv, HeapOk, Bounded;
    var s' := Apply(s, a, maxBits);
    WriterInvGood(s.t, s.writer, maxBits);
    if a.Insert? || a.Erase? || a.Prune? {
      var dropped := WriterStep(s, a, maxBits);
      WriterInvGood(s'.t, s'.writer, maxBits);
      StoreKeepsHeapOk(s.t, s'.t, dropped, maxBits);
      forall i | 0 <= i < |s'.walkers| ensures WalkerOk(s'.t, s'.walkers[i], maxBits) {
        StoreKeepsWalker(s.t, s'.t, dropped, s.walkers[i], maxBits);
      }
    } else {
      match a {
        case Begin(i, address) => BeginOk(s.t, address, maxBits);
        case Visit(i) => VisitOk(s.t, s.walkers[i], maxBits);
        case Follow(i) => FollowOk(s.t, s.walkers[i], maxBits);
      }
    }
  }

  lemma {:induction false} RunKeepsInv<R, V>(states: seq<State<R, V>>, actions: seq<Action<R, V>>, maxBits: nat, i: nat)
    requires IsRun(states, actions, maxBits) && i < |states|
    ensures Inv(states[i], maxBits)
  {
    if i == 0 {
    } else {
      hide Inv, Enabled, Apply;
      RunKeepsInv(states, actions, maxBits, i - 1);
      StepKeepsInv(states[i - 1], actions[i - 1], maxBits);
    }
  }

  // ---- the theorems ----

  /** A concurrent lookup never goes blind: its answer is at least as long as every covering prefix that was stored
      throughout since it was read, or since the start if there is none; and it was in the table, under a prefix of
      the address, at the moment it was read. */
  lemma NeverBlind<R, V>(states: seq<State<R, V>>, actions: seq<Action<R, V>>, maxBits: nat, i: nat, r: nat)
    requires IsRun(states, actions, maxBits) && i < |states| && r < |states[i].walkers|
    requires states[i].walkers[r].pc.Finished?
    ensures var w := states[i].walkers[r];
      && w.readAt < |w.tables|
      && (forall k :: Throughout(w.tables[w.readAt..], k) && k <= w.address ==> Covered(w.best, k))
      && Genuine(w)
  {
    RunKeepsInv(states, actions, maxBits, i);
    assert WalkerOk(states[i].t, states[i].walkers[r], maxBits);
  }

  /** Whatever the writer does meanwhile, a lookup visits at most one node per key length. */
  lemma WalkIsBounded<R, V>(states: seq<State<R, V>>, actions: seq<Action<R, V>>, maxBits: nat, i: nat, r: nat)
    requires IsRun(states, actions, maxBits) && i < |states| && r < |states[i].walkers|
    requires !states[i].walkers[r].pc.Outside?
    ensures states[i].walkers[r].visited <= maxBits + 1
  {
    RunKeepsInv(states, actions, maxBits, i);
    var w := states[i].walkers[r];
    assert WalkerOk(states[i].t, w, maxBits);
    if w.pc.Passing? {
      assert NodeOk(states[i].t, w.pc.x, maxBits);
    }
  }

  /** The step of a lookup under way. */
  function NextStep<R, V>(w: Walker<R, V>, r: nat): Action<R, V> {
    if w.pc.Reading? then Visit(r) else Follow(r)
  }

  /** A bound on the steps that a lookup has still to take. */
  function ToGo<R, V>(w: Walker<R, V>, maxBits: nat): int {
    if w.pc.Reading? then 2 * (maxBits + 1 - w.visited) + 1
    else if w.pc.Passing? then 2 * (maxBits + 1 - w.visited) + 2
    else 0
  }

  lemma NextStepWorks<R, V>(s: State<R, V>, maxBits: nat, r: nat)
    requires Inv(s, maxBits) && r < |s.walkers| && Walking(s.walkers[r])
    ensures Enabled(s, NextStep(s.walkers[r], r), maxBits)
    ensures var w' := Apply(s, NextStep(s.walkers[r], r), maxBits).walkers[r];
      0 <= ToGo(w', maxBits) < ToGo(s.walkers[r], maxBits) <= 2 * maxBits + 4
  {
    hide WriterInv, Genuine, Gradual;
    var w := s.walkers[r];
    assert WalkerOk(s.t, w, maxBits);
    if w.pc.Passing? {
      assert NodeOk(s.t, w.pc.x, maxBits);
    } else if w.pc.current.Some? {
      assert NodeOk(s.t, w.pc.current.value, maxBits);
    }
  }

  /** A reader is never stuck: while it walks, its next step is enabled, and brings it nearer to its end. */
  lemma WalkIsEnabled<R, V>(states: seq<State<R, V>>, actions: seq<Action<R, V>>, maxBits: nat, i: nat, r: nat)
    requires IsRun(states, actions, maxBits) && i < |states| && r < |states[i].walkers| && Walking(states[i].walkers[r])
    ensures Enabled(states[i], NextStep(states[i].walkers[r], r), maxBits)
    ensures var w' := Apply(states[i], NextStep(states[i].walkers[r], r), maxBits).walkers[r];
      0 <= ToGo(w', maxBits) < ToGo(states[i].walkers[r], maxBits) <= 2 * maxBits + 4
  {
    RunKeepsInv(states, actions, maxBits, i);
    NextStepWorks(states[i], maxBits, r);
  }

  // ---- how much overlap a lookup can take ----

  /** The part of a table that bears on an address. */
  ghost function Covering<V>(table: map<Bits, V>, address: Bits): map<Bits, V> {
    map k | k in table && k <= address :: table[k]
  }

  /** How often a covering prefix was inserted, replaced or erased. */
  ghost function Changes<V>(tables: seq<map<Bits, V>>, address: Bits): nat {
    var n := |tables|;
    if n <= 1 then 0
    else Changes(tables[..n - 1], address) +
         if Covering(tables[n - 2], address) == Covering(tables[n - 1], address) then 0 else 1
  }

  /** Up to m a lookup sees what it saw at first, and after m what it sees at last. */
  ghost predicate ChangesOnce<V>(tables: seq<map<Bits, V>>, address: Bits, m: nat) {
    && (forall i :: 0 <= i <= m && i < |tables| ==> Covering(tables[i], address) == Covering(tables[0], address))
    && (forall i :: m < i < |tables| ==> Covering(tables[i], address) == Covering(tables[|tables| - 1], address))
  }

  lemma {:induction false} NoChange<V>(tables: seq<map<Bits, V>>, address: Bits, i: nat)
    requires Changes(tables, address) == 0 && i < |tables|
    ensures Covering(tables[i], address) == Covering(tables[0], address)
  {
    if |tables| == 1 {
    } else {
      var n := |tables| - 1;
      NoChange(tables[..n], address, if i < n then i else n - 1);
    }
  }

  lemma {:induction false} Unchanged<V>(tables: seq<map<Bits, V>>, address: Bits)
    requires forall i :: 0 <= i < |tables| ==> tables[i] == tables[0]
    ensures Changes(tables, address) == 0
  {
    if |tables| <= 1 {
    } else {
      Unchanged(tables[..|tables| - 1], address);
    }
  }

  /** Where the one change is, or the last table if there is none. */
  lemma {:induction false} OneChange<V>(tables: seq<map<Bits, V>>, address: Bits) returns (m: nat)
    requires |tables| > 0 && Changes(tables, address) <= 1
    ensures ChangesOnce(tables, address, m)
  {
    if |tables| == 1 {
      m := 0;
    } else {
      var n := |tables| - 1;
      if Changes(tables[..n], address) == 0 {
        m := n - 1;
        forall i | 0 <= i <= m ensures Covering(tables[i], address) == Covering(tables[0], address) {
          NoChange(tables[..n], address, i);
        }
      } else {
        m := OneChange(tables[..n], address);
        assert forall i :: m < i < n ==> Covering(tables[..n][i], address) == Covering(tables[n - 1], address);
      }
    }
  }

  lemma AnswerOfOneTable<V>(table: map<Bits, V>, address: Bits, best: Option<(Bits, V)>)
    requires forall k :: k in table && k <= address ==> Covered(best, k)
    requires best.Some? ==> best.value.0 <= address && Get(table, best.value.0) == Some(best.value.1)
    ensures (if best.Some? then Some(best.value.1) else None) == Lpm(table, address)
  {
    if best.Some? {
      LongestMatchIs(table, address, |address|, best.value.0);
    } else {
      NoMatch(table, address, |address|);
    }
  }

  /** Between two tables that differ at one covering prefix, an answer that misses nothing they share is right for
      one of them. */
  lemma AnswerBetween<V>(a: map<Bits, V>, b: map<Bits, V>, k: Bits, address: Bits, best: Option<(Bits, V)>)
      returns (before: bool)
    requires forall j :: j != k && j <= address ==> Get(a, j) == Get(b, j)
    requires forall j :: j in a && j in b && j <= address ==> Covered(best, j)
    requires best.Some? ==> best.value.0 <= address
    requires best.Some? ==> Get(a, best.value.0) == Some(best.value.1) || Get(b, best.value.0) == Some(best.value.1)
    ensures (if best.Some? then Some(best.value.1) else None) == Lpm(if before then a else b, address)
  {
    before := if best.Some? && best.value.0 == k then Get(a, k) == Some(best.value.1) else k !in a;
    var table := if before then a else b;
    forall j | j in table && j <= address ensures Covered(best, j) {
      assert j != k ==> Get(a, j) == Get(b, j);
    }
    assert best.Some? && best.value.0 != k ==> Get(a, best.value.0) == Get(b, best.value.0);
    AnswerOfOneTable(table, address, best);
  }

  ghost function Answer<R, V>(w: Walker<R, V>): Option<V> {
    if w.best.Some? then Some(w.best.value.1) else None
  }

  lemma CoveringGet<V>(a: map<Bits, V>, b: map<Bits, V>, address: Bits, k: Bits)
    requires Covering(a, address) == Covering(b, address) && k <= address
    ensures Get(a, k) == Get(b, k)
  {
    assert k in a <==> k in Covering(a, address);
    assert k in b <==> k in Covering(b, address);
    if k in a {
      assert Covering(a, address)[k] == a[k] && Covering(b, address)[k] == b[k];
    }
  }

  /** The first and the last table differ at one covering prefix at the most. */
  lemma EndsApart<V>(tables: seq<map<Bits, V>>, address: Bits, m: nat) returns (k: Bits)
    requires |tables| > 0 && Gradual(tables) && ChangesOnce(tables, address, m)
    ensures forall j :: j != k && j <= address ==> Get(tables[0], j) == Get(tables[|tables| - 1], j)
  {
    var last := |tables| - 1;
    k := [];
    if m < last {
      assert OneApart(tables[m + 1 - 1], tables[m + 1]);
      k :| SameBut(tables[m], tables[m + 1], k);
    }
    forall j | j != k && j <= address ensures Get(tables[0], j) == Get(tables[last], j) {
      if m < last {
        CoveringGet(tables[0], tables[m], address, j);
        CoveringGet(tables[m + 1], tables[last], address, j);
      } else {
        CoveringGet(tables[0], tables[last], address, j);
      }
    }
  }

  lemma OneOverlap<R, V>(w: Walker<R, V>)
    requires |w.tables| > 0 && Gradual(w.tables) && Changes(w.tables, w.address) <= 1 && Genuine(w)
    requires forall k :: Throughout(w.tables, k) && k <= w.address ==> Covered(w.best, k)
    ensures Answer(w) == Lpm(w.tables[0], w.address) || Answer(w) == Lpm(w.tables[|w.tables| - 1], w.address)
  {
    hide Gradual, Lpm, Changes, Covering;
    var last := |w.tables| - 1;
    var a, b := w.tables[0], w.tables[last];
    var m := OneChange(w.tables, w.address);
    var k := EndsApart(w.tables, w.address, m);
    forall i, j | 0 <= i <= last && j <= w.address
      ensures Get(w.tables[i], j) == Get(a, j) || Get(w.tables[i], j) == Get(b, j)
    {
      if i <= m {
        CoveringGet(w.tables[i], a, w.address, j);
      } else {
        CoveringGet(w.tables[i], b, w.address, j);
      }
    }
    forall j | j in a && j in b && j <= w.address ensures Covered(w.best, j) {
      forall i | 0 <= i <= last ensures j in w.tables[i] {
        assert Get(w.tables[i], j) == Get(a, j) || Get(w.tables[i], j) == Get(b, j);
      }
      assert Throughout(w.tables, j);
    }
    var before := AnswerBetween(a, b, k, w.address, w.best);
  }

  /** A lookup answers for the table at its start or the table at its end if at most one change of a covering prefix
      (an insert, a replacement or an erasure) falls between them, whatever the writer does to other prefixes. */
  lemma OneOverlapIsLinearizable<R, V>(
      states: seq<State<R, V>>, actions: seq<Action<R, V>>, maxBits: nat, i: nat, r: nat)
    requires IsRun(states, actions, maxBits) && i < |states|
    requires r < |states[i].walkers| && states[i].walkers[r].pc.Finished?
    requires Changes(states[i].walkers[r].tables, states[i].walkers[r].address) <= 1
    ensures var w := states[i].walkers[r];
      && |w.tables| > 0
      && (Answer(w) == Lpm(w.tables[0], w.address) || Answer(w) == Lpm(w.tables[|w.tables| - 1], w.address))
  {
    hide IsRun, Changes, Gradual, Genuine, Lpm, Answer, WriterInv, HeapOk, Surrounded;
    RunKeepsInv(states, actions, maxBits, i);
    var w := states[i].walkers[r];
    assert WalkerOk(states[i].t, w, maxBits);
    OneOverlap(w);
  }

  // ---- only erasures do harm ----

  datatype Kind = Insertions | Replacements | Erasures

  ghost predicate IsOf<V>(kind: Kind, a: map<Bits, V>, b: map<Bits, V>) {
    match kind
    case Insertions => !(b.Keys <= a.Keys)
    case Replacements => a.Keys == b.Keys && a != b
    case Erasures => !(a.Keys <= b.Keys)
  }

  /** How often a covering prefix was inserted, or replaced, or erased. */
  ghost function Count<V>(kind: Kind, tables: seq<map<Bits, V>>, address: Bits): nat {
    var n := |tables|;
    if n <= 1 then 0
    else Count(kind, tables[..n - 1], address) +
         if IsOf(kind, Covering(tables[n - 2], address), Covering(tables[n - 1], address)) then 1 else 0
  }

  /** Every change is of one of the kinds. */
  lemma {:induction false} ChangesByKind<V>(tables: seq<map<Bits, V>>, address: Bits)
    ensures Changes(tables, address) <=
      Count(Insertions, tables, address) + Count(Replacements, tables, address) + Count(Erasures, tables, address)
  {
    if |tables| <= 1 {
    } else {
      hide Covering;
      ChangesByKind(tables[..|tables| - 1], address);
    }
  }

  /** Without an erasure, what was stored at some moment stays. */
  lemma {:induction false} NothingErased<V>(tables: seq<map<Bits, V>>, address: Bits, i: nat, j: nat, k: Bits)
    requires Count(Erasures, tables, address) == 0 && i <= j < |tables| && k in tables[i] && k <= address
    ensures k in tables[j]
  {
    if i == j {
    } else {
      var n := |tables| - 1;
      NothingErased(tables[..n], address, i, if j < n then j else n - 1, k);
      if j == n {
        assert k in Covering(tables[n - 1], address);
      }
    }
  }

  /** Nothing that covers the address was lost between its last read and the end of the lookup. */
  ghost predicate NothingLost<R, V>(w: Walker<R, V>) {
    w.readAt < |w.tables|
    && forall k :: k in w.tables[w.readAt] && k <= w.address ==> Throughout(w.tables[w.readAt..], k)
  }

  lemma RightWhenRead<R, V>(w: Walker<R, V>)
    requires NothingLost(w) && Genuine(w)
    requires forall k :: Throughout(w.tables[w.readAt..], k) && k <= w.address ==> Covered(w.best, k)
    ensures Answer(w) == Lpm(w.tables[w.readAt], w.address)
  {
    hide Lpm, Throughout;
    AnswerOfOneTable(w.tables[w.readAt], w.address, w.best);
  }

  /** A lookup beside which no covering prefix is erased after its last read, whatever else is inserted, replaced or
      erased, answers for the table in force at that read, or at the start if it has read nothing. */
  lemma WithoutErasuresLinearizable<R, V>(
      states: seq<State<R, V>>, actions: seq<Action<R, V>>, maxBits: nat, i: nat, r: nat)
    requires IsRun(states, actions, maxBits) && i < |states|
    requires r < |states[i].walkers| && states[i].walkers[r].pc.Finished?
    requires NothingLost(states[i].walkers[r])
    ensures var w := states[i].walkers[r];
      Answer(w) == Lpm(w.tables[w.readAt], w.address)
  {
    hide IsRun, Lpm, Answer, Throughout, Genuine, Covered;
    NeverBlind(states, actions, maxBits, i, r);
    RightWhenRead(states[i].walkers[r]);
  }

  /** All that a finished lookup keeps, from the invariant alone. */
  lemma FinishedIsRight<R, V>(t: Trie<R, V>, w: Walker<R, V>, maxBits: nat)
    requires WalkerOk(t, w, maxBits) && w.pc.Finished?
    ensures w.visited <= maxBits + 1 && w.readAt < |w.tables| && Genuine(w)
    ensures forall k :: Throughout(w.tables[w.readAt..], k) && k <= w.address ==> Covered(w.best, k)
    ensures NothingLost(w) ==> Answer(w) == Lpm(w.tables[w.readAt], w.address)
    ensures Changes(w.tables, w.address) <= 1 ==>
      Answer(w) == Lpm(w.tables[0], w.address) || Answer(w) == Lpm(w.tables[|w.tables| - 1], w.address)
  {
    hide Lpm, Answer, Changes, NothingLost, Genuine, Gradual, Covered;
    if NothingLost(w) {
      RightWhenRead(w);
    }
    if Changes(w.tables, w.address) <= 1 {
      forall k | Throughout(w.tables, k) ensures Throughout(w.tables[w.readAt..], k) {
      }
      OneOverlap(w);
    }
  }

  /** In particular when none is erased at all. */
  lemma NoErasureNothingLost<R, V>(w: Walker<R, V>)
    requires w.readAt < |w.tables| && Count(Erasures, w.tables, w.address) == 0
    ensures NothingLost(w)
  {
    forall k | k in w.tables[w.readAt] && k <= w.address ensures Throughout(w.tables[w.readAt..], k) {
      forall i | 0 <= i < |w.tables[w.readAt..]| ensures k in w.tables[w.readAt..][i] {
        NothingErased(w.tables, w.address, w.readAt, w.readAt + i, k);
      }
    }
  }
}
