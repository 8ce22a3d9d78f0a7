/**
 fib_synchroniser: remembers which prefixes changed, not what changed, and resolves each against the RIB when it
 flushes.

 A Plane is the state of RIB, FIB and synchroniser together. The class is proved to compute the functions on planes;
 convergence and the comparison with eager programming are proved of every history of those.
 */
module Synchronisers {
  import opened Wrappers
  import opened Bits
  import opened FibUpdates
  import opened MutexFibs
  import opened Routes
  import R = Ribs

  datatype Stats = Stats(marked: nat, coalesced: nat, flushes: nat, programmed: nat, adds: nat, removes: nat)

  datatype Plane = Plane(
    rib: map<Bits, seq<Route>>,
    fib: map<Bits, FibEntry>,
    dirty: set<Bits>,
    generation: nat,
    stats: Stats)

  const NO_STATS := Stats(0, 0, 0, 0, 0, 0)

  /** mark_dirty */
  function Marked(c: Plane, prefix: Bits): Plane {
    if prefix in c.dirty then c.(stats := c.stats.(coalesced := c.stats.coalesced + 1))
    else c.(dirty := c.dirty + {prefix}, stats := c.stats.(marked := c.stats.marked + 1))
  }

  /** What is programmed for a prefix, from what the RIB says now. */
  function Resolve(rib: map<Bits, seq<Route>>, prefix: Bits, generation: nat): Update<FibEntry> {
    match R.WinnerAt(rib, prefix)
    case Some(best) => Add(prefix, FibEntry(best.hop, best.source, generation + 1))
    case None => Remove(prefix)
  }

  function GenerationAfter(rib: map<Bits, seq<Route>>, order: seq<Bits>, generation: nat): nat {
    if order == [] then generation
    else
      var before := GenerationAfter(rib, order[..|order| - 1], generation);
      if R.WinnerAt(rib, order[|order| - 1]).Some? then before + 1 else before
  }

  /** The batch for prefixes drained in this order. */
  function Drained(rib: map<Bits, seq<Route>>, order: seq<Bits>, generation: nat): (batch: seq<Update<FibEntry>>)
    ensures |batch| == |order|
  {
    if order == [] then []
    else
      var n := |order| - 1;
      Drained(rib, order[..n], generation) + [Resolve(rib, order[n], GenerationAfter(rib, order[..n], generation))]
  }

  /** A batch says for each drained prefix what the RIB's winner says, and every route in it has a generation of its
      own, later than all before. */
  ghost predicate Resolved(
      rib: map<Bits, seq<Route>>, order: seq<Bits>, from: nat, to: nat, batch: seq<Update<FibEntry>>) {
    && |batch| == |order|
    && (forall i :: 0 <= i < |batch| ==> batch[i].key == order[i] && Says(batch[i], R.WinnerAt(rib, order[i])))
    && (forall i :: 0 <= i < |batch| && batch[i].Add? ==> from < batch[i].value.generation <= to)
    && (forall i, j :: 0 <= i < j < |batch| && batch[i].Add? && batch[j].Add? ==>
          batch[i].value.generation < batch[j].value.generation)
  }

  predicate Says(update: Update<FibEntry>, best: Option<Route>) {
    match best
    case Some(route) => update.Add? && update.value.hop == route.hop && update.value.source == route.source
    case None => update.Remove?
  }

  lemma ResolvedMore(
      rib: map<Bits, seq<Route>>, order: seq<Bits>, from: nat, to: nat, batch: seq<Update<FibEntry>>, p: Bits)
    requires Resolved(rib, order, from, to, batch) && from <= to
    ensures Resolved(rib, order + [p], from, if R.WinnerAt(rib, p).Some? then to + 1 else to,
                     batch + [Resolve(rib, p, to)])
  {
    hide R.WinnerAt;
  }

  lemma {:induction false} DrainedIs(rib: map<Bits, seq<Route>>, order: seq<Bits>, generation: nat)
    ensures Resolved(rib, order, generation, GenerationAfter(rib, order, generation), Drained(rib, order, generation))
  {
    if order == [] {
    } else {
      hide R.WinnerAt, Resolved, Resolve;
      var n := |order| - 1;
      DrainedIs(rib, order[..n], generation);
      GenerationGrows(rib, order[..n], generation);
      ResolvedMore(rib, order[..n], generation, GenerationAfter(rib, order[..n], generation),
                   Drained(rib, order[..n], generation), order[n]);
      assert order == order[..n] + [order[n]];
    }
  }

  predicate Distinct(order: seq<Bits>) {
    forall i, j :: 0 <= i < j < |order| ==> order[i] != order[j]
  }

  /** What stays dirty. */
  function Left(dirty: set<Bits>, order: seq<Bits>): set<Bits> {
    set p | p in dirty && p !in order
  }

  /** The prefixes are different ones, and dirty. */
  predicate DrawnFrom(order: seq<Bits>, dirty: set<Bits>) {
    Distinct(order) && forall p :: p in order ==> p in dirty
  }

  lemma LeftStays(dirty: set<Bits>, order: seq<Bits>)
    ensures forall p :: p in Left(dirty, order) ==> p in dirty
  {
  }

  lemma DrawnKeys(dirty: set<Bits>, order: seq<Bits>)
    requires DrawnFrom(order, dirty)
    ensures forall p :: p in order ==> p in dirty
  {
  }

  lemma LeftStep(dirty: set<Bits>, order: seq<Bits>, p: Bits)
    requires DrawnFrom(order, dirty) && p in Left(dirty, order)
    ensures DrawnFrom(order + [p], dirty) && Left(dirty, order + [p]) == Left(dirty, order) - {p}
  {
  }

  /** A flush that drains these prefixes, in this order. */
  function Flushed(c: Plane, order: seq<Bits>): Plane
    requires c.generation <= GenerationAfter(c.rib, order, c.generation) <= c.generation + |order|
  {
    var generation := GenerationAfter(c.rib, order, c.generation);
    var adds := generation - c.generation;
    c.(fib := Batch(c.fib, Drained(c.rib, order, c.generation)),
       dirty := Left(c.dirty, order),
       generation := generation,
       stats := c.stats.(flushes := c.stats.flushes + 1, programmed := c.stats.programmed + |order|,
                         adds := c.stats.adds + adds, removes := c.stats.removes + |order| - adds))
  }

  lemma {:induction false} GenerationGrows(rib: map<Bits, seq<Route>>, order: seq<Bits>, generation: nat)
    ensures generation <= GenerationAfter(rib, order, generation) <= generation + |order|
  {
    if order == [] {
    } else {
      GenerationGrows(rib, order[..|order| - 1], generation);
    }
  }

  // ---- the class ----

  class FibSynchroniser {
    const rib: R.Rib
    const fib: MutexFib<FibEntry>
    var dirty: set<Bits>
    var generation: nat
    var marked: nat
    var coalesced: nat
    var flushes: nat
    var updatesProgrammed: nat
    var adds: nat
    var removes: nat

    ghost predicate Valid()
      reads this, rib, rib.table.Values, fib.trie, fib.trie.Memory()
    {
      && rib.Valid() && fib.Valid()
      && forall p :: p in dirty ==> |p| <= fib.trie.maxBits
    }

    ghost function View(): Plane
      reads this, rib, rib.table.Values, fib.trie
    {
      var stats := Stats(marked, coalesced, flushes, updatesProgrammed, adds, removes);
      Plane(rib.Contents(), fib.Contents(), dirty, generation, stats)
    }

    constructor (source: R.Rib, target: MutexFib<FibEntry>)
      requires source.Valid() && target.Valid()
      ensures Valid() && rib == source && fib == target
      ensures View() == Plane(source.Contents(), target.Contents(), {}, 0, NO_STATS)
    {
      hide R.Rib.Valid, R.Rib.Contents, MutexFib.Valid, MutexFib.Contents;
      rib := source;
      fib := target;
      dirty := {};
      generation := 0;
      marked := 0;
      coalesced := 0;
      flushes := 0;
      updatesProgrammed := 0;
      adds := 0;
      removes := 0;
      new;
      assert forall x: object :: x in fib.trie.Memory() ==> x != this;
      assert rib.Valid() && fib.Valid();
    }

    method MarkDirty(prefix: Bits)
      requires Valid() && |prefix| <= fib.trie.maxBits
      modifies `dirty, `marked, `coalesced
      ensures Valid() && View() == Marked(old(View()), prefix)
    {
      hide R.Rib.Valid, R.Rib.Contents, MutexFib.Valid, MutexFib.Contents;
      assert forall x: object :: x in fib.trie.Memory() ==> x != this;
      if prefix !in dirty {
        dirty := dirty + {prefix};
        marked := marked + 1;
      } else {
        coalesced := coalesced + 1;
      }
      assert rib.Valid() && fib.Valid();
    }

    /** The loop of flush: takes prefixes out of the dirty set, whichever come first, and resolves each once. */
    method Drain(take: nat) returns (batch: seq<Update<FibEntry>>, ghost order: seq<Bits>)
      requires rib.Valid() && take <= |dirty|
      modifies `dirty, `generation, `adds, `removes
      ensures |order| == take && DrawnFrom(order, old(dirty)) && dirty == Left(old(dirty), order)
      ensures |dirty| == |old(dirty)| - take
      ensures batch == Drained(rib.Contents(), order, old(generation))
      ensures generation == GenerationAfter(rib.Contents(), order, old(generation))
      ensures Resolved(rib.Contents(), order, old(generation), generation, batch)
      ensures adds == old(adds) + generation - old(generation)
      ensures removes + generation == old(removes) + take + old(generation)
    {
      hide R.Rib.Valid, R.Rib.Contents, DrawnFrom, Left, Resolved;
      NothingLeftOut(dirty);
      batch, order := [], [];
      var i := 0;
      while i < take
        invariant i <= take && |order| == i && DrawnFrom(order, old(dirty)) && dirty == Left(old(dirty), order)
        invariant |dirty| == |old(dirty)| - i
        invariant batch == Drained(rib.Contents(), order, old(generation))
        invariant generation == GenerationAfter(rib.Contents(), order, old(generation))
        invariant adds == old(adds) + generation - old(generation)
        invariant removes + generation == old(removes) + i + old(generation)
      {
        var prefix :| prefix in dirty;
        LeftStep(old(dirty), order, prefix);
        dirty := dirty - {prefix};
        var best := rib.Best(prefix);
        ghost var longer := order + [prefix];
        assert longer[..|longer| - 1] == order;
        if best.Some? {
          generation := generation + 1;
          batch := batch + [Add(prefix, FibEntry(best.value.hop, best.value.source, generation))];
          adds := adds + 1;
        } else {
          batch := batch + [Remove(prefix)];
          removes := removes + 1;
        }
        order := longer;
        i := i + 1;
      }
      DrainedIs(rib.Contents(), order, old(generation));
    }

    /** flush: up to `limit` dirty prefixes, or all of them when it is 0, in one batch. */
    method Flush(limit: nat) returns (count: nat, ghost order: seq<Bits>)
      requires Valid()
      modifies this, fib.trie, fib.trie.Memory()
      ensures Valid() && fresh(fib.trie.Memory() - old(fib.trie.Memory()))
      ensures DrawnFrom(order, old(dirty))
      ensures count == |order| == if limit == 0 || limit > |old(dirty)| then |old(dirty)| else limit
      ensures |dirty| == |old(dirty)| - count
      ensures var after := GenerationAfter(old(rib.Contents()), order, old(generation));
        old(generation) <= after <= old(generation) + |order|
      ensures View() == if old(dirty) == {} then old(View()) else Flushed(old(View()), order)
    {
      hide GenerationAfter, Flushed, DrawnFrom, R.Rib.Valid, R.Rib.Contents, MutexFib.Valid, MutexFib.Contents;
      if dirty == {} {
        GenerationGrows(rib.Contents(), [], generation);
        NothingLeftOut(dirty);
        return 0, [];
      }
      flushes := flushes + 1;
      count, order := FlushSome(if limit == 0 || limit > |dirty| then |dirty| else limit);
    }

    /** One batch of so many prefixes. */
    method FlushSome(take: nat) returns (count: nat, ghost order: seq<Bits>)
      requires Valid() && take <= |dirty| && flushes > 0
      modifies `dirty, `generation, `adds, `removes, `updatesProgrammed, fib.trie, fib.trie.Memory()
      ensures Valid() && fresh(fib.trie.Memory() - old(fib.trie.Memory()))
      ensures DrawnFrom(order, old(dirty)) && count == |order| == take && |dirty| == |old(dirty)| - take
      ensures var after := GenerationAfter(old(rib.Contents()), order, old(generation));
        old(generation) <= after <= old(generation) + |order|
      ensures var was := old(View());
        View() == Flushed(was.(stats := was.stats.(flushes := was.stats.flushes - 1)), order)
    {
      hide Batch, Drained, GenerationAfter, DrawnFrom, Left, Resolved, R.Rib.Valid, R.Rib.Contents, MutexFib.Valid;
      hide MutexFib.Contents;
      ghost var was := View();
      var batch;
      batch, order := Drain(take);
      GenerationGrows(was.rib, order, was.generation);
      DrainedKeys(was.rib, order, was.generation);
      LeftStays(was.dirty, order);
      DrawnKeys(was.dirty, order);
      var applied := fib.Apply(batch);
      assert rib.Valid() && rib.Contents() == was.rib;
      updatesProgrammed := updatesProgrammed + |batch|;
      count := |batch|;
    }

    /** flush_all: in batches until nothing is dirty. Every prefix that was dirty is written, and written once. */
    method FlushAll(batchSize: nat) returns (total: nat, ghost order: seq<Bits>)
      requires Valid()
      modifies this, fib.trie, fib.trie.Memory()
      ensures Valid() && fresh(fib.trie.Memory() - old(fib.trie.Memory())) && dirty == {}
      ensures Distinct(order) && (forall p :: p in order <==> p in old(dirty))
      ensures total == |order| == |old(dirty)|
      ensures rib.Contents() == old(rib.Contents())
      ensures fib.Contents() == Batch(old(fib.Contents()), Drained(old(rib.Contents()), order, old(generation)))
      ensures generation == GenerationAfter(old(rib.Contents()), order, old(generation))
      ensures updatesProgrammed == old(updatesProgrammed) + total
    {
      hide Batch, Drained, GenerationAfter, R.Rib.Valid, R.Rib.Contents, MutexFib.Valid, MutexFib.Contents;
      total, order := 0, [];
      ghost var was := View();
      NothingDrained(was.rib, was.fib, generation);
      while dirty != {}
        invariant Valid() && fresh(fib.trie.Memory() - old(fib.trie.Memory()))
        invariant Distinct(order) && total == |order| && total + |dirty| == |old(dirty)|
        invariant forall p :: p in old(dirty) <==> p in dirty || p in order
        invariant forall p :: p in order ==> p !in dirty
        invariant rib.Contents() == was.rib && fib.Contents() == Batch(was.fib, Drained(was.rib, order, was.generation))
        invariant generation == GenerationAfter(was.rib, order, was.generation)
        invariant updatesProgrammed == old(updatesProgrammed) + total
        decreases |dirty|
      {
        ghost var before := View();
        ghost var part;
        var count;
        count, part := Flush(batchSize);
        DrainedTwice(was.rib, was.fib, order, part, was.generation);
        DistinctParts(order, part);
        order := order + part;
        total := total + count;
      }
    }
  }

  lemma NothingLeftOut(dirty: set<Bits>)
    ensures DrawnFrom([], dirty) && Left(dirty, []) == dirty
  {
  }

  lemma DistinctParts(a: seq<Bits>, b: seq<Bits>)
    requires Distinct(a) && Distinct(b) && forall p :: p in a ==> p !in b
    ensures Distinct(a + b)
  {
    forall i, j | 0 <= i < j < |a + b| ensures (a + b)[i] != (a + b)[j] {
      assert i < |a| ==> (a + b)[i] in a;
      assert j >= |a| ==> (a + b)[j] in b;
    }
  }

  lemma {:induction false} DrainedKeys(rib: map<Bits, seq<Route>>, order: seq<Bits>, generation: nat)
    ensures forall u :: u in Drained(rib, order, generation) ==> u.key in order
  {
    if order == [] {
    } else {
      DrainedKeys(rib, order[..|order| - 1], generation);
    }
  }

  lemma NothingDrained(rib: map<Bits, seq<Route>>, fib: map<Bits, FibEntry>, generation: nat)
    ensures Batch(fib, Drained(rib, [], generation)) == fib && GenerationAfter(rib, [], generation) == generation
  {
  }

  lemma {:induction false} DrainConcat(rib: map<Bits, seq<Route>>, a: seq<Bits>, b: seq<Bits>, generation: nat)
    ensures GenerationAfter(rib, a + b, generation) == GenerationAfter(rib, b, GenerationAfter(rib, a, generation))
    ensures Drained(rib, a + b, generation) ==
      Drained(rib, a, generation) + Drained(rib, b, GenerationAfter(rib, a, generation))
  {
    if b == [] {
      assert a + b == a;
    } else {
      var n := |b| - 1;
      DrainConcat(rib, a, b[..n], generation);
      assert (a + b)[..|a + b| - 1] == a + b[..n];
    }
  }

  /** Two flushes in a row are one flush of both. */
  lemma DrainedTwice(rib: map<Bits, seq<Route>>, fib: map<Bits, FibEntry>, a: seq<Bits>, b: seq<Bits>, generation: nat)
    ensures GenerationAfter(rib, a + b, generation) == GenerationAfter(rib, b, GenerationAfter(rib, a, generation))
    ensures Batch(fib, Drained(rib, a + b, generation)) ==
      Batch(Batch(fib, Drained(rib, a, generation)), Drained(rib, b, GenerationAfter(rib, a, generation)))
  {
    DrainConcat(rib, a, b, generation);
    BatchConcat(fib, Drained(rib, a, generation), Drained(rib, b, GenerationAfter(rib, a, generation)));
  }

  // ---- histories ----

  /** Protocols offer and withdraw routes; somebody marks prefixes, whether or not anything changed and when it
      suits; now and then there is a flush of some dirty prefixes, in whatever order they are drained. */
  datatype Event =
    | Offer(route: Route)
    | Withdraw(prefix: Bits, source: Protocol)
    | Mark(marked: Bits)
    | Flush(order: seq<Bits>)

  ghost predicate Allowed(c: Plane, event: Event) {
    event.Flush? ==> DrawnFrom(event.order, c.dirty)
  }

  predicate Learns(event: Event) {
    event.Offer? || event.Withdraw?
  }

  function Touched(event: Event): Bits
    requires Learns(event)
  {
    if event.Offer? then event.route.prefix else event.prefix
  }

  function Heard(rib: map<Bits, seq<Route>>, event: Event): map<Bits, seq<Route>> {
    match event
    case Offer(route) => R.Added(rib, route)
    case Withdraw(prefix, source) => R.Removed(rib, prefix, source)
    case Mark(_) => rib
    case Flush(_) => rib
  }

  /** What add or remove returned. */
  predicate ChangesWinner(rib: map<Bits, seq<Route>>, event: Event) {
    Learns(event) &&
    R.Forwarding(R.WinnerAt(Heard(rib, event), Touched(event))) != R.Forwarding(R.WinnerAt(rib, Touched(event)))
  }

  function Next(c: Plane, event: Event): Plane {
    match event
    case Offer(_) => c.(rib := Heard(c.rib, event))
    case Withdraw(_, _) => c.(rib := Heard(c.rib, event))
    case Mark(prefix) => Marked(c, prefix)
    case Flush(order) =>
      GenerationGrows(c.rib, order, c.generation);
      if c.dirty == {} then c else Flushed(c, order)
  }

  const EMPTY := Plane(map[], map[], {}, 0, NO_STATS)

  /** The state after a history. */
  function After(events: seq<Event>): Plane {
    if events == [] then EMPTY else Next(After(events[..|events| - 1]), events[|events| - 1])
  }

  ghost predicate History(events: seq<Event>) {
    forall i :: 0 <= i < |events| ==> Allowed(After(events[..i]), events[i])
  }

  lemma ShorterHistory(events: seq<Event>)
    requires History(events) && events != []
    ensures History(events[..|events| - 1]) && Allowed(After(events[..|events| - 1]), events[|events| - 1])
  {
    var before := events[..|events| - 1];
    forall i | 0 <= i < |before| ensures Allowed(After(before[..i]), before[i]) {
      assert before[..i] == events[..i];
    }
  }

  // ---- convergence ----

  /** The prefixes that are owed a mark: add or remove returned true when they were not dirty, and they have not been
      marked since. */
  function Owed(events: seq<Event>): set<Bits> {
    if events == [] then {}
    else
      var before, event := events[..|events| - 1], events[|events| - 1];
      if event.Mark? then Owed(before) - {event.marked}
      else if ChangesWinner(After(before).rib, event) && Touched(event) !in After(before).dirty then
        Owed(before) + {Touched(event)}
      else Owed(before)
  }

  function Programmed(entry: Option<FibEntry>): Option<(Protocol, NextHop)> {
    if entry.Some? then Some((entry.value.source, entry.value.hop)) else None
  }

  ghost predicate Agrees(c: Plane, prefix: Bits) {
    Programmed(Get(c.fib, prefix)) == R.Forwarding(R.WinnerAt(c.rib, prefix))
  }

  /** Every prefix that is neither dirty nor owed a mark is programmed with its winner, or with nothing if it
      has none. */
  ghost predicate InSync(c: Plane, owed: set<Bits>) {
    forall p :: p !in c.dirty && p !in owed ==> Agrees(c, p)
  }

  ghost predicate PlaneOk(c: Plane, owed: set<Bits>) {
    R.TableOk(c.rib) && InSync(c, owed)
  }

  /** A flush leaves for each drained prefix what its one update says, and all else as it was. */
  lemma FlushStores(
      rib: map<Bits, seq<Route>>, fib: map<Bits, FibEntry>, order: seq<Bits>, generation: nat, p: Bits, i: nat)
    requires Distinct(order) && (i < |order| ==> order[i] == p) && (p in order ==> i < |order|)
    ensures var batch := Drained(rib, order, generation);
      Get(Batch(fib, batch), p) ==
        if i < |order| then if batch[i].Add? then Some(batch[i].value) else None else Get(fib, p)
  {
    hide R.WinnerAt, Drained;
    var batch := Drained(rib, order, generation);
    DrainedIs(rib, order, generation);
    BatchDecides(fib, batch, p);
    if i < |order| {
      OnlyOne(batch, i);
    } else {
      DrainedKeys(rib, order, generation);
      NoneFor(batch, p);
    }
  }

  /** A flush writes the winners of what it drains and leaves all else. */
  lemma FlushWrites(rib: map<Bits, seq<Route>>, fib: map<Bits, FibEntry>, order: seq<Bits>, generation: nat, p: Bits)
    requires Distinct(order)
    ensures var fib' := Batch(fib, Drained(rib, order, generation));
      if p in order then Programmed(Get(fib', p)) == R.Forwarding(R.WinnerAt(rib, p)) else Get(fib', p) == Get(fib, p)
  {
    hide R.WinnerAt, Drained, Batch;
    var i: nat := if p in order then PlaceIn(order, p) else |order|;
    FlushStores(rib, fib, order, generation, p, i);
    DrainedIs(rib, order, generation);
  }

  function PlaceIn(order: seq<Bits>, p: Bits): (i: nat)
    requires p in order
    ensures i < |order| && order[i] == p
  {
    if order[0] == p then 0 else 1 + PlaceIn(order[1..], p)
  }

  lemma HearKeepsOk(rib: map<Bits, seq<Route>>, event: Event)
    requires R.TableOk(rib) && Learns(event)
    ensures R.TableOk(Heard(rib, event))
    ensures forall p :: p != Touched(event) ==> R.WinnerAt(Heard(rib, event), p) == R.WinnerAt(rib, p)
  {
    var route := if event.Offer? then event.route else Route(event.prefix, NextHop(0, 0, 0, 0), event.source, 0);
    R.TableSteps(rib, route, Touched(event), if event.Withdraw? then event.source else route.source);
  }

  lemma FlushKeepsOk(c: Plane, owed: set<Bits>, order: seq<Bits>)
    requires PlaneOk(c, owed) && DrawnFrom(order, c.dirty)
    ensures PlaneOk(Next(c, Flush(order)), owed)
  {
    hide R.TableOk, R.WinnerAt, R.Forwarding, Batch, Drained, GenerationAfter;
    var c' := Next(c, Flush(order));
    forall p | p !in c'.dirty && p !in owed ensures Agrees(c', p) {
      if c.dirty != {} {
        FlushWrites(c.rib, c.fib, order, c.generation, p);
      }
      assert p !in order ==> p !in c.dirty && Agrees(c, p);
    }
  }

  lemma LearningKeepsOk(c: Plane, owed: set<Bits>, event: Event)
    requires PlaneOk(c, owed) && Learns(event)
    ensures PlaneOk(
      Next(c, event),
      if ChangesWinner(c.rib, event) && Touched(event) !in c.dirty then owed + {Touched(event)} else owed)
  {
    hide R.TableOk, Heard, R.WinnerAt, R.Forwarding;
    HearKeepsOk(c.rib, event);
    forall p | p !in c.dirty && p !in owed && (p != Touched(event) || !ChangesWinner(c.rib, event))
      ensures Agrees(Next(c, event), p)
    {
      assert Agrees(c, p);
    }
  }

  lemma MarkingKeepsOk(c: Plane, owed: set<Bits>, prefix: Bits)
    requires PlaneOk(c, owed)
    ensures PlaneOk(Next(c, Mark(prefix)), owed - {prefix})
  {
    hide R.TableOk, R.WinnerAt, R.Forwarding;
    forall p | p !in c.dirty && p != prefix && p !in owed ensures Agrees(Marked(c, prefix), p) {
      assert Agrees(c, p);
    }
  }

  /** Convergence: in every reachable state a prefix that is not dirty and not owed a mark is programmed with the RIB's
      winner. */
  lemma {:induction false} AlwaysInSync(events: seq<Event>)
    requires History(events)
    ensures PlaneOk(After(events), Owed(events))
  {
    if events == [] {
    } else {
      hide Next, PlaneOk, ChangesWinner;
      var before, event := events[..|events| - 1], events[|events| - 1];
      ShorterHistory(events);
      AlwaysInSync(before);
      match event {
        case Mark(prefix) => MarkingKeepsOk(After(before), Owed(before), prefix);
        case Flush(order) =>
          FlushKeepsOk(After(before), Owed(before), order);
          HeardNothing(After(before).rib, event);
        case _ => LearningKeepsOk(After(before), Owed(before), event);
      }
    }
  }

  // ---- what forwarding looks like when no mark is owed and nothing is dirty ----

  ghost predicate Settled(events: seq<Event>) {
    History(events) && After(events).dirty == {} && Owed(events) == {}
  }

  /** The winners of the RIB. */
  function Winners(rib: map<Bits, seq<Route>>): map<Bits, Route> {
    map p | p in rib && R.WinnerAt(rib, p).Some? :: R.WinnerAt(rib, p).value
  }

  /** The entry forwards by this route. */
  ghost predicate ForwardsBy(entry: Option<FibEntry>, best: Option<Route>) {
    match (entry, best)
    case (Some(e), Some(route)) => e.hop == route.hop && e.source == route.source
    case (None, None) => true
    case _ => false
  }

  lemma {:induction false} MatchAgrees(fib: map<Bits, FibEntry>, winners: map<Bits, Route>, address: Bits, n: nat)
    requires n <= |address| && forall p :: ForwardsBy(Get(fib, p), Get(winners, p))
    ensures ForwardsBy(LongestMatch(fib, address, n), LongestMatch(winners, address, n))
  {
    var p := address[..n];
    assert ForwardsBy(Get(fib, p), Get(winners, p));
    if p !in fib && n > 0 {
      MatchAgrees(fib, winners, address, n - 1);
    }
  }

  /** Then a FIB lookup gives hop and protocol of the longest match over the RIB's winners. */
  lemma LookupIsBestPath(events: seq<Event>, address: Bits)
    requires Settled(events)
    ensures ForwardsBy(Lpm(After(events).fib, address), Lpm(Winners(After(events).rib), address))
  {
    AlwaysInSync(events);
    var c := After(events);
    forall p ensures ForwardsBy(Get(c.fib, p), Get(Winners(c.rib), p)) {
      assert Agrees(c, p);
    }
    MatchAgrees(c.fib, Winners(c.rib), address, |address|);
  }

  // ---- coalescing refines eager programming ----

  /** Programming every change at once: marks and flushes do nothing. */
  function Eager(events: seq<Event>): (r: (map<Bits, seq<Route>>, map<Bits, FibEntry>, nat)) {
    if events == [] then (map[], map[], 0)
    else
      var event := events[|events| - 1];
      var (rib, fib, generation) := Eager(events[..|events| - 1]);
      var rib' := Heard(rib, event);
      if !ChangesWinner(rib, event) then (rib', fib, generation)
      else
        var update := Resolve(rib', Touched(event), generation);
        (rib', Step(fib, update), if update.Add? then generation + 1 else generation)
  }

  lemma {:induction false} SameRib(events: seq<Event>)
    ensures Eager(events).0 == After(events).rib
  {
    hide Heard, ChangesWinner;
    if events == [] {
    } else {
      SameRib(events[..|events| - 1]);
      if !Learns(events[|events| - 1]) {
        HeardNothing(After(events[..|events| - 1]).rib, events[|events| - 1]);
      }
    }
  }

  lemma EagerStep(rib: map<Bits, seq<Route>>, fib: map<Bits, FibEntry>, generation: nat, event: Event, p: Bits)
    requires R.TableOk(rib) && Learns(event)
    requires Programmed(Get(fib, p)) == R.Forwarding(R.WinnerAt(rib, p))
    ensures var rib' := Heard(rib, event);
      var fib' := if ChangesWinner(rib, event) then Step(fib, Resolve(rib', Touched(event), generation)) else fib;
      Programmed(Get(fib', p)) == R.Forwarding(R.WinnerAt(rib', p))
  {
    hide Heard, R.WinnerAt, R.TableOk;
    HearKeepsOk(rib, event);
  }

  lemma {:induction false} EagerAgrees(events: seq<Event>, p: Bits)
    requires History(events)
    ensures Programmed(Get(Eager(events).1, p)) == R.Forwarding(R.WinnerAt(Eager(events).0, p))
  {
    if events == [] {
      assert Eager(events) == (map[], map[], 0);
    } else {
      hide Heard, ChangesWinner, R.WinnerAt, PlaneOk, R.Forwarding, Programmed, Resolve;
      var before, event := events[..|events| - 1], events[|events| - 1];
      ShorterHistory(events);
      EagerAgrees(before, p);
      SameRib(before);
      AlwaysInSync(before);
      OkTable(After(before), Owed(before));
      var (rib, fib, generation) := Eager(before);
      if !Learns(event) {
        HeardNothing(rib, event);
        assert Eager(events) == (rib, fib, generation);
      } else {
        EagerStep(Eager(before).0, Eager(before).1, Eager(before).2, event, p);
      }
    }
  }

  lemma HeardNothing(rib: map<Bits, seq<Route>>, event: Event)
    requires !Learns(event)
    ensures Heard(rib, event) == rib && !ChangesWinner(rib, event)
  {
  }

  lemma OkTable(c: Plane, owed: set<Bits>)
    requires PlaneOk(c, owed)
    ensures R.TableOk(c.rib)
  {
  }

  /** For any update history, any marks, any batch limits and any drain order: once no mark is owed and nothing is
      dirty, the FIB is the one that programming every change at once would have left, but for the
      generation counters. */
  lemma CoalescingRefinesEager(events: seq<Event>, p: Bits)
    requires Settled(events)
    ensures Programmed(Get(After(events).fib, p)) == Programmed(Get(Eager(events).1, p))
  {
    AlwaysInSync(events);
    assert Agrees(After(events), p);
    SameRib(events);
    EagerAgrees(events, p);
  }

  // ---- generations ----

  /** Every entry carries the generation of one flush, and no two the same. */
  ghost predicate Stamped(fib: map<Bits, FibEntry>, generation: nat) {
    && (forall p :: p in fib ==> 0 < fib[p].generation <= generation)
    && (forall p, q :: p in fib && q in fib && p != q ==> fib[p].generation != fib[q].generation)
  }

  /** What a flush writes is later than all that was written before, and in the order in which it was drained. */
  lemma FlushStamps(rib: map<Bits, seq<Route>>, fib: map<Bits, FibEntry>, order: seq<Bits>, generation: nat)
    requires Distinct(order)
    ensures var fib', to := Batch(fib, Drained(rib, order, generation)), GenerationAfter(rib, order, generation);
      && (forall p :: p in order && R.WinnerAt(rib, p).Some? ==> p in fib' && generation < fib'[p].generation <= to)
      && (forall i, j :: 0 <= i < j < |order| && order[i] in fib' && order[j] in fib' ==>
            fib'[order[i]].generation < fib'[order[j]].generation)
  {
    hide R.WinnerAt, Drained, Batch, GenerationAfter;
    DrainedIs(rib, order, generation);
    forall i: nat | i < |order| ensures Get(Batch(fib, Drained(rib, order, generation)), order[i]) ==
      if Drained(rib, order, generation)[i].Add? then Some(Drained(rib, order, generation)[i].value) else None
    {
      FlushStores(rib, fib, order, generation, order[i], i);
    }
  }

  lemma FlushKeepsStamped(rib: map<Bits, seq<Route>>, fib: map<Bits, FibEntry>, order: seq<Bits>, generation: nat)
    requires Distinct(order) && Stamped(fib, generation)
    ensures Stamped(Batch(fib, Drained(rib, order, generation)), GenerationAfter(rib, order, generation))
  {
    hide R.WinnerAt, Drained, Batch, GenerationAfter, R.Forwarding;
    GenerationGrows(rib, order, generation);
    FlushStamps(rib, fib, order, generation);
    var fib' := Batch(fib, Drained(rib, order, generation));
    forall p ensures p in fib' && p in order ==> R.WinnerAt(rib, p).Some?
      ensures p !in order ==> Get(fib', p) == Get(fib, p)
    {
      FlushWrites(rib, fib, order, generation, p);
      NoForwarding(R.WinnerAt(rib, p));
    }
    forall p, q | p in fib' && q in fib' && p != q ensures fib'[p].generation != fib'[q].generation {
      if p in order && q in order {
        var i, j := PlaceIn(order, p), PlaceIn(order, q);
      }
    }
  }

  lemma NoForwarding(best: Option<Route>)
    ensures R.Forwarding(best).Some? <==> best.Some?
  {
  }

  /** In every history the generation tells the entries of a FIB apart, and none is later than the counter. */
  lemma {:induction false} AlwaysStamped(events: seq<Event>)
    requires History(events)
    ensures Stamped(After(events).fib, After(events).generation)
  {
    hide Batch, Drained, GenerationAfter, Heard, Stamped;
    if events == [] {
      NothingStamped();
    } else {
      var before, event := events[..|events| - 1], events[|events| - 1];
      ShorterHistory(events);
      AlwaysStamped(before);
      if event.Flush? {
        FlushKeepsStamped(After(before).rib, After(before).fib, event.order, After(before).generation);
      }
    }
  }

  lemma NothingStamped()
    ensures Stamped(map[], 0)
  {
  }

  lemma WritesNew(rib: map<Bits, seq<Route>>, fib: map<Bits, FibEntry>, order: seq<Bits>, generation: nat, p: Bits)
    requires Distinct(order) && Stamped(fib, generation)
    requires p in order && p in Batch(fib, Drained(rib, order, generation))
    ensures var entry := Batch(fib, Drained(rib, order, generation))[p];
      && generation < entry.generation <= GenerationAfter(rib, order, generation)
      && forall q :: q in fib ==> fib[q].generation < entry.generation
  {
    hide Batch, Drained, GenerationAfter, R.WinnerAt, R.Forwarding;
    FlushStamps(rib, fib, order, generation);
    FlushWrites(rib, fib, order, generation, p);
    NoForwarding(R.WinnerAt(rib, p));
  }

  /** So what a flush writes can be told from all that was there before it. */
  lemma FlushIsNew(events: seq<Event>, p: Bits)
    requires History(events) && events != [] && events[|events| - 1].Flush?
    requires p in events[|events| - 1].order && p in After(events).fib
    ensures var before, after := After(events[..|events| - 1]), After(events);
      && before.generation < after.fib[p].generation <= after.generation
      && forall q :: q in before.fib ==> before.fib[q].generation < after.fib[p].generation
  {
    hide Batch, Drained, GenerationAfter, Heard, Stamped;
    var before, order := After(events[..|events| - 1]), events[|events| - 1].order;
    ShorterHistory(events);
    AlwaysStamped(events[..|events| - 1]);
    WritesNew(before.rib, before.fib, order, before.generation, p);
  }

  // ---- accounts ----

  ghost predicate Accounted(c: Plane) {
    && c.stats.marked == c.stats.programmed + |c.dirty|
    && c.generation == c.stats.adds
    && c.stats.adds + c.stats.removes == c.stats.programmed
  }

  lemma {:induction false} DrainedCount(dirty: set<Bits>, order: seq<Bits>)
    requires DrawnFrom(order, dirty)
    ensures |Left(dirty, order)| + |order| == |dirty|
  {
    if order == [] {
      NothingLeftOut(dirty);
    } else {
      var n := |order| - 1;
      DrainedCount(dirty, order[..n]);
      assert order == order[..n] + [order[n]];
      LeftStep(dirty, order[..n], order[n]);
    }
  }

  lemma NextAccounts(c: Plane, event: Event)
    requires Accounted(c) && Allowed(c, event)
    ensures Accounted(Next(c, event))
  {
    hide Batch, Drained, GenerationAfter, Heard;
    if event.Flush? {
      GenerationGrows(c.rib, event.order, c.generation);
      DrainedCount(c.dirty, event.order);
    }
  }

  /** How often somebody marked a prefix. */
  function Marks(events: seq<Event>): nat {
    if events == [] then 0
    else Marks(events[..|events| - 1]) + if events[|events| - 1].Mark? then 1 else 0
  }

  /** How often a flush found something dirty. */
  function Flushes(events: seq<Event>): nat {
    if events == [] then 0
    else
      var before := events[..|events| - 1];
      Flushes(before) + if events[|events| - 1].Flush? && After(before).dirty != {} then 1 else 0
  }

  /** Every mark is programmed, pending or coalesced, and the generation counts the routes programmed. */
  lemma {:induction false} AlwaysAccounted(events: seq<Event>)
    requires History(events)
    ensures Accounted(After(events))
    ensures After(events).stats.marked + After(events).stats.coalesced == Marks(events)
    ensures After(events).stats.flushes == Flushes(events)
  {
    hide Batch, Drained, GenerationAfter, Heard, Accounted;
    if events == [] {
      NothingAccounted();
    } else {
      ShorterHistory(events);
      AlwaysAccounted(events[..|events| - 1]);
      NextAccounts(After(events[..|events| - 1]), events[|events| - 1]);
    }
  }

  lemma NothingAccounted()
    ensures Accounted(EMPTY)
  {
  }
}
