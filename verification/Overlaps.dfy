/**
 Which changes beside a lookup can make it answer for no table that it lived through.

 A lookup reads the default route and goes on towards the longest route for its address. Before it gets there, that
 route is erased; but not as the only change. Either a route in between was inserted first, which the lookup has
 passed; or the default was replaced, or erased, which it has read. Its answer is the old default, which no table gives.
 So an erasure with any other change can do harm. A single change cannot, nor any number without an erasure.
 */
module Overlaps {
  import opened Wrappers
  import opened Bits
  import opened TrieStore
  import opened TrieSteps
  import opened ConcurrentTrie

  const MAX_BITS: nat := 2
  const DEFAULT: Bits := []
  const ONE: Bits := [true]
  const ONE_ONE: Bits := [true, true]

  type Memory = Trie<nat, nat>

  const EMPTY: Memory := Trie(None, map[], map[])
  const FIRST: Memory := Trie(Some(0), map[DEFAULT := 0], map[0 := Node.Node(DEFAULT, Some(0), None, None)])

  /** Node 0 holds the default route and node 1 the longest one. */
  function Two(default: Option<nat>, longest: Option<nat>): Memory {
    Trie(
      Some(0), map[DEFAULT := 0, ONE_ONE := 1],
      map[0 := Node.Node(DEFAULT, default, None, Some(1)), 1 := Node.Node(ONE_ONE, longest, None, None)])
  }

  /** Node 2 has come in between. */
  function Three(longest: Option<nat>): Memory {
    Trie(
      Some(0), map[DEFAULT := 0, ONE_ONE := 1, ONE := 2],
      map[0 := Node.Node(DEFAULT, Some(0), None, Some(2)), 1 := Node.Node(ONE_ONE, longest, None, None),
          2 := Node.Node(ONE, Some(4), None, Some(1))])
  }

  /** Node 0 has been dropped. */
  function Last(longest: Option<nat>): Memory {
    Trie(
      Some(1), map[ONE_ONE := 1],
      map[0 := Node.Node(DEFAULT, None, None, Some(1)), 1 := Node.Node(ONE_ONE, longest, None, None)])
  }

  // ---- the stores beside the lookup ----

  /** What is done before the longest route is erased. */
  datatype Variant = AfterInsert | AfterReplace | AfterErase

  const BELOW_ROOT: Slot<nat> := ChildSlot(0, true)
  const BELOW_ONE: Slot<nat> := ChildSlot(2, true)

  function Stores(v: Variant): seq<Action<nat, nat>> {
    match v
    case AfterInsert => [Insert(ONE, 4, Above(BELOW_ROOT, 1, 2)), Erase(BELOW_ONE, 1, BELOW_ROOT)]
    case AfterReplace => [Insert(DEFAULT, 5, Replace(0)), Erase(BELOW_ROOT, 1, RootSlot)]
    case AfterErase => [Erase(RootSlot, 0, RootSlot), Prune, Erase(RootSlot, 1, RootSlot)]
  }

  /** The trie, the writer and the dropped nodes before the stores and after each of them. */
  function Stages(v: Variant): (stages: seq<(Memory, Writer<nat>, set<nat>)>)
    ensures |stages| == |Stores(v)| + 1
  {
    match v
    case AfterInsert => [
      (Two(Some(0), Some(2)), Idle, {}), (Three(Some(2)), Idle, {}),
      (Three(None), Pruning(BELOW_ONE, 1, BELOW_ROOT), {})]
    case AfterReplace => [
      (Two(Some(0), Some(2)), Idle, {}), (Two(Some(5), Some(2)), Idle, {}),
      (Two(Some(5), None), Pruning(BELOW_ROOT, 1, RootSlot), {})]
    case AfterErase => [
      (Two(Some(0), Some(2)), Idle, {}), (Two(None, Some(2)), Pruning(RootSlot, 0, RootSlot), {}),
      (Last(Some(2)), Idle, {0}), (Last(None), Pruning(RootSlot, 1, RootSlot), {0})]
  }

  function Tables(v: Variant): (tables: seq<map<Bits, nat>>)
    ensures |tables| == |Stores(v)| + 1
  {
    match v
    case AfterInsert => [
      map[DEFAULT := 0, ONE_ONE := 2], map[DEFAULT := 0, ONE := 4, ONE_ONE := 2], map[DEFAULT := 0, ONE := 4]]
    case AfterReplace => [map[DEFAULT := 0, ONE_ONE := 2], map[DEFAULT := 5, ONE_ONE := 2], map[DEFAULT := 5]]
    case AfterErase => [map[DEFAULT := 0, ONE_ONE := 2], map[ONE_ONE := 2], map[ONE_ONE := 2], map[]]
  }

  lemma TableOfTwo(default: Option<nat>, longest: Option<nat>)
    ensures Table(Two(default, longest)) ==
      (if default.Some? then map[DEFAULT := default.value] else map[])
      + if longest.Some? then map[ONE_ONE := longest.value] else map[]
  {
  }

  lemma TableOfThree(longest: Option<nat>)
    ensures Table(Three(longest)) ==
      map[DEFAULT := 0, ONE := 4] + if longest.Some? then map[ONE_ONE := longest.value] else map[]
  {
  }

  lemma TableOfLast(longest: Option<nat>)
    ensures Table(Last(longest)) == if longest.Some? then map[ONE_ONE := longest.value] else map[]
  {
  }

  lemma TableOfStage(v: Variant, i: nat)
    requires i <= |Stores(v)|
    ensures Table(Stages(v)[i].0) == Tables(v)[i]
  {
    hide Table, Two, Three, Last;
    TableOfTwo(Some(0), Some(2));
    TableOfTwo(Some(5), Some(2));
    TableOfTwo(Some(5), None);
    TableOfTwo(None, Some(2));
    TableOfThree(Some(2));
    TableOfThree(None);
    TableOfLast(Some(2));
    TableOfLast(None);
  }

  // ---- the run ----

  function Reader(pc: Pc<nat>, visited: nat, tables: seq<map<Bits, nat>>, gone: set<nat>): Walker<nat, nat> {
    Walker(ONE_ONE, pc, if visited == 0 then None else Some((DEFAULT, 0)), 0, visited, tables, gone)
  }

  const RESTING: Walker<nat, nat> := Walker([], Outside, None, 0, 0, [], {})

  const START: Memory := Two(Some(0), Some(2))

  const OPENING: seq<Action<nat, nat>> := [
    Insert(DEFAULT, 0, Leaf(RootSlot, 0)), Insert(ONE_ONE, 2, Leaf(BELOW_ROOT, 1)),
    Begin(0, ONE_ONE), Visit(0), Follow(0)]

  ghost function Opening(v: Variant): seq<State<nat, nat>> {
    var tables := Tables(v)[..1];
    [State(EMPTY, Idle, [RESTING]), State(FIRST, Idle, [RESTING]), State(START, Idle, [RESTING]),
     State(START, Idle, [Reader(Reading(Some(0)), 0, tables, {})]),
     State(START, Idle, [Reader(Passing(0), 1, tables, {})])]
  }

  /** After i of the stores, with the lookup on its way from node 0 to node 1. */
  ghost function During(v: Variant, i: nat): State<nat, nat>
    requires i <= |Stores(v)|
  {
    var (t, writer, gone) := Stages(v)[i];
    State(t, writer, [Reader(Reading(Some(1)), 1, Tables(v)[..i + 1], gone)])
  }

  ghost function Ended(v: Variant): State<nat, nat> {
    var (t, writer, gone) := Stages(v)[|Stores(v)|];
    State(t, writer, [Reader(Finished, 2, Tables(v), gone)])
  }

  ghost function Run(v: Variant): seq<State<nat, nat>> {
    Opening(v) + seq(|Stores(v)| + 1, i requires 0 <= i <= |Stores(v)| => During(v, i)) + [Ended(v)]
  }

  function Moves(v: Variant): seq<Action<nat, nat>> {
    OPENING + Stores(v) + [Visit(0)]
  }

  ghost predicate Steps(s: State<nat, nat>, a: Action<nat, nat>, s': State<nat, nat>) {
    Enabled(s, a, MAX_BITS) && Apply(s, a, MAX_BITS) == s'
  }

  lemma RestingStays(t: Memory, w: Writer<nat>, t': Memory, w': Writer<nat>)
    ensures ConcurrentTrie.Stored(State(t, w, [RESTING]), t', w', None) == State(t', w', [RESTING])
  {
  }

  lemma FirstInsert()
    ensures Fits(EMPTY, DEFAULT, Leaf(RootSlot, 0)) && Inserted(EMPTY, DEFAULT, 0, Leaf(RootSlot, 0)) == FIRST
  {
  }

  lemma SecondInsert()
    ensures Fits(FIRST, ONE_ONE, Leaf(BELOW_ROOT, 1)) && Inserted(FIRST, ONE_ONE, 2, Leaf(BELOW_ROOT, 1)) == START
  {
    var t := Inserted(FIRST, ONE_ONE, 2, Leaf(BELOW_ROOT, 1));
    assert t.mem.Keys == START.mem.Keys && t.mem[0] == START.mem[0] && t.mem[1] == START.mem[1];
    assert t.mem == START.mem;
  }

  lemma Opens(v: Variant, i: nat)
    requires i < 2
    ensures Steps(Opening(v)[i], OPENING[i], Opening(v)[i + 1])
  {
    hide Fits, Inserted, EMPTY, FIRST, START;
    FirstInsert();
    SecondInsert();
    RestingStays(EMPTY, Idle, FIRST, Idle);
    RestingStays(FIRST, Idle, START, Idle);
  }

  lemma Begins(v: Variant)
    ensures Steps(Opening(v)[2], OPENING[2], Opening(v)[3])
  {
    hide Table;
    TableOfStage(v, 0);
    assert Tables(v)[..1] == [Table(START)];
  }

  lemma ReadsDefault(v: Variant)
    ensures Steps(Opening(v)[3], OPENING[3], Opening(v)[4])
  {
    hide Table;
  }

  lemma PassesDefault(v: Variant)
    ensures Steps(Opening(v)[4], OPENING[4], During(v, 0))
  {
    hide Table;
  }

  lemma Arrives(v: Variant)
    ensures Steps(During(v, |Stores(v)|), Visit(0), Ended(v))
  {
    hide Table;
    assert Tables(v)[..|Stores(v)| + 1] == Tables(v);
  }

  lemma Observes(v: Variant, i: nat, dropped: Option<nat>)
    requires i < |Stores(v)| && Stages(v)[i + 1].2 == Stages(v)[i].2 + if dropped.Some? then {dropped.value} else {}
    ensures ConcurrentTrie.Stored(During(v, i), Stages(v)[i + 1].0, Stages(v)[i + 1].1, dropped) == During(v, i + 1)
  {
    hide Table, Two, Three, Last;
    TableOfStage(v, i + 1);
    assert Tables(v)[..i + 2] == Tables(v)[..i + 1] + [Tables(v)[i + 1]];
  }

  lemma BetweenInserted()
    ensures Fits(START, ONE, Above(BELOW_ROOT, 1, 2))
    ensures Inserted(START, ONE, 4, Above(BELOW_ROOT, 1, 2)) == Three(Some(2))
  {
    var t := Inserted(START, ONE, 4, Above(BELOW_ROOT, 1, 2));
    assert t.mem.Keys == Three(Some(2)).mem.Keys;
    assert t.mem[0] == Three(Some(2)).mem[0] && t.mem[1] == Three(Some(2)).mem[1] && t.mem[2] == Three(Some(2)).mem[2];
    assert t.mem == Three(Some(2)).mem;
  }

  lemma LongestErased()
    ensures Three(Some(2)).StoreValue(1, None) == Three(None)
  {
  }

  lemma BetweenStep()
    ensures Steps(During(AfterInsert, 0), Insert(ONE, 4, Above(BELOW_ROOT, 1, 2)), During(AfterInsert, 1))
  {
    hide Table, Fits, Inserted, ConcurrentTrie.Stored;
    Observes(AfterInsert, 0, None);
    BetweenInserted();
  }

  lemma LongestStep()
    ensures Steps(During(AfterInsert, 1), Erase(BELOW_ONE, 1, BELOW_ROOT), During(AfterInsert, 2))
  {
    hide Table, Inserted, ConcurrentTrie.Stored, Trie.StoreValue;
    Observes(AfterInsert, 1, None);
    LongestErased();
  }

  lemma DefaultReplaced()
    ensures Fits(START, DEFAULT, Replace(0)) && Inserted(START, DEFAULT, 5, Replace(0)) == Two(Some(5), Some(2))
  {
  }

  lemma StoresAfterReplace(i: nat)
    requires i < 2
    ensures Steps(During(AfterReplace, i), Stores(AfterReplace)[i], During(AfterReplace, i + 1))
  {
    hide Table, Fits, Inserted;
    Observes(AfterReplace, i, None);
    if i == 0 {
      DefaultReplaced();
    } else {
      assert Two(Some(5), Some(2)).StoreValue(1, None) == Two(Some(5), None);
    }
  }

  lemma DefaultDropped()
    ensures Pruned(Two(None, Some(2)), Pruning(RootSlot, 0, RootSlot)) == (Last(Some(2)), Idle, Some(0))
  {
    var t := Two(None, Some(2));
    assert t.index - {DEFAULT} == map[ONE_ONE := 1];
  }

  lemma StoresAfterErase(i: nat)
    requires i < 3
    ensures Steps(During(AfterErase, i), Stores(AfterErase)[i], During(AfterErase, i + 1))
  {
    hide Table, Pruned;
    Observes(AfterErase, i, if i == 1 then Some(0) else None);
    if i == 0 {
      assert START.StoreValue(0, None) == Two(None, Some(2));
    } else if i == 1 {
      DefaultDropped();
    } else {
      assert Last(Some(2)).StoreValue(1, None) == Last(None);
    }
  }

  lemma RunIsRun(v: Variant)
    ensures IsRun(Run(v), Moves(v), MAX_BITS)
  {
    hide Steps, During, Ended, Opening, Stages, Tables;
    var states, moves, n := Run(v), Moves(v), |Stores(v)|;
    OpeningLength(v);
    forall i | 0 <= i < |moves| ensures Steps(states[i], moves[i], states[i + 1]) {
      if i < 2 {
        Opens(v, i);
      } else if i < 5 {
        Begins(v);
        ReadsDefault(v);
        PassesDefault(v);
      } else if i < 5 + n {
        StoreStep(v, i - 5);
      } else {
        Arrives(v);
      }
    }
    AllSteps(states, moves);
  }

  lemma OpeningLength(v: Variant)
    ensures |Opening(v)| == 5 && Start(Opening(v)[0])
  {
  }

  lemma StoreStep(v: Variant, i: nat)
    requires i < |Stores(v)|
    ensures Steps(During(v, i), Stores(v)[i], During(v, i + 1))
  {
    hide Steps, During;
    match v {
      case AfterInsert =>
        BetweenStep();
        LongestStep();
      case AfterReplace => StoresAfterReplace(i);
      case AfterErase => StoresAfterErase(i);
    }
  }

  lemma AllSteps(states: seq<State<nat, nat>>, moves: seq<Action<nat, nat>>)
    requires |states| == |moves| + 1 && Start(states[0])
    requires forall i :: 0 <= i < |moves| ==> Steps(states[i], moves[i], states[i + 1])
    ensures IsRun(states, moves, MAX_BITS)
  {
    hide Start;
    forall i | 0 <= i < |moves|
      ensures Enabled(states[i], moves[i], MAX_BITS) && states[i + 1] == Apply(states[i], moves[i], MAX_BITS)
    {
      assert Steps(states[i], moves[i], states[i + 1]);
    }
  }

  // ---- what it shows ----

  /** The answer is the longest match in some table that the lookup lived through. */
  ghost predicate Linearizable(w: Walker<nat, nat>) {
    exists i :: 0 <= i < |w.tables| && Answer(w) == Lpm(w.tables[i], w.address)
  }

  lemma NoTableSaysSo(v: Variant, i: nat)
    requires i <= |Stores(v)|
    ensures Lpm(Tables(v)[i], ONE_ONE) != Some(0)
  {
    var table := Tables(v)[i];
    assert ONE_ONE[..2] == ONE_ONE && ONE_ONE[..1] == ONE && ONE_ONE[..0] == DEFAULT;
    assert LongestMatch(table, ONE_ONE, 0) == Get(table, DEFAULT);
    assert LongestMatch(table, ONE_ONE, 1) == if ONE in table then Some(table[ONE]) else Get(table, DEFAULT);
  }

  /** How many changes of each kind the lookup goes through. */
  function Beside(v: Variant): (nat, nat, nat) {
    match v
    case AfterInsert => (1, 0, 1)
    case AfterReplace => (0, 1, 1)
    case AfterErase => (0, 0, 2)
  }

  lemma AllCovering(table: map<Bits, nat>)
    requires table.Keys <= {DEFAULT, ONE, ONE_ONE}
    ensures Covering(table, ONE_ONE) == table
  {
  }

  lemma CountBeside(v: Variant, kind: Kind)
    ensures Count(kind, Tables(v), ONE_ONE) ==
      match kind case Insertions => Beside(v).0 case Replacements => Beside(v).1 case Erasures => Beside(v).2
  {
    var tables := Tables(v);
    forall i | 0 <= i < |tables| ensures Covering(tables[i], ONE_ONE) == tables[i] {
      AllCovering(tables[i]);
    }
    hide Covering;
    assert tables[..1] == [tables[0]] && Count(kind, tables[..1], ONE_ONE) == 0;
    assert tables[..2][..1] == tables[..1] && tables[..3][..2] == tables[..2];
    assert Count(kind, tables[..2], ONE_ONE) == if IsOf(kind, tables[0], tables[1]) then 1 else 0;
    assert Count(kind, tables[..3], ONE_ONE) ==
      Count(kind, tables[..2], ONE_ONE) + if IsOf(kind, tables[1], tables[2]) then 1 else 0;
    if v.AfterErase? {
      assert tables[..4] == tables && tables[..4][..3] == tables[..3];
      assert ONE_ONE in tables[2] && ONE_ONE !in tables[3];
    } else {
      assert tables[..3] == tables;
    }
    KindsOf();
  }

  lemma KindsOf()
    ensures forall kind :: IsOf(kind, Tables(AfterInsert)[0], Tables(AfterInsert)[1]) <==> kind.Insertions?
    ensures forall kind :: IsOf(kind, Tables(AfterInsert)[1], Tables(AfterInsert)[2]) <==> kind.Erasures?
    ensures forall kind :: IsOf(kind, Tables(AfterReplace)[0], Tables(AfterReplace)[1]) <==> kind.Replacements?
    ensures forall kind :: IsOf(kind, Tables(AfterReplace)[1], Tables(AfterReplace)[2]) <==> kind.Erasures?
    ensures forall kind :: IsOf(kind, Tables(AfterErase)[0], Tables(AfterErase)[1]) <==> kind.Erasures?
    ensures forall kind :: !IsOf(kind, Tables(AfterErase)[1], Tables(AfterErase)[2])
    ensures forall kind :: IsOf(kind, Tables(AfterErase)[2], Tables(AfterErase)[3]) <==> kind.Erasures?
  {
    var a, b, c := Tables(AfterInsert), Tables(AfterReplace), Tables(AfterErase);
    assert ONE in a[1] && ONE !in a[0] && ONE_ONE in a[1] && ONE_ONE !in a[2];
    assert b[0].Keys == b[1].Keys && b[0][DEFAULT] != b[1][DEFAULT] && ONE_ONE in b[1] && ONE_ONE !in b[2];
    assert DEFAULT in c[0] && DEFAULT !in c[1] && ONE_ONE in c[2] && ONE_ONE !in c[3];
  }

  /** A run whose lookup overlaps just these changes and answers for none of the tables it lived through. */
  lemma NotLinearizable(v: Variant) returns (states: seq<State<nat, nat>>, actions: seq<Action<nat, nat>>)
    ensures FinishedBeside(states, actions, MAX_BITS, |actions|, 0, Beside(v).0, Beside(v).1, Beside(v).2)
    ensures !Linearizable(states[|actions|].walkers[0])
  {
    states, actions := Run(v), Moves(v);
    RunIsRun(v);
    RunEnds(v);
    EndsWrong(v);
    CountBeside(v, Insertions);
    CountBeside(v, Replacements);
    CountBeside(v, Erasures);
    hide IsRun, Linearizable, Count, Run, Moves;
  }

  lemma RunEnds(v: Variant)
    ensures |Run(v)| == |Moves(v)| + 1 && Run(v)[|Moves(v)|] == Ended(v)
  {
    hide Opening, During, Ended;
    OpeningLength(v);
  }

  lemma EndsWrong(v: Variant)
    ensures !Linearizable(Ended(v).walkers[0])
  {
    hide Lpm, Tables;
    forall i | 0 <= i <= |Stores(v)| ensures Lpm(Tables(v)[i], ONE_ONE) != Some(0) {
      NoTableSaysSo(v, i);
    }
  }

  // ---- exactly which changes do no harm ----

  /** In state i of a run, lookup r has finished, and beside it covering prefixes were inserted, replaced and erased
      at most so many times. */
  ghost predicate FinishedBeside(
      states: seq<State<nat, nat>>, actions: seq<Action<nat, nat>>, maxBits: nat, i: nat, r: nat,
      inserted: nat, replaced: nat, erased: nat) {
    && IsRun(states, actions, maxBits) && i < |states| && r < |states[i].walkers|
    && var w := states[i].walkers[r];
       && w.pc.Finished? && Count(Insertions, w.tables, w.address) <= inserted
       && Count(Replacements, w.tables, w.address) <= replaced && Count(Erasures, w.tables, w.address) <= erased
  }

  ghost predicate LinearizableBeside(inserted: nat, replaced: nat, erased: nat) {
    forall states: seq<State<nat, nat>>, actions: seq<Action<nat, nat>>, maxBits: nat, i: nat, r: nat ::
      FinishedBeside(states, actions, maxBits, i, r, inserted, replaced, erased) ==> Linearizable(states[i].walkers[r])
  }

  lemma HarmlessBeside(
      states: seq<State<nat, nat>>, actions: seq<Action<nat, nat>>, maxBits: nat, i: nat, r: nat,
      inserted: nat, replaced: nat, erased: nat)
    requires FinishedBeside(states, actions, maxBits, i, r, inserted, replaced, erased)
    requires erased == 0 || inserted + replaced + erased <= 1
    ensures Linearizable(states[i].walkers[r])
  {
    hide IsRun, Changes, Count, Lpm, Answer, Genuine;
    var w := states[i].walkers[r];
    NeverBlind(states, actions, maxBits, i, r);
    if erased == 0 {
      NoErasureNothingLost(w);
      WithoutErasuresLinearizable(states, actions, maxBits, i, r);
    } else {
      ChangesByKind(w.tables, w.address);
      OneOverlapIsLinearizable(states, actions, maxBits, i, r);
    }
  }

  /** In every run, lookups beside at most so many insertions, replacements and erasures of covering prefixes answer
      for a table they lived through, exactly when no erasure is among them or there is one change only. */
  lemma LinearizableExactlyBeside(inserted: nat, replaced: nat, erased: nat)
    ensures LinearizableBeside(inserted, replaced, erased) <==> erased == 0 || inserted + replaced + erased <= 1
  {
    hide IsRun, Count, Lpm, Linearizable;
    if erased == 0 || inserted + replaced + erased <= 1 {
      forall states: seq<State<nat, nat>>, actions: seq<Action<nat, nat>>, maxBits: nat, i: nat, r: nat
        | FinishedBeside(states, actions, maxBits, i, r, inserted, replaced, erased)
        ensures Linearizable(states[i].walkers[r])
      {
        HarmlessBeside(states, actions, maxBits, i, r, inserted, replaced, erased);
      }
    } else {
      var v := if inserted > 0 then AfterInsert else if replaced > 0 then AfterReplace else AfterErase;
      var states, actions := NotLinearizable(v);
      assert FinishedBeside(states, actions, MAX_BITS, |actions|, 0, inserted, replaced, erased);
    }
  }
}
