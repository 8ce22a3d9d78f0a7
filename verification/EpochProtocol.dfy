/**
 Epoch-based reclamation as a transition system over sequentially consistent interleavings.

 Every shared load or store of src/epoch.cpp is a step of its own: a reader loads the epoch and
 announces it in two steps, a scan visits one record per step, and a bag is freed after, not together
 with, the load of the epoch that chose it.

 Three components are history variables, which no step reads to decide anything: the epoch kept with
 a retired object, and, per record, the global epoch and the set of unlinked objects at the moment
 of the announcement.
 */
module EpochProtocol {
  import opened Wrappers

  const RING: nat := 3

  type Object = nat

  /** An object handed to retire, with the epoch its retirer loaded (history). */
  datatype Retired = Retired(item: Object, epoch: nat)

  /** One thread_record. `bags` has RING entries. */
  datatype Record = Record(
    announced: Option<nat>,
    inUse: bool,
    bags: seq<seq<Retired>>,
    pinGlobal: nat,
    seen: set<Object>)

  const FRESH_RECORD := Record(None, true, [[], [], []], 0, {})

  /** What a call of try_advance is made for. */
  datatype Goal = Reclaim | Synchronize(rounds: nat, start: nat)

  /** Where a thread stands inside an operation of the domain. */
  datatype Pc =
    | Idle
    | PinLoaded(epoch: nat)
    | Unlinked(item: Object)
    | RetireLoaded(item: Object, epoch: nat)
    | Advancing(goal: Goal)
    | ScanLoaded(goal: Goal, epoch: nat)
    | Scanning(goal: Goal, epoch: nat, left: nat)
    | Advanced(goal: Goal)
    | ReclaimLoaded(epoch: nat)
    | TakingOrphans
    | Adopting(adopted: seq<Retired>)
    | Exiting

  datatype Thread = Thread(record: Option<nat>, nesting: nat, pc: Pc)

  datatype Freed = Freed(item: Object, orphan: bool)

  /** `unlinked` holds every object taken out of the protected structure so far;
      `freed` logs every call of a deleter. */
  datatype State = State(
    global: nat,
    records: seq<Record>,
    threads: seq<Thread>,
    orphans: seq<Retired>,
    unlinked: set<Object>,
    freed: seq<Freed>)

  datatype Action =
    | Register(reuse: Option<nat>)
    | PinLoad | PinAnnounce | EnterNested | LeaveNested | Unpin
    | Unlink(item: Object) | RetireLoad | RetirePush
    | StartReclaim | StartSynchronize
    | ScanLoadEpoch | ScanLoadHead | ScanVisit | ScanExchange
    | NextRound | ReclaimLoad | FreeBag | FreeAllBags | SwapOrphans | FreeAdopted
    | HandOverBags | ReleaseRecord

  function WithThread(s: State, t: nat, thread: Thread): State
    requires t < |s.threads|
  {
    s.(threads := s.threads[t := thread])
  }

  function WithPc(s: State, t: nat, pc: Pc): State
    requires t < |s.threads|
  {
    WithThread(s, t, s.threads[t].(pc := pc))
  }

  function WithRecord(s: State, r: nat, record: Record): State
    requires r < |s.records|
  {
    s.(records := s.records[r := record])
  }

  function LogFreed(bag: seq<Retired>, orphan: bool): (log: seq<Freed>)
    ensures |log| == |bag|
  {
    seq(|bag|, (i: nat) requires i < |bag| => Freed(bag[i].item, orphan))
  }

  /** The bag that try_reclaim frees after loading `epoch`. */
  function SafeBag(epoch: nat): (i: nat)
    ensures i < RING
  {
    (epoch + 1) % RING
  }

  predicate BagsEmpty(record: Record) {
    forall i :: 0 <= i < |record.bags| ==> record.bags[i] == []
  }

  function Pour(bags: seq<seq<Retired>>): seq<Retired> {
    if bags == [] then [] else bags[0] + Pour(bags[1..])
  }

  /** The record of thread t, for the steps that touch one. */
  predicate Owns(s: State, t: nat) {
    t < |s.threads| && s.threads[t].record.Some? && s.threads[t].record.value < |s.records|
    && |s.records[s.threads[t].record.value].bags| == RING
  }

  function Own(s: State, t: nat): nat
    requires Owns(s, t)
  {
    s.threads[t].record.value
  }

  predicate Enabled(s: State, t: nat, a: Action) {
    t < |s.threads| &&
    var thread := s.threads[t];
    match a
    case Register(reuse) =>
      // local_record: called before the first pin, the retire and the reclaim.
      && thread.record.None? && (thread.pc.Idle? || thread.pc.Unlinked? || thread.pc.Advanced?)
      && (reuse.Some? ==> reuse.value < |s.records| && !s.records[reuse.value].inUse)
    case PinLoad => thread.pc.Idle? && thread.record.Some? && thread.nesting == 0
    case PinAnnounce => thread.pc.PinLoaded? && Owns(s, t)
    case EnterNested => thread.pc.Idle? && thread.nesting > 0
    case LeaveNested => thread.pc.Idle? && thread.nesting > 1
    case Unpin => thread.pc.Idle? && thread.nesting == 1 && Owns(s, t)
    case Unlink(item) => thread.pc.Idle? && item !in s.unlinked
    case RetireLoad => thread.pc.Unlinked? && thread.record.Some?
    case RetirePush => thread.pc.RetireLoaded? && Owns(s, t)
    case StartReclaim => thread.pc.Idle?
    case StartSynchronize => thread.pc.Idle?
    case ScanLoadEpoch => thread.pc.Advancing?
    case ScanLoadHead => thread.pc.ScanLoaded?
    case ScanVisit => thread.pc.Scanning? && 0 < thread.pc.left <= |s.records|
    case ScanExchange => thread.pc.Scanning? && thread.pc.left == 0
    case NextRound => thread.pc.Advanced? && thread.pc.goal.Synchronize? && thread.pc.goal.rounds < RING
    case ReclaimLoad => thread.pc.Advanced? && thread.pc.goal.Reclaim? && thread.record.Some?
    case FreeBag => thread.pc.ReclaimLoaded? && Owns(s, t)
    case FreeAllBags =>
      thread.pc.Advanced? && thread.pc.goal.Synchronize? && thread.pc.goal.rounds >= RING && Owns(s, t)
    case SwapOrphans => thread.pc.TakingOrphans?
    case FreeAdopted => thread.pc.Adopting?
    case HandOverBags => thread.pc.Idle? && thread.nesting == 0 && Owns(s, t)
    case ReleaseRecord => thread.pc.Exiting? && Owns(s, t)
  }

  function Apply(s: State, t: nat, a: Action): State
    requires Enabled(s, t, a)
  {
    var thread := s.threads[t];
    match a
    case Register(reuse) =>
      if reuse.Some? then
        var r := reuse.value;
        WithThread(WithRecord(s, r, s.records[r].(inUse := true)), t, Thread(Some(r), 0, thread.pc))
      else
        WithThread(s.(records := s.records + [FRESH_RECORD]), t, Thread(Some(|s.records|), 0, thread.pc))
    case PinLoad => WithPc(s, t, PinLoaded(s.global))
    case PinAnnounce =>
      var r := Own(s, t);
      var record := s.records[r].(announced := Some(thread.pc.epoch), pinGlobal := s.global, seen := s.unlinked);
      WithThread(WithRecord(s, r, record), t, thread.(nesting := 1, pc := Idle))
    case EnterNested => WithThread(s, t, thread.(nesting := thread.nesting + 1))
    case LeaveNested => WithThread(s, t, thread.(nesting := thread.nesting - 1))
    case Unpin =>
      var r := Own(s, t);
      WithThread(WithRecord(s, r, s.records[r].(announced := None)), t, thread.(nesting := 0))
    case Unlink(item) => WithPc(s.(unlinked := s.unlinked + {item}), t, Unlinked(item))
    case RetireLoad => WithPc(s, t, RetireLoaded(thread.pc.item, s.global))
    case RetirePush =>
      var r := Own(s, t);
      var i := thread.pc.epoch % RING;
      var bag := s.records[r].bags[i] + [Retired(thread.pc.item, thread.pc.epoch)];
      WithPc(WithRecord(s, r, s.records[r].(bags := s.records[r].bags[i := bag])), t, Idle)
    case StartReclaim => WithPc(s, t, Advancing(Reclaim))
    case StartSynchronize => WithPc(s, t, Advancing(Synchronize(0, s.global)))
    case ScanLoadEpoch => WithPc(s, t, ScanLoaded(thread.pc.goal, s.global))
    case ScanLoadHead => WithPc(s, t, Scanning(thread.pc.goal, thread.pc.epoch, |s.records|))
    case ScanVisit =>
      var seenState := s.records[thread.pc.left - 1].announced;
      if seenState.Some? && seenState.value != thread.pc.epoch then
        // A failed advance: try_reclaim gives up, synchronize spins.
        WithPc(s, t, if thread.pc.goal.Reclaim? then Idle else Advancing(thread.pc.goal))
      else
        WithPc(s, t, thread.pc.(left := thread.pc.left - 1))
    case ScanExchange =>
      var s' := if s.global == thread.pc.epoch then s.(global := s.global + 1) else s;
      WithPc(s', t, Advanced(thread.pc.goal))
    case NextRound => WithPc(s, t, Advancing(thread.pc.goal.(rounds := thread.pc.goal.rounds + 1)))
    case ReclaimLoad => WithPc(s, t, ReclaimLoaded(s.global))
    case FreeBag =>
      var r := Own(s, t);
      var i := SafeBag(thread.pc.epoch);
      var s' := s.(freed := s.freed + LogFreed(s.records[r].bags[i], false));
      WithPc(WithRecord(s', r, s.records[r].(bags := s.records[r].bags[i := []])), t, TakingOrphans)
    case FreeAllBags =>
      var r := Own(s, t);
      var s' := s.(freed := s.freed + LogFreed(Pour(s.records[r].bags), false));
      WithPc(WithRecord(s', r, s.records[r].(bags := [[], [], []])), t, TakingOrphans)
    case SwapOrphans => WithPc(s.(orphans := []), t, Adopting(s.orphans))
    case FreeAdopted => WithPc(s.(freed := s.freed + LogFreed(thread.pc.adopted, true)), t, Idle)
    case HandOverBags =>
      var r := Own(s, t);
      var s' := s.(orphans := s.orphans + Pour(s.records[r].bags));
      WithPc(WithRecord(s', r, s.records[r].(bags := [[], [], []])), t, Exiting)
    case ReleaseRecord =>
      var r := Own(s, t);
      WithThread(WithRecord(s, r, s.records[r].(announced := None, inUse := false)), t, Thread(None, 0, Idle))
  }

  /** No thread has registered; `n` of them may. */
  function Start(n: nat): State {
    State(0, [], seq(n, _ => Thread(None, 0, Idle)), [], {}, [])
  }

  /** Every object in the bags was retired at least `age` epochs before `global`. */
  predicate Aged(bags: seq<seq<Retired>>, age: nat, global: nat) {
    forall i, k :: 0 <= i < |bags| && 0 <= k < |bags[i]| ==> bags[i][k].epoch + age <= global
  }

  /** A thread exits when its garbage is of this age at the least. The code asks for none. */
  predicate Allowed(age: nat, s: State, t: nat, a: Action) {
    Enabled(s, t, a) && (a.HandOverBags? ==> Aged(s.records[Own(s, t)].bags, age, s.global))
  }

  datatype Move = Move(thread: nat, action: Action)

  /** `states` and `moves` form a run: n threads, any interleaving, exits with garbage of an age. */
  predicate IsRun(age: nat, n: nat, states: seq<State>, moves: seq<Move>) {
    && |states| == |moves| + 1
    && states[0] == Start(n)
    && forall i :: 0 <= i < |moves| ==>
         && Allowed(age, states[i], moves[i].thread, moves[i].action)
         && states[i + 1] == Apply(states[i], moves[i].thread, moves[i].action)
  }
}
