/**
 Conservation of retired objects: each one is, at any moment of any run, in exactly one place, and is
 freed at most once, across thread exit and record reuse. A synchronize that returns has freed all
 that its caller had in its bags, after at least RING + 1 epochs.
 */
module EpochAccounting {
  import opened Wrappers
  import opened EpochProtocol
  import opened EpochSafety

  /** Every object is given a weight; the weights in a state's places are then added up. */
  datatype Weight = Only(item: Object) | Each

  function Of(w: Weight, item: Object): nat {
    if w.Each? || w.item == item then 1 else 0
  }

  function OfBag(w: Weight, bag: seq<Retired>): nat {
    if bag == [] then 0 else Of(w, bag[0].item) + OfBag(w, bag[1..])
  }

  function OfBags(w: Weight, bags: seq<seq<Retired>>): nat {
    if bags == [] then 0 else OfBag(w, bags[0]) + OfBags(w, bags[1..])
  }

  function OfRecords(w: Weight, records: seq<Record>): nat {
    if records == [] then 0 else OfBags(w, records[0].bags) + OfRecords(w, records[1..])
  }

  function OfLog(w: Weight, log: seq<Freed>): nat {
    if log == [] then 0 else Of(w, log[0].item) + OfLog(w, log[1..])
  }

  /** What a thread carries between an unlinking and a bag, or from the orphans to a deleter. */
  function Carried(w: Weight, pc: Pc): nat {
    match pc
    case Unlinked(item) => Of(w, item)
    case RetireLoaded(item, _) => Of(w, item)
    case Adopting(adopted) => OfBag(w, adopted)
    case _ => 0
  }

  function OfThreads(w: Weight, threads: seq<Thread>): nat {
    if threads == [] then 0 else Carried(w, threads[0].pc) + OfThreads(w, threads[1..])
  }

  /** pending(): what the bags and the orphan list hold. */
  function Pending(w: Weight, s: State): nat {
    OfRecords(w, s.records) + OfBag(w, s.orphans)
  }

  function Balance(w: Weight, s: State): nat {
    Pending(w, s) + OfThreads(w, s.threads) + OfLog(w, s.freed)
  }

  function Added(w: Weight, a: Action): nat {
    if a.Unlink? then Of(w, a.item) else 0
  }

  lemma {:induction false} BagConcat(w: Weight, xs: seq<Retired>, ys: seq<Retired>)
    ensures OfBag(w, xs + ys) == OfBag(w, xs) + OfBag(w, ys)
  {
    if xs == [] {
      assert xs + ys == ys;
    } else {
      BagConcat(w, xs[1..], ys);
      assert (xs + ys)[1..] == xs[1..] + ys;
    }
  }

  lemma {:induction false} LogConcat(w: Weight, xs: seq<Freed>, ys: seq<Freed>)
    ensures OfLog(w, xs + ys) == OfLog(w, xs) + OfLog(w, ys)
  {
    if xs == [] {
      assert xs + ys == ys;
    } else {
      LogConcat(w, xs[1..], ys);
      assert (xs + ys)[1..] == xs[1..] + ys;
    }
  }

  lemma {:induction false} BagsUpdate(w: Weight, bags: seq<seq<Retired>>, i: nat, bag: seq<Retired>)
    requires i < |bags|
    ensures OfBags(w, bags[i := bag]) + OfBag(w, bags[i]) == OfBags(w, bags) + OfBag(w, bag)
  {
    if i > 0 {
      BagsUpdate(w, bags[1..], i - 1, bag);
      assert bags[i := bag][1..] == bags[1..][i - 1 := bag];
    } else {
      assert bags[i := bag][1..] == bags[1..];
    }
  }

  lemma {:induction false} RecordsUpdate(w: Weight, records: seq<Record>, r: nat, record: Record)
    requires r < |records|
    ensures OfRecords(w, records[r := record]) + OfBags(w, records[r].bags) ==
      OfRecords(w, records) + OfBags(w, record.bags)
  {
    if r > 0 {
      RecordsUpdate(w, records[1..], r - 1, record);
      assert records[r := record][1..] == records[1..][r - 1 := record];
    } else {
      assert records[r := record][1..] == records[1..];
    }
  }

  lemma {:induction false} RecordsAppend(w: Weight, records: seq<Record>, record: Record)
    ensures OfRecords(w, records + [record]) == OfRecords(w, records) + OfBags(w, record.bags)
  {
    if records == [] {
      assert records + [record] == [record];
    } else {
      RecordsAppend(w, records[1..], record);
      assert (records + [record])[1..] == records[1..] + [record];
    }
  }

  lemma {:induction false} ThreadsUpdate(w: Weight, threads: seq<Thread>, t: nat, thread: Thread)
    requires t < |threads|
    ensures OfThreads(w, threads[t := thread]) + Carried(w, threads[t].pc) ==
      OfThreads(w, threads) + Carried(w, thread.pc)
  {
    if t > 0 {
      ThreadsUpdate(w, threads[1..], t - 1, thread);
      assert threads[t := thread][1..] == threads[1..][t - 1 := thread];
    } else {
      assert threads[t := thread][1..] == threads[1..];
    }
  }

  lemma {:induction false} PourTotal(w: Weight, bags: seq<seq<Retired>>)
    ensures OfBag(w, Pour(bags)) == OfBags(w, bags)
  {
    if bags == [] {
    } else {
      PourTotal(w, bags[1..]);
      BagConcat(w, bags[0], Pour(bags[1..]));
    }
  }

  lemma {:induction false} LogTotal(w: Weight, bag: seq<Retired>, orphan: bool)
    ensures OfLog(w, LogFreed(bag, orphan)) == OfBag(w, bag)
  {
    if bag == [] {
    } else {
      LogTotal(w, bag[1..], orphan);
      assert LogFreed(bag, orphan)[1..] == LogFreed(bag[1..], orphan);
    }
  }

  lemma FreeingLog(w: Weight, log: seq<Freed>, bag: seq<Retired>, orphan: bool)
    ensures OfLog(w, log + LogFreed(bag, orphan)) == OfLog(w, log) + OfBag(w, bag)
  {
    LogConcat(w, log, LogFreed(bag, orphan));
    LogTotal(w, bag, orphan);
  }

  lemma {:induction false} EmptyBags(w: Weight, bags: seq<seq<Retired>>)
    requires forall i :: 0 <= i < |bags| ==> bags[i] == []
    ensures OfBags(w, bags) == 0
  {
    if bags == [] {
    } else {
      EmptyBags(w, bags[1..]);
    }
  }

  lemma PushStep(w: Weight, s: State, t: nat)
    requires RecordsOwned(s) && Enabled(s, t, RetirePush)
    ensures Balance(w, Apply(s, t, RetirePush)) == Balance(w, s)
  {
    var s', r := Apply(s, t, RetirePush), Own(s, t);
    var bags, pc := s.records[r].bags, s.threads[t].pc;
    var i, x := pc.epoch % RING, Retired(pc.item, pc.epoch);
    hide RecordsOwned, Enabled;
    ThreadsUpdate(w, s.threads, t, s'.threads[t]);
    RecordsUpdate(w, s.records, r, s'.records[r]);
    BagsUpdate(w, bags, i, bags[i] + [x]);
    BagConcat(w, bags[i], [x]);
  }

  lemma FreeBagStep(w: Weight, s: State, t: nat)
    requires RecordsOwned(s) && Enabled(s, t, FreeBag)
    ensures Balance(w, Apply(s, t, FreeBag)) == Balance(w, s)
  {
    var s', r := Apply(s, t, FreeBag), Own(s, t);
    var bags, i := s.records[r].bags, SafeBag(s.threads[t].pc.epoch);
    hide RecordsOwned, Enabled;
    ThreadsUpdate(w, s.threads, t, s'.threads[t]);
    RecordsUpdate(w, s.records, r, s'.records[r]);
    BagsUpdate(w, bags, i, []);
    FreeingLog(w, s.freed, bags[i], false);
  }

  lemma FreeAllStep(w: Weight, s: State, t: nat)
    requires RecordsOwned(s) && Enabled(s, t, FreeAllBags)
    ensures Balance(w, Apply(s, t, FreeAllBags)) == Balance(w, s)
  {
    var s', r := Apply(s, t, FreeAllBags), Own(s, t);
    hide RecordsOwned, Enabled;
    ThreadsUpdate(w, s.threads, t, s'.threads[t]);
    RecordsUpdate(w, s.records, r, s'.records[r]);
    EmptyBags(w, s'.records[r].bags);
    PourTotal(w, s.records[r].bags);
    FreeingLog(w, s.freed, Pour(s.records[r].bags), false);
  }

  lemma HandOverStep(w: Weight, s: State, t: nat)
    requires RecordsOwned(s) && Enabled(s, t, HandOverBags)
    ensures Balance(w, Apply(s, t, HandOverBags)) == Balance(w, s)
  {
    var s', r := Apply(s, t, HandOverBags), Own(s, t);
    hide RecordsOwned, Enabled;
    ThreadsUpdate(w, s.threads, t, s'.threads[t]);
    RecordsUpdate(w, s.records, r, s'.records[r]);
    EmptyBags(w, s'.records[r].bags);
    PourTotal(w, s.records[r].bags);
    BagConcat(w, s.orphans, Pour(s.records[r].bags));
  }

  lemma RegisterStep(w: Weight, s: State, t: nat, a: Action)
    requires Enabled(s, t, a) && a.Register?
    ensures Balance(w, Apply(s, t, a)) == Balance(w, s)
  {
    var s' := Apply(s, t, a);
    ThreadsUpdate(w, s.threads, t, s'.threads[t]);
    if a.reuse.Some? {
      RecordsUpdate(w, s.records, a.reuse.value, s'.records[a.reuse.value]);
    } else {
      EmptyBags(w, FRESH_RECORD.bags);
      RecordsAppend(w, s.records, FRESH_RECORD);
    }
  }

  lemma AnnouncingSteps(w: Weight, s: State, t: nat, a: Action)
    requires Enabled(s, t, a) && (a.PinAnnounce? || a.Unpin? || a.ReleaseRecord?)
    ensures Balance(w, Apply(s, t, a)) == Balance(w, s)
  {
    var s' := Apply(s, t, a);
    ThreadsUpdate(w, s.threads, t, s'.threads[t]);
    RecordsUpdate(w, s.records, Own(s, t), s'.records[Own(s, t)]);
  }

  lemma CarryingSteps(w: Weight, s: State, t: nat, a: Action)
    requires Enabled(s, t, a) && (a.Unlink? || a.SwapOrphans? || a.FreeAdopted?)
    ensures Balance(w, Apply(s, t, a)) == Balance(w, s) + Added(w, a)
  {
    var s' := Apply(s, t, a);
    ThreadsUpdate(w, s.threads, t, s'.threads[t]);
    if a.FreeAdopted? {
      FreeingLog(w, s.freed, s.threads[t].pc.adopted, true);
    }
  }

  predicate Quiet(a: Action) {
    a.PinLoad? || a.EnterNested? || a.LeaveNested? || a.RetireLoad? || a.StartReclaim? || a.StartSynchronize?
    || a.ScanLoadEpoch? || a.ScanLoadHead? || a.ScanVisit? || a.ScanExchange? || a.NextRound? || a.ReclaimLoad?
  }

  lemma QuietSteps(w: Weight, s: State, t: nat, a: Action)
    requires Enabled(s, t, a) && Quiet(a)
    ensures Balance(w, Apply(s, t, a)) == Balance(w, s)
  {
    var s' := Apply(s, t, a);
    ThreadsUpdate(w, s.threads, t, s'.threads[t]);
    assert Carried(w, s'.threads[t].pc) == Carried(w, s.threads[t].pc);
    assert s'.records == s.records && s'.orphans == s.orphans && s'.freed == s.freed;
  }

  /** Only an unlinking adds to what the domain has to account for; no step loses or doubles anything. */
  lemma StepBalance(w: Weight, s: State, t: nat, a: Action)
    requires RecordsOwned(s) && Enabled(s, t, a)
    ensures Balance(w, Apply(s, t, a)) == Balance(w, s) + Added(w, a)
  {
    if a.RetirePush? {
      PushStep(w, s, t);
    } else if a.FreeBag? {
      FreeBagStep(w, s, t);
    } else if a.FreeAllBags? {
      FreeAllStep(w, s, t);
    } else if a.HandOverBags? {
      HandOverStep(w, s, t);
    } else if a.Register? {
      RegisterStep(w, s, t, a);
    } else if a.PinAnnounce? || a.Unpin? || a.ReleaseRecord? {
      AnnouncingSteps(w, s, t, a);
    } else if Quiet(a) {
      QuietSteps(w, s, t, a);
    } else {
      CarryingSteps(w, s, t, a);
    }
  }

  // ---- each object once ----

  lemma {:induction false} NothingCarried(w: Weight, threads: seq<Thread>)
    requires forall t :: 0 <= t < |threads| ==> Carried(w, threads[t].pc) == 0
    ensures OfThreads(w, threads) == 0
  {
    if threads == [] {
    } else {
      NothingCarried(w, threads[1..]);
    }
  }

  function Expected(w: Weight, unlinked: set<Object>): nat {
    if w.Each? then |unlinked| else if w.item in unlinked then 1 else 0
  }

  lemma StepExpects(w: Weight, s: State, t: nat, a: Action)
    requires Enabled(s, t, a)
    ensures Expected(w, Apply(s, t, a).unlinked) == Expected(w, s.unlinked) + Added(w, a)
  {
  }

  lemma StartBalance(w: Weight, n: nat)
    ensures Balance(w, Start(n)) == 0
  {
    NothingCarried(w, Start(n).threads);
  }

  lemma {:induction false} RunBalance(age: nat, n: nat, states: seq<State>, moves: seq<Move>, i: nat, w: Weight)
    requires IsRun(age, n, states, moves) && i < |states|
    ensures Balance(w, states[i]) == Expected(w, states[i].unlinked)
  {
    hide Apply, Enabled, Balance, Inv;
    if i == 0 {
      StartBalance(w, n);
    } else {
      var s, move := states[i - 1], moves[i - 1];
      RunBalance(age, n, states, moves, i - 1, w);
      RunKeepsInv(age, n, states, moves, i - 1);
      InvOwned(s);
      StepBalance(w, s, move.thread, move.action);
      StepExpects(w, s, move.thread, move.action);
    }
  }

  lemma InvOwned(s: State)
    requires Inv(s)
    ensures RecordsOwned(s)
  {
  }

  /** An unlinked object is in exactly one place: carried by one thread, in one bag, an orphan, or freed.
      So no deleter runs twice on one object, and none on an object still in the structure. */
  lemma InOnePlace(age: nat, n: nat, states: seq<State>, moves: seq<Move>, i: nat, item: Object)
    requires IsRun(age, n, states, moves) && i < |states|
    ensures var s := states[i];
      Pending(Only(item), s) + OfThreads(Only(item), s.threads) + OfLog(Only(item), s.freed)
      == if item in s.unlinked then 1 else 0
  {
    RunBalance(age, n, states, moves, i, Only(item));
  }

  lemma {:induction false} ReclaimedTwice(item: Object, log: seq<Freed>, j: nat, k: nat)
    requires j < k < |log| && log[j].item == item == log[k].item
    ensures OfLog(Only(item), log) >= 2
  {
    if j > 0 {
      ReclaimedTwice(item, log[1..], j - 1, k - 1);
    } else {
      ReclaimedOnce(item, log[1..], k - 1);
    }
  }

  lemma {:induction false} ReclaimedOnce(item: Object, log: seq<Freed>, k: nat)
    requires k < |log| && log[k].item == item
    ensures OfLog(Only(item), log) >= 1
  {
    if k == 0 {
    } else {
      ReclaimedOnce(item, log[1..], k - 1);
    }
  }

  lemma FreedAtMostOnce(age: nat, n: nat, states: seq<State>, moves: seq<Move>, i: nat, j: nat, k: nat)
    requires IsRun(age, n, states, moves) && i < |states| && j < k < |states[i].freed|
    ensures states[i].freed[j].item != states[i].freed[k].item
  {
    var item := states[i].freed[j].item;
    if states[i].freed[k].item == item {
      ReclaimedTwice(item, states[i].freed, j, k);
      RunBalance(age, n, states, moves, i, Only(item));
    }
  }

  ghost predicate Quiescent(s: State) {
    forall t :: 0 <= t < |s.threads| ==>
      !s.threads[t].pc.Unlinked? && !s.threads[t].pc.RetireLoaded? && !s.threads[t].pc.Adopting?
  }

  lemma {:induction false} FreedCount(log: seq<Freed>)
    ensures OfLog(Each, log) == |log|
  {
    if log == [] {
    } else {
      FreedCount(log[1..]);
    }
  }

  /** retired == reclaimed + pending whenever no thread is carrying an object. */
  lemma QuiescentBalance(age: nat, n: nat, states: seq<State>, moves: seq<Move>, i: nat)
    requires IsRun(age, n, states, moves) && i < |states| && Quiescent(states[i])
    ensures |states[i].unlinked| == |states[i].freed| + Pending(Each, states[i])
  {
    RunBalance(age, n, states, moves, i, Each);
    NothingCarried(Each, states[i].threads);
    FreedCount(states[i].freed);
  }

  // ---- synchronize ----

  /** Thread t is inside the synchronize that it entered at epoch `start` with these bags. */
  ghost predicate Synchronizing(s: State, t: nat, start: nat, record: Option<nat>, bags: seq<seq<Retired>>) {
    && t < |s.threads|
    && Rounds(s.threads[t].pc).Some? && Rounds(s.threads[t].pc).value.Synchronize?
    && Rounds(s.threads[t].pc).value.start == start
    && (record.Some? ==>
         s.threads[t].record == record && record.value < |s.records| && s.records[record.value].bags == bags)
  }

  lemma OwnStepKeepsSynchronizing(
      s: State, t: nat, a: Action, start: nat, record: Option<nat>, bags: seq<seq<Retired>>)
    requires RecordsOwned(s) && Enabled(s, t, a) && Synchronizing(s, t, start, record, bags) && !a.FreeAllBags?
    ensures Synchronizing(Apply(s, t, a), t, start, record, bags)
  {
    assert Owner(s, s.threads[t]);
    hide RecordsOwned;
  }

  lemma OtherStepKeepsSynchronizing(
      s: State, u: nat, a: Action, t: nat, start: nat, record: Option<nat>, bags: seq<seq<Retired>>)
    requires RecordsOwned(s) && Enabled(s, u, a) && Synchronizing(s, t, start, record, bags) && u != t
    ensures Synchronizing(Apply(s, u, a), t, start, record, bags)
  {
    assert Owner(s, s.threads[t]) && Owner(s, s.threads[u]);
    DistinctRecords(s, t, u);
    hide RecordsOwned;
  }

  lemma StepKeepsSynchronizing(s: State, move: Move, t: nat, start: nat, record: Option<nat>, bags: seq<seq<Retired>>)
    requires Inv(s) && Enabled(s, move.thread, move.action)
    requires Synchronizing(s, t, start, record, bags)
    requires !(move.thread == t && move.action.FreeAllBags?)
    ensures Synchronizing(Apply(s, move.thread, move.action), t, start, record, bags)
  {
    hide Inv, Enabled, Synchronizing;
    InvOwned(s);
    if move.thread == t {
      OwnStepKeepsSynchronizing(s, t, move.action, start, record, bags);
    } else {
      OtherStepKeepsSynchronizing(s, move.thread, move.action, t, start, record, bags);
    }
  }

  lemma SynchronizeStarts(s: State, t: nat, a: Action)
    requires Enabled(s, t, a) && a.StartSynchronize? && Owns(s, t)
    ensures Synchronizing(Apply(s, t, a), t, s.global, s.threads[t].record, s.records[Own(s, t)].bags)
  {
  }

  lemma {:induction false} RunKeepsSynchronizing(age: nat, n: nat, states: seq<State>, moves: seq<Move>, i: nat, j: nat)
    requires IsRun(age, n, states, moves) && i < j < |states|
    requires moves[i].action.StartSynchronize? && Owns(states[i], moves[i].thread)
    requires forall k :: i < k < j ==> !(moves[k].thread == moves[i].thread && moves[k].action.FreeAllBags?)
    ensures var t := moves[i].thread;
      Synchronizing(
        states[j], t, states[i].global, states[i].threads[t].record, states[i].records[Own(states[i], t)].bags)
    decreases j
  {
    if j == i + 1 {
      SynchronizeStarts(states[i], moves[i].thread, moves[i].action);
    } else {
      hide Inv, Synchronizing;
      var t := moves[i].thread;
      RunKeepsSynchronizing(age, n, states, moves, i, j - 1);
      RunKeepsInv(age, n, states, moves, j - 1);
      StepKeepsSynchronizing(states[j - 1], moves[j - 1], t, states[i].global,
                             states[i].threads[t].record, states[i].records[Own(states[i], t)].bags);
    }
  }

  lemma LoggedInPour(bags: seq<seq<Retired>>, i: nat, k: nat)
    requires i < |bags| && k < |bags[i]|
    ensures bags[i][k] in Pour(bags)
  {
    if i == 0 {
    } else {
      assert bags[1..][i - 1] == bags[i];
      LoggedInPour(bags[1..], i - 1, k);
    }
  }

  /** From the call at step i to the freeing at step j the epoch moves at least four, and every object
      that was in the caller's bags at the call is freed. */
  lemma SynchronizeFreesAll(age: nat, n: nat, states: seq<State>, moves: seq<Move>, i: nat, j: nat)
    requires IsRun(age, n, states, moves) && i < j < |moves|
    requires moves[i].action.StartSynchronize? && Owns(states[i], moves[i].thread)
    requires moves[j] == Move(moves[i].thread, FreeAllBags)
    requires forall k :: i < k < j ==> !(moves[k].thread == moves[i].thread && moves[k].action.FreeAllBags?)
    ensures states[j].global >= states[i].global + 4
    ensures forall b, k :: var bags := states[i].records[Own(states[i], moves[i].thread)].bags;
      0 <= b < |bags| && 0 <= k < |bags[b]| ==> Freed(bags[b][k].item, false) in states[j + 1].freed
  {
    var t := moves[i].thread;
    RunKeepsSynchronizing(age, n, states, moves, i, j);
    RunKeepsInv(age, n, states, moves, j);
    assert RoundsCounted(states[j], states[j].threads[t].pc);
    var bags: seq<seq<Retired>> := states[i].records[Own(states[i], t)].bags;
    forall b: nat, k: nat | b < |bags| && k < |bags[b]|
      ensures Freed(bags[b][k].item, false) in states[j + 1].freed
    {
      LoggedInPour(bags, b, k);
      var m :| 0 <= m < |Pour(bags)| && Pour(bags)[m] == bags[b][k];
      assert LogFreed(Pour(bags), false)[m] == Freed(bags[b][k].item, false);
    }
  }

  // ---- try_reclaim ----

  /** A reclaim at epoch e frees whatever its thread retired at epoch e - 2 and still has. */
  lemma ReclaimFreesOld(age: nat, n: nat, states: seq<State>, moves: seq<Move>, j: nat, b: nat, k: nat)
    requires IsRun(age, n, states, moves) && j < |moves| && moves[j].action.FreeBag?
    requires var s := states[j];
      var bags := s.records[Own(s, moves[j].thread)].bags;
      b < |bags| && k < |bags[b]| && bags[b][k].epoch + 2 == s.threads[moves[j].thread].pc.epoch
    ensures var x := states[j].records[Own(states[j], moves[j].thread)].bags[b][k];
      Freed(x.item, false) in states[j + 1].freed
  {
    var s, t := states[j], moves[j].thread;
    var bag := s.records[Own(s, t)].bags[b];
    RunKeepsInv(age, n, states, moves, j);
    BagOfEpoch(s, Own(s, t), b, k);
    assert SafeBag(s.threads[t].pc.epoch) == b;
    assert LogFreed(bag, false)[k] == Freed(bag[k].item, false);
    assert states[j + 1].freed == s.freed + LogFreed(bag, false);
  }

  lemma BagOfEpoch(s: State, r: nat, b: nat, k: nat)
    requires Inv(s) && r < |s.records| && b < |s.records[r].bags| && k < |s.records[r].bags[b]|
    ensures s.records[r].bags[b][k].epoch % RING == b
  {
  }

  lemma SwapAdopts(s: State, t: nat)
    requires Enabled(s, t, SwapOrphans)
    ensures var s' := Apply(s, t, SwapOrphans);
      s'.orphans == [] && t < |s'.threads| && s'.threads[t].pc == Adopting(s.orphans)
  {
  }

  lemma OthersStay(s: State, t: nat, a: Action, u: nat)
    requires Enabled(s, t, a) && u < |s.threads| && u != t
    ensures u < |Apply(s, t, a).threads| && Apply(s, t, a).threads[u] == s.threads[u]
  {
    StepEpoch(s, t, a);
    hide Apply, Enabled;
  }

  lemma {:induction false} StaysAdopting(
      age: nat, n: nat, states: seq<State>, moves: seq<Move>, i: nat, j: nat)
    requires IsRun(age, n, states, moves) && i < j < |states| && moves[i].action.SwapOrphans?
    requires forall k :: i < k < j ==> moves[k].thread != moves[i].thread
    ensures moves[i].thread < |states[j].threads|
    ensures states[j].threads[moves[i].thread].pc == Adopting(states[i].orphans)
    decreases j
  {
    hide Enabled, Apply, Aged;
    if j == i + 1 {
      SwapAdopts(states[i], moves[i].thread);
    } else {
      StaysAdopting(age, n, states, moves, i, j - 1);
      OthersStay(states[j - 1], moves[j - 1].thread, moves[j - 1].action, moves[i].thread);
    }
  }

  /** Whoever takes the orphans takes all of them, and frees all that it has taken. */
  lemma AdoptedAreFreed(age: nat, n: nat, states: seq<State>, moves: seq<Move>, i: nat, j: nat)
    requires IsRun(age, n, states, moves) && i < j < |moves| && moves[i].action.SwapOrphans?
    requires moves[j] == Move(moves[i].thread, FreeAdopted)
    requires forall k :: i < k < j ==> moves[k].thread != moves[i].thread
    ensures states[i + 1].orphans == []
    ensures forall x :: x in states[i].orphans ==> Freed(x.item, true) in states[j + 1].freed
  {
    SwapAdopts(states[i], moves[i].thread);
    StaysAdopting(age, n, states, moves, i, j);
    var orphans := states[i].orphans;
    forall x | x in orphans ensures Freed(x.item, true) in states[j + 1].freed {
      var k :| 0 <= k < |orphans| && orphans[k] == x;
      assert LogFreed(orphans, true)[k] == Freed(x.item, true);
    }
  }
}
