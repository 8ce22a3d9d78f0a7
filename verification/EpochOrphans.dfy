/**
 Objects left behind by an exiting thread. take_orphans frees them after a single successful advance, without asking
 for their epoch, so grace-period safety extends to them only if they are old enough when they are left behind: two
 epochs suffice, and one does not.
 */
module EpochOrphans {
  import opened Wrappers
  import opened EpochProtocol
  import opened EpochSafety

  /** GraceHolds without the exception for orphans. */
  ghost predicate GraceHoldsForAll(s: State) {
    forall r: nat, f :: Pinned(s, r) && f in s.freed ==> !MayHold(s, r, f.item)
  }

  /** Nobody may hold an orphan any more: it was retired two epochs ago. */
  ghost predicate Old(s: State, bag: seq<Retired>) {
    forall x :: x in bag ==> RetiredAfter(s, x.item, x.epoch) && x.epoch + 2 <= s.global
  }

  ghost predicate OrphansOld(s: State) {
    && Old(s, s.orphans)
    && forall t :: 0 <= t < |s.threads| && s.threads[t].pc.Adopting? ==> Old(s, s.threads[t].pc.adopted)
  }

  ghost predicate OrphansSafe(s: State) {
    OrphansOld(s) && GraceHoldsForAll(s)
  }

  // ---- two epochs suffice ----

  lemma StepKeepsOld(s: State, t: nat, a: Action, bag: seq<Retired>)
    requires RecordsOwned(s) && EpochsClose(s) && Old(s, bag) && Enabled(s, t, a)
    ensures Old(Apply(s, t, a), bag)
  {
    hide RecordsOwned, EpochsClose, Enabled, Apply, RetiredAfter;
    StepEpoch(s, t, a);
    forall x | x in bag ensures RetiredAfter(Apply(s, t, a), x.item, x.epoch) {
      StepKeepsRetired(s, t, a, x.item, x.epoch);
    }
  }

  /** Bags of that age hold only old objects. */
  lemma AgedBagsAreOld(s: State, r: nat)
    requires BagsRetired(s) && r < |s.records| && Aged(s.records[r].bags, 2, s.global)
    ensures Old(s, Pour(s.records[r].bags))
  {
    forall x | x in Pour(s.records[r].bags) ensures RetiredAfter(s, x.item, x.epoch) && x.epoch + 2 <= s.global {
      PourIn(s.records[r].bags, x);
    }
  }

  lemma OldTogether(s: State, a: seq<Retired>, b: seq<Retired>)
    requires Old(s, a) && Old(s, b)
    ensures Old(s, a + b)
  {
  }

  /** Where the orphans of the next state come from. */
  lemma OrphansFrom(s: State, t: nat, a: Action)
    requires Enabled(s, t, a)
    ensures var s' := Apply(s, t, a);
      && s'.orphans == (if a.HandOverBags? then s.orphans + Pour(s.records[Own(s, t)].bags)
                        else if a.SwapOrphans? then [] else s.orphans)
      && forall u :: 0 <= u < |s'.threads| && s'.threads[u].pc.Adopting? ==>
           s'.threads[u].pc.adopted == (if a.SwapOrphans? && u == t then s.orphans else s.threads[u].pc.adopted)
           && ((a.SwapOrphans? && u == t) || s.threads[u].pc.Adopting?)
  {
  }

  lemma StepKeepsOrphansOld(age: nat, s: State, t: nat, a: Action)
    requires Inv(s) && OrphansOld(s) && age >= 2 && Allowed(age, s, t, a)
    ensures OrphansOld(Apply(s, t, a))
  {
    hide Inv, RecordsOwned, EpochsClose, Apply, Old, BagsRetired;
    InvParts(s);
    var s' := Apply(s, t, a);
    StepEpoch(s, t, a);
    OrphansFrom(s, t, a);
    StepKeepsOld(s, t, a, s.orphans);
    if a.HandOverBags? {
      var bags := s.records[Own(s, t)].bags;
      AgedBagsAreOld(s, Own(s, t));
      OldTogether(s, s.orphans, Pour(bags));
      StepKeepsOld(s, t, a, s.orphans + Pour(bags));
    }
    NothingIsOld(s');
    forall u | 0 <= u < |s'.threads| && s'.threads[u].pc.Adopting? ensures Old(s', s'.threads[u].pc.adopted) {
      if s.threads[u].pc.Adopting? {
        StepKeepsOld(s, t, a, s.threads[u].pc.adopted);
      }
    }
  }

  lemma NothingIsOld(s: State)
    ensures Old(s, [])
  {
  }

  lemma InvParts(s: State)
    requires Inv(s)
    ensures RecordsOwned(s) && EpochsClose(s) && BagsRetired(s) && FreedUnlinked(s)
  {
  }

  /** Nobody may hold what a step frees, orphan or not. */
  lemma AnyFreedByStep(s: State, t: nat, a: Action, f: Freed, r: nat)
    requires Inv(s) && OrphansOld(s) && Enabled(s, t, a) && Pinned(s, r)
    requires f in Apply(s, t, a).freed && f !in s.freed
    ensures !MayHold(s, r, f.item)
  {
    if a.FreeAdopted? {
      hide Inv;
      InvParts(s);
      var adopted := s.threads[t].pc.adopted;
      LogFreedIn(adopted, true, f);
      var k :| 0 <= k < |adopted| && adopted[k].item == f.item;
      TwoEpochsLater(s, f.item, adopted[k].epoch, r);
    } else {
      OnlyAdoptedAreOrphans(s, t, a, f);
      FreedByStep(s, t, a, f, r);
    }
  }

  lemma OnlyAdoptedAreOrphans(s: State, t: nat, a: Action, f: Freed)
    requires Enabled(s, t, a) && !a.FreeAdopted? && f in Apply(s, t, a).freed && f !in s.freed
    ensures !f.orphan
  {
    assert a.FreeBag? || a.FreeAllBags?;
    if a.FreeBag? {
      LogFreedIn(s.records[Own(s, t)].bags[SafeBag(s.threads[t].pc.epoch)], false, f);
    } else {
      LogFreedIn(Pour(s.records[Own(s, t)].bags), false, f);
    }
  }

  lemma StepKeepsGraceForAll(s: State, t: nat, a: Action)
    requires Inv(s) && OrphansSafe(s) && Enabled(s, t, a)
    ensures GraceHoldsForAll(Apply(s, t, a))
  {
    hide Inv, RecordsOwned, Apply, Enabled, OrphansOld;
    InvParts(s);
    var s' := Apply(s, t, a);
    forall r: nat, f | Pinned(s', r) && f in s'.freed ensures !MayHold(s', r, f.item) {
      StepReader(s, t, a, r);
      if a.PinAnnounce? && Owns(s, t) && r == Own(s, t) {
        AnnouncingFreesNothing(s, t);
        assert f.item in s.unlinked;
      } else if f !in s.freed {
        AnyFreedByStep(s, t, a, f, r);
      }
    }
  }

  lemma AnnouncingFreesNothing(s: State, t: nat)
    requires Enabled(s, t, PinAnnounce)
    ensures Apply(s, t, PinAnnounce).freed == s.freed
  {
  }

  lemma StepKeepsOrphansSafe(age: nat, s: State, t: nat, a: Action)
    requires Inv(s) && OrphansSafe(s) && age >= 2 && Allowed(age, s, t, a)
    ensures OrphansSafe(Apply(s, t, a))
  {
    StepKeepsOrphansOld(age, s, t, a);
    StepKeepsGraceForAll(s, t, a);
  }

  lemma {:induction false} AgedRunsAreSafe(age: nat, n: nat, states: seq<State>, moves: seq<Move>, i: nat)
    requires IsRun(age, n, states, moves) && i < |states| && age >= 2
    ensures OrphansSafe(states[i])
  {
    if i == 0 {
    } else {
      hide Inv, OrphansSafe, Allowed, Apply;
      AgedRunsAreSafe(age, n, states, moves, i - 1);
      RunKeepsInv(age, n, states, moves, i - 1);
      StepKeepsOrphansSafe(age, states[i - 1], moves[i - 1].thread, moves[i - 1].action);
    }
  }

  /** A thread can tell from its own bags and the global epoch that its garbage is old enough: only the bag that
      try_reclaim would pick may hold something. */
  lemma OnlySafeBagFilled(s: State, r: nat)
    requires BagsRetired(s) && r < |s.records| && |s.records[r].bags| == RING
    requires forall i :: 0 <= i < RING && i != SafeBag(s.global) ==> s.records[r].bags[i] == []
    ensures Aged(s.records[r].bags, 2, s.global)
  {
    var bags: seq<seq<Retired>> := s.records[r].bags;
    forall i, k | 0 <= i < |bags| && 0 <= k < |bags[i]| ensures bags[i][k].epoch + 2 <= s.global {
      assert i == SafeBag(s.global);
      assert RetiredAfter(s, bags[i][k].item, bags[i][k].epoch) && bags[i][k].epoch % RING == i;
      SameResidue(bags[i][k].epoch, s.global);
    }
  }

  lemma EmptyPour(bags: seq<seq<Retired>>)
    requires forall i :: 0 <= i < |bags| ==> bags[i] == []
    ensures Pour(bags) == []
  {
  }

  // ---- a run that frees an object under a reader ----

  /** Thread 0 reads throughout. Thread 1 unlinks and retires object 7. Thread 2 advances, after which the object is
      one epoch old, and thread 1 exits. Then thread 2 goes on with its attempt and frees the orphan. */
  const VICTIM: Object := 7

  const READER_PINS: seq<Move> := [Move(0, Register(None)), Move(0, PinLoad), Move(0, PinAnnounce)]
  const RETIRER_RETIRES: seq<Move> := [
    Move(1, Unlink(VICTIM)), Move(1, Register(None)), Move(1, RetireLoad), Move(1, RetirePush)]
  const SCAN_SUCCEEDS: seq<Move> := [
    Move(2, StartReclaim), Move(2, ScanLoadEpoch), Move(2, ScanLoadHead), Move(2, ScanVisit), Move(2, ScanVisit),
    Move(2, ScanExchange)]
  const RETIRER_EXITS: seq<Move> := [Move(1, HandOverBags), Move(1, ReleaseRecord)]
  const ORPHAN_FREED: seq<Move> := [
    Move(2, Register(Some(1))), Move(2, ReclaimLoad), Move(2, FreeBag), Move(2, SwapOrphans), Move(2, FreeAdopted)]

  const NOBODY := Thread(None, 0, Idle)
  const READING := Thread(Some(0), 1, Idle)
  const READER := Record(Some(0), true, [[], [], []], 0, {})
  const LEFT := Record(None, false, [[], [], []], 0, {})
  const GARBAGE := [Retired(VICTIM, 0)]
  const FULL := Record(None, true, [GARBAGE, [], []], 0, {})

  const PINNED := State(0, [READER], [READING, NOBODY, NOBODY], [], {}, [])
  const BAGGED := State(0, [READER, FULL], [READING, Thread(Some(1), 0, Idle), NOBODY], [], {VICTIM}, [])
  const ADVANCED := State(
    1, [READER, FULL], [READING, Thread(Some(1), 0, Idle), Thread(None, 0, Advanced(Reclaim))], [], {VICTIM}, [])
  const EXITED := State(
    1, [READER, LEFT], [READING, NOBODY, Thread(None, 0, Advanced(Reclaim))], GARBAGE, {VICTIM}, [])
  const FREED := State(
    1, [READER, FRESH_RECORD], [READING, NOBODY, Thread(Some(1), 0, Idle)], [], {VICTIM}, [Freed(VICTIM, true)])

  /** `states` follow one another by `moves`, from `s` to `s'`, with garbage one epoch old at every exit. */
  ghost predicate Segment(s: State, states: seq<State>, moves: seq<Move>, s': State) {
    && |states| == |moves| + 1 && states[0] == s && states[|moves|] == s'
    && forall i :: 0 <= i < |moves| ==>
         && Allowed(1, states[i], moves[i].thread, moves[i].action)
         && states[i + 1] == Apply(states[i], moves[i].thread, moves[i].action)
  }

  lemma Join(s: State, left: seq<State>, m: seq<Move>, s': State, right: seq<State>, m': seq<Move>, s'': State)
    requires Segment(s, left, m, s') && Segment(s', right, m', s'')
    ensures Segment(s, left + right[1..], m + m', s'')
  {
    var states, moves := left + right[1..], m + m';
    forall i | 0 <= i < |moves|
      ensures Allowed(1, states[i], moves[i].thread, moves[i].action)
      ensures states[i + 1] == Apply(states[i], moves[i].thread, moves[i].action)
    {
      if i >= |m| {
        assert states[i] == right[i - |m|] && states[i + 1] == right[i - |m| + 1] && moves[i] == m'[i - |m|];
      }
    }
  }

  lemma ReaderPins() returns (states: seq<State>)
    ensures Segment(Start(3), states, READER_PINS, PINNED)
  {
    var s := Start(3);
    assert s.threads == [NOBODY, NOBODY, NOBODY];
    var s1 := Apply(s, 0, Register(None));
    var s2 := Apply(s1, 0, PinLoad);
    var s3 := Apply(s2, 0, PinAnnounce);
    assert s3.records == [READER] && s3.threads == [READING, NOBODY, NOBODY];
    states := [s, s1, s2, s3];
  }

  lemma SetThird<T>(x: T, y: T, z: T, z': T)
    ensures [x, y, z][2 := z'] == [x, y, z']
  {
  }

  lemma SetSecond<T>(x: T, y: T, z: T, y': T)
    ensures [x, y, z][1 := y'] == [x, y', z]
  {
  }

  /** Thread 1 on its own record, while thread 0 is pinned. */
  function Retirer(record: Record, pc: Pc): State {
    State(0, [READER, record], [READING, Thread(Some(1), 0, pc), NOBODY], [], {VICTIM}, [])
  }

  lemma RetirerStep(record: Record, pc: Pc, a: Action, record': Record, pc': Pc)
    requires Enabled(Retirer(record, pc), 1, a)
    requires Apply(Retirer(record, pc), 1, a) == WithPc(Retirer(record', pc), 1, pc')
    ensures Apply(Retirer(record, pc), 1, a) == Retirer(record', pc')
  {
    SetSecond(READING, Thread(Some(1), 0, pc), NOBODY, Thread(Some(1), 0, pc'));
  }

  lemma RetirerRetires() returns (states: seq<State>)
    ensures Segment(PINNED, states, RETIRER_RETIRES, BAGGED)
  {
    var s1 := Apply(PINNED, 1, Unlink(VICTIM));
    SetSecond(READING, NOBODY, NOBODY, Thread(None, 0, Unlinked(VICTIM)));
    var s2 := Apply(s1, 1, Register(None));
    SetSecond(READING, Thread(None, 0, Unlinked(VICTIM)), NOBODY, Thread(Some(1), 0, Unlinked(VICTIM)));
    assert s2 == Retirer(FRESH_RECORD, Unlinked(VICTIM));
    RetirerStep(FRESH_RECORD, Unlinked(VICTIM), RetireLoad, FRESH_RECORD, RetireLoaded(VICTIM, 0));
    assert FRESH_RECORD.bags[0] + GARBAGE == GARBAGE && FRESH_RECORD.bags[0 := GARBAGE] == FULL.bags;
    assert [READER, FRESH_RECORD][1 := FULL] == [READER, FULL];
    RetirerStep(FRESH_RECORD, RetireLoaded(VICTIM, 0), RetirePush, FULL, Idle);
    states := [PINNED, s1, s2, Retirer(FRESH_RECORD, RetireLoaded(VICTIM, 0)), BAGGED];
  }

  /** The garbage is one epoch old when thread 1 exits. */
  lemma RetirerLeaves() returns (states: seq<State>)
    ensures Segment(ADVANCED, states, RETIRER_EXITS, EXITED)
  {
    assert Pour(FULL.bags) == GARBAGE by {
      assert FULL.bags[1..] == [[], []];
      EmptyPour(FULL.bags[1..]);
    }
    var scanner := Thread(None, 0, Advanced(Reclaim));
    var s1 := State(
      1, [READER, FRESH_RECORD], [READING, Thread(Some(1), 0, Exiting), scanner], GARBAGE, {VICTIM}, []);
    assert Apply(ADVANCED, 1, HandOverBags) == s1 by {
      assert [READER, FULL][1 := FRESH_RECORD] == [READER, FRESH_RECORD];
      SetSecond(READING, Thread(Some(1), 0, Idle), scanner, Thread(Some(1), 0, Exiting));
      assert ADVANCED.orphans + GARBAGE == GARBAGE;
    }
    assert Apply(s1, 1, ReleaseRecord) == EXITED by {
      assert [READER, FRESH_RECORD][1 := LEFT] == [READER, LEFT];
      SetSecond(READING, Thread(Some(1), 0, Exiting), scanner, NOBODY);
    }
    states := [ADVANCED, s1, EXITED];
  }

  /** Thread 2 at `pc` while thread 0 is still pinned and thread 1 has its garbage. */
  function Scanner(pc: Pc): State {
    BAGGED.(threads := [READING, Thread(Some(1), 0, Idle), Thread(None, 0, pc)])
  }

  lemma ScannerStep(pc: Pc, a: Action, pc': Pc)
    requires Enabled(Scanner(pc), 2, a) && Apply(Scanner(pc), 2, a) == WithPc(Scanner(pc), 2, pc')
    ensures Apply(Scanner(pc), 2, a) == Scanner(pc')
  {
    SetThird(READING, Thread(Some(1), 0, Idle), Thread(None, 0, pc), Thread(None, 0, pc'));
  }

  lemma ScanStarts() returns (states: seq<State>)
    ensures Segment(BAGGED, states, SCAN_SUCCEEDS[..3], Scanner(Scanning(Reclaim, 0, 2)))
  {
    var start, loaded := Advancing(Reclaim), ScanLoaded(Reclaim, 0);
    ScannerStep(Idle, StartReclaim, start);
    ScannerStep(start, ScanLoadEpoch, loaded);
    ScannerStep(loaded, ScanLoadHead, Scanning(Reclaim, 0, 2));
    states := [BAGGED, Scanner(start), Scanner(loaded), Scanner(Scanning(Reclaim, 0, 2))];
  }

  lemma ScanEnds() returns (states: seq<State>)
    ensures Segment(Scanner(Scanning(Reclaim, 0, 2)), states, SCAN_SUCCEEDS[3..], ADVANCED)
  {
    ScannerStep(Scanning(Reclaim, 0, 2), ScanVisit, Scanning(Reclaim, 0, 1));
    ScannerStep(Scanning(Reclaim, 0, 1), ScanVisit, Scanning(Reclaim, 0, 0));
    SetThird(
      READING, Thread(Some(1), 0, Idle), Thread(None, 0, Scanning(Reclaim, 0, 0)), Thread(None, 0, Advanced(Reclaim)));
    states := [Scanner(Scanning(Reclaim, 0, 2)), Scanner(Scanning(Reclaim, 0, 1)), Scanner(Scanning(Reclaim, 0, 0)),
               ADVANCED];
  }

  lemma ScanSucceeds() returns (states: seq<State>)
    ensures Segment(BAGGED, states, SCAN_SUCCEEDS, ADVANCED)
  {
    hide Segment;
    var first := ScanStarts();
    var second := ScanEnds();
    Join(BAGGED, first, SCAN_SUCCEEDS[..3], Scanner(Scanning(Reclaim, 0, 2)), second, SCAN_SUCCEEDS[3..], ADVANCED);
    states := first + second[1..];
    assert SCAN_SUCCEEDS[..3] + SCAN_SUCCEEDS[3..] == SCAN_SUCCEEDS;
  }

  /** Thread 2 on the reused record, freeing. */
  function Freer(pc: Pc, orphans: seq<Retired>, freed: seq<Freed>): State {
    State(1, [READER, FRESH_RECORD], [READING, NOBODY, Thread(Some(1), 0, pc)], orphans, {VICTIM}, freed)
  }

  lemma FreerStep(pc: Pc, a: Action, pc': Pc, orphans: seq<Retired>, orphans': seq<Retired>, freed: seq<Freed>)
    requires Enabled(Freer(pc, orphans, []), 2, a)
    requires Apply(Freer(pc, orphans, []), 2, a) == WithPc(Freer(pc, orphans', freed), 2, pc')
    ensures Apply(Freer(pc, orphans, []), 2, a) == Freer(pc', orphans', freed)
  {
    SetThird(READING, NOBODY, Thread(Some(1), 0, pc), Thread(Some(1), 0, pc'));
  }

  lemma FreeEmptyBag()
    ensures Enabled(Freer(ReclaimLoaded(1), GARBAGE, []), 2, FreeBag)
    ensures Apply(Freer(ReclaimLoaded(1), GARBAGE, []), 2, FreeBag) == Freer(TakingOrphans, GARBAGE, [])
  {
    var s := Freer(ReclaimLoaded(1), GARBAGE, []);
    assert FRESH_RECORD.bags[2 := []] == FRESH_RECORD.bags;
    assert s.records[1 := FRESH_RECORD] == s.records;
    assert s.freed + LogFreed([], false) == [];
    FreerStep(ReclaimLoaded(1), FreeBag, TakingOrphans, GARBAGE, GARBAGE, []);
  }

  /** Thread 2 takes over the record that thread 1 left. */
  lemma FreerRegisters()
    ensures Allowed(1, EXITED, 2, Register(Some(1)))
    ensures Apply(EXITED, 2, Register(Some(1))) == Freer(Advanced(Reclaim), GARBAGE, [])
  {
    SetThird(READING, NOBODY, Thread(None, 0, Advanced(Reclaim)), Thread(Some(1), 0, Advanced(Reclaim)));
    assert EXITED.records[1 := FRESH_RECORD] == [READER, FRESH_RECORD];
  }

  lemma FreerFrees()
    ensures Enabled(Freer(Adopting(GARBAGE), [], []), 2, FreeAdopted)
    ensures Apply(Freer(Adopting(GARBAGE), [], []), 2, FreeAdopted) == FREED
  {
    assert LogFreed(GARBAGE, true) == [Freed(VICTIM, true)];
    FreerStep(Adopting(GARBAGE), FreeAdopted, Idle, [], [], [Freed(VICTIM, true)]);
  }

  lemma OrphanFreed() returns (states: seq<State>)
    ensures Segment(EXITED, states, ORPHAN_FREED, FREED)
  {
    FreerRegisters();
    FreerStep(Advanced(Reclaim), ReclaimLoad, ReclaimLoaded(1), GARBAGE, GARBAGE, []);
    FreeEmptyBag();
    FreerStep(TakingOrphans, SwapOrphans, Adopting(GARBAGE), GARBAGE, [], []);
    FreerFrees();
    states := [EXITED, Freer(Advanced(Reclaim), GARBAGE, []), Freer(ReclaimLoaded(1), GARBAGE, []),
               Freer(TakingOrphans, GARBAGE, []), Freer(Adopting(GARBAGE), [], []), FREED];
  }

  /** Garbage one epoch old is not old enough: a run after which a pinned reader holds a freed object. */
  lemma ReaderHoldsFreedOrphan() returns (states: seq<State>, moves: seq<Move>)
    ensures IsRun(1, 3, states, moves)
    ensures !GraceHoldsForAll(states[|moves|])
  {
    var first := ReaderPins();
    var second := RetirerRetires();
    var third := ScanSucceeds();
    var fourth := RetirerLeaves();
    var fifth := OrphanFreed();
    Join(Start(3), first, READER_PINS, PINNED, second, RETIRER_RETIRES, BAGGED);
    states, moves := first + second[1..], READER_PINS + RETIRER_RETIRES;
    Join(Start(3), states, moves, BAGGED, third, SCAN_SUCCEEDS, ADVANCED);
    states, moves := states + third[1..], moves + SCAN_SUCCEEDS;
    Join(Start(3), states, moves, ADVANCED, fourth, RETIRER_EXITS, EXITED);
    states, moves := states + fourth[1..], moves + RETIRER_EXITS;
    Join(Start(3), states, moves, EXITED, fifth, ORPHAN_FREED, FREED);
    states, moves := states + fifth[1..], moves + ORPHAN_FREED;
    assert Pinned(FREED, 0) && Freed(VICTIM, true) in FREED.freed && MayHold(FREED, 0, VICTIM);
  }

  // ---- the threshold ----

  /** No run with garbage of this age at every exit ever frees an object that a pinned reader may hold. */
  ghost predicate AlwaysSafe(age: nat) {
    forall n: nat, states, moves, i ::
      IsRun(age, n, states, moves) && 0 <= i < |states| ==> GraceHoldsForAll(states[i])
  }

  lemma YoungerRuns(age: nat, more: nat, n: nat, states: seq<State>, moves: seq<Move>)
    requires IsRun(more, n, states, moves) && age <= more
    ensures IsRun(age, n, states, moves)
  {
  }

  /** Freeing orphans is safe exactly when garbage is two epochs old at the exit of its thread. */
  lemma SafeExactlyWhenAged(age: nat)
    ensures AlwaysSafe(age) <==> age >= 2
  {
    if age >= 2 {
      forall n: nat, states, moves, i | IsRun(age, n, states, moves) && 0 <= i < |states|
        ensures GraceHoldsForAll(states[i])
      {
        AgedRunsAreSafe(age, n, states, moves, i);
      }
    } else {
      var states, moves := ReaderHoldsFreedOrphan();
      YoungerRuns(age, 1, 3, states, moves);
      assert IsRun(age, 3, states, moves) && 0 <= |moves| < |states|;
    }
  }

  /** In particular it is safe when every thread drains its bags before it exits. */
  lemma DrainedRunsAreSafe(n: nat, states: seq<State>, moves: seq<Move>, i: nat)
    requires IsRun(0, n, states, moves) && i < |states|
    requires forall j :: 0 <= j < |moves| && moves[j].action.HandOverBags? ==>
      BagsEmpty(states[j].records[Own(states[j], moves[j].thread)])
    ensures GraceHoldsForAll(states[i])
  {
    hide Apply, Enabled, OrphansOld, GraceHoldsForAll;
    assert IsRun(2, n, states, moves);
    AgedRunsAreSafe(2, n, states, moves, i);
  }
}
