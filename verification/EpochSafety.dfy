/**
 Grace-period safety of the protocol: in every run, whatever the interleaving, no object is freed
 from a bag while a reader that announced itself before the object was unlinked is still pinned.
 */
module EpochSafety {
  import opened Wrappers
  import opened EpochProtocol

  ghost predicate Pinned(s: State, r: nat) {
    r < |s.records| && s.records[r].announced.Some?
  }

  /** The reader on record r announced itself before `item` left the structure, or `item` is still in it. */
  ghost predicate MayHold(s: State, r: nat, item: Object) {
    Pinned(s, r) && item !in s.records[r].seen
  }

  /** No reader may hold an object that was freed from a bag. */
  ghost predicate GraceHolds(s: State) {
    forall r: nat, f :: Pinned(s, r) && f in s.freed && !f.orphan ==> !MayHold(s, r, f.item)
  }

  // ---- ownership of records ----

  /** A thread is pinned exactly while its record announces an epoch. */
  ghost predicate Owner(s: State, thread: Thread) {
    if thread.record.Some? then
      && thread.record.value < |s.records|
      && s.records[thread.record.value].inUse
      && (s.records[thread.record.value].announced.Some? <==> thread.nesting > 0)
      && (thread.pc.PinLoaded? || thread.pc.Exiting? ==> thread.nesting == 0)
    else
      && thread.nesting == 0
      && !thread.pc.PinLoaded? && !thread.pc.RetireLoaded? && !thread.pc.ReclaimLoaded? && !thread.pc.Exiting?
  }

  ghost predicate RecordsOwned(s: State) {
    && (forall r :: 0 <= r < |s.records| ==> |s.records[r].bags| == RING)
    && (forall r :: 0 <= r < |s.records| && !s.records[r].inUse ==> s.records[r].announced.None?)
    && (forall t :: 0 <= t < |s.threads| ==> Owner(s, s.threads[t]))
    && (forall t, t' :: 0 <= t < t' < |s.threads| && s.threads[t].record.Some? ==>
          s.threads[t].record != s.threads[t'].record)
  }

  // ---- epochs ----

  /** The reader's half: the epoch has moved at most once since the announcement, even a stale one. */
  ghost predicate EpochClose(s: State, r: nat) {
    Pinned(s, r) ==>
      && s.records[r].announced.value <= s.records[r].pinGlobal <= s.global <= s.records[r].pinGlobal + 1
      && s.records[r].seen <= s.unlinked
  }

  ghost predicate EpochsClose(s: State) {
    && (forall r :: 0 <= r < |s.records| ==> EpochClose(s, r))
    && (forall t :: 0 <= t < |s.threads| && s.threads[t].pc.PinLoaded? ==> s.threads[t].pc.epoch <= s.global)
  }

  /** The scanner's half: a scan that could still win the exchange has not passed a lagging reader. */
  ghost predicate ScanBehind(s: State, pc: Pc) {
    && (pc.ScanLoaded? ==> pc.epoch <= s.global)
    && (pc.Scanning? ==>
          && pc.epoch <= s.global && pc.left <= |s.records|
          && (pc.epoch == s.global ==>
                forall r: nat :: Pinned(s, r) && s.records[r].pinGlobal + 1 == s.global ==> r < pc.left))
  }

  ghost predicate ScansBehind(s: State) {
    forall t :: 0 <= t < |s.threads| ==> ScanBehind(s, s.threads[t].pc)
  }

  // ---- retired objects ----

  /** Whoever may hold `item` announced itself no later than the epoch its retirer loaded. */
  ghost predicate RetiredAfter(s: State, item: Object, epoch: nat) {
    epoch <= s.global && item in s.unlinked
    && forall r: nat :: Pinned(s, r) && MayHold(s, r, item) ==> s.records[r].pinGlobal <= epoch
  }

  ghost predicate BagsRetired(s: State) {
    forall r, i, k :: 0 <= r < |s.records| && 0 <= i < |s.records[r].bags| && 0 <= k < |s.records[r].bags[i]| ==>
      var x := s.records[r].bags[i][k]; x.epoch % RING == i && RetiredAfter(s, x.item, x.epoch)
  }

  ghost predicate Retiring(s: State, pc: Pc) {
    && (pc.Unlinked? ==> pc.item in s.unlinked)
    && (pc.RetireLoaded? ==> RetiredAfter(s, pc.item, pc.epoch))
  }

  ghost predicate RetiringOk(s: State) {
    forall t :: 0 <= t < |s.threads| ==> Retiring(s, s.threads[t].pc)
  }

  // ---- the freeing threads ----

  ghost predicate BagsUpTo(record: Record, epoch: nat) {
    forall i, k :: 0 <= i < |record.bags| && 0 <= k < |record.bags[i]| ==> record.bags[i][k].epoch <= epoch
  }

  function Rounds(pc: Pc): Option<Goal> {
    match pc
    case Advancing(goal) => Some(goal)
    case ScanLoaded(goal, _) => Some(goal)
    case Scanning(goal, _, _) => Some(goal)
    case Advanced(goal) => Some(goal)
    case _ => None
  }

  ghost predicate OwnBagsUpTo(s: State, thread: Thread, epoch: nat) {
    thread.record.Some? && thread.record.value < |s.records| ==> BagsUpTo(s.records[thread.record.value], epoch)
  }

  /** How far a synchronize has moved the epoch. */
  ghost predicate RoundsCounted(s: State, pc: Pc) {
    var goal := Rounds(pc);
    goal.Some? && goal.value.Synchronize? ==>
      var reached := goal.value.start + goal.value.rounds;
      && reached <= s.global
      && (pc.ScanLoaded? || pc.Scanning? ==> reached <= pc.epoch)
      && (pc.Advanced? ==> reached + 1 <= s.global)
  }

  /** What a thread that is about to free its bags knows about them. */
  ghost predicate Freeing(s: State, thread: Thread) {
    && (thread.pc.ReclaimLoaded? ==> thread.pc.epoch <= s.global && OwnBagsUpTo(s, thread, thread.pc.epoch))
    && (Rounds(thread.pc).Some? && Rounds(thread.pc).value.Synchronize? ==>
          OwnBagsUpTo(s, thread, Rounds(thread.pc).value.start))
  }

  ghost predicate FreeingOk(s: State) {
    && (forall t :: 0 <= t < |s.threads| ==> Freeing(s, s.threads[t]))
    && (forall t :: 0 <= t < |s.threads| ==> RoundsCounted(s, s.threads[t].pc))
  }

  ghost predicate FreedUnlinked(s: State) {
    && (forall x :: x in s.orphans ==> x.item in s.unlinked)
    && (forall t, x :: 0 <= t < |s.threads| && s.threads[t].pc.Adopting? && x in s.threads[t].pc.adopted ==>
         x.item in s.unlinked)
    && (forall f :: f in s.freed ==> f.item in s.unlinked)
  }

  /** Records not owned by any thread hold nothing. */
  ghost predicate IdleRecordsEmpty(s: State) {
    && (forall r :: 0 <= r < |s.records| && !s.records[r].inUse ==> BagsEmpty(s.records[r]))
    && (forall t :: 0 <= t < |s.threads| && s.threads[t].pc.Exiting? && Owns(s, t) ==>
          BagsEmpty(s.records[Own(s, t)]))
  }

  ghost predicate Inv(s: State) {
    && RecordsOwned(s) && EpochsClose(s) && ScansBehind(s)
    && BagsRetired(s) && RetiringOk(s) && FreeingOk(s) && FreedUnlinked(s) && IdleRecordsEmpty(s)
    && GraceHolds(s)
  }

  // ---- the freed objects of one step ----

  lemma PourIn(bags: seq<seq<Retired>>, x: Retired)
    requires x in Pour(bags)
    ensures exists i, k :: 0 <= i < |bags| && 0 <= k < |bags[i]| && bags[i][k] == x
  {
    if x in bags[0] {
      var k :| 0 <= k < |bags[0]| && bags[0][k] == x;
    } else {
      PourIn(bags[1..], x);
      var i, k :| 0 <= i < |bags[1..]| && 0 <= k < |bags[1..][i]| && bags[1..][i][k] == x;
      assert bags[i + 1][k] == x;
    }
  }

  lemma LogFreedIn(bag: seq<Retired>, orphan: bool, f: Freed)
    requires f in LogFreed(bag, orphan)
    ensures f.orphan == orphan && exists k :: 0 <= k < |bag| && bag[k].item == f.item
  {
    var k :| 0 <= k < |bag| && LogFreed(bag, orphan)[k] == f;
    assert bag[k].item == f.item;
  }

  /** Two epochs after its retirement nobody may hold an object. */
  lemma TwoEpochsLater(s: State, item: Object, epoch: nat, r: nat)
    requires EpochsClose(s) && RetiredAfter(s, item, epoch) && epoch + 2 <= s.global && Pinned(s, r)
    ensures !MayHold(s, r, item)
  {
    assert EpochClose(s, r);
  }

  /** Every object in the bag that try_reclaim picks was retired at least two epochs before its load. */
  lemma SafeBagIsOld(s: State, t: nat, k: nat)
    requires RecordsOwned(s) && BagsRetired(s) && FreeingOk(s) && Enabled(s, t, FreeBag)
    requires k < |s.records[Own(s, t)].bags[SafeBag(s.threads[t].pc.epoch)]|
    ensures
      var x := s.records[Own(s, t)].bags[SafeBag(s.threads[t].pc.epoch)][k];
      RetiredAfter(s, x.item, x.epoch) && x.epoch + 2 <= s.global
  {
    var e := s.threads[t].pc.epoch;
    var x := s.records[Own(s, t)].bags[SafeBag(e)][k];
    assert x.epoch <= e && x.epoch % RING == (e + 1) % RING;
    SameResidue(x.epoch, e);
  }

  lemma SameResidue(x: nat, e: nat)
    requires x <= e && x % 3 == (e + 1) % 3
    ensures x + 2 <= e
  {
  }

  // ---- each invariant is kept by every step ----

  /** Two threads never own one record. */
  lemma DistinctRecords(s: State, t: nat, u: nat)
    requires RecordsOwned(s) && t < |s.threads| && u < |s.threads|
    ensures t != u && s.threads[t].record.Some? ==> s.threads[t].record != s.threads[u].record
    ensures t != u && s.threads[u].record.Some? ==> s.threads[t].record != s.threads[u].record
  {
    if t < u {
    } else {
    }
  }

  lemma OwnedBy(s: State, t: nat)
    requires RecordsOwned(s) && t < |s.threads|
    ensures Owner(s, s.threads[t])
  {
  }

  lemma StepKeepsOwner(s: State, t: nat, a: Action)
    requires RecordsOwned(s) && Enabled(s, t, a)
    ensures Owner(Apply(s, t, a), Apply(s, t, a).threads[t])
  {
    OwnedBy(s, t);
    hide RecordsOwned;
  }

  lemma StepKeepsOtherOwner(s: State, t: nat, a: Action, u: nat)
    requires RecordsOwned(s) && Enabled(s, t, a) && u < |s.threads| && u != t
    ensures Owner(Apply(s, t, a), s.threads[u])
  {
    assert Owner(s, s.threads[u]) && Owner(s, s.threads[t]);
    DistinctRecords(s, t, u);
  }

  lemma StepKeepsDistinct(s: State, t: nat, a: Action, u: nat, u': nat)
    requires RecordsOwned(s) && Enabled(s, t, a) && u < u' < |s.threads|
    requires Apply(s, t, a).threads[u].record.Some?
    ensures Apply(s, t, a).threads[u].record != Apply(s, t, a).threads[u'].record
  {
    assert Owner(s, s.threads[u]) && Owner(s, s.threads[u']);
    assert s.threads[u].record.Some? ==> s.threads[u].record != s.threads[u'].record;
    hide RecordsOwned;
  }

  lemma StepKeepsRecords(s: State, t: nat, a: Action, r: nat)
    requires RecordsOwned(s) && Enabled(s, t, a) && r < |Apply(s, t, a).records|
    ensures var record := Apply(s, t, a).records[r];
      |record.bags| == RING && (record.inUse || record.announced.None?)
  {
    assert Owner(s, s.threads[t]);
  }

  lemma StepKeepsRecordsOwned(s: State, t: nat, a: Action)
    requires RecordsOwned(s) && Enabled(s, t, a)
    ensures RecordsOwned(Apply(s, t, a))
  {
    var s' := Apply(s, t, a);
    forall u | 0 <= u < |s'.threads| ensures Owner(s', s'.threads[u]) {
      if u == t { StepKeepsOwner(s, t, a); } else { StepKeepsOtherOwner(s, t, a, u); }
    }
    forall r | 0 <= r < |s'.records|
      ensures |s'.records[r].bags| == RING && (s'.records[r].inUse || s'.records[r].announced.None?)
    {
      StepKeepsRecords(s, t, a, r);
    }
    forall u, u' | 0 <= u < u' < |s'.threads| && s'.threads[u].record.Some?
      ensures s'.threads[u].record != s'.threads[u'].record
    {
      StepKeepsDistinct(s, t, a, u, u');
    }
  }

  /** What a step does to the reader on record r: it announces, or keeps what it announced, or is not pinned. */
  ghost predicate ReaderStep(s: State, t: nat, a: Action, s': State, r: nat) {
    Pinned(s', r) ==>
      if a.PinAnnounce? && Owns(s, t) && r == Own(s, t) then
        && s'.records[r].pinGlobal == s.global && s'.records[r].seen == s.unlinked
        && s.threads[t].pc.PinLoaded? && s'.records[r].announced.value == s.threads[t].pc.epoch
      else
        && Pinned(s, r) && s'.records[r].announced == s.records[r].announced
        && s'.records[r].pinGlobal == s.records[r].pinGlobal && s'.records[r].seen == s.records[r].seen
  }

  /** The epoch moves by one, and only when a scan that loaded the present epoch has passed every record. */
  ghost predicate EpochStep(s: State, t: nat, a: Action, s': State) {
    && s.unlinked <= s'.unlinked && |s.records| <= |s'.records| && |s'.threads| == |s.threads| && t < |s.threads|
    && (forall u :: 0 <= u < |s.threads| && u != t ==> s'.threads[u] == s.threads[u])
    && (s'.global == s.global ||
          (s'.global == s.global + 1 && a.ScanExchange? && s.threads[t].pc.Scanning?
           && s.threads[t].pc.left == 0 && s.threads[t].pc.epoch == s.global))
  }

  lemma StepReader(s: State, t: nat, a: Action, r: nat)
    requires RecordsOwned(s) && Enabled(s, t, a)
    ensures ReaderStep(s, t, a, Apply(s, t, a), r)
  {
    hide RecordsOwned;
    OwnedBy(s, t);
  }

  lemma StepEpoch(s: State, t: nat, a: Action)
    requires Enabled(s, t, a)
    ensures EpochStep(s, t, a, Apply(s, t, a))
  {
  }

  lemma StepKeepsEpochClose(s: State, t: nat, a: Action, s': State, r: nat)
    requires EpochsClose(s) && ScansBehind(s) && ReaderStep(s, t, a, s', r) && EpochStep(s, t, a, s')
    ensures EpochClose(s', r)
  {
    assert r < |s.records| ==> EpochClose(s, r);
    assert ScanBehind(s, s.threads[t].pc);
  }

  lemma StepKeepsEpochsClose(s: State, t: nat, a: Action)
    requires RecordsOwned(s) && EpochsClose(s) && ScansBehind(s) && Enabled(s, t, a)
    ensures EpochsClose(Apply(s, t, a))
  {
    hide RecordsOwned, ScansBehind, EpochClose, ReaderStep, EpochStep;
    var s' := Apply(s, t, a);
    StepEpoch(s, t, a);
    forall r: nat ensures EpochClose(s', r) {
      StepReader(s, t, a, r);
      StepKeepsEpochClose(s, t, a, s', r);
    }
  }

  /** Where a scan stands after its own step. */
  lemma StepOwnScan(s: State, t: nat, a: Action)
    requires Enabled(s, t, a)
    ensures var pc, pc' := s.threads[t].pc, Apply(s, t, a).threads[t].pc;
      && (pc'.ScanLoaded? ==> pc'.epoch == s.global || pc' == pc)
      && (pc'.Scanning? ==>
            || (pc' == pc && a.Register?)
            || (pc.ScanLoaded? && pc'.epoch == pc.epoch && pc'.left == |s.records|)
            || (a.ScanVisit? && pc.Scanning? && pc'.epoch == pc.epoch
                && pc'.left + 1 == pc.left && pc.left <= |s.records|
                && (s.records[pc'.left].announced.None? || s.records[pc'.left].announced.value == pc.epoch)))
      && (!a.Register? && (pc'.ScanLoaded? || pc'.Scanning?) ==> Apply(s, t, a).global == s.global && !a.PinAnnounce?)
  {
  }

  lemma StepKeepsScanBehind(s: State, t: nat, a: Action, u: nat)
    requires RecordsOwned(s) && EpochsClose(s) && ScansBehind(s) && Enabled(s, t, a) && u < |s.threads|
    ensures ScanBehind(Apply(s, t, a), Apply(s, t, a).threads[u].pc)
  {
    hide RecordsOwned, Enabled, Apply;
    var s' := Apply(s, t, a);
    StepEpoch(s, t, a);
    StepOwnScan(s, t, a);
    assert ScanBehind(s, s.threads[u].pc);
    forall r: nat | Pinned(s', r) && s'.records[r].pinGlobal + 1 == s'.global
      && s'.threads[u].pc.Scanning? && s'.threads[u].pc.epoch == s'.global
      ensures r < s'.threads[u].pc.left
    {
      StepReader(s, t, a, r);
      assert r < |s.records| ==> EpochClose(s, r);
    }
  }

  lemma StepKeepsScansBehind(s: State, t: nat, a: Action)
    requires RecordsOwned(s) && EpochsClose(s) && ScansBehind(s) && Enabled(s, t, a)
    ensures ScansBehind(Apply(s, t, a))
  {
    hide RecordsOwned, EpochsClose, ScanBehind, Apply;
    StepEpoch(s, t, a);
    forall u | 0 <= u < |Apply(s, t, a).threads| ensures ScanBehind(Apply(s, t, a), Apply(s, t, a).threads[u].pc) {
      StepKeepsScanBehind(s, t, a, u);
    }
  }

  lemma StepKeepsRetired(s: State, t: nat, a: Action, item: Object, epoch: nat)
    requires RecordsOwned(s) && EpochsClose(s) && RetiredAfter(s, item, epoch) && Enabled(s, t, a)
    ensures RetiredAfter(Apply(s, t, a), item, epoch)
  {
    hide RecordsOwned, EpochsClose, Apply;
    var s' := Apply(s, t, a);
    StepEpoch(s, t, a);
    forall r: nat | Pinned(s', r) && MayHold(s', r, item) ensures s'.records[r].pinGlobal <= epoch {
      StepReader(s, t, a, r);
    }
  }

  lemma StepKeepsBagsRetired(s: State, t: nat, a: Action)
    requires RecordsOwned(s) && EpochsClose(s) && BagsRetired(s) && RetiringOk(s) && Enabled(s, t, a)
    ensures BagsRetired(Apply(s, t, a))
  {
    var s' := Apply(s, t, a);
    forall r, i, k | 0 <= r < |s'.records| && 0 <= i < |s'.records[r].bags| && 0 <= k < |s'.records[r].bags[i]|
      ensures var x := s'.records[r].bags[i][k]; x.epoch % RING == i && RetiredAfter(s', x.item, x.epoch)
    {
      var x := s'.records[r].bags[i][k];
      if r < |s.records| && i < |s.records[r].bags| && k < |s.records[r].bags[i]| && x == s.records[r].bags[i][k] {
        StepKeepsRetired(s, t, a, x.item, x.epoch);
      } else {
        assert a.RetirePush?;
        assert Retiring(s, s.threads[t].pc);
        StepKeepsRetired(s, t, a, x.item, x.epoch);
      }
    }
  }

  lemma StepKeepsRetiringOk(s: State, t: nat, a: Action)
    requires RecordsOwned(s) && EpochsClose(s) && RetiringOk(s) && Enabled(s, t, a)
    ensures RetiringOk(Apply(s, t, a))
  {
    var s' := Apply(s, t, a);
    forall u | 0 <= u < |s'.threads| ensures Retiring(s', s'.threads[u].pc) {
      assert Retiring(s, s.threads[u].pc);
      hide RecordsOwned;
      var pc := s'.threads[u].pc;
      if pc.RetireLoaded? && s.threads[u].pc == pc {
        StepKeepsRetired(s, t, a, pc.item, pc.epoch);
      } else if pc.RetireLoaded? {
        // The epoch was loaded by this very step, so nobody announced later than it.
        forall r: nat | Pinned(s', r) && MayHold(s', r, pc.item) ensures s'.records[r].pinGlobal <= pc.epoch {
          assert EpochClose(s, r);
        }
      }
    }
  }

  /** A bag only grows by what its owner retires, at an epoch no later than the present one. */
  lemma OthersKeepBags(s: State, t: nat, a: Action, u: nat, epoch: nat)
    requires RecordsOwned(s) && Enabled(s, t, a) && u < |s.threads| && u != t
    requires OwnBagsUpTo(s, s.threads[u], epoch)
    ensures OwnBagsUpTo(Apply(s, t, a), s.threads[u], epoch)
  {
    assert Owner(s, s.threads[u]) && Owner(s, s.threads[t]);
    DistinctRecords(s, t, u);
  }

  lemma BagsUpToNow(s: State, t: nat)
    requires BagsRetired(s) && t < |s.threads|
    ensures OwnBagsUpTo(s, s.threads[t], s.global)
  {
    if s.threads[t].record.Some? && s.threads[t].record.value < |s.records| {
      var record := s.records[s.threads[t].record.value];
      forall i, k | 0 <= i < |record.bags| && 0 <= k < |record.bags[i]|
        ensures record.bags[i][k].epoch <= s.global
      {
        assert RetiredAfter(s, record.bags[i][k].item, record.bags[i][k].epoch);
      }
    }
  }

  lemma StepKeepsOwnFreeing(s: State, t: nat, a: Action)
    requires RecordsOwned(s) && BagsRetired(s) && FreeingOk(s) && IdleRecordsEmpty(s)
    requires Enabled(s, t, a)
    ensures Freeing(Apply(s, t, a), Apply(s, t, a).threads[t])
  {
    hide BagsRetired, RoundsCounted, BagsUpTo;
    assert Freeing(s, s.threads[t]);
    assert Owner(s, s.threads[t]);
    BagsUpToNow(s, t);
    NoBagsUpTo(s);
  }

  /** A thread that takes a record takes one whose bags are empty. */
  lemma NoBagsUpTo(s: State)
    requires IdleRecordsEmpty(s)
    ensures forall r, epoch: nat :: 0 <= r < |s.records| && !s.records[r].inUse ==>
      BagsUpTo(s.records[r].(inUse := true), epoch)
    ensures forall epoch: nat :: BagsUpTo(FRESH_RECORD, epoch)
  {
  }

  lemma StepKeepsOtherFreeing(s: State, t: nat, a: Action, u: nat)
    requires RecordsOwned(s) && FreeingOk(s) && Enabled(s, t, a) && u < |s.threads| && u != t
    ensures Freeing(Apply(s, t, a), s.threads[u])
  {
    assert Freeing(s, s.threads[u]);
    var pc := s.threads[u].pc;
    if pc.ReclaimLoaded? {
      OthersKeepBags(s, t, a, u, pc.epoch);
    } else if Rounds(pc).Some? && Rounds(pc).value.Synchronize? {
      OthersKeepBags(s, t, a, u, Rounds(pc).value.start);
    }
  }

  lemma StepKeepsRounds(s: State, t: nat, a: Action, u: nat)
    requires FreeingOk(s) && ScansBehind(s) && Enabled(s, t, a) && u < |s.threads|
    ensures RoundsCounted(Apply(s, t, a), Apply(s, t, a).threads[u].pc)
  {
    assert RoundsCounted(s, s.threads[u].pc);
    assert ScanBehind(s, s.threads[u].pc);
  }

  lemma StepKeepsFreeingOk(s: State, t: nat, a: Action)
    requires RecordsOwned(s) && ScansBehind(s) && BagsRetired(s)
    requires FreeingOk(s) && IdleRecordsEmpty(s) && Enabled(s, t, a)
    ensures FreeingOk(Apply(s, t, a))
  {
    var s' := Apply(s, t, a);
    forall u | 0 <= u < |s'.threads| ensures Freeing(s', s'.threads[u]) && RoundsCounted(s', s'.threads[u].pc) {
      if u == t { StepKeepsOwnFreeing(s, t, a); } else { StepKeepsOtherFreeing(s, t, a, u); }
      StepKeepsRounds(s, t, a, u);
    }
  }

  lemma StepKeepsFreedUnlinked(s: State, t: nat, a: Action)
    requires RecordsOwned(s) && BagsRetired(s) && FreedUnlinked(s) && Enabled(s, t, a)
    ensures FreedUnlinked(Apply(s, t, a))
  {
    OwnedBy(s, t);
    hide RecordsOwned;
    var s' := Apply(s, t, a);
    match a {
      case FreeBag =>
        var bag := s.records[Own(s, t)].bags[SafeBag(s.threads[t].pc.epoch)];
        forall f | f in LogFreed(bag, false) ensures f.item in s'.unlinked { LogFreedIn(bag, false, f); }
      case FreeAllBags =>
        var bags := s.records[Own(s, t)].bags;
        forall f | f in LogFreed(Pour(bags), false) ensures f.item in s'.unlinked {
          LogFreedIn(Pour(bags), false, f);
          var k :| 0 <= k < |Pour(bags)| && Pour(bags)[k].item == f.item;
          PourIn(bags, Pour(bags)[k]);
        }
      case FreeAdopted =>
        var bag := s.threads[t].pc.adopted;
        forall f | f in LogFreed(bag, true) ensures f.item in s'.unlinked { LogFreedIn(bag, true, f); }
      case HandOverBags =>
        var bags := s.records[Own(s, t)].bags;
        forall x | x in Pour(bags) ensures x.item in s'.unlinked { PourIn(bags, x); }
      case _ =>
    }
  }

  lemma StepKeepsIdleRecord(s: State, t: nat, a: Action, r: nat)
    requires RecordsOwned(s) && IdleRecordsEmpty(s) && Enabled(s, t, a)
    requires r < |Apply(s, t, a).records| && !Apply(s, t, a).records[r].inUse
    ensures BagsEmpty(Apply(s, t, a).records[r])
  {
    assert Owner(s, s.threads[t]);
    assert r < |s.records| ==> s.records[r].inUse || BagsEmpty(s.records[r]);
    if a.ReleaseRecord? && r == Own(s, t) {
      assert BagsEmpty(s.records[r]);
    } else if r < |s.records| {
      assert Apply(s, t, a).records[r].bags == s.records[r].bags;
    }
  }

  lemma StepKeepsExiting(s: State, t: nat, a: Action, u: nat)
    requires RecordsOwned(s) && IdleRecordsEmpty(s) && Enabled(s, t, a) && u < |s.threads|
    requires Apply(s, t, a).threads[u].pc.Exiting? && Owns(Apply(s, t, a), u)
    ensures BagsEmpty(Apply(s, t, a).records[Own(Apply(s, t, a), u)])
  {
    assert Owner(s, s.threads[t]) && Owner(s, s.threads[u]);
    DistinctRecords(s, t, u);
    hide RecordsOwned;
  }

  lemma StepKeepsIdleRecordsEmpty(s: State, t: nat, a: Action)
    requires RecordsOwned(s) && IdleRecordsEmpty(s) && Enabled(s, t, a)
    ensures IdleRecordsEmpty(Apply(s, t, a))
  {
    hide Enabled, RecordsOwned, BagsEmpty;
    StepEpoch(s, t, a);
    hide Apply;
    forall r | 0 <= r < |Apply(s, t, a).records| && !Apply(s, t, a).records[r].inUse
      ensures BagsEmpty(Apply(s, t, a).records[r])
    {
      StepKeepsIdleRecord(s, t, a, r);
    }
    forall u | 0 <= u < |Apply(s, t, a).threads| && Apply(s, t, a).threads[u].pc.Exiting? && Owns(Apply(s, t, a), u)
      ensures BagsEmpty(Apply(s, t, a).records[Own(Apply(s, t, a), u)])
    {
      StepKeepsExiting(s, t, a, u);
    }
  }

  /** What a synchronize frees, its caller retired at least four epochs before. */
  lemma SynchronizedBagsAreOld(s: State, t: nat, x: Retired)
    requires RecordsOwned(s) && BagsRetired(s) && FreeingOk(s) && Enabled(s, t, FreeAllBags)
    requires x in Pour(s.records[Own(s, t)].bags)
    ensures RetiredAfter(s, x.item, x.epoch) && x.epoch + RING + 1 <= s.global
  {
    PourIn(s.records[Own(s, t)].bags, x);
    assert RoundsCounted(s, s.threads[t].pc) && Freeing(s, s.threads[t]);
  }

  /** Nobody may hold what the step frees from a bag. */
  lemma FreedByStep(s: State, t: nat, a: Action, f: Freed, r: nat)
    requires Inv(s) && Enabled(s, t, a) && !f.orphan && Pinned(s, r)
    requires f in Apply(s, t, a).freed && f !in s.freed
    ensures !MayHold(s, r, f.item)
  {
    assert a.FreeBag? || a.FreeAllBags? || a.FreeAdopted?;
    if a.FreeAdopted? {
      LogFreedIn(s.threads[t].pc.adopted, true, f);
    } else if a.FreeBag? {
      var bag := s.records[Own(s, t)].bags[SafeBag(s.threads[t].pc.epoch)];
      LogFreedIn(bag, false, f);
      var k :| 0 <= k < |bag| && bag[k].item == f.item;
      SafeBagIsOld(s, t, k);
      TwoEpochsLater(s, f.item, bag[k].epoch, r);
    } else {
      var bag := Pour(s.records[Own(s, t)].bags);
      LogFreedIn(bag, false, f);
      var k :| 0 <= k < |bag| && bag[k].item == f.item;
      SynchronizedBagsAreOld(s, t, bag[k]);
      TwoEpochsLater(s, f.item, bag[k].epoch, r);
    }
  }

  lemma StepKeepsGrace(s: State, t: nat, a: Action)
    requires Inv(s) && Enabled(s, t, a)
    ensures GraceHolds(Apply(s, t, a))
  {
    var s' := Apply(s, t, a);
    forall r: nat, f | Pinned(s', r) && f in s'.freed && !f.orphan ensures !MayHold(s', r, f.item) {
      StepReader(s, t, a, r);
      if a.PinAnnounce? && Owns(s, t) && r == Own(s, t) {
        assert f in s.freed;
      } else {
        assert Pinned(s, r) && s'.records[r].seen == s.records[r].seen;
        if f !in s.freed {
          FreedByStep(s, t, a, f, r);
        }
      }
    }
  }

  lemma StepKeepsInv(s: State, t: nat, a: Action)
    requires Inv(s) && Enabled(s, t, a)
    ensures Inv(Apply(s, t, a))
  {
    StepKeepsRecordsOwned(s, t, a);
    StepKeepsEpochsClose(s, t, a);
    StepKeepsScansBehind(s, t, a);
    StepKeepsBagsRetired(s, t, a);
    StepKeepsRetiringOk(s, t, a);
    StepKeepsFreeingOk(s, t, a);
    StepKeepsFreedUnlinked(s, t, a);
    StepKeepsIdleRecordsEmpty(s, t, a);
    StepKeepsGrace(s, t, a);
  }

  lemma {:induction false} RunKeepsInv(age: nat, n: nat, states: seq<State>, moves: seq<Move>, i: nat)
    requires IsRun(age, n, states, moves) && i < |states|
    ensures Inv(states[i])
  {
    if i == 0 {
    } else {
      RunKeepsInv(age, n, states, moves, i - 1);
      StepKeepsInv(states[i - 1], moves[i - 1].thread, moves[i - 1].action);
    }
  }

  /** Grace-period safety: at no point of any run does a pinned reader hold an object freed from a bag. */
  lemma GracePeriodSafety(age: nat, n: nat, states: seq<State>, moves: seq<Move>)
    requires IsRun(age, n, states, moves)
    ensures forall i :: 0 <= i < |states| ==> GraceHolds(states[i])
  {
    forall i | 0 <= i < |states| ensures GraceHolds(states[i]) {
      RunKeepsInv(age, n, states, moves, i);
    }
  }
}
