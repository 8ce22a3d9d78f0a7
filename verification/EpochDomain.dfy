/**
 epoch_domain as its one retiring thread sees it: the calls that count, push, scan and free, and what they add up to.
 The interleavings inside these calls are the subject of EpochProtocol; here a call runs to its end, and between
 calls other threads may pin and unpin as they like.

 A Ledger is the state that the calls change. The methods are proved to compute the functions on ledgers, and the
 accounts and the backlog bound are proved of every history of those.
 */
module EpochDomains {
  import opened Wrappers
  import opened EpochProtocol

  const RECLAIM_INTERVAL: nat := 64

  /** `freed` logs the objects whose deleter has run. */
  datatype Ledger = Ledger(
    epoch: nat,
    bags: seq<seq<Object>>,
    orphans: seq<Object>,
    since: nat,
    retired: nat,
    reclaimed: nat,
    freed: seq<Object>)

  ghost predicate Formed(l: Ledger) {
    |l.bags| == RING && l.since < RECLAIM_INTERVAL
  }

  function FreeBag(l: Ledger, i: nat): Ledger
    requires i < |l.bags|
  {
    l.(bags := l.bags[i := []], freed := l.freed + l.bags[i], reclaimed := l.reclaimed + |l.bags[i]|)
  }

  function FreeOrphans(l: Ledger): Ledger {
    l.(orphans := [], freed := l.freed + l.orphans, reclaimed := l.reclaimed + |l.orphans|)
  }

  /** try_reclaim, when the scan found every reader at the present epoch, or one that lags. */
  function Reclaimed(l: Ledger, advanced: bool): Ledger
    requires |l.bags| == RING
  {
    if advanced then FreeOrphans(FreeBag(l.(epoch := l.epoch + 1), SafeBag(l.epoch + 1))) else l
  }

  function Pushed(l: Ledger, item: Object, since: nat): Ledger
    requires |l.bags| == RING
  {
    var i := l.epoch % RING;
    l.(bags := l.bags[i := l.bags[i] + [item]], retired := l.retired + 1, since := since)
  }

  function RetiredInto(l: Ledger, item: Object, advanced: bool): Ledger
    requires |l.bags| == RING
  {
    if l.since + 1 >= RECLAIM_INTERVAL then Reclaimed(Pushed(l, item, 0), advanced)
    else Pushed(l, item, l.since + 1)
  }

  /** release_thread_record */
  function Exited(l: Ledger): Ledger
    requires |l.bags| == RING
  {
    l.(bags := [[], [], []], orphans := l.orphans + l.bags[0] + l.bags[1] + l.bags[2])
  }

  // ---- the imperative domain ----

  class ThreadRecord {
    var announced: Option<nat>
    var inUse: bool
    var nesting: nat
    var bags: seq<seq<Object>>

    constructor ()
      ensures announced == None && inUse && nesting == 0 && bags == [[], [], []]
    {
      announced := None;
      inUse := true;
      nesting := 0;
      bags := [[], [], []];
    }
  }

  class EpochDomain {
    var globalEpoch: nat
    var records: seq<ThreadRecord>
    var orphans: seq<Object>
    var retired: nat
    var reclaimed: nat
    var advances: nat
    var failedAdvances: nat
    var sinceAttempt: nat
    var threads: nat
    var freed: seq<Object>

    constructor ()
      ensures globalEpoch == 0 && records == [] && orphans == [] && sinceAttempt == 0
      ensures retired == 0 && reclaimed == 0 && failedAdvances == 0 && freed == []
    {
      globalEpoch := 0;
      records := [];
      orphans := [];
      retired := 0;
      reclaimed := 0;
      advances := 0;
      failedAdvances := 0;
      sinceAttempt := 0;
      threads := 0;
      freed := [];
    }

    /** Every reader that is pinned has announced the present epoch. */
    ghost predicate AllCurrent()
      reads this, records
    {
      forall r :: r in records && r.announced.Some? ==> r.announced.value == globalEpoch
    }

    ghost function Accounts(record: ThreadRecord): Ledger
      reads this, record
    {
      Ledger(globalEpoch, record.bags, orphans, sinceAttempt, retired, reclaimed, freed)
    }

    /** local_record: a thread keeps its record; else it takes over the first one that an exited thread left, with
        whatever epoch and bags that has; else it puts a new one in front of the list. */
    method LocalRecord(mine: ThreadRecord?) returns (record: ThreadRecord)
      modifies `records, `threads, records
      ensures mine != null ==> record == mine && unchanged(this) && unchanged(old(records))
      ensures mine == null ==> record.inUse && record.nesting == 0
      ensures mine == null ==>
        if forall r :: r in old(records) ==> old(r.inUse) then
          fresh(record) && records == [record] + old(records) && threads == old(threads) + 1 && unchanged(old(records))
        else
          && record in old(records) && !old(record.inUse) && unchanged(this)
          && record.announced == old(record.announced) && record.bags == old(record.bags)
          && forall r :: r in old(records) && r != record ==> unchanged(r)
    {
      if mine != null {
        return mine;
      }
      var i := 0;
      while i < |records|
        invariant i <= |records| && unchanged(this) && unchanged(old(records))
        invariant forall j :: 0 <= j < i ==> records[j].inUse
      {
        if !records[i].inUse {
          record := records[i];
          record.inUse := true;
          record.nesting := 0;
          return;
        }
        i := i + 1;
      }
      record := new ThreadRecord();
      records := [record] + records;
      threads := threads + 1;
    }

    /** read_guard: only the outermost guard of a thread announces. */
    method EnterGuard(record: ThreadRecord) returns (outermost: bool)
      requires record.nesting > 0 <==> record.announced.Some?
      modifies record`announced, record`nesting
      ensures record.nesting == old(record.nesting) + 1 && outermost == (old(record.nesting) == 0)
      ensures record.announced == if outermost then Some(globalEpoch) else old(record.announced)
      ensures record.announced.Some?
    {
      outermost := record.nesting == 0;
      if outermost {
        record.announced := Some(globalEpoch);
      }
      record.nesting := record.nesting + 1;
    }

    method LeaveGuard(record: ThreadRecord, outermost: bool)
      requires record.nesting > 0 && record.announced.Some? && (outermost <==> record.nesting == 1)
      modifies record`announced, record`nesting
      ensures record.nesting == old(record.nesting) - 1
      ensures record.announced == if outermost then None else old(record.announced)
      ensures record.nesting > 0 <==> record.announced.Some?
    {
      record.nesting := record.nesting - 1;
      if outermost {
        record.announced := None;
      }
    }

    /** try_advance: succeeds exactly when no pinned reader lags behind. */
    method TryAdvance() returns (advanced: bool)
      modifies `globalEpoch, `advances, `failedAdvances
      ensures advanced <==> old(AllCurrent())
      ensures globalEpoch == old(globalEpoch) + if advanced then 1 else 0
      ensures advances == old(advances) + if advanced then 1 else 0
      ensures failedAdvances == old(failedAdvances) + if advanced then 0 else 1
    {
      var epoch := globalEpoch;
      var i := 0;
      while i < |records|
        invariant i <= |records|
        invariant forall j :: 0 <= j < i ==> records[j].announced.Some? ==> records[j].announced.value == epoch
      {
        if records[i].announced.Some? && records[i].announced.value != epoch {
          assert records[i] in records;
          failedAdvances := failedAdvances + 1;
          return false;
        }
        i := i + 1;
      }
      globalEpoch := epoch + 1;
      advances := advances + 1;
      return true;
    }

    /** free_bag: runs the deleter of every object, in order, and counts. */
    method RunDeleters(bag: seq<Object>) returns (count: nat)
      modifies `freed, `reclaimed
      ensures freed == old(freed) + bag && reclaimed == old(reclaimed) + |bag| && count == |bag|
    {
      var i := 0;
      while i < |bag|
        invariant i <= |bag| && freed == old(freed) + bag[..i] && reclaimed == old(reclaimed)
      {
        freed := freed + [bag[i]];
        i := i + 1;
      }
      count := |bag|;
      if count != 0 {
        reclaimed := reclaimed + count;
      }
    }

    method TakeOrphans() returns (count: nat)
      modifies `orphans, `freed, `reclaimed
      ensures orphans == [] && freed == old(freed) + old(orphans) && reclaimed == old(reclaimed) + |old(orphans)|
      ensures count == |old(orphans)|
    {
      if orphans == [] {
        return 0;
      }
      var adopted := orphans;
      orphans := [];
      count := RunDeleters(adopted);
    }

    method TryReclaim(record: ThreadRecord) returns (count: nat)
      requires |record.bags| == RING
      modifies `globalEpoch, `advances, `failedAdvances, `orphans, `freed, `reclaimed, record`bags
      ensures Accounts(record) == Reclaimed(old(Accounts(record)), old(AllCurrent()))
      ensures var safe := old(globalEpoch + 2) % RING;
        if old(AllCurrent()) then
          && orphans == [] && freed == old(freed + record.bags[safe] + orphans)
          && record.bags == old(record.bags[safe := []]) && count == old(|record.bags[safe]| + |orphans|)
        else
          orphans == old(orphans) && freed == old(freed) && record.bags == old(record.bags) && count == 0
      ensures reclaimed == old(reclaimed) + count
      ensures failedAdvances == old(failedAdvances) + if old(AllCurrent()) then 0 else 1
    {
      var advanced := TryAdvance();
      if !advanced {
        return 0;
      }
      var safe := SafeBag(globalEpoch);
      count := RunDeleters(record.bags[safe]);
      record.bags := record.bags[safe := []];
      var more := TakeOrphans();
      count := count + more;
    }

    /** retire_raw: into the bag of the present epoch; every RECLAIM_INTERVAL-th call tries to reclaim. */
    method RetireRaw(record: ThreadRecord, item: Object)
      requires |record.bags| == RING
      modifies this, record`bags
      ensures records == old(records)
      ensures Accounts(record) == RetiredInto(old(Accounts(record)), item, old(AllCurrent()))
      ensures failedAdvances == old(failedAdvances) +
        if old(sinceAttempt) + 1 >= RECLAIM_INTERVAL && !old(AllCurrent()) then 1 else 0
    {
      var epoch := globalEpoch;
      record.bags := record.bags[epoch % RING := record.bags[epoch % RING] + [item]];
      retired := retired + 1;
      sinceAttempt := sinceAttempt + 1;
      if sinceAttempt >= RECLAIM_INTERVAL {
        sinceAttempt := 0;
        var count := TryReclaim(record);
      }
    }

    /** release_thread_record: what an exiting thread leaves becomes the domain's. */
    method ReleaseRecord(record: ThreadRecord)
      requires |record.bags| == RING
      modifies `orphans, record
      ensures orphans == old(orphans) + old(record.bags[0] + record.bags[1] + record.bags[2])
      ensures Accounts(record) == Exited(old(Accounts(record)))
      ensures record.announced == None && !record.inUse
    {
      var i := 0;
      while i < RING
        invariant i <= RING && |record.bags| == RING
        invariant forall j :: 0 <= j < RING ==> record.bags[j] == if j < i then [] else old(record.bags[j])
        invariant orphans == old(orphans) + (if i > 0 then old(record.bags[0]) else [])
                             + (if i > 1 then old(record.bags[1]) else []) + if i > 2 then old(record.bags[2]) else []
      {
        orphans := orphans + record.bags[i];
        record.bags := record.bags[i := []];
        i := i + 1;
      }
      assert record.bags == [[], [], []];
      record.announced := None;
      record.inUse := false;
    }
  }

  // ---- accounts ----

  function Pending(l: Ledger): nat
    requires |l.bags| == RING
  {
    |l.bags[0]| + |l.bags[1]| + |l.bags[2]| + |l.orphans|
  }

  ghost predicate Balanced(l: Ledger) {
    |l.bags| == RING && l.retired == l.reclaimed + Pending(l) && l.reclaimed == |l.freed|
  }

  /** What retiring threads do over time, one after the other: retire, try to reclaim now and then, and exit.
      `advanced` says whether the readers of the moment let the epoch move. */
  datatype Call = CallRetire(item: Object, advanced: bool) | CallReclaim(advanced: bool) | CallExit

  function Do(l: Ledger, call: Call): Ledger
    requires |l.bags| == RING
  {
    match call
    case CallRetire(item, advanced) => RetiredInto(l, item, advanced)
    case CallReclaim(advanced) => Reclaimed(l, advanced)
    case CallExit => Exited(l)
  }

  function History(l: Ledger, calls: seq<Call>): (r: Ledger)
    requires |l.bags| == RING
    ensures |r.bags| == RING
  {
    if calls == [] then l
    else Do(History(l, calls[..|calls| - 1]), calls[|calls| - 1])
  }

  const OPENED := Ledger(0, [[], [], []], [], 0, 0, 0, [])

  lemma ReclaimBalances(l: Ledger, advanced: bool)
    requires Balanced(l)
    ensures Balanced(Reclaimed(l, advanced))
  {
  }

  lemma CallBalances(l: Ledger, call: Call)
    requires Balanced(l)
    ensures Balanced(Do(l, call))
  {
    match call {
      case CallRetire(item, advanced) =>
        assert Balanced(Pushed(l, item, 0));
        hide Reclaimed;
        ReclaimBalances(Pushed(l, item, 0), advanced);
      case CallReclaim(advanced) => ReclaimBalances(l, advanced);
      case CallExit =>
    }
  }

  /** retired == reclaimed + pending after every call, whether or not advances fail. */
  lemma {:induction false} AlwaysBalanced(calls: seq<Call>)
    ensures Balanced(History(OPENED, calls))
  {
    if calls == [] {
    } else {
      AlwaysBalanced(calls[..|calls| - 1]);
      CallBalances(History(OPENED, calls[..|calls| - 1]), calls[|calls| - 1]);
    }
  }

  // ---- what becomes of each object ----

  /** Everything that was given to retire_raw. */
  function Retirements(calls: seq<Call>): seq<Object> {
    if calls == [] then []
    else
      var call := calls[|calls| - 1];
      Retirements(calls[..|calls| - 1]) + if call.CallRetire? then [call.item] else []
  }

  ghost function Objects(l: Ledger): multiset<Object>
    requires |l.bags| == RING
  {
    multiset(l.bags[0]) + multiset(l.bags[1]) + multiset(l.bags[2]) + multiset(l.orphans) + multiset(l.freed)
  }

  lemma ReclaimKeepsObjects(l: Ledger, advanced: bool)
    requires |l.bags| == RING
    ensures Objects(Reclaimed(l, advanced)) == Objects(l)
  {
  }

  lemma PushAddsObject(l: Ledger, item: Object, since: nat)
    requires |l.bags| == RING
    ensures Objects(Pushed(l, item, since)) == Objects(l) + multiset{item}
  {
  }

  lemma ExitKeepsObjects(l: Ledger)
    requires |l.bags| == RING
    ensures Objects(Exited(l)) == Objects(l)
  {
  }

  lemma CallKeepsObjects(l: Ledger, call: Call)
    requires |l.bags| == RING
    ensures Objects(Do(l, call)) == Objects(l) + if call.CallRetire? then multiset{call.item} else multiset{}
  {
    hide Objects, Reclaimed, Exited;
    match call {
      case CallRetire(item, advanced) =>
        PushAddsObject(l, item, 0);
        PushAddsObject(l, item, l.since + 1);
        ReclaimKeepsObjects(Pushed(l, item, 0), advanced);
      case CallReclaim(advanced) => ReclaimKeepsObjects(l, advanced);
      case CallExit => ExitKeepsObjects(l);
    }
  }

  /** Every object that was retired is in one bag, an orphan, or freed, as often as it was retired. */
  lemma {:induction false} NoObjectLost(calls: seq<Call>)
    ensures Objects(History(OPENED, calls)) == multiset(Retirements(calls))
    ensures History(OPENED, calls).retired == |Retirements(calls)|
  {
    if calls == [] {
    } else {
      hide Do, Objects;
      var before := calls[..|calls| - 1];
      NoObjectLost(before);
      CallKeepsObjects(History(OPENED, before), calls[|calls| - 1]);
    }
  }

  /** An object that was retired in this epoch is freed, or where the epoch will find it: in the bag for it, or an
      orphan that the next advance frees. */
  ghost predicate Due(l: Ledger, item: Object, epoch: nat) {
    && |l.bags| == RING && epoch <= l.epoch
    && (item in l.freed || (l.epoch <= epoch + 1 && (item in l.bags[epoch % RING] || item in l.orphans)))
  }

  lemma ReclaimKeepsDue(l: Ledger, advanced: bool, item: Object, epoch: nat)
    requires Due(l, item, epoch)
    ensures Due(Reclaimed(l, advanced), item, epoch)
  {
  }

  lemma PushKeepsDue(l: Ledger, other: Object, since: nat, item: Object, epoch: nat)
    requires Due(l, item, epoch)
    ensures Due(Pushed(l, other, since), item, epoch)
  {
  }

  lemma CallKeepsDue(l: Ledger, call: Call, item: Object, epoch: nat)
    requires Due(l, item, epoch)
    ensures Due(Do(l, call), item, epoch)
  {
    match call {
      case CallRetire(other, advanced) =>
        hide Due, Reclaimed, Pushed;
        PushKeepsDue(l, other, 0, item, epoch);
        PushKeepsDue(l, other, l.since + 1, item, epoch);
        assert Due(l, item, epoch);
        ReclaimKeepsDue(Pushed(l, other, 0), advanced, item, epoch);
      case CallReclaim(advanced) => ReclaimKeepsDue(l, advanced, item, epoch);
      case CallExit =>
    }
  }

  lemma RetiredIsDue(l: Ledger, item: Object, advanced: bool)
    requires |l.bags| == RING
    ensures Due(Do(l, CallRetire(item, advanced)), item, l.epoch)
  {
    var i := l.epoch % RING;
    forall since: nat ensures Due(Pushed(l, item, since), item, l.epoch) {
      var bag := l.bags[i] + [item];
      assert bag[|bag| - 1] == item;
      assert Pushed(l, item, since).bags[i] == bag;
    }
    hide Reclaimed;
    ReclaimKeepsDue(Pushed(l, item, 0), advanced, item, l.epoch);
  }

  lemma {:induction false} StaysDue(calls: seq<Call>, k: nat)
    requires k < |calls| && calls[k].CallRetire?
    ensures Due(History(OPENED, calls), calls[k].item, History(OPENED, calls[..k]).epoch)
  {
    hide Do, Due;
    var n := |calls| - 1;
    if k == n {
      RetiredIsDue(History(OPENED, calls[..n]), calls[n].item, calls[n].advanced);
    } else {
      StaysDue(calls[..n], k);
      assert calls[..n][..k] == calls[..k];
      CallKeepsDue(History(OPENED, calls[..n]), calls[n], calls[k].item, History(OPENED, calls[..k]).epoch);
    }
  }

  /** No object waits for more than two advances, whether or not its thread has exited. */
  lemma FreedInTime(calls: seq<Call>, k: nat)
    requires k < |calls| && calls[k].CallRetire?
    requires History(OPENED, calls).epoch >= History(OPENED, calls[..k]).epoch + 2
    ensures calls[k].item in History(OPENED, calls).freed
  {
    StaysDue(calls, k);
  }

  /** What exited threads leave is freed by the next advance. */
  lemma OrphansFreed(calls: seq<Call>)
    requires calls != []
    ensures var before, after := History(OPENED, calls[..|calls| - 1]), History(OPENED, calls);
      after.epoch > before.epoch ==>
        after.orphans == [] && forall item :: item in before.orphans ==> item in after.freed
  {
  }

  // ---- the backlog ----

  /** How many attempts that retire_raw made failed in the present epoch, and in the one before. */
  function Failures(calls: seq<Call>): (nat, nat) {
    if calls == [] then (0, 0)
    else
      var before := calls[..|calls| - 1];
      Counted(History(OPENED, before), Failures(before), calls[|calls| - 1])
  }

  function Counted(l: Ledger, failures: (nat, nat), call: Call): (nat, nat) {
    if call.CallExit? || (call.CallRetire? && l.since + 1 < RECLAIM_INTERVAL) then failures
    else if call.advanced then (0, failures.0)
    else if call.CallRetire? then (failures.0 + 1, failures.1)
    else failures
  }

  /** Only the bags of the present and of the previous epoch hold anything: the present one no more than was
      retired since the last attempt and an interval's worth for each that failed, and all that is pending no more
      than one interval's worth for the previous epoch, and one for each attempt that failed in it, beyond that. */
  ghost predicate Short(l: Ledger, failures: (nat, nat)) {
    && Formed(l)
    && |l.bags[l.epoch % RING]| <= l.since + RECLAIM_INTERVAL * failures.0
    && |l.bags[l.epoch % RING]| + |l.bags[(l.epoch + 2) % RING]| + |l.orphans|
       <= l.since + RECLAIM_INTERVAL * (1 + failures.0 + failures.1)
    && l.bags[(l.epoch + 1) % RING] == []
  }

  lemma RingOf(epoch: nat)
    ensures epoch % RING != (epoch + 1) % RING && epoch % RING != (epoch + 2) % RING
    ensures (epoch + 1) % RING != (epoch + 2) % RING && (epoch + 1 + 2) % RING == epoch % RING
  {
  }

  lemma RetireKeepsShort(l: Ledger, failures: (nat, nat), item: Object, advanced: bool)
    requires Short(l, failures)
    ensures Short(RetiredInto(l, item, advanced), Counted(l, failures, CallRetire(item, advanced)))
  {
    RingOf(l.epoch);
    var i := l.epoch % RING;
    assert Pushed(l, item, 0).bags[i] == l.bags[i] + [item];
  }

  lemma ReclaimKeepsShort(l: Ledger, failures: (nat, nat), advanced: bool)
    requires Short(l, failures)
    ensures Short(Reclaimed(l, advanced), Counted(l, failures, CallReclaim(advanced)))
  {
    RingOf(l.epoch);
  }

  lemma ExitKeepsShort(l: Ledger, failures: (nat, nat))
    requires Short(l, failures)
    ensures Short(Exited(l), failures)
  {
    RingOf(l.epoch);
  }

  lemma CallKeepsShort(l: Ledger, failures: (nat, nat), call: Call)
    requires Short(l, failures)
    ensures Short(Do(l, call), Counted(l, failures, call))
  {
    hide Short, RetiredInto, Reclaimed, Exited;
    match call {
      case CallRetire(item, advanced) => RetireKeepsShort(l, failures, item, advanced);
      case CallReclaim(advanced) => ReclaimKeepsShort(l, failures, advanced);
      case CallExit => ExitKeepsShort(l, failures);
    }
  }

  lemma ShortIsBounded(l: Ledger, failures: (nat, nat))
    requires Short(l, failures)
    ensures Pending(l) < RECLAIM_INTERVAL * (2 + failures.0 + failures.1)
    ensures forall i :: 0 <= i < RING && l.bags[i] != [] ==> i == l.epoch % RING || i == (l.epoch + 2) % RING
  {
    RingOf(l.epoch);
  }

  lemma {:induction false} HistoryShort(calls: seq<Call>)
    ensures Short(History(OPENED, calls), Failures(calls))
  {
    if calls == [] {
    } else {
      hide Short, Do, Counted;
      HistoryShort(calls[..|calls| - 1]);
      CallKeepsShort(
        History(OPENED, calls[..|calls| - 1]), Failures(calls[..|calls| - 1]), calls[|calls| - 1]);
    }
  }

  /** With one retiring thread at a time only two bags are ever used, and between calls less is pending than an
      interval's worth for each of the two and one more for each attempt that failed in their epochs, whatever extra
      calls of try_reclaim there are and whoever has exited. */
  lemma BacklogBound(calls: seq<Call>)
    ensures Pending(History(OPENED, calls)) < RECLAIM_INTERVAL * (2 + Failures(calls).0 + Failures(calls).1)
    ensures var l := History(OPENED, calls);
      forall i :: 0 <= i < RING && l.bags[i] != [] ==> i == l.epoch % RING || i == (l.epoch + 2) % RING
  {
    hide History, Short, Pending;
    HistoryShort(calls);
    ShortIsBounded(History(OPENED, calls), Failures(calls));
  }

  predicate Failed(call: Call) {
    !call.CallExit? && !call.advanced
  }

  lemma {:induction false} NoFailures(calls: seq<Call>)
    requires forall i :: 0 <= i < |calls| ==> !Failed(calls[i])
    ensures Failures(calls) == (0, 0)
  {
    hide History;
    if calls == [] {
    } else {
      NoFailures(calls[..|calls| - 1]);
    }
  }

  /** With no failed advance that is two intervals, the object of the present call included. */
  lemma QuietBacklog(calls: seq<Call>)
    requires forall i :: 0 <= i < |calls| ==> !Failed(calls[i])
    ensures Pending(History(OPENED, calls)) + 1 <= 2 * RECLAIM_INTERVAL
  {
    hide History, Pending;
    NoFailures(calls);
    BacklogBound(calls);
  }

  // ---- what a failed advance costs ----

  function Retires(n: nat): seq<Call> {
    seq(n, _ => CallRetire(0, true))
  }

  /** `r` is `l` after n objects have gone into the present bag. */
  ghost predicate Filled(l: Ledger, r: Ledger, n: nat) {
    && |l.bags| == RING && |r.bags| == RING && r.since == l.since + n && r.epoch == l.epoch && r.orphans == l.orphans
    && |r.bags[l.epoch % RING]| == |l.bags[l.epoch % RING]| + n
    && forall i :: 0 <= i < RING && i != l.epoch % RING ==> r.bags[i] == l.bags[i]
  }

  lemma FillsOne(l: Ledger, r: Ledger, n: nat)
    requires Filled(l, r, n) && l.since + n + 1 < RECLAIM_INTERVAL && |r.bags| == RING
    ensures Filled(l, Do(r, CallRetire(0, true)), n + 1)
  {
  }

  lemma RetiresMore(calls: seq<Call>, n: nat)
    ensures calls + Retires(n + 1) == calls + Retires(n) + [CallRetire(0, true)]
  {
  }

  /** Retiring short of the next attempt fills the present bag. */
  lemma {:induction false} FillsBag(calls: seq<Call>, n: nat)
    requires History(OPENED, calls).since + n < RECLAIM_INTERVAL
    ensures Filled(History(OPENED, calls), History(OPENED, calls + Retires(n)), n)
  {
    if n == 0 {
      assert calls + Retires(0) == calls;
    } else {
      hide History, Do, Filled, Retires, OPENED;
      FillsBag(calls, n - 1);
      OneMore(calls + Retires(n - 1), CallRetire(0, true));
      FillsOne(History(OPENED, calls), History(OPENED, calls + Retires(n - 1)), n - 1);
      RetiresMore(calls, n - 1);
    }
  }

  lemma OneMore(calls: seq<Call>, call: Call)
    ensures History(OPENED, calls + [call]) == Do(History(OPENED, calls), call)
  {
    assert (calls + [call])[..|calls|] == calls;
  }

  const INTERVAL: seq<Call> := Retires(RECLAIM_INTERVAL - 1) + [CallRetire(0, true)]

  const MISSED: seq<Call> := Retires(RECLAIM_INTERVAL - 1) + [CallRetire(0, false)]

  /** After one interval the bag of the first epoch is full, and the second epoch has begun. */
  lemma AfterInterval()
    ensures var l := History(OPENED, INTERVAL);
      l.epoch == 1 && l.since == 0 && l.orphans == [] && |l.bags[0]| == RECLAIM_INTERVAL && l.bags[1] == []
  {
    hide History;
    NothingYet();
    FillsBag([], RECLAIM_INTERVAL - 1);
    assert [] + Retires(RECLAIM_INTERVAL - 1) == Retires(RECLAIM_INTERVAL - 1);
    OneMore(Retires(RECLAIM_INTERVAL - 1), CallRetire(0, true));
  }

  /** After a second one, at whose end the advance fails, so is the next bag, and the epoch is the same. */
  lemma AfterMissed()
    ensures var l := History(OPENED, INTERVAL + MISSED);
      l.epoch == 1 && l.since == 0 && |l.bags[0]| == RECLAIM_INTERVAL && |l.bags[1]| == RECLAIM_INTERVAL
  {
    hide History, INTERVAL;
    AfterInterval();
    FillsBag(INTERVAL, RECLAIM_INTERVAL - 1);
    OneMore(INTERVAL + Retires(RECLAIM_INTERVAL - 1), CallRetire(0, false));
    assert INTERVAL + Retires(RECLAIM_INTERVAL - 1) + [CallRetire(0, false)] == INTERVAL + MISSED;
  }

  /** One failed advance, that of call k, is enough to exceed two intervals. */
  lemma OneFailureExceeds() returns (calls: seq<Call>, k: nat)
    ensures k < |calls| && forall i :: 0 <= i < |calls| ==> (Failed(calls[i]) <==> i == k)
    ensures Pending(History(OPENED, calls)) > 2 * RECLAIM_INTERVAL
  {
    hide History;
    calls, k := INTERVAL + MISSED + [CallRetire(0, true)], 2 * RECLAIM_INTERVAL - 1;
    AfterMissed();
    OneMore(INTERVAL + MISSED, CallRetire(0, true));
  }

  lemma NothingYet()
    ensures History(OPENED, []) == OPENED
  {
  }

  /** With a reader that never leaves, no advance succeeds and everything stays. */
  lemma {:induction false} StuckReaderHoldsAll(calls: seq<Call>)
    requires forall i :: 0 <= i < |calls| ==> calls[i].CallExit? || Failed(calls[i])
    ensures Pending(History(OPENED, calls)) == |Retirements(calls)| && History(OPENED, calls).freed == []
    ensures History(OPENED, calls).epoch == 0
  {
    if calls == [] {
    } else {
      StuckReaderHoldsAll(calls[..|calls| - 1]);
    }
  }
}
