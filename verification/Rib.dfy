/**
 The RIB: every route that every protocol offers, the losers included, with the winner of each prefix in front.

 rib_entry and rib are classes; what their calls do is given by functions on the sequence of routes of a prefix, and
 proved of every history of those.
 */
module Ribs {
  import opened Wrappers
  import opened Bits
  import opened Routes

  // ---- the routes of one prefix ----

  ghost predicate OnePerProtocol(routes: seq<Route>) {
    forall i, j :: 0 <= i < j < |routes| ==> routes[i].source != routes[j].source
  }

  ghost predicate EntryOk(routes: seq<Route>) {
    Ranked(routes) && OnePerProtocol(routes)
  }

  /** Where a protocol's route is, or the length if it has none. */
  function Find(routes: seq<Route>, source: Protocol): (i: nat)
    ensures i <= |routes|
    ensures i < |routes| ==> routes[i].source == source
    ensures forall j :: 0 <= j < i ==> routes[j].source != source
  {
    if routes == [] || routes[0].source == source then 0 else 1 + Find(routes[1..], source)
  }

  /** The routes with a protocol's one replaced or added, before they are sorted. */
  function Replaced(routes: seq<Route>, candidate: Route): seq<Route> {
    var i := Find(routes, candidate.source);
    if i < |routes| then routes[i := candidate] else routes + [candidate]
  }

  function Offered(routes: seq<Route>, candidate: Route): seq<Route> {
    StableSort(Replaced(routes, candidate))
  }

  function Without(routes: seq<Route>, source: Protocol): seq<Route> {
    if routes == [] then []
    else
      var n := |routes| - 1;
      Without(routes[..n], source) + if routes[n].source == source then [] else [routes[n]]
  }

  function Winner(routes: seq<Route>): Option<Route> {
    if routes == [] then None else Some(routes[0])
  }

  /** What of a winner goes into the FIB. */
  function Forwarding(best: Option<Route>): Option<(Protocol, NextHop)> {
    if best.Some? then Some((best.value.source, best.value.hop)) else None
  }

  lemma {:induction false} WithoutHolds(routes: seq<Route>, source: Protocol)
    ensures forall r :: r in Without(routes, source) <==> r in routes && r.source != source
  {
    if routes == [] {
    } else {
      var n := |routes| - 1;
      WithoutHolds(routes[..n], source);
      assert routes == routes[..n] + [routes[n]];
    }
  }

  lemma AppendKeepsOk(routes: seq<Route>, last: Route)
    ensures EntryOk(routes + [last]) <==>
      EntryOk(routes) && forall r :: r in routes ==> r.source != last.source && !last.PreferredOver(r)
  {
    hide Route.PreferredOver;
    var more := routes + [last];
    if EntryOk(more) {
      forall i, j | 0 <= i < j < |routes|
        ensures !routes[j].PreferredOver(routes[i]) && routes[i].source != routes[j].source
      {
        assert more[i] == routes[i] && more[j] == routes[j];
      }
      forall r | r in routes ensures r.source != last.source && !last.PreferredOver(r) {
        var i :| 0 <= i < |routes| && routes[i] == r;
        assert more[i] == r && more[|routes|] == last;
      }
    }
  }

  lemma {:induction false} WithoutKeepsOk(routes: seq<Route>, source: Protocol)
    requires EntryOk(routes)
    ensures EntryOk(Without(routes, source))
  {
    hide EntryOk, Route.PreferredOver;
    if routes == [] {
      NoRoutesOk();
    } else {
      var n := |routes| - 1;
      assert routes == routes[..n] + [routes[n]];
      AppendKeepsOk(routes[..n], routes[n]);
      WithoutKeepsOk(routes[..n], source);
      WithoutHolds(routes[..n], source);
      AppendKeepsOk(Without(routes[..n], source), routes[n]);
      assert Without(routes[..n], source) + [] == Without(routes[..n], source);
    }
  }

  lemma WithoutIs(routes: seq<Route>, source: Protocol)
    ensures forall r :: r in Without(routes, source) <==> r in routes && r.source != source
    ensures EntryOk(routes) ==> EntryOk(Without(routes, source))
  {
    WithoutHolds(routes, source);
    if EntryOk(routes) {
      WithoutKeepsOk(routes, source);
    }
  }

  /** Sorting keeps what there is, and each of them once. */
  lemma SortKeeps(routes: seq<Route>)
    requires OnePerProtocol(routes)
    ensures EntryOk(StableSort(routes))
    ensures forall r :: r in StableSort(routes) <==> r in routes
  {
    StableSortRanks(routes);
    var sorted := StableSort(routes);
    forall r ensures r in sorted <==> r in routes {
      assert r in multiset(sorted) <==> r in multiset(routes);
    }
    forall i, j | 0 <= i < j < |sorted| ensures sorted[i].source != sorted[j].source {
      TwoOfThem(sorted, i, j);
      if sorted[i].source == sorted[j].source {
        OneOfThem(routes, sorted[i], sorted[j]);
      }
    }
  }

  lemma TwoOfThem(s: seq<Route>, i: nat, j: nat)
    requires i < j < |s|
    ensures s[i] != s[j] ==> s[i] in multiset(s) && s[j] in multiset(s)
    ensures s[i] == s[j] ==> multiset(s)[s[i]] >= 2
  {
    assert s == s[..j] + [s[j]] + s[j + 1..];
    assert s[i] in s[..j];
  }

  lemma OneOfThem(routes: seq<Route>, a: Route, b: Route)
    requires OnePerProtocol(routes) && a in routes && b in routes && a.source == b.source
    ensures a == b && multiset(routes)[a] == 1
  {
    var i :| 0 <= i < |routes| && routes[i] == a;
    var j :| 0 <= j < |routes| && routes[j] == b;
    assert i == j;
    assert routes == routes[..i] + [a] + routes[i + 1..];
    assert a !in routes[..i] && a !in routes[i + 1..];
  }

  lemma ReplacedHolds(routes: seq<Route>, candidate: Route, r: Route)
    requires OnePerProtocol(routes)
    ensures r in Replaced(routes, candidate) <==> r == candidate || (r in routes && r.source != candidate.source)
  {
    var i, placed := Find(routes, candidate.source), Replaced(routes, candidate);
    assert placed[i] == candidate;
    if r in placed {
      var j :| 0 <= j < |placed| && placed[j] == r;
    }
    if r in routes {
      var j :| 0 <= j < |routes| && routes[j] == r;
      assert r.source != candidate.source ==> placed[j] == r;
    }
  }

  lemma ReplacedOnePer(routes: seq<Route>, candidate: Route)
    requires OnePerProtocol(routes)
    ensures OnePerProtocol(Replaced(routes, candidate))
  {
  }

  lemma OfferedIs(routes: seq<Route>, candidate: Route)
    requires EntryOk(routes)
    ensures EntryOk(Offered(routes, candidate))
    ensures forall r :: r in Offered(routes, candidate) <==>
      r == candidate || (r in routes && r.source != candidate.source)
  {
    hide Ranked, OnePerProtocol, Find, Replaced;
    ReplacedOnePer(routes, candidate);
    SortKeeps(Replaced(routes, candidate));
    forall r ensures r in Replaced(routes, candidate) <==>
      r == candidate || (r in routes && r.source != candidate.source)
    {
      ReplacedHolds(routes, candidate, r);
    }
  }

  /** No route of a protocol that comes before this one's, and none of the same rank with a smaller metric. */
  ghost predicate IsBest(best: Route, routes: set<Route>) {
    && best in routes
    && forall r :: r in routes ==>
         !Outranks(r.source, best.source) && (Outranks(best.source, r.source) || best.metric <= r.metric)
  }

  /** The winner is one of the routes, and none is preferred over it. */
  lemma WinnerIsBest(routes: seq<Route>)
    requires EntryOk(routes)
    ensures Winner(routes).None? <==> routes == []
    ensures Winner(routes).Some? ==>
      Winner(routes).value in routes && forall r :: r in routes ==> !r.PreferredOver(Winner(routes).value)
  {
    if routes != [] {
      PreferenceIsStrictWeak(routes[0], routes[0], routes[0]);
    }
  }

  /** Between protocols, a new offer takes the prefix over only when it is preferred: a tie leaves it where it is. */
  lemma OfferedWinner(routes: seq<Route>, candidate: Route)
    requires EntryOk(routes) && routes != [] && candidate.source != routes[0].source
    ensures Winner(Offered(routes, candidate)) ==
      Some(if candidate.PreferredOver(routes[0]) then candidate else routes[0])
  {
    hide Route.PreferredOver;
    var i, placed := Find(routes, candidate.source), Replaced(routes, candidate);
    var front := if candidate.PreferredOver(routes[0]) then i else 0;
    PreferenceIsStrictWeak(candidate, candidate, candidate);
    forall r | r in placed ensures !r.PreferredOver(placed[front]) {
      ReplacedHolds(routes, candidate, r);
      if r in routes {
        NotBefore(routes, r);
      }
      PreferenceIsStrictWeak(r, routes[0], candidate);
      PreferenceIsStrictWeak(r, candidate, r);
      PreferenceIsStrictWeak(candidate, r, routes[0]);
    }
    forall r | r in placed[..front] ensures placed[front].PreferredOver(r) {
      NotBefore(routes, r);
      PreferenceIsStrictWeak(candidate, r, routes[0]);
    }
    StableSortFront(placed, front);
  }

  lemma NotBefore(routes: seq<Route>, r: Route)
    requires Ranked(routes) && r in routes
    ensures !r.PreferredOver(routes[0])
  {
    PreferenceIsStrictWeak(r, r, r);
  }

  // ---- histories of one prefix ----

  datatype Event = Offer(route: Route) | Withdraw(source: Protocol)

  function About(event: Event): Protocol {
    match event case Offer(route) => route.source case Withdraw(source) => source
  }

  function After(events: seq<Event>): seq<Route> {
    if events == [] then []
    else
      var before := After(events[..|events| - 1]);
      match events[|events| - 1]
      case Offer(route) => Offered(before, route)
      case Withdraw(source) => Without(before, source)
  }

  /** The last word of a protocol: its route, unless that was withdrawn or never offered. */
  function Latest(events: seq<Event>, source: Protocol): Option<Route> {
    if events == [] then None
    else
      var event := events[|events| - 1];
      if About(event) != source then Latest(events[..|events| - 1], source)
      else if event.Offer? then Some(event.route) else None
  }

  /** An entry holds exactly the latest route of every protocol that has not withdrawn it, ranked. */
  lemma {:induction false} EntryHoldsLatest(events: seq<Event>)
    ensures EntryOk(After(events))
    ensures forall r :: r in After(events) <==> Latest(events, r.source) == Some(r)
  {
    if events == [] {
    } else {
      var before := events[..|events| - 1];
      EntryHoldsLatest(before);
      match events[|events| - 1] {
        case Offer(route) => OfferedIs(After(before), route);
        case Withdraw(source) => WithoutIs(After(before), source);
      }
    }
  }

  /** So the winner is the best of the latest routes: when one is withdrawn, the best of the others takes over. */
  lemma WinnerOfHistory(events: seq<Event>, best: Route)
    requires Winner(After(events)) == Some(best)
    ensures Latest(events, best.source) == Some(best)
    ensures forall p :: Latest(events, p).Some? ==> !Latest(events, p).value.PreferredOver(best)
  {
    EntryHoldsLatest(events);
    WinnerIsBest(After(events));
    forall p | Latest(events, p).Some? ensures !Latest(events, p).value.PreferredOver(best) {
      LatestSource(events, p);
      assert Latest(events, p).value in After(events);
    }
  }

  lemma {:induction false} LatestSource(events: seq<Event>, p: Protocol)
    requires Latest(events, p).Some?
    ensures Latest(events, p).value.source == p
  {
    if About(events[|events| - 1]) != p {
      LatestSource(events[..|events| - 1], p);
    }
  }

  // ---- the classes ----

  class RibEntry {
    var routes: seq<Route>

    ghost predicate Valid()
      reads this
    {
      EntryOk(routes)
    }

    constructor ()
      ensures Valid() && routes == []
    {
      routes := [];
    }

    function Best(): Option<Route>
      reads this
    {
      Winner(routes)
    }

    /** offer: true exactly when presence, source or hop of the winner changed. */
    method Offer(candidate: Route) returns (changed: bool)
      requires Valid()
      modifies this
      ensures Valid() && routes == Offered(old(routes), candidate)
      ensures forall r :: r in routes <==> r == candidate || (r in old(routes) && r.source != candidate.source)
      ensures changed <==> Forwarding(Best()) != Forwarding(old(Best()))
    {
      var previous := Best();
      OfferedIs(routes, candidate);
      var i := Find(routes, candidate.source);
      if i < |routes| {
        routes := routes[i := candidate];
      } else {
        routes := routes + [candidate];
      }
      routes := StableSort(routes);
      changed := Changed(previous);
    }

    /** withdraw: a protocol that offered nothing changes nothing. */
    method Withdraw(source: Protocol) returns (changed: bool)
      requires Valid()
      modifies this
      ensures Valid() && routes == Without(old(routes), source)
      ensures forall r :: r in routes <==> r in old(routes) && r.source != source
      ensures changed <==> Forwarding(Best()) != Forwarding(old(Best()))
    {
      var previous := Best();
      WithoutIs(routes, source);
      var count := |routes|;
      routes := Without(routes, source);
      if |routes| == count {
        WithoutAll(old(routes), source);
        return false;
      }
      changed := Changed(previous);
    }

    method Changed(previous: Option<Route>) returns (changed: bool)
      ensures changed <==> Forwarding(Best()) != Forwarding(previous)
    {
      var now := Best();
      if previous.Some? != now.Some? {
        return true;
      }
      if now.None? {
        return false;
      }
      changed := now.value.source != previous.value.source || now.value.hop != previous.value.hop;
    }
  }

  lemma {:induction false} WithoutAll(routes: seq<Route>, source: Protocol)
    ensures |Without(routes, source)| <= |routes|
    ensures |Without(routes, source)| == |routes| ==> Without(routes, source) == routes
  {
    if routes == [] {
    } else {
      WithoutAll(routes[..|routes| - 1], source);
    }
  }

  function WinnerAt(table: map<Bits, seq<Route>>, prefix: Bits): Option<Route> {
    if prefix in table then Winner(table[prefix]) else None
  }

  /** add and remove on the whole table, which keeps no empty entry. */
  function Added(table: map<Bits, seq<Route>>, candidate: Route): map<Bits, seq<Route>> {
    table[candidate.prefix := Offered(if candidate.prefix in table then table[candidate.prefix] else [], candidate)]
  }

  function Removed(table: map<Bits, seq<Route>>, prefix: Bits, source: Protocol): map<Bits, seq<Route>> {
    if prefix !in table then table
    else if Without(table[prefix], source) == [] then table - {prefix}
    else table[prefix := Without(table[prefix], source)]
  }

  ghost predicate TableOk(table: map<Bits, seq<Route>>) {
    forall prefix :: prefix in table ==> table[prefix] != [] && EntryOk(table[prefix])
  }

  class Rib {
    var table: map<Bits, RibEntry>
    var routesOffered: nat
    var routesWithdrawn: nat
    var bestPathChanges: nat
    ghost var view: map<Bits, seq<Route>>

    /** The ghost field mirrors the entries, which are objects of their own. */
    ghost predicate Mirrored()
      reads `table, `view, table.Values
    {
      && view.Keys == table.Keys
      && (forall p :: p in table ==> table[p].routes == view[p])
      && (forall p, q :: p in table && q in table && p != q ==> table[p] != table[q])
    }

    ghost predicate Valid()
      reads `table, `view, table.Values
    {
      Mirrored() && TableOk(view)
    }

    /** The table as a value. */
    ghost function Contents(): map<Bits, seq<Route>>
      reads `view
    {
      view
    }

    constructor ()
      ensures Valid() && Contents() == map[] && table == map[]
      ensures routesOffered == routesWithdrawn == bestPathChanges == 0
    {
      table := map[];
      routesOffered := 0;
      routesWithdrawn := 0;
      bestPathChanges := 0;
      view := map[];
    }

    /** The entry of a prefix, created empty where there is none. */
    method EntryOf(prefix: Bits) returns (entry: RibEntry)
      requires Mirrored()
      modifies `table, `view
      ensures Mirrored() && prefix in table && entry == table[prefix] && fresh(table.Values - old(table.Values))
      ensures prefix in old(table) ==> entry == old(table[prefix])
      ensures view == if prefix in old(view) then old(view) else old(view)[prefix := []]
    {
      if prefix !in table {
        entry := new RibEntry();
        table := table[prefix := entry];
        view := view[prefix := []];
      }
      entry := table[prefix];
    }

    method OfferTo(prefix: Bits, candidate: Route) returns (changed: bool)
      requires Mirrored() && prefix in table && EntryOk(view[prefix])
      modifies `view, table[prefix]
      ensures Mirrored() && view == old(view)[prefix := Offered(old(view)[prefix], candidate)]
      ensures changed <==> Forwarding(Winner(view[prefix])) != Forwarding(Winner(old(view)[prefix]))
    {
      hide EntryOk, Offered, Forwarding, Winner;
      changed := table[prefix].Offer(candidate);
      view := view[prefix := Offered(view[prefix], candidate)];
    }

    method WithdrawFrom(prefix: Bits, source: Protocol) returns (changed: bool)
      requires Mirrored() && prefix in table && EntryOk(view[prefix])
      modifies `view, table[prefix]
      ensures Mirrored() && view == old(view)[prefix := Without(old(view)[prefix], source)]
      ensures changed <==> Forwarding(Winner(view[prefix])) != Forwarding(Winner(old(view)[prefix]))
    {
      hide EntryOk, Without, Forwarding, Winner;
      changed := table[prefix].Withdraw(source);
      view := view[prefix := Without(view[prefix], source)];
    }

    method DropIfEmpty(prefix: Bits)
      requires Mirrored() && prefix in table
      modifies `table, `view
      ensures Mirrored() && table.Values <= old(table.Values)
      ensures view == if old(view)[prefix] == [] then old(view) - {prefix} else old(view)
    {
      if table[prefix].routes == [] {
        table := table - {prefix};
        view := view - {prefix};
      }
    }

    lemma EntryMirrored(prefix: Bits)
      requires Mirrored()
      ensures prefix in table <==> prefix in view
      ensures prefix in table ==> table[prefix].routes == view[prefix]
    {
    }

    /** add: true exactly when what this prefix should forward by has changed; other prefixes are not touched. */
    method Add(candidate: Route) returns (changed: bool)
      requires Valid()
      modifies this, table.Values
      ensures Valid() && fresh(table.Values - old(table.Values))
      ensures Contents() == Added(old(Contents()), candidate)
      ensures changed <==>
        Forwarding(WinnerAt(Contents(), candidate.prefix)) != Forwarding(WinnerAt(old(Contents()), candidate.prefix))
      ensures bestPathChanges == old(bestPathChanges) + if changed then 1 else 0
      ensures routesOffered == old(routesOffered) + 1 && routesWithdrawn == old(routesWithdrawn)
    {
      hide Mirrored, TableOk, WinnerAt, Forwarding, Added;
      routesOffered := routesOffered + 1;
      changed := AddTo(candidate);
      if changed {
        bestPathChanges := bestPathChanges + 1;
      }
    }

    method AddTo(candidate: Route) returns (changed: bool)
      requires Valid()
      modifies `table, `view, table.Values
      ensures Valid() && fresh(table.Values - old(table.Values))
      ensures view == Added(old(view), candidate)
      ensures changed <==>
        Forwarding(WinnerAt(view, candidate.prefix)) != Forwarding(WinnerAt(old(view), candidate.prefix))
    {
      hide EntryOk, Offered, Forwarding, Winner, Mirrored;
      NoRoutesOk();
      NothingWins();
      AddedIs(view, candidate);
      ghost var added := Added(view, candidate);
      var entry := EntryOf(candidate.prefix);
      EntryMirrored(candidate.prefix);
      changed := OfferTo(candidate.prefix, candidate);
      assert view == added;
    }

    /** remove: the entry of a prefix goes with its last route. */
    method Remove(prefix: Bits, source: Protocol) returns (changed: bool)
      requires Valid()
      modifies this, table.Values
      ensures Valid() && table.Values <= old(table.Values)
      ensures Contents() == Removed(old(Contents()), prefix, source)
      ensures changed <==> Forwarding(WinnerAt(Contents(), prefix)) != Forwarding(WinnerAt(old(Contents()), prefix))
      ensures bestPathChanges == old(bestPathChanges) + if changed then 1 else 0
      ensures routesWithdrawn == old(routesWithdrawn) + if prefix in old(table) then 1 else 0
      ensures routesOffered == old(routesOffered)
    {
      hide Mirrored, TableOk, WinnerAt, Forwarding;
      EntryMirrored(prefix);
      if prefix !in table {
        return false;
      }
      changed := RemoveFrom(prefix, source);
      routesWithdrawn := routesWithdrawn + 1;
      if changed {
        bestPathChanges := bestPathChanges + 1;
      }
    }

    method RemoveFrom(prefix: Bits, source: Protocol) returns (changed: bool)
      requires Valid() && prefix in table
      modifies `table, `view, table[prefix]
      ensures Valid() && table.Values <= old(table.Values)
      ensures view == Removed(old(view), prefix, source)
      ensures changed <==> Forwarding(WinnerAt(view, prefix)) != Forwarding(WinnerAt(old(view), prefix))
    {
      hide EntryOk, Without, Forwarding, Winner, Mirrored;
      EntryMirrored(prefix);
      NothingWins();
      RemovedIs(view, prefix, source);
      ghost var removed := Removed(view, prefix, source);
      changed := WithdrawFrom(prefix, source);
      DropIfEmpty(prefix);
      assert view == removed;
    }

    method Best(prefix: Bits) returns (best: Option<Route>)
      requires Valid()
      ensures best == WinnerAt(Contents(), prefix)
      ensures best.Some? <==> prefix in Contents()
      ensures best.Some? ==> IsBest(best.value, set r | r in Contents()[prefix])
    {
      if prefix !in table {
        return None;
      }
      best := table[prefix].Best();
      WinnerIsBest(view[prefix]);
      forall r | r in view[prefix]
        ensures !Outranks(r.source, best.value.source)
        ensures Outranks(best.value.source, r.source) || best.value.metric <= r.metric
      {
        PreferenceIs(r, best.value);
      }
    }
  }

  lemma AddedIs(table: map<Bits, seq<Route>>, candidate: Route)
    requires TableOk(table)
    ensures TableOk(Added(table, candidate))
  {
    hide Offered, EntryOk;
    NoRoutesOk();
    var before := if candidate.prefix in table then table[candidate.prefix] else [];
    OfferedIs(before, candidate);
    assert candidate in Offered(before, candidate);
  }

  lemma RemovedIs(table: map<Bits, seq<Route>>, prefix: Bits, source: Protocol)
    requires TableOk(table)
    ensures TableOk(Removed(table, prefix, source))
  {
    hide Without, EntryOk;
    if prefix in table {
      WithoutIs(table[prefix], source);
    }
  }

  /** What add and remove keep, and that they leave the winners of other prefixes alone. */
  lemma TableSteps(table: map<Bits, seq<Route>>, candidate: Route, prefix: Bits, source: Protocol)
    requires TableOk(table)
    ensures TableOk(Added(table, candidate)) && TableOk(Removed(table, prefix, source))
    ensures forall p :: p != candidate.prefix ==> WinnerAt(Added(table, candidate), p) == WinnerAt(table, p)
    ensures forall p :: p != prefix ==> WinnerAt(Removed(table, prefix, source), p) == WinnerAt(table, p)
  {
    hide Offered, Without, EntryOk;
    AddedIs(table, candidate);
    RemovedIs(table, prefix, source);
  }

  lemma NothingWins()
    ensures Winner([]) == None
  {
  }

  lemma NoRoutesOk()
    ensures EntryOk([])
  {
  }

  // ---- histories of the whole table ----

  datatype Call = CallAdd(candidate: Route) | CallRemove(prefix: Bits, source: Protocol)

  function TableAfter(calls: seq<Call>): map<Bits, seq<Route>> {
    if calls == [] then map[]
    else
      var before := TableAfter(calls[..|calls| - 1]);
      match calls[|calls| - 1]
      case CallAdd(candidate) => Added(before, candidate)
      case CallRemove(prefix, source) => Removed(before, prefix, source)
  }

  /** What the calls mean for the entry of one prefix. */
  function EventsOf(calls: seq<Call>, prefix: Bits): seq<Event> {
    if calls == [] then []
    else
      var before := EventsOf(calls[..|calls| - 1], prefix);
      match calls[|calls| - 1]
      case CallAdd(candidate) => if candidate.prefix == prefix then before + [Offer(candidate)] else before
      case CallRemove(removed, source) => if removed == prefix then before + [Withdraw(source)] else before
  }

  /** The table holds, for each prefix, what the calls about that prefix leave of its entry, and no empty entry. */
  lemma {:induction false} TableHoldsHistories(calls: seq<Call>, prefix: Bits)
    ensures prefix in TableAfter(calls) <==> After(EventsOf(calls, prefix)) != []
    ensures prefix in TableAfter(calls) ==> TableAfter(calls)[prefix] == After(EventsOf(calls, prefix))
  {
    if calls == [] {
    } else {
      hide Offered, Without;
      var before, call := calls[..|calls| - 1], calls[|calls| - 1];
      var events, more := EventsOf(before, prefix), EventsOf(calls, prefix);
      TableHoldsHistories(before, prefix);
      if more != events {
        assert more[..|more| - 1] == events;
        match call {
          case CallAdd(candidate) => OfferedIsSome(After(events), candidate);
          case CallRemove(_, source) => WithoutNothing(source);
        }
      }
    }
  }

  lemma OfferedIsSome(routes: seq<Route>, candidate: Route)
    ensures Offered(routes, candidate) != []
  {
  }

  lemma WithoutNothing(source: Protocol)
    ensures Without([], source) == []
  {
  }

  /** So the table's winner is the best of the latest routes for the prefix, if there is any. */
  lemma WinnerOfCalls(calls: seq<Call>, prefix: Bits)
    ensures WinnerAt(TableAfter(calls), prefix) == Winner(After(EventsOf(calls, prefix)))
  {
    TableHoldsHistories(calls, prefix);
  }

  /** The routes that protocols have for a prefix. */
  ghost function Candidates(events: seq<Event>): set<Route> {
    set p: Protocol | Latest(events, p).Some? :: Latest(events, p).value
  }

  /** In every history the winner of a prefix is a best one of the routes that protocols now have for it: of the
      protocol that comes first, whatever the metrics, and with the smallest metric. */
  lemma BestOfCalls(calls: seq<Call>, prefix: Bits)
    ensures match WinnerAt(TableAfter(calls), prefix)
      case Some(best) => IsBest(best, Candidates(EventsOf(calls, prefix)))
      case None => Candidates(EventsOf(calls, prefix)) == {}
  {
    hide Outranks, Route.PreferredOver, TableAfter, EventsOf;
    var events := EventsOf(calls, prefix);
    WinnerOfCalls(calls, prefix);
    EntryHoldsLatest(events);
    WinnerIsBest(After(events));
    forall r | r in Candidates(events) ensures r in After(events) {
      var p :| Latest(events, p) == Some(r);
      LatestSource(events, p);
    }
    if Winner(After(events)).Some? {
      var best := Winner(After(events)).value;
      forall r | r in Candidates(events)
        ensures !Outranks(r.source, best.source) && (Outranks(best.source, r.source) || best.metric <= r.metric)
      {
        PreferenceIs(r, best);
      }
    }
  }
}
