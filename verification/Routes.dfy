/** Routes as protocols offer them, and the order that decides which one owns a prefix. */
module Routes {
  import opened Bits

  datatype Protocol = Connected | Local | StaticRoute | Isis | Ospf | Bgp

  function AdministrativeDistance(source: Protocol): nat {
    match source
    case Connected => 0
    case Local => 0
    case StaticRoute => 1
    case Isis => 115
    case Ospf => 110
    case Bgp => 200
  }

  datatype NextHop = NextHop(gateway: nat, outgoing: nat, mplsLabel: nat, metric: nat)

  datatype FibEntry = FibEntry(hop: NextHop, source: Protocol, generation: nat)

  datatype Route = Route(prefix: Bits, hop: NextHop, source: Protocol, metric: nat) {
    predicate PreferredOver(other: Route) {
      var mine, theirs := AdministrativeDistance(source), AdministrativeDistance(other.source);
      if mine != theirs then mine < theirs else metric < other.metric
    }
  }

  /** No route of the sequence is preferred over one before it. */
  ghost predicate Ranked(routes: seq<Route>) {
    forall i, j :: 0 <= i < j < |routes| ==> !routes[j].PreferredOver(routes[i])
  }

  /** preferred_over is a strict weak order, as a stable sort needs it to be. */
  lemma PreferenceIsStrictWeak(a: Route, b: Route, c: Route)
    ensures !a.PreferredOver(a)
    ensures a.PreferredOver(b) ==> !b.PreferredOver(a)
    ensures a.PreferredOver(b) && b.PreferredOver(c) ==> a.PreferredOver(c)
    ensures !a.PreferredOver(b) && !b.PreferredOver(c) ==> !a.PreferredOver(c)
  {
  }

  /** Which protocol owns a prefix when several offer it: connected and local routes come before static ones, these
      before OSPF, OSPF before IS-IS, and IS-IS before BGP. */
  ghost predicate Outranks(a: Protocol, b: Protocol) {
    match b
    case Connected => false
    case Local => false
    case StaticRoute => a in {Connected, Local}
    case Ospf => a in {Connected, Local, StaticRoute}
    case Isis => a in {Connected, Local, StaticRoute, Ospf}
    case Bgp => a in {Connected, Local, StaticRoute, Ospf, Isis}
  }

  /** A route is preferred when its protocol comes before the other one, whatever the metrics; between routes of one
      protocol, or a connected and a local one, the smaller metric decides. */
  lemma PreferenceIs(a: Route, b: Route)
    ensures Outranks(a.source, b.source) ==> a.PreferredOver(b) && !b.PreferredOver(a)
    ensures !Outranks(a.source, b.source) && !Outranks(b.source, a.source) ==>
      (a.source == b.source || {a.source, b.source} == {Connected, Local})
      && (a.PreferredOver(b) <==> a.metric < b.metric)
  {
  }

  /** Where a route goes in a ranked sequence: behind all that it is not preferred over. */
  function Placed(route: Route, ranked: seq<Route>): (r: seq<Route>)
    ensures |r| == |ranked| + 1
  {
    if ranked == [] then [route]
    else if !route.PreferredOver(ranked[|ranked| - 1]) then ranked + [route]
    else Placed(route, ranked[..|ranked| - 1]) + [ranked[|ranked| - 1]]
  }

  /** The effect of a stable sort by preference. */
  function StableSort(routes: seq<Route>): (r: seq<Route>)
    ensures |r| == |routes|
  {
    if routes == [] then [] else Placed(routes[|routes| - 1], StableSort(routes[..|routes| - 1]))
  }

  lemma {:induction false} PlacedRanks(route: Route, ranked: seq<Route>)
    requires Ranked(ranked)
    ensures Ranked(Placed(route, ranked))
    ensures multiset(Placed(route, ranked)) == multiset(ranked) + multiset{route}
  {
    hide Route.PreferredOver;
    if ranked != [] && route.PreferredOver(ranked[|ranked| - 1]) {
      var n := |ranked| - 1;
      var last, r := ranked[n], Placed(route, ranked[..n]);
      PlacedRanks(route, ranked[..n]);
      assert ranked == ranked[..n] + [last];
      PreferenceIsStrictWeak(route, last, route);
      forall i | 0 <= i < |r| ensures !last.PreferredOver(r[i]) {
        assert r[i] in multiset(r);
        assert r[i] == route || r[i] in ranked[..n];
      }
    } else if ranked != [] {
      var last := ranked[|ranked| - 1];
      forall i | 0 <= i < |ranked| ensures !route.PreferredOver(ranked[i]) {
        PreferenceIsStrictWeak(route, last, ranked[i]);
      }
    }
  }

  lemma {:induction false} StableSortRanks(routes: seq<Route>)
    ensures Ranked(StableSort(routes))
    ensures multiset(StableSort(routes)) == multiset(routes)
  {
    if routes == [] {
    } else {
      var n := |routes| - 1;
      StableSortRanks(routes[..n]);
      PlacedRanks(routes[n], StableSort(routes[..n]));
      assert routes == routes[..n] + [routes[n]];
    }
  }

  lemma {:induction false} PlacedFront(route: Route, ranked: seq<Route>)
    requires ranked != []
    ensures !route.PreferredOver(ranked[0]) ==> Placed(route, ranked)[0] == ranked[0]
    ensures (forall r :: r in ranked ==> route.PreferredOver(r)) ==> Placed(route, ranked)[0] == route
  {
    hide Route.PreferredOver;
    var n := |ranked| - 1;
    assert ranked[n] in ranked;
    if n > 0 {
      PlacedFront(route, ranked[..n]);
      assert forall r :: r in ranked[..n] ==> r in ranked;
    }
  }

  /** In front of the sorted routes is the first of those that none is preferred over. */
  lemma {:induction false} StableSortFront(routes: seq<Route>, i: nat)
    requires i < |routes| && forall r :: r in routes ==> !r.PreferredOver(routes[i])
    requires forall r :: r in routes[..i] ==> routes[i].PreferredOver(r)
    ensures StableSort(routes)[0] == routes[i]
  {
    hide Route.PreferredOver, Placed;
    var n := |routes| - 1;
    var sorted := StableSort(routes[..n]);
    if n == 0 {
      PlacedAlone(routes[0]);
    } else if i < n {
      assert forall r :: r in routes[..n] ==> r in routes;
      assert routes[..n][..i] == routes[..i];
      StableSortFront(routes[..n], i);
      PlacedFront(routes[n], sorted);
    } else {
      StableSortRanks(routes[..n]);
      forall r | r in sorted ensures routes[n].PreferredOver(r) {
        assert r in multiset(sorted);
      }
      PlacedFront(routes[n], sorted);
    }
  }

  lemma PlacedAlone(route: Route)
    ensures Placed(route, []) == [route]
  {
  }

  /** The routes of one rank, in order. */
  function OfRank(routes: seq<Route>, like: Route): seq<Route> {
    if routes == [] then []
    else
      var last := routes[|routes| - 1];
      var ties := !last.PreferredOver(like) && !like.PreferredOver(last);
      OfRank(routes[..|routes| - 1], like) + if ties then [last] else []
  }

  lemma {:induction false} PlacedIsStable(route: Route, ranked: seq<Route>, like: Route)
    requires Ranked(ranked)
    ensures OfRank(Placed(route, ranked), like) == OfRank(ranked + [route], like)
  {
    assert (ranked + [route])[..|ranked|] == ranked;
    if ranked != [] && route.PreferredOver(ranked[|ranked| - 1]) {
      var n := |ranked| - 1;
      var last := ranked[n];
      PlacedIsStable(route, ranked[..n], like);
      var r := Placed(route, ranked[..n]);
      assert (r + [last])[..|r|] == r;
      assert (ranked[..n] + [route])[..n] == ranked[..n];
    }
  }

  /** Routes that tie keep the order they had. */
  lemma {:induction false} StableSortIsStable(routes: seq<Route>, like: Route)
    ensures OfRank(StableSort(routes), like) == OfRank(routes, like)
  {
    if routes == [] {
    } else {
      var n := |routes| - 1;
      var sorted := StableSort(routes[..n]);
      StableSortIsStable(routes[..n], like);
      StableSortRanks(routes[..n]);
      PlacedIsStable(routes[n], sorted, like);
      assert (sorted + [routes[n]])[..n] == sorted;
    }
  }
}
