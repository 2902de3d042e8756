/**
 * `query_top_routes`: rides grouped by (start station, end station), the `n`
 * routes with the most trips, and each route's member and casual counts.
 */
module Routes {
  import opened Wrappers
  import opened Seqs
  import opened Grouping
  import opened Ranking
  import opened Labels
  import opened Trips

  datatype Route = Route(from: string, to: string)

  /** The group key of a ride: its route, or none when either station name is missing (pandas drops such rows). */
  function RouteOf(): Trip -> Option<Route>
  {
    (t: Trip) =>
      if t.startStation.Some? && t.endStation.Some? then Some(Route(t.startStation.value, t.endStation.value))
      else None
  }

  /** One row of the route table. */
  datatype RouteStat = RouteStat(
    startStation: string,
    endStation: string,
    trips: nat,
    avgMinutes: real,
    memberTrips: nat,
    casualTrips: nat)

  /** The rows whose label does not normalise to `lbl`. */
  function NotNormalizedLabelIs(lbl: string): Trip -> bool
  {
    (t: Trip) => Normalize(t.memberCasual) != lbl
  }

  /** Every row either normalises to the label or does not. */
  lemma LabelComplement(ts: seq<Trip>, lbl: string)
    ensures CountNormalized(ts, lbl) + |Filter(ts, NotNormalizedLabelIs(lbl))| == |ts|
  {
    DisjointFilters(ts, NormalizedLabelIs(lbl), NotNormalizedLabelIs(lbl));
  }

  /**
   * The aggregate of one route. Casual trips are the trips less the normalised
   * member trips, so a ride with any label other than 'member' counts as casual.
   */
  function RouteRow(ts: seq<Trip>, route: Route): (s: RouteStat)
    ensures s.startStation == route.from && s.endStation == route.to
    ensures s.trips == |Group(ts, RouteOf(), route)|
    ensures s.memberTrips + s.casualTrips == s.trips
    ensures s.memberTrips == CountNormalized(Group(ts, RouteOf(), route), "member")
    ensures s.casualTrips == |Filter(Group(ts, RouteOf(), route), NotNormalizedLabelIs("member"))|
  {
    var g := Group(ts, RouteOf(), route);
    var members := CountNormalized(g, "member");
    LabelComplement(g, "member");
    RouteStat(route.from, route.to, |g|, MeanMinutes(g), members, |g| - members)
  }

  function RouteOfRow(s: RouteStat): Route
  {
    Route(s.startStation, s.endStation)
  }

  /** The rows of the routes `routes`, in that order. */
  function RowsFor(ts: seq<Trip>, routes: seq<Route>): (rows: seq<RouteStat>)
    ensures |rows| == |routes|
    ensures forall i :: 0 <= i < |routes| ==> rows[i] == RouteRow(ts, routes[i])
  {
    seq(|routes|, i requires 0 <= i < |routes| => RouteRow(ts, routes[i]))
  }

  /** The group-by before any sorting: one row per route that occurs. */
  function RouteGroups(ts: seq<Trip>): seq<RouteStat>
  {
    RowsFor(ts, Keys(ts, RouteOf()))
  }

  /** Every group row aggregates a route some ride takes, and every such route has a row. */
  lemma GroupRows(ts: seq<Trip>)
    ensures forall s :: s in RouteGroups(ts) ==>
      s == RouteRow(ts, RouteOfRow(s)) && s.trips >= 1 &&
      exists t :: t in ts && t.startStation == Some(s.startStation) && t.endStation == Some(s.endStation)
    ensures forall t :: t in ts && t.startStation.Some? && t.endStation.Some? ==>
      exists s :: s in RouteGroups(ts) && s.startStation == t.startStation.value && s.endStation == t.endStation.value
    ensures NoDup(RouteGroups(ts))
  {
    GroupRowsAreRows(ts);
    EveryRouteHasRow(ts);
    GroupRowsDistinct(ts);
  }

  lemma GroupRowsAreRows(ts: seq<Trip>)
    ensures forall s :: s in RouteGroups(ts) ==>
      s == RouteRow(ts, RouteOfRow(s)) && s.trips >= 1 &&
      exists t :: t in ts && t.startStation == Some(s.startStation) && t.endStation == Some(s.endStation)
  {
    var ks := Keys(ts, RouteOf());
    var rows := RouteGroups(ts);
    forall s | s in rows
      ensures s == RouteRow(ts, RouteOfRow(s)) && s.trips >= 1
      ensures exists t :: t in ts && t.startStation == Some(s.startStation) && t.endStation == Some(s.endStation)
    {
      var i :| 0 <= i < |rows| && rows[i] == s;
      KeyRow(ts, ks[i]);
    }
  }

  /** The row of a route that occurs aggregates a non-empty group of rides between its two stations. */
  lemma KeyRow(ts: seq<Trip>, k: Route)
    requires k in Keys(ts, RouteOf())
    ensures var s := RouteRow(ts, k);
      && RouteOfRow(s) == k && s.trips >= 1
      && exists t :: t in ts && t.startStation == Some(k.from) && t.endStation == Some(k.to)
  {
    KeyHasGroup(ts, RouteOf(), k);
    var t :| t in ts && RouteOf()(t) == Some(k);
    assert t.startStation.Some? && t.endStation.Some?;
    assert t.startStation == Some(k.from) && t.endStation == Some(k.to);
  }

  lemma EveryRouteHasRow(ts: seq<Trip>)
    ensures forall t :: t in ts && t.startStation.Some? && t.endStation.Some? ==>
      exists s :: s in RouteGroups(ts) && s.startStation == t.startStation.value && s.endStation == t.endStation.value
  {
    var ks := Keys(ts, RouteOf());
    var rows := RouteGroups(ts);
    forall t | t in ts && t.startStation.Some? && t.endStation.Some?
      ensures exists s :: s in rows && s.startStation == t.startStation.value && s.endStation == t.endStation.value
    {
      var k := Route(t.startStation.value, t.endStation.value);
      assert RouteOf()(t) == Some(k);
      var i :| 0 <= i < |ks| && ks[i] == k;
      assert rows[i] in rows;
    }
  }

  lemma GroupRowsDistinct(ts: seq<Trip>)
    ensures NoDup(RouteGroups(ts))
  {
    var ks := Keys(ts, RouteOf());
    var rows := RouteGroups(ts);
    forall i, j | 0 <= i < j < |rows| ensures rows[i] != rows[j] {
      assert RouteOfRow(rows[i]) == ks[i] && RouteOfRow(rows[j]) == ks[j];
    }
  }

  /** The sum of the Trips column. */
  function TotalTrips(rows: seq<RouteStat>): nat
  {
    if rows == [] then 0 else TotalTrips(rows[..|rows| - 1]) + rows[|rows| - 1].trips
  }

  lemma {:induction false} TotalTripsBySize(ts: seq<Trip>, rows: seq<RouteStat>, routes: seq<Route>)
    requires |rows| == |routes|
    requires forall i :: 0 <= i < |rows| ==> rows[i].trips == |Group(ts, RouteOf(), routes[i])|
    ensures TotalTrips(rows) == TotalSize(ts, RouteOf(), routes)
  {
    if rows != [] {
      var n := |rows| - 1;
      assert forall i :: 0 <= i < n ==> rows[..n][i] == rows[i] && routes[..n][i] == routes[i];
      TotalTripsBySize(ts, rows[..n], routes[..n]);
      assert TotalTrips(rows) == TotalTrips(rows[..n]) + rows[n].trips;
      assert TotalSize(ts, RouteOf(), routes) == TotalSize(ts, RouteOf(), routes[..n]) + |Group(ts, RouteOf(), routes[n])|;
    }
  }

  lemma TotalTripsOfRows(ts: seq<Trip>, routes: seq<Route>)
    ensures TotalTrips(RowsFor(ts, routes)) == TotalSize(ts, RouteOf(), routes)
  {
    TotalTripsBySize(ts, RowsFor(ts, routes), routes);
  }

  /** The trips of all routes add up to the rides that have both station names. */
  lemma RouteConservation(ts: seq<Trip>)
    ensures TotalTrips(RouteGroups(ts)) == |Keyed(ts, RouteOf())|
    ensures (forall t :: t in ts ==> t.startStation.Some? && t.endStation.Some?) ==> TotalTrips(RouteGroups(ts)) == |ts|
  {
    TotalTripsOfRows(ts, Keys(ts, RouteOf()));
    Conservation(ts, RouteOf());
    assert (forall t :: t in ts ==> t.startStation.Some? && t.endStation.Some?) ==> forall t :: t in ts ==> RouteOf()(t).Some?;
  }

  function ByTrips(): RouteStat -> int { (s: RouteStat) => s.trips }

  /** The properties of the top-N cut of the route group-by. */
  ghost predicate TopRouteTable(ts: seq<Trip>, n: nat, r: seq<RouteStat>)
  {
    && |r| == (if n < |Keys(ts, RouteOf())| then n else |Keys(ts, RouteOf())|)
    && (forall i, j :: 0 <= i < j < |r| ==> r[i].trips >= r[j].trips)
    && (forall s :: s in r ==> s == RouteRow(ts, RouteOfRow(s)) && s.trips >= 1)
    && (forall s :: s in r ==> s.memberTrips + s.casualTrips == s.trips)
    && (forall i, j :: 0 <= i < j < |r| ==> RouteOfRow(r[i]) != RouteOfRow(r[j]))
    && (forall s, y :: s in RouteGroups(ts) && s !in r && y in r ==> s.trips <= y.trips)
  }

  lemma TopOfGroups(ts: seq<Trip>, n: nat)
    ensures TopRouteTable(ts, n, TopN(RouteGroups(ts), ByTrips(), n))
  {
    var rows := RouteGroups(ts);
    var r := TopN(rows, ByTrips(), n);
    GroupRows(ts);
    forall i, j | 0 <= i < j < |r| ensures r[i].trips >= r[j].trips {
      assert ByTrips()(r[i]) >= ByTrips()(r[j]);
    }
    forall s, y | s in rows && s !in r && y in r ensures s.trips <= y.trips {
      assert ByTrips()(s) <= ByTrips()(y);
    }
    forall s | s in r ensures s in rows {
      assert s in multiset(r);
    }
    forall i, j | 0 <= i < j < |r| ensures RouteOfRow(r[i]) != RouteOfRow(r[j]) {
      assert r[i] in r && r[j] in r;
    }
  }

  /**
   * `query_top_routes(df, n)`: the `n` busiest routes, busiest first, each
   * aggregating exactly its own rides, distinct, and no dropped route busier
   * than a kept one.
   */
  function QueryTopRoutes(ts: seq<Trip>, n: nat): (r: seq<RouteStat>)
    ensures |r| <= n
    ensures TopRouteTable(ts, n, r)
  {
    TopOfGroups(ts, n);
    TopN(RouteGroups(ts), ByTrips(), n)
  }
}
