/**
 * Per-station aggregation: `query_station_stats`, and the same group-by that
 * the dashboard writes out inline for the station map (top 50 by trips,
 * coloured by dominant rider) and for the member- and casual-focused tables
 * (top 20 by member trips and by casual trips).
 */
module Stations {
  import opened Wrappers
  import opened Seqs
  import opened Grouping
  import opened Ranking
  import opened Labels
  import opened Trips

  /** Which station, latitude and longitude columns the query groups by. */
  datatype Side = Start | End

  function StationName(t: Trip, side: Side): Option<string>
  {
    match side
    case Start => t.startStation
    case End => t.endStation
  }

  function StationKey(side: Side): Trip -> Option<string>
  {
    (t: Trip) => StationName(t, side)
  }

  function LatColumn(side: Side): Trip -> Option<real>
  {
    (t: Trip) => match side case Start => t.startLat case End => t.endLat
  }

  function LngColumn(side: Side): Trip -> Option<real>
  {
    (t: Trip) => match side case Start => t.startLng case End => t.endLng
  }

  /** One row of the station table. */
  datatype StationStat = StationStat(
    name: string,
    trips: nat,
    avgMinutes: real,
    lat: Option<real>,
    lng: Option<real>,
    memberTrips: nat,
    casualTrips: nat)

  /** pandas' 'first' aggregation: the first non-null value of a column in the group. */
  function FirstValue(g: seq<Trip>, col: Trip -> Option<real>): (v: Option<real>)
    ensures v.Some? ==> exists i :: 0 <= i < |g| && col(g[i]) == v && forall j :: 0 <= j < i ==> col(g[j]).None?
    ensures v.None? ==> forall i :: 0 <= i < |g| ==> col(g[i]).None?
  {
    if g == [] then None
    else if col(g[0]).Some? then col(g[0])
    else
      var v := FirstValue(g[1..], col);
      assert forall i :: 1 <= i < |g| ==> g[i] == g[1..][i - 1];
      v
  }

  /** The aggregate of one station: trip count, mean ride time, first coordinates, normalised member and casual counts. */
  function StationRow(ts: seq<Trip>, side: Side, name: string): StationStat
  {
    var g := Group(ts, StationKey(side), name);
    StationStat(name, |g|, MeanMinutes(g), FirstValue(g, LatColumn(side)), FirstValue(g, LngColumn(side)),
                CountNormalized(g, "member"), CountNormalized(g, "casual"))
  }

  /** The rows of the stations `names`, in that order. */
  function RowsFor(ts: seq<Trip>, side: Side, names: seq<string>): (rows: seq<StationStat>)
    ensures |rows| == |names|
    ensures forall i :: 0 <= i < |names| ==> rows[i] == StationRow(ts, side, names[i])
  {
    MapSeq(names, RowOf(ts, side))
  }

  function RowOf(ts: seq<Trip>, side: Side): string -> StationStat
  {
    (name: string) => StationRow(ts, side, name)
  }

  /** The group-by before any sorting: one row per station name that occurs. */
  function StationGroups(ts: seq<Trip>, side: Side): seq<StationStat>
  {
    RowsFor(ts, side, Keys(ts, StationKey(side)))
  }

  /** What every group row satisfies: it aggregates exactly its station's non-empty group, and its names are distinct. */
  lemma GroupRows(ts: seq<Trip>, side: Side)
    ensures forall s :: s in StationGroups(ts, side) ==>
      s == StationRow(ts, side, s.name) && s.trips >= 1 && exists t :: t in ts && StationName(t, side) == Some(s.name)
    ensures forall t :: t in ts && StationName(t, side).Some? ==>
      exists s :: s in StationGroups(ts, side) && s.name == StationName(t, side).value
    ensures NoDup(StationGroups(ts, side))
  {
    GroupRowsAreRows(ts, side);
    EveryStationHasRow(ts, side);
    GroupRowsDistinct(ts, side);
  }

  lemma GroupRowsAreRows(ts: seq<Trip>, side: Side)
    ensures forall s :: s in StationGroups(ts, side) ==>
      s == StationRow(ts, side, s.name) && s.trips >= 1 && exists t :: t in ts && StationName(t, side) == Some(s.name)
  {
    var ks := Keys(ts, StationKey(side));
    var rows := StationGroups(ts, side);
    forall s | s in rows
      ensures s == StationRow(ts, side, s.name) && s.trips >= 1
      ensures exists t :: t in ts && StationName(t, side) == Some(s.name)
    {
      var i :| 0 <= i < |rows| && rows[i] == s;
      KeyRow(ts, side, ks[i]);
    }
  }

  lemma EveryStationHasRow(ts: seq<Trip>, side: Side)
    ensures forall t :: t in ts && StationName(t, side).Some? ==>
      exists s :: s in StationGroups(ts, side) && s.name == StationName(t, side).value
  {
    forall t | t in ts && StationName(t, side).Some?
      ensures exists s :: s in StationGroups(ts, side) && s.name == StationName(t, side).value
    {
      StationHasRow(ts, side, t);
    }
  }

  lemma StationHasRow(ts: seq<Trip>, side: Side, t: Trip)
    requires t in ts && StationName(t, side).Some?
    ensures StationRow(ts, side, StationName(t, side).value) in StationGroups(ts, side)
  {
    var ks := Keys(ts, StationKey(side));
    var rows := StationGroups(ts, side);
    assert StationKey(side)(t).Some?;
    var k := StationName(t, side).value;
    var i :| 0 <= i < |ks| && ks[i] == k;
    assert rows[i] == StationRow(ts, side, k);
  }

  lemma GroupRowsDistinct(ts: seq<Trip>, side: Side)
    ensures NoDup(StationGroups(ts, side))
  {
    var ks := Keys(ts, StationKey(side));
    var rows := StationGroups(ts, side);
    forall i, j | 0 <= i < j < |rows| ensures rows[i] != rows[j] {
      assert rows[i].name == ks[i] && rows[j].name == ks[j];
    }
  }

  /** The row of a station that occurs aggregates a non-empty group of rides carrying that name. */
  lemma KeyRow(ts: seq<Trip>, side: Side, k: string)
    requires k in Keys(ts, StationKey(side))
    ensures var s := StationRow(ts, side, k);
      s.name == k && s.trips >= 1 && exists t :: t in ts && StationName(t, side) == Some(k)
  {
    KeyHasGroup(ts, StationKey(side), k);
    var t :| t in ts && StationKey(side)(t) == Some(k);
    assert StationRow(ts, side, k).trips == |Group(ts, StationKey(side), k)|;
  }

  /** The sum of the Trips column. */
  function TotalTrips(rows: seq<StationStat>): nat
  {
    if rows == [] then 0 else TotalTrips(rows[..|rows| - 1]) + rows[|rows| - 1].trips
  }

  lemma {:induction false} TotalTripsBySize(ts: seq<Trip>, side: Side, rows: seq<StationStat>, names: seq<string>)
    requires |rows| == |names|
    requires forall i :: 0 <= i < |rows| ==> rows[i].trips == |Group(ts, StationKey(side), names[i])|
    ensures TotalTrips(rows) == TotalSize(ts, StationKey(side), names)
  {
    if rows != [] {
      var n := |rows| - 1;
      assert forall i :: 0 <= i < n ==> rows[..n][i] == rows[i] && names[..n][i] == names[i];
      TotalTripsBySize(ts, side, rows[..n], names[..n]);
      assert TotalTrips(rows) == TotalTrips(rows[..n]) + rows[n].trips;
      assert TotalSize(ts, StationKey(side), names) == TotalSize(ts, StationKey(side), names[..n]) + |Group(ts, StationKey(side), names[n])|;
    }
  }

  lemma TotalTripsOfRows(ts: seq<Trip>, side: Side, names: seq<string>)
    ensures TotalTrips(RowsFor(ts, side, names)) == TotalSize(ts, StationKey(side), names)
  {
    TotalTripsBySize(ts, side, RowsFor(ts, side, names), names);
  }

  /**
   * Count conservation before the top-N cut: the Trips of all stations add up
   * to the number of rows that have a station name (pandas drops rows whose
   * group key is null), so to every row when no name is missing.
   */
  lemma StationConservation(ts: seq<Trip>, side: Side)
    ensures TotalTrips(StationGroups(ts, side)) == |Keyed(ts, StationKey(side))|
    ensures (forall t :: t in ts ==> StationName(t, side).Some?) ==> TotalTrips(StationGroups(ts, side)) == |ts|
  {
    TotalTripsOfRows(ts, side, Keys(ts, StationKey(side)));
    Conservation(ts, StationKey(side));
    assert (forall t :: t in ts ==> StationName(t, side).Some?) ==> forall t :: t in ts ==> StationKey(side)(t).Some?;
  }

  /**
   * The counts of a station row: member and casual trips never exceed the
   * trips, and add up to them exactly when every label of the station
   * normalises to 'member' or 'casual'.
   */
  lemma StationRowCounts(ts: seq<Trip>, side: Side, name: string)
    ensures var s := StationRow(ts, side, name);
      && s.memberTrips + s.casualTrips <= s.trips
      && (s.memberTrips + s.casualTrips == s.trips <==>
            forall t :: t in ts && StationName(t, side) == Some(name) ==>
              Normalize(t.memberCasual) == "member" || Normalize(t.memberCasual) == "casual")
  {
    var g := Group(ts, StationKey(side), name);
    var s := StationRow(ts, side, name);
    assert s.trips == |g| && s.memberTrips == CountNormalized(g, "member") && s.casualTrips == CountNormalized(g, "casual");
    NormalizedSplit(g);
    assert forall t :: t in g <==> t in ts && StationName(t, side) == Some(name);
  }

  /** On a loaded table (every ride inside the window) every station's mean ride time lies inside the window too. */
  lemma StationMeanInWindow(ts: seq<Trip>, side: Side, name: string)
    requires forall t :: t in ts ==> 1.0 < t.rideMinutes < 1440.0
    requires name in Keys(ts, StationKey(side))
    ensures 1.0 < StationRow(ts, side, name).avgMinutes < 1440.0
  {
    KeyHasGroup(ts, StationKey(side), name);
    MeanWithin(Group(ts, StationKey(side), name), 1.0, 1440.0);
  }

  function ByTrips(): StationStat -> int { (s: StationStat) => s.trips }
  function ByMemberTrips(): StationStat -> int { (s: StationStat) => s.memberTrips }
  function ByCasualTrips(): StationStat -> int { (s: StationStat) => s.casualTrips }

  /** The properties shared by every top-N table cut from the station group-by. */
  ghost predicate TopStationTable(ts: seq<Trip>, side: Side, key: StationStat -> int, n: nat, r: seq<StationStat>)
  {
    && |r| == (if n < |Keys(ts, StationKey(side))| then n else |Keys(ts, StationKey(side))|)
    && (forall i, j :: 0 <= i < j < |r| ==> key(r[i]) >= key(r[j]))
    && (forall s :: s in r ==> s == StationRow(ts, side, s.name) && s.trips >= 1)
    && (forall i, j :: 0 <= i < j < |r| ==> r[i].name != r[j].name)
    && (forall s, y :: s in StationGroups(ts, side) && s !in r && y in r ==> key(s) <= key(y))
  }

  lemma TopOfGroups(ts: seq<Trip>, side: Side, key: StationStat -> int, n: nat)
    ensures TopStationTable(ts, side, key, n, TopN(StationGroups(ts, side), key, n))
  {
    var rows := StationGroups(ts, side);
    var r := TopN(rows, key, n);
    GroupRows(ts, side);
    forall s | s in r ensures s in rows {
      assert s in multiset(r);
    }
    forall i, j | 0 <= i < j < |r| ensures r[i].name != r[j].name {
      assert r[i] in r && r[j] in r;
    }
  }

  /** `query_station_stats(df, station_col, lat_col, lng_col, n)`: the `n` busiest stations, busiest first. */
  function QueryStationStats(ts: seq<Trip>, side: Side, n: nat): (r: seq<StationStat>)
    ensures |r| <= n
    ensures TopStationTable(ts, side, ByTrips(), n, r)
  {
    TopOfGroups(ts, side, ByTrips(), n);
    TopN(StationGroups(ts, side), ByTrips(), n)
  }

  /** The map marker colour: Member when member trips outnumber casual ones, Casual otherwise (ties included). */
  function DominantRider(s: StationStat): (r: Rider)
  {
    if s.memberTrips > s.casualTrips then Member else Casual
  }

  lemma DominantRiderRule(s: StationStat)
    ensures DominantRider(s) == Member <==> s.memberTrips > s.casualTrips
    ensures s.memberTrips == s.casualTrips ==> DominantRider(s) == Casual
  {
  }

  /** A marker of the station map: the station and the rider type that colours it. */
  datatype Marker = Marker(station: StationStat, dominant: Rider)

  function Markers(top: seq<StationStat>): (r: seq<Marker>)
    ensures |r| == |top|
    ensures forall i :: 0 <= i < |r| ==> r[i].station == top[i] && r[i].dominant == DominantRider(top[i])
  {
    seq(|top|, i requires 0 <= i < |top| => Marker(top[i], DominantRider(top[i])))
  }

  /** The stations the markers stand for, in marker order. */
  function MarkedStations(r: seq<Marker>): (s: seq<StationStat>)
    ensures |s| == |r|
    ensures forall i :: 0 <= i < |r| ==> s[i] == r[i].station
  {
    MapSeq(r, (m: Marker) => m.station)
  }

  /** The station map: the 50 busiest start stations, busiest first, each coloured by its dominant rider. */
  function MapStations(ts: seq<Trip>): (r: seq<Marker>)
    ensures |r| <= 50
    ensures TopStationTable(ts, Start, ByTrips(), 50, MarkedStations(r))
    ensures forall i, j :: 0 <= i < j < |r| ==> r[i].station.trips >= r[j].station.trips
    ensures forall i :: 0 <= i < |r| ==>
      && r[i].station == StationRow(ts, Start, r[i].station.name)
      && (r[i].dominant == Member <==> r[i].station.memberTrips > r[i].station.casualTrips)
  {
    var top := QueryStationStats(ts, Start, 50);
    MarkersOfTop(ts, top);
    Markers(top)
  }

  /** The markers of a top-50 table keep its order and its rows, and colour each by its dominant rider. */
  lemma MarkersOfTop(ts: seq<Trip>, top: seq<StationStat>)
    requires TopStationTable(ts, Start, ByTrips(), 50, top)
    ensures MarkedStations(Markers(top)) == top
    ensures var r := Markers(top);
      && (forall i, j :: 0 <= i < j < |r| ==> r[i].station.trips >= r[j].station.trips)
      && (forall i :: 0 <= i < |r| ==>
            && r[i].station == StationRow(ts, Start, r[i].station.name)
            && (r[i].dominant == Member <==> r[i].station.memberTrips > r[i].station.casualTrips))
  {
    var r := Markers(top);
    forall i, j | 0 <= i < j < |r| ensures r[i].station.trips >= r[j].station.trips {
      assert ByTrips()(top[i]) >= ByTrips()(top[j]);
    }
    forall i | 0 <= i < |r| ensures r[i].station == StationRow(ts, Start, r[i].station.name) {
      assert top[i] in top;
    }
  }

  /** The "member-focused" table: the 20 start stations with the most member trips. */
  function MemberFocused(ts: seq<Trip>): (r: seq<StationStat>)
    ensures |r| <= 20
    ensures TopStationTable(ts, Start, ByMemberTrips(), 20, r)
  {
    TopOfGroups(ts, Start, ByMemberTrips(), 20);
    TopN(StationGroups(ts, Start), ByMemberTrips(), 20)
  }

  /** The "casual-focused" table: the 20 start stations with the most casual trips. */
  function CasualFocused(ts: seq<Trip>): (r: seq<StationStat>)
    ensures |r| <= 20
    ensures TopStationTable(ts, Start, ByCasualTrips(), 20, r)
  {
    TopOfGroups(ts, Start, ByCasualTrips(), 20);
    TopN(StationGroups(ts, Start), ByCasualTrips(), 20)
  }
}
