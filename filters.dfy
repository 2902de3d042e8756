/**
 * `filter_data` and the sidebar that feeds it: rider type from a radio
 * button, seasons and bike types from check boxes, where an empty check-box
 * selection is replaced by the full option list.
 */
module Filters {
  import opened Wrappers
  import opened Seqs
  import opened Labels
  import opened Grouping
  import opened Trips

  /** The radio option under which no rider predicate applies. */
  const AllRiders: string := "All Riders"

  /** `seasons_options`, in the order the sidebar lists them. */
  const SeasonOptions: seq<Season> := [Winter, Spring, Summer, Fall]

  /** The rider-type predicate: the label equals the lower-cased radio choice. */
  function RiderIs(riderType: string): Trip -> bool
  {
    (t: Trip) => t.memberCasual == Lower(riderType)
  }

  /** The season predicate `season.isin(seasons)`. */
  function SeasonIn(seasons: seq<Season>): Trip -> bool
  {
    (t: Trip) => t.season in seasons
  }

  /** The bike-type predicate `rideable_type.isin(bike_types)`. */
  function BikeIn(bikeTypes: seq<string>): Trip -> bool
  {
    (t: Trip) => t.rideableType in bikeTypes
  }

  /** The three active predicates joined by AND; an inactive one (All Riders, an empty list) admits every row. */
  predicate Matches(t: Trip, riderType: string, seasons: seq<Season>, bikeTypes: seq<string>)
  {
    && (riderType != AllRiders ==> t.memberCasual == Lower(riderType))
    && (seasons != [] ==> t.season in seasons)
    && (bikeTypes != [] ==> t.rideableType in bikeTypes)
  }

  function MatchesAll(riderType: string, seasons: seq<Season>, bikeTypes: seq<string>): Trip -> bool
  {
    (t: Trip) => Matches(t, riderType, seasons, bikeTypes)
  }

  /**
   * `filter_data`: the rows that satisfy every active predicate, in input
   * order, the same rows a single filter by the conjunction selects.
   */
  function FilterData(ts: seq<Trip>, riderType: string, seasons: seq<Season>, bikeTypes: seq<string>): (r: seq<Trip>)
    ensures r == Filter(ts, MatchesAll(riderType, seasons, bikeTypes))
    ensures IsSubsequence(r, ts)
    ensures forall t :: t in r ==> Matches(t, riderType, seasons, bikeTypes)
    ensures forall t :: t in ts && Matches(t, riderType, seasons, bikeTypes) ==> t in r
  {
    var byRider := if riderType != AllRiders then Filter(ts, RiderIs(riderType)) else ts;
    var bySeason := if seasons != [] then Filter(byRider, SeasonIn(seasons)) else byRider;
    var byBike := if bikeTypes != [] then Filter(bySeason, BikeIn(bikeTypes)) else bySeason;
    FilterChain(ts, riderType, seasons, bikeTypes);
    byBike
  }

  /** The three conditional filters in a row select what the conjunction selects. */
  lemma FilterChain(ts: seq<Trip>, riderType: string, seasons: seq<Season>, bikeTypes: seq<string>)
    ensures (var byRider := if riderType != AllRiders then Filter(ts, RiderIs(riderType)) else ts;
             var bySeason := if seasons != [] then Filter(byRider, SeasonIn(seasons)) else byRider;
             var byBike := if bikeTypes != [] then Filter(bySeason, BikeIn(bikeTypes)) else bySeason;
             byBike == Filter(ts, MatchesAll(riderType, seasons, bikeTypes)))
  {
    var rider := (t: Trip) => riderType != AllRiders ==> t.memberCasual == Lower(riderType);
    var riderSeason := (t: Trip) => rider(t) && (seasons != [] ==> t.season in seasons);
    var byRider := if riderType != AllRiders then Filter(ts, RiderIs(riderType)) else ts;
    if riderType != AllRiders {
      FilterSameVerdict(ts, RiderIs(riderType), rider);
    } else {
      FilterKeepsAll(ts, rider);
    }
    assert byRider == Filter(ts, rider);
    var bySeason := if seasons != [] then Filter(byRider, SeasonIn(seasons)) else byRider;
    if seasons != [] {
      FilterTwice(ts, rider, SeasonIn(seasons), riderSeason);
    } else {
      FilterSameVerdict(ts, rider, riderSeason);
    }
    assert bySeason == Filter(ts, riderSeason);
    if bikeTypes != [] {
      FilterTwice(ts, riderSeason, BikeIn(bikeTypes), MatchesAll(riderType, seasons, bikeTypes));
    } else {
      FilterSameVerdict(ts, riderSeason, MatchesAll(riderType, seasons, bikeTypes));
    }
  }

  /** With All Riders and two empty lists nothing is filtered out. */
  lemma NoSelectionIsIdentity(ts: seq<Trip>)
    ensures FilterData(ts, AllRiders, [], []) == ts
  {
  }

  /** A rider choice other than All Riders keeps exactly the rows labelled with the lower-cased choice. */
  lemma RiderChoice(ts: seq<Trip>, riderType: string)
    requires riderType != AllRiders
    ensures FilterData(ts, riderType, [], []) == WithLabel(ts, Lower(riderType))
  {
    FilterSameVerdict(ts, MatchesAll(riderType, [], []), LabelIs(Lower(riderType)));
  }

  /** The radio choices Member and Casual keep exactly the rows labelled 'member' and 'casual'. */
  lemma RiderChoices(ts: seq<Trip>)
    ensures FilterData(ts, "Member", [], []) == WithLabel(ts, "member")
    ensures FilterData(ts, "Casual", [], []) == WithLabel(ts, "casual")
  {
    LowerChoices();
    RiderChoice(ts, "Member");
    RiderChoice(ts, "Casual");
  }

  /** The options that are ticked, in option order (`[o for o in options if checkbox(o)]`). */
  function Ticked<T(==)>(options: seq<T>, ticked: set<T>): seq<T>
  {
    Filter(options, IsTicked(ticked))
  }

  function IsTicked<T(==)>(ticked: set<T>): T -> bool
  {
    (o: T) => o in ticked
  }

  /** No box ticked selects no option; every option ticked selects them all, in order. */
  lemma TickedExtremes<T>(options: seq<T>, ticked: set<T>)
    ensures Ticked(options, {}) == []
    ensures (forall o :: o in options ==> o in ticked) ==> Ticked(options, ticked) == options
  {
    FilterKeepsNone(options, IsTicked({}));
    if forall o :: o in options ==> o in ticked {
      FilterKeepsAll(options, IsTicked(ticked));
    }
  }

  /** `if not selection: selection = options`. */
  function OrAll<T>(selection: seq<T>, options: seq<T>): (r: seq<T>)
    ensures selection == [] ==> r == options
    ensures selection != [] ==> r == selection
  {
    if selection == [] then options else selection
  }

  /** `df['rideable_type'].unique()`: the bike types of the table in order of first appearance. */
  function BikeOptions(df: seq<Trip>): (r: seq<string>)
    ensures NoDup(r)
    ensures forall t :: t in df ==> t.rideableType in r
    ensures forall b :: b in r ==> exists t :: t in df && t.rideableType == b
  {
    Keys(df, (t: Trip) => Some(t.rideableType))
  }

  /** The season list handed to `filter_data`. */
  function SeasonChoice(ticked: set<Season>): seq<Season>
  {
    OrAll(Ticked(SeasonOptions, ticked), SeasonOptions)
  }

  /** The bike-type list handed to `filter_data`. */
  function BikeChoice(df: seq<Trip>, ticked: set<string>): seq<string>
  {
    OrAll(Ticked(BikeOptions(df), ticked), BikeOptions(df))
  }

  /** The filtered table the dashboard shows, for a rider choice and the ticked check boxes. */
  function SidebarFilter(df: seq<Trip>, riderType: string, seasonTicks: set<Season>, bikeTicks: set<string>): seq<Trip>
  {
    FilterData(df, riderType, SeasonChoice(seasonTicks), BikeChoice(df, bikeTicks))
  }

  /** Every season is a sidebar option, so the full season list restricts nothing. */
  lemma AllSeasonsRestrictNothing(ts: seq<Trip>, riderType: string, bikeTypes: seq<string>)
    ensures FilterData(ts, riderType, SeasonOptions, bikeTypes) == FilterData(ts, riderType, [], bikeTypes)
  {
    var full, none := MatchesAll(riderType, SeasonOptions, bikeTypes), MatchesAll(riderType, [], bikeTypes);
    forall t | t in ts ensures full(t) == none(t) {
      assert t.season in SeasonOptions by { EverySeasonIsAnOption(t.season); }
    }
    FilterSameVerdict(ts, full, none);
  }

  /** The season options list every season. */
  lemma EverySeasonIsAnOption(s: Season)
    ensures s in SeasonOptions
  {
    match s
    case Winter => assert SeasonOptions[0] == s;
    case Spring => assert SeasonOptions[1] == s;
    case Summer => assert SeasonOptions[2] == s;
    case Fall => assert SeasonOptions[3] == s;
  }

  /** The bike options are taken from the table itself, so the full bike list restricts nothing. */
  lemma AllBikesRestrictNothing(df: seq<Trip>, riderType: string, seasons: seq<Season>)
    ensures FilterData(df, riderType, seasons, BikeOptions(df)) == FilterData(df, riderType, seasons, [])
  {
    var opts := BikeOptions(df);
    var full, none := MatchesAll(riderType, seasons, opts), MatchesAll(riderType, seasons, []);
    forall t | t in df ensures full(t) == none(t) {
      assert t.rideableType in opts;
    }
    FilterSameVerdict(df, full, none);
  }

  /** With All Riders and every box ticked, or every box cleared, the dashboard shows the whole table. */
  lemma DefaultSidebarIsIdentity(df: seq<Trip>)
    ensures FilterData(df, AllRiders, SeasonOptions, BikeOptions(df)) == df
    ensures SidebarFilter(df, AllRiders, {}, {}) == df
  {
    AllSeasonsRestrictNothing(df, AllRiders, BikeOptions(df));
    AllBikesRestrictNothing(df, AllRiders, []);
    NoSelectionIsIdentity(df);
    TickedExtremes(SeasonOptions, {});
    TickedExtremes(BikeOptions(df), {});
    assert SeasonChoice({}) == SeasonOptions;
    assert BikeChoice(df, {}) == BikeOptions(df);
  }

  /** Clearing every season box filters exactly as ticking all of them does, and as no season filter at all. */
  lemma NoSeasonTickedMeansAll(df: seq<Trip>, riderType: string, bikeTicks: set<string>)
    ensures SidebarFilter(df, riderType, {}, bikeTicks) == SidebarFilter(df, riderType, {Winter, Spring, Summer, Fall}, bikeTicks)
    ensures SidebarFilter(df, riderType, {}, bikeTicks) == FilterData(df, riderType, [], BikeChoice(df, bikeTicks))
  {
    TickedExtremes(SeasonOptions, {});
    forall o | o in SeasonOptions ensures o in {Winter, Spring, Summer, Fall} {
    }
    TickedExtremes(SeasonOptions, {Winter, Spring, Summer, Fall});
    assert SeasonChoice({}) == SeasonOptions;
    assert SeasonChoice({Winter, Spring, Summer, Fall}) == SeasonOptions;
    AllSeasonsRestrictNothing(df, riderType, BikeChoice(df, bikeTicks));
  }

  /** Clearing every bike box filters exactly as ticking all of them does, and as no bike filter at all. */
  lemma NoBikeTickedMeansAll(df: seq<Trip>, riderType: string, seasonTicks: set<Season>)
    ensures SidebarFilter(df, riderType, seasonTicks, {}) == SidebarFilter(df, riderType, seasonTicks, set t | t in df :: t.rideableType)
    ensures SidebarFilter(df, riderType, seasonTicks, {}) == FilterData(df, riderType, SeasonChoice(seasonTicks), [])
  {
    var opts := BikeOptions(df);
    var all := set t | t in df :: t.rideableType;
    forall o | o in opts ensures o in all {
      var t :| t in df && t.rideableType == o;
    }
    TickedExtremes(opts, {});
    TickedExtremes(opts, all);
    assert BikeChoice(df, {}) == opts;
    assert BikeChoice(df, all) == opts;
    AllBikesRestrictNothing(df, riderType, SeasonChoice(seasonTicks));
  }
}
