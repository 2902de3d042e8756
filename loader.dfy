/**
 * `load_data`: parse the two timestamps, drop rows where either fails, refuse
 * an empty table, compute the ride time, keep rides strictly between one
 * minute and one day, and add the calendar columns of the start time.
 * Reading the file is not modelled: the source is the table the file holds,
 * or None when the file does not exist.
 */
module Loader {
  import opened Wrappers
  import opened Seqs
  import opened Trips

  /** A row as read from the file, after timestamp parsing (`errors='coerce'` gives None). */
  datatype RawTrip = RawTrip(
    rideId: string,
    rideableType: string,
    startedAt: Option<Stamp>,
    endedAt: Option<Stamp>,
    startStation: Option<string>,
    endStation: Option<string>,
    startLat: Option<real>,
    startLng: Option<real>,
    endLat: Option<real>,
    endLng: Option<real>,
    memberCasual: string)

  /** Why loading gives no table. */
  datatype LoadError = NotFound | EmptyDataset

  /** `get_season`: the season of a month number. */
  function GetSeason(month: int): Season
  {
    if month in [12, 1, 2] then Winter
    else if month in [3, 4, 5] then Spring
    else if month in [6, 7, 8] then Summer
    else Fall
  }

  /** The months of each season, as a table independent of the chain of tests. */
  function SeasonMonths(s: Season): set<int>
  {
    match s
    case Winter => {12, 1, 2}
    case Spring => {3, 4, 5}
    case Summer => {6, 7, 8}
    case Fall => {9, 10, 11}
  }

  /** Every calendar month gets exactly the season whose month set contains it. */
  lemma SeasonOfMonth(month: int, s: Season)
    requires 1 <= month <= 12
    ensures GetSeason(month) == s <==> month in SeasonMonths(s)
  {
  }

  /** A month number outside 1..12 falls through every test to Fall. */
  lemma SeasonOutOfRange(month: int)
    requires month < 1 || 12 < month
    ensures GetSeason(month) == Fall
  {
  }

  /** Both timestamps parsed: the row survives `dropna(subset=['started_at', 'ended_at'])`. */
  predicate Parsed(r: RawTrip)
  {
    r.startedAt.Some? && r.endedAt.Some?
  }

  /** `(ended_at - started_at).dt.total_seconds() / 60`. */
  function RideMinutes(r: RawTrip): real
    requires Parsed(r)
  {
    (r.endedAt.value.epochSeconds - r.startedAt.value.epochSeconds) as real / 60.0
  }

  /** The duration window `1 < ride_time_min < 1440`. */
  predicate InWindow(minutes: real)
  {
    1.0 < minutes < 1440.0
  }

  /** The rows `load_data` keeps. */
  predicate Retained(r: RawTrip)
  {
    Parsed(r) && InWindow(RideMinutes(r))
  }

  /** A row is kept exactly when more than 60 and fewer than 86400 seconds pass between its timestamps. */
  lemma RetainedBySeconds(r: RawTrip)
    requires Parsed(r)
    ensures Retained(r) <==> 60 < r.endedAt.value.epochSeconds - r.startedAt.value.epochSeconds < 86400
  {
  }

  /** The window's boundaries: exactly 1 and exactly 1440 minutes are dropped, 2 and 1439 kept. */
  lemma WindowBoundaries()
    ensures !InWindow(1.0) && !InWindow(1440.0)
    ensures InWindow(2.0) && InWindow(1439.0)
    ensures forall m: real :: InWindow(m) <==> 1.0 < m && m < 1440.0
  {
  }

  /** The derived columns of a parsed row. */
  function ToTrip(r: RawTrip): (t: Trip)
    requires Parsed(r)
  {
    var start := r.startedAt.value;
    Trip(r.rideId, r.rideableType, start, r.endedAt.value,
         r.startStation, r.endStation, r.startLat, r.startLng, r.endLat, r.endLng,
         r.memberCasual,
         RideMinutes(r),
         MonthKey(start.date.year, start.date.month),
         start.hour,
         start.date,
         start.weekday,
         GetSeason(start.date.month))
  }

  /** The raw columns of a loaded trip. */
  function FromTrip(t: Trip): (r: RawTrip)
  {
    RawTrip(t.rideId, t.rideableType, Some(t.startedAt), Some(t.endedAt),
            t.startStation, t.endStation, t.startLat, t.startLng, t.endLat, t.endLng,
            t.memberCasual)
  }

  /** The derived columns of `t` are those its start and end timestamps determine. */
  predicate Derived(t: Trip)
  {
    && t.rideMinutes == (t.endedAt.epochSeconds - t.startedAt.epochSeconds) as real / 60.0
    && t.monthYear == MonthKey(t.startedAt.date.year, t.startedAt.date.month)
    && t.hour == t.startedAt.hour
    && t.date == t.startedAt.date
    && t.weekday == t.startedAt.weekday
    && t.season == GetSeason(t.startedAt.date.month)
  }

  /** Deriving columns loses nothing: the raw row is recovered, and a row is derived exactly when re-deriving it changes nothing. */
  lemma DeriveRoundTrip(r: RawTrip, t: Trip)
    requires Parsed(r)
    ensures FromTrip(ToTrip(r)) == r
    ensures Derived(ToTrip(r))
    ensures Derived(t) <==> ToTrip(FromTrip(t)) == t
  {
  }

  /** The raw columns of each loaded trip. */
  function Raws(ts: seq<Trip>): (rs: seq<RawTrip>)
    ensures |rs| == |ts|
    ensures forall i :: 0 <= i < |ts| ==> rs[i] == FromTrip(ts[i])
  {
    if ts == [] then [] else [FromTrip(ts[0])] + Raws(ts[1..])
  }

  /** Adds the derived columns to every row: the same rows, in the same order, each derived. */
  function DeriveColumns(rs: seq<RawTrip>): (ts: seq<Trip>)
    requires forall r :: r in rs ==> Parsed(r)
    ensures Raws(ts) == rs
    ensures forall t :: t in ts ==> Derived(t) && InWindow(t.rideMinutes) == Retained(FromTrip(t))
  {
    if rs == [] then []
    else
      var rest := DeriveColumns(rs[1..]);
      assert rs == [rs[0]] + rs[1..];
      DeriveRoundTrip(rs[0], ToTrip(rs[0]));
      var ts := [ToTrip(rs[0])] + rest;
      assert Raws(ts) == [FromTrip(ts[0])] + Raws(rest) by { assert ts[1..] == rest; }
      ts
  }

  /**
   * `load_data`. A missing file gives NotFound; a table with no row whose two
   * timestamps parse gives EmptyDataset. Otherwise the table holds, in input
   * order, exactly the rows whose timestamps parse and whose ride time lies in
   * the window, each with its derived columns. The emptiness test comes before
   * the duration window, so a table whose every ride falls outside the window
   * loads as an empty table.
   */
  method LoadData(source: Option<seq<RawTrip>>) returns (r: Result<seq<Trip>, LoadError>)
    ensures r == Failure(NotFound) <==> source.None?
    ensures r.Success? <==> source.Some? && exists x :: x in source.value && Parsed(x)
    ensures source.Some? ==> (r == Failure(EmptyDataset) <==> forall x :: x in source.value ==> !Parsed(x))
    ensures r.Success? ==> source.Some? && Raws(r.value) == Filter(source.value, Retained)
    ensures r.Success? ==> IsSubsequence(Raws(r.value), source.value)
    ensures r.Success? ==> forall t :: t in r.value ==> Derived(t) && InWindow(t.rideMinutes)
  {
    if source.None? {
      return Failure(NotFound);
    }
    var df := source.value;
    df := Filter(df, Parsed);
    NoneParsed(source.value);
    if df == [] {
      return Failure(EmptyDataset);
    }
    df := Filter(df, Retained);
    LoadedRows(source.value);
    var trips := DeriveColumns(df);
    r := Success(trips);
  }

  /** The parse filter leaves nothing exactly when no row of `src` parses. */
  lemma NoneParsed(src: seq<RawTrip>)
    ensures Filter(src, Parsed) == [] <==> forall x :: x in src ==> !Parsed(x)
  {
    var df := Filter(src, Parsed);
    if df != [] {
      assert df[0] in df;
    } else {
      forall x | x in src ensures !Parsed(x) {
        assert x !in df;
      }
    }
  }

  /** The table `load_data` returns for the parsed rows of `src`, and what it holds. */
  lemma LoadedRows(src: seq<RawTrip>)
    ensures var ts := DeriveColumns(Filter(Filter(src, Parsed), Retained));
      && Raws(ts) == Filter(src, Retained)
      && IsSubsequence(Raws(ts), src)
      && forall t :: t in ts ==> Derived(t) && InWindow(t.rideMinutes)
  {
    FilterTwice(src, Parsed, Retained, Retained);
  }
}
