/**
 * The holiday calendar and `query_holiday_stats`: one summary row per
 * calendar holiday on which at least one ride started, in date order.
 */
module Holidays {
  import opened Wrappers
  import opened Seqs
  import opened Grouping
  import opened Ranking
  import opened Trips

  datatype Holiday = Holiday(date: Date, name: string)

  /** A holiday table whose dates are valid and strictly increasing, hence distinct. */
  ghost predicate Calendar(cal: seq<Holiday>)
  {
    && (forall i :: 0 <= i < |cal| ==> ValidDate(cal[i].date))
    && (forall i, j :: 0 <= i < j < |cal| ==> DateBefore(cal[i].date, cal[j].date))
  }

  /** `HOLIDAYS_DATA`, with its date strings already parsed. */
  const HolidaysData: seq<Holiday> := [
    Holiday(Date(2024, 9, 2), "Labor Day"), Holiday(Date(2024, 10, 14), "Columbus Day"),
    Holiday(Date(2024, 11, 11), "Veterans Day"), Holiday(Date(2024, 11, 28), "Thanksgiving"),
    Holiday(Date(2024, 12, 25), "Christmas"), Holiday(Date(2025, 1, 1), "New Year's Day"),
    Holiday(Date(2025, 1, 20), "MLK Jr. Day"), Holiday(Date(2025, 2, 17), "Presidents' Day"),
    Holiday(Date(2025, 5, 26), "Memorial Day"), Holiday(Date(2025, 6, 19), "Juneteenth"),
    Holiday(Date(2025, 7, 4), "Independence Day"), Holiday(Date(2025, 9, 1), "Labor Day")
  ]

  /** `get_holiday_df()`: twelve valid dates in strictly increasing order. */
  function GetHolidayDf(): (h: seq<Holiday>)
    ensures |h| == 12
    ensures Calendar(h)
  {
    var h := HolidaysData;
    assert forall i :: 0 <= i < |h| - 1 ==> DateBefore(h[i].date, h[i + 1].date);
    ChainIsAscending(h);
    h
  }

  lemma {:induction false} ChainIsAscending(h: seq<Holiday>)
    requires forall i :: 0 <= i < |h| - 1 ==> DateBefore(h[i].date, h[i + 1].date)
    ensures forall i, j :: 0 <= i < j < |h| ==> DateBefore(h[i].date, h[j].date)
  {
    if |h| > 1 {
      var init := h[..|h| - 1];
      assert forall i :: 0 <= i < |init| ==> init[i] == h[i];
      ChainIsAscending(init);
      forall i, j | 0 <= i < j < |h| ensures DateBefore(h[i].date, h[j].date) {
        if j == |h| - 1 && i < j - 1 {
          assert DateBefore(init[i].date, init[j - 1].date);
        }
      }
    }
  }

  /** The dates of a holiday table, the `isin` set of the query. */
  function Dates(cal: seq<Holiday>): (ds: seq<Date>)
    ensures |ds| == |cal|
    ensures forall i :: 0 <= i < |cal| ==> ds[i] == cal[i].date
  {
    seq(|cal|, i requires 0 <= i < |cal| => cal[i].date)
  }

  /** The name the left merge attaches to a holiday date: the table entry with that date. */
  function HolidayName(cal: seq<Holiday>, d: Date): (name: string)
    requires d in Dates(cal)
    ensures Holiday(d, name) in cal
  {
    if cal[0].date == d then cal[0].name
    else
      assert d in Dates(cal[1..]) by {
        var i :| 0 <= i < |cal| && Dates(cal)[i] == d;
        assert Dates(cal[1..])[i - 1] == d;
      }
      HolidayName(cal[1..], d)
  }

  /** Since calendar dates are distinct, every entry is found again by its date. */
  lemma {:induction false} HolidayNameOfEntry(cal: seq<Holiday>, i: nat)
    requires Calendar(cal) && i < |cal|
    ensures cal[i].date in Dates(cal)
    ensures HolidayName(cal, cal[i].date) == cal[i].name
  {
    assert Dates(cal)[i] == cal[i].date;
    if i > 0 {
      var tail := cal[1..];
      assert forall k :: 0 <= k < |tail| ==> tail[k] == cal[k + 1];
      assert DateBefore(cal[0].date, cal[i].date);
      HolidayNameOfEntry(tail, i - 1);
    }
  }

  /** `df['date'].isin(holiday_df['holiday_date'])`. */
  function OnHoliday(cal: seq<Holiday>): Trip -> bool
  {
    (t: Trip) => t.date in Dates(cal)
  }

  /** `holiday_rides['holiday_date'] == holiday_date`. */
  function OnDate(d: Date): Trip -> bool
  {
    (t: Trip) => t.date == d
  }

  function DateKey(): Trip -> Option<Date>
  {
    (t: Trip) => Some(t.date)
  }

  /** One row of the holiday table. */
  datatype HolidayStat = HolidayStat(
    date: Date,
    name: string,
    totalRides: nat,
    memberRides: nat,
    casualRides: nat,
    memberPct: real,
    casualPct: real,
    avgMemberMinutes: real,
    avgCasualMinutes: real)

  /**
   * The summary of `subset`, the rides that started on holiday `d`: member
   * rides are the exactly 'member' ones, casual rides all the others, and the
   * mean ride times are over the exactly 'member' and exactly 'casual' rides
   * (0 when there are none).
   */
  function HolidayRow(cal: seq<Holiday>, subset: seq<Trip>, d: Date): (s: HolidayStat)
    requires d in Dates(cal)
    ensures s.date == d && Holiday(d, s.name) in cal
    ensures s.totalRides == |subset|
  {
    var total := |subset|;
    var members := |WithLabel(subset, "member")|;
    ExactSplit(subset);
    HolidayStat(d, HolidayName(cal, d), total, members, total - members,
                Percent(members, total), Percent(total - members, total),
                MeanMinutes(WithLabel(subset, "member")), MeanMinutes(WithLabel(subset, "casual")))
  }

  /**
   * The counts of a holiday row: member and casual rides make up the total,
   * and the exactly 'casual' rides are among the casual ones.
   */
  lemma HolidayRowCounts(cal: seq<Holiday>, subset: seq<Trip>, d: Date)
    requires d in Dates(cal)
    ensures var s := HolidayRow(cal, subset, d);
      && s.memberRides + s.casualRides == s.totalRides
      && s.memberRides == |WithLabel(subset, "member")|
      && |WithLabel(subset, "casual")| <= s.casualRides
  {
    ExactSplit(subset);
  }

  /**
   * The shares of a holiday row: both percentages lie in [0, 100] and add up
   * to 100, and both are 0 when no ride started that day.
   */
  lemma HolidayRowShares(cal: seq<Holiday>, subset: seq<Trip>, d: Date)
    requires d in Dates(cal)
    ensures var s := HolidayRow(cal, subset, d);
      && (s.totalRides > 0 ==> s.memberPct + s.casualPct == 100.0)
      && (s.totalRides == 0 ==> s.memberPct == 0.0 && s.casualPct == 0.0)
      && 0.0 <= s.memberPct <= 100.0 && 0.0 <= s.casualPct <= 100.0
  {
    var s := HolidayRow(cal, subset, d);
    var members := |WithLabel(subset, "member")|;
    ExactSplit(subset);
    StatShares(s, members, |subset|);
  }

  /** The shares of a row whose percentages are those of `members` and of the rest of `total`. */
  lemma StatShares(s: HolidayStat, members: nat, total: nat)
    requires members <= total && s.totalRides == total
    requires s.memberPct == Percent(members, total) && s.casualPct == Percent(total - members, total)
    ensures s.totalRides > 0 ==> s.memberPct + s.casualPct == 100.0
    ensures s.totalRides == 0 ==> s.memberPct == 0.0 && s.casualPct == 0.0
    ensures 0.0 <= s.memberPct <= 100.0 && 0.0 <= s.casualPct <= 100.0
  {
    Shares(members, total);
  }

  /** On a loaded table a holiday row's mean ride times lie inside the duration window whenever its rider type rode. */
  lemma HolidayRowMeans(cal: seq<Holiday>, subset: seq<Trip>, d: Date)
    requires d in Dates(cal)
    requires forall t :: t in subset ==> 1.0 < t.rideMinutes < 1440.0
    ensures var s := HolidayRow(cal, subset, d);
      && (WithLabel(subset, "member") != [] ==> 1.0 < s.avgMemberMinutes < 1440.0)
      && (WithLabel(subset, "member") == [] ==> s.avgMemberMinutes == 0.0)
      && (WithLabel(subset, "casual") != [] ==> 1.0 < s.avgCasualMinutes < 1440.0)
      && (WithLabel(subset, "casual") == [] ==> s.avgCasualMinutes == 0.0)
  {
    if WithLabel(subset, "member") != [] {
      MeanWithin(WithLabel(subset, "member"), 1.0, 1440.0);
    }
    if WithLabel(subset, "casual") != [] {
      MeanWithin(WithLabel(subset, "casual"), 1.0, 1440.0);
    }
  }

  /** Rows sorted by date. */
  function ByDate(): HolidayStat -> int
  {
    (s: HolidayStat) => DateOrdinal(s.date)
  }

  /** What the holiday summary of a table satisfies, given that its `date` column is set. */
  ghost predicate HolidayTable(cal: seq<Holiday>, ts: seq<Trip>, stats: seq<HolidayStat>)
  {
    && (forall s :: s in stats ==> RowOf(cal, ts, s))
    && (forall t :: t in ts && t.date in Dates(cal) ==> exists s :: s in stats && s.date == t.date)
    && (forall i, j :: 0 <= i < j < |stats| ==> DateBefore(stats[i].date, stats[j].date))
    && (stats == [] <==> forall t :: t in ts ==> t.date !in Dates(cal))
  }

  /** The holiday rides of one holiday are the rides of that date. */
  lemma SubsetOfHolidayRides(cal: seq<Holiday>, ts: seq<Trip>, d: Date)
    requires d in Dates(cal)
    ensures Filter(Filter(ts, OnHoliday(cal)), OnDate(d)) == Filter(ts, OnDate(d))
  {
    FilterTwice(ts, OnHoliday(cal), OnDate(d), OnDate(d));
  }

  /** Rows with distinct calendar dates, sorted by their ordinal, are in strictly increasing date order. */
  lemma SortedRowsAscend(cal: seq<Holiday>, stats: seq<HolidayStat>)
    requires Calendar(cal)
    requires SortedAsc(stats, ByDate())
    requires forall s :: s in stats ==> s.date in Dates(cal)
    requires forall i, j :: 0 <= i < j < |stats| ==> stats[i].date != stats[j].date
    ensures forall i, j :: 0 <= i < j < |stats| ==> DateBefore(stats[i].date, stats[j].date)
  {
    forall i, j | 0 <= i < j < |stats| ensures DateBefore(stats[i].date, stats[j].date) {
      assert stats[i] in stats && stats[j] in stats;
      var hi :| 0 <= hi < |cal| && Dates(cal)[hi] == stats[i].date;
      var hj :| 0 <= hj < |cal| && Dates(cal)[hj] == stats[j].date;
      OrdinalIsChronological(stats[i].date, stats[j].date);
      assert ByDate()(stats[i]) <= ByDate()(stats[j]);
    }
  }

  /** Sorting rows with distinct dates by date gives the strictly ascending table of the same rows. */
  lemma SortRows(cal: seq<Holiday>, rows: seq<HolidayStat>, stats: seq<HolidayStat>)
    requires Calendar(cal)
    requires stats == SortAsc(rows, ByDate())
    requires forall s :: s in rows ==> s.date in Dates(cal)
    requires forall a, b :: 0 <= a < b < |rows| ==> rows[a].date != rows[b].date
    ensures forall s :: s in stats <==> s in rows
    ensures forall i, j :: 0 <= i < j < |stats| ==> DateBefore(stats[i].date, stats[j].date)
  {
    assert forall s :: s in stats <==> s in multiset(stats);
    assert forall s :: s in rows <==> s in multiset(rows);
    assert NoDup(rows) by {
      forall a, b | 0 <= a < b < |rows| ensures rows[a] != rows[b] {
        assert rows[a].date != rows[b].date;
      }
    }
    forall i, j | 0 <= i < j < |stats| ensures stats[i].date != stats[j].date {
      assert stats[i] in rows && stats[j] in rows;
      assert stats[i] != stats[j];
      var a :| 0 <= a < |rows| && rows[a] == stats[i];
      var b :| 0 <= b < |rows| && rows[b] == stats[j];
    }
    SortedRowsAscend(cal, stats);
  }

  /** Some ride of `ts` started on `d`. */
  ghost predicate RodeOn(ts: seq<Trip>, d: Date)
  {
    exists t :: t in ts && t.date == d
  }

  /** The row of a holiday on which somebody rode: the summary of exactly that day's rides. */
  ghost predicate RowOf(cal: seq<Holiday>, ts: seq<Trip>, s: HolidayStat)
  {
    s.date in Dates(cal) && s == HolidayRow(cal, Filter(ts, OnDate(s.date)), s.date) && s.totalRides >= 1
  }

  /**
   * One pass of the loop of `query_holiday_stats`: the row of holiday `d`
   * computed from its subset of the holiday rides, or nothing when that
   * subset is empty.
   */
  function SummariseDate(cal: seq<Holiday>, ts: seq<Trip>, holidayRides: seq<Trip>, d: Date): (r: Option<HolidayStat>)
    requires holidayRides == Filter(ts, OnHoliday(cal))
    requires d in Dates(cal)
    ensures r.Some? <==> RodeOn(ts, d)
    ensures r.Some? ==> r.value.date == d && RowOf(cal, ts, r.value)
  {
    var subset := Filter(holidayRides, OnDate(d));
    SubsetOfHolidayRides(cal, ts, d);
    assert subset != [] <==> RodeOn(ts, d) by {
      if subset != [] {
        assert subset[0] in subset;
      }
      if RodeOn(ts, d) {
        var t :| t in ts && t.date == d;
        assert OnDate(d)(t);
      }
    }
    if subset == [] then None else Some(HolidayRow(cal, subset, d))
  }

  /** Some row of `rows` is the row of `d`. */
  ghost predicate HasRow(rows: seq<HolidayStat>, d: Date)
  {
    exists s :: s in rows && s.date == d
  }

  /** Every row of `rows` is the row of one of the dates `done`. */
  ghost predicate RowsOf(cal: seq<Holiday>, ts: seq<Trip>, rows: seq<HolidayStat>, done: seq<Date>)
  {
    forall s :: s in rows ==> s.date in done && RowOf(cal, ts, s)
  }

  /** Every date of `done` on which somebody rode has a row in `rows`. */
  ghost predicate Covers(ts: seq<Trip>, rows: seq<HolidayStat>, done: seq<Date>)
  {
    forall d :: d in done && RodeOn(ts, d) ==> HasRow(rows, d)
  }

  /** The loop invariant: `rows` holds, without repeats, the rows of exactly the dates of `done` on which somebody rode. */
  ghost predicate Summarised(cal: seq<Holiday>, ts: seq<Trip>, rows: seq<HolidayStat>, done: seq<Date>)
  {
    NoDup(rows) && RowsOf(cal, ts, rows, done) && Covers(ts, rows, done)
  }

  lemma RowsOfGrow(cal: seq<Holiday>, ts: seq<Trip>, rows: seq<HolidayStat>, done: seq<Date>, d: Date)
    requires RowsOf(cal, ts, rows, done)
    ensures RowsOf(cal, ts, rows, done + [d])
  {
  }

  lemma RowsOfAdd(cal: seq<Holiday>, ts: seq<Trip>, rows: seq<HolidayStat>, done: seq<Date>, row: HolidayStat)
    requires RowsOf(cal, ts, rows, done) && RowOf(cal, ts, row)
    ensures RowsOf(cal, ts, rows + [row], done + [row.date])
  {
  }

  lemma CoversSkip(ts: seq<Trip>, rows: seq<HolidayStat>, done: seq<Date>, d: Date)
    requires Covers(ts, rows, done) && !RodeOn(ts, d)
    ensures Covers(ts, rows, done + [d])
  {
  }

  lemma CoversAdd(ts: seq<Trip>, rows: seq<HolidayStat>, done: seq<Date>, row: HolidayStat)
    requires Covers(ts, rows, done)
    ensures Covers(ts, rows + [row], done + [row.date])
  {
    var rows1 := rows + [row];
    forall e | e in done + [row.date] && RodeOn(ts, e) ensures HasRow(rows1, e) {
      if e == row.date {
        assert row in rows1;
      } else {
        var s :| s in rows && s.date == e;
        assert s in rows1;
      }
    }
  }

  /** A date on which nobody rode adds no row. */
  lemma SkipDate(cal: seq<Holiday>, ts: seq<Trip>, rows: seq<HolidayStat>, done: seq<Date>, d: Date)
    requires Summarised(cal, ts, rows, done) && !RodeOn(ts, d)
    ensures Summarised(cal, ts, rows, done + [d])
  {
    RowsOfGrow(cal, ts, rows, done, d);
    CoversSkip(ts, rows, done, d);
  }

  /** A new date on which somebody rode adds its row. */
  lemma AddDate(cal: seq<Holiday>, ts: seq<Trip>, rows: seq<HolidayStat>, done: seq<Date>, row: HolidayStat)
    requires Summarised(cal, ts, rows, done) && RowOf(cal, ts, row) && row.date !in done
    ensures Summarised(cal, ts, rows + [row], done + [row.date])
  {
    assert row !in rows;
    NoDupAppend(rows, row);
    RowsOfAdd(cal, ts, rows, done, row);
    CoversAdd(ts, rows, done, row);
  }

  /**
   * One iteration of the loop of `query_holiday_stats`: the row of `d` is
   * appended unless its subset of the holiday rides is empty.
   */
  method SummariseStep(cal: seq<Holiday>, ts: seq<Trip>, holidayRides: seq<Trip>,
                       rows: seq<HolidayStat>, ghost done: seq<Date>, d: Date)
      returns (rows1: seq<HolidayStat>)
    requires holidayRides == Filter(ts, OnHoliday(cal))
    requires d in Dates(cal) && d !in done
    requires Summarised(cal, ts, rows, done)
    ensures Summarised(cal, ts, rows1, done + [d])
  {
    var r := SummariseDate(cal, ts, holidayRides, d);
    if r.None? {
      SkipDate(cal, ts, rows, done, d);
      return rows;
    }
    AddDate(cal, ts, rows, done, r.value);
    rows1 := rows + [r.value];
  }

  /**
   * The loop of `query_holiday_stats` over the distinct holiday dates that
   * occur: one row per date on which somebody rode, each date at most once.
   */
  method SummariseDates(cal: seq<Holiday>, ts: seq<Trip>, holidayRides: seq<Trip>, dates: seq<Date>)
      returns (rows: seq<HolidayStat>)
    requires holidayRides == Filter(ts, OnHoliday(cal))
    requires forall d :: d in dates ==> d in Dates(cal)
    requires NoDup(dates)
    ensures Summarised(cal, ts, rows, dates)
  {
    rows := [];
    for i := 0 to |dates|
      invariant Summarised(cal, ts, rows, dates[..i])
    {
      assert dates[i] in dates;
      assert dates[i] !in dates[..i] by {
        assert forall j :: 0 <= j < i ==> dates[..i][j] == dates[j] && dates[j] != dates[i];
      }
      rows := SummariseStep(cal, ts, holidayRides, rows, dates[..i], dates[i]);
      assert dates[..i + 1] == dates[..i] + [dates[i]];
    }
    assert dates[..|dates|] == dates;
  }

  /** Every ride on a holiday is summarised in some row of the loop's result. */
  lemma Complete(cal: seq<Holiday>, ts: seq<Trip>, holidayRides: seq<Trip>, rows: seq<HolidayStat>)
    requires holidayRides == Filter(ts, OnHoliday(cal))
    requires Summarised(cal, ts, rows, Keys(holidayRides, DateKey()))
    ensures forall t :: t in ts && t.date in Dates(cal) ==> exists s :: s in rows && s.date == t.date
  {
    forall t | t in ts && t.date in Dates(cal) ensures exists s :: s in rows && s.date == t.date {
      assert OnHoliday(cal)(t) && t in holidayRides;
      assert DateKey()(t) == Some(t.date);
      assert RodeOn(ts, t.date);
      assert HasRow(rows, t.date);
    }
  }

  /**
   * The holiday rides: none exactly when no ride falls on a holiday, and every
   * date they group into is a holiday of the calendar.
   */
  lemma HolidayRides(cal: seq<Holiday>, ts: seq<Trip>)
    ensures var holidayRides := Filter(ts, OnHoliday(cal));
      && (holidayRides == [] <==> forall t :: t in ts ==> t.date !in Dates(cal))
      && (forall d :: d in Keys(holidayRides, DateKey()) ==> d in Dates(cal))
  {
    var holidayRides := Filter(ts, OnHoliday(cal));
    if holidayRides == [] {
      forall t | t in ts ensures t.date !in Dates(cal) {
        assert multiset(ts)[t] > 0 && multiset(holidayRides)[t] == 0;
      }
    } else {
      assert holidayRides[0] in holidayRides;
    }
    forall d | d in Keys(holidayRides, DateKey()) ensures d in Dates(cal) {
      var x :| x in holidayRides && DateKey()(x) == Some(d);
    }
  }

  /**
   * The body of `query_holiday_stats` once its date column is set, with the
   * holiday table `cal`: the holiday rides, one row per distinct holiday date
   * in order of first appearance, then sorted by date.
   */
  method SummariseHolidays(cal: seq<Holiday>, ts: seq<Trip>) returns (stats: seq<HolidayStat>)
    requires Calendar(cal)
    ensures HolidayTable(cal, ts, stats)
  {
    var holidayRides := Filter(ts, OnHoliday(cal));
    HolidayRides(cal, ts);
    if holidayRides == [] {
      return [];
    }
    var dates := Keys(holidayRides, DateKey());
    var rows := SummariseDates(cal, ts, holidayRides, dates);
    Complete(cal, ts, holidayRides, rows);
    forall a, b | 0 <= a < b < |rows| ensures rows[a].date != rows[b].date {
      assert rows[a] in rows && rows[b] in rows;
    }
    assert holidayRides[0] in holidayRides;
    stats := SortAsc(rows, ByDate());
    SortRows(cal, rows, stats);
  }

  /** `df['date'] = df['started_at'].dt.date` applied to every row. */
  function RefreshDates(ts: seq<Trip>): (r: seq<Trip>)
    ensures |r| == |ts|
    ensures forall i :: 0 <= i < |ts| ==> r[i] == ts[i].(date := ts[i].startedAt.date)
  {
    seq(|ts|, i requires 0 <= i < |ts| => ts[i].(date := ts[i].startedAt.date))
  }

  /** On a loaded table the date column already holds the start dates, so refreshing it changes nothing. */
  lemma RefreshDatesOnLoaded(ts: seq<Trip>)
    requires forall t :: t in ts ==> t.date == t.startedAt.date
    ensures RefreshDates(ts) == ts
  {
    assert forall i :: 0 <= i < |ts| ==> ts[i] in ts;
  }

  /** The data frame the query receives, whose `date` column it overwrites. */
  class TripTable {
    var rows: seq<Trip>

    constructor(rows0: seq<Trip>)
      ensures rows == rows0
    {
      rows := rows0;
    }

    /** `query_holiday_stats(df)`: sets the date column of the table, then summarises its rides on the fixed calendar. */
    method QueryHolidayStats() returns (stats: seq<HolidayStat>)
      modifies this
      ensures rows == RefreshDates(old(rows))
      ensures HolidayTable(GetHolidayDf(), rows, stats)
    {
      rows := RefreshDates(rows);
      stats := SummariseHolidays(GetHolidayDf(), rows);
    }
  }
}
