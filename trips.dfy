/**
 * The trip table of the dashboard: one row per bike-share ride, with the
 * columns the loader derives from the start timestamp, and the per-row
 * aggregations (label counts, duration totals and means) the queries share.
 */
module Trips {
  import opened Wrappers
  import opened Seqs
  import opened Labels

  /** A calendar date, `datetime.date`. */
  datatype Date = Date(year: int, month: int, day: int)

  /** Month and day in calendar range (month lengths are not checked). */
  predicate ValidDate(d: Date)
  {
    1 <= d.month <= 12 && 1 <= d.day <= 31
  }

  /** Chronological order of dates. */
  predicate DateBefore(a: Date, b: Date)
  {
    || a.year < b.year
    || (a.year == b.year && a.month < b.month)
    || (a.year == b.year && a.month == b.month && a.day < b.day)
  }

  /** A numeric sort key for dates. */
  function DateOrdinal(d: Date): int
  {
    d.year * 372 + (d.month - 1) * 31 + (d.day - 1)
  }

  /** On valid dates the sort key orders dates chronologically and tells distinct dates apart. */
  lemma OrdinalIsChronological(a: Date, b: Date)
    requires ValidDate(a) && ValidDate(b)
    ensures DateOrdinal(a) < DateOrdinal(b) <==> DateBefore(a, b)
    ensures DateOrdinal(a) == DateOrdinal(b) <==> a == b
  {
    if a.year < b.year {
      assert DateOrdinal(a) <= a.year * 372 + 371 < (a.year + 1) * 372 <= DateOrdinal(b);
    } else if b.year < a.year {
      assert DateOrdinal(b) <= b.year * 372 + 371 < (b.year + 1) * 372 <= DateOrdinal(a);
    }
  }

  /** `day_name().str[:3]`: the three-letter weekday of the start time. */
  datatype Weekday = Mon | Tue | Wed | Thu | Fri | Sat | Sun

  /** The four seasons of the season column. */
  datatype Season = Winter | Spring | Summer | Fall

  /** `to_period('M')`: the year-month bucket of the start time. */
  datatype MonthKey = MonthKey(year: int, month: int)

  /** A parsed timestamp, already broken into the fields the dashboard uses. */
  datatype Stamp = Stamp(date: Date, hour: int, weekday: Weekday, epochSeconds: int)

  /**
   * A loaded trip: the raw columns (station names and coordinates may be
   * null) and the columns derived at load time, `ride_time_min`,
   * `month_year`, `hour`, `date`, `weekday` and `season`.
   */
  datatype Trip = Trip(
    rideId: string,
    rideableType: string,
    startedAt: Stamp,
    endedAt: Stamp,
    startStation: Option<string>,
    endStation: Option<string>,
    startLat: Option<real>,
    startLng: Option<real>,
    endLat: Option<real>,
    endLng: Option<real>,
    memberCasual: string,
    rideMinutes: real,
    monthYear: MonthKey,
    hour: int,
    date: Date,
    weekday: Weekday,
    season: Season)

  /** The rider categories as the headline metrics and the map colour them. */
  datatype Rider = Member | Casual

  /** The row test `member_casual == lbl`, compared exactly. */
  function LabelIs(lbl: string): Trip -> bool
  {
    (t: Trip) => t.memberCasual == lbl
  }

  /** The row test `member_casual.astype(str).str.strip().str.lower() == lbl`. */
  function NormalizedLabelIs(lbl: string): Trip -> bool
  {
    (t: Trip) => Normalize(t.memberCasual) == lbl
  }

  /** `df[df['member_casual'] == lbl]`. */
  function WithLabel(ts: seq<Trip>, lbl: string): seq<Trip>
  {
    Filter(ts, LabelIs(lbl))
  }

  /** The count of rows whose normalised label is `lbl`, the per-group lambda of the station and route queries. */
  function CountNormalized(ts: seq<Trip>, lbl: string): nat
  {
    |Filter(ts, NormalizedLabelIs(lbl))|
  }

  /**
   * Exact 'member' and 'casual' rows never outnumber the rows, and fill them
   * exactly when every label is one of the two.
   */
  lemma ExactSplit(ts: seq<Trip>)
    ensures |WithLabel(ts, "member")| + |WithLabel(ts, "casual")| <= |ts|
    ensures |WithLabel(ts, "member")| + |WithLabel(ts, "casual")| == |ts|
        <==> forall t :: t in ts ==> t.memberCasual == "member" || t.memberCasual == "casual"
  {
    DisjointFilters(ts, LabelIs("member"), LabelIs("casual"));
  }

  /**
   * Normalised 'member' and 'casual' counts never exceed the rows, and add up
   * to them exactly when every label normalises to one of the two.
   */
  lemma NormalizedSplit(ts: seq<Trip>)
    ensures CountNormalized(ts, "member") + CountNormalized(ts, "casual") <= |ts|
    ensures CountNormalized(ts, "member") + CountNormalized(ts, "casual") == |ts|
        <==> forall t :: t in ts ==> Normalize(t.memberCasual) == "member" || Normalize(t.memberCasual) == "casual"
  {
    DisjointFilters(ts, NormalizedLabelIs("member"), NormalizedLabelIs("casual"));
  }

  /** An exactly 'member' row also counts as 'member' after normalisation. */
  lemma ExactWithinNormalized(ts: seq<Trip>, lbl: string)
    requires lbl == "member" || lbl == "casual"
    ensures |WithLabel(ts, lbl)| <= CountNormalized(ts, lbl)
  {
    CanonicalLabels();
    FilterMonotone(ts, LabelIs(lbl), NormalizedLabelIs(lbl));
  }

  /** `part / total * 100`, or 0 when there is nothing to divide by. */
  function Percent(part: nat, total: nat): (p: real)
    ensures total == 0 ==> p == 0.0
    ensures part <= total ==> 0.0 <= p <= 100.0
  {
    if total > 0 then part as real / total as real * 100.0 else 0.0
  }

  /** Complementary shares of a non-empty whole add up to 100. */
  lemma PercentsAddUp(a: nat, b: nat)
    requires a + b > 0
    ensures Percent(a, a + b) + Percent(b, a + b) == 100.0
  {
    var t := (a + b) as real;
    assert a as real / t + b as real / t == (a as real + b as real) / t;
  }

  /** The whole is 100 percent of itself. */
  lemma PercentOfWhole(total: nat)
    requires total > 0
    ensures Percent(total, total) == 100.0
  {
    var t := total as real;
    assert t / t == 1.0;
  }

  /** The shares of the member rides and of the remaining rides in a total. */
  lemma Shares(members: nat, total: nat)
    requires members <= total
    ensures total > 0 ==> Percent(members, total) + Percent(total - members, total) == 100.0
    ensures 0.0 <= Percent(members, total) <= 100.0 && 0.0 <= Percent(total - members, total) <= 100.0
  {
    if total > 0 {
      PercentsAddUp(members, total - members);
    }
  }

  /** The total of the `ride_time_min` column. */
  function SumMinutes(ts: seq<Trip>): real
  {
    if ts == [] then 0.0 else SumMinutes(ts[..|ts| - 1]) + ts[|ts| - 1].rideMinutes
  }

  /**
   * The mean ride time, 0 for no rows (the holiday query's explicit fallback;
   * the groups of the station and route queries are never empty).
   */
  function MeanMinutes(ts: seq<Trip>): (m: real)
    ensures ts == [] ==> m == 0.0
    ensures ts != [] ==> m * (|ts| as real) == SumMinutes(ts)
  {
    if ts == [] then 0.0 else SumMinutes(ts) / (|ts| as real)
  }

  /** If every ride time lies strictly between `lo` and `hi`, their total lies between `lo` and `hi` times the row count. */
  lemma {:induction false} SumWithin(ts: seq<Trip>, lo: real, hi: real)
    requires ts != []
    requires forall i :: 0 <= i < |ts| ==> lo < ts[i].rideMinutes < hi
    ensures lo * (|ts| as real) < SumMinutes(ts) < hi * (|ts| as real)
  {
    var init, last := ts[..|ts| - 1], ts[|ts| - 1];
    if init == [] {
      assert SumMinutes(ts) == last.rideMinutes;
    } else {
      assert forall i :: 0 <= i < |init| ==> init[i] == ts[i];
      SumWithin(init, lo, hi);
      BoundsAddUp(lo, hi, |init| as real, SumMinutes(init), last.rideMinutes);
    }
  }

  lemma BoundsAddUp(lo: real, hi: real, n: real, total: real, x: real)
    requires lo * n < total < hi * n && lo < x < hi
    ensures lo * (n + 1.0) < total + x < hi * (n + 1.0)
  {
    assert lo * (n + 1.0) == lo * n + lo;
    assert hi * (n + 1.0) == hi * n + hi;
  }

  /** A mean of ride times that all lie strictly between `lo` and `hi` lies there too. */
  lemma MeanWithin(ts: seq<Trip>, lo: real, hi: real)
    requires ts != []
    requires forall t :: t in ts ==> lo < t.rideMinutes < hi
    ensures lo < MeanMinutes(ts) < hi
  {
    SumWithinAll(ts, lo, hi);
    ScaledBounds(lo, hi, |ts| as real, MeanMinutes(ts), SumMinutes(ts));
  }

  /** `SumWithin` for bounds stated over the rows rather than their positions. */
  lemma SumWithinAll(ts: seq<Trip>, lo: real, hi: real)
    requires ts != []
    requires forall t :: t in ts ==> lo < t.rideMinutes < hi
    ensures lo * (|ts| as real) < SumMinutes(ts) < hi * (|ts| as real)
  {
    assert forall i :: 0 <= i < |ts| ==> ts[i] in ts;
    SumWithin(ts, lo, hi);
  }

  /** Dividing strict bounds by a positive count keeps them strict. */
  lemma ScaledBounds(lo: real, hi: real, n: real, m: real, total: real)
    requires n > 0.0 && lo * n < total < hi * n && m * n == total
    ensures lo < m < hi
  {
    assert (m - lo) * n > 0.0 && (hi - m) * n > 0.0;
  }
}
