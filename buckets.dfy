/**
 * The ride-count charts: rides grouped by a bucket column and the rider
 * label (`groupby([bucket, 'member_casual']).size()`), restricted to the
 * chosen rider type unless All Riders is selected, and ordered by the
 * bucket. Weekdays and seasons are ordered as pandas categoricals with a
 * fixed category list; months by their calendar order; hours numerically.
 * The monthly and hourly charts sort before restricting, the weekday and
 * season charts restrict before sorting.
 */
module Buckets {
  import opened Wrappers
  import opened Seqs
  import opened Grouping
  import opened Ranking
  import opened Labels
  import opened Trips
  import opened Filters

  /** One row of a chart table: a bucket, a rider label and its ride count. */
  datatype BucketCount<B> = BucketCount(bucket: B, rider: string, rides: nat)

  /** The two-column group key; neither column is ever null. */
  function BucketKey<B>(bucketOf: Trip -> B): Trip -> Option<(B, string)>
  {
    (t: Trip) => Some((bucketOf(t), t.memberCasual))
  }

  function KeyOfRow<B>(c: BucketCount<B>): (B, string)
  {
    (c.bucket, c.rider)
  }

  /** The row of one (bucket, label) group: the number of rides carrying both. */
  function CountOf<B(==)>(ts: seq<Trip>, bucketOf: Trip -> B, k: (B, string)): BucketCount<B>
  {
    BucketCount(k.0, k.1, |Group(ts, BucketKey(bucketOf), k)|)
  }

  /** The rows of the keys `ks`, in that order. */
  function RowsFor<B(==)>(ts: seq<Trip>, bucketOf: Trip -> B, ks: seq<(B, string)>): (rows: seq<BucketCount<B>>)
    ensures |rows| == |ks|
    ensures forall i :: 0 <= i < |ks| ==> rows[i] == CountOf(ts, bucketOf, ks[i])
  {
    seq(|ks|, i requires 0 <= i < |ks| => CountOf(ts, bucketOf, ks[i]))
  }

  /** `groupby([bucket, 'member_casual']).size().reset_index(name='rides')` before any sorting. */
  function BucketRows<B(==)>(ts: seq<Trip>, bucketOf: Trip -> B): seq<BucketCount<B>>
  {
    RowsFor(ts, bucketOf, Keys(ts, BucketKey(bucketOf)))
  }

  /** Every group row counts a non-empty (bucket, label) group, every ride has a row, and rows are distinct. */
  lemma GroupRows<B>(ts: seq<Trip>, bucketOf: Trip -> B)
    ensures forall c :: c in BucketRows(ts, bucketOf) ==> c == CountOf(ts, bucketOf, KeyOfRow(c)) && c.rides >= 1
    ensures forall t :: t in ts ==> exists c :: c in BucketRows(ts, bucketOf) && c.bucket == bucketOf(t) && c.rider == t.memberCasual
    ensures NoDup(BucketRows(ts, bucketOf))
  {
    GroupRowsAreRows(ts, bucketOf);
    EveryKeyHasRow(ts, bucketOf);
    GroupRowsDistinct(ts, bucketOf);
  }

  lemma GroupRowsAreRows<B>(ts: seq<Trip>, bucketOf: Trip -> B)
    ensures forall c :: c in BucketRows(ts, bucketOf) ==> c == CountOf(ts, bucketOf, KeyOfRow(c)) && c.rides >= 1
  {
    var key := BucketKey(bucketOf);
    var ks := Keys(ts, key);
    var rows := BucketRows(ts, bucketOf);
    forall c | c in rows ensures c == CountOf(ts, bucketOf, KeyOfRow(c)) && c.rides >= 1 {
      var i :| 0 <= i < |rows| && rows[i] == c;
      KeyHasGroup(ts, key, ks[i]);
    }
  }

  lemma EveryKeyHasRow<B>(ts: seq<Trip>, bucketOf: Trip -> B)
    ensures forall t :: t in ts ==> exists c :: c in BucketRows(ts, bucketOf) && c.bucket == bucketOf(t) && c.rider == t.memberCasual
  {
    forall t | t in ts ensures exists c :: c in BucketRows(ts, bucketOf) && c.bucket == bucketOf(t) && c.rider == t.memberCasual {
      RideHasRow(ts, bucketOf, t);
    }
  }

  lemma RideHasRow<B>(ts: seq<Trip>, bucketOf: Trip -> B, t: Trip)
    requires t in ts
    ensures CountOf(ts, bucketOf, (bucketOf(t), t.memberCasual)) in BucketRows(ts, bucketOf)
  {
    var key := BucketKey(bucketOf);
    var ks := Keys(ts, key);
    var k := (bucketOf(t), t.memberCasual);
    assert key(t) == Some(k);
    var i :| 0 <= i < |ks| && ks[i] == k;
    assert BucketRows(ts, bucketOf)[i] == CountOf(ts, bucketOf, k);
  }

  lemma GroupRowsDistinct<B>(ts: seq<Trip>, bucketOf: Trip -> B)
    ensures NoDup(BucketRows(ts, bucketOf))
  {
    var ks := Keys(ts, BucketKey(bucketOf));
    var rows := BucketRows(ts, bucketOf);
    forall i, j | 0 <= i < j < |rows| ensures rows[i] != rows[j] {
      assert KeyOfRow(rows[i]) == ks[i] && KeyOfRow(rows[j]) == ks[j];
    }
  }

  /** The sum of the rides column. */
  function TotalRides<B>(rows: seq<BucketCount<B>>): nat
  {
    if rows == [] then 0 else TotalRides(rows[..|rows| - 1]) + rows[|rows| - 1].rides
  }

  lemma {:induction false} TotalRidesBySize<B>(ts: seq<Trip>, bucketOf: Trip -> B, rows: seq<BucketCount<B>>, ks: seq<(B, string)>)
    requires |rows| == |ks|
    requires forall i :: 0 <= i < |rows| ==> rows[i].rides == |Group(ts, BucketKey(bucketOf), ks[i])|
    ensures TotalRides(rows) == TotalSize(ts, BucketKey(bucketOf), ks)
  {
    if rows != [] {
      var n := |rows| - 1;
      assert forall i :: 0 <= i < n ==> rows[..n][i] == rows[i] && ks[..n][i] == ks[i];
      TotalRidesBySize(ts, bucketOf, rows[..n], ks[..n]);
      assert TotalRides(rows) == TotalRides(rows[..n]) + rows[n].rides;
      assert TotalSize(ts, BucketKey(bucketOf), ks) == TotalSize(ts, BucketKey(bucketOf), ks[..n]) + |Group(ts, BucketKey(bucketOf), ks[n])|;
    }
  }

  /** Count conservation: the group counts add up to every ride of the table, since no key is null. */
  lemma BucketConservation<B>(ts: seq<Trip>, bucketOf: Trip -> B)
    ensures TotalRides(BucketRows(ts, bucketOf)) == |ts|
  {
    var key := BucketKey(bucketOf);
    var ks := Keys(ts, key);
    TotalRidesBySize(ts, bucketOf, BucketRows(ts, bucketOf), ks);
    Conservation(ts, key);
    assert forall t :: t in ts ==> key(t).Some?;
  }

  function LabelOf<B>(lbl: string): BucketCount<B> -> bool
  {
    (c: BucketCount<B>) => c.rider == lbl
  }

  /** `if not is_all_riders: data = data[data['member_casual'] == rider_type.lower()]`. */
  function ForRider<B>(rows: seq<BucketCount<B>>, riderType: string): seq<BucketCount<B>>
  {
    if riderType != AllRiders then Filter(rows, LabelOf(Lower(riderType))) else rows
  }

  /**
   * On a table the sidebar already restricted to one rider type, the chart's
   * own restriction changes nothing.
   */
  lemma RiderRestrictionIsRedundant<B>(ts: seq<Trip>, bucketOf: Trip -> B, riderType: string)
    requires riderType != AllRiders
    requires forall t :: t in ts ==> t.memberCasual == Lower(riderType)
    ensures ForRider(BucketRows(ts, bucketOf), riderType) == BucketRows(ts, bucketOf)
  {
    var rows := BucketRows(ts, bucketOf);
    forall c | c in rows ensures LabelOf(Lower(riderType))(c) {
      GroupRows(ts, bucketOf);
      var g := Group(ts, BucketKey(bucketOf), KeyOfRow(c));
      assert g != [] && g[0] in g;
    }
    FilterKeepsAll(rows, LabelOf(Lower(riderType)));
  }

  function ByRank<B>(rank: B -> int): BucketCount<B> -> int
  {
    (c: BucketCount<B>) => rank(c.bucket)
  }

  /**
   * What a chart table holds: each row counts exactly its own (bucket, label)
   * group and that group is not empty; with a rider choice only that label
   * appears; every (bucket, label) pair of an admitted ride has a row; no pair
   * has two rows; and the rows are in bucket order.
   */
  ghost predicate BucketChart<B>(ts: seq<Trip>, bucketOf: Trip -> B, rank: B -> int, riderType: string, r: seq<BucketCount<B>>)
  {
    && (forall c :: c in r ==> c == CountOf(ts, bucketOf, KeyOfRow(c)) && c.rides >= 1)
    && (forall c :: c in r && riderType != AllRiders ==> c.rider == Lower(riderType))
    && (forall t :: t in ts && (riderType == AllRiders || t.memberCasual == Lower(riderType)) ==>
          exists c :: c in r && c.bucket == bucketOf(t) && c.rider == t.memberCasual)
    && (forall i, j :: 0 <= i < j < |r| ==> KeyOfRow(r[i]) != KeyOfRow(r[j]))
    && (forall i, j :: 0 <= i < j < |r| ==> rank(r[i].bucket) <= rank(r[j].bucket))
  }

  /** Any sorted, duplicate-free permutation of the restricted group rows is a chart table. */
  lemma ChartOfPermutation<B>(ts: seq<Trip>, bucketOf: Trip -> B, rank: B -> int, riderType: string, r: seq<BucketCount<B>>)
    requires multiset(r) == multiset(ForRider(BucketRows(ts, bucketOf), riderType))
    requires NoDup(r)
    requires SortedAsc(r, ByRank(rank))
    ensures BucketChart(ts, bucketOf, rank, riderType, r)
  {
    var kept := ForRider(BucketRows(ts, bucketOf), riderType);
    forall c ensures c in r <==> c in kept {
      assert c in r <==> c in multiset(r);
      assert c in kept <==> c in multiset(kept);
    }
    KeptRows(ts, bucketOf, riderType);
    ChartRows(ts, bucketOf, riderType, r);
    ChartComplete(ts, bucketOf, riderType, r);
    forall i, j | 0 <= i < j < |r| ensures rank(r[i].bucket) <= rank(r[j].bucket) {
      assert ByRank(rank)(r[i]) <= ByRank(rank)(r[j]);
    }
  }

  /** The restricted rows are the group rows of the admitted label. */
  lemma KeptRows<B>(ts: seq<Trip>, bucketOf: Trip -> B, riderType: string)
    ensures forall c :: c in ForRider(BucketRows(ts, bucketOf), riderType) <==>
      c in BucketRows(ts, bucketOf) && (riderType != AllRiders ==> c.rider == Lower(riderType))
  {
    if riderType != AllRiders {
      FilterMembers(BucketRows(ts, bucketOf), LabelOf(Lower(riderType)));
    }
  }

  /** Rows drawn from the admitted group rows count their own groups, carry the admitted label, and differ in key when they differ. */
  lemma ChartRows<B>(ts: seq<Trip>, bucketOf: Trip -> B, riderType: string, r: seq<BucketCount<B>>)
    requires NoDup(r)
    requires forall c :: c in r ==> c in BucketRows(ts, bucketOf) && (riderType != AllRiders ==> c.rider == Lower(riderType))
    ensures forall c :: c in r ==> c == CountOf(ts, bucketOf, KeyOfRow(c)) && c.rides >= 1
    ensures forall c :: c in r && riderType != AllRiders ==> c.rider == Lower(riderType)
    ensures forall i, j :: 0 <= i < j < |r| ==> KeyOfRow(r[i]) != KeyOfRow(r[j])
  {
    GroupRowsAreRows(ts, bucketOf);
    forall i, j | 0 <= i < j < |r| ensures KeyOfRow(r[i]) != KeyOfRow(r[j]) {
      assert r[i] in r && r[j] in r && r[i] != r[j];
    }
  }

  /** Rows holding every admitted group row leave no admitted ride without a row. */
  lemma ChartComplete<B>(ts: seq<Trip>, bucketOf: Trip -> B, riderType: string, r: seq<BucketCount<B>>)
    requires forall c :: c in BucketRows(ts, bucketOf) && (riderType != AllRiders ==> c.rider == Lower(riderType)) ==> c in r
    ensures forall t :: t in ts && (riderType == AllRiders || t.memberCasual == Lower(riderType)) ==>
      exists c :: c in r && c.bucket == bucketOf(t) && c.rider == t.memberCasual
  {
    EveryKeyHasRow(ts, bucketOf);
  }

  /** Restrict, then sort by bucket: the order of the weekday and season charts. */
  function RestrictThenSort<B(==)>(ts: seq<Trip>, bucketOf: Trip -> B, rank: B -> int, riderType: string): (r: seq<BucketCount<B>>)
    ensures BucketChart(ts, bucketOf, rank, riderType, r)
  {
    var rows := BucketRows(ts, bucketOf);
    var kept := ForRider(rows, riderType);
    GroupRows(ts, bucketOf);
    assert NoDup(kept) by {
      if riderType != AllRiders {
        FilterNoDup(rows, LabelOf(Lower(riderType)));
      }
    }
    var r := SortAsc(kept, ByRank(rank));
    ChartOfPermutation(ts, bucketOf, rank, riderType, r);
    r
  }

  /** Sort by bucket, then restrict: the order of the monthly and hourly charts. */
  function SortThenRestrict<B(==)>(ts: seq<Trip>, bucketOf: Trip -> B, rank: B -> int, riderType: string): (r: seq<BucketCount<B>>)
    ensures BucketChart(ts, bucketOf, rank, riderType, r)
  {
    var rows := BucketRows(ts, bucketOf);
    var sorted := SortAsc(rows, ByRank(rank));
    GroupRows(ts, bucketOf);
    var r := ForRider(sorted, riderType);
    assert NoDup(r) && SortedAsc(r, ByRank(rank)) && multiset(r) == multiset(ForRider(rows, riderType)) by {
      if riderType != AllRiders {
        FilterNoDup(sorted, LabelOf(Lower(riderType)));
        FilterPermutation(sorted, rows, LabelOf(Lower(riderType)));
        FilterSortedAsc(sorted, LabelOf(Lower(riderType)), ByRank(rank));
      }
    }
    ChartOfPermutation(ts, bucketOf, rank, riderType, r);
    r
  }

  /**
   * The rank of a value in a categorical with the category list `order`: its
   * first position, or `|order|` (after every category, where pandas sorts a
   * missing value) when it is not a category.
   */
  function Position<T(==)>(order: seq<T>, x: T): (p: nat)
    ensures p <= |order|
    ensures p < |order| ==> order[p] == x
    ensures forall i :: 0 <= i < p ==> order[i] != x
    ensures p == |order| <==> x !in order
  {
    if order == [] then 0
    else if order[0] == x then 0
    else
      var p := 1 + Position(order[1..], x);
      assert forall i :: 1 <= i < |order| ==> order[i] == order[1..][i - 1];
      p
  }

  /** In a category list without repetitions every category's rank is its index. */
  lemma PositionOfEntry<T>(order: seq<T>, i: nat)
    requires NoDup(order) && i < |order|
    ensures Position(order, order[i]) == i
  {
    assert order[i] in order;
  }

  /** `weekday_order`. */
  const WeekdayOrder: seq<Weekday> := [Mon, Tue, Wed, Thu, Fri, Sat, Sun]

  /** `season_order`. */
  const SeasonOrder: seq<Season> := [Winter, Spring, Summer, Fall]

  function WeekdayRank(): Weekday -> int { (w: Weekday) => Position(WeekdayOrder, w) }
  function SeasonRank(): Season -> int { (s: Season) => Position(SeasonOrder, s) }

  /** The weekday categories list all seven days once, Monday first, so no weekday becomes a missing value. */
  lemma WeekdayCategories()
    ensures |WeekdayOrder| == 7 && NoDup(WeekdayOrder)
    ensures forall w: Weekday :: w in WeekdayOrder
    ensures forall i :: 0 <= i < 7 ==> WeekdayRank()(WeekdayOrder[i]) == i
  {
    forall w: Weekday ensures w in WeekdayOrder {
      match w
      case Mon => assert WeekdayOrder[0] == w;
      case Tue => assert WeekdayOrder[1] == w;
      case Wed => assert WeekdayOrder[2] == w;
      case Thu => assert WeekdayOrder[3] == w;
      case Fri => assert WeekdayOrder[4] == w;
      case Sat => assert WeekdayOrder[5] == w;
      case Sun => assert WeekdayOrder[6] == w;
    }
    forall i | 0 <= i < 7 ensures WeekdayRank()(WeekdayOrder[i]) == i {
      PositionOfEntry(WeekdayOrder, i);
    }
  }

  /** The season categories list all four seasons once, Winter first, so no season becomes a missing value. */
  lemma SeasonCategories()
    ensures |SeasonOrder| == 4 && NoDup(SeasonOrder)
    ensures forall s: Season :: s in SeasonOrder
    ensures forall i :: 0 <= i < 4 ==> SeasonRank()(SeasonOrder[i]) == i
  {
    forall s: Season ensures s in SeasonOrder {
      match s
      case Winter => assert SeasonOrder[0] == s;
      case Spring => assert SeasonOrder[1] == s;
      case Summer => assert SeasonOrder[2] == s;
      case Fall => assert SeasonOrder[3] == s;
    }
    forall i | 0 <= i < 4 ensures SeasonRank()(SeasonOrder[i]) == i {
      PositionOfEntry(SeasonOrder, i);
    }
  }

  /** `pd.to_datetime(month_year, format='%Y-%m')` as a number: months counted from year 0. */
  function MonthRank(): MonthKey -> int { (m: MonthKey) => m.year * 12 + (m.month - 1) }

  /** On month numbers 1..12 the month rank orders months chronologically. */
  lemma MonthRankIsChronological(a: MonthKey, b: MonthKey)
    requires 1 <= a.month <= 12 && 1 <= b.month <= 12
    ensures MonthRank()(a) < MonthRank()(b) <==> a.year < b.year || (a.year == b.year && a.month < b.month)
    ensures MonthRank()(a) == MonthRank()(b) <==> a == b
  {
    if a.year < b.year {
      assert MonthRank()(a) <= a.year * 12 + 11 < (a.year + 1) * 12 <= MonthRank()(b);
    } else if b.year < a.year {
      assert MonthRank()(b) <= b.year * 12 + 11 < (b.year + 1) * 12 <= MonthRank()(a);
    }
  }

  function HourRank(): int -> int { (h: int) => h }

  function WeekdayOf(): Trip -> Weekday { (t: Trip) => t.weekday }
  function SeasonOf(): Trip -> Season { (t: Trip) => t.season }
  function MonthOf(): Trip -> MonthKey { (t: Trip) => t.monthYear }
  function HourOf(): Trip -> int { (t: Trip) => t.hour }

  /** The "Rides by Weekday" table, Monday to Sunday. */
  function WeekdayChart(f: seq<Trip>, riderType: string): (r: seq<BucketCount<Weekday>>)
    ensures BucketChart(f, WeekdayOf(), WeekdayRank(), riderType, r)
  {
    RestrictThenSort(f, WeekdayOf(), WeekdayRank(), riderType)
  }

  /** The "Rides by Season" table, Winter to Fall. */
  function SeasonChart(f: seq<Trip>, riderType: string): (r: seq<BucketCount<Season>>)
    ensures BucketChart(f, SeasonOf(), SeasonRank(), riderType, r)
  {
    RestrictThenSort(f, SeasonOf(), SeasonRank(), riderType)
  }

  /** The "Monthly Ride Trends" table, oldest month first. */
  function MonthlyChart(f: seq<Trip>, riderType: string): (r: seq<BucketCount<MonthKey>>)
    ensures BucketChart(f, MonthOf(), MonthRank(), riderType, r)
  {
    SortThenRestrict(f, MonthOf(), MonthRank(), riderType)
  }

  /** The "Hourly Ride Distribution" table, by hour of day. */
  function HourlyChart(f: seq<Trip>, riderType: string): (r: seq<BucketCount<int>>)
    ensures BucketChart(f, HourOf(), HourRank(), riderType, r)
  {
    SortThenRestrict(f, HourOf(), HourRank(), riderType)
  }

  datatype Meridiem = AM | PM

  /** The hour axis label `f"{x % 12 or 12}:00 {'AM' if x < 12 else 'PM'}"`, as its clock hour and half of day. */
  datatype TimeLabel = TimeLabel(clock: int, meridiem: Meridiem)

  function HourLabel(h: int): (l: TimeLabel)
    ensures 1 <= l.clock <= 12
    ensures l.meridiem == AM <==> h < 12
  {
    TimeLabel(if h % 12 == 0 then 12 else h % 12, if h < 12 then AM else PM)
  }

  /** The hour a label stands for. */
  function LabelHour(l: TimeLabel): int
  {
    (if l.clock == 12 then 0 else l.clock) + (if l.meridiem == PM then 12 else 0)
  }

  /** Every hour of the day is recovered from its label, so the 24 bars carry 24 different labels. */
  lemma HourLabelRoundTrip(h: int, k: int)
    requires 0 <= h < 24 && 0 <= k < 24
    ensures LabelHour(HourLabel(h)) == h
    ensures HourLabel(h) == HourLabel(k) ==> h == k
  {
    assert LabelHour(HourLabel(k)) == k;
  }

  /** Midnight and noon are labelled 12 AM and 12 PM. */
  lemma MidnightAndNoon()
    ensures HourLabel(0) == TimeLabel(12, AM) && HourLabel(12) == TimeLabel(12, PM)
    ensures HourLabel(13) == TimeLabel(1, PM) && HourLabel(23) == TimeLabel(11, PM)
  {
  }
}
