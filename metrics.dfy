/**
 * The headline metrics of the dashboard: total, member and casual ride
 * counts of the filtered table, the two percentages with their guard
 * against an empty total, and the mean ride time. The member and casual
 * counts compare the label exactly with 'member' and 'casual'.
 */
module Metrics {
  import opened Wrappers
  import opened Seqs
  import opened Labels
  import opened Trips
  import opened Filters

  /** The numbers behind the four metric cards (before rounding and the millions display). */
  datatype Headline = Headline(
    totalRides: nat,
    memberRides: nat,
    casualRides: nat,
    memberPct: real,
    casualPct: real,
    avgMinutes: Option<real>)

  /**
   * The headline metrics of a filtered table. A percentage is 0 when there are
   * no rides; the mean of an empty table is undefined (None).
   */
  function HeadlineMetrics(f: seq<Trip>): (h: Headline)
    ensures h.totalRides == |f|
    ensures h.memberRides + h.casualRides <= h.totalRides
    ensures h.totalRides == 0 ==> h.memberPct == 0.0 && h.casualPct == 0.0
    ensures 0.0 <= h.memberPct <= 100.0 && 0.0 <= h.casualPct <= 100.0
    ensures h.avgMinutes.None? <==> f == []
  {
    var members := |WithLabel(f, "member")|;
    var casuals := |WithLabel(f, "casual")|;
    ExactSplit(f);
    Headline(|f|, members, casuals, Percent(members, |f|), Percent(casuals, |f|),
             if f == [] then None else Some(MeanMinutes(f)))
  }

  /**
   * The metric section: an empty filtered table shows a warning instead
   * (None), so the metrics shown always have a defined mean.
   */
  function MetricsPanel(f: seq<Trip>): (r: Option<Headline>)
    ensures r.None? <==> f == []
    ensures r.Some? ==> r.value == HeadlineMetrics(f) && r.value.avgMinutes.Some? && r.value.totalRides >= 1
  {
    if f == [] then None else Some(HeadlineMetrics(f))
  }

  /** The member and casual counts fill the total exactly when every label is 'member' or 'casual'. */
  lemma HeadlineCounts(f: seq<Trip>)
    ensures var h := HeadlineMetrics(f);
      && h.memberRides == |WithLabel(f, "member")| && h.casualRides == |WithLabel(f, "casual")|
      && (h.memberRides + h.casualRides == h.totalRides <==>
            forall t :: t in f ==> t.memberCasual == "member" || t.memberCasual == "casual")
  {
    ExactSplit(f);
  }

  /** When every label is 'member' or 'casual', the two percentages of a non-empty table add up to 100. */
  lemma HeadlineSharesAddUp(f: seq<Trip>)
    requires f != []
    requires forall t :: t in f ==> t.memberCasual == "member" || t.memberCasual == "casual"
    ensures HeadlineMetrics(f).memberPct + HeadlineMetrics(f).casualPct == 100.0
  {
    var h := HeadlineMetrics(f);
    ExactSplit(f);
    var members, casuals := |WithLabel(f, "member")|, |WithLabel(f, "casual")|;
    assert members + casuals == |f|;
    assert h.memberPct == Percent(members, members + casuals) && h.casualPct == Percent(casuals, members + casuals);
    PercentsAddUp(members, casuals);
  }

  /** On a loaded table the mean ride time of the shown metrics lies inside the duration window. */
  lemma HeadlineMeanInWindow(f: seq<Trip>)
    requires f != []
    requires forall t :: t in f ==> 1.0 < t.rideMinutes < 1440.0
    ensures 1.0 < HeadlineMetrics(f).avgMinutes.value < 1440.0
  {
    MeanWithin(f, 1.0, 1440.0);
  }

  /**
   * Choosing Member or Casual in the sidebar leaves rides of one label only,
   * so that label holds all the rides and the other none.
   */
  lemma SingleRiderHeadline(ts: seq<Trip>, seasons: seq<Season>, bikeTypes: seq<string>)
    ensures var h := HeadlineMetrics(FilterData(ts, "Member", seasons, bikeTypes));
      h.memberRides == h.totalRides && h.casualRides == 0 && (h.totalRides > 0 ==> h.memberPct == 100.0)
    ensures var h := HeadlineMetrics(FilterData(ts, "Casual", seasons, bikeTypes));
      h.casualRides == h.totalRides && h.memberRides == 0 && (h.totalRides > 0 ==> h.casualPct == 100.0)
  {
    LowerChoices();
    OneLabel(FilterData(ts, "Member", seasons, bikeTypes), "member", "casual");
    OneLabel(FilterData(ts, "Casual", seasons, bikeTypes), "casual", "member");
  }

  /** A table whose every label is `lbl` has all its rides under `lbl`, none under `other`, and a share of 100. */
  lemma OneLabel(f: seq<Trip>, lbl: string, other: string)
    requires lbl != other
    requires forall t :: t in f ==> t.memberCasual == lbl
    ensures |WithLabel(f, lbl)| == |f| && WithLabel(f, other) == []
    ensures f != [] ==> Percent(|WithLabel(f, lbl)|, |f|) == 100.0
  {
    FilterKeepsAll(f, LabelIs(lbl));
    FilterKeepsNone(f, LabelIs(other));
    if f != [] {
      PercentOfWhole(|f|);
    }
  }
}
