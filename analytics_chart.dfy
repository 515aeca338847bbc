/**
 * The admin dashboard chart (src/components/AnalyticsChart.tsx): the
 * analytics rows are grouped into one bucket per day in order of first
 * appearance, each bucket counting the day's views, comments, shares and
 * likes; the chart shows the last seven buckets against a scale of at
 * least 1.
 */
module AnalyticsChart {
  import opened Analytics
  import Lists

  datatype Bucket = Bucket(date: string, views: nat, comments: nat, shares: nat, likes: nat, total: nat)

  /** The bucket a day gets when its first row is met. */
  function Empty(date: string): Bucket {
    Bucket(date, 0, 0, 0, 0, 0)
  }

  /** The four event types the chart counts. */
  predicate Charted(e: Event) {
    e.eventType == "post_view" || e.eventType == "comment_submit" || e.eventType == "social_share" ||
    e.eventType == "post_like"
  }

  /**
   * What one row does to its day's bucket: at most one counter goes up,
   * by one, and the total is recomputed as the sum of the counters.
   */
  function Tick(b: Bucket, e: Event): (r: Bucket)
    ensures r.date == b.date
    ensures r.total == r.views + r.comments + r.shares + r.likes
    ensures r.views + r.comments + r.shares + r.likes ==
            b.views + b.comments + b.shares + b.likes + (if Charted(e) then 1 else 0)
    ensures r.views >= b.views && r.comments >= b.comments && r.shares >= b.shares && r.likes >= b.likes
  {
    var views := b.views + (if e.eventType == "post_view" then 1 else 0);
    var comments := b.comments + (if e.eventType == "comment_submit" then 1 else 0);
    var shares := b.shares + (if e.eventType == "social_share" then 1 else 0);
    var likes := b.likes + (if e.eventType == "post_like" then 1 else 0);
    Bucket(b.date, views, comments, shares, likes, views + comments + shares + likes)
  }

  /** The bucket of `day` once every row of `events` has been folded in. */
  function BucketOf(events: seq<Event>, day: string): Bucket
    decreases |events|
  {
    if events == [] then Empty(day)
    else
      var b := BucketOf(events[..|events| - 1], day);
      if events[|events| - 1].day == day then Tick(b, events[|events| - 1]) else b
  }

  function Days(events: seq<Event>): (r: seq<string>)
    ensures |r| == |events|
  {
    seq(|events|, i requires 0 <= i < |events| => events[i].day)
  }

  /** `Object.values(groupedData)`: one bucket per distinct day, in order of first appearance. */
  function Grouped(events: seq<Event>): seq<Bucket> {
    var d := Lists.Dedup(Days(events));
    seq(|d|, j requires 0 <= j < |d| => BucketOf(events, d[j]))
  }

  /** The `reduce` over the rows into the object keyed by day. */
  method Group(events: seq<Event>) returns (buckets: seq<Bucket>)
    ensures buckets == Grouped(events)
  {
    var acc: map<string, Bucket> := map[];
    var order: seq<string> := [];
    var i := 0;
    while i < |events|
      invariant 0 <= i <= |events|
      invariant order == Lists.Dedup(Days(events[..i]))
      invariant forall d :: d in acc <==> d in order
      invariant forall d | d in acc :: acc[d] == BucketOf(events[..i], d)
    {
      var e := events[i];
      assert events[..i + 1][..i] == events[..i];
      assert Days(events[..i + 1]) == Days(events[..i]) + [e.day];
      Lists.DedupSpec(Days(events[..i]));
      if e.day !in acc {
        BucketOfAbsent(events[..i], e.day);
        acc := acc[e.day := Empty(e.day)];
        order := order + [e.day];
      }
      acc := acc[e.day := Tick(acc[e.day], e)];
      i := i + 1;
    }
    assert events[..i] == events;
    buckets := seq(|order|, j requires 0 <= j < |order| => acc[order[j]]);
  }

  /** `.slice(-7)`: the last seven buckets, or all of them. */
  function ChartData(buckets: seq<Bucket>): (r: seq<Bucket>)
    ensures |r| == if |buckets| <= 7 then |buckets| else 7
    ensures r == buckets[|buckets| - |r|..]
  {
    if |buckets| <= 7 then buckets else buckets[|buckets| - 7..]
  }

  /** `Math.max(...totals, 1)`: the chart's scale. */
  function MaxValue(chart: seq<Bucket>): (r: nat)
    ensures r >= 1
    ensures forall b | b in chart :: b.total <= r
    ensures r == 1 || exists b | b in chart :: b.total == r
    decreases |chart|
  {
    if chart == [] then 1
    else
      var rest := MaxValue(chart[1..]);
      if chart[0].total > rest then chart[0].total else rest
  }

  /** The totals of a list of buckets, added from the end. */
  function SumTotals(buckets: seq<Bucket>): nat
    decreases |buckets|
  {
    if buckets == [] then 0 else SumTotals(buckets[..|buckets| - 1]) + buckets[|buckets| - 1].total
  }

  /** The totals of the buckets of `days`, added from the end. */
  function TotalOver(events: seq<Event>, days: seq<string>): nat
    decreases |days|
  {
    if days == [] then 0 else TotalOver(events, days[..|days| - 1]) + BucketOf(events, days[|days| - 1]).total
  }

  /** The rows of `events` on `day` with type `t`. */
  function CountOn(events: seq<Event>, day: string, t: string): nat {
    |Lists.Filter((e: Event) => e.day == day && e.eventType == t, events)|
  }

  // ---------------------------------------------------------------------
  // Properties

  /** A day none of whose rows has been met still has the empty bucket. */
  lemma {:induction false} BucketOfAbsent(events: seq<Event>, day: string)
    requires day !in Days(events)
    ensures BucketOf(events, day) == Empty(day)
    decreases |events|
  {
    if events != [] {
      var init := events[..|events| - 1];
      assert Days(init) == Days(events)[..|events| - 1];
      BucketOfAbsent(init, day);
      assert Days(events)[|events| - 1] == events[|events| - 1].day;
    }
  }

  /**
   * A day's bucket counts exactly that day's rows of each charted type, and
   * its total is their sum.
   */
  lemma {:induction false} BucketSpec(events: seq<Event>, day: string)
    ensures BucketOf(events, day).date == day
    ensures BucketOf(events, day).views == CountOn(events, day, "post_view")
    ensures BucketOf(events, day).comments == CountOn(events, day, "comment_submit")
    ensures BucketOf(events, day).shares == CountOn(events, day, "social_share")
    ensures BucketOf(events, day).likes == CountOn(events, day, "post_like")
    ensures BucketOf(events, day).total == BucketOf(events, day).views + BucketOf(events, day).comments +
                                           BucketOf(events, day).shares + BucketOf(events, day).likes
    decreases |events|
  {
    if events != [] {
      var init := events[..|events| - 1];
      var x := events[|events| - 1];
      assert events == init + [x];
      BucketSpec(init, day);
      Lists.FilterConcat((e: Event) => e.day == day && e.eventType == "post_view", init, [x]);
      Lists.FilterConcat((e: Event) => e.day == day && e.eventType == "comment_submit", init, [x]);
      Lists.FilterConcat((e: Event) => e.day == day && e.eventType == "social_share", init, [x]);
      Lists.FilterConcat((e: Event) => e.day == day && e.eventType == "post_like", init, [x]);
    }
  }

  /**
   * Every distinct day of the rows has exactly one bucket, in order of first
   * appearance, and no other day has one.
   */
  lemma GroupedSpec(events: seq<Event>)
    ensures |Grouped(events)| == |Lists.Dedup(Days(events))| <= |events|
    ensures forall i | 0 <= i < |Grouped(events)| :: Grouped(events)[i] == BucketOf(events, Grouped(events)[i].date)
    ensures forall i, j | 0 <= i < j < |Grouped(events)| :: Grouped(events)[i].date != Grouped(events)[j].date
    ensures forall e | e in events :: exists i | 0 <= i < |Grouped(events)| :: Grouped(events)[i].date == e.day
    ensures forall i | 0 <= i < |Grouped(events)| :: Grouped(events)[i].date in Days(events)
  {
    var d := Lists.Dedup(Days(events));
    var g := Grouped(events);
    Lists.DedupSpec(Days(events));
    forall i | 0 <= i < |g|
      ensures g[i].date == d[i]
    {
      BucketSpec(events, d[i]);
    }
    forall e | e in events
      ensures exists i | 0 <= i < |g| :: g[i].date == e.day
    {
      var k :| 0 <= k < |events| && events[k] == e;
      assert Days(events)[k] == e.day;
      assert e.day in Days(events);
      assert e.day in d;
      var i :| 0 <= i < |d| && d[i] == e.day;
      assert g[i].date == e.day;
    }
    forall i | 0 <= i < |g|
      ensures g[i].date in Days(events)
    {
      assert d[i] in d;
    }
  }

  /** One more row adds one to the totals of a set of distinct days exactly when it is charted and its day is among them. */
  lemma {:induction false} TotalOverStep(events: seq<Event>, x: Event, days: seq<string>)
    requires Lists.Distinct(days)
    ensures TotalOver(events + [x], days) ==
            TotalOver(events, days) + (if Charted(x) && x.day in days then 1 else 0)
    decreases |days|
  {
    if days != [] {
      var init := days[..|days| - 1];
      var d := days[|days| - 1];
      assert days == init + [d];
      TotalOverStep(events, x, init);
      assert (events + [x])[..|events|] == events;
      BucketSpec(events, d);
    }
  }

  /** The totals over the days in first-appearance order count every charted row once. */
  lemma {:induction false} TotalOverDays(events: seq<Event>)
    ensures TotalOver(events, Lists.Dedup(Days(events))) == |Lists.Filter(Charted, events)|
    decreases |events|
  {
    if events != [] {
      var init := events[..|events| - 1];
      var x := events[|events| - 1];
      assert events == init + [x];
      assert Days(events) == Days(init) + [x.day];
      var d := Lists.Dedup(Days(init));
      TotalOverDays(init);
      Lists.DedupSpec(Days(init));
      Lists.FilterConcat(Charted, init, [x]);
      TotalOverStep(init, x, d);
      if x.day !in d {
        assert Lists.Dedup(Days(events)) == d + [x.day];
        assert (d + [x.day])[..|d|] == d;
        BucketOfAbsent(init, x.day);
        BucketSpec(init, x.day);
      }
    }
  }

  /** Adding up the buckets is adding up the totals of their days. */
  lemma {:induction false} SumTotalsOver(events: seq<Event>, days: seq<string>)
    ensures SumTotals(seq(|days|, j requires 0 <= j < |days| => BucketOf(events, days[j]))) == TotalOver(events, days)
    decreases |days|
  {
    if days != [] {
      var n := |days|;
      var init := days[..n - 1];
      SumTotalsOver(events, init);
      var all := seq(n, j requires 0 <= j < n => BucketOf(events, days[j]));
      assert all[..n - 1] == seq(n - 1, j requires 0 <= j < n - 1 => BucketOf(events, init[j]));
    }
  }

  /** The bucket totals add up to the number of charted rows: no row is lost or counted twice. */
  lemma TotalsAddUp(events: seq<Event>)
    ensures SumTotals(Grouped(events)) == |Lists.Filter(Charted, events)|
  {
    SumTotalsOver(events, Lists.Dedup(Days(events)));
    TotalOverDays(events);
  }

  /**
   * The chart holds the last seven day buckets, none for no rows, and its
   * scale is at least 1 and at least every total it shows.
   */
  lemma ChartSpec(events: seq<Event>)
    ensures events == [] ==> ChartData(Grouped(events)) == [] && MaxValue(ChartData(Grouped(events))) == 1
    ensures events != [] ==> ChartData(Grouped(events)) != []
    ensures forall b | b in ChartData(Grouped(events)) :: 1 <= MaxValue(ChartData(Grouped(events))) && b.total <= MaxValue(ChartData(Grouped(events)))
  {
    Lists.DedupSpec(Days(events));
    if events != [] {
      assert Days(events)[0] in Days(events);
    }
  }
}
