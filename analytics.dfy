/**
 * The aggregations of src/lib/analytics.ts over the `analytics` rows: the
 * per-post counters of `getPostAnalytics` and the site totals, visitor
 * count and top-five tallies of `getOverallAnalytics`. The query itself is a
 * parameter: `None` is an answered error or a thrown call, `Some(rows)` the
 * rows in the order the query returned them.
 */
module Analytics {
  import opened Wrappers
  import opened Text
  import Lists

  /**
   * An `analytics` row as the aggregations see it. A missing or falsy
   * metadata value is `""` or `0`; `day` is the row's `created_at` as the
   * chart's locale date string.
   */
  datatype Event = Event(eventType: string, sessionId: string, referrer: string, query: string,
                         duration: nat, scrollPercentage: nat, day: string)

  /** `data.filter(d => d.event_type === t)`. */
  function OfType(data: seq<Event>, t: string): seq<Event> {
    Lists.Filter((e: Event) => e.eventType == t, data)
  }

  function CountType(data: seq<Event>, t: string): nat {
    |OfType(data, t)|
  }

  /** `new Set(rows.map(d => d.session_id))`. */
  function Sessions(rows: seq<Event>): set<string>
    decreases |rows|
  {
    if rows == [] then {} else {rows[0].sessionId} + Sessions(rows[1..])
  }

  /** `Math.round(sum / n)` for a whole, non-negative sum, with 0 when there is nothing to average. */
  function RoundedMean(sum: nat, n: nat): nat {
    if n == 0 then 0 else (2 * sum + n) / (2 * n)
  }

  predicate Timed(e: Event) {
    e.eventType == "time_on_page" && e.duration != 0
  }

  predicate Scrolled(e: Event) {
    e.eventType == "scroll_depth" && e.scrollPercentage != 0
  }

  function SumDurations(rows: seq<Event>): nat
    decreases |rows|
  {
    if rows == [] then 0 else rows[0].duration + SumDurations(rows[1..])
  }

  function SumScroll(rows: seq<Event>): nat
    decreases |rows|
  {
    if rows == [] then 0 else rows[0].scrollPercentage + SumScroll(rows[1..])
  }

  datatype PostAnalytics = PostAnalytics(postId: string, views: nat, uniqueViews: nat, likes: nat, comments: nat,
                                         shares: nat, avgTimeOnPage: nat, scrollDepth: nat)

  /**
   * `getPostAnalytics` over the rows of one post: `null` without a client
   * or when the query fails.
   */
  function GetPostAnalytics(postId: string, hasClient: bool, fetched: Option<seq<Event>>): (r: Option<PostAnalytics>)
    ensures r.None? <==> !hasClient || fetched.None?
    ensures r.Some? ==> r.value.postId == postId
  {
    if !hasClient || fetched.None? then None
    else
      var data := fetched.value;
      var timed := Lists.Filter(Timed, data);
      var scrolled := Lists.Filter(Scrolled, data);
      Some(PostAnalytics(postId, CountType(data, "post_view"), |Sessions(OfType(data, "post_view"))|,
                         CountType(data, "post_like"), CountType(data, "comment_submit"),
                         CountType(data, "social_share"),
                         RoundedMean(SumDurations(timed), |timed|), RoundedMean(SumScroll(scrolled), |scrolled|)))
  }

  // ---------------------------------------------------------------------
  // Tallies: the accumulator objects of `getOverallAnalytics`

  /**
   * `Object.entries(acc)` after counting `keys` into `acc`: each distinct
   * key, in order of first appearance, with how often it occurs.
   */
  function Counted(keys: seq<string>): (r: seq<(string, nat)>)
    ensures |r| == |Lists.Dedup(keys)|
  {
    var d := Lists.Dedup(keys);
    seq(|d|, j requires 0 <= j < |d| => (d[j], Lists.Occurrences(keys, d[j])))
  }

  /**
   * The `reduce` that fills the accumulator object one key at a time: a new
   * key is added with 1, a known one is incremented; the entries are then
   * read back in insertion order.
   */
  method Tally(keys: seq<string>) returns (entries: seq<(string, nat)>)
    ensures entries == Counted(keys)
  {
    var acc: map<string, nat> := map[];
    var order: seq<string> := [];
    var i := 0;
    while i < |keys|
      invariant 0 <= i <= |keys|
      invariant order == Lists.Dedup(keys[..i])
      invariant forall k :: k in acc <==> k in order
      invariant forall k | k in acc :: acc[k] == Lists.Occurrences(keys[..i], k)
    {
      var k := keys[i];
      assert keys[..i + 1][..i] == keys[..i];
      assert forall x :: Lists.Occurrences(keys[..i + 1], x) == Lists.Occurrences(keys[..i], x) + (if k == x then 1 else 0);
      Lists.DedupSpec(keys[..i]);
      Lists.OccurrencesSpec(keys[..i], k);
      if k in acc {
        acc := acc[k := acc[k] + 1];
      } else {
        acc := acc[k := 1];
        order := order + [k];
      }
      i := i + 1;
    }
    assert keys[..i] == keys;
    entries := seq(|order|, j requires 0 <= j < |order| => (order[j], acc[order[j]]));
  }

  /** Entries sorted by count, largest first. */
  predicate ByCount(s: seq<(string, nat)>) {
    forall i, j | 0 <= i < j < |s| :: s[j].1 <= s[i].1
  }

  /** No key appears in two entries. */
  predicate KeysDistinct(s: seq<(string, nat)>) {
    forall i, j | 0 <= i < j < |s| :: s[i].0 != s[j].0
  }

  /** Places `e` before the first entry whose count is not larger. */
  function InsertByCount(e: (string, nat), s: seq<(string, nat)>): (r: seq<(string, nat)>)
    ensures |r| == |s| + 1
    decreases |s|
  {
    if s == [] || s[0].1 <= e.1 then [e] + s else [s[0]] + InsertByCount(e, s[1..])
  }

  /** `.sort(([,a], [,b]) => b - a)`: by count, largest first, ties in their original order. */
  function SortByCount(s: seq<(string, nat)>): (r: seq<(string, nat)>)
    ensures |r| == |s|
    decreases |s|
  {
    if s == [] then [] else InsertByCount(s[0], SortByCount(s[1..]))
  }

  /** `.slice(0, 5)` of the sorted entries. */
  function TopFive(entries: seq<(string, nat)>): seq<(string, nat)> {
    var sorted := SortByCount(entries);
    if |sorted| <= 5 then sorted else sorted[..5]
  }

  predicate HasReferrer(e: Event) {
    e.referrer != ""
  }

  predicate IsSearch(e: Event) {
    e.eventType == "search" && e.query != ""
  }

  /** The referrer URLs of the rows that have one. */
  function ReferrerUrls(data: seq<Event>): (r: seq<string>)
    ensures |r| == |Lists.Filter(HasReferrer, data)|
  {
    var rows := Lists.Filter(HasReferrer, data);
    seq(|rows|, i requires 0 <= i < |rows| => rows[i].referrer)
  }

  /** The lower-cased queries of the search rows that carry one. */
  function SearchKeys(data: seq<Event>): (r: seq<string>)
    ensures |r| == |Lists.Filter(IsSearch, data)|
  {
    var rows := Lists.Filter(IsSearch, data);
    seq(|rows|, i requires 0 <= i < |rows| => Lower(rows[i].query))
  }

  datatype Overall = Overall(totalViews: nat, totalPostViews: nat, totalLikes: nat, totalComments: nat,
                             totalShares: nat, totalSignups: nat, totalLinkClicks: nat, totalSearches: nat,
                             uniqueVisitors: nat, topReferrers: seq<(string, nat)>, topSearches: seq<(string, nat)>,
                             recentActivity: seq<Event>)

  /** The record `getOverallAnalytics` builds from the rows and the referrers' host names. */
  function OverallOf(data: seq<Event>, hosts: seq<string>): Overall {
    Overall(CountType(data, "page_view"), CountType(data, "post_view"), CountType(data, "post_like"),
            CountType(data, "comment_submit"), CountType(data, "social_share"),
            CountType(data, "newsletter_signup"), CountType(data, "link_click"), CountType(data, "search"),
            |Sessions(data)|, TopFive(Counted(hosts)), TopFive(Counted(SearchKeys(data))),
            if |data| <= 20 then data else data[..20])
  }

  /**
   * `getOverallAnalytics`. `host` is `new URL(referrer).hostname`, `None`
   * when the constructor throws; a throw anywhere makes the result `null`.
   */
  method GetOverallAnalytics(hasClient: bool, fetched: Option<seq<Event>>, host: string -> Option<string>)
    returns (r: Option<Overall>)
    ensures !hasClient || fetched.None? ==> r.None?
    ensures hasClient && fetched.Some? ==> (r.None? <==> Lists.MapAll(host, ReferrerUrls(fetched.value)).None?)
    ensures r.Some? ==> r.value == OverallOf(fetched.value, Lists.MapAll(host, ReferrerUrls(fetched.value)).value)
  {
    if !hasClient || fetched.None? {
      return None;
    }
    var data := fetched.value;
    var hosts := Lists.MapAll(host, ReferrerUrls(data));
    if hosts.None? {
      return None;
    }
    var referrers := Tally(hosts.value);
    var searches := Tally(SearchKeys(data));
    r := Some(Overall(CountType(data, "page_view"), CountType(data, "post_view"), CountType(data, "post_like"),
                      CountType(data, "comment_submit"), CountType(data, "social_share"),
                      CountType(data, "newsletter_signup"), CountType(data, "link_click"), CountType(data, "search"),
                      |Sessions(data)|, TopFive(referrers), TopFive(searches),
                      if |data| <= 20 then data else data[..20]));
  }

  // ---------------------------------------------------------------------
  // Properties

  /** The session set holds exactly the rows' session ids, so it is no larger than the rows. */
  lemma {:induction false} SessionsSpec(rows: seq<Event>)
    ensures forall s :: s in Sessions(rows) <==> exists i | 0 <= i < |rows| :: rows[i].sessionId == s
    ensures |Sessions(rows)| <= |rows|
    ensures |Sessions(rows)| == 0 <==> rows == []
    decreases |rows|
  {
    if rows != [] {
      SessionsSpec(rows[1..]);
      forall s | s in Sessions(rows)
        ensures exists i | 0 <= i < |rows| :: rows[i].sessionId == s
      {
        if s != rows[0].sessionId {
          var i :| 0 <= i < |rows[1..]| && rows[1..][i].sessionId == s;
          assert rows[i + 1].sessionId == s;
        }
      }
      forall s | exists i | 0 <= i < |rows| :: rows[i].sessionId == s
        ensures s in Sessions(rows)
      {
        var i :| 0 <= i < |rows| && rows[i].sessionId == s;
        if i > 0 {
          assert rows[1..][i - 1].sessionId == s;
        }
      }
    }
  }

  /** The rounded mean is the whole number nearest the mean, halves rounding up. */
  lemma RoundedMeanSpec(sum: nat, n: nat)
    requires n > 0
    ensures 2 * n * RoundedMean(sum, n) <= 2 * sum + n < 2 * n * (RoundedMean(sum, n) + 1)
  {
    var q := (2 * sum + n) / (2 * n);
    var m := (2 * sum + n) % (2 * n);
    assert 2 * sum + n == 2 * n * q + m && 0 <= m < 2 * n;
  }

  /**
   * The post counters count exactly their event types, the unique views
   * are the distinct sessions among the views and never exceed them, and
   * the averages are 0 when no row carries the metric.
   */
  lemma PostAnalyticsSpec(postId: string, data: seq<Event>)
    ensures var a := GetPostAnalytics(postId, true, Some(data)).value;
      && a.views == Lists.CountIf((e: Event) => e.eventType == "post_view", data)
      && a.likes == Lists.CountIf((e: Event) => e.eventType == "post_like", data)
      && a.comments == Lists.CountIf((e: Event) => e.eventType == "comment_submit", data)
      && a.shares == Lists.CountIf((e: Event) => e.eventType == "social_share", data)
      && a.uniqueViews <= a.views
      && (a.uniqueViews == 0 <==> a.views == 0)
    ensures (forall e | e in data :: !Timed(e)) ==> GetPostAnalytics(postId, true, Some(data)).value.avgTimeOnPage == 0
    ensures (forall e | e in data :: !Scrolled(e)) ==> GetPostAnalytics(postId, true, Some(data)).value.scrollDepth == 0
  {
    PostCounts(postId, data);
    PostUniqueViews(postId, data);
    if forall e | e in data :: !Timed(e) {
      Lists.FilterNone(Timed, data);
    }
    if forall e | e in data :: !Scrolled(e) {
      Lists.FilterNone(Scrolled, data);
    }
  }

  /** Each count is the number of rows of its event type. */
  lemma PostCounts(postId: string, data: seq<Event>)
    ensures var a := GetPostAnalytics(postId, true, Some(data)).value;
      && a.views == Lists.CountIf((e: Event) => e.eventType == "post_view", data)
      && a.likes == Lists.CountIf((e: Event) => e.eventType == "post_like", data)
      && a.comments == Lists.CountIf((e: Event) => e.eventType == "comment_submit", data)
      && a.shares == Lists.CountIf((e: Event) => e.eventType == "social_share", data)
  {
    Lists.FilterSpec((e: Event) => e.eventType == "post_view", data);
    Lists.FilterSpec((e: Event) => e.eventType == "post_like", data);
    Lists.FilterSpec((e: Event) => e.eventType == "comment_submit", data);
    Lists.FilterSpec((e: Event) => e.eventType == "social_share", data);
  }

  /** The unique views are the distinct sessions among the views. */
  lemma PostUniqueViews(postId: string, data: seq<Event>)
    ensures var a := GetPostAnalytics(postId, true, Some(data)).value;
      && a.uniqueViews <= a.views
      && (a.uniqueViews == 0 <==> a.views == 0)
  {
    SessionsSpec(OfType(data, "post_view"));
  }

  /**
   * The visitor count is the number of distinct session ids, at most the
   * number of rows; the recent activity is the first twenty rows.
   */
  lemma OverallSpec(data: seq<Event>, hosts: seq<string>)
    ensures var o := OverallOf(data, hosts);
      && o.uniqueVisitors <= |data|
      && (o.uniqueVisitors == 0 <==> data == [])
      && |o.recentActivity| == (if |data| <= 20 then |data| else 20)
      && o.recentActivity <= data
  {
    SessionsSpec(data);
  }

  /** An insertion holds the inserted entry and the old ones. */
  lemma {:induction false} InsertByCountElems(e: (string, nat), s: seq<(string, nat)>)
    ensures multiset(InsertByCount(e, s)) == multiset(s) + multiset{e}
    decreases |s|
  {
    if s != [] && s[0].1 > e.1 {
      InsertByCountElems(e, s[1..]);
      assert s == [s[0]] + s[1..];
    }
  }

  /** Inserting into a list sorted by count keeps it sorted. */
  lemma {:induction false} InsertByCountSorted(e: (string, nat), s: seq<(string, nat)>)
    requires ByCount(s)
    ensures ByCount(InsertByCount(e, s))
    decreases |s|
  {
    if s != [] && s[0].1 > e.1 {
      InsertByCountSorted(e, s[1..]);
      InsertByCountElems(e, s[1..]);
      var rest := InsertByCount(e, s[1..]);
      assert forall x | x in rest :: x.1 <= s[0].1 by {
        forall x | x in rest
          ensures x.1 <= s[0].1
        {
          assert x in multiset(rest);
          if x != e {
            assert x in multiset(s[1..]);
            var k :| 0 <= k < |s[1..]| && s[1..][k] == x;
            assert s[k + 1] == x;
          }
        }
      }
      assert InsertByCount(e, s) == [s[0]] + rest;
    }
  }

  /** Inserting an entry whose key is new keeps the keys distinct. */
  lemma {:induction false} InsertByCountKeys(e: (string, nat), s: seq<(string, nat)>)
    requires KeysDistinct(s) && forall x | x in s :: x.0 != e.0
    ensures KeysDistinct(InsertByCount(e, s))
    decreases |s|
  {
    if s != [] && s[0].1 > e.1 {
      InsertByCountKeys(e, s[1..]);
      InsertByCountElems(e, s[1..]);
      var rest := InsertByCount(e, s[1..]);
      assert forall x | x in rest :: x.0 != s[0].0 by {
        forall x | x in rest
          ensures x.0 != s[0].0
        {
          assert x in multiset(rest);
          if x != e {
            assert x in multiset(s[1..]);
            var k :| 0 <= k < |s[1..]| && s[1..][k] == x;
            assert s[k + 1] == x;
          }
        }
      }
      assert InsertByCount(e, s) == [s[0]] + rest;
    }
  }

  /** The sort orders by count, largest first, and is a permutation of its input. */
  lemma {:induction false} SortByCountSpec(s: seq<(string, nat)>)
    ensures ByCount(SortByCount(s))
    ensures multiset(SortByCount(s)) == multiset(s)
    decreases |s|
  {
    if s != [] {
      SortByCountSpec(s[1..]);
      InsertByCountElems(s[0], SortByCount(s[1..]));
      InsertByCountSorted(s[0], SortByCount(s[1..]));
      assert s == [s[0]] + s[1..];
    }
  }

  /** Sorting entries whose keys are distinct keeps them distinct. */
  lemma {:induction false} SortByCountKeys(s: seq<(string, nat)>)
    requires KeysDistinct(s)
    ensures KeysDistinct(SortByCount(s))
    decreases |s|
  {
    if s != [] {
      var rest := SortByCount(s[1..]);
      SortByCountKeys(s[1..]);
      SortByCountSpec(s[1..]);
      forall x | x in rest
        ensures x.0 != s[0].0
      {
        assert x in multiset(s[1..]);
        var k :| 0 <= k < |s[1..]| && s[1..][k] == x;
        assert s[k + 1] == x;
      }
      InsertByCountKeys(s[0], rest);
    }
  }

  /** The counted entries name each key of the input once, each with how often it occurs. */
  lemma CountedSpec(keys: seq<string>)
    ensures KeysDistinct(Counted(keys))
    ensures forall e | e in Counted(keys) :: e.0 in keys && e.1 == Lists.Occurrences(keys, e.0) && e.1 >= 1
    ensures forall k | k in keys :: (k, Lists.Occurrences(keys, k)) in Counted(keys)
  {
    var c := Counted(keys);
    var d := Lists.Dedup(keys);
    Lists.DedupSpec(keys);
    forall e | e in c
      ensures e.0 in keys && e.1 == Lists.Occurrences(keys, e.0) && e.1 >= 1
    {
      var j :| 0 <= j < |c| && c[j] == e;
      assert d[j] in d;
      Lists.OccurrencesSpec(keys, d[j]);
    }
    forall k | k in keys
      ensures (k, Lists.Occurrences(keys, k)) in c
    {
      var j :| 0 <= j < |d| && d[j] == k;
      assert c[j] == (k, Lists.Occurrences(keys, k));
    }
  }

  /**
   * The top list has at most five entries, sorted by count with distinct
   * keys, each the true count of a key that occurs; a list of five or
   * fewer keys is shown whole.
   */
  lemma TopFiveSpec(keys: seq<string>)
    ensures |TopFive(Counted(keys))| == (if |Lists.Dedup(keys)| <= 5 then |Lists.Dedup(keys)| else 5)
    ensures ByCount(TopFive(Counted(keys))) && KeysDistinct(TopFive(Counted(keys)))
    ensures forall e | e in TopFive(Counted(keys)) :: e.0 in keys && e.1 == Lists.Occurrences(keys, e.0)
  {
    var c := Counted(keys);
    var sorted := SortByCount(c);
    CountedSpec(keys);
    SortByCountSpec(c);
    SortByCountKeys(c);
    forall e | e in TopFive(c)
      ensures e.0 in keys && e.1 == Lists.Occurrences(keys, e.0)
    {
      assert e in multiset(sorted);
    }
  }

  /** A key left out of the top list occurs no more often than any key shown. */
  lemma TopFiveLeftOut(keys: seq<string>, k: string)
    requires k in keys && forall t | t in TopFive(Counted(keys)) :: t.0 != k
    ensures forall e | e in TopFive(Counted(keys)) :: Lists.Occurrences(keys, k) <= e.1
  {
    var c := Counted(keys);
    var sorted := SortByCount(c);
    var top := TopFive(c);
    CountedSpec(keys);
    SortByCountSpec(c);
    var x := (k, Lists.Occurrences(keys, k));
    assert x in multiset(sorted);
    var m :| 0 <= m < |sorted| && sorted[m] == x;
    assert forall j | 0 <= j < |top| :: sorted[j] == top[j] && top[j].0 != k;
    assert m >= |top|;
    forall e | e in top
      ensures x.1 <= e.1
    {
      var i :| 0 <= i < |top| && top[i] == e;
      assert sorted[i] == e;
    }
  }
}
