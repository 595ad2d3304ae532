/**
 * The summary views the dashboard derives from the cleaned booking table:
 * route ranking and top routes, daily totals, the top-5-plus-other
 * breakdown, the route-type counts and the per-route / per-type daily series.
 */
module Aggregates {
  import opened Bookings
  import opened Grouping
  import opened RouteTypes
  import opened Rolling

  /** Number of routes the dashboard singles out. */
  const TOP_N: nat := 5

  /** Label of the slice that gathers every route outside the top ones. */
  const OTHER: string := "other"

  /** Number of bookings on one route. */
  function RouteBookings(rows: seq<Booking>, route: string): nat
  {
    multiset(Routes(rows))[route]
  }

  /** Bookings per route, most-booked route first (the `routes` ranking, also recomputed for the pie chart). */
  function RouteCounts(rows: seq<Booking>): (r: seq<Group>)
    ensures NonIncreasing(r) && DistinctKeys(r)
    ensures Total(r) == |rows|
    ensures forall i :: 0 <= i < |r| ==> r[i].count == RouteBookings(rows, r[i].key) > 0
    ensures forall route :: route in Routes(rows) <==> route in Keys(r)
  {
    Ranked(Routes(rows))
  }

  /** The routes of the first `TOP_N` entries of the ranking. */
  function TopRoutes(rows: seq<Booking>): (top: seq<string>)
    ensures |top| == Min(TOP_N, |RouteCounts(rows)|) && |top| <= TOP_N
    ensures forall i, j :: 0 <= i < j < |top| ==> top[i] != top[j]
    ensures forall i :: 0 <= i < |top| ==> top[i] in Routes(rows)
  {
    var ranked := RouteCounts(rows);
    Keys(ranked[..Min(TOP_N, |ranked|)])
  }

  /** The top routes are listed from most to least booked. */
  lemma TopRoutesOrdered(rows: seq<Booking>)
    ensures forall i, j :: 0 <= i < j < |TopRoutes(rows)| ==>
      RouteBookings(rows, TopRoutes(rows)[j]) <= RouteBookings(rows, TopRoutes(rows)[i])
  {
  }

  /**
   * No route left out of the top routes has more bookings than any route in
   * them, and a route can only be left out when all `TOP_N` places are taken.
   */
  lemma TopRoutesDominate(rows: seq<Booking>)
    ensures forall route :: route in Routes(rows) && route !in TopRoutes(rows) ==> |TopRoutes(rows)| == TOP_N
    ensures forall route, i :: route in Routes(rows) && route !in TopRoutes(rows) && 0 <= i < |TopRoutes(rows)| ==>
      RouteBookings(rows, route) <= RouteBookings(rows, TopRoutes(rows)[i])
  {
    forall route | route in Routes(rows) && route !in TopRoutes(rows)
      ensures |TopRoutes(rows)| == TOP_N
      ensures forall i :: 0 <= i < |TopRoutes(rows)| ==> RouteBookings(rows, route) <= RouteBookings(rows, TopRoutes(rows)[i])
    {
      LeftOutRoute(rows, route);
    }
  }

  lemma LeftOutRoute(rows: seq<Booking>, route: string)
    requires route in Routes(rows) && route !in TopRoutes(rows)
    ensures |TopRoutes(rows)| == TOP_N
    ensures forall i :: 0 <= i < TOP_N ==> RouteBookings(rows, route) <= RouteBookings(rows, TopRoutes(rows)[i])
  {
    var ranked := RouteCounts(rows);
    var top := TopRoutes(rows);
    assert top == Keys(ranked[..|top|]);
    var p := OutsidePrefix(ranked, |top|, route);
    assert RouteBookings(rows, route) == ranked[p].count;
    forall i | 0 <= i < |top|
      ensures RouteBookings(rows, route) <= RouteBookings(rows, top[i])
    {
      assert RouteBookings(rows, top[i]) == ranked[i].count;
    }
  }

  /** A key missing from the first `m` groups sits at or after position `m`. */
  lemma OutsidePrefix(ranked: seq<Group>, m: nat, key: string) returns (p: nat)
    requires m <= |ranked| && key in Keys(ranked) && key !in Keys(ranked[..m])
    ensures m <= p < |ranked| && ranked[p].key == key
  {
    p :| 0 <= p < |ranked| && Keys(ranked)[p] == key;
  }

  /** Bookings per booking date, days in ascending order. */
  function DailyTotals(rows: seq<Booking>): (r: seq<Group>)
    ensures Ascending(r) && Positive(r)
    ensures forall day :: CountOf(r, day) == multiset(BookingDates(rows))[day]
    ensures Total(r) == |rows|
  {
    GroupCount(BookingDates(rows))
  }

  // ---------------------------------------------------------------------
  // Moving averages of daily counts

  lemma {:induction false} CountsSum(g: seq<Group>)
    ensures Sum(Counts(g)) == Total(g)
  {
    if g != [] {
      assert Counts(g)[1..] == Counts(g[1..]);
      CountsSum(g[1..]);
    }
  }

  lemma WindowAtLeastOne(g: seq<Group>, i: nat)
    requires Positive(g) && WINDOW - 1 <= i < |g|
    ensures forall k :: 0 <= k < |Window(Counts(g), i)| ==> 1 <= Window(Counts(g), i)[k]
  {
    var w := Window(Counts(g), i);
    forall k | 0 <= k < |w| ensures 1 <= w[k] {
      assert w[k] == g[i + 1 - WINDOW + k].count;
    }
  }

  /** A window of a daily count table holds at least one booking per day... */
  lemma DailyWindowAtLeast(g: seq<Group>, i: nat)
    requires Positive(g) && WINDOW - 1 <= i < |g|
    ensures WINDOW <= Sum(Window(Counts(g), i))
  {
    WindowAtLeastOne(g, i);
    SumAtLeast(Window(Counts(g), i), 1);
  }

  /** ...and no more than the whole table. */
  lemma DailyWindowAtMost(g: seq<Group>, i: nat)
    requires WINDOW - 1 <= i < |g|
    ensures Sum(Window(Counts(g), i)) <= Total(g)
  {
    CountsSum(g);
    SliceSumAtMost(Counts(g), i + 1 - WINDOW, i + 1);
  }

  lemma MeanOfDailyCountsAt(g: seq<Group>, i: nat)
    requires Positive(g) && WINDOW - 1 <= i < |g|
    ensures RollingMean(Counts(g))[i].Some?
    ensures 1.0 <= RollingMean(Counts(g))[i].value <= Total(g) as real / WINDOW as real
  {
    DailyWindowAtLeast(g, i);
    DailyWindowAtMost(g, i);
    RollingMeanWithin(Counts(g), i, WINDOW, Total(g));
  }

  /**
   * The 7-point moving average of a daily count table: every day listed has
   * at least one booking, so once defined each mean is at least 1, and a
   * window never holds more than all the bookings of the table.
   */
  lemma MeanOfDailyCounts(g: seq<Group>)
    requires Positive(g)
    ensures forall i :: 0 <= i < |g| && RollingMean(Counts(g))[i].Some? ==>
      1.0 <= RollingMean(Counts(g))[i].value <= Total(g) as real / WINDOW as real
  {
    forall i | 0 <= i < |g| && RollingMean(Counts(g))[i].Some?
      ensures 1.0 <= RollingMean(Counts(g))[i].value <= Total(g) as real / WINDOW as real
    {
      MeanOfDailyCountsAt(g, i);
    }
  }

  /** The daily-sales moving average: at least 1 and at most a seventh of all bookings. */
  lemma DailyMeans(rows: seq<Booking>)
    ensures var xs := Counts(DailyTotals(rows));
      forall i :: 0 <= i < |xs| && RollingMean(xs)[i].Some? ==>
        1.0 <= RollingMean(xs)[i].value <= |rows| as real / WINDOW as real
  {
    MeanOfDailyCounts(DailyTotals(rows));
  }

  // ---------------------------------------------------------------------
  // Top-5-plus-other breakdown

  /** One slice of the route-contribution pie. */
  datatype Slice = RouteSlice(route: string, bookings: nat) | OtherSlice(bookings: nat)

  function SliceTotal(s: seq<Slice>): nat
  {
    if s == [] then 0 else s[0].bookings + SliceTotal(s[1..])
  }

  function RouteSlices(g: seq<Group>): (r: seq<Slice>)
    ensures |r| == |g|
    ensures forall i :: 0 <= i < |g| ==> r[i] == RouteSlice(g[i].key, g[i].count)
    ensures SliceTotal(r) == Total(g)
  {
    if g == [] then [] else [RouteSlice(g[0].key, g[0].count)] + RouteSlices(g[1..])
  }

  lemma {:induction false} SliceTotalAppend(a: seq<Slice>, b: seq<Slice>)
    ensures SliceTotal(a + b) == SliceTotal(a) + SliceTotal(b)
  {
    if a == [] {
      assert a + b == b;
    } else {
      assert (a + b)[1..] == a[1..] + b;
      SliceTotalAppend(a[1..], b);
    }
  }

  /**
   * The first `TOP_N` entries of a ranking keep their own slice, and one
   * final slice holds the bookings of all the remaining routes.
   */
  function Breakdown(ranked: seq<Group>): (r: seq<Slice>)
    ensures |r| == Min(TOP_N, |ranked|) + 1
    ensures forall i :: 0 <= i < |r| - 1 ==> r[i] == RouteSlice(ranked[i].key, ranked[i].count)
    ensures r[|r| - 1].OtherSlice?
    ensures r[|r| - 1].bookings == Total(ranked) - Total(ranked[..|r| - 1])
    ensures |ranked| <= TOP_N ==> r[|r| - 1].bookings == 0
    ensures SliceTotal(r) == Total(ranked)
  {
    var m := Min(TOP_N, |ranked|);
    TotalSplit(ranked, m);
    var kept := RouteSlices(ranked[..m]);
    SliceTotalAppend(kept, [OtherSlice(Total(ranked[m..]))]);
    kept + [OtherSlice(Total(ranked[m..]))]
  }

  lemma SliceTotalSnoc(r: seq<Slice>)
    requires r != []
    ensures SliceTotal(r) == SliceTotal(r[..|r| - 1]) + r[|r| - 1].bookings
  {
    assert r == r[..|r| - 1] + [r[|r| - 1]];
    SliceTotalAppend(r[..|r| - 1], [r[|r| - 1]]);
  }

  /** The route-contribution pie of the cleaned table: its slices add up to every booking. */
  function RouteContribution(rows: seq<Booking>): (r: seq<Slice>)
    ensures SliceTotal(r) == |rows|
    ensures |r| == |TopRoutes(rows)| + 1
    ensures forall i :: 0 <= i < |r| - 1 ==>
      r[i] == RouteSlice(TopRoutes(rows)[i], RouteBookings(rows, TopRoutes(rows)[i]))
    ensures r[|r| - 1].OtherSlice? && r[|r| - 1].bookings == |rows| - SliceTotal(r[..|r| - 1])
  {
    var ranked := RouteCounts(rows);
    var r := Breakdown(ranked);
    SliceTotalSnoc(r);
    TopRoutesAreRankedKeys(rows);
    r
  }

  /** The top routes are the keys of the first entries of the ranking, in ranking order. */
  lemma TopRoutesAreRankedKeys(rows: seq<Booking>)
    ensures forall i :: 0 <= i < |TopRoutes(rows)| ==> TopRoutes(rows)[i] == RouteCounts(rows)[i].key
  {
    var ranked := RouteCounts(rows);
    var m := Min(TOP_N, |ranked|);
    assert TopRoutes(rows) == Keys(ranked[..m]);
  }

  /**
   * `dff.loc[key, "Book ID"] = value` on a table indexed by route: the group
   * with that label gets the value, and when there is none a new group is appended.
   */
  function SetOrAppend(t: seq<Group>, key: string, value: nat): (r: seq<Group>)
    ensures CountOf(r, key) == value
    ensures forall k :: k != key ==> CountOf(r, k) == CountOf(t, k)
    ensures Absent(key, t) ==> r == t + [Group(key, value)]
  {
    if t == [] then [Group(key, value)]
    else if t[0].key == key then [Group(key, value)] + t[1..]
    else
      assert Absent(key, t) ==> Absent(key, t[1..]);
      [t[0]] + SetOrAppend(t[1..], key, value)
  }

  /**
   * A label already in the table is overwritten where it stands: the first
   * group with that label is replaced, the table keeps its length and every
   * other group keeps its place.
   */
  lemma {:induction false} SetOrAppendOverwrites(t: seq<Group>, key: string, value: nat, p: nat)
    requires p < |t| && t[p].key == key && Absent(key, t[..p])
    ensures SetOrAppend(t, key, value) == t[..p] + [Group(key, value)] + t[p + 1..]
  {
    if p > 0 {
      var tail := t[1..];
      var g := Group(key, value);
      AbsentTail(t, key, p);
      calc {
        SetOrAppend(t, key, value);
        { assert t[0] == t[..p][0]; }
        [t[0]] + SetOrAppend(tail, key, value);
        { SetOrAppendOverwrites(tail, key, value, p - 1); }
        [t[0]] + (tail[..p - 1] + [g] + tail[p..]);
        { SpliceCons(t, p, g); }
        t[..p] + [g] + t[p + 1..];
      }
    }
  }

  lemma SpliceCons(t: seq<Group>, p: nat, g: Group)
    requires 0 < p < |t|
    ensures [t[0]] + (t[1..][..p - 1] + [g] + t[1..][p..]) == t[..p] + [g] + t[p + 1..]
  {
    assert t[..p] == [t[0]] + t[1..][..p - 1];
    assert t[p + 1..] == t[1..][p..];
  }

  lemma AbsentTail(t: seq<Group>, key: string, p: nat)
    requires 0 < p <= |t| && Absent(key, t[..p])
    ensures Absent(key, t[1..][..p - 1])
  {
    var before := t[1..][..p - 1];
    forall i | 0 <= i < |before| ensures before[i].key != key {
      assert before[i] == t[..p][i + 1];
    }
  }

  /** The breakdown as the code builds it: the remainder is written under the label "other". */
  function BreakdownAsWritten(ranked: seq<Group>): (r: seq<Group>)
    ensures CountOf(r, OTHER) == Total(ranked[Min(TOP_N, |ranked|)..])
    ensures forall k :: k != OTHER ==> CountOf(r, k) == CountOf(ranked[..Min(TOP_N, |ranked|)], k)
  {
    var m := Min(TOP_N, |ranked|);
    SetOrAppend(ranked[..m], OTHER, Total(ranked[m..]))
  }

  /** Replacing one group changes the sum by the difference of the two counts. */
  lemma TotalReplace(t: seq<Group>, p: nat, g: Group)
    requires p < |t|
    ensures Total(t[..p] + [g] + t[p + 1..]) == Total(t) - t[p].count + g.count
  {
    TotalAppend(t[..p] + [g], t[p + 1..]);
    TotalAppend(t[..p], [g]);
    assert t == t[..p] + [t[p]] + t[p + 1..];
    TotalAppend(t[..p] + [t[p]], t[p + 1..]);
    TotalAppend(t[..p], [t[p]]);
  }

  /**
   * When a top route is labelled "other", the code writes the remainder over
   * that route's own slice: the pie keeps its top groups' length, and that
   * route's bookings are missing from its total.
   */
  lemma BreakdownAsWrittenOverwrites(ranked: seq<Group>, p: nat)
    requires p < Min(TOP_N, |ranked|) && ranked[p].key == OTHER
    requires Absent(OTHER, ranked[..p])
    ensures var m := Min(TOP_N, |ranked|);
      BreakdownAsWritten(ranked) == ranked[..p] + [Group(OTHER, Total(ranked[m..]))] + ranked[p + 1..m]
    ensures Total(BreakdownAsWritten(ranked)) == Total(ranked) - ranked[p].count
  {
    var m := Min(TOP_N, |ranked|);
    var top := ranked[..m];
    var rest := Total(ranked[m..]);
    assert top[..p] == ranked[..p];
    assert top[p + 1..] == ranked[p + 1..m];
    SetOrAppendOverwrites(top, OTHER, rest, p);
    TotalReplace(top, p, Group(OTHER, rest));
    TotalSplit(ranked, m);
  }

  /**
   * As long as no top route is itself labelled "other", the code's breakdown
   * is the intended one: the top groups followed by the remainder.
   */
  lemma BreakdownAsWrittenAgrees(ranked: seq<Group>)
    requires Absent(OTHER, ranked[..Min(TOP_N, |ranked|)])
    ensures |BreakdownAsWritten(ranked)| == |Breakdown(ranked)|
    ensures forall i :: 0 <= i < |Breakdown(ranked)| ==>
      BreakdownAsWritten(ranked)[i].count == Breakdown(ranked)[i].bookings
    ensures Total(BreakdownAsWritten(ranked)) == Total(ranked)
    ensures BreakdownAsWritten(ranked)
         == ranked[..Min(TOP_N, |ranked|)] + [Group(OTHER, Total(ranked[Min(TOP_N, |ranked|)..]))]
  {
    var m := Min(TOP_N, |ranked|);
    TotalSplit(ranked, m);
    TotalAppend(ranked[..m], [Group(OTHER, Total(ranked[m..]))]);
  }

  /**
   * A top route whose label is "other" is overwritten by the remainder: with
   * a single route named "other" and two bookings, the code's pie shows one
   * slice of zero, while the intended breakdown keeps both bookings.
   */
  lemma BreakdownAsWrittenLosesRouteNamedOther()
    ensures Total(BreakdownAsWritten([Group(OTHER, 2)])) == 0
    ensures SliceTotal(Breakdown([Group(OTHER, 2)])) == 2
  {
    var ranked := [Group(OTHER, 2)];
    assert ranked[..1] == ranked;
    assert ranked[1..] == [];
  }

  /**
   * Over a bookings table: whenever "other" is one of the top routes, the
   * code's route pie sums to every booking except those on that route.
   */
  lemma RouteContributionAsWrittenLosesOther(rows: seq<Booking>)
    ensures OTHER in TopRoutes(rows) ==>
      Total(BreakdownAsWritten(RouteCounts(rows))) == |rows| - RouteBookings(rows, OTHER)
  {
    if OTHER in TopRoutes(rows) {
      var ranked := RouteCounts(rows);
      var m := Min(TOP_N, |ranked|);
      var p :| 0 <= p < |TopRoutes(rows)| && TopRoutes(rows)[p] == OTHER;
      assert ranked[p].key == OTHER;
      var before := ranked[..p];
      assert Absent(OTHER, before) by {
        forall i | 0 <= i < |before| ensures before[i].key != OTHER {
          assert before[i] == ranked[i];
        }
      }
      BreakdownAsWrittenOverwrites(ranked, p);
    }
  }

  // ---------------------------------------------------------------------
  // Per-route and per-type daily series

  /** Daily bookings on one route (the callback behind the route selector). */
  function RouteSeries(rows: seq<Booking>, route: string): (r: seq<Group>)
    ensures Ascending(r) && Positive(r)
    ensures forall day :: CountOf(r, day) == multiset(BookingDates(RowsOnRoute(rows, route)))[day]
    ensures Total(r) == RouteBookings(rows, route)
    ensures r == [] <==> route !in Routes(rows)
  {
    var r := GroupCount(BookingDates(RowsOnRoute(rows, route)));
    TotalZero(r);
    r
  }

  /** `intflight[intflight["route_type"] == t]`: the rows classified as `t`, in table order. */
  function RowsOfType(rows: seq<Booking>, column: seq<string>, t: string): (r: seq<Booking>)
    requires |column| == |rows|
    ensures |r| == multiset(column)[t]
    ensures multiset(r) <= multiset(rows)
  {
    if rows == [] then []
    else
      assert column == [column[0]] + column[1..];
      assert rows == [rows[0]] + rows[1..];
      (if column[0] == t then [rows[0]] else []) + RowsOfType(rows[1..], column[1..], t)
  }

  /**
   * Over the classified column, the rows selected for a type are exactly the
   * table's rows whose route has that type, each as often as it occurs.
   */
  lemma {:induction false} RowsOfClassifiedType(rows: seq<Booking>, shortRoutes: set<string>, t: string)
    ensures var selected := RowsOfType(rows, Classification(Routes(rows), shortRoutes), t);
      forall x :: multiset(selected)[x] == if RouteTypeOf(x.route, shortRoutes) == t then multiset(rows)[x] else 0
  {
    if rows != [] {
      var column := Classification(Routes(rows), shortRoutes);
      assert column[1..] == Classification(Routes(rows[1..]), shortRoutes);
      assert rows == [rows[0]] + rows[1..];
      RowsOfClassifiedType(rows[1..], shortRoutes, t);
    }
  }

  /** Daily bookings of one route type (the callback behind the route-type selector). */
  function TypeSeries(rows: seq<Booking>, column: seq<string>, t: string): (r: seq<Group>)
    requires |column| == |rows|
    ensures Ascending(r) && Positive(r)
    ensures forall day :: CountOf(r, day) == multiset(BookingDates(RowsOfType(rows, column, t)))[day]
    ensures Total(r) == multiset(column)[t]
    ensures r == [] <==> t !in column
  {
    var r := GroupCount(BookingDates(RowsOfType(rows, column, t)));
    TotalZero(r);
    r
  }

  /** The moving average of one route's daily sales: at least 1 and at most a seventh of that route's bookings. */
  lemma RouteSeriesMeans(rows: seq<Booking>, route: string)
    ensures var xs := Counts(RouteSeries(rows, route));
      forall i :: 0 <= i < |xs| && RollingMean(xs)[i].Some? ==>
        1.0 <= RollingMean(xs)[i].value <= RouteBookings(rows, route) as real / WINDOW as real
  {
    MeanOfDailyCounts(RouteSeries(rows, route));
  }

  /** The moving average of one route type's daily sales: at least 1 and at most a seventh of that type's rows. */
  lemma TypeSeriesMeans(rows: seq<Booking>, column: seq<string>, t: string)
    requires |column| == |rows|
    ensures var xs := Counts(TypeSeries(rows, column, t));
      forall i :: 0 <= i < |xs| && RollingMean(xs)[i].Some? ==>
        1.0 <= RollingMean(xs)[i].value <= multiset(column)[t] as real / WINDOW as real
  {
    MeanOfDailyCounts(TypeSeries(rows, column, t));
  }

  /**
   * Over the classified column, the short-haul series counts the bookings on
   * listed routes, the long-haul series the others, and together every booking.
   */
  lemma TypeSeriesPartition(rows: seq<Booking>, shortRoutes: set<string>)
    ensures var column := Classification(Routes(rows), shortRoutes);
      && Total(TypeSeries(rows, column, SHORT)) == CountListed(Routes(rows), shortRoutes)
      && Total(TypeSeries(rows, column, SHORT)) + Total(TypeSeries(rows, column, LONG)) == |rows|
  {
    ClassificationCounts(Routes(rows), shortRoutes);
  }

  // ---------------------------------------------------------------------
  // Route types

  /** Bookings per route type, largest first. */
  function RouteTypeCounts(column: seq<string>): (r: seq<Group>)
    ensures NonIncreasing(r) && DistinctKeys(r)
    ensures Total(r) == |column|
    ensures forall i :: 0 <= i < |r| ==> r[i].count == multiset(column)[r[i].key] > 0
  {
    Ranked(column)
  }

  /**
   * The route-type pie of a classified table has at most the two slices
   * "short" and "long", sized by the listed and the unlisted rows.
   */
  lemma RouteTypeCountsOfClassification(routes: seq<string>, shortRoutes: set<string>)
    ensures var r := RouteTypeCounts(Classification(routes, shortRoutes));
      && |r| <= 2
      && (forall i :: 0 <= i < |r| ==> r[i].key == SHORT || r[i].key == LONG)
      && (forall i :: 0 <= i < |r| && r[i].key == SHORT ==> r[i].count == CountListed(routes, shortRoutes))
      && (forall i :: 0 <= i < |r| && r[i].key == LONG ==> r[i].count == |routes| - CountListed(routes, shortRoutes))
  {
    var column := Classification(routes, shortRoutes);
    var r := RouteTypeCounts(column);
    ClassificationCounts(routes, shortRoutes);
    forall i | 0 <= i < |r| ensures r[i].key == SHORT || r[i].key == LONG {
      assert r[i].key in column;
    }
    AtMostTwo(Keys(r));
  }

  /** Pigeonhole: a sequence of distinct values drawn from `c` is no longer than `c` is large. */
  lemma {:induction false} DistinctWithin(s: seq<string>, c: set<string>)
    requires forall i, j :: 0 <= i < j < |s| ==> s[i] != s[j]
    requires forall i :: 0 <= i < |s| ==> s[i] in c
    ensures |s| <= |c|
  {
    if s != [] {
      var rest := s[1..];
      forall i | 0 <= i < |rest| ensures rest[i] in c - {s[0]} {
        assert rest[i] == s[i + 1];
      }
      DistinctWithin(rest, c - {s[0]});
    }
  }

  /** Distinct values drawn from the two route types number at most two. */
  lemma AtMostTwo(s: seq<string>)
    requires forall i, j :: 0 <= i < j < |s| ==> s[i] != s[j]
    requires forall i :: 0 <= i < |s| ==> s[i] == SHORT || s[i] == LONG
    ensures |s| <= 2
  {
    DistinctWithin(s, {SHORT, LONG});
  }

  /** `unique()`: each value once, exactly the values present, the first row's value first. */
  function Unique(s: seq<string>): (r: seq<string>)
    ensures forall i, j :: 0 <= i < j < |r| ==> r[i] != r[j]
    ensures forall x :: x in r <==> x in s
    ensures s != [] ==> r != [] && r[0] == s[0]
  {
    if s == [] then []
    else
      var n := |s| - 1;
      var prefix := Unique(s[..n]);
      assert s == s[..n] + [s[n]];
      if s[n] in prefix then prefix else prefix + [s[n]]
  }

  /**
   * The route-type selector's options: no more than the two types, and its
   * default (the first one found) is the type of the first booking.
   */
  lemma RouteTypesFound(routes: seq<string>, shortRoutes: set<string>)
    ensures var found := Unique(Classification(routes, shortRoutes));
      && |found| <= 2
      && (forall i :: 0 <= i < |found| ==> found[i] == SHORT || found[i] == LONG)
      && (routes != [] ==> found[0] == RouteTypeOf(routes[0], shortRoutes))
  {
    var found := Unique(Classification(routes, shortRoutes));
    ClassificationCounts(routes, shortRoutes);
    forall i | 0 <= i < |found| ensures found[i] == SHORT || found[i] == LONG {
      assert found[i] in found;
    }
    AtMostTwo(found);
  }
}
