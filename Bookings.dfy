/**
 * The booking table after loading, and the cleaning applied to it before any
 * aggregate is computed: both date columns are cut down to a calendar-day
 * string, and rows without a booking identifier are dropped.
 */
module Bookings {
  import opened Wrappers

  /** One row of the bookings table. Only the columns the dashboard reads are kept. */
  datatype Booking = Booking(
    bookId: Option<int>,
    route: string,
    bookingDate: string,
    departureDate: string)

  /** Number of leading characters kept of a date/time string ("YYYY-MM-DD"). */
  const DATE_WIDTH: nat := 10

  function Min(a: nat, b: nat): nat { if a <= b then a else b }

  /** `.str[:10]`: the first ten characters, or the whole string when it is shorter. */
  function TruncateDate(s: string): (r: string)
    ensures r <= s
    ensures |r| == Min(|s|, DATE_WIDTH)
  {
    if |s| <= DATE_WIDTH then s else s[..DATE_WIDTH]
  }

  lemma TruncateDateIdempotent(s: string)
    ensures TruncateDate(TruncateDate(s)) == TruncateDate(s)
  {
  }

  /** Truncation of both date columns of one row; every other column is kept. */
  function TruncateDates(b: Booking): (r: Booking)
    ensures r.bookId == b.bookId && r.route == b.route
    ensures r.bookingDate <= b.bookingDate && |r.bookingDate| == Min(|b.bookingDate|, DATE_WIDTH)
    ensures r.departureDate <= b.departureDate && |r.departureDate| == Min(|b.departureDate|, DATE_WIDTH)
  {
    b.(bookingDate := TruncateDate(b.bookingDate), departureDate := TruncateDate(b.departureDate))
  }

  /** Both column assignments, applied to every row. */
  function TruncateAll(rows: seq<Booking>): (r: seq<Booking>)
    ensures |r| == |rows|
    ensures forall i :: 0 <= i < |rows| ==> r[i] == TruncateDates(rows[i])
  {
    seq(|rows|, i requires 0 <= i < |rows| => TruncateDates(rows[i]))
  }

  /** `dropna(subset=["Book ID"])`: keep, in order, the rows whose identifier is present. */
  function DropMissingId(rows: seq<Booking>): (r: seq<Booking>)
    ensures |r| <= |rows|
    ensures forall i :: 0 <= i < |r| ==> r[i].bookId.Some?
  {
    if rows == [] then []
    else (if rows[0].bookId.Some? then [rows[0]] else []) + DropMissingId(rows[1..])
  }

  /** The kept rows are exactly the identified input rows, each as often as in the input. */
  lemma {:induction false} DropMissingIdCounts(rows: seq<Booking>)
    ensures forall x :: multiset(DropMissingId(rows))[x] == if x.bookId.Some? then multiset(rows)[x] else 0
  {
    if rows != [] {
      DropMissingIdCounts(rows[1..]);
      assert rows == [rows[0]] + rows[1..];
    }
  }

  /** Dropping distributes over concatenation: the relative order of kept rows is the input order. */
  lemma {:induction false} DropMissingIdAppend(a: seq<Booking>, b: seq<Booking>)
    ensures DropMissingId(a + b) == DropMissingId(a) + DropMissingId(b)
  {
    if a == [] {
      assert a + b == b;
    } else {
      assert (a + b)[1..] == a[1..] + b;
      DropMissingIdAppend(a[1..], b);
    }
  }

  /** A table in which every row already has an identifier is left as it is. */
  lemma {:induction false} DropMissingIdKeepsIdentified(rows: seq<Booking>)
    requires forall i :: 0 <= i < |rows| ==> rows[i].bookId.Some?
    ensures DropMissingId(rows) == rows
  {
    if rows != [] {
      DropMissingIdKeepsIdentified(rows[1..]);
    }
  }

  /** The cleaning of lines 12-14: truncate both dates, then drop rows without identifier. */
  function Clean(rows: seq<Booking>): (r: seq<Booking>)
    ensures |r| <= |rows|
    ensures forall i :: 0 <= i < |r| ==> r[i].bookId.Some?
    ensures forall i :: 0 <= i < |r| ==> |r[i].bookingDate| <= DATE_WIDTH && |r[i].departureDate| <= DATE_WIDTH
  {
    var t := TruncateAll(rows);
    var r := DropMissingId(t);
    DropMissingIdCounts(t);
    forall i | 0 <= i < |r|
      ensures |r[i].bookingDate| <= DATE_WIDTH && |r[i].departureDate| <= DATE_WIDTH
    {
      assert r[i] in multiset(r);
      assert r[i] in t;
    }
    r
  }

  lemma TruncateAllAppend(a: seq<Booking>, b: seq<Booking>)
    ensures TruncateAll(a + b) == TruncateAll(a) + TruncateAll(b)
  {
  }

  /** Cleaning a table row by row: the first row, truncated, is kept exactly when it has an identifier. */
  lemma CleanCons(rows: seq<Booking>)
    requires rows != []
    ensures var first := TruncateDates(rows[0]);
      Clean(rows) == (if first.bookId.Some? then [first] else []) + Clean(rows[1..])
  {
    var first := TruncateDates(rows[0]);
    assert rows == [rows[0]] + rows[1..];
    TruncateAllAppend([rows[0]], rows[1..]);
    DropMissingIdCons(first, TruncateAll(rows[1..]));
  }

  /** Truncating and dropping commute: the cleaned table is the truncation of the identified rows. */
  lemma {:induction false} CleanIsTruncatedIdentifiedRows(rows: seq<Booking>)
    ensures Clean(rows) == TruncateAll(DropMissingId(rows))
  {
    if rows != [] {
      var d := DropMissingId(rows[1..]);
      var head := if rows[0].bookId.Some? then [rows[0]] else [];
      calc {
        Clean(rows);
        { CleanCons(rows); }
        TruncateAll(head) + Clean(rows[1..]);
        { CleanIsTruncatedIdentifiedRows(rows[1..]); }
        TruncateAll(head) + TruncateAll(d);
        { TruncateAllAppend(head, d); }
        TruncateAll(head + d);
        { DropMissingIdCons(rows[0], rows[1..]); assert rows == [rows[0]] + rows[1..]; }
        TruncateAll(DropMissingId(rows));
      }
    }
  }

  lemma DropMissingIdCons(x: Booking, rest: seq<Booking>)
    ensures DropMissingId([x] + rest) == (if x.bookId.Some? then [x] else []) + DropMissingId(rest)
  {
  }

  /** The route column. */
  function Routes(rows: seq<Booking>): (r: seq<string>)
    ensures |r| == |rows| && forall i :: 0 <= i < |rows| ==> r[i] == rows[i].route
  {
    seq(|rows|, i requires 0 <= i < |rows| => rows[i].route)
  }

  lemma RoutesCons(rows: seq<Booking>)
    requires rows != []
    ensures multiset(Routes(rows)) == multiset{rows[0].route} + multiset(Routes(rows[1..]))
  {
    assert Routes(rows) == [rows[0].route] + Routes(rows[1..]);
  }

  /** The booking-date column. */
  function BookingDates(rows: seq<Booking>): (r: seq<string>)
    ensures |r| == |rows| && forall i :: 0 <= i < |rows| ==> r[i] == rows[i].bookingDate
  {
    seq(|rows|, i requires 0 <= i < |rows| => rows[i].bookingDate)
  }

  /** `intflight[intflight["Route"] == route]`: the rows on one route, in table order. */
  function RowsOnRoute(rows: seq<Booking>, route: string): (r: seq<Booking>)
    ensures |r| == multiset(Routes(rows))[route]
    ensures forall i :: 0 <= i < |r| ==> r[i].route == route
  {
    if rows == [] then []
    else
      RoutesCons(rows);
      (if rows[0].route == route then [rows[0]] else []) + RowsOnRoute(rows[1..], route)
  }

  lemma {:induction false} RowsOnRouteCount(rows: seq<Booking>, route: string, x: Booking)
    ensures multiset(RowsOnRoute(rows, route))[x] == if x.route == route then multiset(rows)[x] else 0
  {
    if rows != [] {
      var rest := RowsOnRoute(rows[1..], route);
      RowsOnRouteCount(rows[1..], route, x);
      assert multiset(rows) == multiset{rows[0]} + multiset(rows[1..]) by {
        assert rows == [rows[0]] + rows[1..];
      }
      if rows[0].route == route {
        assert RowsOnRoute(rows, route) == [rows[0]] + rest;
        assert multiset(RowsOnRoute(rows, route)) == multiset{rows[0]} + multiset(rest);
      } else {
        assert RowsOnRoute(rows, route) == rest;
      }
    }
  }

  /** The rows selected for a route are exactly the table's rows on that route, each as often as it occurs. */
  lemma RowsOnRouteContents(rows: seq<Booking>, route: string)
    ensures forall x :: multiset(RowsOnRoute(rows, route))[x] == if x.route == route then multiset(rows)[x] else 0
  {
    forall x {
      RowsOnRouteCount(rows, route, x);
    }
  }
}
