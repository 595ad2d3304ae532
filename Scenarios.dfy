/** Two small worked tables, checked against the model. */
module Scenarios {
  import opened Wrappers
  import opened Bookings
  import opened Grouping
  import opened RouteTypes
  import opened Aggregates

  function SampleBookings(): seq<Booking>
  {
    [ Booking(Some(1), "A-B", "2024-01-01 08:15:00", "2024-02-10 06:30:00"),
      Booking(Some(2), "A-B", "2024-01-01 19:02:11", "2024-03-01 22:05:00"),
      Booking(None, "A-B", "2024-01-02 10:00:00", "2024-03-05 12:00:00") ]
  }

  function SampleCleaned(): seq<Booking>
  {
    [ Booking(Some(1), "A-B", "2024-01-01", "2024-02-10"),
      Booking(Some(2), "A-B", "2024-01-01", "2024-03-01") ]
  }

  lemma TruncatesToDay(s: string, day: string)
    requires |s| == 19 && s[..10] == day
    ensures TruncateDate(s) == day
  {
  }

  lemma SampleDays()
    ensures "2024-01-01 08:15:00"[..10] == "2024-01-01"
    ensures "2024-01-01 19:02:11"[..10] == "2024-01-01"
    ensures "2024-02-10 06:30:00"[..10] == "2024-02-10"
    ensures "2024-03-01 22:05:00"[..10] == "2024-03-01"
  {
  }

  lemma SampleIdentified()
    ensures DropMissingId(SampleBookings()) == SampleBookings()[..2]
  {
    var rows := SampleBookings();
    assert rows == [rows[0]] + ([rows[1]] + [rows[2]]);
    DropMissingIdCons(rows[2], []);
    DropMissingIdCons(rows[1], [rows[2]]);
    DropMissingIdCons(rows[0], [rows[1]] + [rows[2]]);
  }

  lemma SampleTruncated()
    ensures TruncateAll(SampleBookings()[..2]) == SampleCleaned()
  {
    var kept := SampleBookings()[..2];
    SampleDays();
    TruncatesToDay(kept[0].bookingDate, "2024-01-01");
    TruncatesToDay(kept[1].bookingDate, "2024-01-01");
    TruncatesToDay(kept[0].departureDate, "2024-02-10");
    TruncatesToDay(kept[1].departureDate, "2024-03-01");
  }

  /** Of three bookings, the one without identifier is dropped and the dates are cut to the day. */
  lemma SampleClean()
    ensures Clean(SampleBookings()) == SampleCleaned()
  {
    var rows := SampleBookings();
    calc {
      Clean(rows);
      { CleanIsTruncatedIdentifiedRows(rows); }
      TruncateAll(DropMissingId(rows));
      { SampleIdentified(); }
      TruncateAll(rows[..2]);
      { SampleTruncated(); }
      SampleCleaned();
    }
  }

  lemma TwoOnOneDay(day: string)
    ensures GroupCount([day, day]) == [Group(day, 2)]
  {
  }

  /** Both cleaned bookings fall on the same day: one day with two bookings. */
  lemma SampleDailyTotals()
    ensures DailyTotals(Clean(SampleBookings())) == [Group("2024-01-01", 2)]
  {
    calc {
      DailyTotals(Clean(SampleBookings()));
      { SampleClean(); }
      GroupCount(BookingDates(SampleCleaned()));
      { assert BookingDates(SampleCleaned()) == ["2024-01-01", "2024-01-01"]; }
      GroupCount(["2024-01-01", "2024-01-01"]);
      { TwoOnOneDay("2024-01-01"); }
      [Group("2024-01-01", 2)];
    }
  }

  /** With "A-B" on the short-haul list, "A-B" is short-haul and "C-D" long-haul. */
  method ClassifySample() returns (column: seq<string>)
    ensures column == [SHORT, LONG]
  {
    column := Classify(["A-B", "C-D"], {"A-B"});
  }
}
