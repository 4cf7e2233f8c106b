/**
 * The series behind `GET /kpis/daily` (api/src/routes/kpis.js): scoped rows
 * of the last 14 days, grouped by `DATE(created_at)`, one signed
 * sale-minus-refund sum per day, days in ascending order.
 */
module DailySeries {
  import opened Events

  /** `INTERVAL '14 days'`, with timestamps counted in seconds. */
  const FourteenDays: int := 14 * 24 * 60 * 60

  datatype DayRevenue = DayRevenue(date: int, revenueCents: int)

  /** `e.created_at >= NOW() - INTERVAL '14 days'`, in log order. */
  function InWindow(rows: seq<Event>, now: int): (w: seq<Event>)
    ensures |w| <= |rows|
  {
    if rows == [] then []
    else (if rows[0].createdAt >= now - FourteenDays then [rows[0]] else []) + InWindow(rows[1..], now)
  }

  /** A row is in the window exactly when it is a row stamped no earlier than 14 days before now. */
  lemma {:induction false} InWindowMembers(rows: seq<Event>, now: int)
    ensures forall e :: e in InWindow(rows, now) <==> e in rows && e.createdAt >= now - FourteenDays
  {
    if rows != [] {
      InWindowMembers(rows[1..], now);
      assert forall e :: e in rows <==> e == rows[0] || e in rows[1..];
    }
  }

  /** `ORDER BY 1` over a `GROUP BY 1`: dates strictly increase, so none repeats. */
  ghost predicate StrictlyAscending(series: seq<DayRevenue>)
  {
    forall i, j :: 0 <= i < j < |series| ==> series[i].date < series[j].date
  }

  function Dates(series: seq<DayRevenue>): set<int>
  {
    set i | 0 <= i < |series| :: series[i].date
  }

  /** The revenue a series records for a date (0 when the date is absent). */
  function DayValue(series: seq<DayRevenue>, d: int): int
  {
    if series == [] then 0
    else (if series[0].date == d then series[0].revenueCents else 0) + DayValue(series[1..], d)
  }

  /** The sum of all values of a series. */
  function SeriesTotal(series: seq<DayRevenue>): int
  {
    if series == [] then 0 else series[0].revenueCents + SeriesTotal(series[1..])
  }

  /** The signed sale-minus-refund sum of the rows whose day is `d`. */
  function DayTotal(rows: seq<Event>, day: int -> int, d: int): int
  {
    if rows == [] then 0
    else (if day(rows[0].createdAt) == d then SignedAmount(rows[0]) else 0) + DayTotal(rows[1..], day, d)
  }

  /** The dates of a series with one more entry in front. */
  lemma DatesCons(x: DayRevenue, series: seq<DayRevenue>)
    ensures Dates([x] + series) == {x.date} + Dates(series)
  {
    var r := [x] + series;
    forall y | y in Dates(r)
      ensures y in {x.date} + Dates(series)
    {
      var i :| 0 <= i < |r| && r[i].date == y;
      if i > 0 {
        assert r[i] == series[i - 1];
      }
    }
    forall y | y in Dates(series)
      ensures y in Dates(r)
    {
      var i :| 0 <= i < |series| && series[i].date == y;
      assert r[i + 1] == series[i];
    }
    assert r[0].date == x.date;
  }

  /** Adds one row's signed amount to its day's group, opening the group in order if it is new. */
  function AddToDay(series: seq<DayRevenue>, d: int, v: int): seq<DayRevenue>
  {
    if series == [] then [DayRevenue(d, v)]
    else if series[0].date == d then [DayRevenue(d, series[0].revenueCents + v)] + series[1..]
    else if d < series[0].date then [DayRevenue(d, v)] + series
    else [series[0]] + AddToDay(series[1..], d, v)
  }

  /** Adding to a day opens that day's group if needed and no other. */
  lemma {:induction false} AddToDayDates(series: seq<DayRevenue>, d: int, v: int)
    ensures Dates(AddToDay(series, d, v)) == Dates(series) + {d}
  {
    if series == [] {
      DatesCons(DayRevenue(d, v), []);
      assert [DayRevenue(d, v)] + [] == [DayRevenue(d, v)];
    } else if series[0].date == d {
      DatesCons(series[0], series[1..]);
      DatesCons(DayRevenue(d, series[0].revenueCents + v), series[1..]);
      assert [series[0]] + series[1..] == series;
    } else if d < series[0].date {
      DatesCons(DayRevenue(d, v), series);
    } else {
      AddToDayDates(series[1..], d, v);
      DatesCons(series[0], series[1..]);
      DatesCons(series[0], AddToDay(series[1..], d, v));
      assert [series[0]] + series[1..] == series;
    }
  }

  /** An entry dated before every date of an ascending series can go in front of it. */
  lemma AscendingCons(x: DayRevenue, rest: seq<DayRevenue>)
    requires StrictlyAscending(rest)
    requires forall y :: y in Dates(rest) ==> x.date < y
    ensures StrictlyAscending([x] + rest)
  {
    var r := [x] + rest;
    forall i, j | 0 <= i < j < |r|
      ensures r[i].date < r[j].date
    {
      assert r[j] == rest[j - 1];
      if i == 0 {
        assert rest[j - 1].date in Dates(rest);
      } else {
        assert r[i] == rest[i - 1];
      }
    }
  }

  /** Adding to a day keeps the dates strictly ascending. */
  lemma {:induction false} AddToDayAscending(series: seq<DayRevenue>, d: int, v: int)
    requires StrictlyAscending(series)
    ensures StrictlyAscending(AddToDay(series, d, v))
  {
    if series == [] {
    } else if series[0].date == d {
      var tail := series[1..];
      assert StrictlyAscending(tail);
      forall y | y in Dates(tail)
        ensures d < y
      {
        var k :| 0 <= k < |tail| && tail[k].date == y;
        assert tail[k] == series[k + 1];
      }
      AscendingCons(DayRevenue(d, series[0].revenueCents + v), tail);
    } else if d < series[0].date {
      forall y | y in Dates(series)
        ensures d < y
      {
        var k :| 0 <= k < |series| && series[k].date == y;
        assert series[0].date <= series[k].date;
      }
      AscendingCons(DayRevenue(d, v), series);
    } else {
      var tail := series[1..];
      assert StrictlyAscending(tail);
      AddToDayAscending(tail, d, v);
      AddToDayDates(tail, d, v);
      forall y | y in Dates(AddToDay(tail, d, v))
        ensures series[0].date < y
      {
        if y != d {
          var k :| 0 <= k < |tail| && tail[k].date == y;
          assert tail[k] == series[k + 1];
        }
      }
      AscendingCons(series[0], AddToDay(tail, d, v));
    }
  }

  /** Adding `v` to day `d` raises that day's value by `v` and leaves every other day's alone. */
  lemma {:induction false} AddToDayValue(series: seq<DayRevenue>, d: int, v: int, x: int)
    ensures DayValue(AddToDay(series, d, v), x) == DayValue(series, x) + (if x == d then v else 0)
  {
    if series != [] && series[0].date != d && d > series[0].date {
      AddToDayValue(series[1..], d, v, x);
      assert ([series[0]] + AddToDay(series[1..], d, v))[1..] == AddToDay(series[1..], d, v);
    } else if series != [] && series[0].date == d {
      assert ([DayRevenue(d, series[0].revenueCents + v)] + series[1..])[1..] == series[1..];
    } else if series != [] {
      assert ([DayRevenue(d, v)] + series)[1..] == series;
    }
  }

  /** Adding `v` to any day raises the series total by `v`. */
  lemma {:induction false} AddToDayTotal(series: seq<DayRevenue>, d: int, v: int)
    ensures SeriesTotal(AddToDay(series, d, v)) == SeriesTotal(series) + v
  {
    if series != [] && series[0].date != d && d > series[0].date {
      AddToDayTotal(series[1..], d, v);
      assert ([series[0]] + AddToDay(series[1..], d, v))[1..] == AddToDay(series[1..], d, v);
    } else if series != [] && series[0].date == d {
      assert ([DayRevenue(d, series[0].revenueCents + v)] + series[1..])[1..] == series[1..];
    } else if series != [] {
      assert ([DayRevenue(d, v)] + series)[1..] == series;
    }
  }

  /** `GROUP BY DATE(created_at)` with the signed `SUM(CASE …)` per group. */
  function GroupByDay(rows: seq<Event>, day: int -> int): seq<DayRevenue>
  {
    if rows == [] then []
    else AddToDay(GroupByDay(rows[1..], day), day(rows[0].createdAt), SignedAmount(rows[0]))
  }

  /** Grouping yields strictly ascending dates. */
  lemma {:induction false} GroupByDayAscending(rows: seq<Event>, day: int -> int)
    ensures StrictlyAscending(GroupByDay(rows, day))
  {
    if rows != [] {
      GroupByDayAscending(rows[1..], day);
      AddToDayAscending(GroupByDay(rows[1..], day), day(rows[0].createdAt), SignedAmount(rows[0]));
    }
  }

  /** Every day of the rows has a group, and no other date does. */
  lemma {:induction false} GroupByDayDates(rows: seq<Event>, day: int -> int)
    ensures Dates(GroupByDay(rows, day)) == Days(rows, day)
  {
    if rows != [] {
      GroupByDayDates(rows[1..], day);
      AddToDayDates(GroupByDay(rows[1..], day), day(rows[0].createdAt), SignedAmount(rows[0]));
      assert Days(rows, day) == {day(rows[0].createdAt)} + Days(rows[1..], day) by {
        assert forall e :: e in rows <==> e == rows[0] || e in rows[1..];
      }
    }
  }

  /** The recorded value for any date is that date's signed total. */
  lemma {:induction false} GroupByDayValue(rows: seq<Event>, day: int -> int, d: int)
    ensures DayValue(GroupByDay(rows, day), d) == DayTotal(rows, day, d)
  {
    if rows != [] {
      GroupByDayValue(rows[1..], day, d);
      AddToDayValue(GroupByDay(rows[1..], day), day(rows[0].createdAt), SignedAmount(rows[0]), d);
    }
  }

  /** A date a series does not hold records nothing. */
  lemma {:induction false} DayValueAbsent(series: seq<DayRevenue>, d: int)
    requires d !in Dates(series)
    ensures DayValue(series, d) == 0
  {
    if series != [] {
      assert series[0].date in Dates(series);
      assert Dates(series[1..]) <= Dates(series) by {
        assert forall i :: 0 <= i < |series[1..]| ==> series[1..][i] == series[i + 1];
      }
      DayValueAbsent(series[1..], d);
    }
  }

  /** In an ascending series each entry's value is the series' value for its date. */
  lemma {:induction false} EntryIsDayValue(series: seq<DayRevenue>, i: nat)
    requires StrictlyAscending(series)
    requires i < |series|
    ensures series[i].revenueCents == DayValue(series, series[i].date)
  {
    var tail := series[1..];
    assert StrictlyAscending(tail) by {
      assert forall k :: 0 <= k < |tail| ==> tail[k] == series[k + 1];
    }
    if i == 0 {
      assert forall k :: 0 <= k < |tail| ==> tail[k].date > series[0].date by {
        assert forall k :: 0 <= k < |tail| ==> tail[k] == series[k + 1];
      }
      DayValueAbsent(tail, series[0].date);
    } else {
      EntryIsDayValue(tail, i - 1);
      assert tail[i - 1] == series[i];
    }
  }

  /** Grouping redistributes the signed total without losing or adding a cent. */
  lemma {:induction false} GroupByDayTotal(rows: seq<Event>, day: int -> int)
    ensures SeriesTotal(GroupByDay(rows, day)) == SignedTotal(rows)
  {
    if rows != [] {
      GroupByDayTotal(rows[1..], day);
      AddToDayTotal(GroupByDay(rows[1..], day), day(rows[0].createdAt), SignedAmount(rows[0]));
    }
  }

  /** The daily series of a window of rows: ascending, one entry per day, each entry its day's total. */
  lemma GroupByDayCorrect(rows: seq<Event>, day: int -> int)
    ensures StrictlyAscending(GroupByDay(rows, day))
    ensures Dates(GroupByDay(rows, day)) == Days(rows, day)
    ensures forall i :: 0 <= i < |GroupByDay(rows, day)| ==>
              GroupByDay(rows, day)[i].revenueCents == DayTotal(rows, day, GroupByDay(rows, day)[i].date)
    ensures SeriesTotal(GroupByDay(rows, day)) == SignedTotal(rows)
  {
    var r := GroupByDay(rows, day);
    GroupByDayAscending(rows, day);
    GroupByDayDates(rows, day);
    GroupByDayTotal(rows, day);
    forall i | 0 <= i < |r|
      ensures r[i].revenueCents == DayTotal(rows, day, r[i].date)
    {
      EntryIsDayValue(r, i);
      GroupByDayValue(rows, day, r[i].date);
    }
  }
}
