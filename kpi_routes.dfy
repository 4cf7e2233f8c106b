/**
 * The three KPI handlers of api/src/routes/kpis.js as functions of the caller
 * (`req.user`) and the event log. A store that cannot answer (`pool.query`
 * throws) is `None` and yields the handler's 500 reply.
 */
module KpiRoutes {
  import opened Wrappers
  import opened Tokens
  import opened Events
  import opened DailySeries
  import opened TopTypes

  const ServerErrorStatus: nat := 500
  const SummaryError: string := "Failed to compute KPIs"
  const DailyError: string := "Failed to compute daily KPIs"
  const TopError: string := "Failed to compute top KPIs"

  /** A handler's reply: a JSON body, or a 500 with a fixed message. */
  datatype Reply<+T> = Ok(body: T) | ServerError(status: nat, error: string)

  /** The `/summary` body: an admin's carries `active_users`, a user's `active_days`, never both. */
  datatype SummaryBody =
    | AdminSummary(eventCount: nat, revenueCents: int, activeUsers: nat)
    | UserSummary(eventCount: nat, revenueCents: int, activeDays: nat)

  /**
   * GET /kpis/summary: the scoped row count and sales-minus-refunds, plus the
   * distinct users of the whole log (admin) or the distinct days of the
   * caller's own events (anyone else).
   */
  function Summary(user: Payload, store: Option<seq<Event>>, day: int -> int): (r: Reply<SummaryBody>)
    ensures r.ServerError? <==> store.None?
    ensures r.ServerError? ==> r.status == ServerErrorStatus && r.error == SummaryError
    ensures r.Ok? ==> (r.body.AdminSummary? <==> user.role == AdminRole)
    ensures r.Ok? ==> r.body.eventCount == |ScopedRows(BuildScope(user), store.value)|
    ensures r.Ok? ==> r.body.revenueCents == SignedTotal(ScopedRows(BuildScope(user), store.value))
    ensures r.Ok? && r.body.AdminSummary? ==>
              r.body.activeUsers == |UserIds(store.value)| &&
              r.body.activeUsers <= r.body.eventCount &&
              (r.body.activeUsers == 0 <==> r.body.eventCount == 0)
    ensures r.Ok? && r.body.UserSummary? ==>
              r.body.activeDays == |Days(ScopedRows(OwnRows(user.id), store.value), day)| &&
              r.body.activeDays <= r.body.eventCount &&
              (r.body.activeDays == 0 <==> r.body.eventCount == 0)
  {
    match store
    case None => ServerError(ServerErrorStatus, SummaryError)
    case Some(events) =>
      var scope := BuildScope(user);
      var rows := ScopedRows(scope, events);
      var eventCount := |rows|;
      SignedTotalIsSalesMinusRefunds(rows);
      var revenueCents := AmountOfKind(rows, Sale) - AmountOfKind(rows, Refund);
      if scope.AllRows? then
        AdminSeesAll(events);
        UserIdsBound(events);
        Ok(AdminSummary(eventCount, revenueCents, |UserIds(events)|))
      else
        var own := ScopedRows(OwnRows(user.id), events);
        DaysBound(own, day);
        Ok(UserSummary(eventCount, revenueCents, |Days(own, day)|))
  }

  /** The rows of every user but `id`. */
  function OtherRows(id: int, events: seq<Event>): (rows: seq<Event>)
    ensures |rows| <= |events|
  {
    if events == [] then []
    else (if events[0].userId != id then [events[0]] else []) + OtherRows(id, events[1..])
  }

  /** The log splits into one user's rows and everyone else's: counts add up. */
  lemma {:induction false} SplitCount(id: int, events: seq<Event>)
    ensures |events| == |ScopedRows(OwnRows(id), events)| + |OtherRows(id, events)|
  {
    if events != [] {
      SplitCount(id, events[1..]);
    }
  }

  /** The log splits into one user's rows and everyone else's: revenues add up. */
  lemma {:induction false} SplitRevenue(id: int, events: seq<Event>)
    ensures SignedTotal(events) == SignedTotal(ScopedRows(OwnRows(id), events)) + SignedTotal(OtherRows(id, events))
  {
    if events != [] {
      SplitRevenue(id, events[1..]);
      var x := events[0];
      var own := ScopedRows(OwnRows(id), events[1..]);
      var others := OtherRows(id, events[1..]);
      if x.userId != id {
        assert ScopedRows(OwnRows(id), events) == own;
        assert OtherRows(id, events) == [x] + others;
        assert ([x] + others)[1..] == others;
      } else {
        assert OtherRows(id, events) == others;
        assert ScopedRows(OwnRows(id), events) == [x] + own;
        assert ([x] + own)[1..] == own;
      }
    }
  }

  /** Everyone else's rows belong to the log's users other than `id`. */
  lemma {:induction false} OtherRowsUsers(id: int, events: seq<Event>)
    ensures forall e :: e in OtherRows(id, events) ==> e in events && e.userId != id
  {
    if events != [] {
      OtherRowsUsers(id, events[1..]);
    }
  }

  /** Removing someone else's rows does not change what a user sees. */
  lemma {:induction false} OwnRowsOfOthers(id: int, other: int, events: seq<Event>)
    requires id != other
    ensures ScopedRows(OwnRows(id), OtherRows(other, events)) == ScopedRows(OwnRows(id), events)
  {
    if events != [] {
      OwnRowsOfOthers(id, other, events[1..]);
      var tail := OtherRows(other, events[1..]);
      if events[0].userId != other {
        assert OtherRows(other, events) == [events[0]] + tail;
        assert ([events[0]] + tail)[0] == events[0] && ([events[0]] + tail)[1..] == tail;
      } else {
        assert OtherRows(other, events) == tail;
        assert ScopedRows(OwnRows(id), events) == ScopedRows(OwnRows(id), events[1..]);
      }
    }
  }

  /** The row count a user with each id would see, summed over a list of ids. */
  function CountByUser(ids: seq<int>, events: seq<Event>): nat
  {
    if ids == [] then 0 else |ScopedRows(OwnRows(ids[0]), events)| + CountByUser(ids[1..], events)
  }

  /** The revenue a user with each id would see, summed over a list of ids. */
  function RevenueByUser(ids: seq<int>, events: seq<Event>): int
  {
    if ids == [] then 0 else SignedTotal(ScopedRows(OwnRows(ids[0]), events)) + RevenueByUser(ids[1..], events)
  }

  lemma {:induction false} ByUserOfOthers(ids: seq<int>, other: int, events: seq<Event>)
    requires other !in ids
    ensures CountByUser(ids, OtherRows(other, events)) == CountByUser(ids, events)
    ensures RevenueByUser(ids, OtherRows(other, events)) == RevenueByUser(ids, events)
  {
    if ids != [] {
      OwnRowsOfOthers(ids[0], other, events);
      ByUserOfOthers(ids[1..], other, events);
    }
  }

  /**
   * Event count and revenue are additive across users: over a list naming
   * every user of the log once, the per-user figures add up to the log's.
   */
  lemma {:induction false} TotalsAreSumsOverUsers(ids: seq<int>, events: seq<Event>)
    requires forall i, j :: 0 <= i < j < |ids| ==> ids[i] != ids[j]
    requires forall e :: e in events ==> e.userId in ids
    ensures |events| == CountByUser(ids, events)
    ensures SignedTotal(events) == RevenueByUser(ids, events)
  {
    if ids == [] {
      if events != [] {
        assert false;
      }
    } else {
      var others := OtherRows(ids[0], events);
      SplitCount(ids[0], events);
      SplitRevenue(ids[0], events);
      OtherRowsUsers(ids[0], events);
      assert forall e :: e in others ==> e.userId in ids[1..] by {
        assert forall x :: x in ids <==> x == ids[0] || x in ids[1..];
      }
      assert ids[0] !in ids[1..];
      TotalsAreSumsOverUsers(ids[1..], others);
      ByUserOfOthers(ids[1..], ids[0], events);
    }
  }

  /** An admin's summary adds up the summaries of the individual users. */
  lemma AdminSummaryIsSumOverUsers(admin: Payload, ids: seq<int>, events: seq<Event>, day: int -> int)
    requires admin.role == AdminRole
    requires forall i, j :: 0 <= i < j < |ids| ==> ids[i] != ids[j]
    requires forall e :: e in events ==> e.userId in ids
    ensures Summary(admin, Some(events), day).body.eventCount == CountByUser(ids, events)
    ensures Summary(admin, Some(events), day).body.revenueCents == RevenueByUser(ids, events)
  {
    AdminSeesAll(events);
    TotalsAreSumsOverUsers(ids, events);
  }

  /** The rows `/daily` groups: the scoped rows of the last 14 days. */
  function DailyRows(user: Payload, events: seq<Event>, now: int): seq<Event>
  {
    InWindow(ScopedRows(BuildScope(user), events), now)
  }

  /**
   * GET /kpis/daily: one entry per day that has scoped rows in the last 14
   * days, dates strictly ascending, each entry that day's signed
   * sale-minus-refund sum; all entries together add up to the window's
   * sales minus refunds.
   */
  function Daily(user: Payload, store: Option<seq<Event>>, now: int, day: int -> int): (r: Reply<seq<DayRevenue>>)
    ensures r.ServerError? <==> store.None?
    ensures r.ServerError? ==> r.status == ServerErrorStatus && r.error == DailyError
    ensures r.Ok? ==> StrictlyAscending(r.body)
    ensures r.Ok? ==> Dates(r.body) == Days(DailyRows(user, store.value, now), day)
    ensures r.Ok? ==> forall i :: 0 <= i < |r.body| ==>
              r.body[i].revenueCents == DayTotal(DailyRows(user, store.value, now), day, r.body[i].date)
    ensures r.Ok? ==>
              var w := DailyRows(user, store.value, now);
              SeriesTotal(r.body) == AmountOfKind(w, Sale) - AmountOfKind(w, Refund)
  {
    match store
    case None => ServerError(ServerErrorStatus, DailyError)
    case Some(events) =>
      var w := DailyRows(user, events, now);
      GroupByDayCorrect(w, day);
      SignedTotalIsSalesMinusRefunds(w);
      Ok(GroupByDay(w, day))
  }

  /**
   * With a calendar that never runs backwards and no event stamped after
   * `now`, every date `/daily` returns lies between the day 14 days ago and
   * today.
   */
  lemma DailyDatesInWindow(user: Payload, events: seq<Event>, now: int, day: int -> int)
    requires forall a, b :: a <= b ==> day(a) <= day(b)
    requires forall e :: e in events ==> e.createdAt <= now
    ensures forall d :: d in Dates(Daily(user, Some(events), now, day).body) ==>
              day(now - FourteenDays) <= d <= day(now)
  {
    var scoped := ScopedRows(BuildScope(user), events);
    var w := DailyRows(user, events, now);
    ScopedRowsMembers(BuildScope(user), events);
    InWindowMembers(scoped, now);
    forall d | d in Days(w, day)
      ensures day(now - FourteenDays) <= d <= day(now)
    {
      var e :| e in w && day(e.createdAt) == d;
      assert now - FourteenDays <= e.createdAt <= now;
    }
  }

  /** The daily series adds up to the same window's revenue as a summary would compute it. */
  lemma DailyMatchesWindowRevenue(user: Payload, events: seq<Event>, now: int, day: int -> int)
    ensures SeriesTotal(Daily(user, Some(events), now, day).body) == SignedTotal(DailyRows(user, events, now))
  {
    GroupByDayCorrect(DailyRows(user, events, now), day);
  }

  /**
   * GET /kpis/top: up to five kinds of scoped rows with their counts, ordered
   * by count descending, no left-out kind outnumbering the last one listed.
   */
  function Top(user: Payload, store: Option<seq<Event>>): (r: Reply<seq<TypeCount>>)
    ensures r.ServerError? <==> store.None?
    ensures r.ServerError? ==> r.status == ServerErrorStatus && r.error == TopError
    ensures r.Ok? ==> |r.body| <= Limit && IsTopFive(ScopedRows(BuildScope(user), store.value), r.body)
  {
    match store
    case None => ServerError(ServerErrorStatus, TopError)
    case Some(events) =>
      var rows := ScopedRows(BuildScope(user), events);
      TopFiveCorrect(rows);
      Ok(TopFive(rows))
  }

  /** The worked example: user 1 sees 2 events and 400 cents; an admin sees 3 events, 700 cents, 2 users. */
  lemma SummaryExample(day: int -> int)
    ensures var events := [Event(1, Sale, 500, 0), Event(1, Refund, 100, 0), Event(2, Sale, 300, 0)];
            var user1 := Payload(1, "u1@example.com", "user", 0, 0);
            var admin := Payload(9, "admin@example.com", AdminRole, 0, 0);
            && Summary(user1, Some(events), day).body.eventCount == 2
            && Summary(user1, Some(events), day).body.revenueCents == 400
            && Summary(admin, Some(events), day) == Ok(AdminSummary(3, 700, 2))
  {
    var e0, e1, e2 := Event(1, Sale, 500, 0), Event(1, Refund, 100, 0), Event(2, Sale, 300, 0);
    var events := [e0, e1, e2];
    assert events[1..] == [e1, e2] && [e1, e2][1..] == [e2] && [e2][1..] == [];
    assert ScopedRows(OwnRows(1), [e2]) == [];
    assert ScopedRows(OwnRows(1), [e1, e2]) == [e1];
    assert ScopedRows(OwnRows(1), events) == [e0, e1];
    assert [e0, e1][1..] == [e1] && [e1][1..] == [];
    assert Sale != Refund;
    assert SignedAmount(e0) == 500 && SignedAmount(e1) == -100 && SignedAmount(e2) == 300;
    assert SignedTotal([e2]) == 300;
    assert SignedTotal([e1]) == -100;
    assert SignedTotal([e1, e2]) == 200;
    assert SignedTotal([e0, e1]) == 400;
    AdminSeesAll(events);
    assert SignedTotal(events) == 700;
    assert UserIds(events) == {1, 2} by {
      assert events[0] in events && events[2] in events;
    }
  }
}
