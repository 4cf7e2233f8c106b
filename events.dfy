/**
 * The event log and role scoping shared by every KPI query
 * (api/src/routes/kpis.js). An event row is `user_id`, `type`, `amount_cents`
 * and `created_at`; here the `type` column is called `kind` and timestamps
 * are integers.
 */
module Events {
  import opened Tokens

  const Sale: string := "sale"
  const Refund: string := "refund"

  datatype Event = Event(userId: int, kind: string, amountCents: int, createdAt: int)

  /**
   * The row filter of a query: `AllRows` is the empty WHERE clause with no
   * parameters, `OwnRows(id)` is `WHERE e.user_id = $1` bound to `[id]`.
   */
  datatype Scope = AllRows | OwnRows(ownerId: int)

  /** The parameter list bound to the scope's WHERE clause. */
  function Params(s: Scope): seq<int>
  {
    match s
    case AllRows => []
    case OwnRows(id) => [id]
  }

  /** buildScope: admins are unscoped, every other role is scoped to the caller's own id. */
  function BuildScope(user: Payload): (s: Scope)
    ensures s.AllRows? <==> user.role == AdminRole
    ensures Params(s) == if user.role == AdminRole then [] else [user.id]
  {
    if user.role == AdminRole then AllRows else OwnRows(user.id)
  }

  /** Whether a row passes the scope's WHERE clause. */
  predicate Visible(s: Scope, e: Event)
  {
    match s
    case AllRows => true
    case OwnRows(id) => e.userId == id
  }

  /** The rows a scoped query reads, in log order. */
  function ScopedRows(s: Scope, events: seq<Event>): (rows: seq<Event>)
    ensures |rows| <= |events|
  {
    if events == [] then []
    else (if Visible(s, events[0]) then [events[0]] else []) + ScopedRows(s, events[1..])
  }

  /** A row is read exactly when it is in the log and passes the scope. */
  lemma {:induction false} ScopedRowsMembers(s: Scope, events: seq<Event>)
    ensures forall e :: e in ScopedRows(s, events) <==> e in events && Visible(s, e)
  {
    if events != [] {
      ScopedRowsMembers(s, events[1..]);
      assert forall e :: e in events <==> e == events[0] || e in events[1..];
    }
  }

  /** Scoping keeps the log's order: it distributes over concatenation. */
  lemma {:induction false} ScopedRowsAppend(s: Scope, a: seq<Event>, b: seq<Event>)
    ensures ScopedRows(s, a + b) == ScopedRows(s, a) + ScopedRows(s, b)
  {
    if a == [] {
      assert a + b == b;
    } else {
      var head := if Visible(s, a[0]) then [a[0]] else [];
      calc {
        ScopedRows(s, a + b);
        { assert (a + b)[0] == a[0]; }
        head + ScopedRows(s, (a + b)[1..]);
        { assert (a + b)[1..] == a[1..] + b; }
        head + ScopedRows(s, a[1..] + b);
        { ScopedRowsAppend(s, a[1..], b); }
        head + (ScopedRows(s, a[1..]) + ScopedRows(s, b));
        (head + ScopedRows(s, a[1..])) + ScopedRows(s, b);
        ScopedRows(s, a) + ScopedRows(s, b);
      }
    }
  }

  /** An admin reads the whole log, unchanged. */
  lemma {:induction false} AdminSeesAll(events: seq<Event>)
    ensures ScopedRows(AllRows, events) == events
  {
    if events != [] {
      AdminSeesAll(events[1..]);
    }
  }

  /** The rows a caller's queries read are exactly the events the caller may see. */
  lemma ScopeIsExact(user: Payload, events: seq<Event>)
    ensures user.role == AdminRole ==> ScopedRows(BuildScope(user), events) == events
    ensures forall e :: e in ScopedRows(BuildScope(user), events) <==>
                          e in events && (user.role == AdminRole || e.userId == user.id)
  {
    ScopedRowsMembers(BuildScope(user), events);
    if user.role == AdminRole {
      AdminSeesAll(events);
    }
  }

  /** `COALESCE(SUM(CASE WHEN e.type = kind THEN e.amount_cents ELSE 0 END), 0)`. */
  function AmountOfKind(rows: seq<Event>, kind: string): int
  {
    if rows == [] then 0
    else (if rows[0].kind == kind then rows[0].amountCents else 0) + AmountOfKind(rows[1..], kind)
  }

  /** One row's contribution to revenue: a sale adds its amount, a refund subtracts it, anything else adds 0. */
  function SignedAmount(e: Event): int
  {
    if e.kind == Sale then e.amountCents
    else if e.kind == Refund then -e.amountCents
    else 0
  }

  /** The sum of the signed contributions of a sequence of rows. */
  function SignedTotal(rows: seq<Event>): int
  {
    if rows == [] then 0 else SignedAmount(rows[0]) + SignedTotal(rows[1..])
  }

  /** Revenue is sales minus refunds, whichever way it is summed. */
  lemma {:induction false} SignedTotalIsSalesMinusRefunds(rows: seq<Event>)
    ensures SignedTotal(rows) == AmountOfKind(rows, Sale) - AmountOfKind(rows, Refund)
  {
    if rows != [] {
      SignedTotalIsSalesMinusRefunds(rows[1..]);
    }
  }

  /** Totals are additive over concatenated logs. */
  lemma {:induction false} SignedTotalAppend(a: seq<Event>, b: seq<Event>)
    ensures SignedTotal(a + b) == SignedTotal(a) + SignedTotal(b)
  {
    if a == [] {
      assert a + b == b;
    } else {
      SignedTotalAppend(a[1..], b);
      assert (a + b)[1..] == a[1..] + b;
    }
  }

  /** The distinct `user_id`s of a log. */
  function UserIds(events: seq<Event>): set<int>
  {
    set e | e in events :: e.userId
  }

  /** The distinct calendar days of a log, `DATE(created_at)` given as `day`. */
  function Days(events: seq<Event>, day: int -> int): set<int>
  {
    set e | e in events :: day(e.createdAt)
  }

  /** There are never more active users than events, and none only for no events. */
  lemma {:induction false} UserIdsBound(events: seq<Event>)
    ensures |UserIds(events)| <= |events|
    ensures |UserIds(events)| == 0 <==> events == []
  {
    if events != [] {
      UserIdsBound(events[1..]);
      assert UserIds(events) == {events[0].userId} + UserIds(events[1..]) by {
        assert forall e :: e in events <==> e == events[0] || e in events[1..];
      }
    }
  }

  /** There are never more active days than events, and none only for no events. */
  lemma {:induction false} DaysBound(events: seq<Event>, day: int -> int)
    ensures |Days(events, day)| <= |events|
    ensures |Days(events, day)| == 0 <==> events == []
  {
    if events != [] {
      DaysBound(events[1..], day);
      assert Days(events, day) == {day(events[0].createdAt)} + Days(events[1..], day) by {
        assert forall e :: e in events <==> e == events[0] || e in events[1..];
      }
    }
  }
}
