/**
 * A `/kpis/...` request passes two gates in a row: the prefix gate mounted on
 * the path prefix (api/src/index.js:34) and then the split gate each KPI
 * route adds (api/src/routes/kpis.js:56, 118, 162). The handler runs only if
 * both call `next()`; the second gate overwrites `req.user` with the whole
 * payload of the token it verified, so that is the caller the handler scopes
 * by.
 */
module KpiPipeline {
  import opened Wrappers
  import opened Tokens
  import opened Events
  import BearerSplit
  import BearerPrefix
  import opened KpiRoutes

  datatype Route = SummaryRoute | DailyRoute | TopRoute

  /** What a KPI request gets back: a gate's 401, or the handler's reply. */
  datatype Response =
    | GateRejected(status: nat, error: string)
    | SummaryReply(summary: Reply<SummaryBody>)
    | DailyReply(daily: Reply<seq<DailySeries.DayRevenue>>)
    | TopReply(top: Reply<seq<TopTypes.TypeCount>>)

  /** The handler a route reaches, for a caller the gates let through. */
  function Handle(route: Route, user: Payload, store: Option<seq<Event>>, now: int, day: int -> int): Response
  {
    match route
    case SummaryRoute => SummaryReply(Summary(user, store, day))
    case DailyRoute => DailyReply(Daily(user, store, now, day))
    case TopRoute => TopReply(Top(user, store))
  }

  /**
   * Prefix gate, then split gate, then the route's handler: a rejected
   * request gets the 401 and message of the first gate that rejects it.
   */
  function Request(header: Option<string>, verify: Verifier, route: Route,
                   store: Option<seq<Event>>, now: int, day: int -> int): (r: Response)
    ensures !r.GateRejected? <==>
              BearerPrefix.RequireAuth(header, verify).Next? && BearerSplit.RequireAuth(header, verify).Next?
    ensures r.GateRejected? ==> r.status == Unauthorized
    ensures BearerPrefix.RequireAuth(header, verify).Reject? ==>
              r == GateRejected(BearerPrefix.RequireAuth(header, verify).status, BearerPrefix.RequireAuth(header, verify).error)
    ensures BearerPrefix.RequireAuth(header, verify).Next? && BearerSplit.RequireAuth(header, verify).Reject? ==>
              r == GateRejected(BearerSplit.RequireAuth(header, verify).status, BearerSplit.RequireAuth(header, verify).error)
    ensures !r.GateRejected? ==>
              r == Handle(route, BearerSplit.RequireAuth(header, verify).user, store, now, day)
  {
    match BearerPrefix.RequireAuth(header, verify)
    case Reject(status, error) => GateRejected(status, error)
    case Next(_) =>
      match BearerSplit.RequireAuth(header, verify)
      case Reject(status, error) => GateRejected(status, error)
      case Next(user) => Handle(route, user, store, now, day)
  }

  /**
   * A header both gates accept starts with `Bearer ` followed by a non-space,
   * and both tokens verify; the prefix gate's token is the split gate's token
   * followed by whatever came after it.
   */
  lemma BothGatesAccept(h: string, verify: Verifier)
    requires BearerPrefix.RequireAuth(Some(h), verify).Next?
    requires BearerSplit.RequireAuth(Some(h), verify).Next?
    ensures |h| > 7 && h[..7] == "Bearer " && h[7] != ' '
    ensures var t := BearerSplit.CheckHeader(Some(h)).token;
            && |h| >= 7 + |t|
            && h[7..][..|t|] == t
            && verify(t).Some?
            && verify(h[7..]).Some?
  {
    var t := BearerSplit.CheckHeader(Some(h)).token;
    BearerSplit.AcceptedShape(h, t);
    assert h[7..][..|t|] == h[7..7 + |t|];
  }

  /** When nothing follows the token, both gates verify the same token and agree on the identity. */
  lemma GatesAgreeOnSingleToken(t: string, verify: Verifier)
    requires t != "" && ' ' !in t
    ensures var h := Some("Bearer " + t);
            && (BearerPrefix.RequireAuth(h, verify).Next? <==> verify(t).Some?)
            && (BearerSplit.RequireAuth(h, verify).Next? <==> verify(t).Some?)
            && (verify(t).Some? ==>
                  BearerPrefix.RequireAuth(h, verify).user == ProjectIdentity(BearerSplit.RequireAuth(h, verify).user))
  {
    BearerSplit.AcceptsShape(t, "");
    assert "Bearer " + t + "" == "Bearer " + t;
    BearerPrefix.ExtractPrefixed(t);
  }

  /**
   * The gates differ on `Bearer a b`: the prefix gate verifies `a b`, the
   * split gate verifies `a`, and the request gets through only if both do.
   */
  lemma GatesDivergeOnExtraPieces(a: string, b: string, verify: Verifier)
    requires a != "" && ' ' !in a
    ensures var h := Some("Bearer " + a + " " + b);
            && BearerSplit.CheckHeader(h) == BearerSplit.BearerToken(a)
            && BearerPrefix.ExtractToken(h.value) == Some(a + " " + b)
            && (BearerPrefix.RequireAuth(h, verify).Next? <==> verify(a + " " + b).Some?)
            && (BearerSplit.RequireAuth(h, verify).Next? <==> verify(a).Some?)
  {
    BearerSplit.ExtraPiecesIgnored(a, b);
    assert "Bearer " + a + " " + b == "Bearer " + (a + " " + b);
    BearerPrefix.ExtractPrefixed(a + " " + b);
  }

  /**
   * A request whose header is `Bearer <token>` (a single token) reaches the
   * handler exactly when the token verifies, and the handler scopes by the
   * token's payload.
   */
  lemma SingleTokenRequest(t: string, verify: Verifier, route: Route,
                           store: Option<seq<Event>>, now: int, day: int -> int)
    requires t != "" && ' ' !in t
    ensures var r := Request(Some("Bearer " + t), verify, route, store, now, day);
            && (!r.GateRejected? <==> verify(t).Some?)
            && (verify(t).Some? ==> r == Handle(route, verify(t).value, store, now, day))
  {
    GatesAgreeOnSingleToken(t, verify);
    BearerSplit.AcceptsShape(t, "");
    assert "Bearer " + t + "" == "Bearer " + t;
  }

  /** A missing header is answered by the first gate, with its message. */
  lemma MissingHeaderRequest(verify: Verifier, route: Route, store: Option<seq<Event>>, now: int, day: int -> int)
    ensures Request(None, verify, route, store, now, day) ==
              GateRejected(Unauthorized, BearerPrefix.MissingTokenError)
  {
  }
}
