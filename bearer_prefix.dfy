/**
 * The prefix-based bearer gate (api/src/middleware/auth.js): an absent header
 * counts as the empty string, the token is everything after a leading
 * `Bearer `, and on success `req.user` keeps only `id`, `email` and `role`.
 */
module BearerPrefix {
  import opened Wrappers
  import opened Tokens

  const Prefix: string := "Bearer "

  const MissingTokenError: string := "Missing Bearer token"
  const TokenError: string := "Invalid/expired token"

  /** `header.startsWith("Bearer ") ? header.slice(7) : null`. */
  function ExtractToken(header: string): (t: Option<string>)
    ensures t.Some? <==> |header| >= |Prefix| && header[..|Prefix|] == Prefix
    ensures t.Some? ==> header == Prefix + t.value
  {
    if |header| >= |Prefix| && header[..|Prefix|] == Prefix then Some(header[|Prefix|..]) else None
  }

  /** Prefixing a token and extracting it again gives the token back, spaces and all. */
  lemma ExtractPrefixed(t: string)
    ensures ExtractToken(Prefix + t) == Some(t)
  {
    assert (Prefix + t)[..|Prefix|] == Prefix;
    assert (Prefix + t)[|Prefix|..] == t;
  }

  /**
   * requireAuth (prefix variant): 401 "Missing Bearer token" when there is no
   * prefix or nothing after it, 401 "Invalid/expired token" when verification
   * fails, and otherwise `next()` with the projected identity.
   */
  function RequireAuth(header: Option<string>, verify: Verifier): (r: GateOutcome<Identity>)
    ensures r.Reject? ==> r.status == Unauthorized
    ensures r == Reject(Unauthorized, MissingTokenError) <==>
              header.None? || ExtractToken(header.value) in {None, Some("")}
    ensures r.Next? <==>
              header.Some? && ExtractToken(header.value).Some? && ExtractToken(header.value).value != "" &&
              verify(ExtractToken(header.value).value).Some?
    ensures r.Next? ==>
              var p := verify(header.value[|Prefix|..]).value;
              r.user == Identity(p.id, p.email, p.role)
  {
    var h := if header.Some? then header.value else "";
    match ExtractToken(h)
    case None => Reject(Unauthorized, MissingTokenError)
    case Some(token) =>
      if token == "" then Reject(Unauthorized, MissingTokenError)
      else
        match verify(token)
        case None => Reject(Unauthorized, TokenError)
        case Some(payload) => Next(ProjectIdentity(payload))
  }

  /** An absent header and an empty one are the same missing token. */
  lemma AbsentIsEmpty(verify: Verifier)
    ensures RequireAuth(None, verify) == RequireAuth(Some(""), verify) == Reject(Unauthorized, MissingTokenError)
  {
  }

  /** A header that is exactly `Bearer ` carries an empty token and is rejected as missing. */
  lemma BarePrefixRejected(verify: Verifier)
    ensures RequireAuth(Some(Prefix), verify) == Reject(Unauthorized, MissingTokenError)
  {
    ExtractPrefixed("");
    assert Prefix + "" == Prefix;
  }

  /** Everything after the prefix is verified, spaces included. */
  lemma TokenKeepsSpaces(t: string, verify: Verifier)
    requires t != ""
    ensures RequireAuth(Some(Prefix + t), verify).Next? <==> verify(t).Some?
    ensures verify(t).None? ==> RequireAuth(Some(Prefix + t), verify) == Reject(Unauthorized, TokenError)
  {
    ExtractPrefixed(t);
  }
}
