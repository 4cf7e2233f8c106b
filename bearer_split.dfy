/**
 * The split-based bearer gate (api/src/middleware/requireAuth.js): the
 * `Authorization` header is split on single spaces, the first piece must be
 * exactly `Bearer` and the second piece must be non-empty; the token is then
 * verified and the whole payload becomes `req.user`.
 */
module BearerSplit {
  import opened Wrappers
  import opened Tokens

  const Scheme: string := "Bearer"

  const MissingHeaderError: string := "Missing Authorization header"
  const FormatError: string := "Invalid Authorization format"
  const TokenError: string := "Invalid or expired token"

  /** JavaScript's `s.split(" ")`: the maximal space-free runs between single spaces. */
  function SplitOnSpace(s: string): (pieces: seq<string>)
    ensures |pieces| >= 1
    ensures forall i :: 0 <= i < |pieces| ==> ' ' !in pieces[i]
  {
    if s == [] then [""]
    else
      var rest := SplitOnSpace(s[1..]);
      if s[0] == ' ' then [""] + rest
      else [[s[0]] + rest[0]] + rest[1..]
  }

  /** JavaScript's `pieces.join(" ")`. */
  function JoinWithSpace(pieces: seq<string>): string
    requires |pieces| >= 1
  {
    if |pieces| == 1 then pieces[0] else pieces[0] + " " + JoinWithSpace(pieces[1..])
  }

  /** Splitting loses nothing: joining the pieces back gives the header. */
  lemma {:induction false} JoinSplit(s: string)
    ensures JoinWithSpace(SplitOnSpace(s)) == s
  {
    if s != [] {
      JoinSplit(s[1..]);
      var rest := SplitOnSpace(s[1..]);
      if s[0] == ' ' {
        assert SplitOnSpace(s) == [""] + rest;
        assert ([""] + rest)[1..] == rest;
      } else {
        var pieces := SplitOnSpace(s);
        assert pieces == [[s[0]] + rest[0]] + rest[1..];
        if |rest| > 1 {
          assert pieces[1..] == rest[1..];
        }
      }
    }
  }

  /** Joining space-free pieces and splitting again gives the same pieces. */
  lemma {:induction false} SplitJoin(pieces: seq<string>)
    requires |pieces| >= 1
    requires forall i :: 0 <= i < |pieces| ==> ' ' !in pieces[i]
    ensures SplitOnSpace(JoinWithSpace(pieces)) == pieces
  {
    if |pieces| == 1 {
      SplitSpaceFree(pieces[0]);
    } else {
      SplitJoin(pieces[1..]);
      SplitAfterWord(pieces[0], JoinWithSpace(pieces[1..]));
      assert [pieces[0]] + pieces[1..] == pieces;
    }
  }

  /** A space-free string is a single piece. */
  lemma {:induction false} SplitSpaceFree(w: string)
    requires ' ' !in w
    ensures SplitOnSpace(w) == [w]
  {
    if w != [] {
      SplitSpaceFree(w[1..]);
      assert [w[0]] + w[1..] == w;
    }
  }

  /** A space-free word followed by a space is the first piece of the split. */
  lemma {:induction false} SplitAfterWord(w: string, rest: string)
    requires ' ' !in w
    ensures SplitOnSpace(w + " " + rest) == [w] + SplitOnSpace(rest)
  {
    if w == [] {
      assert w + " " + rest == [' '] + rest;
      assert (w + " " + rest)[1..] == rest;
    } else {
      SplitAfterWord(w[1..], rest);
      assert (w + " " + rest)[1..] == w[1..] + " " + rest;
      assert [w[0]] + w[1..] == w;
    }
  }

  /** Where the header check ends: no header, a malformed header, or a token to verify. */
  datatype HeaderCheck = MissingHeader | BadFormat | BearerToken(token: string)

  /**
   * `const [scheme, token] = authHeader.split(" ")` and the two guards before
   * verification; a header that is absent or empty is falsy. Pieces after the
   * second are ignored, and an absent second piece is as falsy as an empty one.
   */
  function CheckHeader(header: Option<string>): HeaderCheck
  {
    if header.None? || header.value == "" then MissingHeader
    else
      var pieces := SplitOnSpace(header.value);
      var scheme := pieces[0];
      var token := if |pieces| >= 2 then pieces[1] else "";
      if scheme != Scheme || token == "" then BadFormat else BearerToken(token)
  }

  /**
   * The header check accepts exactly the headers `Bearer <token>` followed by
   * nothing or by a space: the token is non-empty and holds no space.
   */
  lemma AcceptedShape(h: string, t: string)
    requires CheckHeader(Some(h)) == BearerToken(t)
    ensures t != "" && ' ' !in t
    ensures |h| >= 7 + |t| && h[..7] == "Bearer " && h[7..7 + |t|] == t
    ensures |h| == 7 + |t| || h[7 + |t|] == ' '
  {
    var pieces := SplitOnSpace(h);
    JoinSplit(h);
    assert |pieces| >= 2 && pieces[0] == Scheme && pieces[1] == t;
    assert h == "Bearer" + " " + JoinWithSpace(pieces[1..]);
    var tail := pieces[1..];
    if |tail| == 1 {
      assert h == "Bearer " + t;
    } else {
      assert JoinWithSpace(tail) == t + " " + JoinWithSpace(tail[1..]);
      assert h == "Bearer " + t + " " + JoinWithSpace(tail[1..]);
    }
  }

  /** Conversely, `Bearer <token>` followed by nothing or a space yields that token. */
  lemma AcceptsShape(t: string, rest: string)
    requires t != "" && ' ' !in t
    requires rest == "" || rest[0] == ' '
    ensures CheckHeader(Some("Bearer " + t + rest)) == BearerToken(t)
  {
    var h := "Bearer " + t + rest;
    assert h == "Bearer" + " " + (t + rest);
    SplitAfterWord("Bearer", t + rest);
    if rest == "" {
      assert t + rest == t;
      SplitSpaceFree(t);
    } else {
      assert t + rest == t + " " + rest[1..];
      SplitAfterWord(t, rest[1..]);
    }
  }

  /** The scheme is case-sensitive and must be followed by one space and a non-space. */
  lemma RejectsOtherShapes(h: string)
    requires h != ""
    requires !(|h| > 7 && h[..7] == "Bearer " && h[7] != ' ')
    ensures CheckHeader(Some(h)) == BadFormat
  {
    if CheckHeader(Some(h)).BearerToken? {
      AcceptedShape(h, CheckHeader(Some(h)).token);
      assert false;
    }
  }

  /**
   * requireAuth: 401 for a missing header, 401 for a malformed one, and
   * otherwise the verification decides; on success `req.user` is the whole
   * payload and `next()` is called. Every call ends in exactly one of the two.
   */
  function RequireAuth(header: Option<string>, verify: Verifier): (r: GateOutcome<Payload>)
    ensures r.Reject? ==> r.status == Unauthorized
    ensures (header.None? || header == Some("")) <==> r == Reject(Unauthorized, MissingHeaderError)
    ensures CheckHeader(header).BadFormat? <==> r == Reject(Unauthorized, FormatError)
    ensures r.Next? <==> CheckHeader(header).BearerToken? && verify(CheckHeader(header).token).Some?
    ensures r.Next? ==> r.user == verify(CheckHeader(header).token).value
    ensures CheckHeader(header).BearerToken? && verify(CheckHeader(header).token).None? ==>
              r == Reject(Unauthorized, TokenError)
  {
    match CheckHeader(header)
    case MissingHeader => Reject(Unauthorized, MissingHeaderError)
    case BadFormat => Reject(Unauthorized, FormatError)
    case BearerToken(token) =>
      match verify(token)
      case None => Reject(Unauthorized, TokenError)
      case Some(payload) => Next(payload)
  }

  /** `Bearer a b` verifies the token `a`: later pieces are ignored. */
  lemma ExtraPiecesIgnored(t: string, more: string)
    requires t != "" && ' ' !in t
    ensures CheckHeader(Some("Bearer " + t + " " + more)) == BearerToken(t)
  {
    AcceptsShape(t, " " + more);
    assert "Bearer " + t + (" " + more) == "Bearer " + t + " " + more;
  }

  /** `Bearer  x` (two spaces) has an empty second piece and is rejected as malformed. */
  lemma DoubleSpaceRejected(more: string, verify: Verifier)
    ensures RequireAuth(Some("Bearer  " + more), verify) == Reject(Unauthorized, FormatError)
  {
    RejectsOtherShapes("Bearer  " + more);
  }
}
