/**
 * Token validation and room derivation: the claims a gateway token carries,
 * the expiry rule with its 60-second leeway (the `exp` claim of section 4.1.4
 * of RFC 7519), and the room a connection joins.
 */
module Auth {
  import opened Wrappers

  /** `TokenClaims`: subject, expiry (seconds since the epoch) and an optional room. */
  datatype TokenClaims = TokenClaims(sub: string, exp: nat, room: Option<string>)

  datatype AuthError = InvalidToken | ExpiredSignature

  /** `validation.leeway`, in seconds. */
  const Leeway: nat := 60

  /**
   * The part of `jsonwebtoken::decode` that is not modelled: the signature and
   * algorithm check against the secret, and the parsing of the payload into
   * claims. It gives the claims of a token that passes, and `None` otherwise.
   */
  type Verifier = (string, string) -> Option<TokenClaims>

  /**
   * The token expired more than `Leeway` seconds before `now`: the `exp` test
   * that `validate_exp` turns on, a part of `ValidateToken`.
   */
  predicate Expired(c: TokenClaims, now: nat) {
    c.exp + Leeway < now
  }

  /**
   * `validate_token`: a token whose signature or payload does not pass is
   * invalid; one that passes is accepted unless it expired beyond the leeway.
   */
  function ValidateToken(token: string, secret: string, verify: Verifier, now: nat)
    : (r: Result<TokenClaims, AuthError>)
    ensures verify(token, secret).None? ==> r == Err(InvalidToken)
    ensures r.Ok? <==> verify(token, secret).Some? && now <= verify(token, secret).value.exp + Leeway
    ensures r.Ok? ==> r.value == verify(token, secret).value
  {
    match verify(token, secret)
    case None => Err(InvalidToken)
    case Some(c) => if Expired(c, now) then Err(ExpiredSignature) else Ok(c)
  }

  /** A token accepted at some time was accepted at every earlier time. */
  lemma {:induction false} ValidEarlier(token: string, secret: string, verify: Verifier, t1: nat, t2: nat)
    requires t1 <= t2 && ValidateToken(token, secret, verify, t2).Ok?
    ensures ValidateToken(token, secret, verify, t1) == ValidateToken(token, secret, verify, t2)
  {
  }

  /** The leeway boundary: accepted 60 seconds after `exp`, rejected one second later. */
  lemma {:induction false} LeewayBoundary(token: string, secret: string, verify: Verifier)
    requires verify(token, secret).Some?
    ensures var exp := verify(token, secret).value.exp;
      ValidateToken(token, secret, verify, exp + 60).Ok? &&
      ValidateToken(token, secret, verify, exp + 61) == Err(ExpiredSignature)
  {
  }

  /** The room id: the `room` claim when present, `"user:" + sub` otherwise. */
  function RoomId(c: TokenClaims): (id: string)
    ensures c.room.Some? ==> id == c.room.value
    ensures c.room.None? ==> |id| == 5 + |c.sub| && id[..5] == "user:" && id[5..] == c.sub
  {
    match c.room
    case Some(r) => r
    case None => "user:" + c.sub
  }

  /** Without a room claim, two connections share a room exactly when they share a subject. */
  lemma {:induction false} DefaultRoomsShared(a: TokenClaims, b: TokenClaims)
    requires a.room.None? && b.room.None?
    ensures RoomId(a) == RoomId(b) <==> a.sub == b.sub
  {
    if RoomId(a) == RoomId(b) {
      assert a.sub == RoomId(a)[5..];
    }
  }

  /** A room claim `"user:" + s` lands in the same room as a claimless token of subject `s`. */
  lemma {:induction false} ClaimJoinsDefaultRoom(a: TokenClaims, b: TokenClaims)
    requires a.room == Some("user:" + b.sub) && b.room.None?
    ensures RoomId(a) == RoomId(b)
  {
  }
}
