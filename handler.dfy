/**
 * The admission decision of `ws_handler` for `GET /ws`: the Origin check, the
 * token from `Sec-WebSocket-Protocol`, token validation, and the room the
 * connection joins; then the room's channel is looked up or created.
 */
module Handler {
  import opened Wrappers
  import opened Strings
  import opened Protocol
  import opened Auth
  import opened Broadcast
  import opened GatewayState

  /** The two request headers the handler reads, as raw bytes when present. */
  datatype Request = Request(origin: Option<seq<byte>>, protocol: Option<seq<byte>>)

  /**
   * `HeaderValue::to_str` accepts visible ASCII and horizontal tab only; a part
   * of `Readable`, and so of `Admit`.
   */
  predicate IsVisibleHeaderByte(b: byte) {
    b == 9 || (32 <= b < 127)
  }

  /** `HeaderValue::to_str`: the value as text, or `None` when a byte is not visible ASCII. */
  function HeaderText(v: seq<byte>): (r: Option<string>)
    ensures r.Some? <==> forall i :: 0 <= i < |v| ==> IsVisibleHeaderByte(v[i])
    ensures r.Some? ==> |r.value| == |v| && forall i :: 0 <= i < |v| ==> r.value[i] as int == v[i]
  {
    if v == [] then Some("")
    else if !IsVisibleHeaderByte(v[0]) then None
    else match HeaderText(v[1..])
      case None => None
      case Some(t) => Some([v[0] as char] + t)
  }

  /** `headers.get(name).and_then(|v| v.to_str().ok())`: absent and unreadable are alike. */
  function Readable(h: Option<seq<byte>>): (r: Option<string>)
    ensures r.Some? <==> h.Some? && forall i :: 0 <= i < |h.value| ==> IsVisibleHeaderByte(h.value[i])
    ensures r.Some? ==> |r.value| == |h.value| && forall i :: 0 <= i < |h.value| ==> r.value[i] as int == h.value[i]
  {
    match h
    case None => None
    case Some(v) => HeaderText(v)
  }

  /** `StatusCode::FORBIDDEN`. */
  const Forbidden: nat := 403

  datatype Rejection = OriginNotAllowed | MissingToken | InvalidOrExpiredToken

  /** A 403 response, or the room and user the upgraded socket is handed. */
  datatype Admission = Rejected(status: nat, why: Rejection) | Admitted(roomId: string, user: string)

  /** The token the handler takes from the request: empty when the header is absent or unreadable. */
  function RequestToken(req: Request): (token: string)
    ensures Readable(req.protocol).None? ==> token == ""
  {
    ExtractEmptyHeader();
    ExtractToken(Readable(req.protocol).GetOr(""))
  }

  /**
   * The origin check passes: no readable Origin header, or an allowed one. A
   * part of `Admit`, the first of its checks.
   */
  predicate OriginPasses(allowed: seq<string>, req: Request) {
    Readable(req.origin).None? || OriginAllowed(allowed, Readable(req.origin).value)
  }

  /**
   * `ws_handler` up to the upgrade: every rejection is a 403, and the checks
   * run in order — origin, then a non-empty token, then validation.
   */
  function Admit(allowed: seq<string>, secret: string, req: Request, verify: Verifier, now: nat)
    : (a: Admission)
    ensures a.Rejected? ==> a.status == Forbidden
    ensures a.Rejected? && a.why == OriginNotAllowed <==> !OriginPasses(allowed, req)
    ensures a.Rejected? && a.why == MissingToken <==>
      OriginPasses(allowed, req) && RequestToken(req) == ""
    ensures a.Rejected? && a.why == InvalidOrExpiredToken <==>
      OriginPasses(allowed, req) && RequestToken(req) != "" &&
      ValidateToken(RequestToken(req), secret, verify, now).Err?
  {
    if !OriginPasses(allowed, req) then Rejected(Forbidden, OriginNotAllowed)
    else
      var token := RequestToken(req);
      if token == "" then Rejected(Forbidden, MissingToken)
      else match ValidateToken(token, secret, verify, now)
        case Err(_) => Rejected(Forbidden, InvalidOrExpiredToken)
        case Ok(claims) => Admitted(RoomId(claims), claims.sub)
  }

  /**
   * A connection is admitted exactly when all three checks pass, and then it
   * joins the room its claims name, as its subject.
   */
  lemma {:induction false} AdmittedIff(allowed: seq<string>, secret: string, req: Request, verify: Verifier, now: nat)
    ensures var a := Admit(allowed, secret, req, verify, now);
      var v := ValidateToken(RequestToken(req), secret, verify, now);
      (a.Admitted? <==> OriginPasses(allowed, req) && RequestToken(req) != "" && v.Ok?) &&
      (a.Admitted? ==> a.roomId == RoomId(v.value) && a.user == v.value.sub)
  {
  }

  /** A request without an Origin header is never refused for its origin. */
  lemma {:induction false} AbsentOriginNeverRefused(allowed: seq<string>, secret: string, req: Request, verify: Verifier, now: nat)
    requires req.origin.None?
    ensures Admit(allowed, secret, req, verify, now) != Rejected(Forbidden, OriginNotAllowed)
  {
  }

  /** An Origin header that is not readable text is treated exactly as an absent one. */
  lemma {:induction false} UnreadableOriginIsAbsent(
    allowed: seq<string>, secret: string, v: seq<byte>, protocol: Option<seq<byte>>, verify: Verifier, now: nat)
    requires HeaderText(v).None?
    ensures Admit(allowed, secret, Request(Some(v), protocol), verify, now) ==
            Admit(allowed, secret, Request(None, protocol), verify, now)
  {
  }

  /** A disallowed origin is refused first, whatever the token. */
  lemma {:induction false} OriginCheckedFirst(
    allowed: seq<string>, secret: string, o: seq<byte>, protocol: Option<seq<byte>>, verify: Verifier, now: nat)
    requires HeaderText(o).Some? && !OriginAllowed(allowed, HeaderText(o).value)
    ensures Admit(allowed, secret, Request(Some(o), protocol), verify, now) == Rejected(Forbidden, OriginNotAllowed)
  {
    assert Readable(Some(o)) == HeaderText(o);
    assert !OriginPasses(allowed, Request(Some(o), protocol));
  }

  /** Without a `Sec-WebSocket-Protocol` header there is no token. */
  lemma {:induction false} MissingProtocolHeader(allowed: seq<string>, secret: string, req: Request, verify: Verifier, now: nat)
    requires req.protocol.None? && OriginPasses(allowed, req)
    ensures Admit(allowed, secret, req, verify, now) == Rejected(Forbidden, MissingToken)
  {
  }

  /** A token that expired more than 60 seconds ago is refused, even with a good signature. */
  lemma {:induction false} ExpiredTokenRefused(allowed: seq<string>, secret: string, req: Request, verify: Verifier, now: nat)
    requires OriginPasses(allowed, req) && RequestToken(req) != ""
    requires verify(RequestToken(req), secret).Some? && verify(RequestToken(req), secret).value.exp + 60 < now
    ensures Admit(allowed, secret, req, verify, now) == Rejected(Forbidden, InvalidOrExpiredToken)
  {
  }

  /**
   * The browser case: an allowed origin and `bearer, <token>` with a token that
   * verifies and is within the leeway lead into the claims' room.
   */
  lemma {:induction false} BrowserAdmitted(
    allowed: seq<string>, secret: string, req: Request, token: string, verify: Verifier, now: nat)
    requires OriginPasses(allowed, req)
    requires Readable(req.protocol) == Some("bearer, " + token)
    requires ',' !in token && IsTrimmed(token) && token != ""
    requires verify(token, secret).Some? && now <= verify(token, secret).value.exp + 60
    ensures Admit(allowed, secret, req, verify, now) ==
      Admitted(RoomId(verify(token, secret).value), verify(token, secret).value.sub)
  {
    ExtractBrowserHeader(token);
    assert RequestToken(req) == token;
    assert ValidateToken(token, secret, verify, now) == Ok(verify(token, secret).value);
  }

  /**
   * `ws_handler` on the shared state: decide, and for an admitted connection
   * get or create the room's channel, whose handle the session is given.
   */
  method WsHandler(state: AppState, hub: Hub, req: Request, verify: Verifier, now: nat)
    returns (a: Admission, ch: Option<ChannelId>)
    requires hub.Valid() && state.rooms.Valid(hub)
    modifies state.rooms, hub
    ensures hub.Valid() && state.rooms.Valid(hub)
    ensures a == Admit(state.allowedOrigins, state.jwtSecret, req, verify, now)
    ensures a.Rejected? ==>
      ch.None? && state.rooms.entries == old(state.rooms.entries) && hub.channels == old(hub.channels)
    ensures a.Admitted? ==>
      ch.Some? && a.roomId in state.rooms.entries && state.rooms.entries[a.roomId] == ch.value
    ensures a.Admitted? && a.roomId in old(state.rooms.entries) ==>
      ch.value == old(state.rooms.entries[a.roomId]) &&
      state.rooms.entries == old(state.rooms.entries) && hub.channels == old(hub.channels)
    ensures a.Admitted? && a.roomId !in old(state.rooms.entries) ==>
      state.rooms.entries == old(state.rooms.entries)[a.roomId := ch.value] &&
      hub.channels == old(hub.channels) + [NewChannel()]
  {
    a := Admit(state.allowedOrigins, state.jwtSecret, req, verify, now);
    if a.Admitted? {
      var c := state.rooms.GetOrCreate(a.roomId, hub);
      ch := Some(c);
    } else {
      ch := None;
    }
  }
}
