# U-chat gateway: room-scoped WebSocket fabric

This is a Dafny model of the WebSocket gateway in `gateway-service`. A client
opens `GET /ws` and puts a JWT in the `Sec-WebSocket-Protocol` header: either
`bearer, <token>` as a browser sends it, or the bare token. The gateway then:

- checks the `Origin` header against an allow-list;
- validates the token, allowing 60 seconds of leeway on `exp`;
- derives a room id, which is the `room` claim or `"user:" + sub`;
- gets or creates that room's broadcast channel in a shared room map.

During the session:

- text frames are published verbatim to every subscriber of the room, the
  sender included;
- binary frames are published as a JSON text envelope holding the bytes in
  lower-case hex;
- ping and pong publish nothing;
- a close frame or a receive error ends the session.

On disconnect the session's receiver is dropped. If the channel then has no
receivers, the room id is removed from the map.

Modules:

- `Strings`: `trim`, `split(',')` and `eq_ignore_ascii_case`.
- `Protocol`: token extraction from the `Sec-WebSocket-Protocol` header.
- `Auth`: claims, the expiry rule and the room id.
- `Hex`: the hex encoder `base64_encode`, its decoder, and the binary envelope.
- `Broadcast`: a tokio broadcast channel, plus `Hub`, the heap of channels
  that handles point into.
- `GatewayState`: the origin rule, the room map `Rooms` and `AppState`.
- `Handler`: the admission decision and `ws_handler`.
- `Sessions`: `handle_socket`, with frame dispatch, the receive loop, the
  forward loop and cleanup.

The broadcast channel is modelled as follows:

- It is a log of every message sent, plus one slot per receiver. A live slot
  holds the receiver's cursor.
- tokio rounds the requested capacity of 100 up to 128. A receiver whose
  cursor is more than 128 messages behind the end of the log is lagging.
- A send with no receivers fails and stores nothing.

Four points where the code behaves differently from what its own comments
or names suggest. The model follows the code each time:

- `base64_encode` is documented as "simple base64 encoding"
  (gateway-service/src/ws_handler.rs:255), but it writes two lower-case hex
  digits per byte (lines 261-263).
- The capacity comment (lines 23-24) says the oldest messages are dropped
  when a client cannot keep up. In fact `while let Ok(msg) = rx.recv()`
  (line 189) ends the forward loop on the first lag, so a lagging client
  gets nothing more; it does not skip ahead.
- The cleanup comment (lines 247-248) speaks of removing the room when no
  subscribers remain. The code checks `receiver_count()` once, after the
  receive loop, and removes the room by key, whatever channel the key holds
  by then.
- Only the forward task is ever aborted, and only after the receive loop
  ends (line 238). A forward loop that ends on a lag or a failed write
  (lines 189-197) leaves the receive loop running, so that client can still
  publish into the room but receives nothing more.

One window needs no concurrency. `ws_handler` fetches or creates the room's
channel before the upgrade (lines 105-111), but the session only subscribes
after it (line 181). So if clients A and B are both admitted to room "r", and
B's session runs to its end before A's starts, B's cleanup sees no receivers
(lines 249-250) and removes "r". A then subscribes to a channel the map no
longer holds, and a later join of "r" gets a new channel that A never hears.

The model has no clock, signature check, socket or scheduler. Validation
takes the current time (`now`) and a `Verifier` function as parameters; the
`Verifier` stands for the signature and claims parsing of `jsonwebtoken`. The
client's frames are a sequence. `Forward` is told at which write, if any, the
client's socket fails.

## Model

| member | source | states |
|---|---|---|
| Strings.EqIgnoreAsciiCasePointwise | gateway-service/src/ws_handler.rs:137 | the case-insensitive comparison is position by position after ASCII lower-casing, on equal lengths |
| Strings.Trim | gateway-service/src/ws_handler.rs:134 | the result has no whitespace at either end, and every character in it comes from the input |
| Strings.TrimStart | gateway-service/src/ws_handler.rs:134 | the result is a suffix of the input, everything cut off is whitespace, and it does not start with whitespace |
| Strings.TrimEnd | gateway-service/src/ws_handler.rs:134 | the result is a prefix of the input, everything cut off is whitespace, and it does not end with whitespace |
| Strings.TrimIsSlice | gateway-service/src/ws_handler.rs:134 | the trimmed part is one contiguous slice of the input, starting where the leading whitespace ends |
| Strings.TrimCutsOnlyWhitespace | gateway-service/src/ws_handler.rs:134 | everything before and after that slice is whitespace, so trimming removes nothing else |
| Strings.TrimIdempotent | gateway-service/src/ws_handler.rs:134 | trimming an already trimmed part changes nothing |
| Strings.TrimOfPadded | gateway-service/src/ws_handler.rs:134 | trimming whitespace padding around a trimmed string gives that string back |
| Strings.Split | gateway-service/src/ws_handler.rs:134 | `split(',')` gives at least one part, and no part contains the separator |
| Strings.JoinSplit | gateway-service/src/ws_handler.rs:134 | joining the parts with the separator gives the header back |
| Strings.SplitJoin | gateway-service/src/ws_handler.rs:134 | splitting a join of separator-free parts gives exactly those parts |
| Strings.EqIgnoreAsciiCase | gateway-service/src/ws_handler.rs:137 | `eq_ignore_ascii_case`: equal lengths and equal characters after ASCII lower-casing, position by position; every string matches itself |
| Strings.IsBearerSpelling | gateway-service/src/ws_handler.rs:137 | a part matches "bearer" ignoring ASCII case exactly when it has six characters, each the lower- or upper-case letter of "bearer" at that position |
| Protocol.IsBearer | gateway-service/src/ws_handler.rs:137 | a part is "bearer" in ASCII case-insensitive comparison; the matching spellings are pinned by `Strings.IsBearerSpelling` |
| Protocol.TrimmedParts | gateway-service/src/ws_handler.rs:134 | one trimmed, comma-free part per piece of the split |
| Protocol.ExtractToken | gateway-service/src/ws_handler.rs:133-147 | the extracted token never holds a comma and is always trimmed |
| Protocol.ChooseToken | gateway-service/src/ws_handler.rs:137-146 | the token is the empty string or one of the parts |
| Protocol.ExtractBearerList | gateway-service/src/ws_handler.rs:137-139 | after a first part that is "bearer" in any case, the token is the trimmed second part, and later parts are ignored |
| Protocol.ExtractBrowserHeader | gateway-service/src/ws_handler.rs:133-139 | `"bearer, " + t` gives back `t` for every comma-free trimmed `t` |
| Protocol.ExtractAfterBearer | gateway-service/src/ws_handler.rs:137-139 | any spelling of "bearer", then `", "`, then a token gives that token |
| Protocol.ExtractDirect | gateway-service/src/ws_handler.rs:142-144 | a comma-free header that is not "bearer" gives itself, trimmed |
| Protocol.ExtractBareToken | gateway-service/src/ws_handler.rs:142-144 | a bare trimmed token other than "bearer" comes back unchanged |
| Protocol.ExtractBearerAlone | gateway-service/src/ws_handler.rs:142-146 | a single part that reads "bearer" gives the empty token |
| Protocol.ExtractOtherList | gateway-service/src/ws_handler.rs:137-146 | two or more parts whose first is not "bearer" give the empty token |
| Protocol.ExtractNonEmptyIff | gateway-service/src/ws_handler.rs:133-147 | the token is non-empty exactly in the two accepted shapes, and only when the chosen part is non-blank |
| Protocol.ExtractEmptyHeader | gateway-service/src/ws_handler.rs:284-288 | the empty header gives the empty token |
| Protocol.ExtractBearerOnly | gateway-service/src/ws_handler.rs:290-294 | "bearer" alone gives the empty token |
| Protocol.ExtractBearerEmptyToken | gateway-service/src/ws_handler.rs:137-139 | "bearer, " gives the empty token |
| Auth.ValidateToken | gateway-service/src/ws_handler.rs:150-162 | a token that fails the signature or payload check is invalid; a token that passes is accepted exactly when `now <= exp + 60`, and then yields its claims unchanged |
| Auth.ValidEarlier | gateway-service/src/ws_handler.rs:150-162 | a token accepted at some time is accepted, with the same claims, at every earlier time |
| Auth.LeewayBoundary | gateway-service/src/ws_handler.rs:152 | a token is accepted 60 seconds after `exp` and refused as expired 61 seconds after |
| Auth.RoomId | gateway-service/src/ws_handler.rs:93-95 | the room is the `room` claim when present and `"user:" + sub` otherwise |
| Auth.DefaultRoomsShared | gateway-service/src/ws_handler.rs:93-95 | without a room claim, two tokens share a room exactly when they share a subject |
| Auth.ClaimJoinsDefaultRoom | gateway-service/src/ws_handler.rs:93-95 | a `room: "user:" + s` claim lands in the default room of subject `s` |
| Hex.HexDigit | gateway-service/src/ws_handler.rs:262 | every nibble maps to a hex digit character |
| Hex.DigitValue | gateway-service/src/ws_handler.rs:262 | a character has a value exactly when it is a lower-case hex digit, and the value maps back to that character |
| Hex.HexEncode | gateway-service/src/ws_handler.rs:256-264 | the output has two characters per byte; byte `i` is at positions `2i` (high nibble) and `2i+1` (low nibble); every character is in `0-9a-f` |
| Hex.HexDecode | gateway-service/src/ws_handler.rs:256-264 | a successful decode has half as many bytes as the text has characters |
| Hex.DecodeEncode | gateway-service/src/ws_handler.rs:256-264 | decoding an encoding gives back the original bytes |
| Hex.EncodeDecode | gateway-service/src/ws_handler.rs:256-264 | every decodable text is the encoding of what it decodes to |
| Hex.EncodeInjective | gateway-service/src/ws_handler.rs:256-264 | different byte strings never encode to the same text |
| Hex.BinaryEnvelope | gateway-service/src/ws_handler.rs:214-215 | the envelope is `{"type":"binary","data":"`, then the hex, then `"}` |
| Hex.EnvelopeRoundTrip | gateway-service/src/ws_handler.rs:214-215 | reading the envelope's data gives back the frame's bytes |
| Broadcast.NextPowerOfTwoFrom | gateway-service/src/ws_handler.rs:25 | the smallest power of two at or above the requested capacity |
| Broadcast.Retained | gateway-service/src/ws_handler.rs:25 | the channel retains the capacity rounded up to a power of two |
| Broadcast.RetainedIs128 | gateway-service/src/ws_handler.rs:25 | a capacity of 100 retains 128 messages |
| Broadcast.LiveCount | gateway-service/src/ws_handler.rs:243 | the number of live receiver slots, never more than the slots |
| Broadcast.Receivers | gateway-service/src/ws_handler.rs:243-249 | `receiver_count()`: at most the number of slots, and zero exactly when no receiver is live |
| Broadcast.LiveCountAppend | gateway-service/src/ws_handler.rs:181 | a new receiver slot adds one to the receiver count when it is live |
| Broadcast.LiveCountUpdate | gateway-service/src/ws_handler.rs:238 | changing one slot changes the receiver count by that slot alone |
| Broadcast.LiveCountZero | gateway-service/src/ws_handler.rs:249 | the receiver count is zero exactly when no receiver is live |
| Broadcast.NewChannel | gateway-service/src/ws_handler.rs:109 | a new channel has an empty log and no receivers |
| Broadcast.ChannelSubscribe | gateway-service/src/ws_handler.rs:181 | subscribing adds one live receiver whose cursor is at the end of the log; the count goes up by one and the log is unchanged |
| Broadcast.ChannelSend | gateway-service/src/ws_handler.rs:206 | a send succeeds exactly when there is a live receiver; it appends the message only then and never changes the receivers |
| Broadcast.ChannelDrop | gateway-service/src/ws_handler.rs:238 | dropping a receiver makes it not live and lowers the count by one; every other receiver and the log stay the same |
| Broadcast.ChannelRecv | gateway-service/src/ws_handler.rs:189 | a receive gives `Lagged` exactly when the receiver is lagging, with the number lost leaving `Retained()` to read, and skips those; `Empty` exactly when nothing is pending; otherwise the next pending message, with the cursor moved past it; no other receiver changes |
| Broadcast.MoveCursor | gateway-service/src/ws_handler.rs:189 | moving one receiver's cursor changes neither the other receivers nor the count |
| Broadcast.SubscriberStartsEmpty | gateway-service/src/ws_handler.rs:181 | a new subscriber has nothing to read: it sees only later messages |
| Broadcast.SendFanOut | gateway-service/src/ws_handler.rs:204-210 | while any receiver is live, a send succeeds and adds the message to that receiver's pending messages; the sender's own receiver is one of them |
| Broadcast.SendWithoutReceivers | gateway-service/src/ws_handler.rs:206-209 | with no receivers, the send fails and the channel is unchanged |
| Broadcast.CaughtUpDoesNotLag | gateway-service/src/ws_handler.rs:23-25 | a caught-up receiver does not lag for up to `Retained()` further sends, and then has exactly those to read |
| Broadcast.Hub.constructor | gateway-service/src/state.rs:36 | no channels yet: the hub holds every channel that a room map entry or a session's `Sender` handle can point to, and the map starts empty |
| Broadcast.Hub.Create | gateway-service/src/ws_handler.rs:109 | exactly one new, empty channel is added, under the next handle |
| Broadcast.Hub.Subscribe | gateway-service/src/ws_handler.rs:181 | the handle's channel becomes `ChannelSubscribe` of its old value; no other channel changes |
| Broadcast.Hub.Send | gateway-service/src/ws_handler.rs:206 | the handle's channel becomes `ChannelSend` of its old value; no other channel changes |
| Broadcast.Hub.Recv | gateway-service/src/ws_handler.rs:189 | the handle's channel becomes `ChannelRecv` of its old value; no other channel changes |
| Broadcast.Hub.Drop | gateway-service/src/ws_handler.rs:238 | the handle's channel becomes `ChannelDrop` of its old value; no other channel changes |
| Broadcast.Hub.ReceiverCount | gateway-service/src/ws_handler.rs:243-249 | `sender.receiver_count()` on a handle: zero exactly when that channel has no live receiver |
| GatewayState.AnyEquals | gateway-service/src/state.rs:61 | `any(o == origin)` holds exactly when the origin is in the list |
| GatewayState.OriginAllowed | gateway-service/src/state.rs:56-62 | an empty list allows every origin; a non-empty one allows exactly the origins equal to some entry |
| GatewayState.OriginAllowedBySet | gateway-service/src/state.rs:61 | the verdict depends only on the set of entries, not on their order or duplicates |
| GatewayState.EmptyAllowListAllowsAll | gateway-service/src/state.rs:81-84 | with no entries, every origin is allowed |
| GatewayState.ExampleOrigins | gateway-service/src/state.rs:70-78 | listing only `https://example.com` allows it and refuses `https://evil.com` |
| GatewayState.DevOriginsAllowed | gateway-service/src/state.rs:45-53 | the development configuration allows exactly `http://localhost:3000` and `http://127.0.0.1:3000` |
| GatewayState.Rooms.constructor | gateway-service/src/state.rs:36 | the room map starts empty |
| GatewayState.Rooms.GetOrCreate | gateway-service/src/ws_handler.rs:104-111 | for a present key: the existing handle, with the map and channels unchanged; otherwise exactly one new empty channel, stored under that key only, with the other keys untouched; no two room ids ever share a channel |
| GatewayState.Rooms.Remove | gateway-service/src/ws_handler.rs:250 | only that key is removed, whatever channel it holds |
| GatewayState.AppState.constructor | gateway-service/src/state.rs:34-40 | the secret and origins as given, and an empty room map |
| GatewayState.AppState.Dev | gateway-service/src/state.rs:45-53 | the secret `"supersecret"`, the two local origins, and an empty room map |
| GatewayState.AppState.IsOriginAllowed | gateway-service/src/state.rs:56-62 | allowed exactly when the list is empty or contains the origin |
| Handler.HeaderText | gateway-service/src/ws_handler.rs:57 | a header value is readable exactly when every byte is visible ASCII or a tab, and then its text has the same characters |
| Handler.Readable | gateway-service/src/ws_handler.rs:57-70 | a header read with `to_str().ok()`: a value exactly when the header is present and every byte is visible ASCII or a tab, and then the same characters |
| Handler.RequestToken | gateway-service/src/ws_handler.rs:68-76 | an absent or unreadable protocol header gives the empty token |
| Handler.Admit | gateway-service/src/ws_handler.rs:57-95 | every rejection is 403; `Origin not allowed` exactly when a readable origin is disallowed; `Missing token` exactly when the origin passes and the token is empty; `Invalid or expired` exactly when both pass and validation fails |
| Handler.AdmittedIff | gateway-service/src/ws_handler.rs:57-101 | admitted exactly when all three checks pass, and then into the claims' room under their subject |
| Handler.AbsentOriginNeverRefused | gateway-service/src/ws_handler.rs:57-63 | a request without an Origin header is never refused for its origin |
| Handler.UnreadableOriginIsAbsent | gateway-service/src/ws_handler.rs:57 | an unreadable Origin header decides exactly as an absent one |
| Handler.OriginCheckedFirst | gateway-service/src/ws_handler.rs:57-62 | a disallowed origin is refused whatever the token |
| Handler.MissingProtocolHeader | gateway-service/src/ws_handler.rs:68-81 | without the protocol header the request is refused for a missing token |
| Handler.ExpiredTokenRefused | gateway-service/src/ws_handler.rs:84-90 | a token that expired more than 60 seconds ago is refused, even with a valid signature |
| Handler.BrowserAdmitted | gateway-service/src/ws_handler.rs:57-95 | an allowed origin with `bearer, <token>` and a token that is valid in time is admitted into the claims' room |
| Handler.WsHandler | gateway-service/src/ws_handler.rs:51-111 | the decision is `Admit`; a rejection changes nothing; an admission yields the room's handle, by get-or-create |
| Sessions.Outgoing | gateway-service/src/ws_handler.rs:202-235 | only text and binary frames publish: text verbatim, binary as an envelope that decodes back to the frame's bytes |
| Sessions.Published | gateway-service/src/ws_handler.rs:202-235 | the messages the receive loop publishes, in order: at most one per frame it takes |
| Sessions.Processed | gateway-service/src/ws_handler.rs:202-235 | the loop takes frames up to and including the first close or error, and every frame when there is none |
| Sessions.PublishedStopsAtEnd | gateway-service/src/ws_handler.rs:226-233 | nothing after a close frame or a receive error is published |
| Sessions.PublishedAppend | gateway-service/src/ws_handler.rs:202-235 | before any ending frame, publishing is concatenation, in order |
| Sessions.TextFramesPublished | gateway-service/src/ws_handler.rs:204-210 | text frames publish exactly their strings, in order |
| Sessions.ControlFramesPublishNothing | gateway-service/src/ws_handler.rs:217-225 | ping and pong frames publish nothing |
| Sessions.BinaryFramePublished | gateway-service/src/ws_handler.rs:211-216 | a binary frame publishes exactly the envelope around its hex, which reads back to its bytes |
| Sessions.AfterSendsTwice | gateway-service/src/ws_handler.rs:202-235 | two stretches of sends are the sends of their concatenation |
| Sessions.LoopStep | gateway-service/src/ws_handler.rs:202-235 | one more frame adds its own message to the published prefix |
| Sessions.LoopExit | gateway-service/src/ws_handler.rs:202-235 | where the loop stops, it has published all that the frame stream publishes |
| Sessions.ProcessedAt | gateway-service/src/ws_handler.rs:226-233 | the first ending frame at position `n - 1` means `n` frames are taken |
| Sessions.ProcessedNoEnd | gateway-service/src/ws_handler.rs:202 | without an ending frame, every frame is taken |
| Sessions.OnFrame | gateway-service/src/ws_handler.rs:203-234 | one frame: the loop stops exactly on close or error, and the frame's message, if any, is sent into the room's channel only |
| Sessions.ReceiveLoop | gateway-service/src/ws_handler.rs:202-235 | the loop takes `Processed(frames)` frames; the room's channel gets exactly `Published(frames)`, in order, when it has receivers; no other channel changes |
| Sessions.Drain | gateway-service/src/ws_handler.rs:189-198 | a lagging receiver ends with nothing written; otherwise the pending messages are written in order until the first failing write, which ends the loop; only this receiver's cursor moves |
| Sessions.Forward | gateway-service/src/ws_handler.rs:188-199 | as `Drain`, and a loop that ended drops its receiver, lowering the count by one |
| Sessions.Finish | gateway-service/src/ws_handler.rs:237-252 | the session's receiver is dropped; the room id is removed exactly when no receiver is left, and otherwise the map is unchanged |
| Sessions.HandleSocket | gateway-service/src/ws_handler.rs:171-252 | the channel gets everything the frames publish, even with no other subscriber; every receiver live before the session is still live at the same cursor, and the session's own receiver is dropped, so a co-member has everything published to read; other channels are untouched; the room is removed exactly when the session was its only subscriber; the channel of every other room in the map is unchanged |
| Sessions.CoMemberAfterSession | gateway-service/src/ws_handler.rs:181-252 | a receiver live before a session is still live at the same cursor after it, with everything the session published queued behind what it already had |
| Sessions.CoMemberReceives | gateway-service/src/ws_handler.rs:181-252 | a client that joined first is still subscribed after a second client's whole session, and has exactly what that session published to read |
| Sessions.TwoClientsInRoom | gateway-service/src/ws_handler.rs:181-215 | sender and co-member receive the same messages, the sender its own too: everything published when it fits the channel, nothing after a lag |
| Sessions.JoinTwoAndSend | gateway-service/src/ws_handler.rs:181-215 | after two joins and one client's frames, both receivers have exactly what was published to read, and each lags exactly when that exceeds what the channel retains |
| Sessions.ForwardBoth | gateway-service/src/ws_handler.rs:188-199 | two receivers with the same pending messages write the same messages: all of them, or none after a lag |
| Sessions.SameView | gateway-service/src/ws_handler.rs:189 | a receiver's pending messages and lag depend only on the log and its own cursor, so another receiver's reads leave them unchanged |
| Sessions.TwoSubscribers | gateway-service/src/ws_handler.rs:181 | two receivers that join one after the other both have exactly the later messages to read, and each lags exactly when they exceed what the channel retains |

## Left out

- Concurrency is not modelled: tokio `spawn` and `abort`, the `DashMap` shard locks, and the internals of tokio's broadcast channel. Sessions run as sequential steps. The forward and receive loops are two separate steps rather than interleaved.
- The race in cleanup is not modelled. `abort()` only requests cancellation, so `receiver_count()` may still count this session's receiver. A concurrent join may also re-create the room between the check and the removal.
- Rooms.Remove: removal is by key, as in the code. The model states nothing about a room that another session has re-created under the same key.
- Strings.IsWhitespace: the Unicode White_Space set is written out as a fixed list of code points, not derived from a Unicode table.
- The JWT signature, the algorithm, the payload parsing and any other `Validation` defaults of `jsonwebtoken::decode` are not modelled. They are the `Verifier` parameter, an uninterpreted function.
- The clock is the `now` parameter. The `exp` claim is a `nat`, not a 64-bit `usize`.
- Auth.ValidateToken: the library's exact arithmetic where `now` is below the leeway is not modelled. The model compares `exp + 60 < now` on unbounded integers.
- The axum upgrade mechanics are not modelled: the echoed `bearer` subprotocol, the response bodies and the transport's automatic pong replies. An admission is `Admitted(roomId, sub)`; a rejection is status 403 with its reason.
- Logging through `tracing` is not modelled, and neither is the unused `write!` of the data length in `base64_encode` (its output buffer is discarded).
- Broadcast.ChannelRecv: the receiver never waits. `Empty` stands for the point where `recv().await` would suspend. A closed channel is not modelled, because the session keeps its sender alive until the receive loop ends.
- Readable: only one value per header name is read, the first, as `HeaderMap::get` does. Repeated headers are not modelled.
- Sessions.Forward: a failed socket write is the `failAt` parameter, not a socket model.
- Sessions.HandleSocket: the forward task is not run inside it. That task is `Forward`; `TwoClientsInRoom` sequences `ReceiveLoop` and `Forward` for two subscribers.
- gateway-service/src/main.rs is not part of this model (legacy wiring, not using these files), and neither are the other services, clients and the integration tests.
