/**
 * The gateway's shared state: the room map (a concurrent map from room id to
 * the room's broadcast-channel handle), the JWT secret and the Origin
 * allow-list, with the allow-list rule.
 */
module GatewayState {
  import opened Broadcast

  /** `iter().any(|o| o == origin)`: exact, case-sensitive comparison. */
  function AnyEquals(entries: seq<string>, origin: string): (r: bool)
    ensures r <==> origin in entries
  {
    if entries == [] then false
    else entries[0] == origin || AnyEquals(entries[1..], origin)
  }

  /**
   * `is_origin_allowed`: an empty allow-list admits every origin; otherwise the
   * origin must equal one of the entries.
   */
  function OriginAllowed(allowed: seq<string>, origin: string): (r: bool)
    ensures allowed == [] ==> r
    ensures allowed != [] ==> (r <==> exists i :: 0 <= i < |allowed| && allowed[i] == origin)
  {
    if allowed == [] then true else AnyEquals(allowed, origin)
  }

  /** The verdict depends only on which entries are listed, not on their order or repetition. */
  lemma {:induction false} OriginAllowedBySet(a: seq<string>, b: seq<string>, origin: string)
    requires forall x :: x in a <==> x in b
    ensures OriginAllowed(a, origin) == OriginAllowed(b, origin)
  {
    if a != [] { assert a[0] in b; }
    if b != [] { assert b[0] in a; }
  }

  /** With no entries every origin string is allowed. */
  lemma {:induction false} EmptyAllowListAllowsAll(origin: string)
    ensures OriginAllowed([], origin)
  {
  }

  /** Listing only `https://example.com` admits it and refuses `https://evil.com`. */
  lemma {:induction false} ExampleOrigins()
    ensures OriginAllowed(["https://example.com"], "https://example.com")
    ensures !OriginAllowed(["https://example.com"], "https://evil.com")
  {
    assert |"https://example.com"| != |"https://evil.com"|;
  }

  const DevSecret: string := "supersecret"
  const DevOrigins: seq<string> := ["http://localhost:3000", "http://127.0.0.1:3000"]

  /** The development configuration admits exactly its two local origins. */
  lemma {:induction false} DevOriginsAllowed(origin: string)
    ensures OriginAllowed(DevOrigins, origin) <==>
      origin == "http://localhost:3000" || origin == "http://127.0.0.1:3000"
  {
    assert DevOrigins[0] == "http://localhost:3000" && DevOrigins[1] == "http://127.0.0.1:3000";
  }

  /** The room map: room id to the handle of that room's broadcast channel. */
  class Rooms {
    var entries: map<string, ChannelId>

    /**
     * Every handle in the map names a channel of `hub`, and no two rooms share
     * a channel, so what is sent in one room is never seen in another.
     */
    predicate Valid(hub: Hub)
      reads this, hub
    {
      (forall k :: k in entries ==> entries[k] < |hub.channels|) &&
      (forall k1, k2 :: k1 in entries && k2 in entries && k1 != k2 ==> entries[k1] != entries[k2])
    }

    constructor ()
      ensures entries == map[]
    {
      entries := map[];
    }

    /**
     * `rooms.entry(room_id).or_insert_with(|| broadcast::channel(..).0).clone()`:
     * the present handle and no change at all, or exactly one newly created,
     * empty channel stored under `roomId` and no other key touched.
     */
    method GetOrCreate(roomId: string, hub: Hub) returns (ch: ChannelId)
      requires hub.Valid() && Valid(hub)
      modifies this, hub
      ensures hub.Valid() && Valid(hub)
      ensures roomId in entries && entries[roomId] == ch
      ensures roomId in old(entries) ==>
        ch == old(entries[roomId]) && entries == old(entries) && hub.channels == old(hub.channels)
      ensures roomId !in old(entries) ==>
        ch == |old(hub.channels)| && hub.channels == old(hub.channels) + [NewChannel()] &&
        entries == old(entries)[roomId := ch]
    {
      if roomId in entries {
        ch := entries[roomId];
      } else {
        ch := hub.Create();
        entries := entries[roomId := ch];
      }
    }

    /** `rooms.remove(&room_id)`: by key, whatever channel the key holds. */
    method Remove(roomId: string)
      modifies this
      ensures entries == old(entries) - {roomId}
    {
      entries := entries - {roomId};
    }
  }

  /** `AppState`. The room map is shared by reference; the other fields never change. */
  class AppState {
    const rooms: Rooms
    const jwtSecret: string
    const allowedOrigins: seq<string>

    /** `AppState::new`: the configuration as given, and no rooms. */
    constructor (jwtSecret: string, allowedOrigins: seq<string>)
      ensures this.jwtSecret == jwtSecret && this.allowedOrigins == allowedOrigins
      ensures fresh(rooms) && rooms.entries == map[]
    {
      this.jwtSecret := jwtSecret;
      this.allowedOrigins := allowedOrigins;
      rooms := new Rooms();
    }

    /** `AppState::new_dev`: the weak development secret and the two local origins. */
    constructor Dev()
      ensures jwtSecret == DevSecret && allowedOrigins == DevOrigins
      ensures fresh(rooms) && rooms.entries == map[]
    {
      jwtSecret := DevSecret;
      allowedOrigins := DevOrigins;
      rooms := new Rooms();
    }

    function IsOriginAllowed(origin: string): (r: bool)
      ensures r <==> allowedOrigins == [] || origin in allowedOrigins
    {
      OriginAllowed(allowedOrigins, origin)
    }
  }
}
