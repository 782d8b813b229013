/**
 * The WebSocket relay: a registry of open sessions by id, and a handler that
 * wraps each incoming message's "type" and "data" into an envelope and sends
 * it to every other open session.
 */
module WebSocket {
  import opened Wrappers

  /** A connected session: whether it is open, and the text frames sent to it so far. */
  datatype Session = Session(open: bool, received: seq<string>)

  type Sessions = map<string, Session>

  /** The JSON values an incoming payload's entries can hold. */
  datatype JsonValue = JsonNull | JsonString(text: string) | JsonNumber(n: int) | JsonBool(b: bool) | JsonStructure

  /**
   * What readValue makes of the text: an I/O exception when it is not a JSON
   * object, null for the JSON literal null, or the object's entries.
   */
  datatype Parsed = Malformed | NullDocument | Document(fields: map<string, JsonValue>)

  /** The broadcast envelope {"type": ..., "data": ...}. */
  datatype Envelope = Envelope(kind: string, data: JsonValue)

  /** Whether the relay delivers to session `id`: not the sender, open, and its send does not fail. */
  predicate Delivers(sessions: Sessions, id: string, exclude: string, failing: set<string>)
    requires id in sessions
  {
    id != exclude && sessions[id].open && id !in failing
  }

  /**
   * broadcastMessage's forEach once the envelope is serialized: each
   * delivering session gets the text once, a failed send is skipped, and no
   * session is added or removed.
   */
  function Broadcast(sessions: Sessions, json: string, exclude: string, failing: set<string>): (r: Sessions)
    ensures r.Keys == sessions.Keys
    ensures forall id :: id in r ==> r[id].open == sessions[id].open
    ensures forall id :: id in sessions && (id == exclude || !sessions[id].open || id in failing) ==>
      r[id] == sessions[id]
    ensures forall id :: id in sessions && id != exclude && sessions[id].open && id !in failing ==>
      r[id].received == sessions[id].received + [json]
  {
    map id | id in sessions ::
      if Delivers(sessions, id, exclude, failing) then sessions[id].(received := sessions[id].received + [json])
      else sessions[id]
  }

  /**
   * The envelope an incoming payload yields: "type" must be a string (a
   * missing one is null), and both entries must be non-null, since the
   * envelope map refuses null values.
   */
  function Incoming(payload: map<string, JsonValue>): (e: Option<Envelope>)
    ensures e.Some? <==> ("type" in payload && payload["type"].JsonString? && "data" in payload && !payload["data"].JsonNull?)
    ensures e.Some? ==> e.value == Envelope(payload["type"].text, payload["data"])
  {
    if "type" !in payload || !payload["type"].JsonString? then None
    else if "data" !in payload || payload["data"].JsonNull? then None
    else Some(Envelope(payload["type"].text, payload["data"]))
  }

  /** The sessions after one incoming message, and whether its I/O error is rethrown. */
  datatype Handled = Handled(sessions: Sessions, rethrown: bool)

  /**
   * handleTextMessage. `payload` is the parsed message, `encode` the
   * serializer (None when it fails) and `failing` the sessions whose send
   * throws. Only the parse's I/O exception is rethrown; a null document
   * fails on its first lookup, and that runtime exception is only logged.
   */
  function Relay(sessions: Sessions, sender: string, payload: Parsed,
                 encode: Envelope -> Option<string>, failing: set<string>): (h: Handled)
    ensures h.rethrown <==> payload.Malformed?
    ensures h.sessions.Keys == sessions.Keys
    ensures sender in sessions ==> h.sessions[sender] == sessions[sender]
    ensures !payload.Document? || Incoming(payload.fields).None? || encode(Incoming(payload.fields).value).None? ==>
      h.sessions == sessions
  {
    if payload.Malformed? then Handled(sessions, true)
    else if payload.NullDocument? then Handled(sessions, false)
    else
      var envelope := Incoming(payload.fields);
      if envelope.None? then Handled(sessions, false)
      else
        var json := encode(envelope.value);
        if json.None? then Handled(sessions, false)
        else Handled(Broadcast(sessions, json.value, sender, failing), false)
  }

  /** A well-formed message reaches every other open session that can be written to, as the serialized envelope. */
  lemma RelayReachesOthers(sessions: Sessions, sender: string, payload: map<string, JsonValue>,
                           encode: Envelope -> Option<string>, failing: set<string>, id: string)
    requires Incoming(payload).Some? && encode(Incoming(payload).value).Some?
    requires id in sessions && id != sender && sessions[id].open && id !in failing
    ensures Relay(sessions, sender, Document(payload), encode, failing).sessions[id].received ==
      sessions[id].received + [encode(Envelope(payload["type"].text, payload["data"])).value]
  {
  }

  class TripWebSocketHandler {
    var sessions: Sessions

    constructor()
      ensures sessions == map[]
    {
      sessions := map[];
    }

    /** afterConnectionEstablished: the session is registered under its id. */
    method Connect(id: string, session: Session)
      modifies this
      ensures sessions == old(sessions)[id := session]
    {
      sessions := sessions[id := session];
    }

    /** afterConnectionClosed: that id is no longer registered; the others stay. */
    method Close(id: string)
      modifies this
      ensures sessions == old(sessions) - {id}
    {
      sessions := sessions - {id};
    }

    /**
     * broadcastMessage. A null type or data throws from the envelope map
     * (`thrown`); a serialization failure returns having sent nothing.
     */
    method BroadcastMessage(kind: Option<string>, data: JsonValue, exclude: string,
                            encode: Envelope -> Option<string>, failing: set<string>)
      returns (thrown: bool)
      modifies this
      ensures thrown <==> kind.None? || data.JsonNull?
      ensures thrown || encode(Envelope(kind.value, data)).None? ==> sessions == old(sessions)
      ensures !thrown && encode(Envelope(kind.value, data)).Some? ==>
        sessions == Broadcast(old(sessions), encode(Envelope(kind.value, data)).value, exclude, failing)
    {
      if kind.None? || data.JsonNull? {
        return true;
      }
      thrown := false;
      var json := encode(Envelope(kind.value, data));
      if json.None? {
        return;
      }
      ghost var start := sessions;
      var pending := sessions.Keys;
      while pending != {}
        invariant pending <= start.Keys && sessions.Keys == start.Keys
        invariant forall id :: id in pending ==> sessions[id] == start[id]
        invariant forall id :: id in start && id !in pending ==>
          sessions[id] == Broadcast(start, json.value, exclude, failing)[id]
        decreases pending
      {
        var id :| id in pending;
        var session := sessions[id];
        if id != exclude && session.open && id !in failing {
          sessions := sessions[id := session.(received := session.received + [json.value])];
        }
        pending := pending - {id};
      }
      assert sessions == Broadcast(start, json.value, exclude, failing);
    }

    /** handleTextMessage: the sender's message is relayed to the others; a parse failure is rethrown. */
    method HandleTextMessage(sender: string, payload: Parsed,
                             encode: Envelope -> Option<string>, failing: set<string>)
      returns (rethrown: bool)
      modifies this
      ensures Handled(sessions, rethrown) == Relay(old(sessions), sender, payload, encode, failing)
    {
      if payload.Malformed? {
        return true;
      }
      rethrown := false;
      if payload.NullDocument? {
        return;
      }
      var fields := payload.fields;
      if "type" in fields && !fields["type"].JsonString? {
        return;
      }
      var kind := if "type" in fields then Some(fields["type"].text) else None;
      var data := if "data" in fields then fields["data"] else JsonNull;
      var thrown := BroadcastMessage(kind, data, sender, encode, failing);
    }
  }
}
