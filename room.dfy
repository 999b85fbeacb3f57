/** The real-time room (`WebSocketRoom`): a registry of live WebSocket
    connections keyed by connection id, and the broadcast of a new post to
    every connection that is still open. The room is one sequential object;
    the runtime delivers its events (upgrade requests, broadcast requests,
    socket messages, close and error events) one at a time. */
module Room {
  import opened Options
  import opened Http
  import Strings
  import Base64

  /** A connection id, as `crypto.randomUUID()` produces it. */
  type ConnId = string

  /** The `readyState` of a WebSocket. */
  datatype ReadyState = Connecting | Open | Closing | Closed

  /** The server end of one connection: its state, whether `send` would
      throw right now, and the messages it has been sent so far. */
  datatype Socket = Socket(readyState: ReadyState, sendThrows: bool, sent: seq<Json>)

  /** The server end of a pair just created and accepted. */
  const Accepted := Socket(Open, false, [])

  /** `{ type: "new_post", post }`, the message pushed to every client. */
  function NewPostMessage(post: Json): Json {
    JObj(map["type" := JStr("new_post"), "post" := post])
  }

  /** `{ success: true, broadcastCount }`. */
  function BroadcastResponse(count: nat): Response {
    JsonResponse(JObj(map["success" := JBool(true), "broadcastCount" := JNum(count)]))
  }

  const NotFound := Response(404, Text("Not found"))
  const SwitchingProtocols := Response(101, NoBody)

  // ---------------------------------------------------------------------
  // The registry as a value

  type Sessions = map<ConnId, Socket>

  /** A socket takes a message when it is OPEN and `send` does not throw. */
  predicate Delivers(h: Socket) {
    h.readyState == Open && !h.sendThrows
  }

  function DeliveredAmong(s: Sessions, ids: set<ConnId>): set<ConnId> {
    set id | id in ids && id in s && Delivers(s[id])
  }

  /** The connections a broadcast reaches. */
  function DeliveredIds(s: Sessions): set<ConnId> {
    DeliveredAmong(s, s.Keys)
  }

  function DeliveredCount(s: Sessions): nat {
    |DeliveredIds(s)|
  }

  /** The registry after broadcasting `m`: every connection that took the
      message has it appended to what it was sent; every other one is gone. */
  function AfterBroadcast(s: Sessions, m: Json): Sessions {
    map id | id in s && Delivers(s[id]) :: s[id].(sent := s[id].sent + [m])
  }

  /** The registry after a connection's `close` or `error` event. */
  function Unregister(s: Sessions, id: ConnId): Sessions {
    s - {id}
  }

  /** The registry part-way through a broadcast: the entries in `done`
      have been handled, the others are as they were. */
  function PartialBroadcast(s: Sessions, done: set<ConnId>, m: Json): (r: Sessions)
    ensures r.Keys <= s.Keys
  {
    map id | id in s && (id !in done || Delivers(s[id])) ::
      if id in done then s[id].(sent := s[id].sent + [m]) else s[id]
  }

  lemma PartialBroadcastStep(s: Sessions, done: set<ConnId>, id: ConnId, m: Json)
    requires id in s && id !in done
    ensures id in PartialBroadcast(s, done, m) && PartialBroadcast(s, done, m)[id] == s[id]
    ensures PartialBroadcast(s, done + {id}, m) ==
      if Delivers(s[id]) then PartialBroadcast(s, done, m)[id := s[id].(sent := s[id].sent + [m])]
      else PartialBroadcast(s, done, m) - {id}
    ensures |DeliveredAmong(s, done + {id})| ==
      |DeliveredAmong(s, done)| + (if Delivers(s[id]) then 1 else 0)
  {
    if Delivers(s[id]) {
      assert DeliveredAmong(s, done + {id}) == DeliveredAmong(s, done) + {id};
    } else {
      assert DeliveredAmong(s, done + {id}) == DeliveredAmong(s, done);
    }
  }

  lemma PartialBroadcastNone(s: Sessions, m: Json)
    ensures PartialBroadcast(s, {}, m) == s
  {
  }

  lemma PartialBroadcastDone(s: Sessions, m: Json)
    ensures PartialBroadcast(s, s.Keys, m) == AfterBroadcast(s, m)
  {
  }

  /** A broadcast reports exactly the connections it keeps, and never more
      than were registered before it. */
  lemma BroadcastCount(s: Sessions, m: Json)
    ensures AfterBroadcast(s, m).Keys == DeliveredIds(s)
    ensures DeliveredCount(s) == |AfterBroadcast(s, m)|
    ensures DeliveredCount(s) <= |s|
  {
    var after := AfterBroadcast(s, m);
    assert after.Keys == DeliveredIds(s);
    SubsetSize(DeliveredIds(s), s.Keys);
  }

  lemma {:induction false} SubsetSize<T>(a: set<T>, b: set<T>)
    requires a <= b
    ensures |a| <= |b|
    decreases b
  {
    if a != {} {
      var x :| x in a;
      SubsetSize(a - {x}, b - {x});
    }
  }

  /** What a broadcast leaves behind: the entries it pruned are exactly those
      not OPEN or whose send threw, the survivors keep their state, and no
      entry is added. */
  lemma BroadcastPrunes(s: Sessions, m: Json, id: ConnId)
    ensures id in AfterBroadcast(s, m) <==> id in s && Delivers(s[id])
    ensures id in AfterBroadcast(s, m) ==>
      AfterBroadcast(s, m)[id].readyState == s[id].readyState &&
      AfterBroadcast(s, m)[id].sendThrows == s[id].sendThrows &&
      AfterBroadcast(s, m)[id].sent == s[id].sent + [m]
  {
  }

  /** With every connection open and healthy, everyone is reached. */
  lemma AllOpenAllDelivered(s: Sessions, m: Json)
    requires forall id :: id in s ==> Delivers(s[id])
    ensures DeliveredCount(s) == |s|
    ensures AfterBroadcast(s, m).Keys == s.Keys
    ensures forall id :: id in s ==> AfterBroadcast(s, m)[id] == s[id].(sent := s[id].sent + [m])
  {
    assert DeliveredIds(s) == s.Keys;
  }

  /** M stale connections among N: the broadcast reaches N - M and removes
      exactly the stale ones. */
  lemma StaleConnectionsPruned(s: Sessions, m: Json, stale: set<ConnId>)
    requires stale <= s.Keys
    requires forall id :: id in s ==> (Delivers(s[id]) <==> id !in stale)
    ensures DeliveredCount(s) == |s| - |stale|
    ensures AfterBroadcast(s, m).Keys == s.Keys - stale
  {
    assert DeliveredIds(s) == s.Keys - stale;
    DifferenceSize(s.Keys, stale);
  }

  lemma {:induction false} DifferenceSize<T>(a: set<T>, b: set<T>)
    requires b <= a
    ensures |a - b| == |a| - |b|
    decreases b
  {
    if b != {} {
      var x :| x in b;
      DifferenceSize(a - {x}, b - {x});
      assert a - b == (a - {x}) - (b - {x});
    }
  }

  /** Two broadcasts in a row reach a surviving client in the order issued. */
  lemma BroadcastsInOrder(s: Sessions, m1: Json, m2: Json, id: ConnId)
    requires id in AfterBroadcast(AfterBroadcast(s, m1), m2)
    ensures id in s && Delivers(s[id])
    ensures AfterBroadcast(AfterBroadcast(s, m1), m2)[id].sent == s[id].sent + [m1, m2]
  {
    BroadcastPrunes(s, m1, id);
    BroadcastPrunes(AfterBroadcast(s, m1), m2, id);
  }

  /** Removing a connection twice is removing it once, and leaves every other
      entry as it was. */
  lemma UnregisterIdempotent(s: Sessions, id: ConnId, other: ConnId)
    requires other != id
    ensures Unregister(Unregister(s, id), id) == Unregister(s, id)
    ensures id !in Unregister(s, id)
    ensures other in Unregister(s, id) <==> other in s
    ensures other in s ==> Unregister(s, id)[other] == s[other]
  {
  }

  // ---------------------------------------------------------------------
  // Inbound socket messages

  /** What an inbound socket message was, after `JSON.parse`. */
  datatype Inbound = NotJson | Parsed(value: Json)

  /** What the message listener concludes (it only logs it). */
  datatype MessageOutcome =
    | MessageError             // the parse or the property access threw
    | Ignored                  // not an auth message
    | AuthError                // the token did not decode
    | Authenticated(userId: string)

  /** The token of `{ type: "auth", token }` when the token is truthy. */
  function AuthToken(v: Json): (r: Option<string>)
    ensures r.Some? <==>
      Field(v, "type") == Some(JStr("auth")) && Field(v, "token").Some? && Truthy(Field(v, "token").value)
    ensures r.Some? ==> r.value == ToText(Field(v, "token").value)
  {
    match Field(v, "type")
    case Some(JStr(t)) =>
      if t == "auth" && Field(v, "token").Some? && Truthy(Field(v, "token").value)
      then Some(ToText(Field(v, "token").value)) else None
    case _ => None
  }

  /** `request.headers.get("Upgrade") === "websocket"`: exact, case-sensitive. */
  predicate IsUpgrade(req: Request) {
    req.Header("upgrade") == Some("websocket")
  }

  /** A POST to the path `/broadcast`. */
  predicate IsBroadcastCall(req: Request) {
    req.path == "/broadcast" && req.verb == "POST"
  }

  // ---------------------------------------------------------------------
  // The room object

  class WebSocketRoom {
    /** Connection id to the server end of its socket. */
    var sessions: Sessions
    /** Every id handed out so far; the fresh-id oracle never repeats one. */
    ghost var issued: set<ConnId>

    ghost predicate Valid()
      reads this
    {
      sessions.Keys <= issued
    }

    constructor ()
      ensures Valid() && sessions == map[] && issued == {}
    {
      sessions := map[];
      issued := {};
    }

    /** The upgrade branch of `fetch`: accept the pair's server end and
        register it under the fresh id `id`. */
    method Accept(id: ConnId) returns (resp: Response)
      requires Valid() && id !in issued
      modifies this
      ensures Valid() && issued == old(issued) + {id}
      ensures id !in old(sessions)
      ensures sessions == old(sessions)[id := Accepted]
      ensures |sessions| == |old(sessions)| + 1
      ensures resp == SwitchingProtocols
    {
      sessions := sessions[id := Accepted];
      issued := issued + {id};
      resp := SwitchingProtocols;
    }

    /** The `close` listener of connection `id`. */
    method OnClose(id: ConnId)
      requires Valid()
      modifies this`sessions
      ensures Valid() && sessions == Unregister(old(sessions), id)
    {
      sessions := sessions - {id};
    }

    /** The `error` listener of connection `id`: logs, then unregisters. */
    method OnError(id: ConnId)
      requires Valid()
      modifies this`sessions
      ensures Valid() && sessions == Unregister(old(sessions), id)
    {
      sessions := sessions - {id};
    }

    /** The runtime moves a registered socket on without the room being
        told: the peer went away before a `close` event reached the room, so
        `readyState` changes, or `send` starts to throw. Nothing else about
        the registry changes. */
    method SocketChanged(id: ConnId, state: ReadyState, throws: bool)
      requires Valid()
      modifies this`sessions
      ensures Valid()
      ensures id in old(sessions) ==> sessions == old(sessions)[id := Socket(state, throws, old(sessions)[id].sent)]
      ensures id !in old(sessions) ==> sessions == old(sessions)
    {
      if id in sessions {
        sessions := sessions[id := sessions[id].(readyState := state, sendThrows := throws)];
      }
    }

    /** The `message` listener: never touches the registry (it has no
        frame), whatever the message; every failure is caught. */
    method OnMessage(id: ConnId, data: Inbound) returns (outcome: MessageOutcome)
      ensures data.NotJson? || data.value.JNull? <==> outcome == MessageError
      ensures outcome.Authenticated? <==>
        data.Parsed? && AuthToken(data.value).Some? && Base64.Atob(AuthToken(data.value).value).Some?
      ensures outcome.Authenticated? ==>
        outcome.userId == Strings.FirstField(Base64.Atob(AuthToken(data.value).value).value, ':')
      ensures outcome == AuthError <==>
        data.Parsed? && AuthToken(data.value).Some? && Base64.Atob(AuthToken(data.value).value).None?
    {
      if data.NotJson? || data.value.JNull? {
        return MessageError;
      }
      var token := AuthToken(data.value);
      if token.None? {
        return Ignored;
      }
      var decoded := Base64.Atob(token.value);
      if decoded.None? {
        outcome := AuthError;
      } else {
        outcome := Authenticated(Strings.FirstField(decoded.value, ':'));
      }
    }

    /** `broadcast(submission)`: serialise the message once, walk the
        registry, send to every OPEN socket and count it, delete every entry
        that is not OPEN or whose send throws. */
    method Broadcast(post: Json) returns (resp: Response)
      requires Valid()
      modifies this`sessions
      ensures Valid()
      ensures sessions == AfterBroadcast(old(sessions), NewPostMessage(post))
      ensures resp == BroadcastResponse(DeliveredCount(old(sessions)))
    {
      var message := NewPostMessage(post);
      var count := 0;
      var pending := sessions.Keys;
      ghost var before := sessions;
      ghost var done: set<ConnId> := {};
      PartialBroadcastNone(before, message);
      while pending != {}
        invariant pending !! done && pending + done == before.Keys
        invariant sessions == PartialBroadcast(before, done, message)
        invariant count == |DeliveredAmong(before, done)|
        invariant before.Keys <= issued
        decreases pending
      {
        var id :| id in pending;
        var ws := sessions[id];
        PartialBroadcastStep(before, done, id, message);
        if ws.readyState == Open {
          if ws.sendThrows {
            // the catch branch: send threw
            sessions := sessions - {id};
          } else {
            sessions := sessions[id := ws.(sent := ws.sent + [message])];
            count := count + 1;
          }
        } else {
          sessions := sessions - {id};
        }
        pending := pending - {id};
        done := done + {id};
      }
      PartialBroadcastDone(before, message);
      resp := BroadcastResponse(count);
    }

    /** `fetch(request)`: an upgrade request registers a connection under the
        oracle's fresh id `freshId`; otherwise a POST to `/broadcast` broadcasts its JSON
        body (a body that does not parse makes `fetch` throw); anything else
        is 404 and leaves the registry alone. */
    method Fetch(req: Request, freshId: ConnId) returns (reply: Option<Response>)
      requires Valid() && (IsUpgrade(req) ==> freshId !in issued)
      modifies this
      ensures Valid()
      ensures IsUpgrade(req) ==>
        reply == Some(SwitchingProtocols) &&
        sessions == old(sessions)[freshId := Accepted] && issued == old(issued) + {freshId}
      ensures !IsUpgrade(req) ==> issued == old(issued)
      ensures !IsUpgrade(req) && IsBroadcastCall(req) && req.body.None? ==>
        reply == None && sessions == old(sessions)
      ensures !IsUpgrade(req) && IsBroadcastCall(req) && req.body.Some? ==>
        reply == Some(BroadcastResponse(DeliveredCount(old(sessions)))) &&
        sessions == AfterBroadcast(old(sessions), NewPostMessage(req.body.value))
      ensures !IsUpgrade(req) && !IsBroadcastCall(req) ==>
        reply == Some(NotFound) && sessions == old(sessions)
    {
      if IsUpgrade(req) {
        var resp := Accept(freshId);
        return Some(resp);
      }
      if IsBroadcastCall(req) {
        if req.body.None? {
          return None;
        }
        var resp := Broadcast(req.body.value);
        return Some(resp);
      }
      return Some(NotFound);
    }
  }

  // ---------------------------------------------------------------------
  // The registry over a run of connection events

  /** A connection event the runtime delivers to the room. */
  datatype Event = Admit(id: ConnId) | Close(id: ConnId)

  function Apply(s: Sessions, e: Event): Sessions {
    match e
    case Admit(id) => s[id := Accepted]
    case Close(id) => Unregister(s, id)
  }

  /** The registry after a run of events, starting empty. */
  function Replay(evs: seq<Event>): Sessions {
    if evs == [] then map[] else Apply(Replay(evs[..|evs| - 1]), evs[|evs| - 1])
  }

  function Admitted(evs: seq<Event>): set<ConnId> {
    set i | 0 <= i < |evs| && evs[i].Admit? :: evs[i].id
  }

  function Closed(evs: seq<Event>): set<ConnId> {
    set i | 0 <= i < |evs| && evs[i].Close? :: evs[i].id
  }

  function AdmitCount(evs: seq<Event>): nat {
    if evs == [] then 0
    else AdmitCount(evs[..|evs| - 1]) + (if evs[|evs| - 1].Admit? then 1 else 0)
  }

  /** Ids come fresh from the oracle, and close/error events only fire on
      connections that were admitted earlier. */
  predicate WellFormed(evs: seq<Event>) {
    (forall i, j :: 0 <= i < j < |evs| && evs[j].Admit? ==> evs[i].id != evs[j].id) &&
    (forall j :: 0 <= j < |evs| && evs[j].Close? ==> exists i :: 0 <= i < j && evs[i] == Admit(evs[j].id))
  }

  lemma WellFormedPrefix(evs: seq<Event>)
    requires evs != [] && WellFormed(evs)
    ensures WellFormed(evs[..|evs| - 1])
  {
    var init := evs[..|evs| - 1];
    forall j | 0 <= j < |init| && init[j].Close?
      ensures exists i :: 0 <= i < j && init[i] == Admit(init[j].id)
    {
      var i :| 0 <= i < j && evs[i] == Admit(evs[j].id);
      assert init[i] == Admit(init[j].id);
    }
  }

  lemma AdmittedSnoc(evs: seq<Event>)
    requires evs != []
    ensures Admitted(evs) == Admitted(evs[..|evs| - 1]) +
      (if evs[|evs| - 1].Admit? then {evs[|evs| - 1].id} else {})
    ensures Closed(evs) == Closed(evs[..|evs| - 1]) +
      (if evs[|evs| - 1].Close? then {evs[|evs| - 1].id} else {})
  {
    var init := evs[..|evs| - 1];
    forall i | 0 <= i < |init| ensures init[i] == evs[i] { }
  }

  /** The last event of a well-formed run admits a new id or closes an
      admitted one. */
  lemma LastEventFacts(evs: seq<Event>)
    requires evs != [] && WellFormed(evs)
    ensures evs[|evs| - 1].Admit? ==> evs[|evs| - 1].id !in Admitted(evs[..|evs| - 1])
    ensures evs[|evs| - 1].Close? ==> evs[|evs| - 1].id in Admitted(evs[..|evs| - 1])
  {
    var init := evs[..|evs| - 1];
    var e := evs[|evs| - 1];
    if e.Admit? {
      forall i | 0 <= i < |init| ensures init[i].id != e.id {
        assert init[i] == evs[i];
      }
    } else {
      var i :| 0 <= i < |evs| - 1 && evs[i] == Admit(e.id);
      assert init[i] == Admit(e.id);
    }
  }

  lemma ReplayStep(s: Sessions, e: Event, admitted: set<ConnId>, closed: set<ConnId>)
    requires s.Keys == admitted - closed && closed <= admitted
    requires e.Admit? ==> e.id !in admitted
    requires e.Close? ==> e.id in admitted
    ensures Apply(s, e).Keys ==
      (admitted + (if e.Admit? then {e.id} else {})) - (closed + (if e.Close? then {e.id} else {}))
  {
  }

  /** The registry holds exactly the admitted connections not yet closed,
      and its size is the number of admissions minus the number of
      connections closed: never negative, nothing counted twice. */
  lemma {:induction false} RegistrySize(evs: seq<Event>)
    requires WellFormed(evs)
    ensures Replay(evs).Keys == Admitted(evs) - Closed(evs)
    ensures Closed(evs) <= Admitted(evs)
    ensures |Admitted(evs)| == AdmitCount(evs)
    ensures |Replay(evs)| == AdmitCount(evs) - |Closed(evs)|
  {
    if evs != [] {
      WellFormedPrefix(evs);
      RegistrySize(evs[..|evs| - 1]);
      RegistryKeysStep(evs);
      AdmitCountStep(evs);
    }
    DifferenceSize(Admitted(evs), Closed(evs));
    assert |Replay(evs)| == |Replay(evs).Keys|;
  }

  lemma RegistryKeysStep(evs: seq<Event>)
    requires evs != [] && WellFormed(evs)
    requires Replay(evs[..|evs| - 1]).Keys == Admitted(evs[..|evs| - 1]) - Closed(evs[..|evs| - 1])
    requires Closed(evs[..|evs| - 1]) <= Admitted(evs[..|evs| - 1])
    ensures Replay(evs).Keys == Admitted(evs) - Closed(evs)
    ensures Closed(evs) <= Admitted(evs)
  {
    var init := evs[..|evs| - 1];
    AdmittedSnoc(evs);
    LastEventFacts(evs);
    assert Replay(evs) == Apply(Replay(init), evs[|evs| - 1]);
    ReplayStep(Replay(init), evs[|evs| - 1], Admitted(init), Closed(init));
  }

  lemma AdmitCountStep(evs: seq<Event>)
    requires evs != [] && WellFormed(evs)
    requires |Admitted(evs[..|evs| - 1])| == AdmitCount(evs[..|evs| - 1])
    ensures |Admitted(evs)| == AdmitCount(evs)
  {
    AdmittedSnoc(evs);
    LastEventFacts(evs);
  }

  // ---------------------------------------------------------------------
  // End-to-end: three clients, a broadcast, one close, another broadcast

  lemma FirstRound(s0: Sessions, m1: Json)
    requires s0 == map["c1" := Accepted, "c2" := Accepted, "c3" := Accepted]
    ensures DeliveredCount(s0) == 3
    ensures AfterBroadcast(s0, m1) == map["c1" := Socket(Open, false, [m1]), "c2" := Socket(Open, false, [m1]), "c3" := Socket(Open, false, [m1])]
  {
    AllOpenAllDelivered(s0, m1);
    assert s0.Keys == {"c1", "c2", "c3"};
    var a := AfterBroadcast(s0, m1);
    var b := map["c1" := Socket(Open, false, [m1]), "c2" := Socket(Open, false, [m1]), "c3" := Socket(Open, false, [m1])];
    assert a.Keys == b.Keys;
    assert forall k :: k in a ==> a[k] == b[k];
  }

  lemma SecondRound(s2: Sessions, m1: Json, m2: Json)
    requires s2 == map["c1" := Socket(Open, false, [m1]), "c3" := Socket(Open, false, [m1])]
    ensures DeliveredCount(s2) == 2
    ensures AfterBroadcast(s2, m2) == map["c1" := Socket(Open, false, [m1, m2]), "c3" := Socket(Open, false, [m1, m2])]
  {
    AllOpenAllDelivered(s2, m2);
    assert s2.Keys == {"c1", "c3"};
    var a := AfterBroadcast(s2, m2);
    var b := map["c1" := Socket(Open, false, [m1, m2]), "c3" := Socket(Open, false, [m1, m2])];
    assert a.Keys == b.Keys;
    assert forall k :: k in a ==> a[k] == b[k];
  }

  lemma CloseSecond(m1: Json)
    ensures Unregister(map["c1" := Socket(Open, false, [m1]), "c2" := Socket(Open, false, [m1]), "c3" := Socket(Open, false, [m1])], "c2")
         == map["c1" := Socket(Open, false, [m1]), "c3" := Socket(Open, false, [m1])]
  {
    var a := Unregister(map["c1" := Socket(Open, false, [m1]), "c2" := Socket(Open, false, [m1]), "c3" := Socket(Open, false, [m1])], "c2");
    assert a.Keys == {"c1", "c3"};
  }

  method ThreeClientScenario(p1: Json, p2: Json) returns (first: Response, second: Response, room: WebSocketRoom)
    ensures first == BroadcastResponse(3) && second == BroadcastResponse(2)
    ensures room.sessions == map["c1" := Socket(Open, false, [NewPostMessage(p1), NewPostMessage(p2)]),
                                 "c3" := Socket(Open, false, [NewPostMessage(p1), NewPostMessage(p2)])]
  {
    var m1, m2 := NewPostMessage(p1), NewPostMessage(p2);
    room := new WebSocketRoom();
    var r := room.Accept("c1");
    r := room.Accept("c2");
    r := room.Accept("c3");
    FirstRound(room.sessions, m1);
    first := room.Broadcast(p1);
    room.OnClose("c2");
    CloseSecond(m1);
    SecondRound(room.sessions, m1, m2);
    second := room.Broadcast(p2);
  }

  lemma StaleRound(s: Sessions, m: Json)
    requires s == map["c1" := Accepted, "c2" := Socket(ReadyState.Closed, false, [])]
    ensures DeliveredCount(s) == 1
    ensures AfterBroadcast(s, m) == map["c1" := Socket(Open, false, [m])]
  {
    assert s.Keys == {"c1", "c2"};
    StaleConnectionsPruned(s, m, {"c2"});
    BroadcastPrunes(s, m, "c1");
    var a := AfterBroadcast(s, m);
    assert a.Keys == {"c1"};
    assert a["c1"] == Socket(Open, false, [m]);
  }

  /** A client whose socket closed without the room hearing of it is
      skipped by the next broadcast, not counted, and dropped. */
  method StaleClientScenario(p: Json) returns (resp: Response, room: WebSocketRoom)
    ensures resp == BroadcastResponse(1)
    ensures room.sessions == map["c1" := Socket(Open, false, [NewPostMessage(p)])]
  {
    room := new WebSocketRoom();
    var r := room.Accept("c1");
    r := room.Accept("c2");
    room.SocketChanged("c2", ReadyState.Closed, false);
    assert room.sessions == map["c1" := Accepted, "c2" := Socket(ReadyState.Closed, false, [])];
    StaleRound(room.sessions, NewPostMessage(p));
    resp := room.Broadcast(p);
  }
}
