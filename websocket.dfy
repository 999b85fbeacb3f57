/** The worker's side of the real-time channel: the upgrade check before a
    request is handed to the room, and the broadcast request sent to the
    room after a post is stored. Every request goes to the one room named
    `main-room`; the namespace lookup is the identity on that name, so the
    room object itself is passed in. */
module Relay {
  import opened Options
  import opened Http
  import Room

  /** The name both paths resolve the room by. */
  const MainRoom := "main-room"

  const ExpectedUpgrade := Response(426, Text("Expected Upgrade: websocket"))

  /** Where `handleWebSocketUpgrade` sends a request: answered on the spot,
      or forwarded untouched to the room of the given name. */
  datatype Route = Reject(response: Response) | Forward(room: string, request: Request)

  function UpgradeRoute(req: Request): (r: Route)
    ensures r.Reject? <==> !Room.IsUpgrade(req)
    ensures r.Reject? ==> r.response == ExpectedUpgrade
    ensures r.Forward? ==> r.room == MainRoom && r.request == req
  {
    if req.Header("upgrade") != Some("websocket") then Reject(ExpectedUpgrade)
    else Forward(MainRoom, req)
  }

  /** The request `broadcastNewPost` sends: a JSON POST to `/broadcast`
      whose body is the submission. */
  function BroadcastRequest(submission: Json): (req: Request)
    ensures req.body == Some(submission)
  {
    Request("POST", "/broadcast", map["content-type" := "application/json"], Some(submission))
  }

  /** Where `broadcastNewPost` sends its request: always forwarded, to the
      room of the same name as the upgrade path uses. */
  function BroadcastRoute(submission: Json): (r: Route)
    ensures r.Forward? && r.request == BroadcastRequest(submission)
  {
    Forward(MainRoom, BroadcastRequest(submission))
  }

  /** Both paths resolve the same room by name; the room takes a forwarded
      upgrade as an upgrade and the broadcast request as a broadcast. */
  lemma RoutesMeetInTheRoom(req: Request, submission: Json)
    ensures UpgradeRoute(req).Forward? ==>
      UpgradeRoute(req).room == BroadcastRoute(submission).room && Room.IsUpgrade(UpgradeRoute(req).request)
    ensures Room.IsBroadcastCall(BroadcastRoute(submission).request)
    ensures !Room.IsUpgrade(BroadcastRoute(submission).request)
  {
    assert BroadcastRequest(submission).Header("upgrade") == None;
  }

  /** `handleWebSocketUpgrade(request, env)`: anything but an exact
      `Upgrade: websocket` is 426 and the room is not touched; an upgrade is
      forwarded and the room registers the new connection under `freshId`. */
  method HandleWebSocketUpgrade(req: Request, room: Room.WebSocketRoom, freshId: Room.ConnId)
    returns (resp: Response)
    requires room.Valid() && freshId !in room.issued
    modifies room
    ensures room.Valid()
    ensures !Room.IsUpgrade(req) ==>
      resp == ExpectedUpgrade && room.sessions == old(room.sessions) && room.issued == old(room.issued)
    ensures Room.IsUpgrade(req) ==>
      resp == Room.SwitchingProtocols && room.sessions == old(room.sessions)[freshId := Room.Accepted] &&
      room.issued == old(room.issued) + {freshId}
  {
    match UpgradeRoute(req)
    case Reject(r) =>
      resp := r;
    case Forward(_, forwarded) =>
      var reply := room.Fetch(forwarded, freshId);
      resp := reply.value;
  }

  /** `broadcastNewPost(submission, env)`: when the room is reachable it
      broadcasts the submission; every failure is caught and only logged,
      so nothing is returned either way. */
  method BroadcastNewPost(submission: Json, room: Room.WebSocketRoom, reachable: bool)
    requires room.Valid()
    modifies room
    ensures room.Valid() && room.issued == old(room.issued)
    ensures !reachable ==> room.sessions == old(room.sessions)
    ensures reachable ==>
      room.sessions == Room.AfterBroadcast(old(room.sessions), Room.NewPostMessage(submission))
  {
    if reachable {
      var route := BroadcastRoute(submission);
      RoutesMeetInTheRoom(route.request, submission);
      var reply := room.Fetch(route.request, "");
    }
  }
}
