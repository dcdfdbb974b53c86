/**
 * backend/routers/chat.py: the WebSocket chat handler. The received JSON
 * objects are given up front as `inbox`, and how the receive loop ends
 * (the client disconnects, or some other error) as `ending`. The result of
 * get_current_user_ws, which no file of this model defines, is the
 * parameter `resolved`: None where it raises.
 */
module ChatRouter {
  import opened Outcomes
  import opened UserModels
  import opened ChatRegistry

  /** How the `while True` receive loop stops. */
  datatype Ending = Disconnected | Failed

  /** The key a connection is registered under: the user's name, or "guest" when resolving the user raised. */
  function ConnectionName(resolved: Option<UserGet>): (name: string)
    ensures resolved.None? ==> name == "guest"
    ensures resolved.Some? ==> name == resolved.value.username
  {
    match resolved
    case None => "guest"
    case Some(user) => user.username
  }

  /** `data.get("message", "")`. */
  function MessageOf(data: map<string, string>): string
  {
    if "message" in data then data["message"] else ""
  }

  /** An object without a "message" key is broadcast with the empty message, one with it with that message. */
  lemma MissingMessageIsEmpty(name: string, data: map<string, string>)
    ensures "message" !in data ==> Frames(name, [data]) == [Frame(name, "")]
    ensures "message" in data ==> Frames(name, [data]) == [Frame(name, data["message"])]
  {
  }

  /** The frames broadcast for the received objects, in receive order. */
  function Frames(name: string, inbox: seq<map<string, string>>): seq<Frame>
  {
    if inbox == [] then []
    else Frames(name, inbox[..|inbox| - 1]) + [Frame(name, MessageOf(inbox[|inbox| - 1]))]
  }

  /** One frame per received object, in receive order, each with the connection's name and the object's message. */
  lemma {:induction false} FramesInOrder(name: string, inbox: seq<map<string, string>>)
    ensures |Frames(name, inbox)| == |inbox|
    ensures forall i :: 0 <= i < |inbox| ==> Frames(name, inbox)[i] == Frame(name, MessageOf(inbox[i]))
  {
    if inbox != [] {
      FramesInOrder(name, inbox[..|inbox| - 1]);
    }
  }

  /** Each frame of `frames` repeated `n` times in a row: what a socket registered under `n` keys receives. */
  function Stutter(frames: seq<Frame>, n: nat): seq<Frame>
  {
    if frames == [] then []
    else Stutter(frames[..|frames| - 1], n) + Copies(frames[|frames| - 1], n)
  }

  /** A socket registered under one key receives every frame exactly once, in order. */
  lemma {:induction false} StutterOnce(frames: seq<Frame>)
    ensures Stutter(frames, 1) == frames
  {
    if frames != [] {
      StutterOnce(frames[..|frames| - 1]);
      assert frames == frames[..|frames| - 1] + [frames[|frames| - 1]];
    }
  }

  /** Receiving one more object adds its frame, `n` times, to what a socket registered under `n` keys has received. */
  lemma FramesStep(start: seq<Frame>, name: string, inbox: seq<map<string, string>>, i: nat, n: nat)
    requires i < |inbox|
    ensures start + Stutter(Frames(name, inbox[..i]), n) + Copies(Frame(name, MessageOf(inbox[i])), n)
            == start + Stutter(Frames(name, inbox[..i + 1]), n)
  {
    assert inbox[..i + 1][..i] == inbox[..i];
  }

  /**
   * Every socket of `m` has been sent, since it held `start`, each of `frames`
   * once per key it is registered under.
   */
  ghost predicate SentSince(m: map<string, Socket>, start: map<Socket, seq<Frame>>, frames: seq<Frame>)
    reads m.Values
  {
    forall s :: s in m.Values ==> s in start && s.sent == start[s] + Stutter(frames, Count(m, s))
  }

  /**
   * The `while True` loop of chat: one broadcast under `name` per received
   * object, in receive order. The registry itself is left as it was.
   */
  method ReceiveLoop(registry: Registry, name: string, inbox: seq<map<string, string>>)
    requires registry.Valid()
    modifies registry.connections.Values
    ensures registry.Valid() && registry.connections == old(registry.connections)
    ensures forall s :: s in registry.connections.Values ==>
              s.sent == old(s.sent) + Stutter(Frames(name, inbox), Count(registry.connections, s))
  {
    ghost var live := registry.connections;
    ghost var start := map s | s in live.Values :: s.sent;
    assert SentSince(live, start, Frames(name, inbox[..0]));
    var i := 0;
    while i < |inbox|
      invariant 0 <= i <= |inbox|
      invariant registry.Valid() && registry.connections == live
      invariant SentSince(live, start, Frames(name, inbox[..i]))
    {
      ReceiveOne(registry, name, inbox, i, start);
      i := i + 1;
    }
    assert inbox[..|inbox|] == inbox;
  }

  /** One turn of chat's receive loop: the broadcast of the `i`-th received object. */
  method ReceiveOne(registry: Registry, name: string, inbox: seq<map<string, string>>, i: nat,
                    ghost start: map<Socket, seq<Frame>>)
    requires registry.Valid() && i < |inbox|
    requires SentSince(registry.connections, start, Frames(name, inbox[..i]))
    modifies registry.connections.Values
    ensures registry.Valid() && registry.connections == old(registry.connections)
    ensures SentSince(registry.connections, start, Frames(name, inbox[..i + 1]))
  {
    registry.Broadcast(name, MessageOf(inbox[i]));
    forall s | s in registry.connections.Values
      ensures s.sent == start[s] + Stutter(Frames(name, inbox[..i + 1]), Count(registry.connections, s))
    {
      FramesStep(start[s], name, inbox, i, Count(registry.connections, s));
    }
  }

  /**
   * The part of chat after the name is known: connect, then receive until the
   * loop stops. The socket this connection replaced under `name`, if any,
   * is no longer registered and is sent nothing.
   */
  method Serve(registry: Registry, ws: Socket, name: string, inbox: seq<map<string, string>>)
    requires registry.Valid() && ws !in registry.connections.Values
    modifies registry, registry.connections.Values, ws
    ensures registry.Valid() && ws.accepted
    ensures registry.connections == old(registry.connections)[name := ws]
    ensures forall s :: s in registry.connections.Values ==>
              s.sent == old(s.sent) + Stutter(Frames(name, inbox), Count(registry.connections, s))
    ensures forall s :: s in old(registry.connections.Values) && s !in registry.connections.Values ==>
              s.sent == old(s.sent)
    ensures ws.sent == old(ws.sent) + Frames(name, inbox)
  {
    NewSocketOneKey(registry.connections, name, ws);
    registry.ConnectUser(name, ws);
    ReceiveLoop(registry, name, inbox);
    StutterOnce(Frames(name, inbox));
  }

  /**
   * chat: register the connection under its name, broadcast one frame per
   * received object in receive order, and on WebSocketDisconnect remove the
   * name. Any other error ends the handler with the name still registered.
   */
  method Chat(registry: Registry, ws: Socket, resolved: Option<UserGet>, inbox: seq<map<string, string>>, ending: Ending)
    requires registry.Valid() && ws !in registry.connections.Values
    modifies registry, registry.connections.Values, ws
    ensures registry.Valid() && ws.accepted
    ensures var name := ConnectionName(resolved);
            var live := old(registry.connections)[name := ws];
            && registry.connections == (if ending == Disconnected then live - {name} else live)
            && (forall s :: s in live.Values ==>
                  s.sent == old(s.sent) + Stutter(Frames(name, inbox), Count(live, s)))
            && (forall s :: s in old(registry.connections.Values) && s !in live.Values ==> s.sent == old(s.sent))
    ensures ws.sent == old(ws.sent) + Frames(ConnectionName(resolved), inbox)
  {
    var name := ConnectionName(resolved);
    Serve(registry, ws, name, inbox);
    if ending == Disconnected {
      registry.DisconnectUser(name);
    }
  }

  /**
   * Two connections under one name share one key: the later one replaces
   * the earlier, and when the earlier disconnects it removes the later one's
   * entry, which stays open.
   */
  method SharedNameScenario(registry: Registry, first: Socket, second: Socket, name: string)
    requires registry.Valid() && first != second
    modifies registry, first, second
    ensures registry.Valid() && second.accepted
    ensures registry.connections == old(registry.connections) - {name}
  {
    registry.ConnectUser(name, first);
    registry.ConnectUser(name, second);
    assert registry.connections[name] == second;
    registry.DisconnectUser(name);
  }
}
