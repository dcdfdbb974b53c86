/**
 * backend/internals/chat.py: the process-wide map from username to
 * WebSocket, and connecting, disconnecting and broadcasting over it.
 * A socket is a handle that records whether it was accepted and the frames
 * sent to it; the transport itself is not modelled.
 */
module ChatRegistry {

  /** The payload broadcast sends, `{"username": ..., "message": ...}`, kept as its two fields. */
  datatype Frame = Frame(username: string, message: string)

  /** A WebSocket connection. */
  class Socket {
    var accepted: bool
    var sent: seq<Frame>

    constructor ()
      ensures !accepted && sent == []
    {
      accepted := false;
      sent := [];
    }

    /** `websocket.accept()`. */
    method Accept()
      modifies this
      ensures accepted && sent == old(sent)
    {
      accepted := true;
    }

    /** `websocket.send_text(json.dumps(frame))`: only an accepted socket can send. */
    method SendText(frame: Frame)
      requires accepted
      modifies this
      ensures accepted && sent == old(sent) + [frame]
    {
      sent := sent + [frame];
    }
  }

  /** `n` copies of `f`. */
  function Copies(f: Frame, n: nat): (r: seq<Frame>)
    ensures |r| == n && forall i :: 0 <= i < n ==> r[i] == f
  {
    if n == 0 then [] else Copies(f, n - 1) + [f]
  }

  /** The keys among `within` under which `s` is registered in `m`. */
  function KeysOf(m: map<string, Socket>, s: Socket, within: set<string>): set<string>
  {
    set k | k in within && k in m && m[k] == s
  }

  /** How many keys `s` is registered under in `m`: the number of frames a broadcast sends it. */
  function Count(m: map<string, Socket>, s: Socket): nat
  {
    |KeysOf(m, s, m.Keys)|
  }

  /** No socket is registered under two usernames. */
  predicate Injective(m: map<string, Socket>)
  {
    forall j, k :: j in m && k in m && j != k ==> m[j] != m[k]
  }

  /** Putting key `u` on the done side adds one to the count of `m[u]` and leaves every other count as it was. */
  lemma KeysOfStep(m: map<string, Socket>, done: set<string>, u: string, s: Socket)
    requires u in m && u !in done
    ensures s == m[u] ==> |KeysOf(m, s, done + {u})| == |KeysOf(m, s, done)| + 1
    ensures s != m[u] ==> KeysOf(m, s, done + {u}) == KeysOf(m, s, done)
  {
    if s == m[u] {
      assert KeysOf(m, s, done + {u}) == KeysOf(m, s, done) + {u};
    }
  }

  /** In a registry where no socket is shared, each registered socket is under exactly one key. */
  lemma {:induction false} InjectiveOneKey(m: map<string, Socket>, s: Socket)
    requires Injective(m) && s in m.Values
    ensures Count(m, s) == 1
  {
    var u :| u in m && m[u] == s;
    assert KeysOf(m, s, m.Keys) == {u};
  }

  /** A socket registered under a fresh entry, and under no other key, holds exactly that one key. */
  lemma NewSocketOneKey(m: map<string, Socket>, username: string, ws: Socket)
    requires ws !in m.Values
    ensures Count(m[username := ws], ws) == 1
  {
    assert KeysOf(m[username := ws], ws, m[username := ws].Keys) == {username};
  }

  /** Every socket of `m` has been sent, since it held `before`, one copy of `frame` per key among `done` it is registered under. */
  ghost predicate SentCopies(m: map<string, Socket>, before: map<Socket, seq<Frame>>, frame: Frame, done: set<string>)
    reads m.Values
  {
    forall s :: s in m.Values ==> s in before && s.sent == before[s] + Copies(frame, |KeysOf(m, s, done)|)
  }

  /** Moving one key from the pending side to the done side keeps the two a partition of `keys`. */
  lemma MoveToDone(pending: set<string>, done: set<string>, keys: set<string>, u: string)
    requires pending !! done && pending + done == keys && u in pending
    ensures (pending - {u}) !! (done + {u}) && (pending - {u}) + (done + {u}) == keys
  {
  }

  /** `active_connections`. */
  class Registry {
    var connections: map<string, Socket>

    /** Every registered socket has been accepted. */
    ghost predicate Valid()
      reads this, connections.Values
    {
      forall u :: u in connections ==> connections[u].accepted
    }

    constructor ()
      ensures Valid() && connections == map[]
    {
      connections := map[];
    }

    /**
     * connect_user: accept the socket, then register it under `username`,
     * replacing any earlier socket of that name; every other entry stays.
     */
    method ConnectUser(username: string, ws: Socket)
      requires Valid()
      modifies this, ws
      ensures Valid()
      ensures connections == old(connections)[username := ws]
      ensures ws.accepted && ws.sent == old(ws.sent)
      ensures forall s :: s in old(connections.Values) ==> s.sent == old(s.sent)
    {
      ws.Accept();
      connections := connections[username := ws];
    }

    /** disconnect_user: `pop(username, None)`, a no-op when the name is not registered. */
    method DisconnectUser(username: string)
      requires Valid()
      modifies this
      ensures Valid()
      ensures connections == old(connections) - {username}
    {
      connections := connections - {username};
    }

    /**
     * broadcast: send the frame of `username` and `message` once per
     * registered entry. A socket gets one copy for each key it is registered
     * under; no other socket is sent anything, and the registry is unchanged.
     */
    method Broadcast(username: string, message: string)
      requires Valid()
      modifies connections.Values
      ensures Valid() && connections == old(connections)
      ensures forall s :: s in connections.Values ==>
                s.sent == old(s.sent) + Copies(Frame(username, message), Count(connections, s))
    {
      var frame := Frame(username, message);
      var pending := connections.Keys;
      ghost var done: set<string> := {};
      ghost var before := map s | s in connections.Values :: s.sent;
      assert SentCopies(connections, before, frame, done);
      while pending != {}
        invariant pending !! done && pending + done == connections.Keys
        invariant connections == old(connections)
        invariant Valid()
        invariant SentCopies(connections, before, frame, done)
        decreases pending
      {
        var u :| u in pending;
        MoveToDone(pending, done, connections.Keys, u);
        SendTo(u, frame, before, done);
        pending := pending - {u};
        done := done + {u};
      }
    }

    /**
     * One turn of broadcast's loop: the socket registered under `u` is sent
     * the frame, no other socket anything, so each socket has now received
     * one copy per key it holds among `done` and `u`.
     */
    method SendTo(u: string, frame: Frame, ghost before: map<Socket, seq<Frame>>, ghost done: set<string>)
      requires Valid() && u in connections && u !in done
      requires SentCopies(connections, before, frame, done)
      modifies connections[u]
      ensures Valid()
      ensures forall s :: s in connections.Values ==>
                s.sent == old(s.sent) + (if s == connections[u] then [frame] else [])
      ensures SentCopies(connections, before, frame, done + {u})
    {
      connections[u].SendText(frame);
      forall s | s in connections.Values
        ensures s.sent == before[s] + Copies(frame, |KeysOf(connections, s, done + {u})|)
      {
        KeysOfStep(connections, done, u, s);
      }
    }
  }

  /** Disconnecting twice leaves the registry as disconnecting once does. */
  lemma DisconnectIdempotent(m: map<string, Socket>, username: string)
    ensures (m - {username}) - {username} == m - {username}
    ensures forall k :: k in m && k != username ==> k in m - {username} && (m - {username})[k] == m[k]
  {
  }
}
