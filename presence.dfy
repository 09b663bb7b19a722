/**
 * The presence registry of server/server.js: the module-level object
 * `userSocketMap` from user id to Socket.IO socket id, written by the
 * `connection` handler and erased by the `disconnect` handler, with the list
 * `Object.keys(userSocketMap)` broadcast as `getOnlineUsers` after each change.
 */
module Presence {
  import opened Options

  type SocketId = string

  /** What a connection brings: its socket id and `socket.handshake.query.userId`,
      which may be missing. */
  datatype Socket = Socket(id: SocketId, userId: Option<string>)

  /** The `io.emit("getOnlineUsers", ...)` event, as a value. */
  datatype Broadcast = GetOnlineUsers(userIds: seq<string>)

  /** JavaScript truthiness of the handshake user id: missing and "" are falsy.
      A truthy id is deleted on disconnect under the very key it was registered
      under; a falsy one deletes "" or "undefined". */
  predicate Truthy(userId: Option<string>)
    ensures Truthy(userId) ==> userId.Some? && PropertyKey(userId) == userId.value
    ensures !Truthy(userId) ==> PropertyKey(userId) in {"", "undefined"}
  {
    userId.Some? && userId.value != ""
  }

  /** The property name `userSocketMap[userId]` uses: a missing id becomes "undefined". */
  function PropertyKey(userId: Option<string>): string
  {
    match userId
    case None => "undefined"
    case Some(u) => u
  }

  predicate Distinct(s: seq<string>)
  {
    forall i, j :: 0 <= i < j < |s| ==> s[i] != s[j]
  }

  /** `s` with every occurrence of `k` taken out. */
  function Without(s: seq<string>, k: string): (r: seq<string>)
    ensures forall x :: x in r <==> x in s && x != k
    ensures Distinct(s) ==> Distinct(r)
    ensures k !in s ==> r == s
    ensures |r| <= |s|
  {
    if s == [] then []
    else if s[0] == k then Without(s[1..], k)
    else
      assert Distinct(s) ==> s[0] !in s[1..];
      [s[0]] + Without(s[1..], k)
  }

  /** Deleting a key from a duplicate-free list keeps the other keys in their order. */
  lemma {:induction false} WithoutAt(s: seq<string>, p: nat)
    requires Distinct(s) && p < |s|
    ensures Without(s, s[p]) == s[..p] + s[p + 1..]
  {
    if p == 0 {
      assert s[0] !in s[1..];
    } else {
      WithoutAt(s[1..], p - 1);
      assert s[1..][p - 1] == s[p];
      assert s[..p] == [s[0]] + s[1..][..p - 1];
      assert s[p + 1..] == s[1..][p..];
    }
  }

  class Registry {
    /** `Object.keys(userSocketMap)`: the keys in the order they were first inserted. */
    var keys: seq<string>
    /** `userSocketMap` itself. */
    var socketOf: map<string, SocketId>

    ghost predicate Valid()
      reads this
    {
      && Distinct(keys)
      && (forall k :: k in socketOf <==> k in keys)
    }

    /** `export const userSocketMap = {}` */
    constructor ()
      ensures Valid()
      ensures keys == [] && socketOf == map[]
    {
      keys := [];
      socketOf := map[];
    }

    /** The ids listed as online: one per entry, in key order. */
    function OnlineIds(): (ids: seq<string>)
      reads this
      requires Valid()
      ensures Distinct(ids)
      ensures forall u :: u in ids <==> u in socketOf
    {
      keys
    }

    /** `userSocketMap[userId]`: the socket registered for a user, if any;
        a user has one exactly when the broadcast lists them as online. */
    function Lookup(userId: string): (s: Option<SocketId>)
      reads this
      ensures Valid() ==> (s.Some? <==> userId in OnlineIds())
    {
      if userId in socketOf then Some(socketOf[userId]) else None
    }

    /** The `connection` handler: register a truthy user id under the new
        socket, overwriting any earlier socket, then broadcast the keys. */
    method Connect(socket: Socket) returns (b: Broadcast)
      requires Valid()
      modifies this
      ensures Valid()
      ensures Truthy(socket.userId) ==>
                && socketOf == old(socketOf)[socket.userId.value := socket.id]
                && keys == if socket.userId.value in old(socketOf) then old(keys)
                           else old(keys) + [socket.userId.value]
      ensures !Truthy(socket.userId) ==> keys == old(keys) && socketOf == old(socketOf)
      ensures Truthy(socket.userId) ==> Lookup(socket.userId.value) == Some(socket.id)
      ensures b == GetOnlineUsers(OnlineIds())
    {
      if Truthy(socket.userId) {
        var u := socket.userId.value;
        if u !in socketOf {
          keys := keys + [u];
        }
        socketOf := socketOf[u := socket.id];
      }
      b := GetOnlineUsers(keys);
    }

    /** The `disconnect` handler as written: delete the entry under the
        socket's user id, whichever socket holds it now, then broadcast. */
    method Disconnect(socket: Socket) returns (b: Broadcast)
      requires Valid()
      modifies this
      ensures Valid()
      ensures socketOf == old(socketOf) - {PropertyKey(socket.userId)}
      ensures keys == Without(old(keys), PropertyKey(socket.userId))
      ensures Lookup(PropertyKey(socket.userId)) == None
      ensures b == GetOnlineUsers(OnlineIds())
    {
      var k := PropertyKey(socket.userId);
      socketOf := socketOf - {k};
      keys := Without(keys, k);
      b := GetOnlineUsers(keys);
    }

    /** The connection-keyed variant: delete the entry only while it still
        names this socket, so a stale socket leaves a newer one alone. */
    method DisconnectOwned(socket: Socket) returns (b: Broadcast)
      requires Valid()
      modifies this
      ensures Valid()
      ensures var k := PropertyKey(socket.userId);
              if k in old(socketOf) && old(socketOf)[k] == socket.id
              then socketOf == old(socketOf) - {k} && keys == Without(old(keys), k)
              else socketOf == old(socketOf) && keys == old(keys)
      ensures forall u :: u in old(socketOf) && old(socketOf)[u] != socket.id ==>
                u in socketOf && socketOf[u] == old(socketOf)[u]
      ensures b == GetOnlineUsers(OnlineIds())
    {
      var k := PropertyKey(socket.userId);
      if k in socketOf && socketOf[k] == socket.id {
        socketOf := socketOf - {k};
        keys := Without(keys, k);
      }
      b := GetOnlineUsers(keys);
    }
  }

  /** Two connections of one user and the first one's disconnect, with the
      handlers as written: the user ends up offline although the second
      socket is still open. */
  method StaleDisconnect(u: string, s1: SocketId, s2: SocketId)
      returns (broadcasts: seq<Broadcast>, last: Option<SocketId>)
    requires u != ""
    ensures broadcasts == [GetOnlineUsers([u]), GetOnlineUsers([u]), GetOnlineUsers([])]
    ensures last == None
  {
    var r := new Registry();
    var b1 := r.Connect(Socket(s1, Some(u)));
    assert b1 == GetOnlineUsers([u]);
    var b2 := r.Connect(Socket(s2, Some(u)));
    assert b2 == GetOnlineUsers([u]);
    var b3 := r.Disconnect(Socket(s1, Some(u)));
    assert b3 == GetOnlineUsers([]);
    assert [u][1..] == [];
    broadcasts := [b1, b2, b3];
    last := r.Lookup(u);
  }

  /** The same three events with the connection-keyed disconnect: the user
      stays online, registered under the second socket. */
  method StaleDisconnectOwned(u: string, s1: SocketId, s2: SocketId)
      returns (broadcasts: seq<Broadcast>, last: Option<SocketId>)
    requires u != "" && s1 != s2
    ensures broadcasts == [GetOnlineUsers([u]), GetOnlineUsers([u]), GetOnlineUsers([u])]
    ensures last == Some(s2)
  {
    var r := new Registry();
    var b1 := r.Connect(Socket(s1, Some(u)));
    assert b1 == GetOnlineUsers([u]);
    var b2 := r.Connect(Socket(s2, Some(u)));
    assert b2 == GetOnlineUsers([u]);
    var b3 := r.DisconnectOwned(Socket(s1, Some(u)));
    broadcasts := [b1, b2, b3];
    last := r.Lookup(u);
  }

  /** Connecting then disconnecting a user on a fresh registry leaves nobody online. */
  method ConnectThenDisconnect(u: string, s: SocketId) returns (broadcasts: seq<Broadcast>)
    requires u != ""
    ensures broadcasts == [GetOnlineUsers([u]), GetOnlineUsers([])]
  {
    var r := new Registry();
    var b1 := r.Connect(Socket(s, Some(u)));
    assert b1 == GetOnlineUsers([u]);
    var b2 := r.Disconnect(Socket(s, Some(u)));
    assert [u][1..] == [];
    assert b2 == GetOnlineUsers([]);
    broadcasts := [b1, b2];
  }
}
