/**
 * The four controllers of server/controllers/messageController.js over a
 * store that holds the Message collection in store order. The user directory
 * and the authenticated user id are inputs; the Cloudinary upload is its
 * resulting URL; the `newMessage` emit is returned as a value.
 */
module MessageController {
  import opened Options
  import opened Messages
  import Presence

  /** `io.to(socketId).emit("newMessage", message)`, as a value. */
  datatype Push = NewMessage(socketId: Presence.SocketId, message: Message)

  /** `User.find({ _id: { $ne: viewer } })` over the user directory, in directory order. */
  function OtherUsers(directory: seq<UserId>, viewer: UserId): (r: seq<UserId>)
    ensures forall u :: u in r <==> u in directory && u != viewer
    ensures |r| <= |directory|
  {
    if directory == [] then []
    else (if directory[0] != viewer then [directory[0]] else []) + OtherUsers(directory[1..], viewer)
  }

  /** `userSocketMap[receiverId]` when it is truthy: only a user listed as
      online has one, and it is never the empty string. */
  function ReceiverSocket(registry: Presence.Registry, receiverId: UserId): (s: Option<Presence.SocketId>)
    reads registry
    requires registry.Valid()
    ensures s.Some? ==> receiverId in registry.OnlineIds() && s.value != ""
    ensures s.Some? ==> registry.Lookup(receiverId) == s
    ensures s.None? ==> receiverId !in registry.OnlineIds() || registry.Lookup(receiverId) == Some("")
  {
    match registry.Lookup(receiverId)
    case None => None
    case Some(id) => if id != "" then Some(id) else None
  }

  class MessageStore {
    /** The Message collection, in store order. */
    var records: seq<Message>
    /** Where the next generated id comes from. */
    var nextId: nat

    ghost predicate Valid()
      reads this
    {
      && UniqueIds(records)
      && (forall m :: m in records ==> m.id < nextId)
    }

    constructor ()
      ensures Valid()
      ensures records == [] && nextId == 0
    {
      records := [];
      nextId := 0;
    }

    /** `getUserForSideBar`: every user but the viewer, and for each of them
        with unseen records addressed to the viewer, how many. */
    method GetUsersForSidebar(directory: seq<UserId>, viewer: UserId)
        returns (users: seq<UserId>, unseen: map<UserId, nat>)
      ensures users == OtherUsers(directory, viewer)
      ensures forall u :: u in unseen <==> u in users && UnseenCount(records, u, viewer) > 0
      ensures forall u :: u in unseen ==> unseen[u] == UnseenCount(records, u, viewer)
      ensures viewer !in unseen
      ensures MapSum(unseen) == UnseenFromAny(records, (set u | u in directory && u != viewer), viewer)
    {
      users := OtherUsers(directory, viewer);
      unseen := map[];
      for i := 0 to |users|
        invariant forall u :: u in unseen <==> u in users[..i] && UnseenCount(records, u, viewer) > 0
        invariant forall u :: u in unseen ==> unseen[u] == UnseenCount(records, u, viewer)
      {
        var n := UnseenCount(records, users[i], viewer);
        if n > 0 {
          unseen := unseen[users[i] := n];
        }
      }
      assert users[..|users|] == users;
      MapSumOfCounts(unseen, records, viewer);
      UnseenFromAnyIgnoresSilent(records, unseen.Keys, (set u | u in directory && u != viewer), viewer);
    }

    /** `getMessages`: the conversation as it stood, then every record from
        the peer to the caller marked seen. */
    method GetMessages(me: UserId, peer: UserId) returns (messages: seq<Message>)
      requires Valid()
      modifies this
      ensures Valid()
      ensures messages == Conversation(old(records), me, peer)
      ensures records == MarkSeenFrom(old(records), peer, me)
      ensures nextId == old(nextId)
    {
      messages := Conversation(records, me, peer);
      MarkSeenFromKeepsIds(records, peer, me);
      ghost var before := records;
      records := MarkSeenFrom(records, peer, me);
      forall m | m in records
        ensures m.id < nextId
      {
        var i :| 0 <= i < |records| && records[i] == m;
        assert before[i] in before;
      }
    }

    /** `markMessageasSeen`: set the seen flag of the record with that id;
        an unknown id changes nothing and the reply is success either way. */
    method MarkMessageSeen(id: MessageId) returns (success: bool)
      requires Valid()
      modifies this
      ensures Valid()
      ensures records == MarkSeenById(old(records), id)
      ensures nextId == old(nextId)
      ensures success
    {
      MarkSeenByIdKeepsIds(records, id);
      ghost var before := records;
      records := MarkSeenById(records, id);
      forall m | m in records
        ensures m.id < nextId
      {
        var i :| 0 <= i < |records| && records[i] == m;
        assert before[i] in before;
      }
      success := true;
    }

    /** `sendMessage`: append the new record, then push it to the receiver's
        socket when the registry holds a truthy one; the reply is the record. */
    method SendMessage(senderId: UserId, receiverId: UserId, text: Option<string>,
                       imageUrl: Option<string>, registry: Presence.Registry)
        returns (newMessage: Message, push: Option<Push>)
      requires Valid() && registry.Valid()
      modifies this
      ensures Valid()
      ensures newMessage == Message(old(nextId), senderId, receiverId, text, imageUrl, false)
      ensures forall m :: m in old(records) ==> m.id != newMessage.id
      ensures records == old(records) + [newMessage]
      ensures push.Some? <==> receiverId in registry.socketOf && registry.socketOf[receiverId] != ""
      ensures push.Some? ==> push.value == NewMessage(registry.socketOf[receiverId], newMessage)
    {
      newMessage := Message(nextId, senderId, receiverId, text, imageUrl, false);
      records := records + [newMessage];
      nextId := nextId + 1;
      var socket := ReceiverSocket(registry, receiverId);
      push := None;
      if socket.Some? {
        push := Some(NewMessage(socket.value, newMessage));
      }
    }
  }

  /** A sends "hi" to B while B is offline; B connects and opens the
      conversation with A; B's sidebar then shows nothing unseen from A. */
  method OfflineDeliveryScenario(a: UserId, b: UserId, bSocket: Presence.SocketId)
      returns (push: Option<Push>, online: Presence.Broadcast, history: seq<Message>, unseen: map<UserId, nat>)
    requires a != b && b != ""
    ensures push == None
    ensures online == Presence.GetOnlineUsers([b])
    ensures history == [Message(0, a, b, Some("hi"), None, false)]
    ensures a !in unseen
  {
    var store := new MessageStore();
    var registry := new Presence.Registry();
    var sent;
    sent, push := store.SendMessage(a, b, Some("hi"), None, registry);
    assert store.records == [sent];
    online := registry.Connect(Presence.Socket(bSocket, Some(b)));
    assert online == Presence.GetOnlineUsers([b]);
    history := store.GetMessages(b, a);
    assert [sent][1..] == [];
    assert history == [sent];
    UnseenAfterMarkSeenFrom([sent], a, b, a, b);
    assert UnseenCount(store.records, a, b) == 0;
    var users;
    users, unseen := store.GetUsersForSidebar([a, b], b);
  }

  /** A sends an image to B while B is online: the stored record is pushed
      to B's socket. */
  method LiveDeliveryScenario(a: UserId, b: UserId, bSocket: Presence.SocketId, url: string)
      returns (sent: Message, push: Option<Push>)
    requires b != "" && bSocket != ""
    ensures sent == Message(0, a, b, None, Some(url), false)
    ensures push == Some(NewMessage(bSocket, sent))
  {
    var store := new MessageStore();
    var registry := new Presence.Registry();
    var online := registry.Connect(Presence.Socket(bSocket, Some(b)));
    sent, push := store.SendMessage(a, b, None, Some(url), registry);
  }
}
