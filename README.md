# Chat server core: message store and presence registry

This project models the two pieces of in-memory logic of the chat server:

- **The message controllers** (`server/controllers/messageController.js`). The
  Mongo `Message` collection is a sequence of records in store order. Each
  record has an id, a sender, a receiver, an optional text, an optional image
  URL and a seen flag. Each query is a predicate over those fields, and each
  update changes seen flags in place. `MessageStore` is a class over that
  sequence, with one method per controller:
  - `getUserForSideBar`: the other users, plus the map of unseen counts per sender.
  - `getMessages`: the two-way `$or` conversation, then the bulk mark-seen.
  - `markMessageasSeen`: the single-record mark-seen.
  - `sendMessage`: append one record, then push it to the receiver's socket.

  The pure queries and updates live in module `Messages` with their lemmas.
- **The presence registry** (`server/server.js`, lines 19–35).
  `userSocketMap` is the class `Presence.Registry`. Its `keys` field holds
  `Object.keys` order and its `socketOf` field holds the map itself. The
  `connection` and `disconnect` handlers are methods that return the
  `getOnlineUsers` broadcast as a value.

Modelling choices:

- The authenticated user id, the user directory (`User.find`) and the
  uploaded image's URL are inputs.
- The `newMessage` emit is returned as a `Push` value. The `getOnlineUsers`
  emit is returned as a `Broadcast` value.
- A handshake `userId` is an `Option<string>`. It registers only when truthy,
  that is present and non-empty. A disconnect deletes the property name JavaScript uses, so a
  missing id deletes the key `"undefined"`.
- A push happens only when `userSocketMap[receiverId]` is truthy, that is
  present and not `""`.
- Message ids come from a counter. `MessageStore.Valid()` keeps them unique.
  `findByIdAndUpdate` updates the first record with the id. Under unique ids
  that is exactly the record with that id.

The model keeps these behaviours of the code:

- The conversation comes back in store order, with no sort by creation time.
- `markMessageasSeen` with an unknown id still replies success. There is no not-found error.
- `sendMessage` does not check that a text or an image is present.
- A disconnect deletes by user id only, not by connection. See the finding below.
  `DisconnectOwned` is the separate, connection-keyed variant.

## Model

| member | source | states |
|---|---|---|
| Presence.Truthy | server/server.js:24-27 | a truthy handshake id is present and non-empty, and the disconnect deletes it under the same key it was registered under; a falsy id makes the disconnect delete `""` or `"undefined"` |
| Presence.PropertyKey | server/server.js:33 | the property name `delete userSocketMap[userId]` uses: the id itself, or `"undefined"` for a missing id (its properties are stated by `Presence.Truthy`) |
| Presence.Without | server/server.js:33 | deleting a key from `Object.keys` leaves exactly the other keys and keeps them distinct; an absent key changes nothing |
| Presence.WithoutAt | server/server.js:33 | deleting a key from a duplicate-free key list keeps the other keys in their insertion order |
| Presence.Registry.constructor | server/server.js:20 | the registry starts empty and satisfies its invariant (keys distinct, keys list = map domain) |
| Presence.Registry.OnlineIds | server/server.js:29 | the broadcast list has no duplicates and holds exactly the users that have an entry |
| Presence.Registry.Lookup | server/server.js:20 | `userSocketMap[userId]` finds a socket exactly when the user is listed in the online broadcast |
| Presence.Registry.Connect | server/server.js:23-29 | a truthy user id maps to the new socket, overwriting an older one, so a lookup of that user now finds the new socket; every other entry stays the same; a new user goes at the end of the key order; a missing or empty id changes nothing; the broadcast is the key list after the change |
| Presence.Registry.Disconnect | server/server.js:31-35 | the entry under the socket's user id is removed whichever socket holds it, so a lookup of that key finds nothing; nothing else changes; an absent id is a no-op, but the broadcast of the current keys is still emitted |
| Presence.Registry.DisconnectOwned | server/server.js:31-35 | corrected variant: removes the entry only when it still names this socket, so every entry held by another socket survives; broadcasts the keys |
| Presence.StaleDisconnect | server/server.js:27-34 | as written: connect(U,s1), connect(U,s2), disconnect(s1) broadcasts [U], [U], [] and leaves U with no socket; the reconnect leaves a single entry |
| Presence.StaleDisconnectOwned | server/server.js:27-34 | with the connection-keyed disconnect, the same events broadcast [U] three times and leave U registered to s2 |
| Presence.ConnectThenDisconnect | server/server.js:27-34 | connecting then disconnecting a user on a fresh registry broadcasts [U] and then [] |
| Messages.Conversation | server/controllers/messageController.js:42-47 | a record is in the conversation iff it is in the store and its (sender, receiver) is (me, peer) or (peer, me) |
| Messages.ConversationConcat | server/controllers/messageController.js:42-47 | the filter distributes over concatenation, so records come back in store order with no extra sort |
| Messages.ConversationSymmetric | server/controllers/messageController.js:42-47 | the conversation of (me, peer) equals that of (peer, me) |
| Messages.ConversationAfterAppend | server/controllers/messageController.js:81-86 | a record appended between the pair becomes the last element of their conversation; a record with a fresh id appears there exactly once |
| Messages.UnseenCount | server/controllers/messageController.js:16-22 | the count of the unseen query is at most the store size, and it is positive iff some record has that sender, receiver = viewer and seen = false |
| Messages.UnseenCountConcat | server/controllers/messageController.js:16-20 | unseen counts add up over concatenated stores |
| Messages.MapSumOfCounts | server/controllers/messageController.js:13-25 | a map whose values are unseen counts sums to the number of unseen records addressed to the viewer from its keys |
| Messages.UnseenFromAnyIgnoresSilent | server/controllers/messageController.js:22-24 | leaving out senders with zero unseen records does not change the total |
| Messages.MarkSeenFrom | server/controllers/messageController.js:49 | `updateMany({ senderId: from, receiverId: to }, { seen: true })` keeps the number of records (which records change is stated by `Messages.MarkSeenFromAt`) |
| Messages.MarkSeenFromAt | server/controllers/messageController.js:49 | after the bulk update, exactly the records from peer to me have seen = true, with their other fields unchanged; every other record is unchanged |
| Messages.MarkSeenFromIdempotent | server/controllers/messageController.js:49 | applying the bulk mark-seen twice gives the same store as applying it once |
| Messages.UnseenAfterMarkSeenFrom | server/controllers/messageController.js:49 | after the bulk update no unseen record from peer to me remains, and every other pair keeps its unseen count |
| Messages.MarkSeenFromKeepsIds | server/controllers/messageController.js:49 | the bulk update keeps every id, so unique ids stay unique |
| Messages.MarkSeenById | server/controllers/messageController.js:61 | the update by id keeps the store's length, and an unknown id leaves the store unchanged |
| Messages.MarkSeenByIdAt | server/controllers/messageController.js:61 | with unique ids, exactly the record with that id gets seen = true and nothing else changes |
| Messages.MarkSeenByIdIdempotent | server/controllers/messageController.js:61 | marking the same id twice gives the same store as marking it once |
| Messages.MarkSeenByIdKeepsIds | server/controllers/messageController.js:61 | the update by id keeps every id, so unique ids stay unique |
| MessageController.OtherUsers | server/controllers/messageController.js:10 | the sidebar lists a user iff the user is in the directory and is not the viewer |
| MessageController.ReceiverSocket | server/controllers/messageController.js:89-90 | a socket is chosen only for a receiver listed as online, it is the receiver's registered socket and never `""`; otherwise the receiver is offline or registered with `""` |
| MessageController.MessageStore.GetUsersForSidebar | server/controllers/messageController.js:7-29 | the users are the directory minus the viewer; the map has a key u iff u is listed and has an unseen record to the viewer, with that count as its value; the viewer is never a key; the values sum to the unseen records addressed to the viewer from the other users |
| MessageController.MessageStore.GetMessages | server/controllers/messageController.js:37-51 | returns the conversation of the store as it was before the update, so with the old seen flags; then the store becomes the bulk mark-seen of peer to me, keeping its invariant |
| MessageController.MessageStore.MarkMessageSeen | server/controllers/messageController.js:58-62 | the store becomes the update by id (unchanged for an unknown id), and the reply is success either way |
| MessageController.MessageStore.SendMessage | server/controllers/messageController.js:69-94 | appends exactly one record with a fresh id, the given sender, receiver, text and image URL, and seen = false; earlier records stay untouched; the result is a push of that record to the receiver's socket iff the registry holds a truthy socket id for the receiver; the record is returned either way |
| MessageController.OfflineDeliveryScenario | server/controllers/messageController.js:81-92 | A sends "hi" to B while B is offline: no push; B connects and the broadcast is [B]; B opens the conversation and gets the record with seen = false; B's sidebar then shows no unseen count for A |
| MessageController.LiveDeliveryScenario | server/controllers/messageController.js:89-91 | when B is online, the image message from A is pushed to B's socket with the stored record |

## Left out

- Mongo, Cloudinary, Express and Socket.IO I/O: queries are functions over the sequence, the upload is its URL, and emits are returned values with no delivery.
- `createdAt` timestamps and the `Message` schema's validation: neither is part of the code this model covers.
- Catch paths: they log only, and sometimes send no response. This includes the cast error Mongo raises for an id that is not an ObjectId. The model takes message ids as numbers.
- User ids are strings compared for equality. ObjectId-to-string conversion is not modelled.
- Concurrency: `Promise.all` in the sidebar and interleaved handlers are modelled as sequential steps.
- User accounts, login, the JWT middleware and the React client are not part of this model.
- The sidebar returns user ids, not user documents without their password.
- Presence.Registry.OnlineIds: keys that look like array indices, which JavaScript lists first in ascending order, are kept in insertion order like all other keys.
- Keys inherited from `Object.prototype`, such as `"constructor"` or `"__proto__"`, are not modelled: `userSocketMap` is treated as a plain dictionary.

## Findings

| source | as written | input that shows it | evidently intended | confidence | as-written member | corrected member |
|---|---|---|---|---|---|---|
| server/server.js:33 | the disconnect handler deletes `userSocketMap[userId]` whatever socket is registered there now | user U connects on s1 and again on s2, then s1 disconnects: U is reported offline while s2 is still open | delete the entry only while it still names the disconnecting socket | medium, not executed | Presence.StaleDisconnect | Presence.Registry.DisconnectOwned |
