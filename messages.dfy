/**
 * The Message collection of server/controllers/messageController.js, seen
 * as the sequence of its records in store order, with the queries and
 * updates the controllers issue against it stated as functions.
 */
module Messages {
  import opened Options

  type UserId = string
  type MessageId = nat

  /** One record: `image` is the stored Cloudinary URL, `seen` starts false. */
  datatype Message = Message(
    id: MessageId,
    senderId: UserId,
    receiverId: UserId,
    text: Option<string>,
    image: Option<string>,
    seen: bool)

  /** Mongo's generated `_id`s are unique within the collection. */
  predicate UniqueIds(s: seq<Message>)
  {
    forall i, j :: 0 <= i < j < |s| ==> s[i].id != s[j].id
  }

  // ---------------------------------------------------------------------
  // getMessages: the `$or` filter
  // ---------------------------------------------------------------------

  /** `{ senderId: me, receiverId: peer }` or `{ senderId: peer, receiverId: me }`. */
  predicate Between(m: Message, me: UserId, peer: UserId)
  {
    (m.senderId == me && m.receiverId == peer) || (m.senderId == peer && m.receiverId == me)
  }

  /** The records between `me` and `peer`, in store order. */
  function Conversation(s: seq<Message>, me: UserId, peer: UserId): (r: seq<Message>)
    ensures forall m :: m in r <==> m in s && Between(m, me, peer)
    ensures |r| <= |s|
  {
    if s == [] then []
    else (if Between(s[0], me, peer) then [s[0]] else []) + Conversation(s[1..], me, peer)
  }

  /** Filtering distributes over concatenation: the order of the store is kept. */
  lemma {:induction false} ConversationConcat(s: seq<Message>, t: seq<Message>, me: UserId, peer: UserId)
    ensures Conversation(s + t, me, peer) == Conversation(s, me, peer) + Conversation(t, me, peer)
  {
    if s == [] {
      assert s + t == t;
    } else {
      assert (s + t)[0] == s[0];
      assert (s + t)[1..] == s[1..] + t;
      ConversationConcat(s[1..], t, me, peer);
    }
  }

  /** Both participants read the same conversation. */
  lemma {:induction false} ConversationSymmetric(s: seq<Message>, me: UserId, peer: UserId)
    ensures Conversation(s, me, peer) == Conversation(s, peer, me)
  {
    if s != [] {
      ConversationSymmetric(s[1..], me, peer);
    }
  }

  /** A record appended between the two users ends their conversation, and
      when its id is fresh no earlier record of the conversation carries it. */
  lemma ConversationAfterAppend(s: seq<Message>, m: Message, me: UserId, peer: UserId)
    requires Between(m, me, peer)
    requires forall x :: x in s ==> x.id != m.id
    ensures Conversation(s + [m], me, peer) == Conversation(s, me, peer) + [m]
    ensures forall x :: x in Conversation(s, me, peer) ==> x.id != m.id
  {
    ConversationConcat(s, [m], me, peer);
    assert [m][1..] == [];
  }

  // ---------------------------------------------------------------------
  // getUserForSideBar: counting unseen records
  // ---------------------------------------------------------------------

  /** `{ senderId: sender, receiverId: viewer, seen: false }`. */
  predicate UnseenFor(m: Message, sender: UserId, viewer: UserId)
  {
    m.senderId == sender && m.receiverId == viewer && !m.seen
  }

  /** `messages.length` of that query. */
  function UnseenCount(s: seq<Message>, sender: UserId, viewer: UserId): (n: nat)
    ensures n <= |s|
    ensures n > 0 <==> exists m :: m in s && UnseenFor(m, sender, viewer)
  {
    if s == [] then 0
    else (if UnseenFor(s[0], sender, viewer) then 1 else 0) + UnseenCount(s[1..], sender, viewer)
  }

  lemma {:induction false} UnseenCountConcat(s: seq<Message>, t: seq<Message>, sender: UserId, viewer: UserId)
    ensures UnseenCount(s + t, sender, viewer) == UnseenCount(s, sender, viewer) + UnseenCount(t, sender, viewer)
  {
    if s == [] {
      assert s + t == t;
    } else {
      assert (s + t)[0] == s[0];
      assert (s + t)[1..] == s[1..] + t;
      UnseenCountConcat(s[1..], t, sender, viewer);
    }
  }

  /** The number of unseen records addressed to `viewer` from any sender in `senders`. */
  function UnseenFromAny(s: seq<Message>, senders: set<UserId>, viewer: UserId): (n: nat)
    ensures n <= |s|
  {
    if s == [] then 0
    else (if s[0].senderId in senders && s[0].receiverId == viewer && !s[0].seen then 1 else 0)
         + UnseenFromAny(s[1..], senders, viewer)
  }

  /** Counting over a set of senders splits off one sender's count. */
  lemma {:induction false} UnseenFromAnySplit(s: seq<Message>, senders: set<UserId>, u: UserId, viewer: UserId)
    requires u in senders
    ensures UnseenFromAny(s, senders, viewer)
            == UnseenCount(s, u, viewer) + UnseenFromAny(s, senders - {u}, viewer)
  {
    if s != [] {
      UnseenFromAnySplit(s[1..], senders, u, viewer);
    }
  }

  /** Senders with no unseen records add nothing to the count. */
  lemma {:induction false} UnseenFromAnyIgnoresSilent(s: seq<Message>, a: set<UserId>, b: set<UserId>, viewer: UserId)
    requires a <= b
    requires forall u :: u in b - a ==> UnseenCount(s, u, viewer) == 0
    ensures UnseenFromAny(s, a, viewer) == UnseenFromAny(s, b, viewer)
    decreases |b - a|
  {
    if b - a == {} {
      assert a == b;
    } else {
      var u :| u in b - a;
      UnseenFromAnySplit(s, b, u, viewer);
      assert (b - {u}) - a == (b - a) - {u};
      UnseenFromAnyIgnoresSilent(s, a, b - {u}, viewer);
    }
  }

  /** The sum of a map's values. */
  ghost function MapSum(m: map<UserId, nat>): nat
    decreases |m|
  {
    if m == map[] then 0
    else
      var k :| k in m;
      assert |m - {k}| < |m| by { assert (m - {k}).Keys == m.Keys - {k}; }
      m[k] + MapSum(m - {k})
  }

  /** `MapSum` may start from any key. */
  lemma {:induction false} MapSumPick(m: map<UserId, nat>, k: UserId)
    requires k in m
    ensures MapSum(m) == m[k] + MapSum(m - {k})
    decreases |m|
  {
    var j :| j in m && MapSum(m) == m[j] + MapSum(m - {j});
    if j != k {
      assert (m - {j}).Keys == m.Keys - {j};
      assert (m - {k}).Keys == m.Keys - {k};
      MapSumPick(m - {j}, k);
      MapSumPick(m - {k}, j);
      assert m - {j} - {k} == m - {k} - {j};
    }
  }

  /** A map holding each key's unseen count sums to the unseen records from its keys. */
  lemma {:induction false} MapSumOfCounts(m: map<UserId, nat>, s: seq<Message>, viewer: UserId)
    requires forall u :: u in m ==> m[u] == UnseenCount(s, u, viewer)
    ensures MapSum(m) == UnseenFromAny(s, m.Keys, viewer)
    decreases |m|
  {
    if m == map[] {
      UnseenFromAnyIgnoresSilent(s, {}, {}, viewer);
      EmptyCount(s, viewer);
    } else {
      var k :| k in m;
      MapSumPick(m, k);
      assert (m - {k}).Keys == m.Keys - {k};
      MapSumOfCounts(m - {k}, s, viewer);
      UnseenFromAnySplit(s, m.Keys, k, viewer);
    }
  }

  lemma {:induction false} EmptyCount(s: seq<Message>, viewer: UserId)
    ensures UnseenFromAny(s, {}, viewer) == 0
  {
    if s != [] {
      EmptyCount(s[1..], viewer);
    }
  }

  // ---------------------------------------------------------------------
  // getMessages: `updateMany({ senderId: from, receiverId: to }, { seen: true })`
  // ---------------------------------------------------------------------

  /** Every record from `from` to `to` with its seen flag set. */
  function MarkSeenFrom(s: seq<Message>, from: UserId, to: UserId): (r: seq<Message>)
    ensures |r| == |s|
  {
    if s == [] then []
    else [if s[0].senderId == from && s[0].receiverId == to then s[0].(seen := true) else s[0]]
         + MarkSeenFrom(s[1..], from, to)
  }

  /** Exactly the records from `from` to `to` change, and only in their seen flag. */
  lemma {:induction false} MarkSeenFromAt(s: seq<Message>, from: UserId, to: UserId, i: nat)
    requires i < |s|
    ensures MarkSeenFrom(s, from, to)[i]
            == if s[i].senderId == from && s[i].receiverId == to then s[i].(seen := true) else s[i]
  {
    if i > 0 {
      MarkSeenFromAt(s[1..], from, to, i - 1);
    }
  }

  /** Marking twice leaves the same store as marking once. */
  lemma {:induction false} MarkSeenFromIdempotent(s: seq<Message>, from: UserId, to: UserId)
    ensures MarkSeenFrom(MarkSeenFrom(s, from, to), from, to) == MarkSeenFrom(s, from, to)
  {
    if s != [] {
      MarkSeenFromIdempotent(s[1..], from, to);
    }
  }

  /** After the update nothing from `from` to `to` is unseen, and every other
      sender/receiver pair keeps its unseen count. */
  lemma {:induction false} UnseenAfterMarkSeenFrom(s: seq<Message>, from: UserId, to: UserId, sender: UserId, viewer: UserId)
    ensures UnseenCount(MarkSeenFrom(s, from, to), sender, viewer)
            == if sender == from && viewer == to then 0 else UnseenCount(s, sender, viewer)
  {
    if s != [] {
      UnseenAfterMarkSeenFrom(s[1..], from, to, sender, viewer);
    }
  }

  /** The ids are untouched, so unique ids stay unique. */
  lemma {:induction false} MarkSeenFromKeepsIds(s: seq<Message>, from: UserId, to: UserId)
    ensures forall i :: 0 <= i < |s| ==> MarkSeenFrom(s, from, to)[i].id == s[i].id
    ensures UniqueIds(s) ==> UniqueIds(MarkSeenFrom(s, from, to))
  {
    forall i | 0 <= i < |s|
      ensures MarkSeenFrom(s, from, to)[i].id == s[i].id
    {
      MarkSeenFromAt(s, from, to, i);
    }
  }

  // ---------------------------------------------------------------------
  // markMessageasSeen: `findByIdAndUpdate(id, { seen: true })`
  // ---------------------------------------------------------------------

  predicate HasId(s: seq<Message>, id: MessageId)
  {
    exists m :: m in s && m.id == id
  }

  /** The first record with that id gets its seen flag set; with no such record
      the store is unchanged. */
  function MarkSeenById(s: seq<Message>, id: MessageId): (r: seq<Message>)
    ensures |r| == |s|
    ensures !HasId(s, id) ==> r == s
  {
    if s == [] then []
    else if s[0].id == id then [s[0].(seen := true)] + s[1..]
    else [s[0]] + MarkSeenById(s[1..], id)
  }

  /** With unique ids, exactly the record carrying `id` changes, and only in its seen flag. */
  lemma {:induction false} MarkSeenByIdAt(s: seq<Message>, id: MessageId, i: nat)
    requires UniqueIds(s)
    requires i < |s|
    ensures MarkSeenById(s, id)[i] == if s[i].id == id then s[i].(seen := true) else s[i]
  {
    if s[0].id != id && i > 0 {
      MarkSeenByIdAt(s[1..], id, i - 1);
    } else if s[0].id == id && i > 0 {
      assert s[i].id != id by { assert s[0].id != s[i].id; }
    }
  }

  /** Marking the same id twice leaves the same store as marking it once. */
  lemma {:induction false} MarkSeenByIdIdempotent(s: seq<Message>, id: MessageId)
    ensures MarkSeenById(MarkSeenById(s, id), id) == MarkSeenById(s, id)
  {
    if s != [] && s[0].id != id {
      MarkSeenByIdIdempotent(s[1..], id);
    }
  }

  lemma {:induction false} MarkSeenByIdKeepsIds(s: seq<Message>, id: MessageId)
    requires UniqueIds(s)
    ensures forall i :: 0 <= i < |s| ==> MarkSeenById(s, id)[i].id == s[i].id
    ensures UniqueIds(MarkSeenById(s, id))
  {
    forall i | 0 <= i < |s|
      ensures MarkSeenById(s, id)[i].id == s[i].id
    {
      MarkSeenByIdAt(s, id, i);
    }
  }
}
