/**
 * The records shared by the store slices: rooms, categories, messages, users,
 * notifications and moderation audit entries. Timestamps are milliseconds since
 * the epoch, as whole numbers.
 */
module Entities {
  import opened Wrappers

  datatype RoomType = TextRoom | VoiceRoom | VideoRoom | DirectMessage

  datatype Room = Room(
    id: string,
    spaceId: string,
    name: string,
    kind: RoomType,
    category: Option<string>,
    sortOrder: Option<int>,
    unreadCount: int)
  {
    predicate IsDm()
    {
      kind == DirectMessage
    }
  }

  datatype Category = Category(id: string, name: string, order: int)

  datatype Reaction = Reaction(emoji: string, userIds: seq<string>)

  datatype DeliveryStatus = Sent | Queued

  datatype Message = Message(
    id: string,
    roomId: string,
    authorId: string,
    body: string,
    timestamp: int,
    reactions: seq<Reaction>,
    attachmentCount: nat,
    replyToId: Option<string>,
    threadRootId: Option<string>,
    pinned: bool,
    system: bool,
    status: Option<DeliveryStatus>)

  datatype UserStatus = Online | Idle | DoNotDisturb | Offline

  datatype User = User(
    id: string,
    name: string,
    avatar: string,
    avatarUrl: Option<string>,
    status: UserStatus,
    roles: seq<string>,
    roleColor: Option<string>)

  /** A notification; its id and timestamp come from `uid("n")` and the clock, given by the caller. */
  datatype Notification = Notification(id: string, title: string, body: string, timestamp: int)

  datatype AuditEvent = AuditEvent(
    id: string,
    action: string,
    actorId: string,
    target: string,
    timestamp: int,
    sourceEventId: Option<string>)

  /** `rooms.find((room) => room.id === id)`. */
  function FindRoom(rooms: seq<Room>, id: string): (r: Option<Room>)
    ensures r.Some? ==> r.value in rooms && r.value.id == id
    ensures r.None? <==> forall i :: 0 <= i < |rooms| ==> rooms[i].id != id
  {
    if rooms == [] then None
    else if rooms[0].id == id then Some(rooms[0])
    else FindRoom(rooms[1..], id)
  }
}
