/** The room service (lib/services/rooms.ts): the application-side guards in
    front of the `rooms` and `room_participants` tables. The tables are
    in-memory values: `rooms` keyed by id, `room_participants` as a
    sequence of rows. The signed-in user is a field. What the database
    generates (ids, timestamps, column defaults, the slug) is passed in. */
module Rooms {

  import opened Types
  import Seqs

  /** The failures the service reports. Database errors collapse into
      `ConstraintViolation` (a rejected insert) and `NoSingleRow` (a
      `.single()` that did not find exactly one row). A missing room in the
      owner check is such a `NoSingleRow`: the client always reports its own
      error there, so the service's "Room not found" fallback is never
      returned and has no case here. */
  datatype Error =
    | NotAuthenticated
    | Unauthorized
    | SlugGenerationFailed
    | ConstraintViolation
    | NoSingleRow

  /** The message of the `Error` the service constructs itself, which it
      returns when the client reports the failure without an error object
      of its own; the database's errors carry the database's message. */
  function Message(e: Error): (m: Option<string>)
    ensures m.None? <==> e == ConstraintViolation || e == NoSingleRow
  {
    match e
    case NotAuthenticated => Some("User not authenticated")
    case Unauthorized => Some("Unauthorized: You do not own this room")
    case SlugGenerationFailed => Some("Failed to generate room slug")
    case ConstraintViolation => None
    case NoSingleRow => None
  }

  datatype Result<+T> = Ok(value: T) | Err(error: Error)

  /** `CreateRoomData`. */
  datatype CreateRoomData = CreateRoomData(name: string, description: Option<string>)

  /** `UpdateRoomData`: absent fields are left alone. There is no field for
      the owner, the slug or the id. */
  datatype UpdateRoomData = UpdateRoomData(
    name: Option<string>,
    description: Option<string>,
    isPublic: Option<bool>,
    maxParticipants: Option<int>,
    isPersistent: Option<bool>)

  /** The column values the database fills in on insert. */
  datatype RoomDefaults = RoomDefaults(
    id: string,
    now: int,
    isPersistent: bool,
    isPublic: bool,
    maxParticipants: int,
    settings: Json)

  datatype RowDefaults = RowDefaults(id: string, now: int)

  /** A `rooms` row as `select('*, room_participants(count)')` returns it:
      the embedded counts, if any. */
  datatype RoomQueryRow = RoomQueryRow(room: Room, counts: Option<seq<nat>>)

  /** `RoomWithParticipantCount`. */
  datatype RoomWithCount = RoomWithCount(room: Room, participantCount: nat)

  // ------------------------------------------------------------ guards

  /** The three checks of every owner-gated operation, in their order:
      signed in, then the room exists (the owner lookup finds its row),
      then the caller owns it. */
  function OwnerGate(user: Option<string>, rooms: map<string, Room>, roomId: string): (e: Option<Error>)
    ensures e.None? <==> user.Some? && roomId in rooms && rooms[roomId].ownerId == user.value
    ensures e == Some(NotAuthenticated) <==> user.None?
    ensures e == Some(NoSingleRow) <==> user.Some? && roomId !in rooms
    ensures e == Some(Unauthorized) <==> user.Some? && roomId in rooms && rooms[roomId].ownerId != user.value
  {
    if user.None? then Some(NotAuthenticated)
    else if roomId !in rooms then Some(NoSingleRow)
    else if rooms[roomId].ownerId != user.value then Some(Unauthorized)
    else None
  }

  // ------------------------------------------------------------ table invariants

  /** The map key of each room is its id. */
  ghost predicate RoomsKeyed(rooms: map<string, Room>)
  {
    forall id :: id in rooms ==> rooms[id].id == id
  }

  /** The `rooms.slug` uniqueness constraint, assumed: the generated row
      types do not record it. */
  ghost predicate SlugsUnique(rooms: map<string, Room>)
  {
    forall a, b :: a in rooms && b in rooms && rooms[a].slug == rooms[b].slug ==> a == b
  }

  /** The `room_participants` primary key. */
  ghost predicate ParticipantIdsUnique(ps: seq<Participant>)
  {
    forall i, j :: 0 <= i < j < |ps| ==> ps[i].id != ps[j].id
  }

  /** At most one row per (room, signed-in user), assumed in the same way. */
  ghost predicate MembershipUnique(ps: seq<Participant>)
  {
    forall i, j :: 0 <= i < j < |ps| && ps[i].userId.Some? ==>
      !(ps[i].roomId == ps[j].roomId && ps[i].userId == ps[j].userId)
  }

  predicate SlugTaken(rooms: map<string, Room>, slug: string)
  {
    exists id :: id in rooms && rooms[id].slug == slug
  }

  // ------------------------------------------------------------ rows

  /** The row `createRoom` inserts: an empty or missing description is
      stored as null. */
  function NewRoom(data: CreateRoomData, owner: string, slug: string, d: RoomDefaults): (r: Room)
    ensures r.ownerId == owner && r.slug == slug && r.name == data.name && r.id == d.id
    ensures r.description.Some? <==> data.description.Some? && data.description.value != ""
    ensures r.description.Some? ==> r.description == data.description
  {
    Room(
      id := d.id,
      createdAt := d.now,
      description := if data.description.Some? && data.description.value != "" then data.description else None,
      isPersistent := d.isPersistent,
      isPublic := d.isPublic,
      maxParticipants := d.maxParticipants,
      name := data.name,
      ownerId := owner,
      settings := d.settings,
      slug := slug,
      updatedAt := d.now)
  }

  /** `.update(updates)`: the present fields of the patch replace the
      room's; nothing else changes. */
  function ApplyPatch(room: Room, patch: UpdateRoomData): (r: Room)
    ensures r.id == room.id && r.ownerId == room.ownerId && r.slug == room.slug
    ensures r.createdAt == room.createdAt && r.settings == room.settings && r.updatedAt == room.updatedAt
    ensures patch.name.None? ==> r.name == room.name
    ensures patch.description.None? ==> r.description == room.description
    ensures patch.isPublic.None? ==> r.isPublic == room.isPublic
    ensures patch.maxParticipants.None? ==> r.maxParticipants == room.maxParticipants
    ensures patch.isPersistent.None? ==> r.isPersistent == room.isPersistent
    ensures patch.name.Some? ==> r.name == patch.name.value
    ensures patch.description.Some? ==> r.description == Some(patch.description.value)
    ensures patch.isPublic.Some? ==> r.isPublic == patch.isPublic.value
    ensures patch.maxParticipants.Some? ==> r.maxParticipants == patch.maxParticipants.value
    ensures patch.isPersistent.Some? ==> r.isPersistent == patch.isPersistent.value
  {
    room.(
      name := if patch.name.Some? then patch.name.value else room.name,
      description := if patch.description.Some? then Some(patch.description.value) else room.description,
      isPublic := if patch.isPublic.Some? then patch.isPublic.value else room.isPublic,
      maxParticipants := if patch.maxParticipants.Some? then patch.maxParticipants.value else room.maxParticipants,
      isPersistent := if patch.isPersistent.Some? then patch.isPersistent.value else room.isPersistent)
  }

  /** Applying the same patch twice is applying it once. */
  lemma ApplyPatchIdempotent(room: Room, patch: UpdateRoomData)
    ensures ApplyPatch(ApplyPatch(room, patch), patch) == ApplyPatch(room, patch)
  {
  }

  /** A patch that carries every field determines the whole editable part:
      two rooms with the same id, owner, slug and timestamps become equal. */
  lemma FullPatchDetermines(a: Room, b: Room, patch: UpdateRoomData)
    requires patch.name.Some? && patch.description.Some? && patch.isPublic.Some?
    requires patch.maxParticipants.Some? && patch.isPersistent.Some?
    requires a.id == b.id && a.ownerId == b.ownerId && a.slug == b.slug
    requires a.createdAt == b.createdAt && a.settings == b.settings && a.updatedAt == b.updatedAt
    ensures ApplyPatch(a, patch) == ApplyPatch(b, patch)
  {
  }

  /** The participant count of a queried row: the first embedded count, or
      zero when the embedding is missing or empty (a zero count is zero
      either way). */
  function CountOrZero(counts: Option<seq<nat>>): (n: nat)
    ensures counts.Some? && |counts.value| > 0 ==> n == counts.value[0]
    ensures counts.None? || counts.value == [] ==> n == 0
  {
    if counts.Some? && |counts.value| > 0 then counts.value[0] else 0
  }

  function ToRoomWithCount(row: RoomQueryRow): RoomWithCount
  {
    RoomWithCount(row.room, CountOrZero(row.counts))
  }

  /** The listing `getUserRooms` builds from the query result: each row
      keeps its room and gains its count; a missing result is an empty
      listing. */
  function WithParticipantCount(rows: Option<seq<RoomQueryRow>>): (r: seq<RoomWithCount>)
    ensures rows.None? ==> r == []
    ensures rows.Some? ==> |r| == |rows.value|
    ensures rows.Some? ==> forall i :: 0 <= i < |r| ==>
      r[i].room == rows.value[i].room && r[i].participantCount == CountOrZero(rows.value[i].counts)
  {
    if rows.None? then [] else Seqs.Map(rows.value, ToRoomWithCount)
  }

  function RowCreatedAt(row: RoomQueryRow): int { row.room.createdAt }

  function ListingCreatedAt(e: RoomWithCount): int { e.room.createdAt }

  /** The mapping keeps a newest-first list newest-first. */
  lemma WithParticipantCountKeepsOrder(rows: seq<RoomQueryRow>)
    requires Seqs.SortedDesc(rows, RowCreatedAt)
    ensures Seqs.SortedDesc(WithParticipantCount(Some(rows)), ListingCreatedAt)
  {
    var r := WithParticipantCount(Some(rows));
    forall i, j | 0 <= i < j < |r| ensures ListingCreatedAt(r[i]) >= ListingCreatedAt(r[j]) {
      assert RowCreatedAt(rows[i]) >= RowCreatedAt(rows[j]);
    }
  }

  function InRoom(roomId: string): Participant -> bool
  {
    (p: Participant) => p.roomId == roomId
  }

  /** The number `room_participants(count)` reports for a room. */
  function ParticipantCount(ps: seq<Participant>, roomId: string): nat
  {
    if ps == [] then 0
    else (if ps[0].roomId == roomId then 1 else 0) + ParticipantCount(ps[1..], roomId)
  }

  function RowFor(rooms: map<string, Room>, ps: seq<Participant>, id: string): RoomQueryRow
    requires id in rooms
  {
    RoomQueryRow(rooms[id], Some([ParticipantCount(ps, id)]))
  }

  function ListingFor(rooms: map<string, Room>, ps: seq<Participant>, id: string): RoomWithCount
    requires id in rooms
  {
    RoomWithCount(rooms[id], ParticipantCount(ps, id))
  }

  ghost function OwnedIds(rooms: map<string, Room>, uid: string): set<string>
  {
    set id | id in rooms && rooms[id].ownerId == uid
  }

  /** What `getUserRooms` promises of its list: exactly the caller's rooms,
      each once, with its participant count, newest first. */
  ghost predicate OwnerListing(list: seq<RoomWithCount>, rooms: map<string, Room>, ps: seq<Participant>, uid: string)
  {
    && (forall i :: 0 <= i < |list| ==>
          list[i].room.id in rooms && list[i].room.ownerId == uid
          && list[i] == ListingFor(rooms, ps, list[i].room.id))
    && (forall id :: id in rooms && rooms[id].ownerId == uid ==> ListingFor(rooms, ps, id) in list)
    && (forall i, j :: 0 <= i < j < |list| ==> list[i].room.id != list[j].room.id)
    && |list| == |OwnedIds(rooms, uid)|
    && Seqs.SortedDesc(list, ListingCreatedAt)
  }

  /** Whether a row is the membership of `userId` in `roomId`. */
  function IsMembership(roomId: string, userId: string): Participant -> bool
  {
    (p: Participant) => p.roomId == roomId && p.userId == Some(userId)
  }

  function NotMembership(roomId: string, userId: string): Participant -> bool
  {
    (p: Participant) => !(p.roomId == roomId && p.userId == Some(userId))
  }

  /** The delete of `removeParticipant`: every row of that user in that
      room goes. */
  function WithoutMember(ps: seq<Participant>, roomId: string, userId: string): (r: seq<Participant>)
    ensures forall i :: 0 <= i < |r| ==> !IsMembership(roomId, userId)(r[i]) && r[i] in ps
    ensures forall i :: 0 <= i < |ps| && !IsMembership(roomId, userId)(ps[i]) ==> ps[i] in r
  {
    Seqs.Filter(ps, NotMembership(roomId, userId))
  }

  /** Removing the same member again changes nothing. */
  lemma WithoutMemberIdempotent(ps: seq<Participant>, roomId: string, userId: string)
    ensures WithoutMember(WithoutMember(ps, roomId, userId), roomId, userId) == WithoutMember(ps, roomId, userId)
  {
    Seqs.FilterIdempotent(ps, NotMembership(roomId, userId));
  }

  /** Rows of other rooms and other users survive, in their order. */
  lemma WithoutMemberSplits(a: seq<Participant>, b: seq<Participant>, roomId: string, userId: string)
    ensures WithoutMember(a + b, roomId, userId) == WithoutMember(a, roomId, userId) + WithoutMember(b, roomId, userId)
  {
    Seqs.FilterAppend(a, b, NotMembership(roomId, userId));
  }

  /** A table without the membership is left as it is. */
  lemma WithoutAbsentMember(ps: seq<Participant>, roomId: string, userId: string)
    requires forall i :: 0 <= i < |ps| ==> !IsMembership(roomId, userId)(ps[i])
    ensures WithoutMember(ps, roomId, userId) == ps
  {
    Seqs.FilterKeepsAll(ps, NotMembership(roomId, userId));
  }

  /** Under the membership uniqueness constraint, at most one row goes. */
  lemma {:induction false} WithoutMemberRemovesAtMostOne(ps: seq<Participant>, roomId: string, userId: string)
    requires MembershipUnique(ps)
    ensures |ps| - 1 <= |WithoutMember(ps, roomId, userId)| <= |ps|
  {
    if ps != [] {
      var rest := ps[1..];
      assert MembershipUnique(rest) by {
        forall i, j | 0 <= i < j < |rest| && rest[i].userId.Some?
          ensures !(rest[i].roomId == rest[j].roomId && rest[i].userId == rest[j].userId)
        {
          assert rest[i] == ps[i + 1] && rest[j] == ps[j + 1];
        }
      }
      if IsMembership(roomId, userId)(ps[0]) {
        forall i | 0 <= i < |rest| ensures !IsMembership(roomId, userId)(rest[i]) {
          assert rest[i] == ps[i + 1];
        }
        WithoutAbsentMember(rest, roomId, userId);
      } else {
        WithoutMemberRemovesAtMostOne(rest, roomId, userId);
      }
    }
  }

  function SetRoleOf(participantId: string, role: Role): Participant -> Participant
  {
    (p: Participant) => if p.id == participantId then p.(role := role) else p
  }

  /** The update of `updateParticipantRole`, filtered on the participant id
      alone: the rows with that id get the role, whatever room they are in;
      every other column and row stays. */
  function WithRole(ps: seq<Participant>, participantId: string, role: Role): (r: seq<Participant>)
    ensures |r| == |ps|
    ensures forall i :: 0 <= i < |ps| ==>
      r[i].id == ps[i].id && r[i].roomId == ps[i].roomId && r[i].userId == ps[i].userId
      && r[i].joinedAt == ps[i].joinedAt && r[i].lastSeen == ps[i].lastSeen
      && r[i].guestTokenId == ps[i].guestTokenId
    ensures forall i :: 0 <= i < |ps| ==> r[i].role == if ps[i].id == participantId then role else ps[i].role
  {
    Seqs.Map(ps, SetRoleOf(participantId, role))
  }

  /** Changing a role back restores the table. */
  lemma WithRoleUndo(ps: seq<Participant>, participantId: string, was: Role, role: Role)
    requires forall i :: 0 <= i < |ps| && ps[i].id == participantId ==> ps[i].role == was
    ensures WithRole(WithRole(ps, participantId, role), participantId, was) == ps
  {
    var r := WithRole(WithRole(ps, participantId, role), participantId, was);
    assert forall i :: 0 <= i < |ps| ==> r[i] == ps[i];
  }

  /** A role change keeps both uniqueness constraints. */
  lemma WithRoleKeepsConstraints(ps: seq<Participant>, participantId: string, role: Role)
    requires ParticipantIdsUnique(ps) && MembershipUnique(ps)
    ensures ParticipantIdsUnique(WithRole(ps, participantId, role))
    ensures MembershipUnique(WithRole(ps, participantId, role))
  {
  }

  /** The participants of one room, newest `joined_at` first. */
  ghost predicate RoomRoster(list: seq<Participant>, ps: seq<Participant>, roomId: string)
  {
    multiset(list) == multiset(Seqs.Filter(ps, InRoom(roomId))) && Seqs.SortedDesc(list, JoinedAt)
  }

  function JoinedAt(p: Participant): int { p.joinedAt }

  /** The count a room's row carries is the number of rows `getRoomParticipants`
      returns for it. */
  lemma CountMatchesRoster(list: seq<Participant>, ps: seq<Participant>, roomId: string)
    requires RoomRoster(list, ps, roomId)
    ensures |list| == ParticipantCount(ps, roomId)
  {
    assert |list| == |multiset(list)|;
    CountIsFilterLength(ps, roomId);
  }

  lemma {:induction false} CountIsFilterLength(ps: seq<Participant>, roomId: string)
    ensures ParticipantCount(ps, roomId) == |Seqs.Filter(ps, InRoom(roomId))| == |multiset(Seqs.Filter(ps, InRoom(roomId)))|
  {
    if ps != [] {
      CountIsFilterLength(ps[1..], roomId);
    }
  }

  // ------------------------------------------------------------ the service

  /** `RoomService` over the two tables and the signed-in user. `users` is
      the set of ids in the `users` table, which the foreign keys of both
      tables point at and which the service never changes. */
  class RoomService {
    var rooms: map<string, Room>
    var participants: seq<Participant>
    var currentUser: Option<string>
    const users: set<string>

    ghost predicate Valid()
      reads this
    {
      RoomsKeyed(rooms) && SlugsUnique(rooms)
      && ParticipantIdsUnique(participants) && MembershipUnique(participants)
    }

    constructor (rooms0: map<string, Room>, participants0: seq<Participant>, user: Option<string>, users0: set<string>)
      requires RoomsKeyed(rooms0) && SlugsUnique(rooms0)
      requires ParticipantIdsUnique(participants0) && MembershipUnique(participants0)
      ensures Valid()
      ensures rooms == rooms0 && participants == participants0 && currentUser == user && users == users0
    {
      rooms, participants, currentUser := rooms0, participants0, user;
      users := users0;
    }

    /** `createRoom`: signed in, then a slug from `generate_room_slug`
        (`slugReply`; `None` is an RPC error), then the insert, which the
        table rejects for an owner missing from `users`, a taken id or a
        taken slug. */
    method CreateRoom(data: CreateRoomData, slugReply: Option<string>, d: RoomDefaults) returns (r: Result<Room>)
      requires Valid()
      modifies this`rooms
      ensures Valid()
      ensures old(currentUser).None? ==> r == Err(NotAuthenticated)
      ensures old(currentUser).Some? && (slugReply.None? || slugReply == Some("")) ==> r == Err(SlugGenerationFailed)
      ensures r.Err? ==> rooms == old(rooms)
      ensures old(currentUser).Some? && slugReply.Some? && slugReply.value != ""
              && (old(currentUser).value !in users || d.id in old(rooms) || SlugTaken(old(rooms), slugReply.value))
              ==> r == Err(ConstraintViolation)
      ensures r.Ok? <==> currentUser.Some? && slugReply.Some? && slugReply.value != ""
                          && currentUser.value in users
                          && d.id !in old(rooms) && !SlugTaken(old(rooms), slugReply.value)
      ensures r.Ok? ==> r.value == NewRoom(data, currentUser.value, slugReply.value, d)
                        && rooms == old(rooms)[d.id := r.value]
    {
      if currentUser.None? {
        return Err(NotAuthenticated);
      }
      if slugReply.None? || slugReply.value == "" {
        return Err(SlugGenerationFailed);
      }
      var room := NewRoom(data, currentUser.value, slugReply.value, d);
      if room.ownerId !in users || room.id in rooms || SlugTaken(rooms, room.slug) {
        return Err(ConstraintViolation);
      }
      rooms := rooms[room.id := room];
      r := Ok(room);
    }

    /** `getUserRooms`: the caller's rooms with their participant counts,
        newest first. The loop stands for the query's filter and order. */
    method GetUserRooms() returns (r: Result<seq<RoomWithCount>>)
      requires Valid()
      ensures r.Err? <==> currentUser.None?
      ensures r.Err? ==> r.error == NotAuthenticated
      ensures r.Ok? ==> OwnerListing(r.value, rooms, participants, currentUser.value)
    {
      if currentUser.None? {
        return Err(NotAuthenticated);
      }
      var uid := currentUser.value;
      ghost var owned := OwnedIds(rooms, uid);
      var todo := set id | id in rooms && rooms[id].ownerId == uid;
      var rows: seq<RoomQueryRow> := [];
      while todo != {}
        invariant todo <= owned
        invariant RowsCover(rows, rooms, participants, owned - todo)
        decreases |todo|
      {
        var id :| id in todo;
        RowsCoverStep(rows, rooms, participants, owned - todo, id);
        MoveOne(owned, todo, id);
        rows := Seqs.InsertDesc(rows, RowFor(rooms, participants, id), RowCreatedAt);
        todo := todo - {id};
      }
      RowsCoverListing(rows, rooms, participants, uid);
      var list := WithParticipantCount(Some(rows));
      r := Ok(list);
    }

    /** `getRoomBySlug`: the one room with that slug (no sign-in needed;
        visibility is the database's row-level security). */
    method GetRoomBySlug(slug: string) returns (r: Result<Room>)
      requires Valid()
      ensures r.Ok? <==> SlugTaken(rooms, slug)
      ensures r.Ok? ==> r.value.slug == slug && r.value.id in rooms && rooms[r.value.id] == r.value
      ensures r.Err? ==> r.error == NoSingleRow
    {
      var ids := set id | id in rooms && rooms[id].slug == slug;
      SingleSlug(rooms, slug);
      if |ids| == 1 {
        var id :| id in ids;
        r := Ok(rooms[id]);
      } else {
        r := Err(NoSingleRow);
      }
    }

    /** `updateRoom`: the gate, then the patch on that one room. */
    method UpdateRoom(roomId: string, patch: UpdateRoomData) returns (r: Result<Room>)
      requires Valid()
      modifies this`rooms
      ensures Valid()
      ensures r.Err? <==> OwnerGate(currentUser, old(rooms), roomId).Some?
      ensures r.Err? ==> Some(r.error) == OwnerGate(currentUser, old(rooms), roomId) && rooms == old(rooms)
      ensures r.Ok? ==> r.value == ApplyPatch(old(rooms)[roomId], patch)
                        && rooms == old(rooms)[roomId := r.value]
    {
      var gate := OwnerGate(currentUser, rooms, roomId);
      if gate.Some? {
        return Err(gate.value);
      }
      var updated := ApplyPatch(rooms[roomId], patch);
      rooms := rooms[roomId := updated];
      r := Ok(updated);
    }

    /** `deleteRoom`: the gate, then the room goes. Its participant rows are
        the database's cascade and stay in this model. */
    method DeleteRoom(roomId: string) returns (e: Option<Error>)
      requires Valid()
      modifies this`rooms
      ensures Valid()
      ensures e == OwnerGate(currentUser, old(rooms), roomId)
      ensures e.None? ==> rooms == old(rooms) - {roomId}
      ensures e.Some? ==> rooms == old(rooms)
    {
      e := OwnerGate(currentUser, rooms, roomId);
      if e.None? {
        rooms := rooms - {roomId};
      }
    }

    /** `addParticipant`: a plain insert, without a sign-in or owner check,
        with the member role unless another is given; the table rejects an
        unknown room, an unknown user, a taken id or a second row for the
        same user in the same room. */
    method AddParticipant(roomId: string, userId: string, d: RowDefaults, role: EditableRole := Member) returns (r: Result<Participant>)
      requires Valid()
      modifies this`participants
      ensures Valid()
      ensures r.Ok? <==> roomId in rooms && userId in users
                         && (forall i :: 0 <= i < |old(participants)| ==> old(participants)[i].id != d.id)
                         && (forall i :: 0 <= i < |old(participants)| ==> !IsMembership(roomId, userId)(old(participants)[i]))
      ensures r.Ok? ==> r.value == Participant(None, d.id, d.now, d.now, role, roomId, Some(userId))
                        && participants == old(participants) + [r.value]
      ensures r.Err? ==> r.error == ConstraintViolation && participants == old(participants)
    {
      var row := Participant(None, d.id, d.now, d.now, role, roomId, Some(userId));
      if roomId !in rooms || userId !in users
        || (exists i :: 0 <= i < |participants| && participants[i].id == d.id)
        || (exists i :: 0 <= i < |participants| && IsMembership(roomId, userId)(participants[i]))
      {
        return Err(ConstraintViolation);
      }
      participants := participants + [row];
      r := Ok(row);
    }

    /** `removeParticipant`: deletes the rows of that user in that room,
        without a sign-in or owner check. */
    method RemoveParticipant(roomId: string, userId: string)
      requires Valid()
      modifies this`participants
      ensures Valid()
      ensures participants == WithoutMember(old(participants), roomId, userId)
    {
      var kept := WithoutMember(participants, roomId, userId);
      assert multiset(kept) <= multiset(participants);
      FilterKeepsConstraints(participants, NotMembership(roomId, userId));
      participants := kept;
    }

    /** `getRoomParticipants` without the join to `users`: the room's rows,
        newest `joined_at` first. */
    method GetRoomParticipants(roomId: string) returns (list: seq<Participant>)
      ensures RoomRoster(list, participants, roomId)
    {
      list := [];
      var i := 0;
      ghost var all := participants;
      while i < |participants|
        invariant 0 <= i <= |all| && all == participants
        invariant RoomRoster(list, all[..i], roomId)
      {
        var p := participants[i];
        ghost var seen := all[..i];
        list := RosterAdd(list, seen, p, roomId);
        Seqs.TakeOneMore(all, i);
        i := i + 1;
      }
      assert all[..i] == all;
    }

    /** `isUserRoomOwner`: true only for the signed-in owner; an error for
        no user, and the `.single()` error for no room. */
    method IsUserRoomOwner(roomId: string) returns (isOwner: bool, e: Option<Error>)
      ensures isOwner <==> currentUser.Some? && roomId in rooms && rooms[roomId].ownerId == currentUser.value
      ensures e.Some? <==> currentUser.None? || roomId !in rooms
      ensures currentUser.None? ==> e == Some(NotAuthenticated)
      ensures currentUser.Some? && roomId !in rooms ==> e == Some(NoSingleRow)
    {
      if currentUser.None? {
        return false, Some(NotAuthenticated);
      }
      if roomId !in rooms {
        return false, Some(NoSingleRow);
      }
      isOwner, e := rooms[roomId].ownerId == currentUser.value, None;
    }

    /** `updateParticipantRole`: the gate, then the role of the row with
        that id, which need not belong to `roomId`. */
    method UpdateParticipantRole(roomId: string, participantId: string, newRole: EditableRole) returns (e: Option<Error>)
      requires Valid()
      modifies this`participants
      ensures Valid()
      ensures e == OwnerGate(currentUser, rooms, roomId)
      ensures e.None? ==> participants == WithRole(old(participants), participantId, newRole)
      ensures e.Some? ==> participants == old(participants)
    {
      e := OwnerGate(currentUser, rooms, roomId);
      if e.None? {
        WithRoleKeepsConstraints(participants, participantId, newRole);
        participants := WithRole(participants, participantId, newRole);
      }
    }
  }

  function IdsDiffer(): (Participant, Participant) -> bool
  {
    (p: Participant, q: Participant) => p.id != q.id
  }

  function MembershipsDiffer(): (Participant, Participant) -> bool
  {
    (p: Participant, q: Participant) => p.userId.Some? ==> !(p.roomId == q.roomId && p.userId == q.userId)
  }

  /** Deleting rows keeps both uniqueness constraints. */
  lemma FilterKeepsConstraints(ps: seq<Participant>, keep: Participant -> bool)
    requires ParticipantIdsUnique(ps) && MembershipUnique(ps)
    ensures ParticipantIdsUnique(Seqs.Filter(ps, keep)) && MembershipUnique(Seqs.Filter(ps, keep))
  {
    assert Seqs.Pairwise(ps, IdsDiffer()) && Seqs.Pairwise(ps, MembershipsDiffer());
    Seqs.FilterPairwise(ps, keep, IdsDiffer());
    Seqs.FilterPairwise(ps, keep, MembershipsDiffer());
    var r := Seqs.Filter(ps, keep);
    assert Seqs.Pairwise(r, IdsDiffer()) && Seqs.Pairwise(r, MembershipsDiffer());
  }

  /** Under the slug constraint, a slug is taken iff exactly one room has it. */
  lemma SingleSlug(rooms: map<string, Room>, slug: string)
    requires SlugsUnique(rooms)
    ensures SlugTaken(rooms, slug) <==> |set id | id in rooms && rooms[id].slug == slug| == 1
  {
    var ids := set id | id in rooms && rooms[id].slug == slug;
    if SlugTaken(rooms, slug) {
      var id :| id in rooms && rooms[id].slug == slug;
      assert ids == {id};
    } else {
      assert ids == {};
    }
  }

  /** Moving one id from the work set to the done set. */
  lemma MoveOne(owned: set<string>, todo: set<string>, id: string)
    requires id in todo && todo <= owned
    ensures (owned - todo) + {id} == owned - (todo - {id})
  {
  }

  /** The rows gathered so far for the ids in `done`: each once, with its
      count, newest first. */
  ghost predicate RowsCover(rows: seq<RoomQueryRow>, rooms: map<string, Room>, ps: seq<Participant>, done: set<string>)
  {
    && (forall x :: x in rows ==> x.room.id in done && x.room.id in rooms && x == RowFor(rooms, ps, x.room.id))
    && (forall id :: id in done ==> id in rooms && RowFor(rooms, ps, id) in rows)
    && Seqs.Distinct(rows)
    && |rows| == |done|
    && Seqs.SortedDesc(rows, RowCreatedAt)
  }

  lemma RowsCoverStep(rows: seq<RoomQueryRow>, rooms: map<string, Room>, ps: seq<Participant>, done: set<string>, id: string)
    requires RowsCover(rows, rooms, ps, done) && RoomsKeyed(rooms)
    requires id in rooms && id !in done
    ensures RowsCover(Seqs.InsertDesc(rows, RowFor(rooms, ps, id), RowCreatedAt), rooms, ps, done + {id})
  {
    var row := RowFor(rooms, ps, id);
    assert row.room.id == id;
    assert row !in rows;
    Seqs.InsertDescMembers(rows, row, RowCreatedAt);
    Seqs.InsertDescDistinct(rows, row, RowCreatedAt);
    Seqs.InsertDescSorted(rows, row, RowCreatedAt);
    var r := Seqs.InsertDesc(rows, row, RowCreatedAt);
    assert |r| == |multiset(r)| == |rows| + 1;
  }

  /** Rows covering all of the caller's rooms make the listing `getUserRooms`
      promises. */
  lemma RowsCoverListing(rows: seq<RoomQueryRow>, rooms: map<string, Room>, ps: seq<Participant>, uid: string)
    requires RowsCover(rows, rooms, ps, OwnedIds(rooms, uid))
    ensures OwnerListing(WithParticipantCount(Some(rows)), rooms, ps, uid)
  {
    var list := WithParticipantCount(Some(rows));
    WithParticipantCountKeepsOrder(rows);
    forall id | id in rooms && rooms[id].ownerId == uid
      ensures ListingFor(rooms, ps, id) in list
    {
      var row := RowFor(rooms, ps, id);
      assert id in OwnedIds(rooms, uid);
      var i :| 0 <= i < |rows| && rows[i] == row;
      assert list[i] == ListingFor(rooms, ps, id);
    }
    RowIdsDistinct(rows, rooms, ps);
    forall i | 0 <= i < |list|
      ensures list[i].room.id in rooms && list[i].room.ownerId == uid
      ensures list[i] == ListingFor(rooms, ps, list[i].room.id)
    {
      assert rows[i] in rows;
      assert rows[i].room.id in OwnedIds(rooms, uid);
    }
  }

  /** Distinct rows, each the row for its own id, have distinct ids. */
  lemma RowIdsDistinct(rows: seq<RoomQueryRow>, rooms: map<string, Room>, ps: seq<Participant>)
    requires forall x :: x in rows ==> x.room.id in rooms && x == RowFor(rooms, ps, x.room.id)
    requires Seqs.Distinct(rows)
    ensures forall i, j :: 0 <= i < j < |rows| ==> rows[i].room.id != rows[j].room.id
  {
    forall i, j | 0 <= i < j < |rows| ensures rows[i].room.id != rows[j].room.id {
      assert rows[i] in rows && rows[j] in rows;
    }
  }

  /** One more row of the table read by `getRoomParticipants`. */
  function RosterAdd(list: seq<Participant>, ghost ps: seq<Participant>, p: Participant, roomId: string): (r: seq<Participant>)
    requires RoomRoster(list, ps, roomId)
    ensures RoomRoster(r, ps + [p], roomId)
  {
    RoomRosterStep(list, ps, p, roomId);
    if p.roomId == roomId then Seqs.InsertDesc(list, p, JoinedAt) else list
  }

  lemma RoomRosterStep(list: seq<Participant>, ps: seq<Participant>, p: Participant, roomId: string)
    requires RoomRoster(list, ps, roomId)
    ensures RoomRoster(if p.roomId == roomId then Seqs.InsertDesc(list, p, JoinedAt) else list, ps + [p], roomId)
  {
    Seqs.FilterAppend(ps, [p], InRoom(roomId));
    assert Seqs.Filter([p], InRoom(roomId)) == if p.roomId == roomId then [p] else [];
    if p.roomId == roomId {
      Seqs.InsertDescSorted(list, p, JoinedAt);
    }
  }
}
