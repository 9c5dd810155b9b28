/** Row shapes of the hosted database as the application sees them
    (lib/supabase/types.ts). Timestamps are milliseconds since the epoch;
    the database's `string` ISO timestamps are ordered the same way. */
module Types {

  datatype Option<+T> = None | Some(value: T)

  /** The `participant_role` enum. */
  datatype Role = Owner | Moderator | Member | Guest

  /** The roles that `addParticipant` and `updateParticipantRole` accept. */
  type EditableRole = r: Role | r == Member || r == Moderator witness Member

  /** The `Json` type of the free-form `settings` column. */
  datatype Json =
    | JNull
    | JBool(b: bool)
    | JNumber(n: real)
    | JString(s: string)
    | JArray(items: seq<Json>)
    | JObject(fields: seq<(string, Json)>)

  /** A row of `rooms`. */
  datatype Room = Room(
    id: string,
    createdAt: int,
    description: Option<string>,
    isPersistent: bool,
    isPublic: bool,
    maxParticipants: int,
    name: string,
    ownerId: string,
    settings: Json,
    slug: string,
    updatedAt: int)

  /** A row of `room_participants`; `userId` is absent for guests. */
  datatype Participant = Participant(
    guestTokenId: Option<string>,
    id: string,
    joinedAt: int,
    lastSeen: int,
    role: Role,
    roomId: string,
    userId: Option<string>)

  /** A row of `guest_tokens`. No operation of the application reads or
      writes this table; it is here so that the schema is complete. */
  datatype GuestToken = GuestToken(
    createdAt: int,
    createdBy: string,
    currentUses: int,
    expiresAt: int,
    id: string,
    isActive: bool,
    maxUses: int,
    name: string,
    roomId: string,
    tokenHash: string)
}
