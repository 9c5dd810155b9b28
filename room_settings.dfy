/** The room settings form (components/rooms/room-settings-form.tsx): the
    validation schema, the form's default values, the payload it sends, the
    fallback of the max-participants input, and the submit handler. */
module RoomSettings {

  import opened Types
  import Text
  import Rooms

  /** What the form holds; `description` is optional in the schema. */
  datatype FormValues = FormValues(
    name: string,
    description: Option<string>,
    isPublic: bool,
    maxParticipants: int,
    isPersistent: bool)

  // ------------------------------------------------------------ schema

  const NameTooShort := "Room name must be at least 3 characters"
  const NameTooLong := "Room name must be less than 100 characters"
  const DescriptionTooLong := "Description must be less than 500 characters"
  const TooFewParticipants := "Must allow at least 2 participants"
  const TooManyParticipants := "Maximum 100 participants allowed"

  /** The ranges the schema accepts; string lengths count UTF-16 code units
      and both bounds are inclusive. */
  predicate InRanges(v: FormValues)
  {
    3 <= Text.Utf16Length(v.name) <= 100
    && (v.description.None? || Text.Utf16Length(v.description.value) <= 500)
    && 2 <= v.maxParticipants <= 100
  }

  /** `roomSettingsSchema`: every failed check contributes its message, in
      field order. */
  function Issues(v: FormValues): (issues: seq<string>)
    ensures issues == [] <==> InRanges(v)
    ensures NameTooShort in issues <==> Text.Utf16Length(v.name) < 3
    ensures NameTooLong in issues <==> Text.Utf16Length(v.name) > 100
    ensures DescriptionTooLong in issues <==> v.description.Some? && Text.Utf16Length(v.description.value) > 500
    ensures TooFewParticipants in issues <==> v.maxParticipants < 2
    ensures TooManyParticipants in issues <==> v.maxParticipants > 100
    ensures |issues| <= 3
  {
    var n := Text.Utf16Length(v.name);
    (if n < 3 then [NameTooShort] else [])
    + (if n > 100 then [NameTooLong] else [])
    + (if v.description.Some? && Text.Utf16Length(v.description.value) > 500 then [DescriptionTooLong] else [])
    + (if v.maxParticipants < 2 then [TooFewParticipants] else [])
    + (if v.maxParticipants > 100 then [TooManyParticipants] else [])
  }

  /** For text within the Basic Multilingual Plane the limits are plain
      character counts. */
  lemma NameLimitsInCharacters(v: FormValues)
    requires forall k :: 0 <= k < |v.name| ==> v.name[k] as int <= 0xFFFF
    ensures NameTooShort in Issues(v) <==> |v.name| < 3
    ensures NameTooLong in Issues(v) <==> |v.name| > 100
  {
    Text.Utf16LengthBounds(v.name);
  }

  // ------------------------------------------------------------ mapping

  /** `defaultValues`: the room's fields, with a missing description shown
      as the empty string. */
  function DefaultValues(room: Room): (v: FormValues)
    ensures v.name == room.name && v.isPublic == room.isPublic
    ensures v.maxParticipants == room.maxParticipants && v.isPersistent == room.isPersistent
    ensures v.description.Some?
    ensures room.description.Some? ==> v.description == room.description
    ensures room.description.None? ==> v.description == Some("")
  {
    FormValues(
      room.name,
      Some(if room.description.Some? then room.description.value else ""),
      room.isPublic,
      room.maxParticipants,
      room.isPersistent)
  }

  /** The `onSubmit` payload: all five fields, with an empty description
      sent as absent. */
  function SubmitPayload(v: FormValues): (patch: Rooms.UpdateRoomData)
    ensures patch.name == Some(v.name) && patch.isPublic == Some(v.isPublic)
    ensures patch.maxParticipants == Some(v.maxParticipants) && patch.isPersistent == Some(v.isPersistent)
    ensures patch.description.Some? <==> v.description.Some? && v.description.value != ""
    ensures patch.description.Some? ==> patch.description == v.description
  {
    Rooms.UpdateRoomData(
      Some(v.name),
      if v.description.Some? && v.description.value != "" then v.description else None,
      Some(v.isPublic),
      Some(v.maxParticipants),
      Some(v.isPersistent))
  }

  /** Saving the form unchanged leaves the room as it is. */
  lemma SaveDefaultsIsNoop(room: Room)
    ensures Rooms.ApplyPatch(room, SubmitPayload(DefaultValues(room))) == room
  {
  }

  /** A room that satisfies the schema opens a form without issues. */
  lemma DefaultsOfValidRoom(room: Room)
    requires 3 <= Text.Utf16Length(room.name) <= 100 && 2 <= room.maxParticipants <= 100
    requires room.description.Some? ==> Text.Utf16Length(room.description.value) <= 500
    ensures Issues(DefaultValues(room)) == []
  {
  }

  /** An emptied description is not sent, so saving keeps the old one: the
      form cannot clear a description. */
  lemma EmptiedDescriptionKept(room: Room, v: FormValues)
    requires v.description.None? || v.description == Some("")
    ensures Rooms.ApplyPatch(room, SubmitPayload(v)).description == room.description
  {
  }

  /** A save sets every other field to the form's value. */
  lemma SaveSetsFields(room: Room, v: FormValues)
    ensures var r := Rooms.ApplyPatch(room, SubmitPayload(v));
      r.name == v.name && r.isPublic == v.isPublic
      && r.maxParticipants == v.maxParticipants && r.isPersistent == v.isPersistent
      && (v.description.Some? && v.description.value != "" ==> r.description == v.description)
  {
  }

  /** The max-participants field's reading of its text: the parsed number,
      or 2 when the text does not parse or parses to zero (both are falsy). */
  function MaxParticipantsInput(text: string): (n: int)
    ensures n != 0
    ensures Text.ParseInt(text).None? ==> n == 2
  {
    match Text.ParseInt(text)
    case None => 2
    case Some(k) => if k == 0 then 2 else k
  }

  /** A typed positive number is taken as it is; clearing the field or
      typing 0 gives 2. */
  lemma MaxParticipantsInputProperties(n: nat)
    ensures n > 0 ==> MaxParticipantsInput(Text.NatToString(n)) == n
    ensures MaxParticipantsInput(Text.NatToString(0)) == 2
    ensures MaxParticipantsInput("") == 2
  {
    Text.ParseIntOfNumeral(n, "");
    Text.ParseIntOfNumeral(0, "");
    assert Text.NatToString(n) + "" == Text.NatToString(n);
    assert Text.NatToString(0) + "" == Text.NatToString(0);
  }

  // ------------------------------------------------------------ submit

  datatype SubmitOutcome = Invalid(issues: seq<string>) | Saved | Failed(error: Rooms.Error)

  /** The form's `loading` flag. */
  class RoomSettingsForm {
    const roomId: string
    var loading: bool

    constructor (roomId: string)
      ensures this.roomId == roomId && !loading
    {
      this.roomId := roomId;
      loading := false;
    }

    /** `form.handleSubmit(onSubmit)`: the schema gates the call; the
        service's answer decides the outcome; the spinner stops either way. */
    method Submit(svc: Rooms.RoomService, v: FormValues) returns (o: SubmitOutcome)
      requires svc.Valid()
      modifies this`loading, svc`rooms
      ensures svc.Valid()
      ensures o.Invalid? <==> Issues(v) != []
      ensures o.Invalid? ==> o.issues == Issues(v) && svc.rooms == old(svc.rooms) && loading == old(loading)
      ensures !o.Invalid? ==> !loading
      ensures o.Failed? <==> Issues(v) == [] && Rooms.OwnerGate(svc.currentUser, old(svc.rooms), roomId).Some?
      ensures o.Failed? ==>
        Some(o.error) == Rooms.OwnerGate(svc.currentUser, old(svc.rooms), roomId) && svc.rooms == old(svc.rooms)
      ensures o.Saved? ==> svc.rooms == old(svc.rooms)[roomId := Rooms.ApplyPatch(old(svc.rooms)[roomId], SubmitPayload(v))]
    {
      var issues := Issues(v);
      if issues != [] {
        return Invalid(issues);
      }
      loading := true;
      var r := svc.UpdateRoom(roomId, SubmitPayload(v));
      o := if r.Err? then Failed(r.error) else Saved;
      loading := false;
    }
  }
}
