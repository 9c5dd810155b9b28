/** A room's card on the dashboard (components/rooms/room-card.tsx): the
    participant-count and description labels, the two links, and the
    delete handler's flags. */
module RoomCard {

  import opened Types
  import Text
  import Rooms

  // ------------------------------------------------------------ labels

  /** `getParticipantText`. */
  function ParticipantText(count: nat): (text: string)
    ensures count == 0 ==> text == "No participants"
    ensures count == 1 ==> text == "1 participant"
    ensures |text| > 0 && (text[|text| - 1] == 's' <==> count != 1)
  {
    if count == 0 then "No participants"
    else if count == 1 then "1 participant"
    else Text.NatToString(count) + " participants"
  }

  /** A non-zero count can be read back from the front of its label, and
      the zero label carries no number; so different counts always get
      different labels. */
  lemma ParticipantTextReadsBack(count: nat)
    ensures count > 0 ==> Text.ParseInt(ParticipantText(count)) == Some(count)
    ensures count == 0 ==> Text.ParseInt(ParticipantText(count)).None?
  {
    if count == 0 {
      Text.ParseIntOfWord("No participants");
    } else if count == 1 {
      OneParticipantReadsBack();
    } else {
      Text.ParseIntOfNumeral(count, " participants");
    }
  }

  lemma OneParticipantReadsBack()
    ensures Text.ParseInt("1 participant") == Some(1)
  {
    assert Text.NatToString(1) + " participant" == "1 participant";
    Text.ParseIntOfNumeral(1, " participant");
  }

  lemma ParticipantTextInjective(a: nat, b: nat)
    requires ParticipantText(a) == ParticipantText(b)
    ensures a == b
  {
    ParticipantTextReadsBack(a);
    ParticipantTextReadsBack(b);
  }

  /** The card's description line: the room's description when it is
      non-empty, otherwise a fixed placeholder. */
  function DescriptionText(description: Option<string>): (text: string)
    ensures text != ""
    ensures description.Some? && description.value != "" ==> text == description.value
    ensures description.None? || description.value == "" ==> text == "No description provided"
  {
    if description.Some? && description.value != "" then description.value else "No description provided"
  }

  // ------------------------------------------------------------ links

  function RoomPath(slug: string): (path: string)
    ensures |path| == 7 + |slug| && path[..7] == "/rooms/" && path[7..] == slug
  {
    "/rooms/" + slug
  }

  /** The link `handleCopyLink` copies (also the invitation dialog's link). */
  function RoomUrl(origin: string, slug: string): (url: string)
    ensures |url| == |origin| + |RoomPath(slug)|
    ensures url[..|origin|] == origin && url[|origin|..] == RoomPath(slug)
  {
    origin + RoomPath(slug)
  }

  /** The settings menu entry's `href`. */
  function SettingsHref(slug: string): (href: string)
    ensures |href| == |RoomPath(slug)| + 9
    ensures href[..|RoomPath(slug)|] == RoomPath(slug) && href[|RoomPath(slug)|..] == "/settings"
  {
    RoomPath(slug) + "/settings"
  }

  /** The slug sits in both links at a fixed place, so each link determines
      its room. */
  lemma LinksDetermineSlug(origin: string, slug: string, other: string)
    ensures RoomUrl(origin, slug)[|origin| + 7..] == slug
    ensures SettingsHref(slug)[7..|SettingsHref(slug)| - 9] == slug
    ensures RoomUrl(origin, slug) == RoomUrl(origin, other) ==> slug == other
    ensures SettingsHref(slug) == SettingsHref(other) ==> slug == other
  {
    var u, v := RoomUrl(origin, slug), RoomUrl(origin, other);
    assert u[|origin| + 7..] == u[|origin|..][7..];
    assert v[|origin| + 7..] == v[|origin|..][7..];
    var h, g := SettingsHref(slug), SettingsHref(other);
    assert h[7..|h| - 9] == h[..|h| - 9][7..];
    assert g[7..|g| - 9] == g[..|g| - 9][7..];
  }

  // ------------------------------------------------------------ delete

  /** The card's `useState` fields. */
  class RoomCardView {
    const roomId: string
    var showDeleteDialog: bool
    var deleting: bool

    constructor (roomId: string)
      ensures this.roomId == roomId && !showDeleteDialog && !deleting
    {
      this.roomId := roomId;
      showDeleteDialog := false;
      deleting := false;
    }

    /** `onOpenChange={setShowDeleteDialog}`: not guarded by `deleting`. */
    method SetShowDeleteDialog(open: bool)
      modifies this`showDeleteDialog
      ensures showDeleteDialog == open
    {
      showDeleteDialog := open;
    }

    /** `handleDeleteRoom` up to the service call. */
    method BeginDelete()
      modifies this`deleting
      ensures deleting
    {
      deleting := true;
    }

    /** `handleDeleteRoom` after the call: the dialog closes only on
        success, and `deleting` is reset either way. */
    method FinishDelete(failed: bool)
      modifies this`showDeleteDialog, this`deleting
      ensures !deleting
      ensures showDeleteDialog == (old(showDeleteDialog) && failed)
    {
      if !failed {
        showDeleteDialog := false;
      }
      deleting := false;
    }

    /** The whole `handleDeleteRoom` against the room service. */
    method Delete(svc: Rooms.RoomService) returns (e: Option<Rooms.Error>)
      requires svc.Valid()
      modifies this`showDeleteDialog, this`deleting, svc`rooms
      ensures svc.Valid() && !deleting
      ensures e == Rooms.OwnerGate(svc.currentUser, old(svc.rooms), roomId)
      ensures e.None? ==> svc.rooms == old(svc.rooms) - {roomId} && !showDeleteDialog
      ensures e.Some? ==> svc.rooms == old(svc.rooms) && showDeleteDialog == old(showDeleteDialog)
    {
      BeginDelete();
      e := svc.DeleteRoom(roomId);
      FinishDelete(e.Some?);
    }
  }
}
