/** The delete button of the room settings page
    (components/rooms/delete-room-button.tsx): the typed confirmation, the
    dialog's state machine, and the guarded call to the room service. */
module DeleteRoomButton {

  import opened Types
  import Text
  import Rooms

  // ------------------------------------------------------------ confirmation

  function ExpectedConfirmation(roomName: string): (s: string)
    ensures |s| == 7 + |roomName| && s[..7] == "delete " && s[7..] == roomName
  {
    "delete " + roomName
  }

  /** `isConfirmationValid`: equal after lower-casing both sides. */
  predicate IsConfirmationValid(text: string, roomName: string)
  {
    Text.Lower(text) == Text.Lower(ExpectedConfirmation(roomName))
  }

  /** What a valid confirmation looks like: exactly as long as the expected
      text, spelling `delete ` in any case, then the room's name up to case;
      the expected text itself and its lower-cased form are valid, so the
      empty text never is. */
  lemma ConfirmationProperties(text: string, roomName: string)
    ensures IsConfirmationValid(text, roomName) ==>
      |text| == 7 + |roomName| && Text.Lower(text[..7]) == "delete "
      && Text.Lower(text[7..]) == Text.Lower(roomName)
    ensures IsConfirmationValid(ExpectedConfirmation(roomName), roomName)
    ensures IsConfirmationValid(Text.Lower(ExpectedConfirmation(roomName)), roomName)
    ensures !IsConfirmationValid("", roomName)
  {
    var e := ExpectedConfirmation(roomName);
    Text.LowerAppend("delete ", roomName);
    Text.LowerIdempotent(e);
    assert Text.Lower("delete ") == "delete ";
    if IsConfirmationValid(text, roomName) {
      assert text == text[..7] + text[7..];
      Text.LowerAppend(text[..7], text[7..]);
      assert Text.Lower(text)[..7] == Text.Lower(text[..7]);
      assert Text.Lower(text)[7..] == Text.Lower(text[7..]);
    }
  }

  /** Lower-casing what was typed does not change whether it is valid. */
  lemma CaseOfInputIrrelevant(text: string, roomName: string)
    ensures IsConfirmationValid(Text.Lower(text), roomName) == IsConfirmationValid(text, roomName)
  {
    Text.LowerIdempotent(text);
  }

  // ------------------------------------------------------------ dialog

  /** The component's `useState` fields and the room it deletes. */
  class DeleteRoomDialog {
    const roomId: string
    const roomName: string
    var showDialog: bool
    var confirmationText: string
    var deleting: bool

    constructor (roomId: string, roomName: string)
      ensures this.roomId == roomId && this.roomName == roomName
      ensures !showDialog && confirmationText == "" && !deleting
    {
      this.roomId := roomId;
      this.roomName := roomName;
      showDialog := false;
      confirmationText := "";
      deleting := false;
    }

    /** The delete action is enabled. */
    predicate CanConfirm()
      reads this
    {
      IsConfirmationValid(confirmationText, roomName) && !deleting
    }

    /** The "type it exactly as shown" warning is visible. */
    predicate ShowMismatchWarning()
      reads this
    {
      confirmationText != "" && !IsConfirmationValid(confirmationText, roomName)
    }

    /** `handleDialogClose`: ignored while deleting; closing forgets what was
        typed, so a reopened dialog has neither warning nor enabled action. */
    method DialogOpenChange(open: bool)
      modifies this`showDialog, this`confirmationText
      ensures old(deleting) ==> showDialog == old(showDialog) && confirmationText == old(confirmationText)
      ensures !old(deleting) ==> showDialog == open
      ensures !old(deleting) && open ==> confirmationText == old(confirmationText)
      ensures !old(deleting) && !open ==> confirmationText == "" && !ShowMismatchWarning() && !CanConfirm()
    {
      if !deleting {
        showDialog := open;
        if !open {
          confirmationText := "";
          ConfirmationProperties("", roomName);
        }
      }
    }

    /** The input's `onChange`; the input is disabled while deleting. */
    method TypeConfirmation(text: string)
      modifies this`confirmationText
      ensures confirmationText == if old(deleting) then old(confirmationText) else text
    {
      if !deleting {
        confirmationText := text;
      }
    }

    /** `handleDeleteRoom` up to the service call: an invalid confirmation
        stops it with nothing changed. */
    method BeginDelete() returns (call: bool)
      modifies this`deleting
      ensures call <==> IsConfirmationValid(confirmationText, roomName)
      ensures call ==> deleting
      ensures !call ==> deleting == old(deleting)
    {
      if !IsConfirmationValid(confirmationText, roomName) {
        return false;
      }
      deleting := true;
      call := true;
    }

    /** `handleDeleteRoom` after the service call: the dialog closes only on
        success; `deleting` is reset either way. */
    method FinishDelete(failed: bool)
      modifies this`showDialog, this`deleting
      ensures !deleting
      ensures showDialog == (old(showDialog) && failed)
    {
      if !failed {
        showDialog := false;
      }
      deleting := false;
    }

    /** The whole `handleDeleteRoom` against the room service: the service
        is only called with a valid confirmation. */
    method Delete(svc: Rooms.RoomService) returns (e: Option<Rooms.Error>)
      requires svc.Valid()
      modifies this`showDialog, this`deleting, svc`rooms
      ensures svc.Valid()
      ensures !IsConfirmationValid(confirmationText, roomName) ==>
        svc.rooms == old(svc.rooms) && showDialog == old(showDialog) && deleting == old(deleting)
      ensures IsConfirmationValid(confirmationText, roomName) ==>
        e == Rooms.OwnerGate(svc.currentUser, old(svc.rooms), roomId) && !deleting
        && (e.None? ==> svc.rooms == old(svc.rooms) - {roomId} && !showDialog)
        && (e.Some? ==> svc.rooms == old(svc.rooms) && showDialog == old(showDialog))
    {
      var call := BeginDelete();
      if !call {
        return None;
      }
      e := svc.DeleteRoom(roomId);
      FinishDelete(e.Some?);
    }
  }
}
