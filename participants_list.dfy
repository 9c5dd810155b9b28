/** The participant list of a room's settings page
    (components/rooms/participants-list.tsx): who may act on which row, the
    role toggle, the labels of a row, and the two handlers that call the
    room service. */
module ParticipantsList {

  import opened Types
  import Seqs
  import Text
  import Rooms

  /** The `users` profile joined onto a participant row, when there is one. */
  datatype Profile = Profile(id: string, name: string, email: string, avatarUrl: Option<string>)

  /** A row of the list: the participant and its profile. */
  datatype Listed = Listed(row: Participant, users: Option<Profile>)

  // ------------------------------------------------------------ permissions

  predicate IsCurrentUserOwner(currentUserId: string, roomOwnerId: string)
  {
    currentUserId == roomOwnerId
  }

  /** `isOwner`: the row has the owner role, or is the owner's own row. */
  predicate IsOwnerRow(p: Participant, roomOwnerId: string)
  {
    p.role == Owner || p.userId == Some(roomOwnerId)
  }

  predicate CanRemove(p: Participant, roomOwnerId: string, currentUserId: string)
  {
    IsCurrentUserOwner(currentUserId, roomOwnerId) && !IsOwnerRow(p, roomOwnerId)
    && p.userId != Some(currentUserId)
  }

  predicate CanChangeRole(p: Participant, roomOwnerId: string, currentUserId: string)
  {
    IsCurrentUserOwner(currentUserId, roomOwnerId) && !IsOwnerRow(p, roomOwnerId)
    && p.userId != Some(currentUserId) && (p.role == Member || p.role == Moderator)
  }

  /** Nothing is offered to anyone but the room's owner, nor on the owner's
      row or one's own row; a role change is a removal right restricted to
      members and moderators, so the action menu shows exactly when removal
      is allowed. */
  lemma PermissionsAreOwnerOnly(p: Participant, roomOwnerId: string, currentUserId: string)
    ensures CanRemove(p, roomOwnerId, currentUserId) ==> currentUserId == roomOwnerId
    ensures CanRemove(p, roomOwnerId, currentUserId) ==>
      p.role != Owner && p.userId != Some(roomOwnerId) && p.userId != Some(currentUserId)
    ensures CanChangeRole(p, roomOwnerId, currentUserId) <==>
      CanRemove(p, roomOwnerId, currentUserId) && (p.role == Member || p.role == Moderator)
    ensures (CanRemove(p, roomOwnerId, currentUserId) || CanChangeRole(p, roomOwnerId, currentUserId))
      == CanRemove(p, roomOwnerId, currentUserId)
  {
  }

  /** A guest (no user account) can be removed by the owner but never
      re-roled. */
  lemma GuestRemovableNotReRoled(p: Participant, roomOwnerId: string)
    requires p.role == Guest && p.userId.None?
    ensures CanRemove(p, roomOwnerId, roomOwnerId)
    ensures !CanChangeRole(p, roomOwnerId, roomOwnerId)
  {
  }

  // ------------------------------------------------------------ role toggle

  /** The role `handlePromoteParticipant` asks for: a member becomes a
      moderator, anyone else a member. */
  function ToggledRole(r: Role): (t: EditableRole)
    ensures t == Moderator <==> r == Member
    ensures t == Member <==> r != Member
  {
    if r == Member then Moderator else Member
  }

  /** Toggling twice gives back a member or a moderator. */
  lemma ToggleTwice(r: Role)
    requires r == Member || r == Moderator
    ensures ToggledRole(ToggledRole(r)) == r
  {
  }

  // ------------------------------------------------------------ labels

  /** The name shown for a row: the profile's name when it has a non-empty
      one, otherwise "Guest " and the first eight characters of the row id. */
  function DisplayName(lp: Listed): (name: string)
    ensures lp.users.Some? && lp.users.value.name != "" ==> name == lp.users.value.name
    ensures !(lp.users.Some? && lp.users.value.name != "") ==>
      |name| == 6 + (if |lp.row.id| < 8 then |lp.row.id| else 8)
      && name[..6] == "Guest " && name[6..] == lp.row.id[..|name| - 6]
  {
    if lp.users.Some? && lp.users.value.name != "" then lp.users.value.name
    else "Guest " + lp.row.id[..if |lp.row.id| < 8 then |lp.row.id| else 8]
  }

  /** `word[0]` for each word, where an empty word contributes nothing to
      the joined string. */
  function FirstLetters(words: seq<string>): (r: string)
    ensures |r| <= |words|
  {
    if words == [] then ""
    else (if words[0] == "" then "" else [words[0][0]]) + FirstLetters(words[1..])
  }

  /** `getInitials`: the first letters of the space-separated words,
      upper-cased, at most two. */
  function Initials(name: string): (r: string)
    ensures |r| <= 2
  {
    var letters := Text.Upper(FirstLetters(Text.Split(name, {' '})));
    letters[..if |letters| < 2 then |letters| else 2]
  }

  /** For a name made of non-empty words separated by single spaces, the
      initials are the upper-cased first letters of its first two words. */
  lemma InitialsOfWords(words: seq<string>)
    requires |words| >= 1
    requires forall i :: 0 <= i < |words| ==> words[i] != ""
    requires forall i, k :: 0 <= i < |words| && 0 <= k < |words[i]| ==> words[i][k] != ' '
    ensures |Initials(Text.JoinWith(words, ' '))| == if |words| < 2 then 1 else 2
    ensures Initials(Text.JoinWith(words, ' '))[0] == Text.UpperChar(words[0][0])
    ensures |words| >= 2 ==> Initials(Text.JoinWith(words, ' '))[1] == Text.UpperChar(words[1][0])
  {
    Text.SplitJoin(words, ' ', {' '});
    FirstLettersOfWords(words);
  }

  lemma {:induction false} FirstLettersOfWords(words: seq<string>)
    requires forall i :: 0 <= i < |words| ==> words[i] != ""
    ensures |FirstLetters(words)| == |words|
    ensures forall i :: 0 <= i < |words| ==> FirstLetters(words)[i] == words[i][0]
  {
    if words != [] {
      FirstLettersOfWords(words[1..]);
      var r := FirstLetters(words);
      assert r == [words[0][0]] + FirstLetters(words[1..]);
      forall i | 0 <= i < |words| ensures r[i] == words[i][0] {
        if i > 0 {
          assert r[i] == FirstLetters(words[1..])[i - 1];
          assert words[1..][i - 1] == words[i];
        }
      }
    }
  }

  /** The test that keeps a piece of the split name that is a word. */
  function NonEmptyWord(): string -> bool
  {
    (w: string) => w != ""
  }

  /** Empty pieces contribute no letter, so the letters of a split name are
      those of its non-empty words. */
  lemma {:induction false} FirstLettersSkipsEmpty(ws: seq<string>)
    ensures FirstLetters(ws) == FirstLetters(Seqs.Filter(ws, NonEmptyWord()))
  {
    if ws != [] {
      FirstLettersSkipsEmpty(ws[1..]);
      var rest := Seqs.Filter(ws[1..], NonEmptyWord());
      if ws[0] == "" {
        assert Seqs.Filter(ws, NonEmptyWord()) == rest;
      } else {
        assert Seqs.Filter(ws, NonEmptyWord()) == [ws[0]] + rest;
        assert ([ws[0]] + rest)[1..] == rest;
      }
    }
  }

  /** For every name, doubled, leading and trailing spaces included: the
      initials are the upper-cased first letters of its first two
      non-empty words, and there are as many as such words, up to two. */
  lemma InitialsOfName(name: string)
    ensures var ws := Seqs.Filter(Text.Split(name, {' '}), NonEmptyWord());
      |Initials(name)| == (if |ws| < 2 then |ws| else 2)
      && forall i :: 0 <= i < |Initials(name)| ==> Initials(name)[i] == Text.UpperChar(ws[i][0])
  {
    var pieces := Text.Split(name, {' '});
    var ws := Seqs.Filter(pieces, NonEmptyWord());
    FirstLettersSkipsEmpty(pieces);
    assert forall i :: 0 <= i < |ws| ==> NonEmptyWord()(ws[i]);
    FirstLettersOfWords(ws);
  }

  /** A guest's avatar shows `G` and the first character of the id,
      upper-cased. */
  lemma GuestInitials(lp: Listed)
    requires lp.users.None? && lp.row.id != ""
    requires forall k :: 0 <= k < |lp.row.id| && k < 8 ==> lp.row.id[k] != ' '
    ensures Initials(DisplayName(lp)) == ['G', Text.UpperChar(lp.row.id[0])]
  {
    var short := lp.row.id[..if |lp.row.id| < 8 then |lp.row.id| else 8];
    var words := ["Guest", short];
    assert Text.JoinWith(words, ' ') == DisplayName(lp);
    InitialsOfWords(words);
  }

  /** The name in the removal dialog. */
  function RemoveDialogName(toRemove: Option<Listed>): (name: string)
    ensures name != ""
    ensures toRemove.Some? && toRemove.value.users.Some? && toRemove.value.users.value.name != "" ==>
      name == toRemove.value.users.value.name
    ensures !(toRemove.Some? && toRemove.value.users.Some? && toRemove.value.users.value.name != "") ==>
      name == "this participant"
  {
    if toRemove.Some? && toRemove.value.users.Some? && toRemove.value.users.value.name != ""
    then toRemove.value.users.value.name
    else "this participant"
  }

  // ------------------------------------------------------------ removal argument

  /** The user id the removal passes to the service: the row's user id,
      or the empty string for a guest row. */
  function UserIdArg(p: Participant): (u: string)
    ensures p.userId.Some? && p.userId.value != "" ==> u == p.userId.value
    ensures p.userId.None? ==> u == ""
  {
    if p.userId.Some? then p.userId.value else ""
  }

  /** A guest row has no user id, so the removal it asks for matches no row
      of a table in which no user id is empty: the guest stays. */
  lemma GuestRemovalKeepsTable(ps: seq<Participant>, p: Participant)
    requires p.userId.None?
    requires forall i :: 0 <= i < |ps| ==> ps[i].userId != Some("")
    ensures Rooms.WithoutMember(ps, p.roomId, UserIdArg(p)) == ps
  {
    Rooms.WithoutAbsentMember(ps, p.roomId, UserIdArg(p));
  }

  /** Removing a signed-in participant removes exactly that participant's
      row when memberships are unique. */
  lemma MemberRemovalRemovesRow(ps: seq<Participant>, p: Participant)
    requires p.userId.Some? && p in ps
    requires Rooms.MembershipUnique(ps)
    ensures p !in Rooms.WithoutMember(ps, p.roomId, UserIdArg(p))
    ensures |Rooms.WithoutMember(ps, p.roomId, UserIdArg(p))| == |ps| - 1
  {
    var u := UserIdArg(p);
    var r := Rooms.WithoutMember(ps, p.roomId, u);
    Rooms.WithoutMemberRemovesAtMostOne(ps, p.roomId, u);
    var i :| 0 <= i < |ps| && ps[i] == p;
    Seqs.FilterDrops(ps, Rooms.NotMembership(p.roomId, u), i);
  }

  // ------------------------------------------------------------ handler state

  datatype RemoveRequest = RemoveRequest(roomId: string, userId: string)

  datatype RoleRequest = RoleRequest(roomId: string, participantId: string, newRole: EditableRole)

  /** The component's `useState` fields and its props. Each handler that
      awaits the service is split at the await into `Begin…` and
      `Finish…`; `failed` stands for the `error` the service returned. */
  class ParticipantsListView {
    const roomOwnerId: string
    const currentUserId: string
    var removingParticipant: Option<string>
    var showRemoveDialog: bool
    var participantToRemove: Option<Listed>
    var changingRole: Option<string>

    constructor (roomOwnerId: string, currentUserId: string)
      ensures this.roomOwnerId == roomOwnerId && this.currentUserId == currentUserId
      ensures removingParticipant.None? && !showRemoveDialog
      ensures participantToRemove.None? && changingRole.None?
    {
      this.roomOwnerId := roomOwnerId;
      this.currentUserId := currentUserId;
      removingParticipant := None;
      showRemoveDialog := false;
      participantToRemove := None;
      changingRole := None;
    }

    /** `handleRemoveParticipant`: remember the row and open the dialog. */
    method RequestRemove(lp: Listed)
      modifies this`participantToRemove, this`showRemoveDialog
      ensures participantToRemove == Some(lp) && showRemoveDialog
      ensures removingParticipant == old(removingParticipant) && changingRole == old(changingRole)
    {
      participantToRemove := Some(lp);
      showRemoveDialog := true;
    }

    /** `confirmRemoveParticipant` up to the service call. */
    method BeginConfirmRemove() returns (req: Option<RemoveRequest>)
      modifies this`removingParticipant
      ensures old(participantToRemove).None? ==> req.None? && removingParticipant == old(removingParticipant)
      ensures old(participantToRemove).Some? ==>
        var p := old(participantToRemove).value.row;
        req == Some(RemoveRequest(p.roomId, UserIdArg(p))) && removingParticipant == Some(p.id)
    {
      if participantToRemove.None? {
        return None;
      }
      var p := participantToRemove.value.row;
      removingParticipant := Some(p.id);
      req := Some(RemoveRequest(p.roomId, UserIdArg(p)));
    }

    /** `confirmRemoveParticipant` after the service call: on success the
        dialog closes and forgets the row; either way the spinner stops. */
    method FinishConfirmRemove(failed: bool)
      modifies this`removingParticipant, this`showRemoveDialog, this`participantToRemove
      ensures removingParticipant.None?
      ensures failed ==> showRemoveDialog == old(showRemoveDialog) && participantToRemove == old(participantToRemove)
      ensures !failed ==> !showRemoveDialog && participantToRemove.None?
    {
      if !failed {
        showRemoveDialog := false;
        participantToRemove := None;
      }
      removingParticipant := None;
    }

    /** The whole `confirmRemoveParticipant` against the room service. */
    method ConfirmRemove(svc: Rooms.RoomService)
      requires svc.Valid()
      modifies this`participantToRemove, this`showRemoveDialog, this`removingParticipant, svc`participants
      ensures svc.Valid()
      ensures old(participantToRemove).None? ==>
        svc.participants == old(svc.participants) && participantToRemove.None?
        && showRemoveDialog == old(showRemoveDialog) && removingParticipant == old(removingParticipant)
      ensures old(participantToRemove).Some? ==>
        var p := old(participantToRemove).value.row;
        svc.participants == Rooms.WithoutMember(old(svc.participants), p.roomId, UserIdArg(p))
        && !showRemoveDialog && participantToRemove.None? && removingParticipant.None?
    {
      var req := BeginConfirmRemove();
      if req.Some? {
        svc.RemoveParticipant(req.value.roomId, req.value.userId);
        FinishConfirmRemove(false);
      }
    }

    /** `handlePromoteParticipant` up to the service call. */
    method BeginPromote(p: Participant) returns (req: RoleRequest)
      modifies this`changingRole
      ensures changingRole == Some(p.id)
      ensures req == RoleRequest(p.roomId, p.id, ToggledRole(p.role))
    {
      changingRole := Some(p.id);
      req := RoleRequest(p.roomId, p.id, ToggledRole(p.role));
    }

    /** `handlePromoteParticipant` after the service call (`finally`). */
    method FinishPromote()
      modifies this`changingRole
      ensures changingRole.None?
    {
      changingRole := None;
    }

    /** The whole `handlePromoteParticipant` against the room service: the
        service's gate decides, and the spinner stops either way. */
    method Promote(svc: Rooms.RoomService, p: Participant) returns (e: Option<Rooms.Error>)
      requires svc.Valid()
      modifies this`changingRole, svc`participants
      ensures svc.Valid() && changingRole.None?
      ensures e == Rooms.OwnerGate(old(svc.currentUser), old(svc.rooms), p.roomId)
      ensures e.None? ==> svc.participants == Rooms.WithRole(old(svc.participants), p.id, ToggledRole(p.role))
      ensures e.Some? ==> svc.participants == old(svc.participants)
    {
      var req := BeginPromote(p);
      e := svc.UpdateParticipantRole(req.roomId, req.participantId, req.newRole);
      FinishPromote();
    }
  }
}
