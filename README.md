# TeamMeet rooms: a Dafny model

TeamMeet is a Next.js front end over a hosted Supabase database. This
project models the application-side logic of its rooms feature and proves
properties of it.

- **The room service.** `RoomService` in `lib/services/rooms.ts` is a class over two in-memory tables: `rooms`, a map keyed by id, and `room_participants`, a sequence of rows. It also holds the signed-in user. Every owner-gated operation runs its three checks in a fixed order: signed in, then the room exists, then the caller owns it. Only then does it change a table. The inserts check these constraints:
  - the primary keys of `rooms` and `room_participants`;
  - `rooms_owner_id_fkey` and `room_participants_user_id_fkey`, against a fixed set of known user ids;
  - `room_participants_room_id_fkey`;
  - slug uniqueness and one row per room and signed-in user.

  The last two are assumed: `lib/supabase/types.ts` does not record them, and only the schema tests name them (`__tests__/database-schema.test.ts:24`, `:47`). Every method keeps the table invariants built from these constraints.
- **The participant list.** Who may remove or re-role whom, the member⇄moderator toggle, the display-name and initials helpers, and the two handlers that call the service.
- **The validators and labels of the other components.** These are:
  - the invitation dialog's e-mail parser;
  - the room-settings schema and its form mapping;
  - the typed confirmation and dialog state of the delete button;
  - the labels and links of a room card;
  - the statistics on the dashboard.

JavaScript built-ins are modelled explicitly in `text.dfy`:

- `trim`, with JavaScript's white-space set;
- `split` and `join`;
- ASCII `toLowerCase` and `toUpperCase`;
- `length` in UTF-16 code units;
- the rendering of a count in a template literal;
- the global `parseInt`.

`seqs.dfy` holds `filter`, `map`, `reduce` with `+`, and the newest-first order of a query.

Row shapes come from `lib/supabase/types.ts` (`types.dfy`). Timestamps are integers in milliseconds. Values the database or the browser supplies are parameters of the operations rather than computed. These are:

- generated ids;
- the insert time and column defaults;
- the reply of `generate_room_slug`;
- the clock reading;
- `window.location.origin`.

A React handler that awaits the service is split at the `await`. `Begin…` covers the state changes before the call and returns the request. `Finish…` takes the outcome and covers the state changes after. A composite method runs both against a `Rooms.RoomService`.

Two rules hold only in the components, not in the service:

- `createRoom` does not validate the room name. Only the settings form's schema does.
- `removeParticipant`, `addParticipant` and `updateParticipantRole` do not check that the target is not the owner or the caller. That rule lives only in the participant list's predicates.

## Model

| member | source | states |
|---|---|---|
| Rooms.Message | lib/services/rooms.ts:33-42 | the service's own fallback messages for unauthenticated and slug failures (and the unauthorized message at 130-131); database errors have none of their own here |
| Rooms.OwnerGate | lib/services/rooms.ts:111-132 | no error iff signed in, the room exists and the caller owns it; otherwise exactly the first failing check: not authenticated, then no row found (the `.single()` error; the `Room not found` fallback is never reached), then unauthorized |
| Rooms.NewRoom | lib/services/rooms.ts:45-50 | the inserted row has the caller as owner, the generated slug and the given name; a missing or empty description is stored as null, any other is kept |
| Rooms.ApplyPatch | lib/services/rooms.ts:134-139 | id, owner, slug, creation time and settings never change; each field present in the patch takes the patch's value, and every absent one keeps its value |
| Rooms.ApplyPatchIdempotent | lib/services/rooms.ts:134-139 | applying the same patch twice equals applying it once |
| Rooms.FullPatchDetermines | lib/services/rooms.ts:18-24 | a patch carrying all five fields maps any two rooms that share id, owner, slug and timestamps to the same room |
| Rooms.ParticipantCount | lib/services/rooms.ts:76 | the `room_participants(count)` of a room, defined as the number of its rows; Rooms.CountMatchesRoster relates it to the roster |
| Rooms.OwnerListing | lib/services/rooms.ts:64-95 | the listing `getUserRooms` promises: only the caller's rooms, each with its own count, every one of them, no room twice, newest first; Rooms.RoomService.GetUserRooms ensures it |
| Rooms.CountOrZero | lib/services/rooms.ts:88 | the first embedded count when there is one, otherwise 0 |
| Rooms.WithParticipantCount | lib/services/rooms.ts:86-89 | a missing list becomes empty; otherwise same length, each row keeps its room and gains its count or 0 (the same mapping is app/dashboard/page.tsx:34-37) |
| Rooms.WithParticipantCountKeepsOrder | lib/services/rooms.ts:79-89 | a newest-first query result stays newest-first after the count mapping |
| Rooms.WithoutMember | lib/services/rooms.ts:202-206 | the result holds exactly the rows that are not the given user's row in the given room |
| Rooms.WithoutMemberIdempotent | lib/services/rooms.ts:200-206 | a repeated removal changes nothing |
| Rooms.WithoutMemberSplits | lib/services/rooms.ts:202-206 | removal acts row by row: on a split table it is the removal on each part, order kept |
| Rooms.WithoutAbsentMember | lib/services/rooms.ts:202-206 | a table without a matching row is left unchanged |
| Rooms.WithoutMemberRemovesAtMostOne | lib/services/rooms.ts:202-206 | under the one-row-per-member constraint, removal deletes at most one row |
| Rooms.WithRole | lib/services/rooms.ts:282-285 | every row with the participant id gets the role, whatever its room; all other columns and rows stay |
| Rooms.WithRoleUndo | lib/services/rooms.ts:282-285 | setting the previous role back restores the table |
| Rooms.WithRoleKeepsConstraints | lib/services/rooms.ts:282-285 | a role change keeps participant ids and memberships unique |
| Rooms.FilterKeepsConstraints | lib/services/rooms.ts:202-206 | deleting rows keeps participant ids and memberships unique |
| Rooms.SingleSlug | lib/services/rooms.ts:99-103 | under the slug constraint, a slug is taken iff exactly one room has it |
| Rooms.RowsCoverStep | lib/services/rooms.ts:72-79 | adding the next owned room's row to a newest-first row list keeps it complete for the rooms seen, duplicate-free and newest-first |
| Rooms.RowsCoverListing | lib/services/rooms.ts:72-89 | rows covering all the caller's rooms map to the listing `getUserRooms` promises |
| Rooms.RosterAdd | lib/services/rooms.ts:216-227 | one more table row keeps the list exactly the room's rows, newest joined first |
| Rooms.CountMatchesRoster | lib/services/rooms.ts:72-77 | the count a room's row carries equals the number of that room's rows `getRoomParticipants` returns |
| Rooms.RoomRosterStep | lib/services/rooms.ts:216-227 | a row of the room is inserted in joined order; a row of another room is skipped |
| Rooms.RoomService.constructor | lib/services/rooms.ts:26-27 | the service starts over the given tables, signed-in user and known user ids, with the table invariants |
| Rooms.RoomService.CreateRoom | lib/services/rooms.ts:29-62 | not signed in, or a failed or empty slug reply, gives that error and inserts nothing; otherwise inserts exactly the new row, and a constraint error with no change when the caller is not a known user or the id or slug is taken |
| Rooms.RoomService.GetUserRooms | lib/services/rooms.ts:64-95 | an error iff not signed in; otherwise exactly the caller's rooms, each once, each with its participant count, newest created first |
| Rooms.RoomService.GetRoomBySlug | lib/services/rooms.ts:97-109 | the room iff some room has the slug, and that room; otherwise the no-single-row error |
| Rooms.RoomService.UpdateRoom | lib/services/rooms.ts:111-145 | fails with the gate's error and no change unless the caller owns the room; otherwise only that room changes, to the patched room |
| Rooms.RoomService.DeleteRoom | lib/services/rooms.ts:147-180 | fails with the gate's error and no change; otherwise exactly that room is removed |
| Rooms.RoomService.AddParticipant | lib/services/rooms.ts:182-198 | appends the row, with the member role unless another is given, iff the room exists, the user is known, the id is new and the user has no row in the room; otherwise a constraint error and no change |
| Rooms.RoomService.RemoveParticipant | lib/services/rooms.ts:200-212 | the participants table becomes the removal of that user's rows in that room, with no sign-in or owner check |
| Rooms.RoomService.GetRoomParticipants | lib/services/rooms.ts:214-233 | the result holds exactly the room's rows, newest joined first |
| Rooms.RoomService.IsUserRoomOwner | lib/services/rooms.ts:235-257 | true iff signed in, the room exists and the caller owns it; an error iff not signed in or no such room |
| Rooms.RoomService.UpdateParticipantRole | lib/services/rooms.ts:259-291 | fails with the gate's error and no change; otherwise the rows with that participant id get the new role |
| ParticipantsList.IsCurrentUserOwner | components/rooms/participants-list.tsx:72 | the viewer is the room owner; the properties are in ParticipantsList.PermissionsAreOwnerOnly |
| ParticipantsList.IsOwnerRow | components/rooms/participants-list.tsx:198 | a row is the owner's by its role or by its user id |
| ParticipantsList.CanRemove | components/rooms/participants-list.tsx:199 | the owner viewing, the row not an owner row and not the viewer's own |
| ParticipantsList.CanChangeRole | components/rooms/participants-list.tsx:200-201 | removal rights and a member or moderator row |
| ParticipantsList.PermissionsAreOwnerOnly | components/rooms/participants-list.tsx:198-201 | removal is offered only to the room owner, never on an owner row or one's own row; a role change is exactly removal rights plus a member or moderator row, so the action menu shows iff removal is allowed |
| ParticipantsList.GuestRemovableNotReRoled | components/rooms/participants-list.tsx:199-201 | the owner may remove a guest row but never change its role |
| ParticipantsList.ToggledRole | components/rooms/participants-list.tsx:127 | the new role is moderator iff the old one is member, member otherwise |
| ParticipantsList.ToggleTwice | components/rooms/participants-list.tsx:127 | toggling twice gives back a member or a moderator |
| ParticipantsList.DisplayName | components/rooms/participants-list.tsx:197 | the profile name when present and non-empty, otherwise "Guest " and the first eight characters of the participant id |
| ParticipantsList.FirstLetters | components/rooms/participants-list.tsx:115-116 | no more letters than words |
| ParticipantsList.Initials | components/rooms/participants-list.tsx:112-119 | at most two characters |
| ParticipantsList.FirstLettersOfWords | components/rooms/participants-list.tsx:115-116 | for non-empty words, exactly the first letter of each word, in order |
| ParticipantsList.InitialsOfWords | components/rooms/participants-list.tsx:112-119 | for non-empty words joined by single spaces, the upper-cased first letters of the first two words |
| ParticipantsList.FirstLettersSkipsEmpty | components/rooms/participants-list.tsx:115-116 | an empty piece adds no letter: the letters of the pieces are those of the non-empty ones |
| ParticipantsList.InitialsOfName | components/rooms/participants-list.tsx:112-119 | for any name, doubled, leading and trailing spaces included, the initials are the upper-cased first letters of its first two non-empty words, as many as there are such words up to two |
| ParticipantsList.GuestInitials | components/rooms/participants-list.tsx:212 | a guest's avatar shows "G" and the upper-cased first character of the id |
| ParticipantsList.RemoveDialogName | components/rooms/participants-list.tsx:291 | the removal dialog names the selected row's non-empty profile name, and otherwise "this participant" |
| ParticipantsList.UserIdArg | components/rooms/participants-list.tsx:159-162 | the row's user id, or "" for a guest |
| ParticipantsList.GuestRemovalKeepsTable | components/rooms/participants-list.tsx:159-162 | removing a guest passes "", which matches no row, so the table is unchanged |
| ParticipantsList.MemberRemovalRemovesRow | components/rooms/participants-list.tsx:159-162 | removing a signed-in participant deletes exactly that one row |
| ParticipantsList.ParticipantsListView.constructor | components/rooms/participants-list.tsx:66-69 | no removal in progress, dialog closed, nothing selected, no role change in progress |
| ParticipantsList.ParticipantsListView.RequestRemove | components/rooms/participants-list.tsx:121-124 | remembers the row and opens the dialog |
| ParticipantsList.ParticipantsListView.BeginConfirmRemove | components/rooms/participants-list.tsx:154-162 | nothing without a selected row; otherwise marks it as being removed and asks for its room and user id or "" |
| ParticipantsList.ParticipantsListView.FinishConfirmRemove | components/rooms/participants-list.tsx:164-179 | on success closes the dialog and forgets the row; the spinner stops either way |
| ParticipantsList.ParticipantsListView.ConfirmRemove | components/rooms/participants-list.tsx:154-180 | the service's table loses exactly the selected row's membership and the dialog closes; without a selection neither the table nor the dialog, selection or spinner changes; the role-change state is outside its frame |
| ParticipantsList.ParticipantsListView.BeginPromote | components/rooms/participants-list.tsx:126-135 | marks the row and asks for the toggled role |
| ParticipantsList.ParticipantsListView.FinishPromote | components/rooms/participants-list.tsx:149-151 | the spinner stops |
| ParticipantsList.ParticipantsListView.Promote | components/rooms/participants-list.tsx:126-152 | the service's gate decides; on success the row gets the toggled role, otherwise nothing changes; only the participants table and the role-change state are in its frame |
| InviteDialog.IsEmailEntry | components/rooms/invite-participant-dialog.tsx:89 | a trimmed piece is kept iff it is non-empty and holds "@" |
| InviteDialog.ParseEmails | components/rooms/invite-participant-dialog.tsx:86-89 | every entry is non-empty and contains "@" |
| InviteDialog.EntriesWellFormed | components/rooms/invite-participant-dialog.tsx:86-89 | every entry is also its own trim and holds no comma or newline |
| InviteDialog.ParseEmailsAppend | components/rooms/invite-participant-dialog.tsx:86-89 | entries keep input order: a list joined at a separator parses to the first part's entries, then the second's |
| InviteDialog.ParseJoinedEmails | components/rooms/invite-participant-dialog.tsx:86-89 | well-formed addresses joined by commas parse back to themselves |
| InviteDialog.ParseOnePiece | components/rooms/invite-participant-dialog.tsx:86-89 | a list with no comma or newline gives its trimmed self if that is an entry, and nothing otherwise |
| InviteDialog.BlankHasNoEntries | components/rooms/invite-participant-dialog.tsx:81-94 | a blank list has no entries, so the first guard only changes the message |
| InviteDialog.SentMessage | components/rooms/invite-participant-dialog.tsx:101 | starts "Invitations sent to " and ends in "s" iff the count exceeds 1 |
| InviteDialog.SentMessageCount | components/rooms/invite-participant-dialog.tsx:101 | the number in the message reads back as the count |
| InviteDialog.ExpiryText | components/rooms/invite-participant-dialog.tsx:129-138 | the table's label for the five keys, any other value unchanged |
| InviteDialog.ExpiryTextProperties | components/rooms/invite-participant-dialog.tsx:129-138 | labelling a label changes nothing, and for every choice of the expiry select the summary begins with that item's label |
| InviteDialog.MaxUsesLabel | components/rooms/invite-participant-dialog.tsx:229 | both branches show the raw value |
| InviteDialog.InviteDialogView.constructor | components/rooms/invite-participant-dialog.tsx:49-57 | closed, not loading, empty list and message, member role |
| InviteDialog.InviteDialogView.BeginSendEmailInvites | components/rooms/invite-participant-dialog.tsx:80-96 | a blank list is rejected first, then a list without valid entries, each with its message and no change; otherwise the parsed entries are sent and loading is on |
| InviteDialog.InviteDialogView.FinishSendEmailInvites | components/rooms/invite-participant-dialog.tsx:97-110 | on success, the count message, list and message cleared, dialog closed; loading off either way |
| InviteDialog.InviteDialogView.SendEmailInvites | components/rooms/invite-participant-dialog.tsx:80-111 | a blank list, then a list without entries, is rejected with its message and nothing changes; otherwise loading ends off, a failure keeps the form, and a success reports the number of parsed addresses, clears the list and message and closes the dialog |
| RoomSettings.InRanges | components/rooms/room-settings-form.tsx:40-46 | the schema's bounds: name 3..100 code units, description absent or at most 500, participants 2..100; RoomSettings.Issues is empty exactly then |
| RoomSettings.Issues | components/rooms/room-settings-form.tsx:40-46 | no issue iff name 3..100, description absent or at most 500, participants 2..100; each message appears iff its own check fails |
| RoomSettings.NameLimitsInCharacters | components/rooms/room-settings-form.tsx:41 | for text in the Basic Multilingual Plane the name limits count characters |
| RoomSettings.DefaultValues | components/rooms/room-settings-form.tsx:56-62 | the room's fields, a null description shown as "" |
| RoomSettings.SubmitPayload | components/rooms/room-settings-form.tsx:68-74 | all five fields sent, an empty description sent as absent |
| RoomSettings.SaveDefaultsIsNoop | components/rooms/room-settings-form.tsx:56-74 | saving the untouched form leaves the room as it is |
| RoomSettings.DefaultsOfValidRoom | components/rooms/room-settings-form.tsx:40-62 | a room within the schema's limits opens a form without issues |
| RoomSettings.EmptiedDescriptionKept | components/rooms/room-settings-form.tsx:70 | an emptied description is not sent, so the old description stays |
| RoomSettings.SaveSetsFields | components/rooms/room-settings-form.tsx:68-74 | a save sets name, visibility, capacity and persistence, and a non-empty description |
| RoomSettings.MaxParticipantsInput | components/rooms/room-settings-form.tsx:145 | never 0; NaN gives 2 |
| RoomSettings.MaxParticipantsInputProperties | components/rooms/room-settings-form.tsx:145 | a typed positive number is taken as typed; "" and "0" give 2 |
| RoomSettings.RoomSettingsForm.constructor | components/rooms/room-settings-form.tsx:51 | not loading |
| RoomSettings.RoomSettingsForm.Submit | components/rooms/room-settings-form.tsx:65-90 | schema issues stop it with no change; otherwise the service's gate decides, a save applies the payload to that room, and loading ends off |
| DeleteRoomButton.ExpectedConfirmation | components/rooms/delete-room-button.tsx:39 | "delete " followed by the room name |
| DeleteRoomButton.ConfirmationProperties | components/rooms/delete-room-button.tsx:39-40 | a valid confirmation has the expected length, reads "delete " and the name up to case; the expected text and its lower-case form are valid and "" never is |
| DeleteRoomButton.IsConfirmationValid | components/rooms/delete-room-button.tsx:40 | the input equals the expected text up to case; DeleteRoomButton.ConfirmationProperties states its consequences |
| DeleteRoomButton.CaseOfInputIrrelevant | components/rooms/delete-room-button.tsx:40 | lower-casing the input does not change validity |
| DeleteRoomButton.DeleteRoomDialog.constructor | components/rooms/delete-room-button.tsx:34-36 | closed, empty text, not deleting |
| DeleteRoomButton.DeleteRoomDialog.CanConfirm | components/rooms/delete-room-button.tsx:129 | the delete action is enabled: the confirmation is valid and no deletion is running |
| DeleteRoomButton.DeleteRoomDialog.ShowMismatchWarning | components/rooms/delete-room-button.tsx:114-120 | the mismatch warning shows: some text typed and not valid |
| DeleteRoomButton.DeleteRoomDialog.DialogOpenChange | components/rooms/delete-room-button.tsx:69-76 | ignored while deleting; opening keeps the text; closing clears it, so neither the warning nor the delete action is available |
| DeleteRoomButton.DeleteRoomDialog.TypeConfirmation | components/rooms/delete-room-button.tsx:108-113 | the text follows the input unless deleting |
| DeleteRoomButton.DeleteRoomDialog.BeginDelete | components/rooms/delete-room-button.tsx:42-48 | goes ahead iff the confirmation is valid; otherwise nothing changes |
| DeleteRoomButton.DeleteRoomDialog.FinishDelete | components/rooms/delete-room-button.tsx:52-66 | closes only on success; deleting is reset either way |
| DeleteRoomButton.DeleteRoomDialog.Delete | components/rooms/delete-room-button.tsx:42-67 | an invalid confirmation never reaches the service; otherwise the gate decides and the room is deleted on success |
| RoomCard.ParticipantText | components/rooms/room-card.tsx:104-108 | "No participants" for 0 and "1 participant" for 1; the label ends in "s" iff the count is not 1 |
| RoomCard.ParticipantTextReadsBack | components/rooms/room-card.tsx:104-108 | a non-zero count reads back from the front of its label, and the zero label holds no number |
| RoomCard.OneParticipantReadsBack | components/rooms/room-card.tsx:106 | the label for one reads back as 1 |
| RoomCard.ParticipantTextInjective | components/rooms/room-card.tsx:104-108 | different counts give different labels |
| RoomCard.DescriptionText | components/rooms/room-card.tsx:118 | the description when non-empty, otherwise "No description provided" |
| RoomCard.RoomPath | components/rooms/room-card.tsx:66 | "/rooms/" followed by the slug |
| RoomCard.RoomUrl | components/rooms/room-card.tsx:66 | the origin followed by the room's path |
| RoomCard.SettingsHref | components/rooms/room-card.tsx:138 | the room's path followed by "/settings" |
| RoomCard.LinksDetermineSlug | components/rooms/room-card.tsx:66 | the slug sits at a fixed place in both links, so each link determines its slug |
| RoomCard.RoomCardView.constructor | components/rooms/room-card.tsx:55-56 | dialog closed, not deleting |
| RoomCard.RoomCardView.SetShowDeleteDialog | components/rooms/room-card.tsx:199 | the dialog follows the request, even while deleting |
| RoomCard.RoomCardView.BeginDelete | components/rooms/room-card.tsx:75 | deleting is on |
| RoomCard.RoomCardView.FinishDelete | components/rooms/room-card.tsx:79-93 | the dialog closes only on success; deleting is reset either way |
| RoomCard.RoomCardView.Delete | components/rooms/room-card.tsx:74-94 | the gate decides, the room is deleted and the dialog closed on success, and deleting always ends off |
| Dashboard.TotalParticipants | app/dashboard/page.tsx:110 | the left fold equals the sum of the counts, is never negative and bounds every room's count |
| Dashboard.TotalParticipantsAppend | app/dashboard/page.tsx:110 | totals add up over a split list |
| Dashboard.CreatedSince | app/dashboard/page.tsx:125-128 | the week filter keeps a room created at or after the cut-off |
| Dashboard.ThisWeekCount | app/dashboard/page.tsx:125-129 | never more than the number of rooms |
| Dashboard.ThisWeekCountProperties | app/dashboard/page.tsx:125-129 | all rooms when all are from the last seven days, none when none are, and never more as the clock advances |
| Dashboard.RoomCountLabel | app/dashboard/page.tsx:81 | ends in "s" iff the count is not 1 |
| Dashboard.RoomCountLabelReadsBack | app/dashboard/page.tsx:81 | the label starts with the count |
| Dashboard.WelcomeName | app/dashboard/page.tsx:58 | the full name when set; otherwise, when there is an e-mail, its longest prefix without "@"; nothing without either |
| Dashboard.WelcomeNameOfAddress | app/dashboard/page.tsx:58 | without a full name, "local@domain" greets "local" |
| Text.TrimStart | components/rooms/invite-participant-dialog.tsx:88 | a suffix of the input that does not start with white space, all of the dropped prefix being white space |
| Text.TrimEnd | components/rooms/invite-participant-dialog.tsx:88 | a prefix of the input that does not end with white space, all of the dropped suffix being white space |
| Text.Trim | components/rooms/invite-participant-dialog.tsx:81 | the result neither starts nor ends with JavaScript white space |
| Text.BlankIsAllSpace | components/rooms/invite-participant-dialog.tsx:81 | a string that trims to "" is all white space |
| Text.Split | components/rooms/invite-participant-dialog.tsx:87 | at least one piece, and no piece contains a separator |
| Text.SplitJoin | components/rooms/participants-list.tsx:113-116 | splitting words joined by a separator they do not contain gives the words back |
| Text.SplitFirst | app/dashboard/page.tsx:58 | the first piece is the longest prefix without a separator |
| Text.JoinWith | components/rooms/participants-list.tsx:116 | the words with the separator between them; Text.SplitJoin proves the split inverts it |
| Text.Upper | components/rooms/participants-list.tsx:117 | same length, each character upper-cased |
| Text.Lower | components/rooms/delete-room-button.tsx:40 | same length, each character lower-cased |
| Text.Utf16LengthBounds | components/rooms/room-settings-form.tsx:41 | the UTF-16 length lies between the character count and twice it, and equals it within the Basic Multilingual Plane |
| Text.ParseInt | components/rooms/room-settings-form.tsx:145 | `parseInt` without a radix: leading white space skipped, an optional sign, the longest run of digits; no number without a digit; Text.ParseIntOfNumeral and Text.ParseIntOfWord state its results |
| Text.ParseIntOfNumeral | components/rooms/room-settings-form.tsx:145 | parseInt reads a rendered count back, whatever non-digit text follows |
| Text.ParseIntOfWord | components/rooms/room-card.tsx:105 | text starting with a letter is not a number |
| Seqs.Filter | components/rooms/invite-participant-dialog.tsx:89 | no longer than the input, only elements of the input that satisfy the test, and every such element kept |
| Seqs.Map | components/rooms/invite-participant-dialog.tsx:88 | same length, each element the image of the input's |
| Seqs.FoldSum | app/dashboard/page.tsx:110 | `reduce` with `+` from an accumulator; Seqs.FoldSumIsSum relates it to the sum |
| Seqs.FoldSumIsSum | app/dashboard/page.tsx:110 | the left fold from an accumulator equals the accumulator plus the sum |
| Seqs.InsertDesc | lib/services/rooms.ts:79 | the input with one more element, as a multiset |
| Seqs.InsertDescSorted | lib/services/rooms.ts:79 | insertion keeps a newest-first sequence newest-first |

## Left out

- I/O and presentation are not modelled. This covers:
  - Supabase client calls and auth sessions (the signed-in user is a field);
  - redirects, the router, toasts, the clipboard and `setTimeout`;
  - JSX rendering and date formatting.
- Error objects: an `Error` value names the failing case. The text of the error the client returns (an auth error, the `.single()` error when no room matches) is not modelled.
- `createRoom`, `updateRoom`: thrown exceptions (the `catch` branches) are not modelled, nor are database errors other than the insert constraints and `.single()` finding no row.
- Database errors of the plain reads and writes are not modelled. These are the `error` results of the delete in `deleteRoom` (`lib/services/rooms.ts:171-176`), of `removeParticipant` (`:202-208`) and of the update in `updateParticipantRole` (`:282-287`), and of the selects of `getUserRooms` (`:81-83`) and `getRoomParticipants` (`:216-229`). So a failure branch of a component that calls these is reached only through the owner gate's errors.
- Rooms.RoomService.RemoveParticipant: it returns no result, because the only error it can give is such a database error. So ParticipantsList.ParticipantsListView.ConfirmRemove always finishes as a success, and its failure branch (`components/rooms/participants-list.tsx:164-168`) is not reached.
- Rooms.RoomService.AddParticipant, Rooms.RoomService.CreateRoom: the `users` table is a fixed set of ids given to the constructor. Profile rows are not created or removed here, and the `room_participants_guest_token_id_fkey` key is not checked, since guest rows are not inserted.
- `generate_room_slug` and `cleanup_expired_guest_tokens` are not modelled: they run in the database. The slug is a parameter, and its format is not asserted.
- Rooms.RoomService.DeleteRoom: the cascade that deletes the room's participant rows runs in the database and is not modelled. Participant rows stay.
- Row-level security policies and transaction atomicity are not modelled: they are enforced by the database.
- `updated_at` triggers are not modelled: Rooms.ApplyPatch leaves `updatedAt` as it was.
- Rooms.RoomService.GetRoomParticipants: the join to `users` is left out, and the result holds the participant rows only. The query selects `full_name`, while the participant list reads `users.name`. The list's `Listed` rows take the profile as given.
- Guest tokens are not modelled. No code redeems them or enforces their expiry and usage limits, and invite-link creation and e-mail sending are stubs.
- Text.Lower, Text.Upper: ASCII letters only, because Unicode case mapping is not modelled.
- ParticipantsList.Initials and ParticipantsList.DisplayName take characters, not UTF-16 code units, so a character outside the Basic Multilingual Plane is not split in half as `word[0]` and `slice(0, 8)` would split it.
- Text.ParseInt: integers are unbounded. The double-precision rounding of very long numerals is not modelled.
- InviteDialog.ExpiryText: names inherited from `Object.prototype`, such as `toString`, are treated as unknown keys. Those keys would return a function in JavaScript, but the select never produces them.
- The invitation dialog's tab switch, copied state and link options beyond their labels are not modelled. The link-creation handler is a stub and is also left out.
- The settings form's schema types (`z.boolean()`, `z.number()`) are imposed by the Dafny types. A non-integer `max_participants` is not modelled, because the input always yields an integer.
