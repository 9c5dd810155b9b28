/** The dashboard page (app/dashboard/page.tsx): the statistics and labels
    it computes from the signed-in user's room list. The list itself is the
    query of `getUserRooms` with the same count mapping,
    `Rooms.WithParticipantCount`. */
module Dashboard {

  import opened Types
  import Seqs
  import Text
  import Rooms

  function CountOf(e: Rooms.RoomWithCount): int
  {
    e.participantCount
  }

  /** The total-participants tile: the sum of the rooms' counts, starting
      from zero, so no room's count exceeds it. */
  function TotalParticipants(rs: seq<Rooms.RoomWithCount>): (total: int)
    ensures total == Seqs.Sum(rs, CountOf)
    ensures total >= 0
    ensures forall i :: 0 <= i < |rs| ==> rs[i].participantCount <= total
  {
    Seqs.FoldSumIsSum(0, rs, CountOf);
    Seqs.SumNonNegative(rs, CountOf);
    assert forall i :: 0 <= i < |rs| ==> rs[i].participantCount <= Seqs.Sum(rs, CountOf) by {
      forall i | 0 <= i < |rs| ensures rs[i].participantCount <= Seqs.Sum(rs, CountOf) {
        Seqs.SumBoundsEach(rs, CountOf, i);
      }
    }
    Seqs.FoldSum(0, rs, CountOf)
  }

  /** Totals add up over a split list. */
  lemma TotalParticipantsAppend(a: seq<Rooms.RoomWithCount>, b: seq<Rooms.RoomWithCount>)
    ensures TotalParticipants(a + b) == TotalParticipants(a) + TotalParticipants(b)
  {
    Seqs.SumAppend(a, b, CountOf);
  }

  /** Seven days in milliseconds. */
  const WeekMs: int := 7 * 24 * 60 * 60 * 1000

  function CreatedSince(since: int): Rooms.RoomWithCount -> bool
  {
    (e: Rooms.RoomWithCount) => e.room.createdAt >= since
  }

  /** The "This Week" figure for the clock reading `now`. */
  function ThisWeekCount(rs: seq<Rooms.RoomWithCount>, now: int): (n: nat)
    ensures n <= |rs|
  {
    |Seqs.Filter(rs, CreatedSince(now - WeekMs))|
  }

  /** The figure counts exactly the rooms of the last seven days: all of
      them when every room is that recent, and never more as time goes on. */
  lemma ThisWeekCountProperties(rs: seq<Rooms.RoomWithCount>, now: int, later: int)
    requires now <= later
    ensures ThisWeekCount(rs, later) <= ThisWeekCount(rs, now)
    ensures (forall i :: 0 <= i < |rs| ==> rs[i].room.createdAt >= now - WeekMs) ==> ThisWeekCount(rs, now) == |rs|
    ensures (forall i :: 0 <= i < |rs| ==> rs[i].room.createdAt < now - WeekMs) ==> ThisWeekCount(rs, now) == 0
  {
    Seqs.FilterMonotone(rs, CreatedSince(later - WeekMs), CreatedSince(now - WeekMs));
    if forall i :: 0 <= i < |rs| ==> rs[i].room.createdAt >= now - WeekMs {
      Seqs.FilterKeepsAll(rs, CreatedSince(now - WeekMs));
    }
    if forall i :: 0 <= i < |rs| ==> rs[i].room.createdAt < now - WeekMs {
      Seqs.FilterNone(rs, CreatedSince(now - WeekMs));
    }
  }

  /** The room-count label: the count, then "room", plural unless the count
      is exactly one. */
  function RoomCountLabel(n: nat): (text: string)
    ensures |text| > 5 && (text[|text| - 1] == 's' <==> n != 1)
  {
    Text.NatToString(n) + " room" + (if n != 1 then "s" else "")
  }

  /** The label starts with the count. */
  lemma RoomCountLabelReadsBack(n: nat)
    ensures Text.ParseInt(RoomCountLabel(n)) == Some(n)
  {
    var rest := " room" + (if n != 1 then "s" else "");
    assert RoomCountLabel(n) == Text.NatToString(n) + rest;
    Text.ParseIntOfNumeral(n, rest);
  }

  /** The greeting's name: the non-empty full name from the user's metadata,
      else the part of the e-mail before the first `@`; `None` when there is
      neither (the greeting then shows nothing). */
  function WelcomeName(fullName: Option<string>, email: Option<string>): (name: Option<string>)
    ensures fullName.Some? && fullName.value != "" ==> name == fullName
    ensures !(fullName.Some? && fullName.value != "") ==> (name.Some? <==> email.Some?)
    ensures !(fullName.Some? && fullName.value != "") && email.Some? ==>
      var e, p := email.value, name.value;
      |p| <= |e| && p == e[..|p|] && '@' !in p && (|p| < |e| ==> e[|p|] == '@')
  {
    if fullName.Some? && fullName.value != "" then fullName
    else if email.None? then None
    else
      Text.SplitFirst(email.value, {'@'});
      Some(Text.Split(email.value, {'@'})[0])
  }

  /** Without a full name, the greeting for `local@domain` is `local`. */
  lemma WelcomeNameOfAddress(local: string, domain: string)
    requires '@' !in local
    ensures WelcomeName(None, Some(local + "@" + domain)) == Some(local)
  {
    Text.SplitNoSeparator(local, {'@'});
    Text.SplitAppend(local, '@', domain, {'@'});
  }
}
