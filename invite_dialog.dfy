/** The invitation dialog (components/rooms/invite-participant-dialog.tsx):
    the e-mail list parser and its two guards, the success message, the
    expiry and max-uses labels, and the dialog state that sending updates. */
module InviteDialog {

  import opened Types
  import Seqs
  import Text

  // ------------------------------------------------------------ parsing

  /** The characters of the regular expression `/[,\n]/`. */
  const EmailSeparators: set<char> := {',', '\n'}

  /** The filter on trimmed pieces: a non-empty string holding an `@`. */
  predicate IsEmailEntry(e: string)
  {
    e != "" && '@' in e
  }

  function KeepEntry(): string -> bool
  {
    (e: string) => IsEmailEntry(e)
  }

  /** The addresses of a list: cut at every comma and newline, each piece
      trimmed, and the pieces that are e-mail entries kept in order. */
  function ParseEmails(list: string): (emails: seq<string>)
    ensures forall i :: 0 <= i < |emails| ==> IsEmailEntry(emails[i])
  {
    Seqs.Filter(Seqs.Map(Text.Split(list, EmailSeparators), Text.Trim), KeepEntry())
  }

  /** Every parsed entry is its own trim, non-empty and holds an `@`, and
      contains no separator. */
  lemma EntriesWellFormed(list: string)
    ensures forall i :: 0 <= i < |ParseEmails(list)| ==>
      var e := ParseEmails(list)[i];
      Text.Trim(e) == e && e != "" && '@' in e
      && forall k :: 0 <= k < |e| ==> e[k] !in EmailSeparators
  {
    var pieces := Text.Split(list, EmailSeparators);
    var trimmed := Seqs.Map(pieces, Text.Trim);
    var emails := ParseEmails(list);
    forall i | 0 <= i < |emails|
      ensures Text.Trim(emails[i]) == emails[i]
      ensures forall k :: 0 <= k < |emails[i]| ==> emails[i][k] !in EmailSeparators
    {
      var j :| 0 <= j < |trimmed| && trimmed[j] == emails[i];
      Text.TrimIdempotent(pieces[j]);
      TrimmedNoSeparator(pieces[j]);
    }
  }

  /** A list with no separator is a single piece: it yields its trimmed
      self when that is an e-mail entry and nothing otherwise. */
  lemma ParseOnePiece(p: string)
    requires forall k :: 0 <= k < |p| ==> p[k] !in EmailSeparators
    ensures ParseEmails(p) == if IsEmailEntry(Text.Trim(p)) then [Text.Trim(p)] else []
  {
    Text.SplitNoSeparator(p, EmailSeparators);
    var trimmed := Seqs.Map([p], Text.Trim);
    assert trimmed == [Text.Trim(p)];
    assert trimmed[1..] == [];
  }

  /** Trimming keeps a piece free of separators. */
  lemma TrimmedNoSeparator(p: string)
    requires forall k :: 0 <= k < |p| ==> p[k] !in EmailSeparators
    ensures forall k :: 0 <= k < |Text.Trim(p)| ==> Text.Trim(p)[k] !in EmailSeparators
  {
    var t := Text.TrimStart(p);
    forall k | 0 <= k < |Text.Trim(p)| ensures Text.Trim(p)[k] !in EmailSeparators {
      assert Text.Trim(p)[k] == t[k] == p[k + |p| - |t|];
    }
  }

  /** Parsing keeps the input order: the entries of a list that is two
      lists joined at a separator are the first list's, then the second's. */
  lemma ParseEmailsAppend(a: string, c: char, b: string)
    requires c in EmailSeparators
    ensures ParseEmails(a + [c] + b) == ParseEmails(a) + ParseEmails(b)
  {
    var sa := Text.Split(a, EmailSeparators);
    var sb := Text.Split(b, EmailSeparators);
    Text.SplitAppend(a, c, b, EmailSeparators);
    Seqs.MapAppend(sa, sb, Text.Trim);
    Seqs.FilterAppend(Seqs.Map(sa, Text.Trim), Seqs.Map(sb, Text.Trim), KeepEntry());
  }

  /** Well-formed addresses joined with commas parse back to themselves. */
  lemma ParseJoinedEmails(emails: seq<string>)
    requires |emails| >= 1
    requires forall i :: 0 <= i < |emails| ==> IsEmailEntry(emails[i]) && Text.Trim(emails[i]) == emails[i]
    requires forall i, k :: 0 <= i < |emails| && 0 <= k < |emails[i]| ==> emails[i][k] !in EmailSeparators
    ensures ParseEmails(Text.JoinWith(emails, ',')) == emails
  {
    Text.SplitJoin(emails, ',', EmailSeparators);
    var trimmed := Seqs.Map(emails, Text.Trim);
    assert trimmed == emails;
    Seqs.FilterKeepsAll(emails, KeepEntry());
  }

  /** A list that is blank after trimming has no entries, so the first
      guard only changes which message is shown. */
  lemma BlankHasNoEntries(list: string)
    requires Text.Trim(list) == ""
    ensures ParseEmails(list) == []
  {
    Text.BlankIsAllSpace(list);
    Text.SplitPieceChars(list, EmailSeparators);
    var pieces := Text.Split(list, EmailSeparators);
    var trimmed := Seqs.Map(pieces, Text.Trim);
    forall j | 0 <= j < |pieces| ensures trimmed[j] == "" {
      forall k | 0 <= k < |pieces[j]| ensures Text.IsSpace(pieces[j][k]) {
        var m :| 0 <= m < |list| && list[m] == pieces[j][k];
      }
      Text.AllSpaceTrimsToEmpty(pieces[j]);
    }
    Seqs.FilterNone(trimmed, KeepEntry());
  }

  // ------------------------------------------------------------ messages

  const BlankMessage := "Please enter at least one email address"
  const NoValidMessage := "Please enter valid email addresses"
  const SendFailedMessage := "Failed to send invitations. Please try again."

  /** The success toast for `n` addresses. */
  function SentMessage(n: nat): (m: string)
    ensures |m| > 20 && m[..20] == "Invitations sent to "
    ensures m[|m| - 1] == 's' <==> n > 1
  {
    "Invitations sent to " + Text.NatToString(n) + " email" + (if n > 1 then "s" else "")
  }

  /** The number in the success message reads back as the count. */
  lemma SentMessageCount(n: nat)
    ensures Text.ParseInt(SentMessage(n)[20..]) == Some(n)
  {
    var rest := " email" + (if n > 1 then "s" else "");
    assert SentMessage(n)[20..] == Text.NatToString(n) + rest;
    Text.ParseIntOfNumeral(n, rest);
  }

  // ------------------------------------------------------------ labels

  const ExpiryLabels: map<string, string> :=
    map["1h" := "1 hour", "24h" := "24 hours", "7d" := "7 days", "30d" := "30 days", "never" := "Never expires"]

  /** The values and item labels of the expiry select. */
  const ExpiryChoices: seq<(string, string)> :=
    [("1h", "1 hour"), ("24h", "24 hours"), ("7d", "7 days"), ("30d", "30 days"), ("never", "Never")]

  /** `getExpiryText`: the label of a known key, anything else unchanged. */
  function ExpiryText(value: string): (text: string)
    ensures value in ExpiryLabels ==> text == ExpiryLabels[value]
    ensures value !in ExpiryLabels ==> text == value
  {
    if value in ExpiryLabels then ExpiryLabels[value] else value
  }

  /** No label is itself a key, so labelling a label changes nothing; and
      for every choice of the select the summary begins with the item's own
      label. */
  lemma ExpiryTextProperties(value: string)
    ensures ExpiryText(ExpiryText(value)) == ExpiryText(value)
    ensures forall i :: 0 <= i < |ExpiryChoices| ==>
      var (v, shown) := ExpiryChoices[i];
      shown <= ExpiryText(v)
  {
    assert "Never" <= "Never expires";
  }

  /** The max-uses summary: the "unlimited" case and the numeric case both
      show the selected value as it is. */
  function MaxUsesLabel(maxUses: string): (shown: string)
    ensures shown == maxUses
  {
    if maxUses == "unlimited" then "unlimited" else maxUses
  }

  // ------------------------------------------------------------ dialog state

  datatype SendStart = Rejected(message: string) | Sending(emails: seq<string>)

  /** The dialog's `useState` fields that sending reads and writes. */
  class InviteDialogView {
    var open: bool
    var loading: bool
    var emailList: string
    var customMessage: string
    var role: EditableRole

    constructor ()
      ensures !open && !loading && emailList == "" && customMessage == "" && role == Member
    {
      open := false;
      loading := false;
      emailList := "";
      customMessage := "";
      role := Member;
    }

    /** `handleSendEmailInvites` up to the simulated call: either a guard
        rejects with its message and nothing changes, or the parsed
        addresses go out with the spinner on. */
    method BeginSendEmailInvites() returns (s: SendStart)
      modifies this`loading
      ensures Text.Trim(emailList) == "" ==> s == Rejected(BlankMessage)
      ensures Text.Trim(emailList) != "" && ParseEmails(emailList) == [] ==> s == Rejected(NoValidMessage)
      ensures s.Rejected? ==> loading == old(loading)
      ensures s.Sending? <==> ParseEmails(emailList) != []
      ensures s.Sending? ==> s.emails == ParseEmails(emailList) && loading
    {
      if Text.Trim(emailList) == "" {
        BlankHasNoEntries(emailList);
        return Rejected(BlankMessage);
      }
      var emails := ParseEmails(emailList);
      if |emails| == 0 {
        return Rejected(NoValidMessage);
      }
      loading := true;
      s := Sending(emails);
    }

    /** `handleSendEmailInvites` after the call, for `n` addresses: on
        success the list and the message are cleared and the dialog closes;
        the spinner stops either way. */
    method FinishSendEmailInvites(n: nat, failed: bool) returns (toast: string)
      modifies this`loading, this`emailList, this`customMessage, this`open
      ensures !loading
      ensures failed ==> (toast == SendFailedMessage
        && emailList == old(emailList) && customMessage == old(customMessage) && open == old(open))
      ensures !failed ==> toast == SentMessage(n) && emailList == "" && customMessage == "" && !open
    {
      if failed {
        toast := SendFailedMessage;
      } else {
        toast := SentMessage(n);
        emailList := "";
        customMessage := "";
        open := false;
      }
      loading := false;
    }

    /** `handleSendEmailInvites` as a whole, where `failed` stands for the
        simulated call throwing: a rejected list changes nothing, and a
        sent one reports the number of parsed addresses. */
    method SendEmailInvites(failed: bool) returns (toast: string)
      modifies this`loading, this`emailList, this`customMessage, this`open
      ensures Text.Trim(old(emailList)) == "" ==> toast == BlankMessage
      ensures Text.Trim(old(emailList)) != "" && ParseEmails(old(emailList)) == [] ==> toast == NoValidMessage
      ensures ParseEmails(old(emailList)) == [] ==>
        loading == old(loading) && emailList == old(emailList)
        && customMessage == old(customMessage) && open == old(open)
      ensures ParseEmails(old(emailList)) != [] ==> !loading
      ensures ParseEmails(old(emailList)) != [] && failed ==>
        toast == SendFailedMessage && emailList == old(emailList)
        && customMessage == old(customMessage) && open == old(open)
      ensures ParseEmails(old(emailList)) != [] && !failed ==>
        toast == SentMessage(|ParseEmails(old(emailList))|)
        && emailList == "" && customMessage == "" && !open
    {
      var s := BeginSendEmailInvites();
      if s.Rejected? {
        return s.message;
      }
      toast := FinishSendEmailInvites(|s.emails|, failed);
    }
  }
}
