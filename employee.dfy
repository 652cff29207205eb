/** The employee's page (feedback-tool/src/pages/EmployeeDashboard.js): the
    colleague list, comment and peer-feedback validation, the per-record
    comment drafts, the widgets each record shows, the unread banner and the
    lines of the PDF export. Each request to the backend is a call on a
    `Store`; `delivered` says whether the request went through. */
module EmployeeClient {
  import opened Common
  import opened Tables
  import opened Backend

  // --------------------------------------------------------- colleagues

  function NotMe(me: int): EmployeeEntry -> bool
  {
    (emp: EmployeeEntry) => emp.id != me
  }

  /** `res.data.filter(emp => emp.id !== currentUserId)`. */
  function Colleagues(employees: seq<EmployeeEntry>, me: int): (r: seq<EmployeeEntry>)
    ensures forall i :: 0 <= i < |r| ==> r[i] in employees && r[i].id != me
    ensures forall x :: x in employees && x.id != me ==> x in r
    ensures multiset(r) <= multiset(employees)
  {
    var r := Filter(employees, NotMe(me));
    assert forall i :: 0 <= i < |r| ==> NotMe(me)(r[i]);
    assert forall x :: x in employees && x.id != me ==> x in r by {
      forall x | x in employees && x.id != me ensures x in r {
        var k :| 0 <= k < |employees| && employees[k] == x;
        assert NotMe(me)(employees[k]);
      }
    }
    r
  }

  /** The colleague list keeps the order of the employee list. */
  lemma ColleaguesOrder(a: seq<EmployeeEntry>, b: seq<EmployeeEntry>, me: int)
    ensures Colleagues(a + b, me) == Colleagues(a, me) + Colleagues(b, me)
  {
    FilterConcat(a, b, NotMe(me));
  }

  /** `x` is an employee account other than `me`. */
  ghost predicate ColleagueOf(users: seq<UserRow>, me: int, x: EmployeeEntry)
  {
    exists u :: u in users && u.role == "employee" && u.id != me && x == EmployeeEntry(u.id, u.email)
  }

  /** On the list served by /api/employees, the colleagues are exactly the
      users with role 'employee' other than the current user. */
  lemma ColleaguesOfDirectory(users: seq<UserRow>, me: int)
    ensures forall x :: x in Colleagues(EmployeeDirectory(users), me) ==> ColleagueOf(users, me, x)
    ensures forall u :: u in users && u.role == "employee" && u.id != me ==>
      EmployeeEntry(u.id, u.email) in Colleagues(EmployeeDirectory(users), me)
  {
    var d := EmployeeDirectory(users);
    var r := Colleagues(d, me);
    forall x | x in r ensures ColleagueOf(users, me, x) {
      var i :| 0 <= i < |r| && r[i] == x;
      assert r[i] in d && r[i].id != me;
      var j :| 0 <= j < |d| && d[j] == r[i];
      var u :| u in users && u.role == "employee" && d[j] == EmployeeEntry(u.id, u.email);
      assert u.id != me && x == EmployeeEntry(u.id, u.email);
    }
  }

  // ------------------------------------------------------------- drafts

  /** A fetched record with its comment draft (`{ ...fb, newComment }`). */
  datatype DraftedFeedback = DraftedFeedback(view: EmployeeFeedbackView, newComment: string)

  /** `res.data.map(fb => ({ ...fb, newComment: "" }))`. */
  function WithDrafts(views: seq<EmployeeFeedbackView>): (r: seq<DraftedFeedback>)
    ensures |r| == |views|
    ensures forall i :: 0 <= i < |r| ==> r[i].newComment == ""
  {
    seq(|views|, i requires 0 <= i < |views| => DraftedFeedback(views[i], ""))
  }

  /** The fetched objects without their drafts. */
  function Views(ds: seq<DraftedFeedback>): (r: seq<EmployeeFeedbackView>)
    ensures |r| == |ds|
  {
    seq(|ds|, i requires 0 <= i < |ds| => ds[i].view)
  }

  /** Adding drafts keeps every fetched object as it was, in its place. */
  lemma DraftsKeepRecords(views: seq<EmployeeFeedbackView>)
    ensures Views(WithDrafts(views)) == views
  {
    var r := Views(WithDrafts(views));
    assert forall i :: 0 <= i < |views| ==> r[i] == views[i];
  }

  // --------------------------------------------------------- validation

  /** `!content || !content.trim()` rejects: a missing, empty or blank
      comment is not posted. */
  function CommentAccepted(content: Option<string>): (ok: bool)
    ensures ok <==> content.Some? && !IsBlank(content.value)
  {
    if content.None? || content.value == "" then false
    else
      TrimEmptyIffBlank(content.value);
      Trim(content.value) != []
  }

  /** `!peerTargetId || !peerContent.trim()` rejects; no selected colleague
      is the empty string (None). */
  function PeerSubmitAllowed(target: Option<int>, content: string): (ok: bool)
    ensures ok <==> target.Some? && !IsBlank(content)
  {
    TrimEmptyIffBlank(content);
    !(target.None? || Trim(content) == [])
  }

  /** The body of the POST to /api/peer-feedback. */
  datatype PeerSubmission = PeerSubmission(sender_id: int, receiver_id: int, content: string, anonymous: bool)

  // ------------------------------------------------------------ widgets

  /** `fb.acknowledged ? <p>Acknowledged</p> : <button>Acknowledge</button>`. */
  datatype AckWidget = AcknowledgedLabel | AcknowledgeButton

  function AckWidgetFor(fb: EmployeeFeedbackView): AckWidget
  {
    if fb.acknowledged != 0 then AcknowledgedLabel else AcknowledgeButton
  }

  /** `fb.comment ? <comment> : <textarea value={fb.newComment}>`. */
  datatype CommentWidget = CommentDisplay(content: Option<string>, timestamp: Timestamp) | CommentForm(draft: string)

  function CommentWidgetFor(d: DraftedFeedback): CommentWidget
  {
    match d.view.comment
    case Some(c) => CommentDisplay(c.content, c.timestamp)
    case None => CommentForm(d.newComment)
  }

  function ShowsAckButton(d: DraftedFeedback): bool
  {
    AckWidgetFor(d.view) == AcknowledgeButton
  }

  /** On the fetched records, the Acknowledge buttons are as many as the
      unread count the backend reports. */
  lemma AckButtonsCountUnread(rows: seq<FeedbackRow>, comments: seq<CommentRow>, e: int)
    ensures |Filter(WithDrafts(EmployeeListing(rows, comments, e)), ShowsAckButton)| == UnreadCount(rows, e)
  {
    var l := EmployeeListing(rows, comments, e);
    var ds := WithDrafts(l);
    assert forall i :: 0 <= i < |ds| ==> ds[i].view == l[i];
    FilterCountPointwise(ds, ShowsAckButton, l, IsUnreadView);
    ListingAgreesWithUnreadCount(rows, comments, e);
  }

  /** On the fetched records, the comment form is shown exactly for the
      feedback that has no stored comment, and shows the draft. */
  lemma CommentFormIffNoComment(rows: seq<FeedbackRow>, comments: seq<CommentRow>, e: int)
    ensures var ds := WithDrafts(EmployeeListing(rows, comments, e));
      forall i :: 0 <= i < |ds| ==>
        (CommentWidgetFor(ds[i]).CommentForm? <==> !HasComment(comments, ds[i].view.id))
        && (CommentWidgetFor(ds[i]).CommentForm? ==> CommentWidgetFor(ds[i]).draft == "")
  {
    var l := EmployeeListing(rows, comments, e);
    EmployeeListingSound(rows, comments, e);
    var ds := WithDrafts(l);
    assert forall i :: 0 <= i < |ds| ==> ds[i].view == l[i];
  }

  /** `pf.anonymous ? "Anonymous" : "From User ID: " + pf.sender_id`; a
      null sender renders as nothing. */
  function SenderLabel(pf: PeerView): string
  {
    if pf.anonymous != 0 then "Anonymous"
    else "From User ID: " + (if pf.sender_id.Some? then IntToString(pf.sender_id.value) else "")
  }

  /** On the listing of /api/peer-feedback/<employee_id>, the page says
      "Anonymous" exactly for anonymous feedback, and otherwise names the
      sender stored on the row that object shows. */
  lemma SenderLabelsOfListing(peer: seq<PeerRow>, e: int)
    ensures var r := PeerListing(peer, e);
      forall i :: 0 <= i < |r| ==>
        && (SenderLabel(r[i]) == "Anonymous" <==> r[i].anonymous != 0)
        && (r[i].anonymous == 0 ==>
              && r[i].sender_id.Some?
              && SenderLabel(r[i]) == "From User ID: " + IntToString(r[i].sender_id.value)
              && exists x :: x in peer && x.receiver_id == e && x.anonymous == 0
                             && x.content == r[i].content && x.timestamp == r[i].timestamp
                             && r[i].sender_id == Some(x.sender_id))
  {
    var r := PeerListing(peer, e);
    PeerListingSound(peer, e);
    forall i | 0 <= i < |r|
      ensures SenderLabel(r[i]) == "Anonymous" <==> r[i].anonymous != 0
    {
      if r[i].anonymous == 0 {
        assert SenderLabel(r[i])[0] == 'F';
      }
    }
  }

  /** The alert box: a bell, then the count and "feedback" with a plural
      's' for more than one; shown only when `unreadCount > 0`. */
  function UnreadBanner(count: int): (r: Option<string>)
    ensures r.Some? <==> count > 0
    ensures r.Some? ==> r.value != [] && r.value[0] == '\U{1F514}'
  {
    if count > 0 then Some("\U{1F514} You have " + IntToString(count) + " unread feedback" + (if count > 1 then "s" else "") + "!")
    else None
  }

  /** The banner ends in "feedbacks!" exactly when more than one feedback is
      unread, and in "feedback!" when one is. */
  lemma BannerPlural(count: int)
    requires count > 0
    ensures var text := UnreadBanner(count).value;
      && |text| >= 10
      && (count > 1 <==> text[|text| - 10..] == "feedbacks!")
      && (count == 1 <==> text[|text| - 9..] == "feedback!" && text[|text| - 10] == ' ')
  {
    var text := UnreadBanner(count).value;
    var head := "\U{1F514} You have " + IntToString(count) + " unread ";
    if count > 1 {
      assert text == head + "feedbacks!";
    } else {
      assert text == head + "feedback!";
      assert text[|text| - 10..] != "feedbacks!" by {
        assert text[|text| - 2] == 'k';
      }
    }
  }

  // ------------------------------------------------------------- export

  /** The five lines drawn for record `index`. */
  function ExportBlock(): (nat, DraftedFeedback) -> seq<string>
  {
    (index: nat, d: DraftedFeedback) =>
      [ "Feedback " + NatToString(index + 1) + ":",
        "Strengths: " + d.view.strengths,
        "Improvements: " + d.view.improvements,
        "Sentiment: " + d.view.sentiment,
        "Tags: " + Or(d.view.tags, "N/A") ]
  }

  function ExportHeader(email: string): string
  {
    "Feedback for " + email
  }

  /** The text lines of exportAsPDF. */
  function ExportText(email: string, records: seq<DraftedFeedback>): seq<string>
  {
    [ExportHeader(email)] + Blocks(records, ExportBlock())
  }

  /** Record `k` occupies lines `5k+1` to `5k+5`. */
  lemma ExportBlockAt(email: string, records: seq<DraftedFeedback>, k: nat)
    requires k < |records|
    ensures var lines := ExportText(email, records);
      5 * k + 5 < |lines| && lines[5 * k + 1 .. 5 * k + 6] == ExportBlock()(k, records[k])
  {
    var block := ExportBlock();
    assert forall j: nat, x: DraftedFeedback :: |block(j, x)| == 5;
    BlockAt(records, block, 5, k);
    var lines := ExportText(email, records);
    assert lines == [ExportHeader(email)] + Blocks(records, block);
  }

  /** Line `5k+5` is the tags line of record `k`. */
  lemma ExportTagsAt(email: string, records: seq<DraftedFeedback>, k: nat)
    requires k < |records|
    ensures var lines := ExportText(email, records);
      5 * k + 5 < |lines| && lines[5 * k + 5] == "Tags: " + Or(records[k].view.tags, "N/A")
  {
    ExportBlockAt(email, records, k);
    var lines := ExportText(email, records);
    assert lines[5 * k + 5] == lines[5 * k + 1 .. 5 * k + 6][4];
  }

  /** The header, then one block of five lines per record in input order,
      numbered from 1, with "N/A" for missing or empty tags; an empty list
      gives the header alone. */
  lemma ExportTextShape(email: string, records: seq<DraftedFeedback>)
    ensures var lines := ExportText(email, records);
      && |lines| == 1 + 5 * |records|
      && lines[0] == "Feedback for " + email
      && (forall k :: 0 <= k < |records| ==>
            && lines[5 * k + 1] == "Feedback " + NatToString(k + 1) + ":"
            && lines[5 * k + 2] == "Strengths: " + records[k].view.strengths
            && lines[5 * k + 3] == "Improvements: " + records[k].view.improvements
            && lines[5 * k + 4] == "Sentiment: " + records[k].view.sentiment
            && lines[5 * k + 5] == "Tags: " + (if records[k].view.tags.Some? && records[k].view.tags.value != ""
                                                then records[k].view.tags.value else "N/A"))
  {
    var lines := ExportText(email, records);
    var block := ExportBlock();
    assert forall j: nat, x: DraftedFeedback :: |block(j, x)| == 5;
    BlocksLength(records, block, 5);
    forall k | 0 <= k < |records|
      ensures lines[5 * k + 1] == "Feedback " + NatToString(k + 1) + ":"
      ensures lines[5 * k + 2] == "Strengths: " + records[k].view.strengths
      ensures lines[5 * k + 3] == "Improvements: " + records[k].view.improvements
      ensures lines[5 * k + 4] == "Sentiment: " + records[k].view.sentiment
      ensures lines[5 * k + 5] == "Tags: " + Or(records[k].view.tags, "N/A")
    {
      ExportBlockAt(email, records, k);
      var b := lines[5 * k + 1 .. 5 * k + 6];
      assert lines[5 * k + 1] == b[0] && lines[5 * k + 2] == b[1] && lines[5 * k + 3] == b[2];
      assert lines[5 * k + 4] == b[3] && lines[5 * k + 5] == b[4];
    }
  }

  /** The records come from GET /api/feedback/<employee_id>, which does not
      select the tags column, so the export says "Tags: N/A" for each. */
  lemma ExportNeverShowsTags(rows: seq<FeedbackRow>, comments: seq<CommentRow>, e: int, email: string)
    ensures var records := WithDrafts(EmployeeListing(rows, comments, e));
      var lines := ExportText(email, records);
      forall k :: 0 <= k < |records| ==> 5 * k + 5 < |lines| && lines[5 * k + 5] == "Tags: N/A"
  {
    var l := EmployeeListing(rows, comments, e);
    var records := WithDrafts(l);
    var lines := ExportText(email, records);
    forall k | 0 <= k < |records| ensures 5 * k + 5 < |lines| && lines[5 * k + 5] == "Tags: N/A" {
      assert records[k].view == l[k];
      assert l[k].tags.None?;
      ExportTagsAt(email, records, k);
    }
  }

  /** The drawing loop of exportAsPDF. */
  method BuildExport(email: string, records: seq<DraftedFeedback>) returns (text: seq<string>)
    ensures text == ExportText(email, records)
  {
    text := [ExportHeader(email)];
    var block := ExportBlock();
    var i := 0;
    while i < |records|
      invariant 0 <= i <= |records|
      invariant text == [ExportHeader(email)] + Blocks(records[..i], block)
    {
      assert records[..i + 1][..i] == records[..i];
      text := text + block(i, records[i]);
      i := i + 1;
    }
    assert records[..i] == records;
  }

  /** After acknowledging `fid`, every reloaded record with that id shows
      the Acknowledged label. */
  lemma AcknowledgedShowsLabel(rows: seq<FeedbackRow>, comments: seq<CommentRow>, e: int, fid: int)
    ensures var ds := WithDrafts(EmployeeListing(Acknowledged(rows, fid), comments, e));
      forall i :: 0 <= i < |ds| && ds[i].view.id == fid ==> AckWidgetFor(ds[i].view) == AcknowledgedLabel
  {
    var after := Acknowledged(rows, fid);
    var views := EmployeeListing(after, comments, e);
    var ds := WithDrafts(views);
    forall i | 0 <= i < |ds| && ds[i].view.id == fid ensures AckWidgetFor(ds[i].view) == AcknowledgedLabel {
      assert ds[i].view == views[i];
      EmployeeListingAt(after, comments, e, i);
      var x :| x in after && x.employee_id == e && views[i] == EmployeeView(x, comments);
      AcknowledgedRow(rows, fid, x);
    }
  }

  /** After a comment on `c.feedback_id` is stored, every reloaded record
      with that id shows a comment instead of the form. */
  lemma CommentShown(rows: seq<FeedbackRow>, comments: seq<CommentRow>, c: CommentRow, e: int)
    ensures var ds := WithDrafts(EmployeeListing(rows, comments + [c], e));
      forall i :: 0 <= i < |ds| && ds[i].view.id == c.feedback_id ==> CommentWidgetFor(ds[i]).CommentDisplay?
  {
    var cs := comments + [c];
    var views := EmployeeListing(rows, cs, e);
    var ds := WithDrafts(views);
    forall i | 0 <= i < |ds| && ds[i].view.id == c.feedback_id ensures CommentWidgetFor(ds[i]).CommentDisplay? {
      assert ds[i].view == views[i];
      EmployeeListingSound(rows, cs, e);
      assert c in cs;
    }
  }

  // ----------------------------------------------------------- component

  /** The state of the EmployeeDashboard component. */
  class EmployeeDashboard {
    /** The stored email, `Number(localStorage.getItem('userId'))` (0 when
        absent) and the fixed manager every request goes to. */
    const email: string
    const currentUserId: int
    const managerId: int

    var myFeedback: seq<DraftedFeedback>
    var unreadCount: int
    var peerFeedback: seq<PeerView>
    var employees: seq<EmployeeEntry>

    var peerTargetId: Option<int>
    var peerContent: string
    var isAnonymous: bool

    /** The initial `useState` values. */
    constructor (email: string, currentUserId: int)
      ensures this.email == email && this.currentUserId == currentUserId && managerId == 1
      ensures myFeedback == [] && unreadCount == 0 && peerFeedback == [] && employees == []
      ensures peerTargetId == None && peerContent == "" && !isAnonymous
    {
      this.email, this.currentUserId, managerId := email, currentUserId, 1;
      myFeedback, unreadCount, peerFeedback, employees := [], 0, [], [];
      peerTargetId, peerContent, isAnonymous := None, "", false;
    }

    /** fetchFeedback and fetchUnreadCount: the records of
        GET /api/feedback/<currentUserId>, each with an empty draft, and the
        unread count, which equals the number of Acknowledge buttons. */
    method FetchOwnFeedback(store: Store)
      modifies this`myFeedback, this`unreadCount
      ensures myFeedback == WithDrafts(EmployeeListing(store.feedback, store.comments, currentUserId))
      ensures unreadCount == UnreadCount(store.feedback, currentUserId)
      ensures |Filter(myFeedback, ShowsAckButton)| == unreadCount
    {
      var views := store.GetFeedback(currentUserId);
      var count := store.GetUnreadFeedbackCount(currentUserId);
      AckButtonsCountUnread(store.feedback, store.comments, currentUserId);
      myFeedback, unreadCount := WithDrafts(views), count;
    }

    /** fetchPeerFeedback and the colleague list of the mount effect. */
    method FetchOthers(store: Store)
      modifies this`peerFeedback, this`employees
      ensures peerFeedback == PeerListing(store.peer, currentUserId)
      ensures employees == Colleagues(EmployeeDirectory(store.users), currentUserId)
    {
      var peer := store.GetPeerFeedback(currentUserId);
      var all := store.ListEmployees();
      peerFeedback, employees := peer, Colleagues(all, currentUserId);
    }

    /** The mount effect: with a logged-in user, load the feedback with
        empty drafts, the unread count, the peer feedback and the
        colleagues; without one, load nothing. */
    method Mount(store: Store)
      modifies this`myFeedback, this`unreadCount, this`peerFeedback, this`employees
      ensures currentUserId == 0 ==> unchanged(this)
      ensures currentUserId != 0 ==>
        && myFeedback == WithDrafts(EmployeeListing(store.feedback, store.comments, currentUserId))
        && unreadCount == UnreadCount(store.feedback, currentUserId)
        && peerFeedback == PeerListing(store.peer, currentUserId)
        && employees == Colleagues(EmployeeDirectory(store.users), currentUserId)
        && |Filter(myFeedback, ShowsAckButton)| == unreadCount
    {
      if currentUserId != 0 {
        FetchOwnFeedback(store);
        ghost var own, count := myFeedback, unreadCount;
        FetchOthers(store);
        assert myFeedback == own && unreadCount == count;
      }
    }

    /** handleAcknowledge: once the PUT is delivered, reload the records and
        the count. The acknowledged record then shows the label, and the
        count drops by one if that record was unread. */
    method HandleAcknowledge(store: Store, feedbackId: int, delivered: bool)
      requires store.Valid()
      modifies this`myFeedback, this`unreadCount, store`feedback
      ensures store.Valid()
      ensures !delivered ==> unchanged(this) && unchanged(store)
      ensures delivered ==>
        && store.feedback == Acknowledged(old(store.feedback), feedbackId)
        && myFeedback == WithDrafts(EmployeeListing(store.feedback, store.comments, currentUserId))
        && unreadCount == UnreadCount(store.feedback, currentUserId)
        && unreadCount == UnreadCount(old(store.feedback), currentUserId)
                          - (if IsUnreadOf(old(store.feedback), feedbackId, currentUserId) then 1 else 0)
        && |Filter(myFeedback, ShowsAckButton)| == unreadCount
        && (forall i :: 0 <= i < |myFeedback| && myFeedback[i].view.id == feedbackId ==>
              AckWidgetFor(myFeedback[i].view) == AcknowledgedLabel)
    {
      if !delivered {
        return;
      }
      store.AcknowledgeFeedback(feedbackId);
      ghost var rows := store.feedback;
      FetchOwnFeedback(store);
      assert store.feedback == rows;
      AcknowledgedShowsLabel(old(store.feedback), store.comments, currentUserId, feedbackId);
    }

    /** submitComment: a missing or blank comment posts nothing; a delivered
        one is stored with this user's id and the records are reloaded, so
        that feedback shows the comment instead of the form. */
    method SubmitComment(store: Store, feedbackId: int, content: Option<string>, delivered: bool, now: Timestamp)
      requires store.Valid()
      modifies this`myFeedback, store`comments, store`nextCommentId
      ensures store.Valid()
      ensures !CommentAccepted(content) || !delivered ==> unchanged(this) && unchanged(store)
      ensures CommentAccepted(content) && delivered ==>
        && store.comments == old(store.comments) +
             [CommentRow(old(store.nextCommentId), feedbackId, Some(currentUserId), content, now)]
        && myFeedback == WithDrafts(EmployeeListing(store.feedback, store.comments, currentUserId))
        && (forall i :: 0 <= i < |myFeedback| && myFeedback[i].view.id == feedbackId ==>
              CommentWidgetFor(myFeedback[i]).CommentDisplay?)
    {
      if !CommentAccepted(content) || !delivered {
        return;
      }
      var id := store.AddComment(feedbackId, Some(currentUserId), content, now);
      var views := store.GetFeedback(currentUserId);
      CommentShown(store.feedback, old(store.comments),
                   CommentRow(id, feedbackId, Some(currentUserId), content, now), currentUserId);
      myFeedback := WithDrafts(views);
    }

    /** handleRequestFeedback: a delivered request adds one request row from
        this user to manager 1. */
    method HandleRequestFeedback(store: Store, delivered: bool, now: Timestamp)
      requires store.Valid()
      modifies store`requests, store`nextRequestId
      ensures store.Valid()
      ensures !delivered ==> unchanged(store)
      ensures delivered ==>
        store.requests == old(store.requests) + [RequestRow(old(store.nextRequestId), currentUserId, managerId, now)]
    {
      if delivered {
        var _ := store.RequestFeedback(currentUserId, managerId, now);
      }
    }

    /** handleSubmitPeerFeedback: returns the body it posts, if any. The
        backend has no route for it, so no table changes; a delivered post
        clears the form. */
    method HandleSubmitPeerFeedback(delivered: bool) returns (sent: Option<PeerSubmission>)
      modifies this`peerTargetId, this`peerContent, this`isAnonymous
      ensures !PeerSubmitAllowed(old(peerTargetId), old(peerContent)) ==> sent.None? && unchanged(this)
      ensures PeerSubmitAllowed(old(peerTargetId), old(peerContent)) ==>
        sent == Some(PeerSubmission(currentUserId, old(peerTargetId).value, old(peerContent), old(isAnonymous)))
      ensures PeerSubmitAllowed(old(peerTargetId), old(peerContent)) && delivered ==>
        peerContent == "" && peerTargetId == None && !isAnonymous
      ensures !delivered ==> unchanged(this)
    {
      if !PeerSubmitAllowed(peerTargetId, peerContent) {
        return None;
      }
      sent := Some(PeerSubmission(currentUserId, peerTargetId.value, peerContent, isAnonymous));
      if delivered {
        peerContent, peerTargetId, isAnonymous := "", None, false;
      }
    }

    /** The textarea's onChange: only record `index` gets the new draft. */
    method EditDraft(index: int, text: string)
      requires 0 <= index < |myFeedback|
      modifies this`myFeedback
      ensures |myFeedback| == |old(myFeedback)|
      ensures myFeedback[index].newComment == text && myFeedback[index].view == old(myFeedback)[index].view
      ensures forall j :: 0 <= j < |myFeedback| && j != index ==> myFeedback[j] == old(myFeedback)[j]
    {
      myFeedback := myFeedback[index := myFeedback[index].(newComment := text)];
    }

    /** exportAsPDF. */
    method ExportAsPDF() returns (lines: seq<string>)
      ensures lines == ExportText(email, myFeedback)
    {
      lines := BuildExport(email, myFeedback);
    }
  }
}
