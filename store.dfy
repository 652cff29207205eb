/** The Flask routes of feedback-backend/app.py as methods of an in-memory
    store. Each table is a sequence of rows; each AUTOINCREMENT column is a
    counter holding the next id. The routes call each other only through
    the database, so every method is checked against the table functions
    of module Tables. */
module Backend {
  import opened Common
  import opened Tables

  class Store {
    var users: seq<UserRow>
    var feedback: seq<FeedbackRow>
    var comments: seq<CommentRow>
    var requests: seq<RequestRow>
    var peer: seq<PeerRow>
    var nextFeedbackId: int
    var nextCommentId: int
    var nextRequestId: int

    /** The constraints of the schema: unique keys, ids below their
        AUTOINCREMENT counter, and a 0/1 acknowledged flag. */
    ghost predicate Valid()
      reads this
    {
      && UsersWellFormed(users)
      && nextFeedbackId >= 1 && nextCommentId >= 1 && nextRequestId >= 1
      && FeedbackWellFormed(feedback, nextFeedbackId)
      && CommentsWellFormed(comments, nextCommentId)
      && RequestsWellFormed(requests, nextRequestId)
      && PeerWellFormed(peer)
    }

    /** `initialize_db` on a database whose users and peer_feedback tables
        were filled by other means; the remaining tables start empty. */
    constructor (users0: seq<UserRow>, peer0: seq<PeerRow>)
      requires UsersWellFormed(users0) && PeerWellFormed(peer0)
      ensures Valid()
      ensures users == users0 && peer == peer0
      ensures feedback == [] && comments == [] && requests == []
      ensures nextFeedbackId == 1 && nextCommentId == 1 && nextRequestId == 1
    {
      users, peer := users0, peer0;
      feedback, comments, requests := [], [], [];
      nextFeedbackId, nextCommentId, nextRequestId := 1, 1, 1;
    }

    /** POST /api/login. */
    method Login(email: string, password: string, role: string, hash: string -> string)
      returns (r: LoginOutcome)
      requires Valid()
      ensures r == CheckLogin(users, email, password, role, hash)
      ensures r.LoggedIn? <==> exists u :: u in users && Matches(u, email, hash(password)) && u.role == role
      ensures r.Rejected? && r.status == 403 <==>
        exists u :: u in users && Matches(u, email, hash(password)) && u.role != role
    {
      r := CheckLogin(users, email, password, role, hash);
    }

    /** GET /api/employees. */
    method ListEmployees() returns (r: seq<EmployeeEntry>)
      ensures r == EmployeeDirectory(users)
    {
      r := EmployeeDirectory(users);
    }

    /** POST /api/feedback: one new unacknowledged row with a fresh id. */
    method SubmitFeedback(managerId: int, employeeId: int, strengths: string, improvements: string,
                          sentiment: string, tags: Option<string>, now: Timestamp)
      returns (id: int)
      requires Valid()
      modifies this`feedback, this`nextFeedbackId
      ensures Valid()
      ensures id == old(nextFeedbackId) && nextFeedbackId == id + 1
      ensures forall i :: 0 <= i < |old(feedback)| ==> old(feedback)[i].id != id
      ensures feedback == old(feedback) + [NewFeedbackRow(id, managerId, employeeId, strengths, improvements,
                                                          sentiment, tags, now)]
      ensures forall e :: UnreadCount(feedback, e) ==
                          UnreadCount(old(feedback), e) + (if e == employeeId then 1 else 0)
    {
      id := nextFeedbackId;
      var row := NewFeedbackRow(id, managerId, employeeId, strengths, improvements, sentiment, tags, now);
      forall e ensures UnreadCount(feedback + [row], e) ==
                       UnreadCount(feedback, e) + (if e == employeeId then 1 else 0)
      {
        UnreadAfterInsert(feedback, row, e);
      }
      FeedbackAppendWellFormed(feedback, nextFeedbackId, row);
      feedback := feedback + [row];
      nextFeedbackId := nextFeedbackId + 1;
    }

    /** GET /api/feedback/<employee_id>: the employee's rows newest first,
        each with the comment fetched for it. */
    method GetFeedback(employeeId: int) returns (list: seq<EmployeeFeedbackView>)
      ensures list == EmployeeListing(feedback, comments, employeeId)
    {
      var rows := EmployeeQuery(feedback, employeeId);
      list := [];
      var i := 0;
      while i < |rows|
        invariant 0 <= i <= |rows|
        invariant |list| == i
        invariant forall k :: 0 <= k < i ==> list[k] == EmployeeView(rows[k], comments)
      {
        var r := rows[i];
        var comment := FindComment(comments, r.id);
        list := list + [EmployeeFeedbackView(r.id, r.manager_id, r.strengths, r.improvements, r.sentiment,
                                             None, r.timestamp, r.acknowledged, comment)];
        i := i + 1;
      }
    }

    /** PUT /api/feedback/<feedback_id>/acknowledge. It answers 200 whether
        or not a row has that id. */
    method AcknowledgeFeedback(feedbackId: int)
      requires Valid()
      modifies this`feedback
      ensures Valid()
      ensures feedback == Acknowledged(old(feedback), feedbackId)
      ensures AckMonotone(old(feedback), feedback)
      ensures forall e :: UnreadCount(feedback, e) ==
                          UnreadCount(old(feedback), e) - (if IsUnreadOf(old(feedback), feedbackId, e) then 1 else 0)
    {
      forall e ensures UnreadCount(Acknowledged(feedback, feedbackId), e) ==
                       UnreadCount(feedback, e) - (if IsUnreadOf(feedback, feedbackId, e) then 1 else 0)
      {
        UnreadAfterAcknowledge(feedback, feedbackId, e);
      }
      AckMonotoneApply(feedback, Acknowledge(feedbackId));
      feedback := Acknowledged(feedback, feedbackId);
    }

    /** PUT /api/feedback/<feedback_id>: rewrites the text columns, the tags
        and the timestamp of that row. */
    method UpdateFeedback(feedbackId: int, strengths: string, improvements: string, sentiment: string,
                          tags: Option<string>, now: Timestamp)
      requires Valid()
      modifies this`feedback
      ensures Valid()
      ensures feedback == Updated(old(feedback), feedbackId, strengths, improvements, sentiment, tags, now)
      ensures AckMonotone(old(feedback), feedback)
      ensures forall e :: UnreadCount(feedback, e) == UnreadCount(old(feedback), e)
    {
      forall e ensures UnreadCount(Updated(feedback, feedbackId, strengths, improvements, sentiment, tags, now), e) ==
                       UnreadCount(feedback, e)
      {
        UnreadAfterUpdate(feedback, feedbackId, strengths, improvements, sentiment, tags, now, e);
      }
      feedback := Updated(feedback, feedbackId, strengths, improvements, sentiment, tags, now);
    }

    /** GET /api/manager/<manager_id>/feedback. */
    method GetManagerFeedback(managerId: int) returns (list: seq<ManagerFeedbackView>)
      ensures list == ManagerListing(feedback, comments, managerId)
    {
      var rows := ManagerQuery(feedback, managerId);
      list := [];
      var i := 0;
      while i < |rows|
        invariant 0 <= i <= |rows|
        invariant |list| == i
        invariant forall k :: 0 <= k < i ==> list[k] == ManagerView(rows[k], comments)
      {
        var r := rows[i];
        var comment := FindComment(comments, r.id);
        list := list + [ManagerFeedbackView(r.id, r.employee_id, r.strengths, r.improvements, r.sentiment,
                                            r.tags, r.timestamp, comment)];
        i := i + 1;
      }
    }

    /** GET /api/feedback/unread/<employee_id>. The count agrees with the
        unacknowledged objects of GET /api/feedback/<employee_id>. */
    method GetUnreadFeedbackCount(employeeId: int) returns (count: nat)
      ensures count == UnreadCount(feedback, employeeId)
      ensures count == |Filter(EmployeeListing(feedback, comments, employeeId), IsUnreadView)|
    {
      count := UnreadCount(feedback, employeeId);
      ListingAgreesWithUnreadCount(feedback, comments, employeeId);
    }

    /** POST /api/request-feedback. */
    method RequestFeedback(employeeId: int, managerId: int, now: Timestamp) returns (id: int)
      requires Valid()
      modifies this`requests, this`nextRequestId
      ensures Valid()
      ensures id == old(nextRequestId) && nextRequestId == id + 1
      ensures requests == old(requests) + [RequestRow(id, employeeId, managerId, now)]
    {
      id := nextRequestId;
      RequestAppendWellFormed(requests, nextRequestId, RequestRow(id, employeeId, managerId, now));
      requests := requests + [RequestRow(id, employeeId, managerId, now)];
      nextRequestId := nextRequestId + 1;
    }

    /** GET /api/requests/<manager_id>. */
    method GetFeedbackRequests(managerId: int) returns (r: seq<RequestView>)
      ensures r == RequestListing(requests, users, managerId)
    {
      r := RequestListing(requests, users, managerId);
    }

    /** GET /api/peer-feedback/<employee_id>: the sender is masked exactly
        for anonymous feedback. */
    method GetPeerFeedback(employeeId: int) returns (r: seq<PeerView>)
      ensures r == PeerListing(peer, employeeId)
      ensures forall i :: 0 <= i < |r| ==> (r[i].sender_id.None? <==> r[i].anonymous != 0)
    {
      r := PeerListing(peer, employeeId);
      PeerListingSound(peer, employeeId);
    }

    /** POST /api/feedback/<feedback_id>/comment. The insert is unconditional:
        neither the feedback id nor an earlier comment is checked. */
    method AddComment(feedbackId: int, employeeId: Option<int>, content: Option<string>, now: Timestamp)
      returns (id: int)
      requires Valid()
      modifies this`comments, this`nextCommentId
      ensures Valid()
      ensures id == old(nextCommentId) && nextCommentId == id + 1
      ensures comments == old(comments) + [CommentRow(id, feedbackId, employeeId, content, now)]
      ensures FindComment(comments, feedbackId).Some?
    {
      id := nextCommentId;
      var c := CommentRow(id, feedbackId, employeeId, content, now);
      assert c in comments + [c];
      CommentAppendWellFormed(comments, nextCommentId, c);
      comments := comments + [c];
      nextCommentId := nextCommentId + 1;
    }
  }
}
