/** The SQLite tables of the feedback backend as sequences of rows, the JSON
    objects its routes return, and its queries and UPDATE statements as
    functions of the tables (feedback-backend/app.py). */
module Tables {
  import opened Common

  /** A timestamp column. The backend writes `datetime.utcnow().isoformat()`
      text, whose string order is the order of time; only that order is kept. */
  type Timestamp = int

  // ---------------------------------------------------------------- rows

  datatype UserRow = UserRow(id: int, email: string, password: string, role: string)

  /** A row of `feedback`; `tags` is NULL in rows written before the column
      existed, `acknowledged` is the INTEGER flag. */
  datatype FeedbackRow = FeedbackRow(
    id: int, manager_id: int, employee_id: int,
    strengths: string, improvements: string, sentiment: string,
    tags: Option<string>, timestamp: Timestamp, acknowledged: int)

  /** A row of `comments`; the route stores whatever content and employee id
      the request carried, possibly none. */
  datatype CommentRow = CommentRow(
    id: int, feedback_id: int, employee_id: Option<int>,
    content: Option<string>, timestamp: Timestamp)

  datatype RequestRow = RequestRow(id: int, employee_id: int, manager_id: int, timestamp: Timestamp)

  datatype PeerRow = PeerRow(
    id: int, sender_id: int, receiver_id: int,
    content: string, timestamp: Timestamp, anonymous: int)

  // ------------------------------------------------------- JSON results

  datatype Session = Session(userId: int, role: string, email: string)

  /** The body of /api/login: the session, or an HTTP status with its error text. */
  datatype LoginOutcome = LoggedIn(session: Session) | Rejected(status: int, error: string)

  datatype EmployeeEntry = EmployeeEntry(id: int, email: string)

  datatype CommentView = CommentView(content: Option<string>, timestamp: Timestamp)

  /** An object of /api/feedback/<employee_id>. The query does not select the
      tags column, so `tags` is always absent (None). */
  datatype EmployeeFeedbackView = EmployeeFeedbackView(
    id: int, manager_id: int,
    strengths: string, improvements: string, sentiment: string,
    tags: Option<string>, timestamp: Timestamp, acknowledged: int,
    comment: Option<CommentView>)

  /** An object of /api/manager/<manager_id>/feedback. */
  datatype ManagerFeedbackView = ManagerFeedbackView(
    id: int, employee_id: int,
    strengths: string, improvements: string, sentiment: string,
    tags: Option<string>, timestamp: Timestamp,
    comment: Option<CommentView>)

  datatype RequestView = RequestView(request_id: int, employee_email: string, timestamp: Timestamp)

  /** An object of /api/peer-feedback/<employee_id>; `sender_id` is null
      for anonymous feedback. */
  datatype PeerView = PeerView(content: string, timestamp: Timestamp, anonymous: int, sender_id: Option<int>)

  // ------------------------------------------------ table constraints

  /** `id INTEGER PRIMARY KEY AUTOINCREMENT` and `email TEXT UNIQUE`. */
  ghost predicate UsersWellFormed(users: seq<UserRow>)
  {
    forall i, j :: 0 <= i < j < |users| ==> users[i].id != users[j].id && users[i].email != users[j].email
  }

  /** Feedback ids are distinct and below the next AUTOINCREMENT value, and
      the flag holds 0 or 1. */
  ghost predicate FeedbackWellFormed(rows: seq<FeedbackRow>, next: int)
  {
    && (forall i :: 0 <= i < |rows| ==> 1 <= rows[i].id < next)
    && (forall i, j :: 0 <= i < j < |rows| ==> rows[i].id != rows[j].id)
    && (forall i :: 0 <= i < |rows| ==> rows[i].acknowledged == 0 || rows[i].acknowledged == 1)
  }

  ghost predicate CommentsWellFormed(rows: seq<CommentRow>, next: int)
  {
    && (forall i :: 0 <= i < |rows| ==> 1 <= rows[i].id < next)
    && (forall i, j :: 0 <= i < j < |rows| ==> rows[i].id != rows[j].id)
  }

  ghost predicate RequestsWellFormed(rows: seq<RequestRow>, next: int)
  {
    && (forall i :: 0 <= i < |rows| ==> 1 <= rows[i].id < next)
    && (forall i, j :: 0 <= i < j < |rows| ==> rows[i].id != rows[j].id)
  }

  ghost predicate PeerWellFormed(rows: seq<PeerRow>)
  {
    forall i, j :: 0 <= i < j < |rows| ==> rows[i].id != rows[j].id
  }

  /** An INSERT that takes the next AUTOINCREMENT id keeps the ids distinct
      and below the advanced counter. */
  lemma FeedbackAppendWellFormed(rows: seq<FeedbackRow>, next: int, row: FeedbackRow)
    requires FeedbackWellFormed(rows, next) && next >= 1
    requires row.id == next && row.acknowledged == 0
    ensures FeedbackWellFormed(rows + [row], next + 1)
  {
    var r := rows + [row];
    assert forall i :: 0 <= i < |rows| ==> r[i] == rows[i];
  }

  lemma CommentAppendWellFormed(rows: seq<CommentRow>, next: int, row: CommentRow)
    requires CommentsWellFormed(rows, next) && next >= 1 && row.id == next
    ensures CommentsWellFormed(rows + [row], next + 1)
  {
    var r := rows + [row];
    assert forall i :: 0 <= i < |rows| ==> r[i] == rows[i];
  }

  lemma RequestAppendWellFormed(rows: seq<RequestRow>, next: int, row: RequestRow)
    requires RequestsWellFormed(rows, next) && next >= 1 && row.id == next
    ensures RequestsWellFormed(rows + [row], next + 1)
  {
    var r := rows + [row];
    assert forall i :: 0 <= i < |rows| ==> r[i] == rows[i];
  }

  // -------------------------------------------------------------- login

  predicate Matches(u: UserRow, email: string, hashed: string)
  {
    u.email == email && u.password == hashed
  }

  /** `SELECT id, role FROM users WHERE email = ? AND password = ?` with
      `fetchone`. */
  function FindCredentials(users: seq<UserRow>, email: string, hashed: string): (r: Option<UserRow>)
    ensures r.None? <==> forall u :: u in users ==> !Matches(u, email, hashed)
    ensures r.Some? ==> r.value in users && Matches(r.value, email, hashed)
  {
    if users == [] then None
    else if Matches(users[0], email, hashed) then Some(users[0])
    else
      assert users == [users[0]] + users[1..];
      FindCredentials(users[1..], email, hashed)
  }

  /** The 403 text of /api/login. */
  function WrongRoleError(role: string): string
  {
    "You are not a " + role + ". Please choose the correct role."
  }

  /** /api/login. `hash` stands for `sha256(...).hexdigest()`. A user is
      logged in only with matching email, password digest and role; a
      matching user with another role is refused with 403; no matching user
      gives 401. */
  function CheckLogin(users: seq<UserRow>, email: string, password: string, role: string,
                      hash: string -> string): (r: LoginOutcome)
    ensures r.LoggedIn? ==>
      exists u :: u in users && Matches(u, email, hash(password)) && u.role == role
                  && r.session == Session(u.id, role, email)
    ensures r.Rejected? ==>
      || (r.status == 401 && r.error == "Invalid email or password")
      || (r.status == 403 && r.error == WrongRoleError(role))
    ensures (r.Rejected? && r.status == 401) <==> forall u :: u in users ==> !Matches(u, email, hash(password))
    ensures UsersWellFormed(users) ==>
      (r.LoggedIn? <==> exists u :: u in users && Matches(u, email, hash(password)) && u.role == role)
    ensures UsersWellFormed(users) ==>
      ((r.Rejected? && r.status == 403) <==>
        exists u :: u in users && Matches(u, email, hash(password)) && u.role != role)
  {
    var hashed := hash(password);
    match FindCredentials(users, email, hashed)
    case None => Rejected(401, "Invalid email or password")
    case Some(u) =>
      UniqueMatch(users, email, hashed, u);
      if u.role != role then Rejected(403, WrongRoleError(role))
      else LoggedIn(Session(u.id, u.role, email))
  }

  /** With unique emails, a matching user is the only one. */
  lemma UniqueMatch(users: seq<UserRow>, email: string, hashed: string, u: UserRow)
    requires u in users && Matches(u, email, hashed)
    ensures UsersWellFormed(users) ==> forall v :: v in users && Matches(v, email, hashed) ==> v == u
  {
    if UsersWellFormed(users) {
      forall v | v in users && Matches(v, email, hashed) ensures v == u {
        var i :| 0 <= i < |users| && users[i] == u;
        var j :| 0 <= j < |users| && users[j] == v;
      }
    }
  }

  // ------------------------------------------------------- employees

  function IsEmployeeUser(u: UserRow): bool
  {
    u.role == "employee"
  }

  /** /api/employees: `SELECT id, email FROM users WHERE role = 'employee'`. */
  function EmployeeDirectory(users: seq<UserRow>): (r: seq<EmployeeEntry>)
    ensures |r| == |Filter(users, IsEmployeeUser)|
    ensures forall i :: 0 <= i < |r| ==>
      exists u :: u in users && u.role == "employee" && r[i] == EmployeeEntry(u.id, u.email)
    ensures forall u :: u in users && u.role == "employee" ==> EmployeeEntry(u.id, u.email) in r
  {
    var q := Filter(users, IsEmployeeUser);
    var r := seq(|q|, i requires 0 <= i < |q| => EmployeeEntry(q[i].id, q[i].email));
    assert forall i :: 0 <= i < |r| ==> q[i] in users && r[i] == EmployeeEntry(q[i].id, q[i].email);
    assert forall u :: u in users && u.role == "employee" ==> EmployeeEntry(u.id, u.email) in r by {
      forall u | u in users && u.role == "employee" ensures EmployeeEntry(u.id, u.email) in r {
        var k :| 0 <= k < |users| && users[k] == u;
        assert IsEmployeeUser(users[k]);
        var j :| 0 <= j < |q| && q[j] == u;
        assert r[j] == EmployeeEntry(u.id, u.email);
      }
    }
    r
  }

  // ----------------------------------------------------- feedback rows

  function FeedbackTs(r: FeedbackRow): int { r.timestamp }

  function ForEmployee(e: int): FeedbackRow -> bool
  {
    (r: FeedbackRow) => r.employee_id == e
  }

  function ForManager(m: int): FeedbackRow -> bool
  {
    (r: FeedbackRow) => r.manager_id == m
  }

  /** The row INSERTed by /api/feedback: a missing tags value becomes "",
      the flag takes its DEFAULT 0. */
  function NewFeedbackRow(id: int, manager: int, employee: int, strengths: string, improvements: string,
                          sentiment: string, tags: Option<string>, now: Timestamp): FeedbackRow
  {
    FeedbackRow(id, manager, employee, strengths, improvements, sentiment,
                Some(if tags.Some? then tags.value else ""), now, 0)
  }

  /** `UPDATE feedback SET acknowledged = 1 WHERE id = ?`. */
  function Acknowledged(rows: seq<FeedbackRow>, fid: int): (r: seq<FeedbackRow>)
    ensures |r| == |rows|
    ensures forall i :: 0 <= i < |rows| ==>
      r[i] == if rows[i].id == fid then rows[i].(acknowledged := 1) else rows[i]
  {
    if rows == [] then []
    else
      var head := if rows[0].id == fid then rows[0].(acknowledged := 1) else rows[0];
      [head] + Acknowledged(rows[1..], fid)
  }

  /** `UPDATE feedback SET strengths, improvements, sentiment, tags, timestamp
      WHERE id = ?`; a missing tags value becomes "". */
  function Updated(rows: seq<FeedbackRow>, fid: int, strengths: string, improvements: string,
                   sentiment: string, tags: Option<string>, now: Timestamp): (r: seq<FeedbackRow>)
    ensures |r| == |rows|
    ensures forall i :: 0 <= i < |rows| && rows[i].id != fid ==> r[i] == rows[i]
    ensures forall i :: 0 <= i < |rows| ==>
      && r[i].id == rows[i].id && r[i].manager_id == rows[i].manager_id
      && r[i].employee_id == rows[i].employee_id && r[i].acknowledged == rows[i].acknowledged
    ensures forall i :: 0 <= i < |rows| && rows[i].id == fid ==>
      && r[i].strengths == strengths && r[i].improvements == improvements
      && r[i].sentiment == sentiment && r[i].timestamp == now
      && r[i].tags == Some(if tags.Some? then tags.value else "")
  {
    if rows == [] then []
    else
      var head := if rows[0].id == fid then
        rows[0].(strengths := strengths, improvements := improvements, sentiment := sentiment,
                 tags := Some(if tags.Some? then tags.value else ""), timestamp := now)
      else rows[0];
      [head] + Updated(rows[1..], fid, strengths, improvements, sentiment, tags, now)
  }

  /** After acknowledging `fid`, every row with that id is acknowledged. */
  lemma AcknowledgedRow(rows: seq<FeedbackRow>, fid: int, x: FeedbackRow)
    requires x in Acknowledged(rows, fid) && x.id == fid
    ensures x.acknowledged == 1
  {
    var r := Acknowledged(rows, fid);
    var j :| 0 <= j < |r| && r[j] == x;
    assert rows[j].id == fid;
  }

  /** Acknowledging twice is acknowledging once. */
  lemma {:induction false} AcknowledgeIdempotent(rows: seq<FeedbackRow>, fid: int)
    ensures Acknowledged(Acknowledged(rows, fid), fid) == Acknowledged(rows, fid)
  {
    var once := Acknowledged(rows, fid);
    var twice := Acknowledged(once, fid);
    assert forall i :: 0 <= i < |rows| ==> twice[i] == once[i];
  }

  // ---------------------------------------------------------- writes

  /** The writes of the feedback table: /api/feedback, .../acknowledge and
      PUT /api/feedback/<id>. */
  datatype FeedbackWrite =
    | Insert(row: FeedbackRow)
    | Acknowledge(fid: int)
    | Update(fid: int, strengths: string, improvements: string, sentiment: string,
             tags: Option<string>, now: Timestamp)

  function Apply(rows: seq<FeedbackRow>, w: FeedbackWrite): seq<FeedbackRow>
  {
    match w
    case Insert(row) => rows + [row]
    case Acknowledge(fid) => Acknowledged(rows, fid)
    case Update(fid, s, i, sent, tags, now) => Updated(rows, fid, s, i, sent, tags, now)
  }

  function ApplyAll(rows: seq<FeedbackRow>, ws: seq<FeedbackWrite>): seq<FeedbackRow>
    decreases |ws|
  {
    if ws == [] then rows else ApplyAll(Apply(rows, ws[0]), ws[1..])
  }

  /** No row disappears or changes its id, and no flag goes back down. */
  ghost predicate AckMonotone(before: seq<FeedbackRow>, after: seq<FeedbackRow>)
  {
    && |before| <= |after|
    && forall i :: 0 <= i < |before| ==>
         after[i].id == before[i].id && before[i].acknowledged <= after[i].acknowledged
  }

  /** Every flag holds 0 or 1. */
  ghost predicate BinaryFlags(rows: seq<FeedbackRow>)
  {
    forall i :: 0 <= i < |rows| ==> rows[i].acknowledged == 0 || rows[i].acknowledged == 1
  }

  /** The row a write inserts starts unacknowledged, as the column DEFAULT
      gives it. */
  ghost predicate InsertsUnread(w: FeedbackWrite)
  {
    w.Insert? ==> w.row.acknowledged == 0
  }

  /** One write keeps every row and its id, keeps the flags 0 or 1, and
      lowers no flag. */
  lemma AckMonotoneApply(rows: seq<FeedbackRow>, w: FeedbackWrite)
    requires BinaryFlags(rows) && InsertsUnread(w)
    ensures BinaryFlags(Apply(rows, w))
    ensures AckMonotone(rows, Apply(rows, w))
  {
    var r := Apply(rows, w);
    match w
    case Insert(row) =>
      assert forall i :: 0 <= i < |rows| ==> r[i] == rows[i];
    case Acknowledge(fid) =>
      assert r == Acknowledged(rows, fid);
    case Update(fid, st, im, se, tg, now) =>
  }

  /** Over any sequence of writes, acknowledged only goes from 0 to 1:
      no row is lost or renumbered, and a flag that is 1 stays 1. */
  lemma {:induction false} AckMonotoneAcrossWrites(rows: seq<FeedbackRow>, ws: seq<FeedbackWrite>)
    requires BinaryFlags(rows)
    requires forall k :: 0 <= k < |ws| ==> InsertsUnread(ws[k])
    ensures BinaryFlags(ApplyAll(rows, ws))
    ensures AckMonotone(rows, ApplyAll(rows, ws))
    ensures forall i :: 0 <= i < |rows| && rows[i].acknowledged == 1 ==> ApplyAll(rows, ws)[i].acknowledged == 1
    decreases |ws|
  {
    if ws != [] {
      var next := Apply(rows, ws[0]);
      AckMonotoneApply(rows, ws[0]);
      assert forall k :: 0 <= k < |ws[1..]| ==> InsertsUnread(ws[1..][k]) by {
        forall k | 0 <= k < |ws[1..]| ensures InsertsUnread(ws[1..][k]) {
          assert ws[1..][k] == ws[k + 1];
        }
      }
      AckMonotoneAcrossWrites(next, ws[1..]);
      assert ApplyAll(rows, ws) == ApplyAll(next, ws[1..]);
    }
  }

  // ----------------------------------------------------------- unread

  function UnreadFor(e: int): FeedbackRow -> bool
  {
    (r: FeedbackRow) => r.employee_id == e && r.acknowledged == 0
  }

  /** /api/feedback/unread/<employee_id>:
      `SELECT COUNT(*) FROM feedback WHERE employee_id = ? AND acknowledged = 0`. */
  function UnreadCount(rows: seq<FeedbackRow>, e: int): nat
  {
    |Filter(rows, UnreadFor(e))|
  }

  /** Some row with id `fid` is an unread row of employee `e`. */
  ghost predicate IsUnreadOf(rows: seq<FeedbackRow>, fid: int, e: int)
  {
    exists i :: 0 <= i < |rows| && rows[i].id == fid && rows[i].employee_id == e && rows[i].acknowledged == 0
  }

  lemma UnreadOfWhenHeadMatches(rows: seq<FeedbackRow>, fid: int, e: int)
    requires forall i, j :: 0 <= i < j < |rows| ==> rows[i].id != rows[j].id
    requires rows != [] && rows[0].id == fid
    ensures IsUnreadOf(rows, fid, e) <==> rows[0].employee_id == e && rows[0].acknowledged == 0
    ensures Acknowledged(rows[1..], fid) == rows[1..]
  {
    if IsUnreadOf(rows, fid, e) {
      var i :| 0 <= i < |rows| && rows[i].id == fid && rows[i].employee_id == e && rows[i].acknowledged == 0;
      assert i == 0;
    }
    var tail := rows[1..];
    forall i | 0 <= i < |tail| ensures tail[i].id != fid {
      assert rows[0].id != rows[i + 1].id;
    }
  }

  lemma UnreadOfWhenHeadDiffers(rows: seq<FeedbackRow>, fid: int, e: int)
    requires rows != [] && rows[0].id != fid
    ensures IsUnreadOf(rows, fid, e) <==> IsUnreadOf(rows[1..], fid, e)
  {
    var tail := rows[1..];
    if IsUnreadOf(rows, fid, e) {
      var i :| 0 <= i < |rows| && rows[i].id == fid && rows[i].employee_id == e && rows[i].acknowledged == 0;
      assert tail[i - 1] == rows[i];
    }
    if IsUnreadOf(tail, fid, e) {
      var i :| 0 <= i < |tail| && tail[i].id == fid && tail[i].employee_id == e && tail[i].acknowledged == 0;
      assert rows[i + 1] == tail[i];
    }
  }

  /** Acknowledging one of the employee's unread rows lowers that employee's
      unread count by exactly one; acknowledging any other id leaves it. */
  lemma {:induction false} UnreadAfterAcknowledge(rows: seq<FeedbackRow>, fid: int, e: int)
    requires forall i, j :: 0 <= i < j < |rows| ==> rows[i].id != rows[j].id
    ensures UnreadCount(Acknowledged(rows, fid), e) ==
            UnreadCount(rows, e) - (if IsUnreadOf(rows, fid, e) then 1 else 0)
  {
    if rows != [] {
      var tail := rows[1..];
      var ack := Acknowledged(rows, fid);
      assert ack[1..] == Acknowledged(tail, fid);
      UnreadCountCons(ack, e);
      UnreadCountCons(rows, e);
      if rows[0].id == fid {
        UnreadOfWhenHeadMatches(rows, fid, e);
      } else {
        assert forall i, j :: 0 <= i < j < |tail| ==> tail[i].id != tail[j].id by {
          forall i, j | 0 <= i < j < |tail| ensures tail[i].id != tail[j].id {
            assert tail[i] == rows[i + 1] && tail[j] == rows[j + 1];
          }
        }
        UnreadAfterAcknowledge(tail, fid, e);
        UnreadOfWhenHeadDiffers(rows, fid, e);
      }
    }
  }

  /** The unread count unfolded once at the front. */
  lemma UnreadCountCons(rows: seq<FeedbackRow>, e: int)
    requires rows != []
    ensures UnreadCount(rows, e) ==
            (if rows[0].employee_id == e && rows[0].acknowledged == 0 then 1 else 0) + UnreadCount(rows[1..], e)
  {
    assert rows == [rows[0]] + rows[1..];
    FilterCons(rows[0], rows[1..], UnreadFor(e));
  }

  /** Editing a row never changes an unread count. */
  lemma UnreadAfterUpdate(rows: seq<FeedbackRow>, fid: int, strengths: string, improvements: string,
                          sentiment: string, tags: Option<string>, now: Timestamp, e: int)
    ensures UnreadCount(Updated(rows, fid, strengths, improvements, sentiment, tags, now), e) == UnreadCount(rows, e)
  {
    var r := Updated(rows, fid, strengths, improvements, sentiment, tags, now);
    FilterCountPointwise(r, UnreadFor(e), rows, UnreadFor(e));
  }

  /** Submitting feedback raises the receiving employee's unread count by
      one and leaves every other employee's. */
  lemma UnreadAfterInsert(rows: seq<FeedbackRow>, row: FeedbackRow, e: int)
    requires row.acknowledged == 0
    ensures UnreadCount(rows + [row], e) == UnreadCount(rows, e) + (if row.employee_id == e then 1 else 0)
  {
    FilterConcat(rows, [row], UnreadFor(e));
    assert Filter([row], UnreadFor(e)) == (if row.employee_id == e then [row] else []) + Filter([], UnreadFor(e));
  }

  // --------------------------------------------------------- comments

  predicate HasComment(comments: seq<CommentRow>, fid: int)
  {
    exists c :: c in comments && c.feedback_id == fid
  }

  /** `SELECT content, timestamp FROM comments WHERE feedback_id = ?` with
      `fetchone`. Without ORDER BY the database may return any matching row;
      the contract promises only that it is one of them. */
  function FindComment(comments: seq<CommentRow>, fid: int): (r: Option<CommentView>)
    ensures r.Some? <==> HasComment(comments, fid)
    ensures r.Some? ==>
      exists c :: c in comments && c.feedback_id == fid && r.value == CommentView(c.content, c.timestamp)
  {
    if comments == [] then None
    else if comments[0].feedback_id == fid then Some(CommentView(comments[0].content, comments[0].timestamp))
    else
      assert comments == [comments[0]] + comments[1..];
      FindComment(comments[1..], fid)
  }

  /** add_comment inserts without checking for an earlier comment: a second
      comment on the same feedback is stored beside the first, and the
      feedback shows a comment afterwards. */
  lemma CommentsAccumulate(comments: seq<CommentRow>, c1: CommentRow, c2: CommentRow)
    requires c1.feedback_id == c2.feedback_id
    ensures |Filter(comments + [c1] + [c2], OnFeedback(c1.feedback_id))| ==
            |Filter(comments, OnFeedback(c1.feedback_id))| + 2
    ensures FindComment(comments + [c1], c1.feedback_id).Some?
  {
    var p := OnFeedback(c1.feedback_id);
    FilterConcat(comments + [c1], [c2], p);
    FilterConcat(comments, [c1], p);
    FilterCons(c1, [], p);
    FilterCons(c2, [], p);
    assert c1 in comments + [c1];
  }

  function OnFeedback(fid: int): CommentRow -> bool
  {
    (c: CommentRow) => c.feedback_id == fid
  }

  // --------------------------------------------------------- listings

  /** The feedback rows of one employee, newest first. */
  function EmployeeQuery(rows: seq<FeedbackRow>, e: int): seq<FeedbackRow>
  {
    SortDesc(Filter(rows, ForEmployee(e)), FeedbackTs)
  }

  /** The feedback rows a manager submitted, newest first. */
  function ManagerQuery(rows: seq<FeedbackRow>, m: int): seq<FeedbackRow>
  {
    SortDesc(Filter(rows, ForManager(m)), FeedbackTs)
  }

  /** One object of /api/feedback/<employee_id>: the selected columns and the
      attached comment. */
  function EmployeeView(r: FeedbackRow, comments: seq<CommentRow>): EmployeeFeedbackView
  {
    EmployeeFeedbackView(r.id, r.manager_id, r.strengths, r.improvements, r.sentiment,
                         None, r.timestamp, r.acknowledged, FindComment(comments, r.id))
  }

  /** One object of /api/manager/<manager_id>/feedback. */
  function ManagerView(r: FeedbackRow, comments: seq<CommentRow>): ManagerFeedbackView
  {
    ManagerFeedbackView(r.id, r.employee_id, r.strengths, r.improvements, r.sentiment,
                        r.tags, r.timestamp, FindComment(comments, r.id))
  }

  /** The whole response of /api/feedback/<employee_id>. */
  function EmployeeListing(rows: seq<FeedbackRow>, comments: seq<CommentRow>, e: int): seq<EmployeeFeedbackView>
  {
    var q := EmployeeQuery(rows, e);
    seq(|q|, i requires 0 <= i < |q| => EmployeeView(q[i], comments))
  }

  /** The whole response of /api/manager/<manager_id>/feedback. */
  function ManagerListing(rows: seq<FeedbackRow>, comments: seq<CommentRow>, m: int): seq<ManagerFeedbackView>
  {
    var q := ManagerQuery(rows, m);
    seq(|q|, i requires 0 <= i < |q| => ManagerView(q[i], comments))
  }

  lemma EmployeeQueryMember(rows: seq<FeedbackRow>, e: int, x: FeedbackRow)
    ensures x in EmployeeQuery(rows, e) <==> x in rows && x.employee_id == e
  {
    var f := Filter(rows, ForEmployee(e));
    SortDescMember(f, FeedbackTs, x);
    if x in rows && x.employee_id == e {
      var k :| 0 <= k < |rows| && rows[k] == x;
      assert ForEmployee(e)(rows[k]);
    }
    if x in f {
      var k :| 0 <= k < |f| && f[k] == x;
      assert ForEmployee(e)(f[k]);
    }
  }

  lemma ManagerQueryMember(rows: seq<FeedbackRow>, m: int, x: FeedbackRow)
    ensures x in ManagerQuery(rows, m) <==> x in rows && x.manager_id == m
  {
    var f := Filter(rows, ForManager(m));
    SortDescMember(f, FeedbackTs, x);
    if x in rows && x.manager_id == m {
      var k :| 0 <= k < |rows| && rows[k] == x;
      assert ForManager(m)(rows[k]);
    }
    if x in f {
      var k :| 0 <= k < |f| && f[k] == x;
      assert ForManager(m)(f[k]);
    }
  }

  /** Object `i` of /api/feedback/<employee_id> shows a row of that employee. */
  lemma EmployeeListingAt(rows: seq<FeedbackRow>, comments: seq<CommentRow>, e: int, i: int)
    requires 0 <= i < |EmployeeListing(rows, comments, e)|
    ensures exists x :: x in rows && x.employee_id == e && EmployeeListing(rows, comments, e)[i] == EmployeeView(x, comments)
  {
    var q := EmployeeQuery(rows, e);
    EmployeeQueryMember(rows, e, q[i]);
    assert EmployeeListing(rows, comments, e)[i] == EmployeeView(q[i], comments);
  }

  /** No object of /api/feedback/<employee_id> carries tags. */
  lemma EmployeeListingNoTags(rows: seq<FeedbackRow>, comments: seq<CommentRow>, e: int, v: EmployeeFeedbackView)
    requires v in EmployeeListing(rows, comments, e)
    ensures v.tags.None?
  {
    var l := EmployeeListing(rows, comments, e);
    var j :| 0 <= j < |l| && l[j] == v;
  }

  /** /api/feedback/<employee_id> lists only that employee's feedback, newest
      first, each with a comment exactly when the comments table has one for
      it, and none of them with tags. */
  lemma EmployeeListingSound(rows: seq<FeedbackRow>, comments: seq<CommentRow>, e: int)
    ensures var r := EmployeeListing(rows, comments, e);
      && |r| == |Filter(rows, ForEmployee(e))|
      && (forall i :: 0 <= i < |r| ==>
            exists x :: x in rows && x.employee_id == e && r[i] == EmployeeView(x, comments))
      && (forall i, j :: 0 <= i < j < |r| ==> r[i].timestamp >= r[j].timestamp)
      && (forall i :: 0 <= i < |r| ==> (r[i].comment.Some? <==> HasComment(comments, r[i].id)))
      && (forall i :: 0 <= i < |r| ==> r[i].tags.None?)
  {
    var q := EmployeeQuery(rows, e);
    var r := EmployeeListing(rows, comments, e);
    forall i | 0 <= i < |r|
      ensures exists x :: x in rows && x.employee_id == e && r[i] == EmployeeView(x, comments)
    {
      EmployeeQueryMember(rows, e, q[i]);
    }
    forall i, j | 0 <= i < j < |r| ensures r[i].timestamp >= r[j].timestamp {
      assert FeedbackTs(q[i]) >= FeedbackTs(q[j]);
    }
  }

  /** Every feedback row of the employee appears in /api/feedback/<employee_id>. */
  lemma EmployeeListingComplete(rows: seq<FeedbackRow>, comments: seq<CommentRow>, e: int)
    ensures forall x :: x in rows && x.employee_id == e ==> EmployeeView(x, comments) in EmployeeListing(rows, comments, e)
  {
    var q := EmployeeQuery(rows, e);
    var r := EmployeeListing(rows, comments, e);
    forall x | x in rows && x.employee_id == e ensures EmployeeView(x, comments) in r {
      EmployeeQueryMember(rows, e, x);
      var j :| 0 <= j < |q| && q[j] == x;
      assert r[j] == EmployeeView(x, comments);
    }
  }

  /** /api/manager/<manager_id>/feedback lists only the feedback that manager
      submitted, newest first, with its stored tags and a comment exactly when
      one exists. */
  lemma ManagerListingSound(rows: seq<FeedbackRow>, comments: seq<CommentRow>, m: int)
    ensures var r := ManagerListing(rows, comments, m);
      && |r| == |Filter(rows, ForManager(m))|
      && (forall i :: 0 <= i < |r| ==>
            exists x :: x in rows && x.manager_id == m && r[i] == ManagerView(x, comments))
      && (forall i, j :: 0 <= i < j < |r| ==> r[i].timestamp >= r[j].timestamp)
      && (forall i :: 0 <= i < |r| ==> (r[i].comment.Some? <==> HasComment(comments, r[i].id)))
  {
    var q := ManagerQuery(rows, m);
    var r := ManagerListing(rows, comments, m);
    forall i | 0 <= i < |r|
      ensures exists x :: x in rows && x.manager_id == m && r[i] == ManagerView(x, comments)
    {
      ManagerQueryMember(rows, m, q[i]);
    }
    forall i, j | 0 <= i < j < |r| ensures r[i].timestamp >= r[j].timestamp {
      assert FeedbackTs(q[i]) >= FeedbackTs(q[j]);
    }
  }

  /** Every feedback row of the manager appears in /api/manager/<manager_id>/feedback. */
  lemma ManagerListingComplete(rows: seq<FeedbackRow>, comments: seq<CommentRow>, m: int)
    ensures forall x :: x in rows && x.manager_id == m ==> ManagerView(x, comments) in ManagerListing(rows, comments, m)
  {
    var q := ManagerQuery(rows, m);
    var r := ManagerListing(rows, comments, m);
    forall x | x in rows && x.manager_id == m ensures ManagerView(x, comments) in r {
      ManagerQueryMember(rows, m, x);
      var j :| 0 <= j < |q| && q[j] == x;
      assert r[j] == ManagerView(x, comments);
    }
  }

  function IsUnreadView(v: EmployeeFeedbackView): bool
  {
    v.acknowledged == 0
  }

  function IsUnreadRow(r: FeedbackRow): bool
  {
    r.acknowledged == 0
  }

  lemma {:induction false} FilterUnreadOfEmployee(rows: seq<FeedbackRow>, e: int)
    ensures |Filter(Filter(rows, ForEmployee(e)), IsUnreadRow)| == UnreadCount(rows, e)
  {
    if rows != [] {
      var x, tail := rows[0], rows[1..];
      assert rows == [x] + tail;
      FilterUnreadOfEmployee(tail, e);
      FilterCons(x, tail, ForEmployee(e));
      FilterCons(x, tail, UnreadFor(e));
      var rest := Filter(tail, ForEmployee(e));
      assert UnreadFor(e)(x) == (x.employee_id == e && IsUnreadRow(x));
      if x.employee_id == e {
        assert Filter(rows, ForEmployee(e)) == [x] + rest;
        FilterCons(x, rest, IsUnreadRow);
      } else {
        assert Filter(rows, ForEmployee(e)) == rest;
      }
    }
  }

  /** The unread count the backend reports equals the number of
      unacknowledged objects in that employee's feedback listing. */
  lemma ListingAgreesWithUnreadCount(rows: seq<FeedbackRow>, comments: seq<CommentRow>, e: int)
    ensures |Filter(EmployeeListing(rows, comments, e), IsUnreadView)| == UnreadCount(rows, e)
  {
    var f := Filter(rows, ForEmployee(e));
    var q := EmployeeQuery(rows, e);
    FilterCountPointwise(EmployeeListing(rows, comments, e), IsUnreadView, q, IsUnreadRow);
    FilterCountSortDesc(f, FeedbackTs, IsUnreadRow);
    FilterUnreadOfEmployee(rows, e);
  }

  // --------------------------------------------------------- requests

  /** `JOIN users u ON r.employee_id = u.id`: the email of the user with
      that id. */
  function EmailOf(users: seq<UserRow>, id: int): (r: Option<string>)
    ensures r.Some? <==> exists u :: u in users && u.id == id
    ensures r.Some? ==> exists u :: u in users && u.id == id && u.email == r.value
  {
    if users == [] then None
    else if users[0].id == id then Some(users[0].email)
    else
      assert users == [users[0]] + users[1..];
      EmailOf(users[1..], id)
  }

  /** The request is for manager `m` and its employee id joins a user. */
  function JoinsFor(users: seq<UserRow>, m: int): RequestRow -> bool
  {
    (rq: RequestRow) => rq.manager_id == m && EmailOf(users, rq.employee_id).Some?
  }

  function RequestTs(v: RequestView): int { v.timestamp }

  /** The joined rows of one manager as response objects, before ordering. */
  function JoinedViews(requests: seq<RequestRow>, users: seq<UserRow>, m: int): seq<RequestView>
  {
    var joined := Filter(requests, JoinsFor(users, m));
    seq(|joined|, i requires 0 <= i < |joined| =>
      RequestView(joined[i].id, EmailOf(users, joined[i].employee_id).value, joined[i].timestamp))
  }

  /** /api/requests/<manager_id>: the join, ordered newest first. */
  function RequestListing(requests: seq<RequestRow>, users: seq<UserRow>, m: int): seq<RequestView>
  {
    SortDesc(JoinedViews(requests, users, m), RequestTs)
  }

  /** /api/requests/<manager_id> lists only requests of that manager whose
      employee exists, each with that employee's email, newest first. */
  lemma RequestListingSound(requests: seq<RequestRow>, users: seq<UserRow>, m: int)
    ensures var r := RequestListing(requests, users, m);
      && |r| == |Filter(requests, JoinsFor(users, m))|
      && (forall i :: 0 <= i < |r| ==>
            exists rq, u :: rq in requests && u in users && rq.manager_id == m && u.id == rq.employee_id
                            && r[i] == RequestView(rq.id, u.email, rq.timestamp))
      && (forall i, j :: 0 <= i < j < |r| ==> r[i].timestamp >= r[j].timestamp)
  {
    var joined := Filter(requests, JoinsFor(users, m));
    var views := JoinedViews(requests, users, m);
    var r := RequestListing(requests, users, m);
    forall i | 0 <= i < |r|
      ensures exists rq, u :: rq in requests && u in users && rq.manager_id == m && u.id == rq.employee_id
                              && r[i] == RequestView(rq.id, u.email, rq.timestamp)
    {
      SortDescMember(views, RequestTs, r[i]);
      var k :| 0 <= k < |views| && views[k] == r[i];
      assert JoinsFor(users, m)(joined[k]);
      var u :| u in users && u.id == joined[k].employee_id && u.email == EmailOf(users, joined[k].employee_id).value;
      assert joined[k] in requests;
    }
    forall i, j | 0 <= i < j < |r| ensures r[i].timestamp >= r[j].timestamp {
      assert RequestTs(r[i]) >= RequestTs(r[j]);
    }
  }

  /** With unique user ids, the join finds exactly the user's own email. */
  lemma EmailOfUser(users: seq<UserRow>, u: UserRow)
    requires UsersWellFormed(users) && u in users
    ensures EmailOf(users, u.id) == Some(u.email)
  {
    var v :| v in users && v.id == u.id && v.email == EmailOf(users, u.id).value;
    var i :| 0 <= i < |users| && users[i] == u;
    var j :| 0 <= j < |users| && users[j] == v;
  }

  lemma RequestListed(requests: seq<RequestRow>, users: seq<UserRow>, m: int, rq: RequestRow)
    requires rq in requests && rq.manager_id == m && EmailOf(users, rq.employee_id).Some?
    ensures RequestView(rq.id, EmailOf(users, rq.employee_id).value, rq.timestamp) in RequestListing(requests, users, m)
  {
    var joined := Filter(requests, JoinsFor(users, m));
    var views := JoinedViews(requests, users, m);
    var k :| 0 <= k < |requests| && requests[k] == rq;
    assert JoinsFor(users, m)(requests[k]);
    var j :| 0 <= j < |joined| && joined[j] == rq;
    assert views[j] == RequestView(rq.id, EmailOf(users, rq.employee_id).value, rq.timestamp);
    SortDescMember(views, RequestTs, views[j]);
  }

  /** Every request to the manager from an existing user is listed, with
      that user's email. */
  lemma RequestListingComplete(requests: seq<RequestRow>, users: seq<UserRow>, m: int)
    requires UsersWellFormed(users)
    ensures forall rq, u :: rq in requests && rq.manager_id == m && u in users && u.id == rq.employee_id ==>
      RequestView(rq.id, u.email, rq.timestamp) in RequestListing(requests, users, m)
  {
    forall rq, u | rq in requests && rq.manager_id == m && u in users && u.id == rq.employee_id
      ensures RequestView(rq.id, u.email, rq.timestamp) in RequestListing(requests, users, m)
    {
      EmailOfUser(users, u);
      RequestListed(requests, users, m, rq);
    }
  }

  // ---------------------------------------------------- peer feedback

  function ForReceiver(e: int): PeerRow -> bool
  {
    (r: PeerRow) => r.receiver_id == e
  }

  function PeerTs(r: PeerRow): int { r.timestamp }

  /** One object of /api/peer-feedback/<employee_id>: `sender_id` is
      `None if anonymous else sender_id`. */
  function MaskSender(r: PeerRow): PeerView
  {
    PeerView(r.content, r.timestamp, r.anonymous, if r.anonymous != 0 then None else Some(r.sender_id))
  }

  /** /api/peer-feedback/<employee_id>. */
  function PeerListing(peer: seq<PeerRow>, e: int): seq<PeerView>
  {
    var q := SortDesc(Filter(peer, ForReceiver(e)), PeerTs);
    seq(|q|, i requires 0 <= i < |q| => MaskSender(q[i]))
  }

  lemma PeerQueryMember(peer: seq<PeerRow>, e: int, x: PeerRow)
    ensures x in SortDesc(Filter(peer, ForReceiver(e)), PeerTs) <==> x in peer && x.receiver_id == e
  {
    var f := Filter(peer, ForReceiver(e));
    SortDescMember(f, PeerTs, x);
    if x in peer && x.receiver_id == e {
      var k :| 0 <= k < |peer| && peer[k] == x;
      assert ForReceiver(e)(peer[k]);
    }
    if x in f {
      var k :| 0 <= k < |f| && f[k] == x;
      assert ForReceiver(e)(f[k]);
    }
  }

  /** `v` shows the content, time and flag of a row sent to `e`, and, when
      that row is not anonymous, its sender. */
  ghost predicate SentTo(peer: seq<PeerRow>, e: int, v: PeerView)
  {
    exists x :: x in peer && x.receiver_id == e && v.content == x.content
                && v.timestamp == x.timestamp && v.anonymous == x.anonymous
                && (x.anonymous == 0 ==> v.sender_id == Some(x.sender_id))
  }

  /** Object `i` of the peer listing is the masked form of row `i` of the
      ordered query, which was sent to `e`. */
  lemma PeerListingAt(peer: seq<PeerRow>, e: int, i: int)
    requires 0 <= i < |PeerListing(peer, e)|
    ensures var q := SortDesc(Filter(peer, ForReceiver(e)), PeerTs);
      && i < |q| && PeerListing(peer, e)[i] == MaskSender(q[i])
      && q[i] in peer && q[i].receiver_id == e
  {
    var q := SortDesc(Filter(peer, ForReceiver(e)), PeerTs);
    PeerQueryMember(peer, e, q[i]);
  }

  /** /api/peer-feedback/<employee_id> lists only feedback sent to that
      employee, newest first; the sender is null exactly for anonymous
      feedback and is the stored sender otherwise. */
  lemma PeerListingSound(peer: seq<PeerRow>, e: int)
    ensures var r := PeerListing(peer, e);
      && |r| == |Filter(peer, ForReceiver(e))|
      && (forall i :: 0 <= i < |r| ==> (r[i].sender_id.None? <==> r[i].anonymous != 0))
      && (forall i :: 0 <= i < |r| ==> SentTo(peer, e, r[i]))
      && (forall i, j :: 0 <= i < j < |r| ==> r[i].timestamp >= r[j].timestamp)
  {
    var q := SortDesc(Filter(peer, ForReceiver(e)), PeerTs);
    var r := PeerListing(peer, e);
    assert |r| == |q|;
    forall i | 0 <= i < |r| ensures r[i].sender_id.None? <==> r[i].anonymous != 0 {
      PeerListingAt(peer, e, i);
    }
    forall i | 0 <= i < |r| ensures SentTo(peer, e, r[i]) {
      PeerListingAt(peer, e, i);
      var x := q[i];
      assert x in peer && x.receiver_id == e && r[i].content == x.content;
    }
    forall i, j | 0 <= i < j < |r| ensures r[i].timestamp >= r[j].timestamp {
      PeerListingAt(peer, e, i);
      PeerListingAt(peer, e, j);
      assert PeerTs(q[i]) >= PeerTs(q[j]);
    }
  }

  /** Every feedback sent to the employee is listed, masked. */
  lemma PeerListingComplete(peer: seq<PeerRow>, e: int)
    ensures forall x :: x in peer && x.receiver_id == e ==> MaskSender(x) in PeerListing(peer, e)
  {
    var q := SortDesc(Filter(peer, ForReceiver(e)), PeerTs);
    var r := PeerListing(peer, e);
    forall x | x in peer && x.receiver_id == e ensures MaskSender(x) in r {
      PeerQueryMember(peer, e, x);
      var j :| 0 <= j < |q| && q[j] == x;
      assert r[j] == MaskSender(x);
    }
  }
}
