/** The manager's page (feedback-tool/src/pages/ManagerDashboard.js): form
    validation, the submit/edit/save/cancel transitions of its state, the
    "Respond" lookup, and the text of the per-employee PDF export. Each
    request to the backend is a call on a `Store`; `delivered` says whether
    the request went through, since the network is not modelled. */
module ManagerClient {
  import opened Common
  import opened Tables
  import opened Backend

  // --------------------------------------------------------- validation

  /** `!selectedEmployee || !strengths.trim() || !improvements.trim()`
      rejects; an unselected employee is the empty string (None). */
  function SubmitAllowed(selected: Option<int>, strengths: string, improvements: string): (ok: bool)
    ensures ok <==> selected.Some? && !IsBlank(strengths) && !IsBlank(improvements)
  {
    TrimEmptyIffBlank(strengths);
    TrimEmptyIffBlank(improvements);
    !(selected.None? || Trim(strengths) == [] || Trim(improvements) == [])
  }

  // ------------------------------------------------------------ lookup

  /** `employees.find(emp => emp.email === employeeEmail)`: the first entry
      with that email, or none. */
  function FindByEmail(employees: seq<EmployeeEntry>, email: string): (r: Option<EmployeeEntry>)
    ensures r.None? <==> forall i :: 0 <= i < |employees| ==> employees[i].email != email
    ensures r.Some? ==>
      exists i :: 0 <= i < |employees| && employees[i] == r.value && r.value.email == email
                  && forall j :: 0 <= j < i ==> employees[j].email != email
  {
    if employees == [] then None
    else if employees[0].email == email then Some(employees[0])
    else
      var r := FindByEmail(employees[1..], email);
      assert forall i :: 1 <= i < |employees| ==> employees[i] == employees[1..][i - 1];
      r
  }

  // ------------------------------------------------------------ export

  function GivenBy(m: int): EmployeeFeedbackView -> bool
  {
    (fb: EmployeeFeedbackView) => fb.manager_id == m
  }

  /** `response.data.filter(fb => fb.manager_id === managerId)`. */
  function ByManager(records: seq<EmployeeFeedbackView>, m: int): (r: seq<EmployeeFeedbackView>)
    ensures forall i :: 0 <= i < |r| ==> r[i] in records && r[i].manager_id == m
    ensures forall x :: x in records && x.manager_id == m ==> x in r
    ensures multiset(r) <= multiset(records)
  {
    var r := Filter(records, GivenBy(m));
    assert forall i :: 0 <= i < |r| ==> GivenBy(m)(r[i]);
    assert forall x :: x in records && x.manager_id == m ==> x in r by {
      forall x | x in records && x.manager_id == m ensures x in r {
        var k :| 0 <= k < |records| && records[k] == x;
        assert GivenBy(m)(records[k]);
      }
    }
    r
  }

  /** The filter keeps the records in their input order: filtering a
      concatenation concatenates the filtered parts. */
  lemma ByManagerOrder(a: seq<EmployeeFeedbackView>, b: seq<EmployeeFeedbackView>, m: int)
    ensures ByManager(a + b, m) == ByManager(a, m) + ByManager(b, m)
  {
    FilterConcat(a, b, GivenBy(m));
  }

  /** `v` shows a feedback row that manager `m` gave employee `e`. */
  ghost predicate GivenTo(rows: seq<FeedbackRow>, comments: seq<CommentRow>, e: int, m: int, v: EmployeeFeedbackView)
  {
    exists x :: x in rows && x.employee_id == e && x.manager_id == m && v == EmployeeView(x, comments)
  }

  lemma ExportRecordAt(rows: seq<FeedbackRow>, comments: seq<CommentRow>, e: int, m: int, v: EmployeeFeedbackView)
    requires v in ByManager(EmployeeListing(rows, comments, e), m)
    ensures GivenTo(rows, comments, e, m, v)
  {
    var l := EmployeeListing(rows, comments, e);
    assert v in l && v.manager_id == m;
    var j :| 0 <= j < |l| && l[j] == v;
    EmployeeListingAt(rows, comments, e, j);
    var x :| x in rows && x.employee_id == e && l[j] == EmployeeView(x, comments);
    assert x.manager_id == m;
  }

  /** Exporting an employee's feedback lists only what this manager gave
      that employee: objects of GET /api/feedback/<employee_id> for feedback
      rows with both ids. */
  lemma ExportRecordsSound(rows: seq<FeedbackRow>, comments: seq<CommentRow>, e: int, m: int)
    ensures forall v :: v in ByManager(EmployeeListing(rows, comments, e), m) ==> GivenTo(rows, comments, e, m, v)
  {
    forall v | v in ByManager(EmployeeListing(rows, comments, e), m) ensures GivenTo(rows, comments, e, m, v) {
      ExportRecordAt(rows, comments, e, m, v);
    }
  }

  /** Every feedback row this manager gave the employee is exported. */
  lemma ExportRecordsComplete(rows: seq<FeedbackRow>, comments: seq<CommentRow>, e: int, m: int)
    ensures forall x :: x in rows && x.employee_id == e && x.manager_id == m ==>
      EmployeeView(x, comments) in ByManager(EmployeeListing(rows, comments, e), m)
  {
    EmployeeListingComplete(rows, comments, e);
  }

  /** The six lines drawn for record `index`. */
  function ExportBlock(date: Timestamp -> string): (nat, EmployeeFeedbackView) -> seq<string>
  {
    (index: nat, fb: EmployeeFeedbackView) =>
      [ "Feedback " + NatToString(index + 1),
        "Strengths: " + fb.strengths,
        "Improvements: " + fb.improvements,
        "Sentiment: " + fb.sentiment,
        "Tags: " + Or(fb.tags, "N/A"),
        "Date: " + date(fb.timestamp) ]
  }

  function ExportHeader(employeeEmail: string): string
  {
    "Feedback given to " + employeeEmail
  }

  /** The text lines of exportEmployeeFeedbackAsPDF; `date` stands for
      `new Date(...).toLocaleString()`. */
  function ExportText(employeeEmail: string, records: seq<EmployeeFeedbackView>, date: Timestamp -> string): seq<string>
  {
    [ExportHeader(employeeEmail)]
      + (if records == [] then ["No feedback submitted."] else Blocks(records, ExportBlock(date)))
  }

  /** Record `k` of a non-empty export occupies lines `6k+1` to `6k+6`. */
  lemma ExportBlockAt(employeeEmail: string, records: seq<EmployeeFeedbackView>, date: Timestamp -> string, k: nat)
    requires k < |records|
    ensures var lines := ExportText(employeeEmail, records, date);
      6 * k + 6 < |lines| && lines[6 * k + 1 .. 6 * k + 7] == ExportBlock(date)(k, records[k])
  {
    var block := ExportBlock(date);
    assert forall j: nat, x: EmployeeFeedbackView :: |block(j, x)| == 6;
    BlockAt(records, block, 6, k);
    var lines := ExportText(employeeEmail, records, date);
    assert lines == [ExportHeader(employeeEmail)] + Blocks(records, block);
  }

  /** Line `6k+5` is the tags line of record `k`. */
  lemma ExportTagsAt(employeeEmail: string, records: seq<EmployeeFeedbackView>, date: Timestamp -> string, k: nat)
    requires k < |records|
    ensures var lines := ExportText(employeeEmail, records, date);
      6 * k + 5 < |lines| && lines[6 * k + 5] == "Tags: " + Or(records[k].tags, "N/A")
    ensures records[k].tags.None? ==> ExportText(employeeEmail, records, date)[6 * k + 5] == "Tags: N/A"
  {
    ExportBlockAt(employeeEmail, records, date, k);
    var lines := ExportText(employeeEmail, records, date);
    assert lines[6 * k + 5] == lines[6 * k + 1 .. 6 * k + 7][4];
  }

  /** The header comes first; an empty list adds only "No feedback
      submitted."; otherwise each record, in input order, gets a block of six
      lines numbered from 1, with "N/A" for missing or empty tags. */
  lemma ExportTextShape(employeeEmail: string, records: seq<EmployeeFeedbackView>, date: Timestamp -> string)
    ensures var lines := ExportText(employeeEmail, records, date);
      && lines[0] == "Feedback given to " + employeeEmail
      && (records == [] ==> lines == ["Feedback given to " + employeeEmail, "No feedback submitted."])
      && (records != [] ==> |lines| == 1 + 6 * |records|)
      && (forall k :: 0 <= k < |records| ==>
            && 6 * k + 6 < |lines|
            && lines[6 * k + 1] == "Feedback " + NatToString(k + 1)
            && lines[6 * k + 2] == "Strengths: " + records[k].strengths
            && lines[6 * k + 3] == "Improvements: " + records[k].improvements
            && lines[6 * k + 4] == "Sentiment: " + records[k].sentiment
            && lines[6 * k + 5] == "Tags: " + (if records[k].tags.Some? && records[k].tags.value != ""
                                                then records[k].tags.value else "N/A")
            && lines[6 * k + 6] == "Date: " + date(records[k].timestamp))
  {
    var lines := ExportText(employeeEmail, records, date);
    if records != [] {
      var block := ExportBlock(date);
      assert forall j: nat, x: EmployeeFeedbackView :: |block(j, x)| == 6;
      BlocksLength(records, block, 6);
    }
    forall k | 0 <= k < |records|
      ensures 6 * k + 6 < |lines|
      ensures lines[6 * k + 1] == "Feedback " + NatToString(k + 1)
      ensures lines[6 * k + 2] == "Strengths: " + records[k].strengths
      ensures lines[6 * k + 3] == "Improvements: " + records[k].improvements
      ensures lines[6 * k + 4] == "Sentiment: " + records[k].sentiment
      ensures lines[6 * k + 5] == "Tags: " + Or(records[k].tags, "N/A")
      ensures lines[6 * k + 6] == "Date: " + date(records[k].timestamp)
    {
      ExportBlockAt(employeeEmail, records, date, k);
      var b := lines[6 * k + 1 .. 6 * k + 7];
      assert lines[6 * k + 1] == b[0] && lines[6 * k + 2] == b[1] && lines[6 * k + 3] == b[2];
      assert lines[6 * k + 4] == b[3] && lines[6 * k + 5] == b[4] && lines[6 * k + 6] == b[5];
    }
  }

  /** The export reads GET /api/feedback/<employee_id>, which does not
      select the tags column, so every exported record says "Tags: N/A"
      whatever tags the manager stored. */
  lemma ExportNeverShowsTags(rows: seq<FeedbackRow>, comments: seq<CommentRow>, e: int, m: int,
                             employeeEmail: string, date: Timestamp -> string)
    ensures var records := ByManager(EmployeeListing(rows, comments, e), m);
      var lines := ExportText(employeeEmail, records, date);
      forall k :: 0 <= k < |records| ==> 6 * k + 5 < |lines| && lines[6 * k + 5] == "Tags: N/A"
  {
    var l := EmployeeListing(rows, comments, e);
    var records := ByManager(l, m);
    var lines := ExportText(employeeEmail, records, date);
    forall k | 0 <= k < |records| ensures 6 * k + 5 < |lines| && lines[6 * k + 5] == "Tags: N/A" {
      EmployeeListingNoTags(rows, comments, e, records[k]);
      ExportTagsAt(employeeEmail, records, date, k);
    }
  }

  /** The drawing loop of exportEmployeeFeedbackAsPDF: the header, then
      "No feedback submitted." or one block per record, in order. */
  method BuildExport(employeeEmail: string, records: seq<EmployeeFeedbackView>, date: Timestamp -> string)
    returns (text: seq<string>)
    ensures text == ExportText(employeeEmail, records, date)
  {
    text := [ExportHeader(employeeEmail)];
    if records == [] {
      text := text + ["No feedback submitted."];
    } else {
      var block := ExportBlock(date);
      var i := 0;
      while i < |records|
        invariant 0 <= i <= |records|
        invariant text == [ExportHeader(employeeEmail)] + Blocks(records[..i], block)
      {
        assert records[..i + 1][..i] == records[..i];
        text := text + block(i, records[i]);
        i := i + 1;
      }
      assert records[..i] == records;
    }
  }

  // ------------------------------------------------------------ component

  /** The state of the ManagerDashboard component. */
  class ManagerDashboard {
    /** `Number(localStorage.getItem("userId"))` and the stored email. */
    const managerId: int
    const email: string

    var employees: seq<EmployeeEntry>
    var feedbacks: seq<ManagerFeedbackView>
    var requests: seq<RequestView>

    var selectedEmployee: Option<int>
    var strengths: string
    var improvements: string
    var sentiment: string
    var tags: string

    var editId: Option<int>
    var editStrengths: string
    var editImprovements: string
    var editSentiment: string
    var editTags: string

    /** The initial `useState` values. */
    constructor (managerId: int, email: string)
      ensures this.managerId == managerId && this.email == email
      ensures employees == [] && feedbacks == [] && requests == []
      ensures selectedEmployee == None && strengths == "" && improvements == "" && sentiment == "positive" && tags == ""
      ensures editId == None && editStrengths == "" && editImprovements == "" && editSentiment == "positive" && editTags == ""
    {
      this.managerId, this.email := managerId, email;
      employees, feedbacks, requests := [], [], [];
      selectedEmployee, strengths, improvements, sentiment, tags := None, "", "", "positive", "";
      editId, editStrengths, editImprovements, editSentiment, editTags := None, "", "", "positive", "";
    }

    /** The mount effect, with fetchMyFeedback and fetchFeedbackRequests:
        load the employees, this manager's feedback and the requests
        addressed to this manager. */
    method Mount(store: Store)
      modifies this`employees, this`feedbacks, this`requests
      ensures employees == EmployeeDirectory(store.users)
      ensures feedbacks == ManagerListing(store.feedback, store.comments, managerId)
      ensures requests == RequestListing(store.requests, store.users, managerId)
    {
      var es := store.ListEmployees();
      var fbs := store.GetManagerFeedback(managerId);
      var rqs := store.GetFeedbackRequests(managerId);
      ghost var us, fb, cs, rq := store.users, store.feedback, store.comments, store.requests;
      employees, feedbacks, requests := es, fbs, rqs;
      assert store.users == us && store.feedback == fb && store.comments == cs && store.requests == rq;
    }

    /** The state setters run after a successful submit. */
    method ResetForm()
      modifies this`selectedEmployee, this`strengths, this`improvements, this`sentiment, this`tags
      ensures strengths == "" && improvements == "" && sentiment == "positive" && tags == ""
      ensures selectedEmployee == None
    {
      strengths, improvements, sentiment := "", "", "positive";
      tags, selectedEmployee := "", None;
    }

    /** The `.then` branch of handleSubmit's post: one row inserted with the
        form's values, the lists reloaded and the form reset. */
    method PostFeedback(store: Store, now: Timestamp)
      requires store.Valid() && selectedEmployee.Some?
      modifies this`selectedEmployee, this`strengths, this`improvements, this`sentiment, this`tags
      modifies this`feedbacks, this`requests, store`feedback, store`nextFeedbackId
      ensures store.Valid()
      ensures store.feedback == old(store.feedback) +
                [NewFeedbackRow(old(store.nextFeedbackId), managerId, old(selectedEmployee).value,
                                old(strengths), old(improvements), old(sentiment), Some(old(tags)), now)]
      ensures store.nextFeedbackId == old(store.nextFeedbackId) + 1
      ensures strengths == "" && improvements == "" && sentiment == "positive" && tags == ""
      ensures selectedEmployee == None
      ensures feedbacks == ManagerListing(store.feedback, store.comments, managerId)
      ensures requests == RequestListing(store.requests, store.users, managerId)
    {
      var _ := store.SubmitFeedback(managerId, selectedEmployee.value, strengths, improvements,
                                    sentiment, Some(tags), now);
      var fbs := store.GetManagerFeedback(managerId);
      var rqs := store.GetFeedbackRequests(managerId);
      feedbacks, requests := fbs, rqs;
      ResetForm();
    }

    /** handleSubmit. An invalid form posts nothing and changes nothing.
        A delivered post inserts one row with the form's values, resets the
        form and reloads the lists; the other tables stay as they were. */
    method HandleSubmit(store: Store, delivered: bool, now: Timestamp)
      requires store.Valid()
      modifies this`selectedEmployee, this`strengths, this`improvements, this`sentiment, this`tags
      modifies this`feedbacks, this`requests, store`feedback, store`nextFeedbackId
      ensures store.Valid()
      ensures !SubmitAllowed(old(selectedEmployee), old(strengths), old(improvements)) || !delivered ==>
        unchanged(this) && unchanged(store)
      ensures SubmitAllowed(old(selectedEmployee), old(strengths), old(improvements)) && delivered ==>
        && store.feedback == old(store.feedback) +
             [NewFeedbackRow(old(store.nextFeedbackId), managerId, old(selectedEmployee).value,
                             old(strengths), old(improvements), old(sentiment), Some(old(tags)), now)]
        && store.nextFeedbackId == old(store.nextFeedbackId) + 1
        && strengths == "" && improvements == "" && sentiment == "positive" && tags == ""
        && selectedEmployee == None
        && feedbacks == ManagerListing(store.feedback, store.comments, managerId)
        && requests == RequestListing(store.requests, store.users, managerId)
    {
      if SubmitAllowed(selectedEmployee, strengths, improvements) && delivered {
        PostFeedback(store, now);
      }
    }

    /** handleEdit: open the edit buffer on a record; falsy tags become "". */
    method HandleEdit(fb: ManagerFeedbackView)
      modifies this`editId, this`editStrengths, this`editImprovements, this`editSentiment, this`editTags
      ensures editId == Some(fb.id)
      ensures editStrengths == fb.strengths && editImprovements == fb.improvements
      ensures editSentiment == fb.sentiment
      ensures editTags == (if fb.tags.Some? then fb.tags.value else "")
    {
      editId := Some(fb.id);
      editStrengths, editImprovements, editSentiment := fb.strengths, fb.improvements, fb.sentiment;
      editTags := Or(fb.tags, "");
    }

    /** The delivered branch of handleSave. */
    method SaveEdit(store: Store, id: int, now: Timestamp)
      requires store.Valid()
      modifies this`editId, this`feedbacks, store`feedback
      ensures store.Valid()
      ensures store.feedback == Updated(old(store.feedback), id, editStrengths, editImprovements,
                                        editSentiment, Some(editTags), now)
      ensures AckMonotone(old(store.feedback), store.feedback)
      ensures editId == None
      ensures feedbacks == ManagerListing(store.feedback, store.comments, managerId)
    {
      store.UpdateFeedback(id, editStrengths, editImprovements, editSentiment, Some(editTags), now);
      var fbs := store.GetManagerFeedback(managerId);
      editId, feedbacks := None, fbs;
    }

    /** handleSave: send the four edit buffers for record `id`; once
        delivered, close the editor and reload this manager's feedback. */
    method HandleSave(store: Store, id: int, delivered: bool, now: Timestamp)
      requires store.Valid()
      modifies this`editId, this`feedbacks, store`feedback
      ensures store.Valid()
      ensures !delivered ==> unchanged(this) && unchanged(store)
      ensures delivered ==> store.feedback == Updated(old(store.feedback), id, editStrengths, editImprovements,
                                                      editSentiment, Some(editTags), now)
      ensures delivered ==> AckMonotone(old(store.feedback), store.feedback)
      ensures delivered ==> editId == None
      ensures delivered ==> feedbacks == ManagerListing(store.feedback, store.comments, managerId)
    {
      if delivered {
        SaveEdit(store, id, now);
      }
    }

    /** The Cancel button: close the editor and keep everything else. */
    method CancelEdit()
      modifies this`editId
      ensures editId == None
    {
      editId := None;
    }

    /** handleRequestRespond: select the first employee with that email; an
        unknown email leaves the selection as it was. */
    method HandleRequestRespond(employeeEmail: string)
      modifies this`selectedEmployee
      ensures (forall i :: 0 <= i < |employees| ==> employees[i].email != employeeEmail) ==>
                selectedEmployee == old(selectedEmployee)
      ensures (exists i :: 0 <= i < |employees| && employees[i].email == employeeEmail) ==>
                exists i :: 0 <= i < |employees| && employees[i].email == employeeEmail
                            && selectedEmployee == Some(employees[i].id)
                            && forall j :: 0 <= j < i ==> employees[j].email != employeeEmail
    {
      var matched := FindByEmail(employees, employeeEmail);
      if matched.Some? {
        selectedEmployee := Some(matched.value.id);
      }
    }

    /** exportEmployeeFeedbackAsPDF: fetch the employee's feedback, keep this
        manager's records and build the lines of the document; a failed
        fetch yields no document. */
    method ExportEmployeeFeedback(store: Store, employeeId: int, employeeEmail: string,
                                  delivered: bool, date: Timestamp -> string)
      returns (lines: Option<seq<string>>)
      ensures !delivered ==> lines.None?
      ensures delivered ==>
        lines == Some(ExportText(employeeEmail,
                                 ByManager(EmployeeListing(store.feedback, store.comments, employeeId), managerId),
                                 date))
    {
      if !delivered {
        return None;
      }
      var response := store.GetFeedback(employeeId);
      var text := BuildExport(employeeEmail, ByManager(response, managerId), date);
      lines := Some(text);
    }
  }
}
