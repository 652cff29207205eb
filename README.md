# Feedback system: backend store and dashboards in Dafny

This project models the core of a small employee-feedback tool. Managers write
feedback for employees, employees acknowledge it and comment on it, employees
ask their manager for feedback, and colleagues read peer feedback, which may be
anonymous.

- `common.dfy` (module `Common`) holds the generic pieces:
  - `Option`;
  - JavaScript-style `trim` and blankness;
  - integer-to-text conversion;
  - a filter;
  - the stable newest-first ordering used for `ORDER BY timestamp DESC`;
  - the block layout of the PDF exports.
- `tables.dfy` (module `Tables`) holds:
  - the five SQLite tables as sequences of rows, and the schema constraints on them;
  - the JSON objects the routes return;
  - every query and `UPDATE` as a function of the tables;
  - the lemmas about those functions.
- `store.dfy` (module `Backend`) models the Flask application as a class `Store`.
  - Its fields are the tables plus one AUTOINCREMENT counter per written table.
  - Each route is a method with a `modifies` clause.
  - Each method is proved against the table functions of `Tables`.
  - The two listing routes keep their loop over the fetched rows.
- `manager.dfy` (module `ManagerClient`) models the manager's page.
  - The component state is a class `ManagerDashboard`.
  - Its handlers are methods that call the `Store`.
  - The submit check, the lookup by email, the per-manager filter and the export lines are pure functions with lemmas.
- `employee.dfy` (module `EmployeeClient`) models the employee's page in the same way:
  - the class `EmployeeDashboard`;
  - pure functions for the colleague filter, the comment drafts, the two validations, the widget each record shows, the unread banner and the export lines.

Inputs the model does not compute are parameters:
- The password digest is `hash: string -> string`.
- The clock is `now`, and a timestamp is an `int` whose order is the order of the ISO text the backend writes.
- `toLocaleString` is `date`.
- Whether an HTTP request went through is `delivered`.

## Model

| member | source | states |
|---|---|---|
| Common.Trim | feedback-tool/src/pages/ManagerDashboard.js:85 | Definition of `String.prototype.trim` over the JavaScript whitespace set; it is also used at EmployeeDashboard.js:89 and 119. Common.TrimEmptyIffBlank proves that the result is empty exactly when every character is whitespace. |
| Common.TrimEmptyIffBlank | feedback-tool/src/pages/ManagerDashboard.js:85 | The trimmed text is empty iff the text is blank, so the validations' `!s.trim()` tests are blankness. |
| Tables.FindCredentials | feedback-backend/app.py:87-88 | The lookup finds nothing exactly when no row matches both email and password digest; anything it finds is such a row. |
| Tables.CheckLogin | feedback-backend/app.py:83-97 | Login succeeds only for a row matching email, digest and requested role, returning that row's id with the role and email. A matching row with another role gives 403 with the role error text. No matching row gives 401 "Invalid email or password". With unique emails, success and 403 hold in both directions. |
| Tables.UniqueMatch | feedback-backend/app.py:19-24 | Under the UNIQUE email constraint, a row matching email and digest is the only one. |
| Tables.EmployeeDirectory | feedback-backend/app.py:103-106 | /api/employees lists exactly the users with role 'employee', as (id, email), one entry per such row. |
| Tables.FeedbackAppendWellFormed | feedback-backend/app.py:28-38 | Inserting a row with the next AUTOINCREMENT id and flag 0 keeps ids distinct and below the counter, and keeps every flag 0 or 1. |
| Tables.CommentAppendWellFormed | feedback-backend/app.py:63-69 | Inserting a comment with the next id keeps the comment ids distinct and below the counter. |
| Tables.RequestAppendWellFormed | feedback-backend/app.py:42-47 | Inserting a request with the next id keeps the request ids distinct and below the counter. |
| Tables.Acknowledged | feedback-backend/app.py:174 | Rows with the given id get acknowledged = 1; every other row, and every other column, is unchanged. |
| Tables.AcknowledgedRow | feedback-backend/app.py:174 | After acknowledging an id, every row with that id has acknowledged = 1. |
| Tables.AcknowledgeIdempotent | feedback-backend/app.py:174 | Acknowledging the same id twice gives the same table as once. |
| Tables.Updated | feedback-backend/app.py:184-195 | The row with the id gets the new strengths, improvements, sentiment, timestamp and tags, with missing tags stored as "". Its id, manager_id, employee_id and acknowledged are kept. All other rows are unchanged. |
| Tables.AckMonotoneApply | feedback-backend/app.py:113-195 | Each of the three writes (insert, acknowledge, update) keeps every row and its id, lowers no flag, and keeps flags 0 or 1. |
| Tables.AckMonotoneAcrossWrites | feedback-backend/app.py:113-195 | Over any sequence of writes, acknowledged only goes from 0 to 1: no row is lost or renumbered, and a flag at 1 stays at 1. |
| Tables.UnreadAfterAcknowledge | feedback-backend/app.py:174 | With distinct ids, acknowledging lowers an employee's unread count by exactly one if the id names one of that employee's unread rows, and leaves it unchanged otherwise. |
| Tables.UnreadAfterUpdate | feedback-backend/app.py:184-195 | Editing feedback never changes any employee's unread count. |
| Tables.UnreadAfterInsert | feedback-backend/app.py:113-124 | Inserting an unacknowledged row raises the receiving employee's unread count by one and leaves every other employee's count. |
| Tables.FindComment | feedback-backend/app.py:146-153 | A comment object is attached exactly when some comment row has that feedback_id, and it carries the content and timestamp of such a row. |
| Tables.CommentsAccumulate | feedback-backend/app.py:313-316 | The comment insert is unconditional: two comments on one feedback are both stored, and the feedback has a comment afterwards. |
| Tables.EmployeeQueryMember | feedback-backend/app.py:133-139 | A row is in the employee query exactly when it is in the table with that employee_id. |
| Tables.ManagerQueryMember | feedback-backend/app.py:204-210 | A row is in the manager query exactly when it is in the table with that manager_id. |
| Tables.EmployeeListingNoTags | feedback-backend/app.py:134 | The employee listing selects no tags column, so no object of it carries tags. |
| Tables.EmployeeListingSound | feedback-backend/app.py:133-164 | /api/feedback/<employee_id> has one object per row of that employee. Each object shows such a row, objects are newest first, a comment is attached exactly when one exists for the id, and tags are absent. |
| Tables.EmployeeListingComplete | feedback-backend/app.py:133-164 | Every feedback row of the employee appears in that listing. |
| Tables.ManagerListingSound | feedback-backend/app.py:204-234 | /api/manager/<manager_id>/feedback has one object per row of that manager. Each object shows such a row with its stored tags, objects are newest first, and a comment is attached exactly when one exists. |
| Tables.ManagerListingComplete | feedback-backend/app.py:204-234 | Every feedback row the manager wrote appears in that listing. |
| Tables.ListingAgreesWithUnreadCount | feedback-backend/app.py:240-247 | The unread count equals the number of unacknowledged objects in the employee's feedback listing. |
| Tables.EmailOf | feedback-backend/app.py:273 | The join finds an email exactly when some user has the id, and the email is that user's. |
| Tables.EmailOfUser | feedback-backend/app.py:273 | With unique user ids, the join yields the user's own email. |
| Tables.RequestListingSound | feedback-backend/app.py:270-281 | /api/requests/<manager_id> has one object per request of that manager whose employee joins a user. Each object carries (request id, that user's email, timestamp), and objects are newest first. |
| Tables.RequestListingComplete | feedback-backend/app.py:270-281 | Every request to the manager from an existing user is listed with that user's email. |
| Tables.PeerListingSound | feedback-backend/app.py:287-301 | /api/peer-feedback/<employee_id> has one object per row sent to that employee, newest first. sender_id is null exactly when anonymous is set, and otherwise is the stored sender. |
| Tables.PeerListingComplete | feedback-backend/app.py:287-301 | Every row sent to the employee appears, with the sender masked when anonymous. |
| Tables.NewFeedbackRow | feedback-backend/app.py:113-124 | Definition of the inserted row: the next id, the request's values, tags or "" when absent, `now`, and acknowledged at its DEFAULT 0 (app.py:37). Its effect on the tables is stated by Backend.Store.SubmitFeedback and Tables.UnreadAfterInsert. |
| Tables.UnreadCount | feedback-backend/app.py:244 | Definition of `COUNT(*) WHERE employee_id = ? AND acknowledged = 0` as the number of such rows. Its properties are stated by Tables.UnreadAfterAcknowledge, Tables.UnreadAfterInsert, Tables.UnreadAfterUpdate and Tables.ListingAgreesWithUnreadCount. |
| Tables.EmployeeListing | feedback-backend/app.py:133-164 | Definition of the /api/feedback/<employee_id> response: the employee's rows newest first, built as Tables.EmployeeQuery (the employee's rows) mapped through Tables.EmployeeView (each as its selected columns plus its comment). Its properties are stated by Tables.EmployeeListingSound and Tables.EmployeeListingComplete. |
| Tables.ManagerListing | feedback-backend/app.py:204-234 | Definition of the /api/manager/<manager_id>/feedback response: the manager's rows newest first, built as Tables.ManagerQuery (the manager's rows) mapped through Tables.ManagerView (each with tags and comment). Its properties are stated by Tables.ManagerListingSound and Tables.ManagerListingComplete. |
| Tables.RequestListing | feedback-backend/app.py:270-281 | Definition of the /api/requests/<manager_id> response: Tables.JoinedViews (the manager's requests joined to their users' emails), newest first. Its properties are stated by Tables.RequestListingSound and Tables.RequestListingComplete. |
| Tables.MaskSender | feedback-backend/app.py:296-301 | Definition of one peer object: `sender_id` is null when anonymous is set, and the sender otherwise. |
| Tables.PeerListing | feedback-backend/app.py:287-301 | Definition of the /api/peer-feedback/<employee_id> response: rows sent to the employee, newest first, each masked. Its properties are stated by Tables.PeerListingSound and Tables.PeerListingComplete. |
| Backend.Store.constructor | feedback-backend/app.py:14-74 | A fresh database: feedback, comments and requests are empty, the counters start at 1, and users and peer rows are given; the schema invariant holds. |
| Backend.Store.Login | feedback-backend/app.py:76-97 | The route answers the login outcome: a session iff a row matches email, digest and role, and 403 iff a row matches with another role. |
| Backend.Store.ListEmployees | feedback-backend/app.py:99-106 | The route returns the employee directory of the users table. |
| Backend.Store.SubmitFeedback | feedback-backend/app.py:108-127 | Exactly one row is appended, with a fresh id, acknowledged 0 and tags defaulting to "". Existing rows are unchanged, and only the receiving employee's unread count rises, by one. |
| Backend.Store.GetFeedback | feedback-backend/app.py:129-167 | The loop over the ordered rows returns the employee listing. |
| Backend.Store.AcknowledgeFeedback | feedback-backend/app.py:170-177 | The table becomes the acknowledged table, no flag goes down, and the unread count drops by one exactly for the employee whose unread row it was. |
| Backend.Store.UpdateFeedback | feedback-backend/app.py:179-198 | The table becomes the updated table, no flag or id changes, and every unread count is kept. |
| Backend.Store.GetManagerFeedback | feedback-backend/app.py:200-237 | The loop over the ordered rows returns the manager listing. |
| Backend.Store.GetUnreadFeedbackCount | feedback-backend/app.py:240-247 | The count of that employee's unacknowledged rows, equal to the unacknowledged objects of the employee's listing. |
| Backend.Store.RequestFeedback | feedback-backend/app.py:249-264 | Exactly one request row with a fresh id is appended. |
| Backend.Store.GetFeedbackRequests | feedback-backend/app.py:266-281 | The route returns the joined, ordered request listing. |
| Backend.Store.GetPeerFeedback | feedback-backend/app.py:283-302 | The route returns the peer listing; every object has a null sender exactly when anonymous. |
| Backend.Store.AddComment | feedback-backend/app.py:305-320 | One comment row is appended unconditionally with a fresh id, and the feedback then has a comment. |
| ManagerClient.SubmitAllowed | feedback-tool/src/pages/ManagerDashboard.js:85-88 | A submit is allowed iff an employee is selected and neither strengths nor improvements is blank after trimming. |
| ManagerClient.FindByEmail | feedback-tool/src/pages/ManagerDashboard.js:134 | Nothing is found iff no employee has the email; otherwise the result is the first employee with it. |
| ManagerClient.ByManager | feedback-tool/src/pages/ManagerDashboard.js:34 | The export keeps exactly the records whose manager_id is the current manager, each no more often than in the input (a sub-multiset); with ManagerClient.ByManagerOrder this makes it the order-preserving subsequence. |
| ManagerClient.ByManagerOrder | feedback-tool/src/pages/ManagerDashboard.js:34 | The filter preserves input order: filtering a concatenation concatenates the filtered parts. |
| ManagerClient.ExportRecordsSound | feedback-tool/src/pages/ManagerDashboard.js:33-34 | Every exported record shows a feedback row the current manager gave that employee. |
| ManagerClient.ExportRecordsComplete | feedback-tool/src/pages/ManagerDashboard.js:33-34 | Every feedback row the current manager gave that employee is exported. |
| ManagerClient.ExportBlock | feedback-tool/src/pages/ManagerDashboard.js:47-52 | Definition of the six lines drawn for one record. |
| ManagerClient.ExportText | feedback-tool/src/pages/ManagerDashboard.js:38-53 | Definition of the whole export: the header, then "No feedback submitted." or one block per record. Its properties are stated by ManagerClient.ExportTextShape and ManagerClient.ExportNeverShowsTags. |
| ManagerClient.ExportTagsAt | feedback-tool/src/pages/ManagerDashboard.js:51 | Line 6k+5 is the tags line of record k, and says "Tags: N/A" when the record has no tags. |
| ManagerClient.ExportTextShape | feedback-tool/src/pages/ManagerDashboard.js:38-53 | The header comes first. An empty list adds only "No feedback submitted.". Otherwise each record, in input order, gets six lines: its number from 1; strengths; improvements; sentiment; its tags, or "N/A" when they are missing or empty; and its date. |
| Common.NatToStringRoundTrip | feedback-tool/src/pages/ManagerDashboard.js:47 | The decimal numeral printed for a record number reads back as that number. |
| Common.NatToStringInjective | feedback-tool/src/pages/EmployeeDashboard.js:32 | Distinct record numbers print as distinct numerals, so the "Feedback n" headings of an export are distinct. |
| ManagerClient.ExportNeverShowsTags | feedback-tool/src/pages/ManagerDashboard.js:33-51 | Because the export reads the employee listing, which carries no tags, every exported record prints "Tags: N/A". |
| ManagerClient.BuildExport | feedback-tool/src/pages/ManagerDashboard.js:36-54 | The drawing loop produces exactly the export lines. |
| ManagerClient.ManagerDashboard.constructor | feedback-tool/src/pages/ManagerDashboard.js:7-24 | The initial state: empty lists, no selection, empty text fields, sentiment "positive", and no record being edited. |
| ManagerClient.ManagerDashboard.Mount | feedback-tool/src/pages/ManagerDashboard.js:63-82 | Loads the employee directory, this manager's feedback listing and the requests addressed to this manager. |
| ManagerClient.ManagerDashboard.ResetForm | feedback-tool/src/pages/ManagerDashboard.js:99-100 | Strengths, improvements and tags become "", sentiment becomes "positive", and nothing is selected. |
| ManagerClient.ManagerDashboard.PostFeedback | feedback-tool/src/pages/ManagerDashboard.js:90-102 | One row with the form's values is inserted, the lists are reloaded and the form is reset. |
| ManagerClient.ManagerDashboard.HandleSubmit | feedback-tool/src/pages/ManagerDashboard.js:84-107 | An invalid or undelivered submit changes neither the page nor the store. A delivered valid one inserts exactly one row with the form's values, resets the form and reloads the lists. |
| ManagerClient.ManagerDashboard.HandleEdit | feedback-tool/src/pages/ManagerDashboard.js:109-115 | The edit buffer holds the record's id, strengths, improvements and sentiment, and its tags or "" when they are missing. |
| ManagerClient.ManagerDashboard.SaveEdit | feedback-tool/src/pages/ManagerDashboard.js:123-126 | The store row is updated from the four edit buffers only, no flag goes down, the editor closes and the feedback is reloaded. |
| ManagerClient.ManagerDashboard.HandleSave | feedback-tool/src/pages/ManagerDashboard.js:117-131 | An undelivered save changes nothing. A delivered one updates only strengths, improvements, sentiment, tags and timestamp of that row, clears editId and reloads. |
| ManagerClient.ManagerDashboard.CancelEdit | feedback-tool/src/pages/ManagerDashboard.js:248 | Cancel clears editId and changes nothing else. |
| ManagerClient.ManagerDashboard.HandleRequestRespond | feedback-tool/src/pages/ManagerDashboard.js:133-141 | With a matching email, the selection becomes the id of the first employee with that email. Without one, the selection is unchanged. |
| ManagerClient.ManagerDashboard.ExportEmployeeFeedback | feedback-tool/src/pages/ManagerDashboard.js:31-61 | A failed fetch yields no document. Otherwise the lines are the export text of this manager's records from the employee's listing. |
| EmployeeClient.Colleagues | feedback-tool/src/pages/EmployeeDashboard.js:50 | The colleagues are exactly the listed employees whose id is not the current user's, each no more often than in the input (a sub-multiset); with EmployeeClient.ColleaguesOrder this makes it the order-preserving subsequence. |
| EmployeeClient.ColleaguesOrder | feedback-tool/src/pages/EmployeeDashboard.js:50 | The colleague filter preserves the order of the employee list. |
| EmployeeClient.ColleaguesOfDirectory | feedback-tool/src/pages/EmployeeDashboard.js:48-51 | On the list from /api/employees, the colleagues are exactly the employee accounts other than the current user. |
| EmployeeClient.WithDrafts | feedback-tool/src/pages/EmployeeDashboard.js:60 | Every fetched record gets an empty draft, one per record. |
| EmployeeClient.DraftsKeepRecords | feedback-tool/src/pages/EmployeeDashboard.js:60 | Adding drafts keeps every fetched object as it was, in its place. |
| EmployeeClient.CommentAccepted | feedback-tool/src/pages/EmployeeDashboard.js:89-92 | A comment is accepted iff it is present and not blank after trimming. |
| EmployeeClient.PeerSubmitAllowed | feedback-tool/src/pages/EmployeeDashboard.js:119-122 | Peer feedback is allowed iff a colleague is selected and the content is not blank after trimming. |
| EmployeeClient.AckButtonsCountUnread | feedback-tool/src/pages/EmployeeDashboard.js:204-213 | The button shows exactly for unacknowledged records, so on the fetched records the Acknowledge buttons number the backend's unread count. |
| EmployeeClient.CommentFormIffNoComment | feedback-tool/src/pages/EmployeeDashboard.js:215-243 | On the fetched records, the comment form shows exactly when the feedback has no stored comment, and it starts with the empty draft. |
| EmployeeClient.AckWidgetFor | feedback-tool/src/pages/EmployeeDashboard.js:204-213 | Definition of the acknowledge widget: the label for a non-zero flag, the button for 0. Its agreement with the unread count is stated by EmployeeClient.AckButtonsCountUnread. |
| EmployeeClient.CommentWidgetFor | feedback-tool/src/pages/EmployeeDashboard.js:215-243 | Definition of the comment widget: the stored comment when present, otherwise the form holding the draft. Its properties are stated by EmployeeClient.CommentFormIffNoComment and EmployeeClient.CommentShown. |
| EmployeeClient.SenderLabel | feedback-tool/src/pages/EmployeeDashboard.js:262-264 | Definition of the peer label: "Anonymous" or "From User ID: " with the sender. Its properties are stated by EmployeeClient.SenderLabelsOfListing. |
| EmployeeClient.SenderLabelsOfListing | feedback-tool/src/pages/EmployeeDashboard.js:262-264 | On the peer listing, "Anonymous" is shown exactly for anonymous feedback. Otherwise the object carries a sender, the label is "From User ID: " with that sender, and it is the sender stored on a non-anonymous row sent to this employee with the object's content and timestamp. |
| EmployeeClient.UnreadBanner | feedback-tool/src/pages/EmployeeDashboard.js:149-153 | The banner appears iff the unread count is positive, and it starts with the bell. |
| EmployeeClient.BannerPlural | feedback-tool/src/pages/EmployeeDashboard.js:151 | The banner ends in "feedbacks!" iff the count exceeds one, and in " feedback!" iff it is one. |
| EmployeeClient.ExportBlock | feedback-tool/src/pages/EmployeeDashboard.js:32-36 | Definition of the five lines drawn for one record. |
| EmployeeClient.ExportText | feedback-tool/src/pages/EmployeeDashboard.js:25-37 | Definition of the whole export: the header, then one block per record. Its properties are stated by EmployeeClient.ExportTextShape and EmployeeClient.ExportNeverShowsTags. |
| EmployeeClient.ExportTagsAt | feedback-tool/src/pages/EmployeeDashboard.js:36 | Line 5k+5 is the tags line of record k. |
| EmployeeClient.ExportTextShape | feedback-tool/src/pages/EmployeeDashboard.js:24-37 | The header "Feedback for <email>" comes first. Then each record, in input order, gets five lines: "Feedback n:" numbered from 1, strengths, improvements, sentiment, and tags or "N/A". |
| EmployeeClient.ExportNeverShowsTags | feedback-tool/src/pages/EmployeeDashboard.js:36 | The fetched records carry no tags, so each exported block says "Tags: N/A". |
| EmployeeClient.BuildExport | feedback-tool/src/pages/EmployeeDashboard.js:29-37 | The drawing loop produces exactly the export lines. |
| EmployeeClient.AcknowledgedShowsLabel | feedback-tool/src/pages/EmployeeDashboard.js:204-205 | After the acknowledge write, every reloaded record with that id shows the Acknowledged label. |
| EmployeeClient.CommentShown | feedback-tool/src/pages/EmployeeDashboard.js:215-221 | After a comment on a feedback is stored, every reloaded record with that id shows a comment instead of the form. |
| EmployeeClient.EmployeeDashboard.constructor | feedback-tool/src/pages/EmployeeDashboard.js:7-17 | The initial state: empty lists, count 0, empty peer form, and the fixed manager id 1. |
| EmployeeClient.EmployeeDashboard.FetchOwnFeedback | feedback-tool/src/pages/EmployeeDashboard.js:57-70 | The records are the employee listing with empty drafts, the count is the unread count, and the Acknowledge buttons number the count. |
| EmployeeClient.EmployeeDashboard.FetchOthers | feedback-tool/src/pages/EmployeeDashboard.js:46-53 | The peer list is the peer listing of the user, and the colleagues are the directory without the user. |
| EmployeeClient.EmployeeDashboard.Mount | feedback-tool/src/pages/EmployeeDashboard.js:42-55 | Without a user id nothing is loaded. With one, records, count, peer feedback and colleagues are loaded, and the buttons number the count. |
| EmployeeClient.EmployeeDashboard.HandleAcknowledge | feedback-tool/src/pages/EmployeeDashboard.js:78-86 | An undelivered PUT changes nothing. A delivered one sets that row acknowledged, reloads, drops the count by one exactly if that row was the user's unread row, and shows the label on it. |
| EmployeeClient.EmployeeDashboard.SubmitComment | feedback-tool/src/pages/EmployeeDashboard.js:88-104 | A blank or undelivered comment changes nothing. Otherwise one comment row with the user's id is stored, the records are reloaded, and that feedback shows the comment. |
| EmployeeClient.EmployeeDashboard.HandleRequestFeedback | feedback-tool/src/pages/EmployeeDashboard.js:106-116 | A delivered request appends one request row from this user to manager 1; an undelivered one changes nothing. |
| EmployeeClient.EmployeeDashboard.HandleSubmitPeerFeedback | feedback-tool/src/pages/EmployeeDashboard.js:118-140 | An invalid form sends nothing and keeps the state. A valid one sends (user, target, content, anonymous). A delivered send resets content and target to none and anonymous to false. |
| EmployeeClient.EmployeeDashboard.EditDraft | feedback-tool/src/pages/EmployeeDashboard.js:227-230 | Typing changes only record i's draft; every other record and record i's data are kept. |
| EmployeeClient.EmployeeDashboard.ExportAsPDF | feedback-tool/src/pages/EmployeeDashboard.js:24-40 | The lines are the export text of the page's records. |

## Left out

- HTTP, Flask routing, request parsing and the CORS headers (feedback-backend/app.py:324-330) are not modelled. Every axios call is a direct call on `Store`. Every write's success is the `delivered` parameter; the page's GETs are assumed to succeed.
- SQLite and its connections are not modelled. Tables are sequences of rows, and `ORDER BY timestamp DESC` is a stable newest-first sort.
  - The model breaks timestamp ties by table order, which SQL does not promise. So the method contracts that return a listing fix the order of rows with equal timestamps.
  - The listing lemmas use only the newest-first order and membership, and no proof relies on the tie order.
  - Several lookups have no ORDER BY at all. These are `list_employees` (feedback-backend/app.py:103), the comment lookup (feedback-backend/app.py:147), the credential lookup (feedback-backend/app.py:87) and the user join (feedback-backend/app.py:273). On them the model fixes table order, which SQL does not promise either.
  - That fixed order reaches `Tables.EmployeeDirectory` and `Backend.Store.ListEmployees`, and through them the colleague list (`EmployeeClient.Colleagues`, `EmployeeClient.ColleaguesOrder`) and the manager's employee list. Their lemmas promise membership, and the colleague list keeps the order of the directory, whatever that order is.
- A missing JSON key is modelled (as `None`) only where the route reads it with `data.get`: `tags` in submit and update, and `content` and `employee_id` in add_comment. Every other route receives all its values.
  - The routes that index `data[...]` fail with a KeyError when a key is missing (feedback-backend/app.py:117-121, 189-191, 258-259).
  - `login` reads its keys with `data.get` (feedback-backend/app.py:79-81). A missing email gives 401, a missing role with matching credentials gives 403 "You are not a None.", and a missing password raises AttributeError at the hash.
  - The login page always sends all three keys (feedback-tool/src/pages/Login.js:19-23).
- A `tags` value sent as JSON null would be stored as NULL. It is not modelled: `None` stands for a missing key, which becomes "". The dashboards always send a string.
- `hashlib.sha256` is the uninterpreted parameter `hash`. `datetime.utcnow().isoformat()` is the parameter `now`, an integer ordered like the ISO text.
- Tables.FindComment: `fetchone` with no ORDER BY may return any matching comment, so the contract promises only that the comment is one of that feedback's. The model picks the first in table order.
- There is no POST /api/peer-feedback route in feedback-backend/app.py, although the employee page posts to it.
  - EmployeeClient.EmployeeDashboard.HandleSubmitPeerFeedback therefore changes no table. It returns the body it would send.
  - Against this backend the POST gets a 404, and axios takes the `.catch` branch. So `delivered` is always false, and the form reset at feedback-tool/src/pages/EmployeeDashboard.js:130-135 never happens. The model keeps `delivered` as a parameter, so it also covers a backend that has the route.
  - The peer_feedback table is given to the `Store` constructor. The `Store` constructor likewise takes the users table as given, since it is filled by scripts this model does not cover.
- Select values in the browser are strings (`e.target.value`), and SQLite's INTEGER affinity turns them into numbers. The model uses integers throughout.
- `localStorage` is not modelled.
  - The stored user id is a constructor argument; `Number(null)` gives 0, which `EmployeeDashboard.Mount` treats as "no user".
  - A NaN user id is not modelled.
- `window.location`, logout and `scrollTo` are not modelled.
- Alerts and console errors are not modelled.
- The jsPDF layout is left out: coordinates, font sizes and `doc.save`. The exports are sequences of text lines, and `new Date(...).toLocaleString()` is the parameter `date`.
- Asynchrony is left out: promise ordering, interleaved fetches, and stale renders between a write and its reload. Each handler runs its requests in order.
- A failed GET is not modelled. In the source it only logs and keeps the old state (feedback-tool/src/pages/ManagerDashboard.js:66, 75, 81; feedback-tool/src/pages/EmployeeDashboard.js:53, 63, 69, 75). Every reload in the model succeeds.
  - This applies to `ManagerClient.ManagerDashboard.Mount`, and to the reloads in `ManagerClient.ManagerDashboard.PostFeedback` and `ManagerClient.ManagerDashboard.SaveEdit`.
  - It applies to `EmployeeClient.EmployeeDashboard.FetchOwnFeedback`, `EmployeeClient.EmployeeDashboard.FetchOthers` and `EmployeeClient.EmployeeDashboard.Mount`, and to the reloads in `EmployeeClient.EmployeeDashboard.HandleAcknowledge` and `EmployeeClient.EmployeeDashboard.SubmitComment`.
  - These members promise that the number of Acknowledge buttons equals `unreadCount`: FetchOwnFeedback, Mount and HandleAcknowledge. In the source that holds only when both the feedback reload and the count reload succeed. If one fails, the page can show a fresh list beside a stale count.
- The draft edit at feedback-tool/src/pages/EmployeeDashboard.js:228-230 mutates a record object the old state array shares. The model replaces the record in a copied sequence, so the aliasing is not captured.
- React rendering and styling are left out. Only the displayed decisions are modelled: which widget shows, the labels and the banner.
- The login page, the routing component and the database scripts are not part of this model: Login.js, App.js, models.py, user_table.py, migrate.py, clear_feedback.py and insert_users.py.
- Three behaviours of the code are modelled as written, although a reader of the user interface might expect otherwise:
  - editing feedback refreshes its timestamp (feedback-backend/app.py:193);
  - any number of comments may be stored per feedback (feedback-backend/app.py:313-316);
  - the employee listing never carries tags, so both exports print "Tags: N/A" (feedback-backend/app.py:134).
