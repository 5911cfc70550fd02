# Classroom web client: a verified model of its component logic

This project models the decision logic of the React client of a classroom
management system. Students and teachers join classrooms, post to a class
stream, receive and submit PDF assignments, and have attendance taken.
The classroom service itself sits behind HTTP. Its code is not part of
this model. The model covers what the components decide on their own:

- which requests they send, and with what body;
- how they fold each reply into their state;
- what each role is shown.

Each component is a Dafny module (one `.dfy` file) built the same way:

- The component's `useState` variables are the fields of a class.
- Each event handler is a method of that class. Every network call a
  handler awaits becomes a parameter of type `Reply<T>`: a 2xx answer
  with its status and body, or the error axios throws. The error is the
  server's error response, a request without an answer, or an error
  thrown before any request.
- The signed-in user, "now" and "today" are also parameters.
- The requests a handler sends, and the alerts and navigations it
  triggers, are its out-parameters.
- Pure derivations are functions, with lemmas about them. These are the
  de-duplication, search, paging, date comparison and role-gated views.

`common.dfy` (module `JsCore`) models the JavaScript semantics the
components rely on:

- `||` on strings (`Or`);
- `trim` over the ECMAScript whitespace set, and `toLowerCase`
  (restricted to ASCII letters);
- `includes`, and `split("/").pop()` (`LastSegment`);
- `Array.prototype.filter`;
- the `null`/`undefined` distinction (`Nullable`).

Some things the model proves that the code leaves implicit:

- `Map`-based de-duplication keeps first-occurrence order, keeps the last
  duplicate, and is idempotent.
- The nine-per-page slices of the classroom list, concatenated, give back
  the filtered list.
- Comparing ISO `YYYY-MM-DD` strings as text agrees with calendar order.
- A student who has a status can never be marked twice.
- Narrowing the search does not reset the page. A page past the new last
  page shows no classrooms, and Next, still enabled, moves back to the
  last page (`ClassroomList.NarrowedSearchLeavesEmptyPage`).
- On the assignment page any error replaces the whole page. A rejected
  file therefore hides the submission form, and the error line inside
  that form is never drawn (`AssignmentDetails.RejectedFileHidesForm`,
  and the last `ensures` of `AssignmentDetails.AssignmentDetailsView.View`).

Where the service's own description and the client disagree, the model
follows the client:

- The service requires an answer key for every assignment. The client
  sends `primaryPdfUrl: ""` when none was chosen. Only the input's
  `required` attribute, not modelled here, stands in the way.

## Model

| member | source | states |
|---|---|---|
| JsCore.Or | Frontend/src/Components/AssignmentList.jsx:50 | `x \|\| fallback` on an optional string: the value when present and non-empty, else the fallback |
| JsCore.TrimStart | Frontend/src/Components/CreateClass.jsx:14 | the result is a suffix of the input, does not start with whitespace, and everything cut off is whitespace |
| JsCore.TrimEnd | Frontend/src/Components/CreateClass.jsx:14 | the result is a prefix of the input, does not end with whitespace, and everything cut off is whitespace |
| JsCore.Trim | Frontend/src/Components/CreateClass.jsx:14 | `trim`: leading whitespace cut by TrimStart, then trailing whitespace by TrimEnd |
| JsCore.IsBlank | Frontend/src/Components/CreateClass.jsx:14 | `!s.trim()`: nothing is left once whitespace is cut; characterised by BlankIffAllSpace |
| JsCore.BlankIffAllSpace | Frontend/src/Components/CreateClass.jsx:14 | `!s.trim()` holds exactly when every character of `s` is whitespace |
| JsCore.LowerChar | Frontend/src/Components/Classroom.jsx:90 | upper-case ASCII letters map to their lower-case letter; every other character is unchanged |
| JsCore.Lower | Frontend/src/Components/Classroom.jsx:90 | same length as the input, lowering each character separately |
| JsCore.Includes | Frontend/src/Components/Classroom.jsx:90 | `hay.includes(needle)`: the needle is a prefix of some suffix of the haystack; characterised by IncludesIffOccurs |
| JsCore.IncludesIffOccurs | Frontend/src/Components/Classroom.jsx:90 | `includes` holds exactly when the needle occurs at some position of the haystack |
| JsCore.IncludesEmpty | Frontend/src/Components/Classroom.jsx:90 | every string includes the empty string |
| JsCore.LastSegment | Frontend/src/Components/MainSection.jsx:150 | `split(sep).pop()`: a suffix of the input without the separator, preceded by a separator unless it is the whole string |
| JsCore.LastSegmentNoSep | Frontend/src/Components/MainSection.jsx:150 | a string without the separator is its own last segment |
| JsCore.LastSegmentAfterSep | Frontend/src/Components/MainSection.jsx:150 | whatever comes before the last separator does not change the last segment |
| JsCore.Filter | Frontend/src/Components/Classroom.jsx:58-60 | `filter`: never longer than the input, and holds exactly the elements the predicate keeps |
| JsCore.FilterAppend | Frontend/src/Components/Classroom.jsx:58-60 | filtering distributes over concatenation, so relative order is kept |
| JsCore.FilterAllKept | Frontend/src/Components/Classroom.jsx:89-91 | a predicate that keeps every element returns the list unchanged |
| JsCore.FilterSamePredicate | Frontend/src/Components/Classroom.jsx:89-91 | predicates that agree on every element filter alike |
| AssignmentList.FirstIndex | Frontend/src/Components/AssignmentList.jsx:40 | the position of the first assignment with a given id |
| AssignmentList.LastIndex | Frontend/src/Components/AssignmentList.jsx:40 | the position of the last assignment with a given id |
| AssignmentList.Insert | Frontend/src/Components/AssignmentList.jsx:40 | `Map.set`: the key order stays without repeats and every key has exactly one entry |
| AssignmentList.BuildMap | Frontend/src/Components/AssignmentList.jsx:40 | the `Map` built by setting the fetched items in order has no repeated key and an entry for each key |
| AssignmentList.Values | Frontend/src/Components/AssignmentList.jsx:40 | `Array.from(map.values())`: one value per key, in key order |
| AssignmentList.Dedup | Frontend/src/Components/AssignmentList.jsx:39-41 | `Array.from(new Map(list.map(item => [item._id, item])).values())`: never longer than the fetched list, and every kept assignment comes from it |
| AssignmentList.BuildMapDomain | Frontend/src/Components/AssignmentList.jsx:40 | the `Map` built from the list has exactly the list's ids as keys, each once |
| AssignmentList.BuildMapEntries | Frontend/src/Components/AssignmentList.jsx:40 | each key maps to the last assignment in the list with that id (`Map.set` overwrites) |
| AssignmentList.BuildMapOrder | Frontend/src/Components/AssignmentList.jsx:40 | the keys are in the order of their ids' first occurrence (an overwrite keeps the key's place) |
| AssignmentList.BuildMapCount | Frontend/src/Components/AssignmentList.jsx:40 | the map has no more keys than the list has items, and exactly as many when ids are distinct |
| AssignmentList.EntriesKeyedById | Frontend/src/Components/AssignmentList.jsx:40 | every entry of the map is stored under its own `_id` |
| AssignmentList.DedupIds | Frontend/src/Components/AssignmentList.jsx:39-41 | the ids of the de-duplicated list are the map's keys, in order |
| AssignmentList.DedupDistinct | Frontend/src/Components/AssignmentList.jsx:39-41 | after de-duplication no two assignments share an id |
| AssignmentList.DedupSameIds | Frontend/src/Components/AssignmentList.jsx:39-41 | every id of the fetched list appears in the result and no other |
| AssignmentList.DedupLength | Frontend/src/Components/AssignmentList.jsx:39-41 | the result is no longer than the input, and as long exactly when the input has no repeated id |
| AssignmentList.DedupKeepsLast | Frontend/src/Components/AssignmentList.jsx:39-41 | the assignment kept for an id is the last one in the input with that id |
| AssignmentList.DedupFirstOccurrenceOrder | Frontend/src/Components/AssignmentList.jsx:39-41 | the result lists the ids in the order of their first occurrence |
| AssignmentList.DedupOfDistinct | Frontend/src/Components/AssignmentList.jsx:39-41 | a list without repeated ids passes through unchanged |
| AssignmentList.DedupIdempotent | Frontend/src/Components/AssignmentList.jsx:39-41 | de-duplicating twice equals de-duplicating once |
| AssignmentList.AssignmentListView.constructor | Frontend/src/Components/AssignmentList.jsx:10-12 | starts with no assignments, loading, and no error |
| AssignmentList.AssignmentListView.FetchAssignments | Frontend/src/Components/AssignmentList.jsx:21-55 | success stores the de-duplicated list; a 401 navigates to `/login` and sets no error; any other failure, including no signed-in user, sets the server message or "Error fetching assignments"; `loading` ends false |
| ClassroomList.FilterBySearch | Frontend/src/Components/Classroom.jsx:89-91 | a classroom is kept exactly when its lower-cased name includes the lower-cased search text |
| ClassroomList.EmptySearchKeepsAll | Frontend/src/Components/Classroom.jsx:89-91 | an empty search keeps every classroom, in order |
| ClassroomList.LowerIdempotent | Frontend/src/Components/Classroom.jsx:90 | lower-casing twice equals lower-casing once |
| ClassroomList.SearchIgnoresCase | Frontend/src/Components/Classroom.jsx:89-91 | lower-casing the search text does not change the result |
| ClassroomList.TotalPages | Frontend/src/Components/Classroom.jsx:92 | `ceil(count / 9)`: the least page count whose pages hold every item; zero exactly when there is nothing to show |
| ClassroomList.JsSlice | Frontend/src/Components/Classroom.jsx:95-98 | `Array.prototype.slice` with negative positions counted from the end; never longer than the list |
| ClassroomList.PageItems | Frontend/src/Components/Classroom.jsx:93-98 | `currentClassrooms`: the slice from `(page-1)*9` to `page*9` of the filtered list; see PageWindow |
| ClassroomList.Pages | Frontend/src/Components/Classroom.jsx:93-98 | pages 1 to k of the filtered list, one after the other; see PagesArePrefix |
| ClassroomList.PageWindow | Frontend/src/Components/Classroom.jsx:93-98 | page p >= 1 shows exactly items (p-1)*9 up to p*9 of the filtered list, so at most nine |
| ClassroomList.PageZeroIsEmpty | Frontend/src/Components/Classroom.jsx:93-98 | page 0 shows nothing |
| ClassroomList.PagesArePrefix | Frontend/src/Components/Classroom.jsx:93-98 | pages 1 to k together are the first k*9 filtered items |
| ClassroomList.AllPagesCoverList | Frontend/src/Components/Classroom.jsx:92-98 | pages 1 to totalPages, concatenated, are exactly the filtered list |
| ClassroomList.PrevPage | Frontend/src/Components/Classroom.jsx:213 | Prev moves one page back and never below page 1 |
| ClassroomList.NextAsWritten | Frontend/src/Components/Classroom.jsx:224-229 | Next as written: one page on, never above totalPages (see Findings) |
| ClassroomList.NextAsWrittenLeavesFirstPage | Frontend/src/Components/Classroom.jsx:224-229 | with no matching classroom the button is enabled and moves page 1 to page 0 |
| ClassroomList.NextPage | Frontend/src/Components/Classroom.jsx:224-229 | corrected Next: one page on, never past the last page, never below 1, and equal to the code's result whenever there is a page |
| ClassroomList.NavigationStaysInRange | Frontend/src/Components/Classroom.jsx:213-229 | from a page in range, Prev and Next stay in 1..totalPages |
| ClassroomList.NarrowedSearchLeavesEmptyPage | Frontend/src/Components/Classroom.jsx:89-98 | typing a search does not reset the page: with one to nine matches page 3 is past the only page and empty, Next stays enabled, and a click moves back to page 1 |
| ClassroomList.RemoveById | Frontend/src/Components/Classroom.jsx:58-60 | the classroom with that id is gone and every other classroom remains (the delete handler filters the same way) |
| ClassroomList.RemoveKeepsOrder | Frontend/src/Components/Classroom.jsx:58-60 | removal keeps the others in their original order |
| ClassroomList.Controls | Frontend/src/Components/Classroom.jsx:141-204 | each card offers exactly one of Delete (viewer is the admin) and Leave; the admin badge and join link appear for the admin only |
| ClassroomList.ClassroomsView.constructor | Frontend/src/Components/Classroom.jsx:18-20 | no classrooms, empty search, page 1 |
| ClassroomList.ClassroomsView.CurrentItems | Frontend/src/Components/Classroom.jsx:93-98 | the current page never holds more than nine cards |
| ClassroomList.ClassroomsView.Load | Frontend/src/Components/Classroom.jsx:26-40 | no request without a user id; a failure leaves the list as it was |
| ClassroomList.ClassroomsView.SetSearch | Frontend/src/Components/Classroom.jsx:19 | typing changes the search text only; the page is not reset |
| ClassroomList.ClassroomsView.Prev | Frontend/src/Components/Classroom.jsx:213 | the page becomes PrevPage of the old page |
| ClassroomList.ClassroomsView.Next | Frontend/src/Components/Classroom.jsx:224-229 | the page becomes the corrected NextPage; the page stays at least 1 |
| ClassroomList.ClassroomsView.HandleLeave | Frontend/src/Components/Classroom.jsx:48-64 | sends `{classroomId, userId}`; on a reply alerts the server's message and removes that card; on an error changes nothing |
| ClassroomList.ClassroomsView.HandleDelete | Frontend/src/Components/Classroom.jsx:66-86 | sends `{classroomId, adminId}`; on a reply alerts and removes the card; on an error changes nothing |
| AttendanceMain.Num | Frontend/src/Components/Attendance/AttendanceMain.jsx:25 | the number a digit string denotes is below 10 to the power of its length |
| AttendanceMain.IsFutureDate | Frontend/src/Components/Attendance/AttendanceMain.jsx:25 | `selectedDate > today` as JavaScript string comparison; see FutureDateIsCalendarLater |
| AttendanceMain.DigitsCompare | Frontend/src/Components/Attendance/AttendanceMain.jsx:26 | for digit strings of one length, text order is numeric order and text equality numeric equality |
| AttendanceMain.StrLessAppend | Frontend/src/Components/Attendance/AttendanceMain.jsx:26 | text comparison of two concatenations with first parts of equal length compares those parts first |
| AttendanceMain.IsoTextOrderIsCalendarOrder | Frontend/src/Components/Attendance/AttendanceMain.jsx:25-26 | on `YYYY-MM-DD` strings, JavaScript's `<` is calendar order (year, month, day) |
| AttendanceMain.FutureDateIsCalendarLater | Frontend/src/Components/Attendance/AttendanceMain.jsx:25-26 | `isFutureDate` holds exactly when today comes before the selected date in the calendar |
| AttendanceMain.BuildStatusMap | Frontend/src/Components/Attendance/AttendanceMain.jsx:55-58 | every recorded student has an entry, every entry comes from one of that student's records, and a student recorded twice gets the later status |
| AttendanceMain.Label | Frontend/src/Components/Attendance/AttendanceMain.jsx:165-183 | the status each button sends is non-empty, and is "Present" exactly for the Present button |
| AttendanceMain.IsMarked | Frontend/src/Components/Attendance/AttendanceMain.jsx:72 | `attendance[studentId]` is truthy: the student has a non-empty status |
| AttendanceMain.CanMark | Frontend/src/Components/Attendance/AttendanceMain.jsx:72 | the guard of `markAttendance` lets the click through: the student is not marked and the date is not in the future; see MarkingIsWriteOnce |
| AttendanceMain.MarkingIsWriteOnce | Frontend/src/Components/Attendance/AttendanceMain.jsx:72-84 | after a successful mark the student counts as marked, so the guard turns every later mark away |
| AttendanceMain.Buttons | Frontend/src/Components/Attendance/AttendanceMain.jsx:162-196 | marking buttons exist exactly for the admin, are disabled exactly when the guard would refuse, and a highlighted status implies disabled |
| AttendanceMain.IsAdmin | Frontend/src/Components/Attendance/AttendanceMain.jsx:105 | the ids compare equal when both are present and equal, never when one is missing, and also when both are missing |
| AttendanceMain.MonthlyPath | Frontend/src/Components/Attendance/AttendanceMain.jsx:100-102 | the route `goToMonthlyAttendance(i)` opens, ending in the i-th month name; see MonthlyPathRoundTrip |
| AttendanceMain.IndexFrom | Frontend/src/Components/Attendance/AttendanceMain.jsx:28-41 | finds the first month at or after a position whose name is given, or reports that none has it |
| AttendanceMain.MonthIndex | Frontend/src/Components/Attendance/AttendanceMain.jsx:28-41 | the index of a month name, or none for a name that is not a month |
| AttendanceMain.MonthsDistinct | Frontend/src/Components/Attendance/AttendanceMain.jsx:28-41 | twelve month names, no two alike |
| AttendanceMain.MonthIndexOfName | Frontend/src/Components/Attendance/AttendanceMain.jsx:28-41 | each month name leads back to its own index |
| AttendanceMain.MonthNameHasNoSlash | Frontend/src/Components/Attendance/AttendanceMain.jsx:28-41 | no month name holds a `/` |
| AttendanceMain.RouteEndsInName | Frontend/src/Components/Attendance/AttendanceMain.jsx:100-102 | the last `/`-segment of a monthly route is the month name it was built from, for any name without `/` |
| AttendanceMain.MonthlyPathRoundTrip | Frontend/src/Components/Attendance/AttendanceMain.jsx:100-102 | the route for month i ends in the i-th month's name, and that segment leads back to i |
| AttendanceMain.AttendanceView.constructor | Frontend/src/Components/Attendance/AttendanceMain.jsx:15-19 | no students, an empty map, today selected |
| AttendanceMain.AttendanceView.LoadStudents | Frontend/src/Components/Attendance/AttendanceMain.jsx:43-47 | students are taken over only when the class details carry a list |
| AttendanceMain.AttendanceView.FetchAttendance | Frontend/src/Components/Attendance/AttendanceMain.jsx:49-69 | a reply replaces the map by the records' status map; an error leaves it unchanged |
| AttendanceMain.AttendanceView.HandleDateChange | Frontend/src/Components/Attendance/AttendanceMain.jsx:94-98 | selects the date and opens `/classroom/{classId}/attendance/{date}` |
| AttendanceMain.AttendanceView.MarkAttendance | Frontend/src/Components/Attendance/AttendanceMain.jsx:71-92 | already marked or a future date: no request, no change; otherwise posts `{studentId, date, status}` and only a 201 sets that student's entry, leaving every other entry as it was |
| AssignmentDetails.IsAdmin | Frontend/src/Components/AssignmentDetails.jsx:259 | the viewer is the admin exactly when signed in with uid equal to `createdBy` |
| AssignmentDetails.IsDeadlinePassed | Frontend/src/Components/AssignmentDetails.jsx:260 | `new Date() > new Date(dueDate)` on millisecond instants; see DeadlineIsStrict |
| AssignmentDetails.DeadlineIsStrict | Frontend/src/Components/AssignmentDetails.jsx:260 | at the due instant the deadline has not passed, one millisecond later it has, and it stays passed |
| AssignmentDetails.NullScoreShownToCreator | Frontend/src/Components/AssignmentDetails.jsx:374 | a `null` score is drawn for the creator (the test is `!== undefined`) and never for anyone else |
| AssignmentDetails.FormOrNotice | Frontend/src/Components/AssignmentDetails.jsx:401-444 | a non-admin sees exactly one of the submission form and the deadline notice; the admin sees neither |
| AssignmentDetails.RejectedFileHidesForm | Frontend/src/Components/AssignmentDetails.jsx:239-247 | once the file check (line 169) rejects a non-PDF, the page is only the error box |
| AssignmentDetails.AssignmentDetailsView.constructor | Frontend/src/Components/AssignmentDetails.jsx:20-31 | the initial state: nothing loaded, loading, no file, not editing or evaluating |
| AssignmentDetails.AssignmentDetailsView.View | Frontend/src/Components/AssignmentDetails.jsx:231-458 | spinner, error box, not-found or page, in that order. On the page: the assignment PDF link appears for every viewer exactly when `contentPdfUrl` is non-empty. The answer key, the Back/Edit buttons, and each card's student id, score (unless `undefined`) and feedback (when truthy) appear only for the creator. The evaluate button appears only for the creator with at least one submission, disabled while evaluating. There is one card per submission. Form or notice by role and deadline, and the form's submit is disabled while submitting or without a file |
| AssignmentDetails.AssignmentDetailsView.FailLoading | Frontend/src/Components/AssignmentDetails.jsx:88-96 | a 401 navigates to `/login` and sets no error; anything else sets the server's message or "Error loading assignment details" |
| AssignmentDetails.AssignmentDetailsView.FetchAssignmentDetails | Frontend/src/Components/AssignmentDetails.jsx:37-100 | stores the assignment and its editable copy. The creator gets all submissions. Anyone else gets a list of only their own, and a failure there (such as a 404) changes nothing and sets no error. Outer failures go through FailLoading. `loading` ends false |
| AssignmentDetails.AssignmentDetailsView.StartEditing | Frontend/src/Components/AssignmentDetails.jsx:278 | the Edit button turns editing mode on |
| AssignmentDetails.AssignmentDetailsView.HandleEditAssignment | Frontend/src/Components/AssignmentDetails.jsx:102-126 | after a successful save the displayed assignment is the edited copy and editing is off; a failure sets the server message or "Error updating assignment" |
| AssignmentDetails.AssignmentDetailsView.HandleEvaluateAll | Frontend/src/Components/AssignmentDetails.jsx:128-161 | clears the error and marks evaluating; success asks for a refresh; failure sets the message and re-enables the button |
| AssignmentDetails.AssignmentDetailsView.FinishEvaluation | Frontend/src/Components/AssignmentDetails.jsx:152-155 | the delayed refresh ends the evaluating state |
| AssignmentDetails.AssignmentDetailsView.HandleFileChange | Frontend/src/Components/AssignmentDetails.jsx:163-172 | a PDF is kept and clears the error; anything else clears the selection and sets "Please select a PDF file" |
| AssignmentDetails.AssignmentDetailsView.HandleSubmit | Frontend/src/Components/AssignmentDetails.jsx:174-230 | no file: error, nothing sent. Otherwise the selected PDF is uploaded and the submission carries the upload's URL. Success refreshes and clears the selection; a failure sets the message. `submitting` ends false |
| CreateAssignments.ApplyInput | Frontend/src/Components/CreateAssignments.jsx:34-40 | an input change replaces the named field of the form only |
| CreateAssignments.InputChangeIsLocal | Frontend/src/Components/CreateAssignments.jsx:34-40 | the named field takes the value, other fields and both files are unchanged, and the last change to a field wins |
| CreateAssignments.InputChangesCommute | Frontend/src/Components/CreateAssignments.jsx:34-40 | changes to two different fields commute |
| CreateAssignments.CreateErrorMessage | Frontend/src/Components/CreateAssignments.jsx:165-183 | the server's message (else the generic text) when it answered, "Server not responding..." when a request got no answer, otherwise the error's own message |
| CreateAssignments.UploadedUrl | Frontend/src/Components/CreateAssignments.jsx:92-133 | a URL stays `""` unless its file was chosen, and is the upload's URL otherwise |
| CreateAssignments.CreateAssignmentView.constructor | Frontend/src/Components/CreateAssignments.jsx:11-21 | an empty form, no error, not loading |
| CreateAssignments.CreateAssignmentView.HandleInputChange | Frontend/src/Components/CreateAssignments.jsx:34-40 | the form becomes ApplyInput of the old form |
| CreateAssignments.CreateAssignmentView.HandleContentPdfChange | Frontend/src/Components/CreateAssignments.jsx:42-53 | only a PDF replaces the content file and clears the error; otherwise the error is set and the form, with any earlier file, is unchanged |
| CreateAssignments.CreateAssignmentView.HandlePrimaryPdfChange | Frontend/src/Components/CreateAssignments.jsx:55-66 | the same rule for the answer key |
| CreateAssignments.CreateAssignmentView.HandleSubmit | Frontend/src/Components/CreateAssignments.jsx:68-187 | uploads happen only for chosen files, content first. The payload carries title, description and dueDate from the form, the two URLs, and `classroomId` = `classId`. Success opens `/classroom/{classId}/assignments`. The first failing step stops the rest and sets its CreateErrorMessage (no signed-in user gives "You must be logged in..."; a failed ID-token request sends nothing and shows the rejection's message). `loading` ends false |
| SubmitAssignment.FindOwn | Frontend/src/Components/SubmitAssignment.jsx:27-29 | the first submission whose `studentId` equals the stored id, or none when no entry matches or no id is stored |
| SubmitAssignment.UploadsAsWritten | Frontend/src/Components/SubmitAssignment.jsx:49-61 | the upload gate as written: any file in the input is uploaded (see Findings) |
| SubmitAssignment.AsWrittenUploadsNonPdf | Frontend/src/Components/SubmitAssignment.jsx:40-61 | as written, a Word document passes the upload gate (see Findings) |
| SubmitAssignment.Uploads | Frontend/src/Components/SubmitAssignment.jsx:40-61 | the corrected gate: a file is uploaded only when it is a PDF; see UploadsOnlyPdf |
| SubmitAssignment.UploadsOnlyPdf | Frontend/src/Components/SubmitAssignment.jsx:40-61 | the corrected gate uploads only PDFs and turns away exactly the non-PDF files the code lets through |
| SubmitAssignment.SubmitAssignmentView.constructor | Frontend/src/Components/SubmitAssignment.jsx:8-13 | nothing loaded, loading, no error, no success, no submission |
| SubmitAssignment.SubmitAssignmentView.View | Frontend/src/Components/SubmitAssignment.jsx:100-188 | spinner, not-found, then the form exactly when no submission exists and the submission box otherwise; score and feedback only when the score is not `null` |
| SubmitAssignment.SubmitAssignmentView.FetchAssignment | Frontend/src/Components/SubmitAssignment.jsx:19-38 | stores the assignment; a found own submission replaces the current one and otherwise it stays; failures set the message or "Error fetching assignment"; `loading` ends false |
| SubmitAssignment.SubmitAssignmentView.HandleFileChange | Frontend/src/Components/SubmitAssignment.jsx:40-47 | a PDF clears the error; anything else sets "Please upload a PDF file" |
| SubmitAssignment.SubmitAssignmentView.HandleSubmit | Frontend/src/Components/SubmitAssignment.jsx:49-98 | no file: error, `submitting` false, nothing sent. With the corrected gate only a PDF is uploaded. The request's `pdfUrl` is exactly the upload's URL. Success sets `success` and refreshes. `submitting` ends false |
| PeopleSection.ActionOf | Frontend/src/Components/PeopleSection.jsx:56 | the action is "promote" exactly when `isPromote`, otherwise "demote" |
| PeopleSection.IsViewerAdmin | Frontend/src/Components/PeopleSection.jsx:140 | for a classroom with an admin, the viewer is the admin exactly when signed in with the admin's id (the same test guards the student list) |
| PeopleSection.TotalStudents | Frontend/src/Components/PeopleSection.jsx:87 | the students list length, or 0 when the list is absent |
| PeopleSection.Rows | Frontend/src/Components/PeopleSection.jsx:121-205 | one card per member, in order, with controls exactly for the admin, aimed at that member |
| PeopleSection.Section | Frontend/src/Components/PeopleSection.jsx:115-163 | a list is drawn exactly when present and non-empty |
| PeopleSection.Render | Frontend/src/Components/PeopleSection.jsx:79-210 | loading without details. With an admin: the total, the admin card, the secondary admins with demote and the students with promote. Without an admin: no admin card, and the total alone when both lists are absent or empty, while any member card throws (`RenderError`), since it reads `classDetails.admin._id` |
| PeopleSection.ControlsByRole | Frontend/src/Components/PeopleSection.jsx:140-203 | only the admin gets controls; secondary admins are offered only demote and students only promote; every card offers remove of that member |
| PeopleSection.PeopleView.constructor | Frontend/src/Components/PeopleSection.jsx:9-10 | the state starts from the details passed down |
| PeopleSection.PeopleView.FetchClassroomDetails | Frontend/src/Components/PeopleSection.jsx:13-28 | with details present they are reloaded; a failure changes nothing |
| PeopleSection.PeopleView.RefetchOn200 | Frontend/src/Components/PeopleSection.jsx:42-48 | the details are reloaded only after an HTTP 200 reply; otherwise state is unchanged |
| PeopleSection.PeopleView.HandleRemoveUser | Frontend/src/Components/PeopleSection.jsx:30-52 | sends `{classroomId, userId (target), adminId (signed-in user)}`; state changes only through a reload after a 200 |
| PeopleSection.PeopleView.HandlePromoteDemoteUser | Frontend/src/Components/PeopleSection.jsx:54-77 | sends `{classroomId, userId, action, adminId}` with the action from `isPromote`; reload only after a 200 |
| CreateClass.CreateClassView.constructor | Frontend/src/Components/CreateClass.jsx:7-8 | empty name and description |
| CreateClass.CreateClassView.SetName | Frontend/src/Components/CreateClass.jsx:7 | the name input sets the name only |
| CreateClass.CreateClassView.SetDescription | Frontend/src/Components/CreateClass.jsx:8 | the description input sets the description only |
| CreateClass.CreateClassView.HandleCreateClassroom | Frontend/src/Components/CreateClass.jsx:12-39 | a blank name alerts "Classroom name is required!" and sends nothing. Otherwise it sends the name and description as typed, with `adminId` = the signed-in user. Success alerts and opens `/classroom`; failure alerts the server's `error` or "Something went wrong" |
| CreateClass.NameCheck | Frontend/src/Components/CreateClass.jsx:14 | a name with at least one visible character passes the check whatever whitespace surrounds it (so `" Algebra "` is accepted); with `JsCore.BlankIffAllSpace`, only all-whitespace names are refused |
| JoinClassroom.JoinClassroomView.constructor | Frontend/src/Components/JoinClassroom.jsx:9-12 | empty link, not loading, no message or error |
| JoinClassroom.JoinClassroomView.SetJoinLink | Frontend/src/Components/JoinClassroom.jsx:9 | the input sets the link only |
| JoinClassroom.JoinClassroomView.BeginJoin | Frontend/src/Components/JoinClassroom.jsx:15-31 | a blank link sets "Join link is required.", sends nothing and leaves `loading` unchanged; otherwise `loading` is set, message and error cleared, and `{userId, joinLink}` sent with the link as typed |
| JoinClassroom.JoinClassroomView.FinishJoin | Frontend/src/Components/JoinClassroom.jsx:38-47 | success shows the server's message, resets the link and schedules `/classroom`; failure shows the server's `error` or "Something went wrong." and keeps the link; `loading` ends false |
| MainSection.MessageForm | Frontend/src/Components/MainSection.jsx:43-47 | the posted form carries classroomId, senderId and content; a file part is added exactly when a file is chosen |
| MainSection.DisplayedFileName | Frontend/src/Components/MainSection.jsx:145-150 | a file name is shown exactly for messages with a file, and is the last `/`-separated segment of `fileUrl` |
| MainSection.FileNameOfStoredPath | Frontend/src/Components/MainSection.jsx:150 | for a file stored under any directory path the shown name is the stored name |
| MainSection.MainSectionView.constructor | Frontend/src/Components/MainSection.jsx:9-12 | no messages, empty text, no file, not loading |
| MainSection.MainSectionView.FetchMessages | Frontend/src/Components/MainSection.jsx:15-29 | without a class id nothing is requested; a failure changes nothing |
| MainSection.MainSectionView.SetMessageText | Frontend/src/Components/MainSection.jsx:100 | the text area sets the text only |
| MainSection.MainSectionView.HandleFileChange | Frontend/src/Components/MainSection.jsx:31-33 | the chosen file, or none |
| MainSection.MainSectionView.HandleSubmit | Frontend/src/Components/MainSection.jsx:35-64 | without a class id or user id: alert, nothing sent, nothing changed. On success the new message goes first with the others in their old order, and text and file are reset. On failure both are kept. `loading` ends false |
| AppSlice.Reduce | Frontend/src/redux/appSlice.js:9-14 | `setUser(p)` makes the user p and `logout` makes it null, whatever the prior state |
| AppSlice.ReduceAll | Frontend/src/redux/appSlice.js:9-14 | the state after dispatching a sequence of actions in order; see LastActionDecides |
| AppSlice.ReducersForgetPriorState | Frontend/src/redux/appSlice.js:5-14 | neither reducer depends on the prior state, logout yields the initial state and is idempotent, and `setUser` then `logout` equals `logout` |
| AppSlice.LastActionDecides | Frontend/src/redux/appSlice.js:9-14 | after any run of actions only the last one decides the state |
| AppSlice.Slice.constructor | Frontend/src/redux/appSlice.js:5-7 | the initial state has `user` = null |
| AppSlice.Slice.SetUser | Frontend/src/redux/appSlice.js:9-11 | the draft's user becomes the payload, as Reduce says |
| AppSlice.Slice.Logout | Frontend/src/redux/appSlice.js:12-14 | the draft's user becomes null, as Reduce says |

## Left out

- HTTP, Firebase authentication and ID tokens are left out. Each awaited call is a `Reply` parameter and "is a user signed in" is a boolean. On the create-assignment page a failed ID-token request is its own parameter (`tokenError`), because that page shows the error's own message. Everywhere else it is modelled as "no signed-in user": both throw before any request, and those pages show only the server's message or their fallback text, so the outcome is the same.
- `hasSubmitted` on the assignment page (Frontend/src/Components/AssignmentDetails.jsx:261) is computed but never read, so it is not modelled.
- The classroom service's own rules are not part of this model. These are grading, uniqueness of submissions, write-once attendance on the server, join-link lookup and monthly counting.
- Timers (`setTimeout`) are left out. The delayed navigation after joining is an out-parameter, as is the delayed refresh after a bulk evaluation (`FinishEvaluation`). The copied-link badge on classroom cards is not modelled.
- Browser services are left out: the clipboard, `localStorage`, and `document.querySelector`. The file in the submission page's input is a parameter, and so is the user id read from `localStorage`. That id is never written by the client files in this model. `decodeURIComponent` of file names is not modelled.
- The clock and date formatting are left out. "Now" (milliseconds) and "today" (`YYYY-MM-DD`) are parameters, and the UTC day boundary of `toISOString` is not modelled.
- Rendering is modelled only as far as it gates content: which artifacts and controls appear, and for whom. Markup, styling, animation and the wording of labels are left out.
- `toLowerCase` is modelled for ASCII letters only; other letters keep their case.
- The `onAuthStateChanged` redirect to `/login` on the create-assignment page is not modelled.
- Within one render, React's batching of `setState` calls is not modelled. Neither is the stale `classrooms` value a leave or delete handler closes over. Each handler reads the state as it is when the method is called.
- PeopleSection.Render: a render that throws is one outcome, `RenderError`. What React then shows (an error boundary or an unmounted tree) is not modelled.
- ClassroomList.ClassroomsView.HandleLeave: it takes the user id as given. With no signed-in user the handler throws before sending.
- AssignmentDetails.AssignmentDetailsView.HandleSubmit: it reports that the page should be refreshed (`refresh`) instead of calling FetchAssignmentDetails itself. The refresh only touches fields the rest of the handler leaves alone.
- SubmitAssignment.SubmitAssignmentView.HandleSubmit: it uses the corrected upload gate, so it does not model the code's upload of a non-PDF file. That behaviour is in `UploadsAsWritten` and `AsWrittenUploadsNonPdf` (see Findings).
- ClassroomList.ClassroomsView.Next: it uses the corrected `NextPage`, so it does not model the move to page 0. That behaviour is in `NextAsWritten` (see Findings).

## Findings

| source | as written | input that shows it | evidently intended | confidence | as-written member | corrected member |
|---|---|---|---|---|---|---|
| Frontend/src/Components/Classroom.jsx:224-229 | Next sets the page to `Math.min(page + 1, totalPages)` and is disabled only when `currentPage === totalPages` | a search that matches no classroom: totalPages is 0, the page is 1, the button is enabled, and a click sets the page to 0 | Next never leaves the range 1..totalPages, and stays on page 1 when there are no pages | high, not executed | ClassroomList.NextAsWrittenLeavesFirstPage | ClassroomList.NextPage |
| Frontend/src/Components/SubmitAssignment.jsx:40-61 | `handleFileChange` only sets an error for a non-PDF file. `handleSubmit` clears that error and uploads whatever file the input holds | choosing `essay.doc` (`application/msword`) and pressing Submit uploads and submits it | only a PDF is uploaded, as the file check and the "Upload Your PDF" form say | medium, not executed | SubmitAssignment.AsWrittenUploadsNonPdf | SubmitAssignment.UploadsOnlyPdf |
