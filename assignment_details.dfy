/** The assignment page (components/AssignmentDetails.jsx): the creator of
    an assignment sees the answer key, every submission with its student,
    score and feedback, and the bulk-evaluation button; anyone else sees
    their own submission and, until the due date has passed, a PDF-only
    submission form. */
module AssignmentDetails {
  import opened JsCore

  /** The fields of GET /api/assignments/{id} the page uses; `dueDate` is
      the due instant in milliseconds. */
  datatype Assignment = Assignment(
    title: string, description: string, dueDate: int, createdBy: string,
    contentPdfUrl: string, primaryPdfUrl: string)

  datatype Submission = Submission(
    id: string, studentId: string, pdfUrl: string, submittedAt: int,
    score: Nullable<int>, feedback: Nullable<string>)

  /** Body of POST /api/submissions/create. */
  datatype SubmitRequest = SubmitRequest(assignmentId: string, pdfUrl: string)

  // ---------------------------------------------------------------------
  // Derived flags

  /** `auth.currentUser?.uid === assignment.createdBy`: only a signed-in
      viewer whose uid is the creator's is the admin. */
  function IsAdmin(viewerUid: Option<string>, createdBy: string): (r: bool)
    ensures r <==> viewerUid.Some? && viewerUid.value == createdBy
  {
    viewerUid == Some(createdBy)
  }

  /** `new Date() > new Date(assignment.dueDate)` on millisecond instants. */
  predicate IsDeadlinePassed(now: int, dueDate: int)
  {
    now > dueDate
  }

  /** The comparison is strict: at the due instant itself the deadline has
      not passed, one millisecond later it has, and once passed it stays
      passed. */
  lemma DeadlineIsStrict(dueDate: int, now: int, later: int)
    ensures !IsDeadlinePassed(dueDate, dueDate)
    ensures IsDeadlinePassed(dueDate + 1, dueDate)
    ensures IsDeadlinePassed(now, dueDate) && later >= now ==> IsDeadlinePassed(later, dueDate)
  {
  }

  /** `submission.feedback` is truthy. */
  predicate FeedbackShown(f: Nullable<string>)
  {
    f.Val? && f.v != ""
  }

  // ---------------------------------------------------------------------
  // What is on the screen

  /** One submission card: the student id, score and feedback lines are
      present only when the page shows them. A score line shows the score
      as JavaScript prints it, so a `null` score reads "null". */
  datatype Card = Card(
    key: string, studentId: Option<string>, submittedAt: int,
    score: Option<Nullable<int>>, feedback: Option<string>, pdfUrl: string)

  function CardOf(s: Submission, isAdmin: bool): Card
  {
    Card(s.id,
         if isAdmin then Some(s.studentId) else None,
         s.submittedAt,
         if isAdmin && s.score != Undefined then Some(s.score) else None,
         if isAdmin && FeedbackShown(s.feedback) then Some(s.feedback.v) else None,
         s.pdfUrl)
  }

  datatype EvaluateButton = EvaluateButton(disabled: bool, caption: string)

  /** The submission form; `inlineError` is the error line drawn inside it. */
  datatype SubmitForm = SubmitForm(inlineError: Option<string>, submitDisabled: bool, caption: string)

  datatype Details = Details(
    title: string,
    adminButtons: bool,
    contentLink: Option<string>,
    answerKey: Option<string>,
    evaluate: Option<EvaluateButton>,
    cards: seq<Card>,
    form: Option<SubmitForm>,
    deadlineNotice: bool)

  /** The page chooses the first that applies: a spinner while loading, an
      error box, "Assignment not found", or the details. */
  datatype Screen = Spinner | ErrorBox(message: string) | NotFound | Page(details: Details)

  // ---------------------------------------------------------------------
  // The component

  class AssignmentDetailsView {
    var assignment: Option<Assignment>
    var editedAssignment: Option<Assignment>
    var submissions: seq<Submission>
    var loading: bool
    var submitting: bool
    var error: Option<string>
    var selectedFile: Option<File>
    var isEditing: bool
    var evaluating: bool

    /** The selected file, when there is one, is a PDF. */
    ghost predicate Valid()
      reads this
    {
      selectedFile.Some? ==> IsPdf(selectedFile.value)
    }

    constructor ()
      ensures Valid()
      ensures assignment == None && editedAssignment == None && submissions == []
      ensures loading && !submitting && error == None && selectedFile == None
      ensures !isEditing && !evaluating
    {
      assignment := None;
      editedAssignment := None;
      submissions := [];
      loading := true;
      submitting := false;
      error := None;
      selectedFile := None;
      isEditing := false;
      evaluating := false;
    }

    /** The rendered page for the given viewer at the instant `now`. */
    function View(viewerUid: Option<string>, now: int): (r: Screen)
      reads this
      ensures loading ==> r == Spinner
      ensures !loading && Truthy(error) ==> r == ErrorBox(error.value)
      ensures r.NotFound? <==> !loading && !Truthy(error) && assignment.None?
      // the creator's artifacts and controls
      ensures r.Page? ==> assignment.Some?
      // the assignment PDF, for every viewer
      ensures r.Page? ==>
                && (r.details.contentLink.Some? <==> assignment.value.contentPdfUrl != "")
                && (r.details.contentLink.Some? ==> r.details.contentLink.value == assignment.value.contentPdfUrl)
      ensures r.Page? ==>
                && (r.details.answerKey.Some? <==> IsAdmin(viewerUid, assignment.value.createdBy))
                && (r.details.answerKey.Some? ==> r.details.answerKey.value == assignment.value.primaryPdfUrl)
                && (r.details.adminButtons <==> IsAdmin(viewerUid, assignment.value.createdBy))
      ensures r.Page? ==>
                (r.details.evaluate.Some? <==> IsAdmin(viewerUid, assignment.value.createdBy) && |submissions| > 0) &&
                (r.details.evaluate.Some? ==> (r.details.evaluate.value.disabled <==> evaluating))
      // one card per submission, with the private lines for the creator only
      ensures r.Page? ==> |r.details.cards| == |submissions|
      ensures r.Page? ==> forall i :: 0 <= i < |r.details.cards| ==>
                r.details.cards[i].pdfUrl == submissions[i].pdfUrl &&
                (r.details.cards[i].studentId.Some? <==> IsAdmin(viewerUid, assignment.value.createdBy)) &&
                (r.details.cards[i].score.Some? <==>
                   IsAdmin(viewerUid, assignment.value.createdBy) && submissions[i].score != Undefined) &&
                (r.details.cards[i].feedback.Some? <==>
                   IsAdmin(viewerUid, assignment.value.createdBy) && FeedbackShown(submissions[i].feedback))
      // the form and the deadline notice
      ensures r.Page? && IsAdmin(viewerUid, assignment.value.createdBy) ==>
                r.details.form.None? && !r.details.deadlineNotice
      ensures r.Page? && !IsAdmin(viewerUid, assignment.value.createdBy) ==>
                (r.details.form.Some? <==> !IsDeadlinePassed(now, assignment.value.dueDate)) &&
                (r.details.deadlineNotice <==> IsDeadlinePassed(now, assignment.value.dueDate))
      ensures r.Page? && r.details.form.Some? ==>
                r.details.form.value.inlineError == None &&
                (r.details.form.value.submitDisabled <==> submitting || selectedFile.None?)
    {
      if loading then Spinner
      else if Truthy(error) then ErrorBox(error.value)
      else if assignment.None? then NotFound
      else
        var a := assignment.value;
        var admin := IsAdmin(viewerUid, a.createdBy);
        var passed := IsDeadlinePassed(now, a.dueDate);
        Page(Details(
          a.title,
          admin,
          if a.contentPdfUrl != "" then Some(a.contentPdfUrl) else None,
          if admin then Some(a.primaryPdfUrl) else None,
          if admin && |submissions| > 0 then
            Some(EvaluateButton(evaluating, if evaluating then "Evaluating..." else "Evaluate All Submissions"))
          else None,
          seq(|submissions|, i requires 0 <= i < |submissions| reads this => CardOf(submissions[i], admin)),
          if !admin && !passed then
            Some(SubmitForm(if Truthy(error) then error else None,
                            submitting || selectedFile.None?,
                            if submitting then "Submitting..." else "Submit Assignment"))
          else None,
          passed && !admin))
    }

    /** The outer `catch` of `fetchAssignmentDetails`: a 401 opens the
        login page and sets no error; anything else shows the server's
        message or the fallback text. */
    method FailLoading(f: Failure) returns (navigateTo: Option<string>)
      modifies this
      ensures StatusOf(f) == Some(401) ==> navigateTo == Some("/login") && error == old(error)
      ensures StatusOf(f) != Some(401) ==>
                navigateTo == None && error == Some(Or(MessageOf(f), "Error loading assignment details"))
      ensures assignment == old(assignment) && editedAssignment == old(editedAssignment)
      ensures submissions == old(submissions) && loading == old(loading) && submitting == old(submitting)
      ensures selectedFile == old(selectedFile) && isEditing == old(isEditing) && evaluating == old(evaluating)
    {
      if StatusOf(f) == Some(401) {
        navigateTo := Some("/login");
      } else {
        navigateTo := None;
        error := Some(Or(MessageOf(f), "Error loading assignment details"));
      }
    }

    /** `fetchAssignmentDetails`. Without a signed-in user nothing is
        requested and the fallback error is set. The assignment is stored
        for display and for editing; its creator then loads every
        submission, while anyone else loads only their own, and a failure
        of that last request (a 404 when there is none) changes nothing. */
    method FetchAssignmentDetails(viewerUid: Option<string>, assignmentReply: Reply<Assignment>,
                                  allReply: Reply<seq<Submission>>, ownReply: Reply<Submission>)
      returns (navigateTo: Option<string>)
      modifies this
      ensures !loading
      ensures viewerUid.None? ==>
                navigateTo == None && error == Some("Error loading assignment details") &&
                assignment == old(assignment) && submissions == old(submissions)
      ensures viewerUid.Some? && assignmentReply.Fail? ==>
                assignment == old(assignment) && submissions == old(submissions) &&
                (StatusOf(assignmentReply.failure) == Some(401) ==> navigateTo == Some("/login") && error == old(error)) &&
                (StatusOf(assignmentReply.failure) != Some(401) ==>
                   error == Some(Or(MessageOf(assignmentReply.failure), "Error loading assignment details")))
      ensures viewerUid.Some? && assignmentReply.Ok? ==>
                assignment == Some(assignmentReply.data) && editedAssignment == Some(assignmentReply.data)
      // the creator's branch
      ensures viewerUid.Some? && assignmentReply.Ok? && IsAdmin(viewerUid, assignmentReply.data.createdBy) ==>
                (allReply.Ok? ==> submissions == allReply.data && navigateTo == None && error == old(error)) &&
                (allReply.Fail? ==>
                   && submissions == old(submissions)
                   && (StatusOf(allReply.failure) == Some(401) ==> navigateTo == Some("/login") && error == old(error))
                   && (StatusOf(allReply.failure) != Some(401) ==>
                         error == Some(Or(MessageOf(allReply.failure), "Error loading assignment details"))))
      // everyone else's branch: at most their own submission, never an error
      ensures viewerUid.Some? && assignmentReply.Ok? && !IsAdmin(viewerUid, assignmentReply.data.createdBy) ==>
                navigateTo == None && error == old(error) &&
                (ownReply.Ok? ==> submissions == [ownReply.data]) &&
                (ownReply.Fail? ==> submissions == old(submissions))
      ensures submitting == old(submitting) && selectedFile == old(selectedFile)
      ensures isEditing == old(isEditing) && evaluating == old(evaluating)
    {
      navigateTo := None;
      if viewerUid.None? {
        navigateTo := FailLoading(NoRequest("User not authenticated"));
      } else if assignmentReply.Fail? {
        navigateTo := FailLoading(assignmentReply.failure);
      } else {
        var a := assignmentReply.data;
        assignment := Some(a);
        editedAssignment := Some(a);
        if IsAdmin(viewerUid, a.createdBy) {
          if allReply.Ok? {
            submissions := allReply.data;
          } else {
            navigateTo := FailLoading(allReply.failure);
          }
        } else if ownReply.Ok? {
          submissions := [ownReply.data];
        }
      }
      loading := false;
    }

    /** The Edit button: editing mode on. */
    method StartEditing()
      modifies this
      ensures isEditing
      ensures assignment == old(assignment) && editedAssignment == old(editedAssignment)
      ensures submissions == old(submissions) && loading == old(loading) && submitting == old(submitting)
      ensures error == old(error) && selectedFile == old(selectedFile) && evaluating == old(evaluating)
    {
      isEditing := true;
    }

    /** `handleEditAssignment`: once the edited copy is saved it is the
        displayed assignment and editing mode is off; a failure sets the
        server's message or the fallback and changes nothing else. */
    method HandleEditAssignment(signedIn: bool, reply: Reply<()>) returns (sent: Option<Assignment>)
      modifies this
      ensures !signedIn ==> sent == None
      ensures signedIn ==> sent == old(editedAssignment)
      ensures signedIn && reply.Ok? ==>
                assignment == old(editedAssignment) && !isEditing && error == old(error)
      ensures !(signedIn && reply.Ok?) ==>
                assignment == old(assignment) && isEditing == old(isEditing) &&
                error == Some(Or(if signedIn && reply.Fail? then MessageOf(reply.failure) else None,
                                 "Error updating assignment"))
      ensures editedAssignment == old(editedAssignment) && submissions == old(submissions)
      ensures loading == old(loading) && submitting == old(submitting)
      ensures selectedFile == old(selectedFile) && evaluating == old(evaluating)
    {
      if !signedIn {
        sent := None;
        error := Some(Or(None, "Error updating assignment"));
        return;
      }
      sent := editedAssignment;
      if reply.Ok? {
        assignment := editedAssignment;
        isEditing := false;
      } else {
        error := Some(Or(MessageOf(reply.failure), "Error updating assignment"));
      }
    }

    /** `handleEvaluateAll`: the error is cleared and the button shows
        "Evaluating..."; on success the page is refreshed later (by
        `FetchAssignmentDetails` followed by `FinishEvaluation`), on
        failure the error is set and the button is enabled again. */
    method HandleEvaluateAll(signedIn: bool, reply: Reply<()>) returns (refresh: bool)
      modifies this
      ensures refresh <==> signedIn && reply.Ok?
      ensures refresh ==> evaluating && error == None
      ensures !refresh ==>
                !evaluating &&
                error == Some(Or(if signedIn && reply.Fail? then MessageOf(reply.failure) else None,
                                 "Error evaluating submissions"))
      ensures assignment == old(assignment) && editedAssignment == old(editedAssignment)
      ensures submissions == old(submissions) && loading == old(loading) && submitting == old(submitting)
      ensures selectedFile == old(selectedFile) && isEditing == old(isEditing)
    {
      evaluating := true;
      error := None;
      if signedIn && reply.Ok? {
        refresh := true;
      } else {
        refresh := false;
        error := Some(Or(if signedIn && reply.Fail? then MessageOf(reply.failure) else None,
                         "Error evaluating submissions"));
        evaluating := false;
      }
    }

    /** The end of the delayed refresh after a bulk evaluation. */
    method FinishEvaluation()
      modifies this
      ensures !evaluating
      ensures assignment == old(assignment) && editedAssignment == old(editedAssignment)
      ensures submissions == old(submissions) && loading == old(loading) && submitting == old(submitting)
      ensures error == old(error) && selectedFile == old(selectedFile) && isEditing == old(isEditing)
    {
      evaluating := false;
    }

    /** `handleFileChange`: a PDF is kept and clears the error; anything
        else, or no file, clears the selection and sets the error. */
    method HandleFileChange(file: Option<File>)
      modifies this
      ensures Valid()
      ensures file.Some? && IsPdf(file.value) ==> selectedFile == file && error == None
      ensures !(file.Some? && IsPdf(file.value)) ==>
                selectedFile == None && error == Some("Please select a PDF file")
      ensures assignment == old(assignment) && editedAssignment == old(editedAssignment)
      ensures submissions == old(submissions) && loading == old(loading) && submitting == old(submitting)
      ensures isEditing == old(isEditing) && evaluating == old(evaluating)
    {
      if file.Some? && IsPdf(file.value) {
        selectedFile := file;
        error := None;
      } else {
        error := Some("Please select a PDF file");
        selectedFile := None;
      }
    }

    /** `handleSubmit`. With no selected file the error is set and nothing
        is sent. Otherwise the selected file (a PDF, by `Valid`) is
        uploaded, the submission is created with the uploaded file's URL,
        and on success the page is refreshed and the selection cleared;
        `submitting` ends false either way. */
    method HandleSubmit(assignmentId: string, signedIn: bool, uploadReply: Reply<string>, createReply: Reply<()>)
      returns (uploaded: Option<File>, request: Option<SubmitRequest>, refresh: bool)
      requires Valid()
      modifies this
      ensures Valid()
      ensures old(selectedFile).None? ==>
                uploaded == None && request == None && !refresh &&
                error == Some("Please select a PDF file to submit") &&
                submitting == old(submitting) && selectedFile == old(selectedFile)
      ensures old(selectedFile).Some? ==> !submitting
      ensures uploaded.Some? ==> uploaded == old(selectedFile) && IsPdf(uploaded.value)
      ensures uploaded.Some? <==> old(selectedFile).Some? && signedIn
      ensures request.Some? <==> uploaded.Some? && uploadReply.Ok?
      ensures request.Some? ==> request.value == SubmitRequest(assignmentId, uploadReply.data)
      ensures refresh <==> request.Some? && createReply.Ok?
      ensures refresh ==> selectedFile == None && error == None
      ensures old(selectedFile).Some? && !refresh ==>
                selectedFile == old(selectedFile) &&
                error == Some(Or(if !signedIn then None
                                 else if uploadReply.Fail? then MessageOf(uploadReply.failure)
                                 else if createReply.Fail? then MessageOf(createReply.failure)
                                 else None,
                                 "Error submitting assignment"))
      ensures assignment == old(assignment) && editedAssignment == old(editedAssignment)
      ensures submissions == old(submissions) && loading == old(loading)
      ensures isEditing == old(isEditing) && evaluating == old(evaluating)
    {
      uploaded, request, refresh := None, None, false;
      if selectedFile.None? {
        error := Some("Please select a PDF file to submit");
        return;
      }
      submitting := true;
      error := None;
      if !signedIn {
        error := Some(Or(None, "Error submitting assignment"));
      } else {
        uploaded := selectedFile;
        if uploadReply.Fail? {
          error := Some(Or(MessageOf(uploadReply.failure), "Error submitting assignment"));
        } else {
          request := Some(SubmitRequest(assignmentId, uploadReply.data));
          if createReply.Fail? {
            error := Some(Or(MessageOf(createReply.failure), "Error submitting assignment"));
          } else {
            refresh := true;
            selectedFile := None;
          }
        }
      }
      submitting := false;
    }
  }

  /** A student sees exactly one of the submission form and the deadline
      notice; the creator sees neither. */
  lemma FormOrNotice(v: AssignmentDetailsView, viewerUid: Option<string>, now: int)
    requires v.View(viewerUid, now).Page?
    ensures var d := v.View(viewerUid, now).details;
            if IsAdmin(viewerUid, v.assignment.value.createdBy) then d.form.None? && !d.deadlineNotice
            else d.form.Some? != d.deadlineNotice
  {
  }

  /** Any error, including the one a rejected file sets, replaces the whole
      page by the error box, so the error line inside the form is never
      drawn and the form is gone until the page is reloaded. */
  lemma RejectedFileHidesForm(v: AssignmentDetailsView, viewerUid: Option<string>, now: int)
    requires !v.loading && v.error == Some("Please select a PDF file")
    ensures v.View(viewerUid, now) == ErrorBox("Please select a PDF file")
  {
  }

  /** To the creator a `null` score is still drawn (as "null"), since the
      page only tests for `undefined`. */
  lemma NullScoreShownToCreator(s: Submission)
    requires s.score == Null
    ensures CardOf(s, true).score == Some(Null)
    ensures CardOf(s, false).score == None
  {
  }
}
