/** The student's submission page (components/SubmitAssignment.jsx): it
    looks up the student's own submission among the assignment's
    submissions and shows either that submission or a PDF upload form. */
module SubmitAssignment {
  import opened JsCore

  datatype Submission = Submission(
    studentId: string, submittedAt: int,
    score: Nullable<int>, feedback: Nullable<string>)

  /** GET /api/assignments/{id}; `submissions` is `None` when the reply
      carries no such list. */
  datatype Assignment = Assignment(
    title: string, description: string,
    submissions: Option<seq<Submission>>)

  /** Body of POST /api/assignments/{id}/submit. */
  datatype SubmitBody = SubmitBody(pdfUrl: string)

  /** `submissions.find(sub => sub.studentId === localStorage.getItem('userId'))`.
      A missing stored id (`null`) matches no submission. */
  function FindOwn(subs: seq<Submission>, storedId: Option<string>): (r: Option<Submission>)
    ensures r.Some? ==>
              storedId.Some? && r.value in subs && r.value.studentId == storedId.value &&
              exists i :: 0 <= i < |subs| && subs[i] == r.value &&
                          forall j :: 0 <= j < i ==> subs[j].studentId != storedId.value
    ensures r.None? ==> storedId.None? || forall i :: 0 <= i < |subs| ==> subs[i].studentId != storedId.value
  {
    if storedId.None? || subs == [] then None
    else if subs[0].studentId == storedId.value then Some(subs[0])
    else
      var rest := FindOwn(subs[1..], storedId);
      if rest.Some? then
        ghost var i :| 0 <= i < |subs[1..]| && subs[1..][i] == rest.value &&
                    forall j :: 0 <= j < i ==> subs[1..][j].studentId != storedId.value;
        assert subs[i + 1] == rest.value;
        assert forall j :: 0 <= j < i + 1 ==> subs[j].studentId != storedId.value by {
          forall j | 0 <= j < i + 1 ensures subs[j].studentId != storedId.value {
            if j > 0 { assert subs[j] == subs[1..][j - 1]; }
          }
        }
        rest
      else
        assert forall i :: 0 < i < |subs| ==> subs[i] == subs[1..][i - 1];
        rest
  }

  // ---------------------------------------------------------------------
  // Which chosen file gets uploaded

  /** The upload gate of `handleSubmit` as written: any file in the input
      is uploaded, because `handleFileChange` only sets an error message
      and `handleSubmit` clears that message before reading the input. */
  predicate UploadsAsWritten(file: Option<File>)
  {
    file.Some?
  }

  /** A Word document passes the gate as written. */
  lemma AsWrittenUploadsNonPdf()
    ensures UploadsAsWritten(Some(File("essay.doc", "application/msword")))
    ensures !IsPdf(File("essay.doc", "application/msword"))
  {
    assert |"application/msword"| != |PdfType|;
  }

  /** The gate the file check evidently means: only a PDF is uploaded. */
  predicate Uploads(file: Option<File>)
  {
    file.Some? && IsPdf(file.value)
  }

  /** The corrected gate uploads only PDFs, and what it turns away from
      the gate as written is exactly the files that are not PDFs. */
  lemma UploadsOnlyPdf(file: Option<File>)
    ensures Uploads(file) ==> file.Some? && IsPdf(file.value)
    ensures Uploads(file) ==> UploadsAsWritten(file)
    ensures UploadsAsWritten(file) && !Uploads(file) <==> file.Some? && !IsPdf(file.value)
  {
  }

  // ---------------------------------------------------------------------
  // What is on the screen

  datatype Screen =
    | Spinner
    | NotFound
    /** "Your Submission"; `graded` holds the score and feedback lines. */
    | SubmissionBox(submittedAt: int, graded: Option<(Nullable<int>, Nullable<string>)>)
    | UploadForm(errorLine: Option<string>, successLine: bool, submitDisabled: bool)

  class SubmitAssignmentView {
    var assignment: Option<Assignment>
    var loading: bool
    var submitting: bool
    var error: Option<string>
    var success: bool
    var submission: Option<Submission>

    constructor ()
      ensures assignment == None && loading && !submitting
      ensures error == None && !success && submission == None
    {
      assignment := None;
      loading := true;
      submitting := false;
      error := None;
      success := false;
      submission := None;
    }

    function View(): (r: Screen)
      reads this
      ensures loading ==> r == Spinner
      ensures r.NotFound? <==> !loading && assignment.None?
      ensures r.UploadForm? <==> !loading && assignment.Some? && submission.None?
      ensures r.SubmissionBox? <==> !loading && assignment.Some? && submission.Some?
      ensures r.SubmissionBox? ==>
                r.submittedAt == submission.value.submittedAt &&
                (r.graded.Some? <==> submission.value.score != Null) &&
                (r.graded.Some? ==> r.graded.value == (submission.value.score, submission.value.feedback))
      ensures r.UploadForm? ==>
                (r.errorLine.Some? <==> Truthy(error)) && (r.successLine <==> success) &&
                (r.submitDisabled <==> submitting)
    {
      if loading then Spinner
      else if assignment.None? then NotFound
      else if submission.Some? then
        SubmissionBox(submission.value.submittedAt,
                      if submission.value.score != Null
                      then Some((submission.value.score, submission.value.feedback)) else None)
      else UploadForm(if Truthy(error) then error else None, success, submitting)
    }

    /** `fetchAssignment`: the assignment is stored and the student's own
        submission, when one is found, replaces the current one; when none
        is found the current one stays. A failed request, or a reply
        without a submissions list, sets the server message or the
        fallback. `loading` ends false. */
    method FetchAssignment(storedId: Option<string>, reply: Reply<Assignment>)
      modifies this
      ensures !loading
      ensures reply.Fail? ==>
                assignment == old(assignment) && submission == old(submission) &&
                error == Some(Or(MessageOf(reply.failure), "Error fetching assignment"))
      ensures reply.Ok? ==> assignment == Some(reply.data)
      ensures reply.Ok? && reply.data.submissions.None? ==>
                submission == old(submission) && error == Some("Error fetching assignment")
      ensures reply.Ok? && reply.data.submissions.Some? ==> error == old(error)
      ensures reply.Ok? && reply.data.submissions.Some? ==>
                submission == (if FindOwn(reply.data.submissions.value, storedId).Some?
                               then FindOwn(reply.data.submissions.value, storedId)
                               else old(submission))
      ensures submitting == old(submitting) && success == old(success)
    {
      if reply.Fail? {
        error := Some(Or(MessageOf(reply.failure), "Error fetching assignment"));
      } else {
        assignment := Some(reply.data);
        if reply.data.submissions.None? {
          // `undefined.find` throws a TypeError, which has no response
          error := Some(Or(None, "Error fetching assignment"));
        } else {
          var own := FindOwn(reply.data.submissions.value, storedId);
          if own.Some? {
            submission := own;
          }
        }
      }
      loading := false;
    }

    /** `handleFileChange`: a PDF clears the error, anything else sets it. */
    method HandleFileChange(file: Option<File>)
      modifies this
      ensures error == (if file.Some? && IsPdf(file.value) then None else Some("Please upload a PDF file"))
      ensures assignment == old(assignment) && loading == old(loading) && submitting == old(submitting)
      ensures success == old(success) && submission == old(submission)
    {
      if file.Some? && IsPdf(file.value) {
        error := None;
      } else {
        error := Some("Please upload a PDF file");
      }
    }

    /** `handleSubmit` for the file currently in the input, with the
        corrected upload gate: no file, or a file that is not a PDF, sets
        an error and sends nothing; otherwise the file is uploaded and the
        submission carries exactly the URL the upload returned. On success
        `success` is set and the page is refreshed (`FetchAssignment`).
        `submitting` ends false in every case. */
    method HandleSubmit(file: Option<File>, uploadReply: Reply<string>, submitReply: Reply<()>)
      returns (uploaded: Option<File>, request: Option<SubmitBody>, refresh: bool)
      modifies this
      ensures !submitting
      ensures file.None? ==> error == Some("Please select a PDF file")
      ensures file.Some? && !IsPdf(file.value) ==> error == Some("Please upload a PDF file")
      ensures uploaded.Some? <==> Uploads(file)
      ensures uploaded.Some? ==> uploaded == file && IsPdf(uploaded.value)
      ensures request.Some? <==> Uploads(file) && uploadReply.Ok?
      ensures request.Some? ==> request.value.pdfUrl == uploadReply.data
      ensures refresh <==> request.Some? && submitReply.Ok?
      ensures refresh ==> success && error == None
      ensures !refresh ==> success == old(success)
      ensures Uploads(file) && uploadReply.Fail? ==>
                error == Some(Or(MessageOf(uploadReply.failure), "Error submitting assignment"))
      ensures request.Some? && submitReply.Fail? ==>
                error == Some(Or(MessageOf(submitReply.failure), "Error submitting assignment"))
      ensures assignment == old(assignment) && loading == old(loading) && submission == old(submission)
    {
      uploaded, request, refresh := None, None, false;
      submitting := true;
      error := None;
      if file.None? {
        error := Some("Please select a PDF file");
        submitting := false;
        return;
      }
      if !IsPdf(file.value) {
        error := Some("Please upload a PDF file");
        submitting := false;
        return;
      }
      uploaded := file;
      if uploadReply.Fail? {
        error := Some(Or(MessageOf(uploadReply.failure), "Error submitting assignment"));
      } else {
        request := Some(SubmitBody(uploadReply.data));
        if submitReply.Fail? {
          error := Some(Or(MessageOf(submitReply.failure), "Error submitting assignment"));
        } else {
          success := true;
          refresh := true;
        }
      }
      submitting := false;
    }
  }
}
