/** The assignment creation form (components/CreateAssignments.jsx): three
    text fields, one optional assignment PDF and one answer-key PDF,
    uploaded one after the other before the assignment itself is created. */
module CreateAssignments {
  import opened JsCore

  datatype Form = Form(
    title: string, description: string,
    contentPdf: Option<File>, primaryPdf: Option<File>,
    dueDate: string)

  /** The initial form: every text empty and no file chosen. */
  const EmptyForm: Form := Form("", "", None, None, "")

  /** The text inputs, by their `name` attribute. */
  datatype Field = Title | Description | DueDate

  /** `handleInputChange`: `{...prev, [name]: value}`. */
  function ApplyInput(f: Form, field: Field, value: string): (r: Form)
    ensures field == Title ==> r == f.(title := value)
    ensures field == Description ==> r == f.(description := value)
    ensures field == DueDate ==> r == f.(dueDate := value)
  {
    match field
    case Title => f.(title := value)
    case Description => f.(description := value)
    case DueDate => f.(dueDate := value)
  }

  /** The text a field holds. */
  function FieldValue(f: Form, field: Field): string
  {
    match field
    case Title => f.title
    case Description => f.description
    case DueDate => f.dueDate
  }

  /** An input change sets the named field, leaves every other field and
      both files as they were, and the last change to a field wins. */
  lemma InputChangeIsLocal(f: Form, field: Field, other: Field, value: string, later: string)
    ensures FieldValue(ApplyInput(f, field, value), field) == value
    ensures other != field ==> FieldValue(ApplyInput(f, field, value), other) == FieldValue(f, other)
    ensures ApplyInput(f, field, value).contentPdf == f.contentPdf
    ensures ApplyInput(f, field, value).primaryPdf == f.primaryPdf
    ensures ApplyInput(ApplyInput(f, field, value), field, later) == ApplyInput(f, field, later)
  {
  }

  /** Changes to two different fields commute. */
  lemma InputChangesCommute(f: Form, a: Field, b: Field, x: string, y: string)
    requires a != b
    ensures ApplyInput(ApplyInput(f, a, x), b, y) == ApplyInput(ApplyInput(f, b, y), a, x)
  {
  }

  /** Body of POST /api/assignments/create. */
  datatype AssignmentData = AssignmentData(
    title: string, description: string,
    contentPdfUrl: string, primaryPdfUrl: string,
    classroomId: string, dueDate: string)

  /** The message the `catch` block shows: the server's message when it
      answered (else the generic text), a fixed text when the request got
      no answer, and the thrown error's own message when no request was
      made. */
  function CreateErrorMessage(f: Failure): (r: string)
    ensures f.Response? && Truthy(f.message) ==> r == f.message.value
    ensures f.Response? && !Truthy(f.message) ==> r == "Error creating assignment. Please try again."
    ensures f.NoResponse? ==> r == "Server not responding. Please try again later."
    ensures f.NoRequest? ==> r == f.reason
  {
    match f
    case Response(_, message, _) => Or(message, "Error creating assignment. Please try again.")
    case NoResponse => "Server not responding. Please try again later."
    case NoRequest(reason) => reason
  }

  /** The URL a file ends up with: `""` when no file was chosen, the
      upload's URL otherwise. */
  function UploadedUrl(file: Option<File>, reply: Reply<string>): (r: string)
    requires file.Some? ==> reply.Ok?
    ensures file.None? ==> r == ""
    ensures file.Some? ==> r == reply.data
  {
    if file.Some? then reply.data else ""
  }

  /** The chosen file's upload, if there is one, succeeded. */
  predicate UploadOk(file: Option<File>, reply: Reply<string>)
  {
    file.None? || reply.Ok?
  }

  class CreateAssignmentView {
    var loading: bool
    var error: Option<string>
    var form: Form

    /** Every chosen file is a PDF. */
    ghost predicate Valid()
      reads this
    {
      && (form.contentPdf.Some? ==> IsPdf(form.contentPdf.value))
      && (form.primaryPdf.Some? ==> IsPdf(form.primaryPdf.value))
    }

    constructor ()
      ensures Valid()
      ensures !loading && error == None && form == EmptyForm
    {
      loading := false;
      error := None;
      form := EmptyForm;
    }

    method HandleInputChange(field: Field, value: string)
      modifies this
      ensures form == ApplyInput(old(form), field, value)
      ensures loading == old(loading) && error == old(error)
    {
      form := ApplyInput(form, field, value);
    }

    /** `handleContentPdfChange`: only a PDF replaces the content file and
        clears the error; otherwise the error is set and the form, with
        any file chosen before, stays as it was. */
    method HandleContentPdfChange(file: Option<File>)
      requires Valid()
      modifies this
      ensures Valid()
      ensures file.Some? && IsPdf(file.value) ==>
                form == old(form).(contentPdf := file) && error == None
      ensures !(file.Some? && IsPdf(file.value)) ==>
                form == old(form) && error == Some("Please upload a PDF file")
      ensures loading == old(loading)
    {
      if file.Some? && IsPdf(file.value) {
        form := form.(contentPdf := file);
        error := None;
      } else {
        error := Some("Please upload a PDF file");
      }
    }

    /** `handlePrimaryPdfChange`, the same rule for the answer key. */
    method HandlePrimaryPdfChange(file: Option<File>)
      requires Valid()
      modifies this
      ensures Valid()
      ensures file.Some? && IsPdf(file.value) ==>
                form == old(form).(primaryPdf := file) && error == None
      ensures !(file.Some? && IsPdf(file.value)) ==>
                form == old(form) && error == Some("Please upload a PDF file")
      ensures loading == old(loading)
    {
      if file.Some? && IsPdf(file.value) {
        form := form.(primaryPdf := file);
        error := None;
      } else {
        error := Some("Please upload a PDF file");
      }
    }

    /** `handleSubmit`. Without a signed-in user, or when the fresh ID
        token cannot be obtained (`tokenError`, the rejection's message),
        nothing is sent. Otherwise each chosen file is uploaded in turn
        (content first), a file not chosen keeps the URL `""`, and the assignment
        is created from the form, the two URLs and the route's class id;
        success opens the class's assignment list. The first step that
        fails stops the rest and sets its message. `loading` ends false. */
    method HandleSubmit(classId: string, signedIn: bool, tokenError: Option<string>,
                        contentReply: Reply<string>, primaryReply: Reply<string>, createReply: Reply<()>)
      returns (contentUploaded: Option<File>, primaryUploaded: Option<File>,
               payload: Option<AssignmentData>, navigateTo: Option<string>)
      modifies this
      ensures !loading && form == old(form)
      // which uploads happen
      ensures contentUploaded.Some? <==> signedIn && tokenError.None? && form.contentPdf.Some?
      ensures contentUploaded.Some? ==> contentUploaded == form.contentPdf
      ensures primaryUploaded.Some? <==>
                signedIn && tokenError.None? && UploadOk(form.contentPdf, contentReply) && form.primaryPdf.Some?
      ensures primaryUploaded.Some? ==> primaryUploaded == form.primaryPdf
      // the create request
      ensures payload.Some? <==>
                signedIn && tokenError.None? &&
                UploadOk(form.contentPdf, contentReply) && UploadOk(form.primaryPdf, primaryReply)
      ensures payload.Some? ==>
                && UploadOk(form.contentPdf, contentReply) && UploadOk(form.primaryPdf, primaryReply)
                && payload.value == AssignmentData(
                     form.title, form.description,
                     UploadedUrl(form.contentPdf, contentReply), UploadedUrl(form.primaryPdf, primaryReply),
                     classId, form.dueDate)
      // the outcome
      ensures navigateTo.Some? <==> payload.Some? && createReply.Ok?
      ensures navigateTo.Some? ==> navigateTo.value == "/classroom/" + classId + "/assignments" && error == None
      ensures !signedIn ==> error == Some("You must be logged in to create an assignment")
      ensures signedIn && tokenError.Some? ==> error == Some(CreateErrorMessage(NoRequest(tokenError.value)))
      ensures signedIn && tokenError.None? && form.contentPdf.Some? && contentReply.Fail? ==>
                error == Some(CreateErrorMessage(contentReply.failure))
      ensures signedIn && tokenError.None? && UploadOk(form.contentPdf, contentReply) && form.primaryPdf.Some? && primaryReply.Fail? ==>
                error == Some(CreateErrorMessage(primaryReply.failure))
      ensures payload.Some? && createReply.Fail? ==> error == Some(CreateErrorMessage(createReply.failure))
    {
      contentUploaded, primaryUploaded, payload, navigateTo := None, None, None, None;
      loading := true;
      error := None;
      var failure: Option<Failure> := None;
      if !signedIn {
        failure := Some(NoRequest("You must be logged in to create an assignment"));
      } else if tokenError.Some? {
        failure := Some(NoRequest(tokenError.value));
      } else {
        var contentUrl := "";
        var primaryPdfUrl := "";
        if form.contentPdf.Some? {
          contentUploaded := form.contentPdf;
          if contentReply.Fail? {
            failure := Some(contentReply.failure);
          } else {
            contentUrl := contentReply.data;
          }
        }
        if failure.None? && form.primaryPdf.Some? {
          primaryUploaded := form.primaryPdf;
          if primaryReply.Fail? {
            failure := Some(primaryReply.failure);
          } else {
            primaryPdfUrl := primaryReply.data;
          }
        }
        if failure.None? {
          payload := Some(AssignmentData(form.title, form.description, contentUrl, primaryPdfUrl,
                                         classId, form.dueDate));
          if createReply.Fail? {
            failure := Some(createReply.failure);
          } else {
            navigateTo := Some("/classroom/" + classId + "/assignments");
          }
        }
      }
      if failure.Some? {
        error := Some(CreateErrorMessage(failure.value));
      }
      loading := false;
    }
  }
}
