/** The classroom creation form (components/CreateClass.jsx). */
module CreateClass {
  import opened JsCore

  /** Body of POST /api/classrooms/create; `adminId` is omitted when no
      user is signed in. */
  datatype CreateRequest = CreateRequest(name: string, description: string, adminId: Option<string>)

  class CreateClassView {
    var name: string
    var description: string

    constructor ()
      ensures name == "" && description == ""
    {
      name := "";
      description := "";
    }

    method SetName(value: string)
      modifies this
      ensures name == value && description == old(description)
    {
      name := value;
    }

    method SetDescription(value: string)
      modifies this
      ensures description == value && name == old(name)
    {
      description := value;
    }

    /** `handleCreateClassroom`. A name that is blank once trimmed is
        refused with an alert and nothing is sent. Otherwise the name and
        description go out exactly as typed, with the signed-in user as
        admin; success alerts and opens `/classroom`, failure alerts the
        server's `error` text or the fallback. The form keeps its content. */
    method HandleCreateClassroom(userId: Option<string>, reply: Reply<()>)
      returns (request: Option<CreateRequest>, alertText: string, navigateTo: Option<string>)
      ensures request.None? <==> IsBlank(name)
      ensures request.None? ==> alertText == "Classroom name is required!" && navigateTo == None
      ensures request.Some? ==> request.value == CreateRequest(name, description, userId)
      ensures request.Some? && reply.Ok? ==>
                alertText == "Classroom Created Successfully!" && navigateTo == Some("/classroom")
      ensures request.Some? && reply.Fail? ==>
                alertText == Or(ErrorFieldOf(reply.failure), "Something went wrong") && navigateTo == None
    {
      if IsBlank(name) {
        return None, "Classroom name is required!", None;
      }
      request := Some(CreateRequest(name, description, userId));
      if reply.Ok? {
        alertText := "Classroom Created Successfully!";
        navigateTo := Some("/classroom");
      } else {
        alertText := Or(ErrorFieldOf(reply.failure), "Something went wrong");
        navigateTo := None;
      }
    }
  }

  /** A name with at least one visible character passes the check,
      whatever whitespace surrounds it, and is sent with that whitespace. */
  lemma NameCheck(before: string, name: string, after: string, k: nat)
    requires k < |name| && !IsJsSpace(name[k])
    ensures !IsBlank(before + name + after)
  {
    var s := before + name + after;
    assert s[|before| + k] == name[k];
    BlankIffAllSpace(s);
  }
}
