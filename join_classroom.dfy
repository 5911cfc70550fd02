/** Joining a classroom by its link (components/JoinClassroom.jsx). */
module JoinClassroom {
  import opened JsCore

  /** Body of POST /api/classrooms/join; `userId` is omitted when no user
      is signed in. */
  datatype JoinRequest = JoinRequest(userId: Option<string>, joinLink: string)

  class JoinClassroomView {
    var joinLink: string
    var loading: bool
    var message: Option<string>
    var error: Option<string>

    constructor ()
      ensures joinLink == "" && !loading && message == None && error == None
    {
      joinLink := "";
      loading := false;
      message := None;
      error := None;
    }

    method SetJoinLink(value: string)
      modifies this
      ensures joinLink == value
      ensures loading == old(loading) && message == old(message) && error == old(error)
    {
      joinLink := value;
    }

    /** The synchronous part of `handleJoinClassroom`, up to the request.
        A link that is blank once trimmed sets the error and stops, with
        `loading` and the message untouched. Otherwise `loading` is set,
        the message and the error are cleared, and the link is sent as
        typed. */
    method BeginJoin(userId: Option<string>) returns (request: Option<JoinRequest>)
      modifies this
      ensures joinLink == old(joinLink)
      ensures request.None? <==> IsBlank(joinLink)
      ensures request.None? ==>
                error == Some("Join link is required.") &&
                loading == old(loading) && message == old(message)
      ensures request.Some? ==>
                request.value == JoinRequest(userId, joinLink) &&
                loading && message == None && error == None
    {
      if IsBlank(joinLink) {
        error := Some("Join link is required.");
        return None;
      }
      loading := true;
      message := None;
      error := None;
      request := Some(JoinRequest(userId, joinLink));
    }

    /** The rest of the handler once the request has settled
        (`replyMessage` is `response.data.message`). Success shows the
        server's message, clears the link and schedules the move to
        `/classroom`; failure shows the server's `error` text or the
        fallback and keeps the link. `loading` ends false. */
    method FinishJoin(reply: Reply<Option<string>>) returns (navigateLater: Option<string>)
      modifies this
      ensures !loading
      ensures reply.Ok? ==>
                message == reply.data && joinLink == "" && error == old(error) &&
                navigateLater == Some("/classroom")
      ensures reply.Fail? ==>
                error == Some(Or(ErrorFieldOf(reply.failure), "Something went wrong.")) &&
                joinLink == old(joinLink) && message == old(message) && navigateLater == None
    {
      if reply.Ok? {
        message := reply.data;
        joinLink := "";
        navigateLater := Some("/classroom");
      } else {
        error := Some(Or(ErrorFieldOf(reply.failure), "Something went wrong."));
        navigateLater := None;
      }
      loading := false;
    }
  }
}
