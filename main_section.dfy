/** The stream of a classroom (components/MainSection.jsx): the posted
    messages, newest first, and the form that posts a text with an
    optional file. */
module MainSection {
  import opened JsCore

  /** A posted message; `fileUrl` is `""` when no file is attached. */
  datatype Message = Message(id: string, senderName: Option<string>, content: string,
                             fileUrl: string, fileType: string)

  /** One part of the multipart body of POST /api/messages/send. */
  datatype Part = TextPart(field: string, value: string) | FilePart(field: string, file: File)

  /** The body `handleSubmit` builds: class, sender and text, then the
      file only when one is chosen. */
  function MessageForm(classId: string, senderId: string, text: string, file: Option<File>): (r: seq<Part>)
    ensures |r| == (if file.Some? then 4 else 3)
    ensures r[..3] == [TextPart("classroomId", classId), TextPart("senderId", senderId), TextPart("content", text)]
    ensures file.Some? ==> r[3] == FilePart("file", file.value)
    ensures (exists i :: 0 <= i < |r| && r[i].FilePart?) <==> file.Some?
  {
    var texts := [TextPart("classroomId", classId), TextPart("senderId", senderId), TextPart("content", text)];
    if file.Some? then texts + [FilePart("file", file.value)] else texts
  }

  /** The file name shown under a message: the last `/`-separated segment
      of `fileUrl`, when there is a file. */
  function DisplayedFileName(m: Message): (r: Option<string>)
    ensures r.Some? <==> m.fileUrl != ""
    ensures r.Some? ==> r.value == LastSegment(m.fileUrl, '/')
  {
    if m.fileUrl != "" then Some(LastSegment(m.fileUrl, '/')) else None
  }

  /** For a file stored under any directory path, the name shown is the
      stored name. */
  lemma FileNameOfStoredPath(dir: string, stored: string)
    requires '/' !in stored
    ensures LastSegment(dir + "/" + stored, '/') == stored
  {
    assert dir + "/" + stored == dir + ['/'] + stored;
    LastSegmentAfterSep(dir, '/', stored);
    LastSegmentNoSep(stored, '/');
  }

  class MainSectionView {
    var messages: seq<Message>
    var messageText: string
    var file: Option<File>
    var loading: bool

    constructor ()
      ensures messages == [] && messageText == "" && file == None && !loading
    {
      messages := [];
      messageText := "";
      file := None;
      loading := false;
    }

    /** `fetchMessages`: without a class id nothing is requested; a failed
        request changes nothing. */
    method FetchMessages(classId: Option<string>, reply: Reply<seq<Message>>)
      modifies this
      ensures Truthy(classId) && reply.Ok? ==> messages == reply.data
      ensures !(Truthy(classId) && reply.Ok?) ==> messages == old(messages)
      ensures messageText == old(messageText) && file == old(file) && loading == old(loading)
    {
      if Truthy(classId) && reply.Ok? {
        messages := reply.data;
      }
    }

    method SetMessageText(value: string)
      modifies this
      ensures messageText == value
      ensures messages == old(messages) && file == old(file) && loading == old(loading)
    {
      messageText := value;
    }

    /** `handleFileChange`: the first chosen file, or none. */
    method HandleFileChange(chosen: Option<File>)
      modifies this
      ensures file == chosen
      ensures messages == old(messages) && messageText == old(messageText) && loading == old(loading)
    {
      file := chosen;
    }

    /** `handleSubmit`. Without a class id or a signed-in user it alerts
        and sends nothing. Otherwise it posts the form; on success the
        server's new message goes first, ahead of the others in their old
        order, and the text and file are reset; on failure they are kept.
        `loading` ends false. */
    method HandleSubmit(classId: Option<string>, userId: Option<string>, reply: Reply<Message>)
      returns (alertText: Option<string>, form: Option<seq<Part>>)
      modifies this
      ensures !(Truthy(classId) && Truthy(userId)) ==>
                alertText == Some("Missing required details!") && form == None &&
                messages == old(messages) && messageText == old(messageText) &&
                file == old(file) && loading == old(loading)
      ensures Truthy(classId) && Truthy(userId) ==>
                alertText == None && !loading &&
                form == Some(MessageForm(classId.value, userId.value, old(messageText), old(file)))
      ensures Truthy(classId) && Truthy(userId) && reply.Ok? ==>
                messages == [reply.data] + old(messages) && messageText == "" && file == None
      ensures Truthy(classId) && Truthy(userId) && reply.Fail? ==>
                messages == old(messages) && messageText == old(messageText) && file == old(file)
    {
      if !(Truthy(classId) && Truthy(userId)) {
        return Some("Missing required details!"), None;
      }
      alertText := None;
      loading := true;
      form := Some(MessageForm(classId.value, userId.value, messageText, file));
      if reply.Ok? {
        messages := [reply.data] + messages;
        messageText := "";
        file := None;
      }
      loading := false;
    }
  }
}
