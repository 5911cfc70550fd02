/** The people tab of a classroom (components/PeopleSection.jsx): the
    admin, the secondary admins and the students, with remove, promote and
    demote controls for the classroom's admin only. */
module PeopleSection {
  import opened JsCore

  datatype Person = Person(id: string, name: string, email: string, photo: string)

  /** GET /api/classrooms/{id}; the admin and the two member lists may be
      absent. */
  datatype ClassDetails = ClassDetails(
    id: string, admin: Option<Person>,
    secondaryAdmins: Option<seq<Person>>, students: Option<seq<Person>>)

  /** Body of POST /api/classrooms/remove-user. */
  datatype RemoveRequest = RemoveRequest(classroomId: string, userId: string, adminId: string)

  /** Body of PUT /api/classrooms/update-admin. */
  datatype UpdateAdminRequest = UpdateAdminRequest(classroomId: string, userId: string, action: string, adminId: string)

  /** `isPromote ? "promote" : "demote"` */
  function ActionOf(isPromote: bool): (r: string)
    ensures r == "promote" || r == "demote"
    ensures r == "promote" <==> isPromote
  {
    if isPromote then "promote" else "demote"
  }

  /** `user?._id === classDetails.admin._id` for a classroom with an
      admin; no signed-in user is never the admin. */
  function IsViewerAdmin(viewerId: Option<string>, cd: ClassDetails): (r: bool)
    requires cd.admin.Some?
    ensures r <==> viewerId.Some? && viewerId.value == cd.admin.value.id
  {
    viewerId == Some(cd.admin.value.id)
  }

  /** `classDetails.students?.length || 0` */
  function TotalStudents(students: Option<seq<Person>>): (r: nat)
    ensures students.None? ==> r == 0
    ensures students.Some? ==> r == |students.value|
  {
    if students.Some? then |students.value| else 0
  }

  // ---------------------------------------------------------------------
  // What is on the screen

  /** The buttons of one member card: remove, and promote or demote, both
      aimed at that member. */
  datatype RowControls = RowControls(removeTarget: string, toggleTarget: string, isPromote: bool)

  datatype Row = Row(person: Person, controls: Option<RowControls>)

  /** The cards of one member list; `isPromote` is what its toggle does. */
  function Rows(members: seq<Person>, viewerIsAdmin: bool, isPromote: bool): (r: seq<Row>)
    ensures |r| == |members|
    ensures forall i :: 0 <= i < |r| ==> r[i].person == members[i]
    ensures forall i :: 0 <= i < |r| ==> (r[i].controls.Some? <==> viewerIsAdmin)
    ensures forall i :: 0 <= i < |r| && r[i].controls.Some? ==>
              r[i].controls.value == RowControls(members[i].id, members[i].id, isPromote)
  {
    seq(|members|, i requires 0 <= i < |members| =>
      Row(members[i], if viewerIsAdmin then Some(RowControls(members[i].id, members[i].id, isPromote)) else None))
  }

  /** `list?.length > 0`: the member list is present and not empty. */
  predicate Drawn(members: Option<seq<Person>>)
  {
    members.Some? && |members.value| > 0
  }

  /** A member list is drawn when it is present and not empty. */
  function Section(members: Option<seq<Person>>, viewerIsAdmin: bool, isPromote: bool): (r: Option<seq<Row>>)
    ensures r.Some? <==> members.Some? && |members.value| > 0
    ensures r.Some? ==> r.value == Rows(members.value, viewerIsAdmin, isPromote)
  {
    if members.Some? && |members.value| > 0 then Some(Rows(members.value, viewerIsAdmin, isPromote)) else None
  }

  datatype Screen =
    | Loading
    | People(totalStudents: nat, admin: Option<Person>,
             secondaryAdmins: Option<seq<Row>>, students: Option<seq<Row>>)
      /** A member card reads `classDetails.admin._id` of a classroom
          without an admin: the render throws a TypeError. */
    | RenderError

  /** The people tab. The admin card is drawn only when there is an admin;
      a member card of a classroom without one throws. */
  function Render(classDetails: Option<ClassDetails>, viewerId: Option<string>): (r: Screen)
    ensures r.Loading? <==> classDetails.None?
    ensures r.RenderError? <==>
              && classDetails.Some? && classDetails.value.admin.None?
              && (Drawn(classDetails.value.secondaryAdmins) || Drawn(classDetails.value.students))
    ensures r.People? ==>
              r.totalStudents == TotalStudents(classDetails.value.students) &&
              r.admin == classDetails.value.admin
    ensures r.People? && classDetails.value.admin.None? ==>
              r.secondaryAdmins.None? && r.students.None?
    ensures r.People? && classDetails.value.admin.Some? ==>
              r.secondaryAdmins == Section(classDetails.value.secondaryAdmins, IsViewerAdmin(viewerId, classDetails.value), false) &&
              r.students == Section(classDetails.value.students, IsViewerAdmin(viewerId, classDetails.value), true)
  {
    if classDetails.None? then Loading
    else
      var cd := classDetails.value;
      if cd.admin.None? then
        if Drawn(cd.secondaryAdmins) || Drawn(cd.students) then RenderError
        else People(TotalStudents(cd.students), None, None, None)
      else
        var admin := IsViewerAdmin(viewerId, cd);
        People(TotalStudents(cd.students), cd.admin,
               Section(cd.secondaryAdmins, admin, false), Section(cd.students, admin, true))
  }

  /** Only the classroom's admin gets controls; secondary admins can only
      be demoted and students only promoted, and every card offers remove. */
  lemma ControlsByRole(classDetails: ClassDetails, viewerId: Option<string>)
    ensures var r := Render(Some(classDetails), viewerId);
            r.People? ==>
            && (r.secondaryAdmins.Some? ==>
                  forall i :: 0 <= i < |r.secondaryAdmins.value| ==>
                    var c := r.secondaryAdmins.value[i].controls;
                    (c.Some? <==> classDetails.admin.Some? && viewerId == Some(classDetails.admin.value.id)) &&
                    (c.Some? ==> ActionOf(c.value.isPromote) == "demote" &&
                                 c.value.removeTarget == r.secondaryAdmins.value[i].person.id))
            && (r.students.Some? ==>
                  forall i :: 0 <= i < |r.students.value| ==>
                    var c := r.students.value[i].controls;
                    (c.Some? <==> classDetails.admin.Some? && viewerId == Some(classDetails.admin.value.id)) &&
                    (c.Some? ==> ActionOf(c.value.isPromote) == "promote" &&
                                 c.value.removeTarget == r.students.value[i].person.id))
  {
  }

  // ---------------------------------------------------------------------
  // The component

  class PeopleView {
    var classDetails: Option<ClassDetails>

    /** The state starts from the details the classroom layout passes down. */
    constructor (initial: Option<ClassDetails>)
      ensures classDetails == initial
    {
      classDetails := initial;
    }

    /** The effect on `classDetails?._id`: with details present they are
        reloaded, and a failed reload changes nothing. */
    method FetchClassroomDetails(reply: Reply<ClassDetails>)
      modifies this
      ensures old(classDetails).Some? && reply.Ok? ==> classDetails == Some(reply.data)
      ensures !(old(classDetails).Some? && reply.Ok?) ==> classDetails == old(classDetails)
    {
      if classDetails.None? {
        return;
      }
      if reply.Ok? {
        classDetails := Some(reply.data);
      }
    }

    /** A mutation answered with 200 is followed by a reload of the
        details; any other answer, or a failed reload, changes nothing. */
    method RefetchOn200(status: Option<int>, refetch: Reply<ClassDetails>)
      modifies this
      ensures status == Some(200) && refetch.Ok? ==> classDetails == Some(refetch.data)
      ensures !(status == Some(200) && refetch.Ok?) ==> classDetails == old(classDetails)
    {
      if status == Some(200) && refetch.Ok? {
        classDetails := Some(refetch.data);
      }
    }

    /** `handleRemoveUser`: the request names the classroom, the member to
        remove and the signed-in user as the acting admin. Without details
        or a signed-in user the handler throws before sending. */
    method HandleRemoveUser(viewerId: Option<string>, userId: string,
                            reply: Reply<()>, refetch: Reply<ClassDetails>)
      returns (request: Option<RemoveRequest>)
      modifies this
      ensures request.Some? <==> old(classDetails).Some? && viewerId.Some?
      ensures request.Some? ==>
                request.value == RemoveRequest(old(classDetails).value.id, userId, viewerId.value)
      ensures request.Some? && reply.Ok? && reply.status == 200 && refetch.Ok? ==>
                classDetails == Some(refetch.data)
      ensures !(request.Some? && reply.Ok? && reply.status == 200 && refetch.Ok?) ==>
                classDetails == old(classDetails)
    {
      request := None;
      if classDetails.None? || viewerId.None? {
        return;
      }
      request := Some(RemoveRequest(classDetails.value.id, userId, viewerId.value));
      RefetchOn200(if reply.Ok? then Some(reply.status) else None, refetch);
    }

    /** `handlePromoteDemoteUser`: the same shape, with the action chosen
        by `isPromote`. */
    method HandlePromoteDemoteUser(viewerId: Option<string>, userId: string, isPromote: bool,
                                   reply: Reply<()>, refetch: Reply<ClassDetails>)
      returns (request: Option<UpdateAdminRequest>)
      modifies this
      ensures request.Some? <==> old(classDetails).Some? && viewerId.Some?
      ensures request.Some? ==>
                request.value == UpdateAdminRequest(old(classDetails).value.id, userId, ActionOf(isPromote), viewerId.value)
      ensures request.Some? && reply.Ok? && reply.status == 200 && refetch.Ok? ==>
                classDetails == Some(refetch.data)
      ensures !(request.Some? && reply.Ok? && reply.status == 200 && refetch.Ok?) ==>
                classDetails == old(classDetails)
    {
      request := None;
      if classDetails.None? || viewerId.None? {
        return;
      }
      request := Some(UpdateAdminRequest(classDetails.value.id, userId, ActionOf(isPromote), viewerId.value));
      RefetchOn200(if reply.Ok? then Some(reply.status) else None, refetch);
    }
  }
}
