/** The "Your Classrooms" page (components/Classroom.jsx): a
    case-insensitive search over the user's classrooms, pages of nine
    cards, Prev/Next navigation, and removal of a card after a successful
    leave or delete. */
module ClassroomList {
  import opened JsCore

  datatype Classroom = Classroom(
    id: string,
    name: string,
    adminId: string,
    joinLink: string,
    studentCount: nat)

  /** `classroom.name.toLowerCase().includes(search.toLowerCase())` */
  predicate MatchesSearch(c: Classroom, search: string)
  {
    Includes(Lower(c.name), Lower(search))
  }

  /** `filteredClassrooms` */
  function FilterBySearch(cs: seq<Classroom>, search: string): (r: seq<Classroom>)
    ensures forall c :: c in r <==> c in cs && MatchesSearch(c, search)
  {
    Filter(cs, (c: Classroom) => MatchesSearch(c, search))
  }

  /** An empty search keeps every classroom, in order. */
  lemma EmptySearchKeepsAll(cs: seq<Classroom>)
    ensures FilterBySearch(cs, "") == cs
  {
    forall i | 0 <= i < |cs| ensures MatchesSearch(cs[i], "") {
      IncludesEmpty(Lower(cs[i].name));
    }
    FilterAllKept(cs, (c: Classroom) => MatchesSearch(c, ""));
  }

  /** Lower-casing is idempotent. */
  lemma LowerIdempotent(s: string)
    ensures Lower(Lower(s)) == Lower(s)
  {
  }

  /** The search ignores the case of the search text. */
  lemma SearchIgnoresCase(cs: seq<Classroom>, search: string)
    ensures FilterBySearch(cs, Lower(search)) == FilterBySearch(cs, search)
  {
    LowerIdempotent(search);
    FilterSamePredicate(cs, (c: Classroom) => MatchesSearch(c, Lower(search)),
                        (c: Classroom) => MatchesSearch(c, search));
  }

  const ItemsPerPage: nat := 9

  /** `Math.ceil(count / itemsPerPage)` */
  function TotalPages(count: nat): (r: nat)
    ensures r * ItemsPerPage >= count
    ensures r > 0 ==> (r - 1) * ItemsPerPage < count
    ensures r == 0 <==> count == 0
  {
    (count + ItemsPerPage - 1) / ItemsPerPage
  }

  /** `Array.prototype.slice(start, end)`: negative positions count from
      the end, and both positions are clamped to the list. */
  function JsSlice<T>(s: seq<T>, start: int, end: int): (r: seq<T>)
    ensures |r| <= |s|
  {
    var from := if start < 0 then Max(|s| + start, 0) else Min(start, |s|);
    var to := if end < 0 then Max(|s| + end, 0) else Min(end, |s|);
    if from < to then s[from..to] else []
  }

  function Min(a: int, b: int): int { if a <= b then a else b }
  function Max(a: int, b: int): int { if a >= b then a else b }

  /** `currentClassrooms`: the slice from `indexOfFirstItem` to
      `indexOfLastItem`. */
  function PageItems<T>(filtered: seq<T>, page: int): seq<T>
  {
    JsSlice(filtered, page * ItemsPerPage - ItemsPerPage, page * ItemsPerPage)
  }

  /** Page p >= 1 shows the items at positions (p-1)*9 up to p*9 of the
      filtered list, so never more than nine. */
  lemma PageWindow<T>(filtered: seq<T>, page: int)
    requires page >= 1
    ensures PageItems(filtered, page) ==
            filtered[Min((page - 1) * ItemsPerPage, |filtered|)..Min(page * ItemsPerPage, |filtered|)]
    ensures |PageItems(filtered, page)| <= ItemsPerPage
  {
  }

  /** Page 0 (reachable through the Next button, see NextAsWritten) shows
      nothing: `slice(-9, 0)` is empty. */
  lemma PageZeroIsEmpty<T>(filtered: seq<T>)
    ensures PageItems(filtered, 0) == []
  {
  }

  /** Pages 1 to k, one after the other. */
  function Pages<T>(filtered: seq<T>, k: nat): seq<T>
  {
    if k == 0 then [] else Pages(filtered, k - 1) + PageItems(filtered, k)
  }

  /** The first k pages together are the first k*9 items. */
  lemma {:induction false} PagesArePrefix<T>(filtered: seq<T>, k: nat)
    ensures Pages(filtered, k) == filtered[..Min(k * ItemsPerPage, |filtered|)]
  {
    if k > 0 {
      PagesArePrefix(filtered, k - 1);
      PageWindow(filtered, k);
      var a := Min((k - 1) * ItemsPerPage, |filtered|);
      var b := Min(k * ItemsPerPage, |filtered|);
      assert filtered[..a] + filtered[a..b] == filtered[..b];
    }
  }

  /** Pages 1 to totalPages, concatenated, are exactly the filtered list. */
  lemma AllPagesCoverList<T>(filtered: seq<T>)
    ensures Pages(filtered, TotalPages(|filtered|)) == filtered
  {
    PagesArePrefix(filtered, TotalPages(|filtered|));
  }

  /** The Prev button: `Math.max(prev - 1, 1)`. */
  function PrevPage(page: int): (r: int)
    ensures r >= 1
    ensures page > 1 ==> r == page - 1
    ensures page <= 1 ==> r == 1
  {
    Max(page - 1, 1)
  }

  /** The Next button as written: `Math.min(prev + 1, totalPages)`. */
  function NextAsWritten(page: int, totalPages: nat): (r: int)
    ensures r <= totalPages
    ensures page < totalPages ==> r == page + 1
  {
    Min(page + 1, totalPages)
  }

  /** With no classroom matching the search there are no pages, the Next
      button is not disabled (`currentPage === totalPages` is false), and
      clicking it moves from page 1 to page 0. */
  lemma NextAsWrittenLeavesFirstPage()
    ensures 1 != TotalPages(0)
    ensures NextAsWritten(1, TotalPages(0)) == 0
  {
  }

  /** The Next button as evidently intended: one page on, never past the
      last page and never below page 1. */
  function NextPage(page: int, totalPages: nat): (r: int)
    ensures 1 <= r
    ensures r <= totalPages || r == 1
    ensures 1 <= page < totalPages ==> r == page + 1
    ensures page >= 0 && totalPages >= 1 ==> r == NextAsWritten(page, totalPages)
  {
    Max(NextAsWritten(page, totalPages), 1)
  }

  /** Starting from a page in range, Prev and Next keep the page in range. */
  lemma NavigationStaysInRange(page: int, totalPages: nat)
    requires 1 <= page <= totalPages
    ensures 1 <= PrevPage(page) <= totalPages
    ensures 1 <= NextPage(page, totalPages) <= totalPages
  {
  }

  /** A search typed while on a later page does not reset the page: with
      at most nine matches the current page 3 lies past the last page and
      shows nothing, Next stays enabled, and a click on it moves back to
      the last page, both as written and as corrected. */
  lemma NarrowedSearchLeavesEmptyPage<T>(filtered: seq<T>)
    requires 0 < |filtered| <= ItemsPerPage
    ensures TotalPages(|filtered|) == 1
    ensures PageItems(filtered, 3) == []
    ensures 3 != TotalPages(|filtered|)
    ensures NextAsWritten(3, TotalPages(|filtered|)) == 1
    ensures NextPage(3, TotalPages(|filtered|)) == 1
  {
    assert TotalPages(|filtered|) == 1 by {
      assert (|filtered| + ItemsPerPage - 1) / ItemsPerPage == 1;
    }
  }

  /** The list after a leave or delete: `classrooms.filter(c => c._id !== id)`. */
  function RemoveById(cs: seq<Classroom>, id: string): (r: seq<Classroom>)
    ensures forall c :: c in r <==> c in cs && c.id != id
  {
    Filter(cs, (c: Classroom) => c.id != id)
  }

  /** Removal keeps the other classrooms in their original order: it acts
      on each part of a list separately, and a classroom with another id
      stays in place. */
  lemma RemoveKeepsOrder(a: seq<Classroom>, b: seq<Classroom>, id: string)
    ensures RemoveById(a + b, id) == RemoveById(a, id) + RemoveById(b, id)
    ensures forall c: Classroom :: c.id != id ==> RemoveById([c], id) == [c]
    ensures forall c: Classroom :: c.id == id ==> RemoveById([c], id) == []
  {
    FilterAppend(a, b, (c: Classroom) => c.id != id);
    forall c: Classroom | c.id != id ensures RemoveById([c], id) == [c] {
      assert [c][1..] == [];
    }
    forall c: Classroom | c.id == id ensures RemoveById([c], id) == [] {
      assert [c][1..] == [];
    }
  }

  /** What a card offers to the viewer. */
  datatype CardControls = CardControls(
    adminBadge: bool,
    joinLink: Option<string>,
    delete: bool,
    leave: bool)

  /** The viewer is the classroom's admin: `classroom.admin._id === user._id`. */
  function Controls(c: Classroom, viewerId: string): (r: CardControls)
    ensures r.delete != r.leave
    ensures r.delete <==> c.adminId == viewerId
    ensures r.adminBadge == r.delete
    ensures r.joinLink == (if c.adminId == viewerId then Some(c.joinLink) else None)
  {
    var admin := c.adminId == viewerId;
    CardControls(admin, if admin then Some(c.joinLink) else None, admin, !admin)
  }

  /** Body of PUT /api/classrooms/leave. */
  datatype LeaveRequest = LeaveRequest(classroomId: string, userId: string)

  /** Body of POST /api/classrooms/delete. */
  datatype DeleteRequest = DeleteRequest(classroomId: string, adminId: string)

  class ClassroomsView {
    var classrooms: seq<Classroom>
    var search: string
    var currentPage: int

    ghost predicate Valid()
      reads this
    {
      currentPage >= 1
    }

    constructor ()
      ensures Valid()
      ensures classrooms == [] && search == "" && currentPage == 1
    {
      classrooms := [];
      search := "";
      currentPage := 1;
    }

    function Filtered(): seq<Classroom>
      reads this
    {
      FilterBySearch(classrooms, search)
    }

    /** The cards on the current page. */
    function CurrentItems(): (r: seq<Classroom>)
      reads this
      ensures currentPage >= 1 ==> |r| <= ItemsPerPage
    {
      if currentPage >= 1 then PageWindow(Filtered(), currentPage); PageItems(Filtered(), currentPage)
      else PageItems(Filtered(), currentPage)
    }

    /** The effect that loads the classrooms: no request without a user id;
        a failed request leaves the list as it was. */
    method Load(userId: Option<string>, reply: Reply<seq<Classroom>>)
      requires Valid()
      modifies this
      ensures Valid()
      ensures search == old(search) && currentPage == old(currentPage)
      ensures classrooms == (if Truthy(userId) && reply.Ok? then reply.data else old(classrooms))
    {
      if Truthy(userId) && reply.Ok? {
        classrooms := reply.data;
      }
    }

    /** Typing in the search box: the page is not reset. */
    method SetSearch(text: string)
      requires Valid()
      modifies this
      ensures Valid()
      ensures search == text && classrooms == old(classrooms) && currentPage == old(currentPage)
    {
      search := text;
    }

    method Prev()
      requires Valid()
      modifies this
      ensures Valid()
      ensures currentPage == PrevPage(old(currentPage))
      ensures classrooms == old(classrooms) && search == old(search)
    {
      currentPage := PrevPage(currentPage);
    }

    method Next()
      requires Valid()
      modifies this
      ensures Valid()
      ensures currentPage == NextPage(old(currentPage), TotalPages(|old(Filtered())|))
      ensures classrooms == old(classrooms) && search == old(search)
    {
      currentPage := NextPage(currentPage, TotalPages(|Filtered()|));
    }

    /** `handleLeaveClassroom`: on a reply the server's message is alerted
        and the card is removed; on an error nothing changes. */
    method HandleLeave(classroomId: string, userId: string, reply: Reply<string>)
      returns (request: LeaveRequest, alertText: Option<string>)
      requires Valid()
      modifies this
      ensures Valid()
      ensures request == LeaveRequest(classroomId, userId)
      ensures reply.Ok? ==> alertText == Some(reply.data) &&
                            classrooms == RemoveById(old(classrooms), classroomId)
      ensures reply.Fail? ==> alertText == None && classrooms == old(classrooms)
      ensures search == old(search) && currentPage == old(currentPage)
    {
      request := LeaveRequest(classroomId, userId);
      alertText := None;
      if reply.Ok? {
        alertText := Some(reply.data);
        classrooms := RemoveById(classrooms, classroomId);
      }
    }

    /** `handleDeleteClassroom`: the same flow with the admin's id. */
    method HandleDelete(classroomId: string, adminId: string, reply: Reply<string>)
      returns (request: DeleteRequest, alertText: Option<string>)
      requires Valid()
      modifies this
      ensures Valid()
      ensures request == DeleteRequest(classroomId, adminId)
      ensures reply.Ok? ==> alertText == Some(reply.data) &&
                            classrooms == RemoveById(old(classrooms), classroomId)
      ensures reply.Fail? ==> alertText == None && classrooms == old(classrooms)
      ensures search == old(search) && currentPage == old(currentPage)
    {
      request := DeleteRequest(classroomId, adminId);
      alertText := None;
      if reply.Ok? {
        alertText := Some(reply.data);
        classrooms := RemoveById(classrooms, classroomId);
      }
    }
  }
}
