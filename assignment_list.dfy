/** The assignment list of a classroom (components/AssignmentList.jsx):
    the fetched assignments are de-duplicated by `_id` through a JavaScript
    `Map`, and the fetch handler sets the list, the error text and the
    loading flag. */
module AssignmentList {
  import opened JsCore

  datatype Assignment = Assignment(
    id: string,
    title: string,
    description: string,
    dueDate: string,
    createdAt: string)

  /** The ids of a list of assignments, position by position. */
  function Ids(s: seq<Assignment>): (r: seq<string>)
    ensures |r| == |s|
    ensures forall i :: 0 <= i < |s| ==> r[i] == s[i].id
  {
    seq(|s|, i requires 0 <= i < |s| => s[i].id)
  }

  predicate Distinct(xs: seq<string>)
  {
    forall i, j :: 0 <= i < j < |xs| ==> xs[i] != xs[j]
  }

  /** No two assignments of the list share an id. */
  predicate DistinctIds(s: seq<Assignment>)
  {
    Distinct(Ids(s))
  }

  /** The position of the first assignment with the given id. */
  function FirstIndex(s: seq<Assignment>, id: string): (r: nat)
    requires id in Ids(s)
    ensures r < |s| && s[r].id == id
    ensures forall k :: 0 <= k < r ==> s[k].id != id
  {
    if s[0].id == id then 0 else 1 + FirstIndex(s[1..], id)
  }

  /** The position of the last assignment with the given id. */
  function LastIndex(s: seq<Assignment>, id: string): (r: nat)
    requires id in Ids(s)
    ensures r < |s| && s[r].id == id
    ensures forall k :: r < k < |s| ==> s[k].id != id
  {
    if s[|s| - 1].id == id then |s| - 1
    else
      assert Ids(s) == Ids(s[..|s| - 1]) + [s[|s| - 1].id];
      LastIndex(s[..|s| - 1], id)
  }

  /** A JavaScript `Map` from id to assignment: its keys in insertion order
      and the value currently bound to each. */
  datatype IdMap = IdMap(keys: seq<string>, entries: map<string, Assignment>)

  predicate WellFormed(m: IdMap)
  {
    && Distinct(m.keys)
    && (forall k :: k in m.keys ==> k in m.entries)
    && (forall k :: k in m.entries ==> k in m.keys)
  }

  /** `map.set(a._id, a)`: a new key goes to the end of the key order; an
      existing key keeps its place and has its value replaced. */
  function Insert(m: IdMap, a: Assignment): (r: IdMap)
    requires WellFormed(m)
    ensures WellFormed(r)
  {
    if a.id in m.entries then IdMap(m.keys, m.entries[a.id := a])
    else IdMap(m.keys + [a.id], m.entries[a.id := a])
  }

  /** `new Map(list.map(item => [item._id, item]))`: the entries are set
      from first to last. */
  function BuildMap(s: seq<Assignment>): (m: IdMap)
    ensures WellFormed(m)
  {
    if s == [] then IdMap([], map[]) else Insert(BuildMap(s[..|s| - 1]), s[|s| - 1])
  }

  /** `Array.from(map.values())` */
  function Values(m: IdMap): (r: seq<Assignment>)
    requires WellFormed(m)
    ensures |r| == |m.keys|
    ensures forall i :: 0 <= i < |r| ==> r[i] == m.entries[m.keys[i]]
  {
    seq(|m.keys|, i requires 0 <= i < |m.keys| => m.entries[m.keys[i]])
  }

  /** The de-duplicated list that AssignmentList.jsx stores. */
  function Dedup(s: seq<Assignment>): (r: seq<Assignment>)
    ensures |r| <= |s|
    ensures forall i :: 0 <= i < |r| ==> r[i] in s
  {
    BuildMapCount(s);
    BuildMapEntries(s);
    Values(BuildMap(s))
  }

  /** Ids of a list: the ids of all but the last item, then the last id. */
  lemma IdsSnoc(s: seq<Assignment>)
    requires s != []
    ensures Ids(s) == Ids(s[..|s| - 1]) + [s[|s| - 1].id]
  {
  }

  /** Appending an item keeps the first occurrence of every id already
      present, and the last occurrence of every other id. */
  lemma IndexSnoc(s: seq<Assignment>, id: string)
    requires s != [] && id in Ids(s[..|s| - 1])
    ensures id in Ids(s)
    ensures FirstIndex(s, id) == FirstIndex(s[..|s| - 1], id)
    ensures id != s[|s| - 1].id ==> LastIndex(s, id) == LastIndex(s[..|s| - 1], id)
  {
    var p := s[..|s| - 1];
    IdsSnoc(s);
    var f := FirstIndex(p, id);
    assert s[f] == p[f];
  }

  /** A list has distinct ids exactly when all but its last item do and
      the last id is new. */
  lemma DistinctSnoc(s: seq<Assignment>)
    requires s != []
    ensures DistinctIds(s) <==>
            DistinctIds(s[..|s| - 1]) && s[|s| - 1].id !in Ids(s[..|s| - 1])
  {
    var p, n := s[..|s| - 1], |s|;
    IdsSnoc(s);
    if s[n - 1].id in Ids(p) {
      var k := FirstIndex(p, s[n - 1].id);
      assert Ids(s)[k] == Ids(s)[n - 1];
    }
  }

  /** The map holds one entry per distinct id of the list. */
  lemma {:induction false} BuildMapDomain(s: seq<Assignment>)
    ensures forall id :: id in BuildMap(s).entries <==> id in Ids(s)
  {
    if s != [] {
      BuildMapDomain(s[..|s| - 1]);
      IdsSnoc(s);
    }
  }

  /** Each entry is bound to the last assignment of the list with its id. */
  lemma {:induction false} BuildMapEntries(s: seq<Assignment>)
    ensures forall id :: id in BuildMap(s).entries <==> id in Ids(s)
    ensures forall id :: id in BuildMap(s).entries ==>
              BuildMap(s).entries[id] == s[LastIndex(s, id)]
  {
    BuildMapDomain(s);
    if s != [] {
      var p := s[..|s| - 1];
      BuildMapEntries(p);
      IdsSnoc(s);
      forall id | id in Ids(p) && id != s[|s| - 1].id
        ensures LastIndex(s, id) == LastIndex(p, id)
      {
        IndexSnoc(s, id);
      }
    }
  }

  /** The keys follow the order in which each id first occurs. */
  lemma {:induction false} BuildMapOrder(s: seq<Assignment>)
    ensures forall k :: k in BuildMap(s).keys ==> k in Ids(s)
    ensures forall i, j :: 0 <= i < j < |BuildMap(s).keys| ==>
              FirstIndex(s, BuildMap(s).keys[i]) < FirstIndex(s, BuildMap(s).keys[j])
  {
    if s != [] {
      var p, x := s[..|s| - 1], s[|s| - 1];
      BuildMapOrder(p);
      BuildMapDomain(p);
      IdsSnoc(s);
      var kp, ks := BuildMap(p).keys, BuildMap(s).keys;
      forall k | k in kp
        ensures k in Ids(s) && FirstIndex(s, k) == FirstIndex(p, k) < |s| - 1
      {
        IndexSnoc(s, k);
      }
      if x.id in Ids(p) {
        assert ks == kp;
      } else {
        assert ks == kp + [x.id];
        assert FirstIndex(s, x.id) == |s| - 1;
        forall i, j | 0 <= i < j < |ks|
          ensures FirstIndex(s, ks[i]) < FirstIndex(s, ks[j])
        {
          assert ks[i] == kp[i] && ks[i] in kp;
          if j < |kp| {
            assert ks[j] == kp[j] && ks[j] in kp;
          }
        }
      }
    }
  }

  /** The map has no more keys than the list has items, and exactly as
      many when the ids are distinct, in which case the keys are the ids. */
  lemma {:induction false} BuildMapCount(s: seq<Assignment>)
    ensures |BuildMap(s).keys| <= |s|
    ensures |BuildMap(s).keys| == |s| <==> DistinctIds(s)
    ensures DistinctIds(s) ==> BuildMap(s).keys == Ids(s)
  {
    if s != [] {
      var p := s[..|s| - 1];
      BuildMapCount(p);
      BuildMapDomain(p);
      DistinctSnoc(s);
      IdsSnoc(s);
    }
  }

  /** Every entry of the map is stored under its own id. */
  lemma EntriesKeyedById(s: seq<Assignment>)
    ensures forall id :: id in BuildMap(s).entries ==> BuildMap(s).entries[id].id == id
  {
    BuildMapEntries(s);
  }

  /** The ids of the de-duplicated list are the keys of the map. */
  lemma DedupIds(s: seq<Assignment>)
    ensures Ids(Dedup(s)) == BuildMap(s).keys
  {
    EntriesKeyedById(s);
  }

  /** After de-duplication no two assignments share an id. */
  lemma DedupDistinct(s: seq<Assignment>)
    ensures DistinctIds(Dedup(s))
  {
    DedupIds(s);
  }

  /** The result holds exactly the ids of the fetched list. */
  lemma DedupSameIds(s: seq<Assignment>)
    ensures forall id :: id in Ids(Dedup(s)) <==> id in Ids(s)
  {
    BuildMapEntries(s);
    DedupIds(s);
  }

  /** The result is never longer than the input, and is as long exactly
      when the input had no repeated id. */
  lemma DedupLength(s: seq<Assignment>)
    ensures |Dedup(s)| <= |s|
    ensures |Dedup(s)| == |s| <==> DistinctIds(s)
  {
    BuildMapCount(s);
  }

  /** For a repeated id the assignment kept is the last one in the input. */
  lemma DedupKeepsLast(s: seq<Assignment>, k: nat)
    requires k < |Dedup(s)|
    ensures Dedup(s)[k].id in Ids(s)
    ensures Dedup(s)[k] == s[LastIndex(s, Dedup(s)[k].id)]
  {
    BuildMapEntries(s);
    EntriesKeyedById(s);
  }

  /** The result lists the ids in the order of their first occurrence. */
  lemma DedupFirstOccurrenceOrder(s: seq<Assignment>, i: nat, j: nat)
    requires i < j < |Dedup(s)|
    ensures Dedup(s)[i].id in Ids(s) && Dedup(s)[j].id in Ids(s)
    ensures FirstIndex(s, Dedup(s)[i].id) < FirstIndex(s, Dedup(s)[j].id)
  {
    BuildMapOrder(s);
    DedupIds(s);
    assert Ids(Dedup(s))[i] == Dedup(s)[i].id;
    assert Ids(Dedup(s))[j] == Dedup(s)[j].id;
  }

  /** A list without repeated ids passes through unchanged. */
  lemma DedupOfDistinct(s: seq<Assignment>)
    requires DistinctIds(s)
    ensures Dedup(s) == s
  {
    var m := BuildMap(s);
    BuildMapCount(s);
    BuildMapEntries(s);
    assert m.keys == Ids(s);
    forall k | 0 <= k < |s| ensures Dedup(s)[k] == s[k] {
      var id := s[k].id;
      assert m.keys[k] == id;
      assert id in Ids(s);
      var last := LastIndex(s, id);
      assert Ids(s)[last] == Ids(s)[k];
      assert last == k;
      assert m.entries[id] == s[k];
    }
  }

  /** De-duplicating twice is the same as de-duplicating once. */
  lemma DedupIdempotent(s: seq<Assignment>)
    ensures Dedup(Dedup(s)) == Dedup(s)
  {
    DedupDistinct(s);
    DedupOfDistinct(Dedup(s));
  }

  /** The component's state: its three `useState` variables. */
  class AssignmentListView {
    var assignments: seq<Assignment>
    var loading: bool
    var error: Option<string>

    constructor ()
      ensures assignments == [] && loading && error == None
    {
      assignments := [];
      loading := true;
      error := None;
    }

    /** `fetchAssignments`: `signedIn` says whether Firebase has a current
        user (without one the handler throws before any request) and
        `reply` is the outcome of the GET. A 401 navigates to the login
        page and leaves the error alone; every other failure shows the
        server's message or the fallback text. */
    method FetchAssignments(signedIn: bool, reply: Reply<seq<Assignment>>)
      returns (navigateTo: Option<string>)
      modifies this
      ensures !loading
      ensures signedIn && reply.Ok? ==>
                assignments == Dedup(reply.data) && error == old(error) && navigateTo == None
      ensures signedIn && reply.Fail? && StatusOf(reply.failure) == Some(401) ==>
                navigateTo == Some("/login") && assignments == old(assignments) && error == old(error)
      ensures signedIn && reply.Fail? && StatusOf(reply.failure) != Some(401) ==>
                navigateTo == None && assignments == old(assignments) &&
                error == Some(Or(MessageOf(reply.failure), "Error fetching assignments"))
      ensures !signedIn ==>
                navigateTo == None && assignments == old(assignments) &&
                error == Some("Error fetching assignments")
    {
      navigateTo := None;
      var outcome := if signedIn then reply else Fail(NoRequest("User not authenticated"));
      match outcome {
        case Ok(_, data) =>
          assignments := Dedup(data);
        case Fail(f) =>
          if StatusOf(f) == Some(401) {
            navigateTo := Some("/login");
          } else {
            error := Some(Or(MessageOf(f), "Error fetching assignments"));
          }
      }
      loading := false;
    }
  }
}
