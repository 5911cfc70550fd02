/** The Redux session slice (redux/appSlice.js): the signed-in user, set by
    `setUser` and cleared by `logout`. */
module AppSlice {
  import opened JsCore

  datatype User = User(id: string, name: string, email: string, photo: string)

  datatype SliceState = SliceState(user: Option<User>)

  /** `user: null` */
  const InitialState: SliceState := SliceState(None)

  /** `setUser(payload)` (a `null` payload is `None`) and `logout()`. */
  datatype Action = SetUser(payload: Option<User>) | Logout

  /** What the reducer makes of a state and an action. */
  function Reduce(s: SliceState, a: Action): (r: SliceState)
    ensures a.SetUser? ==> r.user == a.payload
    ensures a.Logout? ==> r.user == None
  {
    match a
    case SetUser(p) => s.(user := p)
    case Logout => s.(user := None)
  }

  /** The state after a run of actions from `s`. */
  function ReduceAll(s: SliceState, actions: seq<Action>): SliceState
    decreases |actions|
  {
    if actions == [] then s else ReduceAll(Reduce(s, actions[0]), actions[1..])
  }

  /** Neither reducer looks at the prior state; `logout` is idempotent and
      undoes any `setUser`. */
  lemma ReducersForgetPriorState(s: SliceState, t: SliceState, p: Option<User>)
    ensures Reduce(s, SetUser(p)) == Reduce(t, SetUser(p))
    ensures Reduce(s, Logout) == InitialState
    ensures Reduce(Reduce(s, Logout), Logout) == Reduce(s, Logout)
    ensures Reduce(Reduce(s, SetUser(p)), Logout) == Reduce(s, Logout)
  {
  }

  /** After any run of actions only the last one counts: the user is its
      payload when it is a `setUser` and `null` when it is a `logout`. */
  lemma {:induction false} LastActionDecides(s: SliceState, actions: seq<Action>)
    requires actions != []
    ensures ReduceAll(s, actions) == Reduce(s, actions[|actions| - 1])
    decreases |actions|
  {
    if |actions| > 1 {
      LastActionDecides(Reduce(s, actions[0]), actions[1..]);
      assert actions[1..][|actions[1..]| - 1] == actions[|actions| - 1];
    }
  }

  /** The store's slice, updated in place as Immer's draft is. */
  class Slice {
    var user: Option<User>

    constructor ()
      ensures SliceState(user) == InitialState
    {
      user := None;
    }

    method SetUser(payload: Option<User>)
      modifies this
      ensures SliceState(user) == Reduce(SliceState(old(user)), Action.SetUser(payload))
    {
      user := payload;
    }

    method Logout()
      modifies this
      ensures SliceState(user) == Reduce(SliceState(old(user)), Action.Logout)
    {
      user := None;
    }
  }
}
