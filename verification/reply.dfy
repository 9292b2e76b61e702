/**
 The Python value `add_user` hands back to the web layer, which unpacks it as
 `error_message, user_name = ...`.

 As written, a successful call returns the pair `(None, name)` but a rejected
 name returns the bare message string; unpacking a string binds its
 characters, so the 35-character message makes the caller raise instead of
 showing the error. `IntendedAddUserReply` is the evidently intended shape: always a
 pair whose first item is the error or `None`.
 */
module AddUserReply {
  import opened Wrappers
  import opened MovieStore

  /** The Python values involved: `None`, a string, a tuple. */
  datatype PyValue = PyNone | PyStr(s: string) | PyTuple(items: seq<PyValue>)

  /**
   `a, b = v`: a tuple or a string unpacks when it has exactly two items (a
   string yields its characters); anything else raises, modelled as `None`.
   */
  function UnpackPair(v: PyValue): Option<(PyValue, PyValue)> {
    match v
    case PyNone => None
    case PyStr(s) => if |s| == 2 then Some((PyStr([s[0]]), PyStr([s[1]]))) else None
    case PyTuple(items) => if |items| == 2 then Some((items[0], items[1])) else None
  }

  /**
   The return statements of `add_user` as written. The caller's two-name
   unpacking gets `(None, name)` from a success, but from a rejection it gets
   the bare message, which unpacks only when the message is two characters long.
   */
  function AddUserReplyAsWritten(result: AddUserResult): (v: PyValue)
    ensures result.Added? ==> UnpackPair(v) == Some((PyNone, PyStr(result.name)))
    ensures result.NameTaken? ==> (UnpackPair(v).Some? <==> |result.message| == 2)
  {
    match result
    case Added(name) => PyTuple([PyNone, PyStr(name)])
    case NameTaken(message) => PyStr(message)
  }

  /** Rejecting a taken name hands the caller a value its two-name unpacking cannot take apart. */
  lemma DuplicateNameReplyDoesNotUnpack(users: Users, name: string)
    requires exists k :: 0 <= k < |users| && users[k].name == name
    ensures UnpackPair(AddUserReplyAsWritten(AddUser(users, name).reply)).None?
  {
    assert |NameTakenMessage| == 35;
  }

  /** The intended reply: always `(error, name)`, the error `None` on success. */
  function IntendedAddUserReply(result: AddUserResult): PyValue {
    match result
    case Added(name) => PyTuple([PyNone, PyStr(name)])
    case NameTaken(message) => PyTuple([PyStr(message), PyNone])
  }

  /**
   The caller can always unpack the intended reply; its first item is `None`
   exactly when the user was added, and otherwise it carries the message.
   */
  lemma AddUserReplyUnpacks(users: Users, name: string)
    ensures var u := UnpackPair(IntendedAddUserReply(AddUser(users, name).reply));
      && u.Some?
      && (u.value.0 == PyNone <==> forall k :: 0 <= k < |users| ==> users[k].name != name)
      && (u.value.0 == PyNone ==> u.value.1 == PyStr(name))
      && (u.value.0 != PyNone ==> u.value.0 == PyStr(NameTakenMessage))
  {
  }
}
