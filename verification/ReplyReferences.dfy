/** The use count of the replies that a connection, the callback of its reply subscription and its requests share. */
module ReplyReferences {

  /** The use count, how often the replies were freed, and two of the holders: the field of the connection, and the
      closure of the callback.  The others are the local variables of the requests. */
  datatype References = References(uses: nat, frees: nat, connection: bool, callback: bool)

  /** The variable of the call that creates the replies. */
  const CREATED := References(1, 0, false, false)

  function Copy(r: References): References {
    r.(uses := r.uses + 1)
  }

  /** The last holder frees the replies. */
  function Drop(r: References): References {
    if r.uses == 1 then r.(uses := 0, frees := r.frees + 1)
    else if r.uses == 0 then r
    else r.(uses := r.uses - 1)
  }

  function CopyToCallback(r: References): References {
    Copy(r).(callback := true)
  }

  function CopyToConnection(r: References): References {
    Copy(r).(connection := true)
  }

  function DropByCallback(r: References): References {
    Drop(r).(callback := false)
  }

  function DropByConnection(r: References): References {
    Drop(r).(connection := false)
  }

  function Bit(b: bool): nat { if b then 1 else 0 }

  /** The count is the number of holders, and the replies were freed once if there are none. */
  predicate Counted(r: References, variables: nat) {
    r.uses == variables + Bit(r.connection) + Bit(r.callback) && r.frees == (if r.uses == 0 then 1 else 0)
  }

  lemma HolderCounts(r: References, variables: nat)
    requires Counted(r, variables)
    ensures r.connection ==> r.frees == 0 && Counted(DropByConnection(r), variables)
    ensures r.callback ==> r.frees == 0 && Counted(DropByCallback(r), variables)
    ensures !DropByConnection(r).connection && DropByConnection(r).callback == r.callback
    ensures !DropByCallback(r).callback && DropByCallback(r).connection == r.connection
  {
  }
}
