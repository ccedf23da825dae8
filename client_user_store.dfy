// The browser's session store (client/src/store/userStore.js): the signed-in
// user's record and the bearer token, both null until login. The record is
// the server's user object; only its string fields are modelled.
module ClientUserStore {
  import opened Common

  /** A user object: field name to value (`_id`, `username`, `email`, ...). */
  type UserRecord = map<string, string>

  /** An owner reference as JavaScript sees it: null, undefined, or an id.
      `null !== undefined`, so the two are kept apart. */
  datatype OwnerRef = NullRef | Undefined | IdRef(id: string)

  /** `user._id`: undefined when the record has no such field. */
  function IdOf(u: UserRecord): (r: OwnerRef)
    ensures r.IdRef? <==> "_id" in u
    ensures r.IdRef? ==> r.id == u["_id"]
    ensures !r.NullRef?
  {
    if "_id" in u then IdRef(u["_id"]) else Undefined
  }

  /** `user?._id`: undefined when nobody is signed in. */
  function CurrentId(user: Option<UserRecord>): (r: OwnerRef)
    ensures user.None? ==> r == Undefined
    ensures user.Some? ==> r == IdOf(user.value)
  {
    if user.Some? then IdOf(user.value) else Undefined
  }

  /** `{ ...state.user, ...updates }` when there is a user, null otherwise:
      the updated fields take the new values, the others keep theirs. */
  function MergedUser(user: Option<UserRecord>, updates: UserRecord): (r: Option<UserRecord>)
    ensures r.Some? <==> user.Some?
    ensures r.Some? ==> forall f :: f in r.value <==> f in user.value || f in updates
    ensures r.Some? ==> forall f :: f in updates ==> r.value[f] == updates[f]
    ensures r.Some? ==> forall f :: f in user.value && f !in updates ==> r.value[f] == user.value[f]
  {
    if user.Some? then Some(user.value + updates) else None
  }

  /** Applying the same updates twice is applying them once. */
  lemma MergedUserIdempotent(user: Option<UserRecord>, updates: UserRecord)
    ensures MergedUser(MergedUser(user, updates), updates) == MergedUser(user, updates)
  {
    if user.Some? {
      var once := MergedUser(user, updates).value;
      var twice := MergedUser(Some(once), updates).value;
      assert forall f :: f in twice <==> f in once;
      assert forall f :: f in twice ==> twice[f] == once[f];
      assert twice == once;
    }
  }

  /** Two updates in a row are one update with the later values winning. */
  lemma MergedUserCompose(user: Option<UserRecord>, u1: UserRecord, u2: UserRecord)
    ensures MergedUser(MergedUser(user, u1), u2) == MergedUser(user, u1 + u2)
  {
    if user.Some? {
      var u := user.value;
      assert (u + u1) + u2 == u + (u1 + u2) by {
        forall f | f in (u + u1) + u2
          ensures f in u + (u1 + u2) && ((u + u1) + u2)[f] == (u + (u1 + u2))[f]
        {
          if f in u2 {
          } else if f in u1 {
          }
        }
      }
    }
  }

  /** `!!(user && token)`: any user object is truthy, a token only when it
      is a non-empty string. */
  predicate Authenticated(user: Option<UserRecord>, token: Option<string>) {
    user.Some? && TruthyStr(token)
  }

  class UserStore {
    var user: Option<UserRecord>
    var token: Option<string>

    /** The initial state: nobody signed in. */
    constructor()
      ensures user == None && token == None
      ensures !IsAuthenticated()
    {
      user, token := None, None;
    }

    /** isAuthenticated(). */
    function IsAuthenticated(): (r: bool)
      reads this
      ensures r <==> user.Some? && token.Some? && token.value != ""
    {
      Authenticated(user, token)
    }

    /** login(user, token): both fields replaced. */
    method Login(u: Option<UserRecord>, t: Option<string>)
      modifies this
      ensures user == u && token == t
      ensures IsAuthenticated() <==> u.Some? && TruthyStr(t)
    {
      user, token := u, t;
    }

    /** logout(): both fields back to null. */
    method Logout()
      modifies this
      ensures user == None && token == None
      ensures !IsAuthenticated()
    {
      user, token := None, None;
    }

    /** setUser(userData): only the user changes. */
    method SetUser(u: Option<UserRecord>)
      modifies this`user
      ensures user == u
    {
      user := u;
    }

    /** updateUser(updates): merged into the signed-in user; with nobody
        signed in the user stays null. The session's standing is unchanged. */
    method UpdateUser(updates: UserRecord)
      modifies this`user
      ensures user == MergedUser(old(user), updates)
      ensures IsAuthenticated() == old(IsAuthenticated())
    {
      user := MergedUser(user, updates);
    }

    /** setToken(token): only the token changes. */
    method SetToken(t: Option<string>)
      modifies this`token
      ensures token == t
    {
      token := t;
    }
  }
}
