/**
 * The client's login state (`packages/client_v2/src/stores/user.ts`).
 */
module UserStore {
  import opened Common

  /** The signed-in user as the server reports it; only the fields the store keeps. */
  datatype User = User(id: string, email: string)

  /** `UserState`: `None` for JavaScript `null`. */
  datatype UserState = UserState(isLogin: bool, id: Option<string>, email: Option<string>)

  /** The state before anyone signs in. */
  const Initial := UserState(false, None, None)

  /** A state the actions can reach: signed in exactly when both the id and the email are known. */
  predicate Consistent(s: UserState) {
    s.isLogin <==> (s.id.Some? && s.email.Some?)
  }

  /** `userActions.login`: signed in, with the user's id and email. */
  function Login(s: UserState, user: User): (r: UserState)
    ensures r.isLogin && r.id == Some(user.id) && r.email == Some(user.email)
    ensures Consistent(r)
  {
    s.(isLogin := true, id := Some(user.id), email := Some(user.email))
  }

  /** `userActions.logout`: signed out, with no id and no email. */
  function Logout(s: UserState): (r: UserState)
    ensures !r.isLogin && r.id.None? && r.email.None?
    ensures Consistent(r)
  {
    s.(isLogin := false, id := None, email := None)
  }

  /** Logging out from any state gives the initial state; logging in forgets whoever was signed in before. */
  lemma LoginLogoutLaws(s: UserState, t: UserState, u: User, v: User)
    ensures Logout(s) == Initial
    ensures Login(s, u) == Login(t, u)
    ensures Login(Login(s, v), u) == Login(s, u)
    ensures Logout(Login(s, u)) == Initial
    ensures Consistent(Initial)
  {
  }
}
