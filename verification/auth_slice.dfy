/**
  The authentication state (lib/store/authSlice.ts): the user, the token and
  the authenticated flag, updated in place by three reducers.
*/
module AuthSlice {
  import opened Wrappers

  datatype User = User(id: string, name: string, email: string, role: string)

  class AuthStore {
    var user: Option<User>
    var token: Option<string>
    var isAuthenticated: bool

    /** The initial state: nobody signed in. */
    predicate IsInitial()
      reads this
    {
      user == None && token == None && !isAuthenticated
    }

    constructor ()
      ensures IsInitial()
    {
      user := None;
      token := None;
      isAuthenticated := false;
    }

    /** `setUser`: stores the user and marks the state authenticated; the token stays. */
    method SetUser(u: User)
      modifies this
      ensures user == Some(u) && isAuthenticated
      ensures token == old(token)
    {
      user := Some(u);
      isAuthenticated := true;
    }

    /** `setToken`: only the token changes; a token alone does not authenticate. */
    method SetToken(t: string)
      modifies this
      ensures token == Some(t)
      ensures user == old(user) && isAuthenticated == old(isAuthenticated)
    {
      token := Some(t);
    }

    /**
      `logout`: back to the initial state whatever the state was, so a second
      logout changes nothing.
    */
    method Logout()
      modifies this
      ensures IsInitial()
    {
      user := None;
      token := None;
      isAuthenticated := false;
    }
  }
}
