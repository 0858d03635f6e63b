/** The `auth` slice of the client store: its initial state, read from the
    stored token, its five reducers, and `fetchUser` as the reducers it
    dispatches: with no stored token, after a failed request and after a
    successful one. */
module AuthSlice {
  import opened Common

  /** The user record the server returns; its fields are not inspected. */
  type UserBody = string

  type ErrorPayload = string

  /** JavaScript truthiness of a stored token: present and not empty. */
  predicate Truthy(token: Option<string>) {
    token.Some? && token.value != ""
  }

  class AuthState {
    var user: Option<UserBody>
    var token: Option<string>
    var isAuthenticated: bool
    var loading: bool
    var error: Option<ErrorPayload>
    /** The `auth_token` entry of the browser's local storage. */
    var storedToken: Option<string>

    /** The logged-out state, with no stored token. */
    ghost predicate LoggedOut()
      reads this
    {
      user == None && token == None && !isAuthenticated && error == None && !loading && storedToken == None
    }

    /** `initialState`: authenticated exactly when a non-empty token is stored,
        and holding that token (an empty one reads as `null`). */
    constructor (stored: Option<string>)
      ensures isAuthenticated <==> Truthy(stored)
      ensures token == (if Truthy(stored) then stored else None)
      ensures user == None && !loading && error == None && storedToken == stored
    {
      user := None;
      token := if Truthy(stored) then stored else None;
      isAuthenticated := Truthy(stored);
      loading := false;
      error := None;
      storedToken := stored;
    }

    method AuthStart()
      modifies this
      ensures loading && error == None
      ensures user == old(user) && token == old(token) && isAuthenticated == old(isAuthenticated)
      ensures storedToken == old(storedToken)
    {
      loading := true;
      error := None;
    }

    /** Token and user from the payload, authenticated, no longer loading; an
        earlier error is not cleared. */
    method AuthSuccess(payloadToken: string, payloadUser: UserBody)
      modifies this
      ensures token == Some(payloadToken) && user == Some(payloadUser)
      ensures isAuthenticated && !loading
      ensures error == old(error) && storedToken == old(storedToken)
    {
      loading := false;
      token := Some(payloadToken);
      user := Some(payloadUser);
      isAuthenticated := true;
    }

    method AuthFailure(payload: ErrorPayload)
      modifies this
      ensures !loading && error == Some(payload)
      ensures user == old(user) && token == old(token) && isAuthenticated == old(isAuthenticated)
      ensures storedToken == old(storedToken)
    {
      loading := false;
      error := Some(payload);
    }

    /** Everything back to logged out, and the stored token removed. */
    method Logout()
      modifies this
      ensures LoggedOut()
    {
      user := None;
      token := None;
      isAuthenticated := false;
      error := None;
      loading := false;
      storedToken := None;
    }

    /** The user is set and marked authenticated; the token is not touched. */
    method SetUser(payload: UserBody)
      modifies this
      ensures user == Some(payload) && isAuthenticated
      ensures token == old(token) && loading == old(loading) && error == old(error)
      ensures storedToken == old(storedToken)
    {
      user := Some(payload);
      isAuthenticated := true;
    }

    /** `fetchUser` up to its request: with no usable stored token it ends
        logged out and sends nothing; otherwise it is loading, with no error,
        and the request goes out. */
    method FetchUser() returns (requestSent: bool)
      modifies this
      ensures requestSent <==> Truthy(old(storedToken))
      ensures !requestSent ==> LoggedOut()
      ensures requestSent ==>
        && loading && error == None
        && user == old(user) && token == old(token) && isAuthenticated == old(isAuthenticated)
        && storedToken == old(storedToken)
    {
      AuthStart();
      if !Truthy(storedToken) {
        Logout();
        return false;
      }
      return true;
    }

    /** `fetchUser` when its request fails: the failure is recorded and then
        cleared again by the logout that follows, so the state ends logged out
        with no error to show. */
    method FetchUserFailed(payload: ErrorPayload)
      modifies this
      ensures LoggedOut()
    {
      AuthFailure(payload);
      Logout();
    }

    /** `fetchUser` when its request succeeds. */
    method FetchUserSucceeded(payload: UserBody)
      modifies this
      ensures user == Some(payload) && isAuthenticated
      ensures token == old(token) && loading == old(loading) && error == old(error)
      ensures storedToken == old(storedToken)
    {
      SetUser(payload);
    }
  }
}
