/** The authentication state of the news-platform web app
    (app/news-platform/src/contexts/AuthContext.tsx): the state read back
    from local storage, the effect that writes it back after every change,
    the state after a login or sign-up, logout and the per-category
    preference counter. */
module PlatformAuth {
  import opened Wrappers
  import opened PreferenceCounts

  /** `User`: optional name, e-mail and preference counts. The id and the
      username come from the endpoint's JSON and are undefined (None) when
      its reply lacks them. */
  datatype User = User(
    id: Option<string>,
    name: Option<string>,
    email: Option<string>,
    username: Option<string>,
    preferences: Option<map<string, int>>)

  /** `AuthState`. */
  datatype AuthState = AuthState(user: Option<User>, isAuthenticated: bool, token: Option<string>)

  /** The parsed body of a successful login reply: its `user_id` and `name`
      fields, None where the body has no such field. */
  datatype LoginReply = LoginReply(user_id: Option<string>, name: Option<string>)

  /** The parsed body of a successful sign-up reply: its `id` field, None
      where the body has none. */
  datatype SignupReply = SignupReply(id: Option<string>)

  const TokenPrefix: string := "fake-jwt-token-"
  /** The username every sign-up is given. */
  const SignupUsername: string := "Suryansh"

  /** A stored string is truthy: present and not empty. */
  predicate Truthy(s: Option<string>) {
    s.Some? && s.value != ""
  }

  /** The state the provider starts from: the stored user (if any), the
      stored token as it is, and authenticated exactly when that token is
      truthy. */
  function InitialState(storedUser: Option<User>, storedToken: Option<string>): (st: AuthState)
    ensures st.user == storedUser && st.token == storedToken
    ensures st.isAuthenticated <==> storedToken.Some? && storedToken.value != ""
  {
    AuthState(storedUser, Truthy(storedToken), storedToken)
  }

  /** The state after `logout`. */
  const LoggedOut: AuthState := AuthState(None, false, None)

  /** The preference map after one more visit to `category`, an absent map
      counting as empty (`{ ...undefined }` is `{}`). */
  function IncrementPreference(prefs: Option<map<string, int>>, category: string): (r: map<string, int>)
    ensures r.Keys == (if prefs.Some? then prefs.value.Keys else {}) + {category}
    ensures r[category] == (if prefs.Some? then Count(prefs.value, category) else 0) + 1
    ensures forall c :: c != category ==> Count(r, c) == if prefs.Some? then Count(prefs.value, c) else 0
  {
    Increment(if prefs.Some? then prefs.value else map[], category)
  }

  /** `updatePreferences` as a state transition: nothing changes without a
      user; otherwise only the user's preference map changes. */
  function WithPreference(st: AuthState, category: string): (r: AuthState)
    ensures st.user.None? ==> r == st
    ensures st.user.Some? ==>
      && r.token == st.token && r.isAuthenticated == st.isAuthenticated
      && r.user.Some?
      && r.user.value == st.user.value.(preferences := Some(IncrementPreference(st.user.value.preferences, category)))
  {
    match st.user
    case None => st
    case Some(u) => st.(user := Some(u.(preferences := Some(IncrementPreference(u.preferences, category)))))
  }

  /** Two preference updates commute. */
  lemma WithPreferenceCommutes(st: AuthState, a: string, b: string)
    ensures WithPreference(WithPreference(st, a), b) == WithPreference(WithPreference(st, b), a)
  {
    if st.user.Some? {
      var p := st.user.value.preferences;
      IncrementCommutes(if p.Some? then p.value else map[], a, b);
    }
  }

  /** The state after a successful login: the user the endpoint names, with
      an empty preference map, and a token made from a random suffix. */
  function LoggedIn(email: string, reply: LoginReply, random: string): (st: AuthState)
    ensures st.isAuthenticated && Truthy(st.token)
    ensures st.user.Some? && st.user.value.id == reply.user_id && st.user.value.username == reply.name
    ensures st.user.value.email == Some(email) && st.user.value.preferences == Some(map[])
  {
    AuthState(Some(User(reply.user_id, None, Some(email), reply.name, Some(map[]))), true, Some(TokenPrefix + random))
  }

  /** The state after a successful sign-up: the id the reply carries (if
      any), the given name and e-mail, the fixed username and no preference
      map. */
  function SignedUp(email: string, name: string, id: Option<string>, random: string): (st: AuthState)
    ensures st.isAuthenticated && Truthy(st.token)
    ensures st.user.Some? && st.user.value.id == id && st.user.value.username == Some(SignupUsername)
    ensures st.user.value.name == Some(name) && st.user.value.email == Some(email)
    ensures st.user.value.preferences.None?
  {
    AuthState(Some(User(id, Some(name), Some(email), Some(SignupUsername), None)), true, Some(TokenPrefix + random))
  }

  /** The provider: its state and the two local-storage keys, "user" and
      "token" (the stored user stands for its JSON text). */
  class AuthProvider {
    var state: AuthState
    var storedUser: Option<User>
    var storedToken: Option<string>

    /** What the storage effect leaves behind: "user" is held exactly when
        there is a user, "token" exactly when the token is truthy. */
    ghost predicate Synced()
      reads this
    {
      && storedUser == state.user
      && storedToken == (if Truthy(state.token) then state.token else None)
    }

    /** The effect on `authState`: write the user and the token, or remove them. */
    method Sync()
      modifies this
      ensures state == old(state) && Synced()
    {
      storedUser := state.user;
      storedToken := if Truthy(state.token) then state.token else None;
    }

    /** Mounting: the state initialiser, then the storage effect. */
    constructor (storedUser: Option<User>, storedToken: Option<string>)
      ensures state == InitialState(storedUser, storedToken)
      ensures Synced()
    {
      state := InitialState(storedUser, storedToken);
      this.storedUser := storedUser;
      this.storedToken := if Truthy(storedToken) then storedToken else None;
    }

    /** `login`. `reply` is the endpoint's parsed answer (None when the
        request fails, the response is not ok or its body is not JSON) and
        `random` the token's random suffix. */
    method Login(email: string, reply: Option<LoginReply>, random: string) returns (ok: bool)
      requires Synced()
      modifies this
      ensures Synced()
      ensures ok == reply.Some?
      ensures state == if reply.Some? then LoggedIn(email, reply.value, random) else old(state)
    {
      if reply.None? {
        return false;
      }
      state := LoggedIn(email, reply.value, random);
      Sync();
      ok := true;
    }

    /** `signup`. `reply` is the endpoint's parsed answer (None when the
        request fails, the response is not ok or its body is not JSON); a
        reply without an id still signs the user up. */
    method Signup(email: string, name: string, reply: Option<SignupReply>, random: string) returns (ok: bool)
      requires Synced()
      modifies this
      ensures Synced()
      ensures ok == reply.Some?
      ensures state == if reply.Some? then SignedUp(email, name, reply.value.id, random) else old(state)
    {
      if reply.None? {
        return false;
      }
      state := SignedUp(email, name, reply.value.id, random);
      Sync();
      ok := true;
    }

    /** `logout`: no user, not authenticated, no token, and both keys removed. */
    method Logout()
      modifies this
      ensures state == LoggedOut && Synced()
      ensures storedUser.None? && storedToken.None?
    {
      state := LoggedOut;
      Sync();
    }

    /** `updatePreferences`. */
    method UpdatePreferences(category: string)
      requires Synced()
      modifies this
      ensures Synced()
      ensures state == WithPreference(old(state), category)
    {
      if state.user.None? {
        return;
      }
      state := WithPreference(state, category);
      Sync();
    }
  }
}
