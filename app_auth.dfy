/** The authentication state of the news-app web app
    (app/news-app/src/contexts/AuthContext.tsx): the state restored from
    local storage on mount, login and sign-up with their preference
    initialisation, logout, and the preference counter, which updates the
    user's preference object in place. */
module AppAuth {
  import opened Wrappers
  import opened PreferenceCounts

  /** A user's preference object. The user copies made by
      `{ ...authState.user }` share it, so it is a heap object. */
  class Preferences {
    var counts: map<string, int>

    constructor (counts: map<string, int>)
      ensures this.counts == counts
    {
      this.counts := counts;
    }
  }

  /** A user as the state holds it. */
  datatype User = User(id: string, name: Option<string>, email: Option<string>, username: string,
                       preferences: Option<Preferences>)

  /** A user as JSON text holds it (the "user_data" key, a login reply). */
  datatype UserData = UserData(id: string, name: Option<string>, email: Option<string>, username: string,
                               preferences: Option<map<string, int>>)

  /** The reply of the login and sign-up endpoints. */
  datatype AuthReply = AuthReply(token: string, user: UserData)

  /** The objects a user's JSON text depends on. */
  function PreferenceObjects(u: Option<User>): set<object> {
    if u.Some? && u.value.preferences.Some? then {u.value.preferences.value} else {}
  }

  /** `JSON.stringify(user)`, read back. */
  function Serialize(u: User): (d: UserData)
    reads PreferenceObjects(Some(u))
    ensures d.id == u.id && d.name == u.name && d.email == u.email && d.username == u.username
    ensures d.preferences.Some? <==> u.preferences.Some?
    ensures u.preferences.Some? ==> d.preferences.value == u.preferences.value.counts
  {
    UserData(u.id, u.name, u.email, u.username,
             if u.preferences.Some? then Some(u.preferences.value.counts) else None)
  }

  /** `JSON.parse(userData)`: a user with a fresh preference object. */
  method Parse(d: UserData) returns (u: User)
    ensures Serialize(u) == d
    ensures u.preferences.Some? ==> fresh(u.preferences.value)
  {
    var prefs: Option<Preferences> := None;
    if d.preferences.Some? {
      var p := new Preferences(d.preferences.value);
      prefs := Some(p);
    }
    u := User(d.id, d.name, d.email, d.username, prefs);
  }

  /** A stored string is truthy: present and not empty. */
  predicate Truthy(s: Option<string>) {
    s.Some? && s.value != ""
  }

  /** The provider: its state and the local-storage keys "auth_token" and
      "user_data". */
  class AuthProvider {
    var user: Option<User>
    var isAuthenticated: bool
    var token: Option<string>
    var storedToken: Option<string>
    var storedUserData: Option<UserData>

    /** A user is present exactly when authenticated, and then storage holds
        the token and the user's JSON text as they are in the state. */
    ghost predicate Valid()
      reads this, PreferenceObjects(user)
    {
      && (user.Some? <==> isAuthenticated)
      && (isAuthenticated ==>
            && token.Some? && storedToken == token
            && storedUserData == Some(Serialize(user.value)))
    }

    /** `initialState`, with whatever storage already holds. */
    constructor (storedToken: Option<string>, storedUserData: Option<UserData>)
      ensures Valid()
      ensures user.None? && !isAuthenticated && token.None?
      ensures this.storedToken == storedToken && this.storedUserData == storedUserData
    {
      user := None;
      isAuthenticated := false;
      token := None;
      this.storedToken := storedToken;
      this.storedUserData := storedUserData;
    }

    /** The mount effect: authenticated from storage only when both a token
        and user data are stored; the stored preference map, if any, comes
        back as it was and is not initialised. */
    method Mount()
      requires Valid()
      modifies this
      ensures Valid()
      ensures storedToken == old(storedToken) && storedUserData == old(storedUserData)
      ensures Truthy(storedToken) && storedUserData.Some? ==>
        && isAuthenticated && token == storedToken
        && user.Some? && Serialize(user.value) == storedUserData.value
      ensures !(Truthy(storedToken) && storedUserData.Some?) ==>
        user == old(user) && isAuthenticated == old(isAuthenticated) && token == old(token)
    {
      if Truthy(storedToken) && storedUserData.Some? {
        var u := Parse(storedUserData.value);
        user, isAuthenticated, token := Some(u), true, storedToken;
      }
    }

    /** What `login` and `signup` share: store the token and the user's JSON
        text, then authenticate with that user. */
    method Authenticate(reply: AuthReply, prefs: map<string, int>)
      modifies this
      ensures Valid()
      ensures isAuthenticated && token == Some(reply.token) && storedToken == Some(reply.token)
      ensures user.Some? && Serialize(user.value) == reply.user.(preferences := Some(prefs))
      ensures fresh(user.value.preferences.value)
    {
      var u := Parse(reply.user.(preferences := Some(prefs)));
      storedToken := Some(reply.token);
      storedUserData := Some(Serialize(u));
      user, isAuthenticated, token := Some(u), true, Some(reply.token);
    }

    /** `login`: a missing preference map becomes `{}`; an existing one is
        kept. A failed request (None) throws and changes nothing. */
    method Login(reply: Option<AuthReply>) returns (ok: bool)
      requires Valid()
      modifies this
      ensures Valid()
      ensures ok == reply.Some?
      ensures reply.None? ==>
        user == old(user) && isAuthenticated == old(isAuthenticated) && token == old(token)
        && storedToken == old(storedToken) && storedUserData == old(storedUserData)
      ensures reply.Some? ==>
        && isAuthenticated && token == Some(reply.value.token)
        && user.Some? && Serialize(user.value) == reply.value.user.(preferences := Some(reply.value.user.preferences.GetOr(map[])))
    {
      if reply.None? {
        return false;
      }
      Authenticate(reply.value, reply.value.user.preferences.GetOr(map[]));
      ok := true;
    }

    /** `signup`: the preference map is always reset to `{}`. */
    method Signup(reply: Option<AuthReply>) returns (ok: bool)
      requires Valid()
      modifies this
      ensures Valid()
      ensures ok == reply.Some?
      ensures reply.None? ==>
        user == old(user) && isAuthenticated == old(isAuthenticated) && token == old(token)
        && storedToken == old(storedToken) && storedUserData == old(storedUserData)
      ensures reply.Some? ==>
        && isAuthenticated && token == Some(reply.value.token)
        && user.Some? && Serialize(user.value) == reply.value.user.(preferences := Some(map[]))
    {
      if reply.None? {
        return false;
      }
      Authenticate(reply.value, map[]);
      ok := true;
    }

    /** `logout`: both keys removed and `initialState` restored. */
    method Logout()
      modifies this
      ensures Valid()
      ensures user.None? && !isAuthenticated && token.None?
      ensures storedToken.None? && storedUserData.None?
    {
      storedToken := None;
      storedUserData := None;
      user, isAuthenticated, token := None, false, None;
    }

    /** `updatePreferences`. Without a user nothing changes. Otherwise the
        category's count goes up by one (from 0), every other count stays,
        and the new user's JSON text is stored. The user keeps its
        preference object, which is changed in place, so the user the state
        held before sees the new counts too; a user without one is given a
        fresh object. */
    method UpdatePreferences(category: string)
      requires Valid()
      modifies this, PreferenceObjects(user)
      ensures Valid()
      ensures old(user).None? ==>
        user == old(user) && storedUserData == old(storedUserData)
      ensures old(user).Some? ==>
        && user.Some? && user.value == old(user).value.(preferences := user.value.preferences)
        && user.value.preferences.Some?
        && user.value.preferences.value.counts ==
             Increment(if old(user).value.preferences.Some? then old(user.value.preferences.value.counts) else map[], category)
        && (old(user).value.preferences.Some? ==> user.value.preferences == old(user).value.preferences)
        && (old(user).value.preferences.None? ==> fresh(user.value.preferences.value))
      ensures isAuthenticated == old(isAuthenticated) && token == old(token) && storedToken == old(storedToken)
    {
      if user.None? {
        return;
      }
      var prefs: Preferences;
      if user.value.preferences.Some? {
        prefs := user.value.preferences.value;
      } else {
        prefs := new Preferences(map[]);
      }
      prefs.counts := Increment(prefs.counts, category);
      var updated := user.value.(preferences := Some(prefs));
      storedUserData := Some(Serialize(updated));
      user := Some(updated);
    }
  }
}
