/** The mock authentication service of the old news app
    (NewsAppOld/src/services/mockAuthService.ts): an in-memory user table
    that sign-up appends to, sessions that last a day, the two storage keys
    for the current user and session, and the auth-change listeners. */
module MockAuth {
  import opened Wrappers
  import opened Strings
  import opened Seqs

  /** `MockUser`. */
  datatype MockUser = MockUser(id: string, email: string, password: string)

  /** The session `createMockSession` builds; timestamps are milliseconds. */
  datatype Session = Session(
    accessToken: string,
    refreshToken: string,
    userId: string,
    email: string,
    aud: string,
    role: string,
    emailConfirmedAt: int,
    expiresAt: int)

  /** A registered listener, identified as the callback itself is. */
  type Listener = nat

  /** One call of a listener: the event name and the session passed. */
  datatype Notification = Notification(listener: Listener, event: string, session: Session)

  const SessionMillis: int := 3600 * 1000 * 24
  const UserExistsMessage: string := "User already exists with this email"
  const InvalidCredentialsMessage: string := "Invalid login credentials"
  const SignedInEvent: string := "SIGNED_IN"

  /** The table the module starts with. */
  const InitialUsers: seq<MockUser> := [MockUser("user-1", "user@example.com", "password123")]

  /** `createMockSession(user)` at time `now`: tokens stamped with the time,
      the user's id and e-mail, and an expiry a day later. */
  function CreateMockSession(user: MockUser, now: nat): (s: Session)
    ensures s.userId == user.id && s.email == user.email
    ensures s.expiresAt - now == SessionMillis
  {
    Session("mock_token_" + NatToString(now), "mock_refresh_" + NatToString(now),
            user.id, user.email, "authenticated", "authenticated", now, now + SessionMillis)
  }

  /** The session is past its expiry at `now` (not yet at the expiry instant). */
  predicate Expired(s: Session, now: int) {
    s.expiresAt < now
  }

  /** A session made at `t` is still good at `now` exactly when `now` is no
      more than a day after `t`. */
  lemma SessionLifetime(user: MockUser, t: nat, now: int)
    ensures !Expired(CreateMockSession(user, t), now) <==> now <= t + SessionMillis
  {
  }

  /** The id the `n`-th user (counting from 1) is given. */
  function UserId(n: nat): string {
    "user-" + NatToString(n)
  }

  /** The table's invariant: user `i` has id "user-(i+1)" and no two users
      share an e-mail address. */
  ghost predicate WellFormedTable(users: seq<MockUser>) {
    && (forall i :: 0 <= i < |users| ==> users[i].id == UserId(i + 1))
    && (forall i, j :: 0 <= i < j < |users| ==> users[i].email != users[j].email)
  }

  /** `mockUsers.find(u => u.email === email && u.password === password)`. */
  function FindUser(users: seq<MockUser>, email: string, password: string): (r: Option<MockUser>)
    ensures r.Some? ==> r.value in users && r.value.email == email && r.value.password == password
    ensures r.None? <==> forall u :: u in users ==> !(u.email == email && u.password == password)
  {
    match FirstIndex(users, (u: MockUser) => u.email == email && u.password == password)
    case None => None
    case Some(i) => Some(users[i])
  }

  /** Whether some user has this e-mail (`mockUsers.find(u => u.email === email)`). */
  predicate EmailTaken(users: seq<MockUser>, email: string) {
    FirstIndex(users, (u: MockUser) => u.email == email).Some?
  }

  lemma EmailTakenSpec(users: seq<MockUser>, email: string)
    ensures EmailTaken(users, email) <==> exists u :: u in users && u.email == email
  {
    if !EmailTaken(users, email) {
      forall u | u in users ensures u.email != email {
        var i :| 0 <= i < |users| && users[i] == u;
      }
    }
  }

  /** Appending a user with a fresh e-mail and the next id keeps the table
      well formed. */
  lemma AppendKeepsTable(users: seq<MockUser>, email: string, password: string)
    requires WellFormedTable(users) && !EmailTaken(users, email)
    ensures WellFormedTable(users + [MockUser(UserId(|users| + 1), email, password)])
  {
    EmailTakenSpec(users, email);
    var r := users + [MockUser(UserId(|users| + 1), email, password)];
    forall i, j | 0 <= i < j < |r| ensures r[i].email != r[j].email {
      if j == |users| {
        assert r[i] in users;
      }
    }
  }

  /** After a sign-up with a fresh e-mail, signing in with the same
      credentials finds the new user. */
  lemma SignInAfterSignUp(users: seq<MockUser>, email: string, password: string)
    requires !EmailTaken(users, email)
    ensures var u := MockUser(UserId(|users| + 1), email, password);
      FindUser(users + [u], email, password) == Some(u)
  {
    EmailTakenSpec(users, email);
  }

  /** The module's state: the user table, the two storage keys and the
      listener list, plus the calls made to listeners so far. */
  class AuthService {
    var users: seq<MockUser>
    var storedUser: Option<MockUser>
    var storedSession: Option<Session>
    var listeners: seq<Listener>
    var notifications: seq<Notification>

    ghost predicate Valid()
      reads this
    {
      |users| >= 1 && WellFormedTable(users)
    }

    /** The module as loaded, with whatever storage already holds. */
    constructor (storedUser: Option<MockUser>, storedSession: Option<Session>)
      ensures Valid()
      ensures users == InitialUsers && listeners == [] && notifications == []
      ensures this.storedUser == storedUser && this.storedSession == storedSession
    {
      users := InitialUsers;
      this.storedUser := storedUser;
      this.storedSession := storedSession;
      listeners := [];
      notifications := [];
    }

    /** `mockSignUp(email, password)` at time `now`. A taken e-mail is an
        error and changes nothing; otherwise exactly one user is appended,
        with the next id, and it and its new session are stored. */
    method SignUp(email: string, password: string, now: nat) returns (r: Result<(Session, MockUser), string>)
      requires Valid()
      modifies this
      ensures Valid()
      ensures listeners == old(listeners) && notifications == old(notifications)
      ensures r.Err? <==> exists u :: u in old(users) && u.email == email
      ensures r.Err? ==>
        && r.error == UserExistsMessage
        && users == old(users) && storedUser == old(storedUser) && storedSession == old(storedSession)
      ensures r.Ok? ==>
        var u := MockUser(UserId(|old(users)| + 1), email, password);
        && users == old(users) + [u]
        && r.value == (CreateMockSession(u, now), u)
        && storedUser == Some(u) && storedSession == Some(r.value.0)
    {
      EmailTakenSpec(users, email);
      if EmailTaken(users, email) {
        return Err(UserExistsMessage);
      }
      var newUser := MockUser(UserId(|users| + 1), email, password);
      AppendKeepsTable(users, email, password);
      users := users + [newUser];
      var session := CreateMockSession(newUser, now);
      storedSession := Some(session);
      storedUser := Some(newUser);
      r := Ok((session, newUser));
    }

    /** `mockSignIn(email, password)` at time `now`: the first user with
        both matching, stored with a new session; otherwise an error and no
        change. */
    method SignIn(email: string, password: string, now: nat) returns (r: Result<(Session, MockUser), string>)
      modifies this
      ensures users == old(users) && listeners == old(listeners) && notifications == old(notifications)
      ensures r.Err? <==> FindUser(users, email, password).None?
      ensures r.Err? ==>
        r.error == InvalidCredentialsMessage && storedUser == old(storedUser) && storedSession == old(storedSession)
      ensures r.Ok? ==>
        var u := FindUser(users, email, password).value;
        && r.value == (CreateMockSession(u, now), u)
        && storedUser == Some(u) && storedSession == Some(r.value.0)
    {
      var found := FindUser(users, email, password);
      if found.None? {
        return Err(InvalidCredentialsMessage);
      }
      var session := CreateMockSession(found.value, now);
      storedSession := Some(session);
      storedUser := Some(found.value);
      r := Ok((session, found.value));
    }

    /** `mockSignOut`: both keys removed. */
    method SignOut()
      modifies this
      ensures storedUser.None? && storedSession.None?
      ensures users == old(users) && listeners == old(listeners) && notifications == old(notifications)
    {
      storedUser := None;
      storedSession := None;
    }

    /** `mockGetSession` at time `now`: an expired session is deleted and
        not returned; otherwise the stored one (if any) comes back. */
    method GetSession(now: int) returns (session: Option<Session>)
      modifies this
      ensures old(storedSession).Some? && Expired(old(storedSession).value, now) ==>
        session.None? && storedSession.None?
      ensures !(old(storedSession).Some? && Expired(old(storedSession).value, now)) ==>
        session == old(storedSession) && storedSession == old(storedSession)
      ensures users == old(users) && storedUser == old(storedUser)
      ensures listeners == old(listeners) && notifications == old(notifications)
    {
      if storedSession.Some? && Expired(storedSession.value, now) {
        storedSession := None;
        return None;
      }
      session := storedSession;
    }

    /** `mockOnAuthStateChange(callback)`: the callback joins the list. */
    method Subscribe(callback: Listener)
      modifies this
      ensures listeners == old(listeners) + [callback]
      ensures users == old(users) && storedUser == old(storedUser) && storedSession == old(storedSession)
      ensures notifications == old(notifications)
    {
      listeners := listeners + [callback];
    }

    /** `unsubscribe`: every registration of the callback goes, the other
        listeners stay, in order and as often as they were registered. */
    method Unsubscribe(callback: Listener)
      modifies this
      ensures listeners == Filter(old(listeners), (l: Listener) => l != callback)
      ensures users == old(users) && storedUser == old(storedUser) && storedSession == old(storedSession)
      ensures notifications == old(notifications)
    {
      listeners := Filter(listeners, (l: Listener) => l != callback);
    }

    /** `mockGoogleSignIn` at time `now`: the first user of the table is
        stored with a new session, and every registered listener is told
        "SIGNED_IN" once, in registration order. */
    method GoogleSignIn(now: nat) returns (session: Session)
      requires Valid()
      modifies this
      ensures Valid()
      ensures session == CreateMockSession(users[0], now)
      ensures storedUser == Some(users[0]) && storedSession == Some(session)
      ensures users == old(users) && listeners == old(listeners)
      ensures notifications == old(notifications) + Notify(listeners, SignedInEvent, session)
    {
      var defaultUser := users[0];
      session := CreateMockSession(defaultUser, now);
      storedSession := Some(session);
      storedUser := Some(defaultUser);
      var sent := NotifyEach(listeners, SignedInEvent, session);
      notifications := notifications + sent;
    }
  }

  /** The calls made by telling each listener in turn. */
  function Notify(ls: seq<Listener>, event: string, session: Session): (r: seq<Notification>)
    ensures |r| == |ls|
    ensures forall i :: 0 <= i < |ls| ==> r[i] == Notification(ls[i], event, session)
  {
    if ls == [] then [] else [Notification(ls[0], event, session)] + Notify(ls[1..], event, session)
  }

  /** `listeners.forEach(listener => listener(event, session))`: the calls
      made, in order. */
  method NotifyEach(ls: seq<Listener>, event: string, session: Session) returns (sent: seq<Notification>)
    ensures sent == Notify(ls, event, session)
  {
    sent := [];
    var i := 0;
    while i < |ls|
      invariant 0 <= i <= |ls|
      invariant sent == Notify(ls[..i], event, session)
    {
      assert ls[..i + 1] == ls[..i] + [ls[i]];
      NotifyAppend(ls[..i], [ls[i]], event, session);
      sent := sent + [Notification(ls[i], event, session)];
      i := i + 1;
    }
    assert ls[..i] == ls;
  }

  lemma NotifyAppend(a: seq<Listener>, b: seq<Listener>, event: string, session: Session)
    ensures Notify(a + b, event, session) == Notify(a, event, session) + Notify(b, event, session)
  {
  }

  /** What unsubscribing leaves: the callback is gone, every other listener
      keeps its number of registrations and their order. */
  lemma UnsubscribeSpec(ls: seq<Listener>, callback: Listener)
    ensures var r := Filter(ls, (l: Listener) => l != callback);
      && callback !in r
      && (forall l :: l != callback ==> multiset(r)[l] == multiset(ls)[l])
      && IsSubseq(r, ls)
  {
    var keep := (l: Listener) => l != callback;
    FilterSpec(ls, keep);
    var r := Filter(ls, keep);
    forall l | l != callback ensures multiset(r)[l] == multiset(ls)[l] {
      if l !in ls {
        assert l !in r;
      }
    }
  }
}
