/** The sign-up endpoint (mlOps/news-nuggets/lambda/signup.py): a request
    with a name, an email and a password becomes one user record, keyed by a
    fresh id and holding a fresh salt and the salted password hash, written
    into the users table. The id, the salt and SHA-256 are parameters; the
    table is an object whose items the handler updates. */
module SignupLambda {
  import opened Wrappers
  import opened JsonValue
  import LoginLambda

  const MissingFields: string := "Missing fields"
  const Registered: string := "User registered successfully"

  /** What the handler ends in: a status code and the JSON body, or an
      exception, which this handler does not catch. */
  datatype Outcome = Reply(statusCode: int, body: Json) | Raised

  /** The record `put_item` writes. */
  function UserItem(userId: string, email: Json, name: Json, salt: string, hashed: string): (item: map<string, Json>)
    ensures item.Keys == {"id", "email", "name", "salt", "password"}
    ensures item["id"] == JStr(userId) && item["email"] == email && item["name"] == name
    ensures item["salt"] == JStr(salt) && item["password"] == JStr(hashed)
  {
    map["id" := JStr(userId), "email" := email, "name" := name, "salt" := JStr(salt), "password" := JStr(hashed)]
  }

  /** The decision the handler takes before it writes: the record to store
      and the reply, or the 400 reply with nothing to store, or an
      exception. `body` is `json.loads(event['body'])` (None when there is
      no body or it is not JSON); `userId` is the fresh uuid and `salt` the
      fresh base64 salt. */
  datatype Decision = Store(item: map<string, Json>, reply: Outcome) | Answer(reply: Outcome)

  function Decide(body: Option<Json>, userId: string, salt: string, hash: string -> string): (d: Decision)
    ensures body.None? || !body.value.JObj? ==> d == Answer(Raised)
    ensures d.Answer? && d.reply.Reply? <==>
      body.Some? && body.value.JObj?
      && !(Truthy(LoginLambda.Field(body.value, "name")) && Truthy(LoginLambda.Field(body.value, "email"))
           && Truthy(LoginLambda.Field(body.value, "password")))
    ensures d.Answer? && d.reply.Reply? ==> d.reply == Reply(400, LoginLambda.Message(MissingFields))
    ensures d.Store? <==>
      && body.Some? && body.value.JObj?
      && Truthy(LoginLambda.Field(body.value, "name")) && Truthy(LoginLambda.Field(body.value, "email"))
      && LoginLambda.Field(body.value, "password").JStr? && LoginLambda.Field(body.value, "password").s != ""
    ensures d.Store? ==>
      && d.item == UserItem(userId, LoginLambda.Field(body.value, "email"), LoginLambda.Field(body.value, "name"),
                            salt, hash(salt + LoginLambda.Field(body.value, "password").s))
      && d.reply == Reply(200, JObj(map["message" := JStr(Registered), "id" := JStr(userId)]))
  {
    if body.None? || !body.value.JObj? then Answer(Raised)
    else
      var name := LoginLambda.Field(body.value, "name");
      var email := LoginLambda.Field(body.value, "email");
      var password := LoginLambda.Field(body.value, "password");
      if !Truthy(name) || !Truthy(email) || !Truthy(password) then Answer(Reply(400, LoginLambda.Message(MissingFields)))
      else
        match LoginLambda.HashPassword(password, JStr(salt), hash)
        case None => Answer(Raised)
        case Some(hashed) =>
          Store(UserItem(userId, email, name, salt, hashed),
                Reply(200, JObj(map["message" := JStr(Registered), "id" := JStr(userId)])))
  }

  /** The users table: its items by their `id` key. */
  class UsersTable {
    var items: map<string, map<string, Json>>

    constructor(items: map<string, map<string, Json>>)
      ensures this.items == items
    {
      this.items := items;
    }

    /** `table.put_item(Item=item)`: the item replaces any item with its
        key. */
    method PutItem(item: map<string, Json>)
      requires "id" in item && item["id"].JStr?
      modifies this
      ensures items == old(items)[item["id"].s := item]
    {
      items := items[item["id"].s := item];
    }
  }

  /** `lambda_handler`: the record is written exactly when the decision is
      to store one, and the table is otherwise unchanged. */
  method LambdaHandler(table: UsersTable, body: Option<Json>, userId: string, salt: string, hash: string -> string)
    returns (outcome: Outcome)
    modifies table
    ensures var d := Decide(body, userId, salt, hash);
      && outcome == d.reply
      && (d.Store? ==> table.items == old(table.items)[userId := d.item])
      && (d.Answer? ==> table.items == old(table.items))
  {
    var d := Decide(body, userId, salt, hash);
    if d.Answer? {
      return d.reply;
    }
    table.PutItem(d.item);
    outcome := d.reply;
  }

  /** No existing-email check: two sign-ups with the same email and fresh
      ids leave two records with that email in the table. */
  lemma SameEmailTwice(items: map<string, map<string, Json>>, body1: Json, body2: Json,
                       id1: string, id2: string, salt1: string, salt2: string, hash: string -> string)
    requires id1 != id2
    requires Decide(Some(body1), id1, salt1, hash).Store? && Decide(Some(body2), id2, salt2, hash).Store?
    requires LoginLambda.Field(body1, "email") == LoginLambda.Field(body2, "email")
    ensures var after := items[id1 := Decide(Some(body1), id1, salt1, hash).item][id2 := Decide(Some(body2), id2, salt2, hash).item];
      && id1 in after && id2 in after
      && after[id1]["email"] == after[id2]["email"] == LoginLambda.Field(body1, "email")
  {
  }

  /** Round trip: when the scan finds the record a sign-up stored, logging in
      with the same email and password succeeds, and returns that record's
      id and name. */
  lemma SignupThenLogin(signup: Json, userId: string, salt: string, hash: string -> string,
                        login: Json, scan: Json -> Result<seq<Json>, string>)
    requires Decide(Some(signup), userId, salt, hash).Store?
    requires login.JObj?
    requires LoginLambda.Field(login, "email") == LoginLambda.Field(signup, "email")
    requires LoginLambda.Field(login, "password") == LoginLambda.Field(signup, "password")
    requires var found := scan(LoginLambda.Field(login, "email"));
      found.Ok? && |found.value| > 0 && found.value[0] == JObj(Decide(Some(signup), userId, salt, hash).item)
    ensures LoginLambda.LambdaHandler(Some(login), scan, hash)
         == LoginLambda.Reply(200, JObj(map["message" := JStr(LoginLambda.LoginSuccessful),
                                            "user_id" := JStr(userId),
                                            "name" := LoginLambda.Field(signup, "name")]))
  {
    var item := Decide(Some(signup), userId, salt, hash).item;
    var user := JObj(item);
    assert LoginLambda.PasswordMatches(user, LoginLambda.Field(login, "password"), hash);
  }

  /** And only the right password does, when the hash tells the two
      passwords apart. */
  lemma SignupThenWrongPassword(signup: Json, userId: string, salt: string, hash: string -> string,
                                login: Json, scan: Json -> Result<seq<Json>, string>)
    requires Decide(Some(signup), userId, salt, hash).Store?
    requires login.JObj? && LoginLambda.Field(login, "password").JStr? && LoginLambda.Field(login, "password").s != ""
    requires LoginLambda.Field(login, "email") == LoginLambda.Field(signup, "email")
    requires hash(salt + LoginLambda.Field(login, "password").s) != hash(salt + LoginLambda.Field(signup, "password").s)
    requires var found := scan(LoginLambda.Field(login, "email"));
      found.Ok? && |found.value| > 0 && found.value[0] == JObj(Decide(Some(signup), userId, salt, hash).item)
    ensures LoginLambda.LambdaHandler(Some(login), scan, hash)
         == LoginLambda.Reply(401, LoginLambda.Message(LoginLambda.InvalidCredentials))
  {
  }
}
