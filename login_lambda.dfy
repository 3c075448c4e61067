/** The login endpoint (mlOps/news-nuggets/lambda/login.py): the request's
    email and password are checked against the first user record the table
    scan returns for that email, by recomputing the salted password hash.
    The scan and SHA-256 are parameters. */
module LoginLambda {
  import opened Wrappers
  import opened JsonValue

  const MissingCredentials: string := "Missing email or password"
  const InvalidCredentials: string := "Invalid credentials"
  const LoginSuccessful: string := "Login successful"

  /** What the handler returns: a status code and the JSON body, or status
      500 with `{'message': 'Internal server error', 'error': str(e)}`,
      where the text of `e` is known only for some exceptions. */
  datatype Reply = Reply(statusCode: int, body: Json) | InternalError(error: Option<string>)

  /** The body `{'message': m}`. */
  function Message(m: string): Json {
    JObj(map["message" := JStr(m)])
  }

  /** `hash_password(password, salt)`: the hash of the salt followed by the
      password; anything but two strings raises (None). `hash` is SHA-256's
      hex digest. */
  function HashPassword(password: Json, salt: Json, hash: string -> string): (r: Option<string>)
    ensures r.Some? <==> password.JStr? && salt.JStr?
    ensures r.Some? ==> r.value == hash(salt.s + password.s)
  {
    if password.JStr? && salt.JStr? then Some(hash(salt.s + password.s)) else None
  }

  /** `str(e)` of the KeyError raised by `user[key]`: the quoted key when
      `user` is a dictionary (otherwise a TypeError, whose text is not
      modelled). */
  function KeyErrorText(user: Json, key: string): Option<string> {
    if user.JObj? then Some("'" + key + "'") else None
  }

  /** `body.get(key)`: Python's None when the key is absent. */
  function Field(body: Json, key: string): Json
    requires body.JObj?
  {
    Get(body, key).GetOr(JNull)
  }

  /** The stored record has a salt and a stored hash, and hashing the
      password with that salt gives the stored hash. */
  predicate PasswordMatches(user: Json, password: Json, hash: string -> string) {
    && Index(user, "salt").Some? && Index(user, "password").Some?
    && HashPassword(password, Index(user, "salt").value, hash).Some?
    && Index(user, "password").value == JStr(HashPassword(password, Index(user, "salt").value, hash).value)
  }

  /** The request body is a dictionary with a truthy email and password,
      so the handler goes on to the scan. */
  predicate Asked(body: Option<Json>) {
    body.Some? && body.value.JObj? && Truthy(Field(body.value, "email")) && Truthy(Field(body.value, "password"))
  }

  /** `lambda_handler`. `body` is `json.loads(event['body'])`, None when the
      event has no body or it is not JSON; `scan` answers an email with the
      items whose email equals it, or the text of the exception it raised. */
  function LambdaHandler(body: Option<Json>, scan: Json -> Result<seq<Json>, string>, hash: string -> string): (r: Reply)
    ensures body.None? || !body.value.JObj? ==> r == InternalError(None)
    ensures r.Reply? ==> r.statusCode == 200 || r.statusCode == 400 || r.statusCode == 401
    ensures r.Reply? && r.statusCode == 400 <==>
      body.Some? && body.value.JObj? && !(Truthy(Field(body.value, "email")) && Truthy(Field(body.value, "password")))
    ensures r.Reply? && r.statusCode == 400 ==> r.body == Message(MissingCredentials)
    ensures r.Reply? && r.statusCode == 401 ==> r.body == Message(InvalidCredentials)
    ensures r.Reply? && r.statusCode == 200 <==>
      && body.Some? && body.value.JObj?
      && Truthy(Field(body.value, "email")) && Truthy(Field(body.value, "password"))
      && scan(Field(body.value, "email")).Ok? && |scan(Field(body.value, "email")).value| > 0
      && var user := scan(Field(body.value, "email")).value[0];
         PasswordMatches(user, Field(body.value, "password"), hash) && Index(user, "id").Some? && Index(user, "name").Some?
    ensures r.Reply? && r.statusCode == 200 ==>
      var user := scan(Field(body.value, "email")).value[0];
      r.body == JObj(map["message" := JStr(LoginSuccessful), "user_id" := user.fields["id"], "name" := user.fields["name"]])
    ensures Asked(body) && scan(Field(body.value, "email")).Err? ==>
      r == InternalError(Some(scan(Field(body.value, "email")).error))
    ensures Asked(body) && scan(Field(body.value, "email")) == Ok([]) ==>
      r == Reply(401, Message(InvalidCredentials))
    ensures Asked(body) && scan(Field(body.value, "email")).Ok? && |scan(Field(body.value, "email")).value| > 0 ==>
      var user := scan(Field(body.value, "email")).value[0];
      var password := Field(body.value, "password");
      && (Index(user, "salt").None? ==> r == InternalError(KeyErrorText(user, "salt")))
      && (Index(user, "salt").Some? && Index(user, "password").None? ==> r == InternalError(KeyErrorText(user, "password")))
      && (Index(user, "salt").Some? && Index(user, "password").Some? ==>
            var inputHash := HashPassword(password, Index(user, "salt").value, hash);
            && (inputHash.None? ==> r == InternalError(None))
            && (inputHash.Some? && Index(user, "password").value != JStr(inputHash.value) ==>
                  r == Reply(401, Message(InvalidCredentials))))
      && (PasswordMatches(user, password, hash) && Index(user, "id").None? ==> r == InternalError(KeyErrorText(user, "id")))
      && (PasswordMatches(user, password, hash) && Index(user, "id").Some? && Index(user, "name").None? ==>
            r == InternalError(KeyErrorText(user, "name")))
  {
    if body.None? || !body.value.JObj? then InternalError(None)
    else
      var email := Field(body.value, "email");
      var password := Field(body.value, "password");
      if !Truthy(email) || !Truthy(password) then Reply(400, Message(MissingCredentials))
      else
        match scan(email)
        case Err(e) => InternalError(Some(e))
        case Ok(items) =>
          if |items| == 0 then Reply(401, Message(InvalidCredentials))
          else
            var user := items[0];
            var salt := Index(user, "salt");
            var storedHash := Index(user, "password");
            if salt.None? then InternalError(KeyErrorText(user, "salt"))
            else if storedHash.None? then InternalError(KeyErrorText(user, "password"))
            else
              var inputHash := HashPassword(password, salt.value, hash);
              if inputHash.None? then InternalError(None)
              else if storedHash.value != JStr(inputHash.value) then Reply(401, Message(InvalidCredentials))
              else
                var id := Index(user, "id");
                var name := Index(user, "name");
                if id.None? then InternalError(KeyErrorText(user, "id"))
                else if name.None? then InternalError(KeyErrorText(user, "name"))
                else Reply(200, JObj(map["message" := JStr(LoginSuccessful), "user_id" := id.value, "name" := name.value]))
  }

  /** A wrong password gets exactly the answer an unknown email gets: the
      response does not tell which of the two was wrong. */
  lemma WrongPasswordLikeUnknownEmail(body: Json, scan: Json -> Result<seq<Json>, string>,
                                      other: Json -> Result<seq<Json>, string>, hash: string -> string)
    requires body.JObj?
    requires var email := Field(body, "email");
      && scan(email).Ok? && |scan(email).value| > 0
      && var user := scan(email).value[0];
         && Index(user, "salt").Some? && Index(user, "password").Some?
         && HashPassword(Field(body, "password"), Index(user, "salt").value, hash).Some?
         && !PasswordMatches(user, Field(body, "password"), hash)
    requires other(Field(body, "email")) == Ok([])
    ensures LambdaHandler(Some(body), scan, hash) == LambdaHandler(Some(body), other, hash)
  {
  }
}
