/**
 * The user lifecycle handlers of internal/handlers/users.go: registration,
 * which stores a user and issues an activation token, and activation, which
 * flips a stored user's `active` flag once.
 */
module Users {
  import opened Wrappers
  import opened Config
  import opened Token
  import opened Models
  import opened Http
  import opened Store

  /**
   * How the users table may evolve: rows are only appended, and a stored row
   * changes at most by its `active` flag going from false to true.
   */
  predicate OnlyActivates(before: seq<User>, after: seq<User>)
  {
    |before| <= |after|
    && forall k :: 0 <= k < |before| ==>
         after[k] == before[k] || (!before[k].active && after[k] == before[k].(active := true))
  }

  /** Several handler calls in a row still only append and activate: no path ever deactivates a user. */
  lemma OnlyActivatesTransitive(a: seq<User>, b: seq<User>, c: seq<User>)
    requires OnlyActivates(a, b) && OnlyActivates(b, c)
    ensures OnlyActivates(a, c)
    ensures forall k :: 0 <= k < |a| && a[k].active ==> c[k].active
  {
  }

  /**
   * CreateUser: decode, hash the decoded password, insert, then issue a
   * token for the id the store assigned. Only the id, email and active
   * members of the body are decoded, so the hash is always the hash of "".
   */
  method CreateUser(db: Db, cfg: Option<Config>, now: nat, salt: string, body: Decoded<UserFields>)
    returns (r: Response)
    requires db.Valid()
    modifies db
    ensures db.Valid()
    ensures db.contacts == old(db.contacts) && db.nextContactId == old(db.nextContactId)
    ensures OnlyActivates(old(db.users), db.users)
    ensures body.DecodeFailed? ==>
      r == Error(StatusBadRequest, body.message) && db.users == old(db.users) && db.nextUserId == old(db.nextUserId)
    ensures body.Parsed? ==>
      db.nextUserId == if body.value.id == 0 then old(db.nextUserId) + 1 else old(db.nextUserId)
    ensures body.Parsed? ==>
      var row := User(if body.value.id == 0 then old(db.nextUserId) else body.value.id,
                      body.value.email, Hash("", salt), body.value.active);
      if UserIdTaken(old(db.users), row.id) || EmailTaken(old(db.users), row.email) then
        r == Error(StatusInternalServerError, "Failed to create user") && db.users == old(db.users)
      else
        db.users == old(db.users) + [row]
        && r == if Usable(cfg)
                then Response(StatusCreated, Field("activation_token", GenerateToken(cfg, row.id, now).value))
                else Error(StatusInternalServerError, "Failed to generate activation token")
    ensures forall u :: u in db.users && u !in old(db.users) ==>
      body.Parsed? && Matches(u.password, "") && u.active == body.value.active
  {
    if body.DecodeFailed? {
      r := Error(StatusBadRequest, body.message);
      return;
    }
    var user := DecodeUser(body.value);
    var hashedPassword := Hash(user.password.text, salt);
    user := user.(password := hashedPassword);
    var ok, saved := db.InsertUser(user);
    if !ok {
      r := Error(StatusInternalServerError, "Failed to create user");
      return;
    }
    var activationToken := GenerateToken(cfg, saved.id, now);
    if activationToken.Failure? {
      r := Error(StatusInternalServerError, "Failed to generate activation token");
      return;
    }
    r := Response(StatusCreated, Field("activation_token", activationToken.value));
  }

  /**
   * Registration as evidently intended: the body's password is what gets
   * hashed, and a new account starts inactive with a store-assigned id,
   * whatever the body says.
   */
  method CreateUserCorrected(db: Db, cfg: Option<Config>, now: nat, salt: string, body: Decoded<UserFields>)
    returns (r: Response)
    requires db.Valid()
    modifies db
    ensures db.Valid()
    ensures db.contacts == old(db.contacts) && db.nextContactId == old(db.nextContactId)
    ensures OnlyActivates(old(db.users), db.users)
    ensures body.DecodeFailed? ==>
      r == Error(StatusBadRequest, body.message) && db.users == old(db.users) && db.nextUserId == old(db.nextUserId)
    ensures body.Parsed? ==> db.nextUserId == old(db.nextUserId) + 1
    ensures body.Parsed? ==>
      var row := User(old(db.nextUserId), body.value.email, Hash(body.value.password, salt), false);
      if UserIdTaken(old(db.users), row.id) || EmailTaken(old(db.users), row.email) then
        r == Error(StatusInternalServerError, "Failed to create user") && db.users == old(db.users)
      else
        db.users == old(db.users) + [row]
        && r == if Usable(cfg)
                then Response(StatusCreated, Field("activation_token", GenerateToken(cfg, row.id, now).value))
                else Error(StatusInternalServerError, "Failed to generate activation token")
    ensures forall u :: u in db.users && u !in old(db.users) ==>
      body.Parsed? && Matches(u.password, body.value.password) && !u.active
  {
    if body.DecodeFailed? {
      r := Error(StatusBadRequest, body.message);
      return;
    }
    var user := User(0, body.value.email, Hash(body.value.password, salt), false);
    var ok, saved := db.InsertUser(user);
    if !ok {
      r := Error(StatusInternalServerError, "Failed to create user");
      return;
    }
    var activationToken := GenerateToken(cfg, saved.id, now);
    if activationToken.Failure? {
      r := Error(StatusInternalServerError, "Failed to generate activation token");
      return;
    }
    r := Response(StatusCreated, Field("activation_token", activationToken.value));
  }

  /** The user an activation request names: the id carried by a non-empty token that GetUserIDFromToken accepts. */
  function ActivationSubject(cfg: Option<Config>, body: Decoded<string>, now: nat): (r: Option<nat>)
    ensures r.Some? <==> body.Parsed? && body.value != "" && GetUserIDFromToken(cfg, body.value, now).Success?
    ensures r.Some? ==> GetUserIDFromToken(cfg, body.value, now) == Success(r.value)
  {
    if body.DecodeFailed? || body.value == "" then None
    else
      match GetUserIDFromToken(cfg, body.value, now)
      case Success(uid) => Some(uid)
      case Failure(_) => None
  }

  /**
   * ActivateUser: 400 for an unreadable body, an empty token or a token
   * GetUserIDFromToken rejects; 404 for an unknown user; 400 for an account
   * already active; otherwise the account becomes active and nothing else changes.
   */
  method ActivateUser(db: Db, cfg: Option<Config>, now: nat, body: Decoded<string>)
    returns (r: Response)
    requires db.Valid()
    modifies db
    ensures db.Valid()
    ensures db.contacts == old(db.contacts) && db.nextUserId == old(db.nextUserId) && db.nextContactId == old(db.nextContactId)
    ensures OnlyActivates(old(db.users), db.users) && |db.users| == |old(db.users)|
    ensures body.DecodeFailed? ==> r == Error(StatusBadRequest, "Invalid request body")
    ensures body == Parsed("") ==> r == Error(StatusBadRequest, "Activation token is required")
    ensures body.Parsed? && body.value != "" && GetUserIDFromToken(cfg, body.value, now).Failure? ==>
      r == Error(StatusBadRequest, "Invalid or expired activation token")
    ensures ActivationSubject(cfg, body, now).Some? && !UserIdTaken(old(db.users), ActivationSubject(cfg, body, now).value) ==>
      r == Error(StatusNotFound, "User not found")
    ensures (ActivationSubject(cfg, body, now).Some?
             && FindUser(old(db.users), ActivationSubject(cfg, body, now).value).Some?
             && FindUser(old(db.users), ActivationSubject(cfg, body, now).value).value.active) ==>
      r == Error(StatusBadRequest, "User is already activated")
    ensures r.status != StatusOK ==> db.users == old(db.users)
    ensures r.status == StatusOK <==>
      (ActivationSubject(cfg, body, now).Some?
       && FindUser(old(db.users), ActivationSubject(cfg, body, now).value).Some?
       && !FindUser(old(db.users), ActivationSubject(cfg, body, now).value).value.active)
    ensures r.status == StatusOK ==>
      r == Response(StatusOK, Field("message", "User activated successfully"))
      && forall k :: 0 <= k < |db.users| ==>
           db.users[k] == if old(db.users)[k].id == ActivationSubject(cfg, body, now).value
                          then old(db.users)[k].(active := true)
                          else old(db.users)[k]
  {
    if body.DecodeFailed? {
      r := Error(StatusBadRequest, "Invalid request body");
      return;
    }
    if body.value == "" {
      r := Error(StatusBadRequest, "Activation token is required");
      return;
    }
    var userID := GetUserIDFromToken(cfg, body.value, now);
    if userID.Failure? {
      r := Error(StatusBadRequest, "Invalid or expired activation token");
      return;
    }
    var user := FindUser(db.users, userID.value);
    if user.None? {
      r := Error(StatusNotFound, "User not found");
      return;
    }
    if user.value.active {
      r := Error(StatusBadRequest, "User is already activated");
      return;
    }
    ghost var before := db.users;
    ghost var m :| 0 <= m < |before| && before[m] == user.value;
    db.SaveUser(user.value.(active := true));
    forall k | 0 <= k < |db.users|
      ensures db.users[k] == if before[k].id == userID.value then before[k].(active := true) else before[k]
      ensures before[k].id == userID.value ==> k == m
    {
      assert UserKey(before[k]) == before[k].id && UserKey(user.value.(active := true)) == userID.value;
    }
    r := Response(StatusOK, Field("message", "User activated successfully"));
  }
}
