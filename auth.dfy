/**
 * internal/handlers/auth.go: the store injection shared by every handler,
 * and login, a read-only chain of checks that ends in a session token.
 */
module Auth {
  import opened Wrappers
  import opened Config
  import opened Token
  import opened Models
  import opened Http
  import opened Store

  /** The package-level store handle the handlers use. */
  class DbHolder {
    var db: Db?

    /** Before SetDB runs there is no store. */
    constructor ()
      ensures db == null
    {
      db := null;
    }

    /** SetDB: installs the store every later handler call works on. */
    method SetDB(database: Db?)
      modifies this
      ensures db == database
    {
      db := database;
    }
  }

  /** With unique emails, a stored user is determined by their email. */
  lemma EmailDeterminesUser(us: seq<User>, a: User, b: User)
    requires EmailsUnique(us) && a in us && b in us && a.email == b.email
    ensures a == b
  {
  }

  /**
   * AuthenticateUser: 400 for an unreadable body; 401 "Invalid email or
   * password" for an unknown email; 401 "User account is not active" for an
   * inactive account, whatever the password; 401 "Invalid email or password"
   * again for a wrong password; 500 when no token can be issued; otherwise a
   * token for that user. It only reads the store.
   */
  function AuthenticateUser(db: Db, body: Decoded<Credentials>, cfg: Option<Config>, now: nat): (r: Response)
    requires db.Valid()
    reads db
    ensures body.DecodeFailed? ==> r == Error(StatusBadRequest, body.message)
    ensures body.Parsed? && !EmailTaken(db.users, body.value.email) ==>
      r == Error(StatusUnauthorized, "Invalid email or password")
    ensures (body.Parsed? && exists u :: u in db.users && u.email == body.value.email && !u.active) ==>
      r == Error(StatusUnauthorized, "User account is not active")
    ensures (body.Parsed?
             && exists u :: u in db.users && u.email == body.value.email && u.active
                            && !Matches(u.password, body.value.password)) ==>
      r == Error(StatusUnauthorized, "Invalid email or password")
    ensures (body.Parsed? && !Usable(cfg)
             && exists u :: u in db.users && u.email == body.value.email && u.active
                            && Matches(u.password, body.value.password)) ==>
      r == Error(StatusInternalServerError, "Failed to generate token")
    ensures r.status == StatusOK <==>
      (body.Parsed? && Usable(cfg)
       && exists u :: u in db.users && u.email == body.value.email && u.active
                      && Matches(u.password, body.value.password))
    ensures r.status == StatusOK ==>
      exists u :: u in db.users && u.email == body.value.email
                  && r == Response(StatusOK, Field("token", GenerateToken(cfg, u.id, now).value))
  {
    if body.DecodeFailed? then Error(StatusBadRequest, body.message)
    else
      var credentials := body.value;
      match FindUserByEmail(db.users, credentials.email)
      case None => Error(StatusUnauthorized, "Invalid email or password")
      case Some(user) =>
        assert forall u :: u in db.users && u.email == credentials.email ==> u == user by {
          forall u | u in db.users && u.email == credentials.email
            ensures u == user
          {
            EmailDeterminesUser(db.users, u, user);
          }
        }
        if !user.active then Error(StatusUnauthorized, "User account is not active")
        else if !Matches(user.password, credentials.password) then Error(StatusUnauthorized, "Invalid email or password")
        else
          match GenerateToken(cfg, user.id, now)
          case Failure(_) => Error(StatusInternalServerError, "Failed to generate token")
          case Success(token) => Response(StatusOK, Field("token", token))
  }

  /** A session token from a successful login names the user who logged in until it expires. */
  lemma LoginTokenIdentifiesUser(db: Db, body: Decoded<Credentials>, cfg: Option<Config>, now: nat, later: nat)
    requires db.Valid()
    requires AuthenticateUser(db, body, cfg, now).status == StatusOK
    requires later < now + TokenLifetime
    ensures exists u ::
      u in db.users && u.email == body.value.email && u.active
      && Matches(u.password, body.value.password)
      && GetUserIDFromToken(cfg, AuthenticateUser(db, body, cfg, now).payload.value, later) == Success(u.id)
  {
    var user := FindUserByEmail(db.users, body.value.email).value;
    IssuedTokenAccepted(cfg, user.id, now, later);
  }
}
