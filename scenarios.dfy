/**
 * Client sessions against a fresh store: request sequences whose outcomes
 * follow from the handlers' contracts. They show how the registration,
 * activation, login and contact endpoints fit together, including the two
 * ways registration departs from its evident intent.
 */
module Scenarios {
  import opened Wrappers
  import opened Config
  import opened Token
  import opened Models
  import opened Http
  import opened Store
  import Contacts
  import Users
  import Auth

  /**
   * Registration hashes the empty string, never the password sent: after
   * activation the registered password is refused and the empty one accepted.
   * The password holds a character other than NUL among its first 72: bcrypt
   * pads its key with NUL bytes and reads only 72 bytes of it, so the hash of
   * "" also accepts a password whose first 72 bytes are all NUL.
   */
  method RegisteredPasswordRejected(cfg: Option<Config>, now: nat, salt: string, email: string, password: string)
    returns (registered: Response, activated: Response, withPassword: Response, withEmpty: Response)
    requires Usable(cfg)
    requires exists k :: 0 <= k < |password| && k < 72 && password[k] != '\0'
    ensures registered.status == StatusCreated && activated.status == StatusOK
    ensures withPassword == Error(StatusUnauthorized, "Invalid email or password")
    ensures withEmpty.status == StatusOK
  {
    var db := new Db();
    registered := Users.CreateUser(db, cfg, now, salt, Parsed(UserFields(0, email, password, false)));
    IssuedTokenAccepted(cfg, 1, now, now);
    activated := Users.ActivateUser(db, cfg, now, Parsed(registered.payload.value));
    assert db.users[0] in db.users;
    withPassword := Auth.AuthenticateUser(db, Parsed(Credentials(email, password)), cfg, now);
    withEmpty := Auth.AuthenticateUser(db, Parsed(Credentials(email, "")), cfg, now);
  }

  /**
   * A registration body that says `"active": true` creates an account that
   * can log in at once; activating it afterwards is refused as already done.
   */
  method RegisterActiveSkipsActivation(cfg: Option<Config>, now: nat, salt: string, email: string)
    returns (registered: Response, login: Response, activated: Response)
    requires Usable(cfg)
    ensures registered.status == StatusCreated
    ensures login.status == StatusOK
    ensures activated == Error(StatusBadRequest, "User is already activated")
  {
    var db := new Db();
    registered := Users.CreateUser(db, cfg, now, salt, Parsed(UserFields(0, email, "", true)));
    assert db.users[0] in db.users;
    login := Auth.AuthenticateUser(db, Parsed(Credentials(email, "")), cfg, now);
    IssuedTokenAccepted(cfg, 1, now, now);
    activated := Users.ActivateUser(db, cfg, now, Parsed(registered.payload.value));
  }

  /**
   * With the corrected registration the lifecycle is the intended one: no
   * login before activation, and after it the registered password logs in
   * and its token names the new account.
   */
  method CorrectedLifecycle(cfg: Option<Config>, now: nat, salt: string, email: string, password: string)
    returns (early: Response, activated: Response, login: Response)
    requires Usable(cfg)
    ensures early == Error(StatusUnauthorized, "User account is not active")
    ensures activated.status == StatusOK
    ensures login.status == StatusOK && login.payload.Field? && login.payload.key == "token"
    ensures GetUserIDFromToken(cfg, login.payload.value, now) == Success(1)
  {
    var db := new Db();
    var registered := Users.CreateUserCorrected(db, cfg, now, salt, Parsed(UserFields(7, email, password, true)));
    assert db.users[0] in db.users;
    early := Auth.AuthenticateUser(db, Parsed(Credentials(email, password)), cfg, now);
    IssuedTokenAccepted(cfg, 1, now, now);
    activated := Users.ActivateUser(db, cfg, now, Parsed(registered.payload.value));
    assert db.users[0] in db.users;
    login := Auth.AuthenticateUser(db, Parsed(Credentials(email, password)), cfg, now);
  }

  /**
   * The activation token is an ordinary session token: before the account
   * is even activated it already authorizes creating contacts, owned by the
   * new account.
   */
  method ActivationTokenAuthorizesContacts(cfg: Option<Config>, now: nat, salt: string, email: string, contact: Contact)
    returns (registered: Response, created: Response)
    requires Usable(cfg) && contact.id == 0
    ensures registered.status == StatusCreated
    ensures created.status == StatusCreated && created.payload.OneContact? && created.payload.contact.userId == 1
  {
    var db := new Db();
    registered := Users.CreateUser(db, cfg, now, salt, Parsed(UserFields(0, email, "", false)));
    Contacts.BearerHeaderIdentifiesCaller(cfg, 1, now, now);
    created := Contacts.CreateContact(db, cfg, now, "Bearer " + registered.payload.value, Parsed(contact));
  }

  /**
   * Ownership isolation: another caller can neither read, rewrite nor
   * delete a contact, gets the same 404 as for a contact that does not
   * exist, and lists none; the owner still reads it afterwards.
   */
  method ContactIsolation(cfg: Option<Config>, now: nat, contact: Contact, owner: nat, other: nat)
    returns (created: Response, peek: Response, tamper: Response, steal: Response, missing: Response,
             list: Response, own: Response)
    requires Usable(cfg) && contact.id == 0 && owner != other
    ensures created.status == StatusCreated
    ensures peek == Error(StatusNotFound, "Contact not found")
    ensures tamper == Error(StatusNotFound, "Contact not found")
    ensures steal == Error(StatusNotFound, "Contact not found")
    ensures missing == Error(StatusNotFound, "Contact not found")
    ensures list.status == StatusOK && list.payload.ContactPage?
    ensures list.payload.total == 0 && list.payload.contacts == []
    ensures own == Response(StatusOK, OneContact(contact.(id := 1, userId := owner)))
  {
    var db := new Db();
    var ownerHeader := "Bearer " + GenerateToken(cfg, owner, now).value;
    var otherHeader := "Bearer " + GenerateToken(cfg, other, now).value;
    Contacts.BearerHeaderIdentifiesCaller(cfg, owner, now, now);
    Contacts.BearerHeaderIdentifiesCaller(cfg, other, now, now);
    created := Contacts.CreateContact(db, cfg, now, ownerHeader, Parsed(contact));
    assert db.contacts == [contact.(id := 1, userId := owner)];
    peek := Contacts.GetContactDetails(db, cfg, now, otherHeader, Some(1));
    tamper := Contacts.UpdateContact(db, cfg, now, otherHeader, Some(1), Parsed(contact.(name := "")));
    steal := Contacts.DeleteContact(db, cfg, now, otherHeader, Some(1));
    missing := Contacts.DeleteContact(db, cfg, now, ownerHeader, Some(2));
    list := Contacts.GetAllContacts(db, cfg, now, otherHeader, 0, 0);
    assert db.contacts[0].id == 1 && db.contacts[0].userId == owner;
    own := Contacts.GetContactDetails(db, cfg, now, ownerHeader, Some(1));
  }
}
