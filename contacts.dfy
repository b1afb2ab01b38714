/**
 * The contact handlers of internal/handlers/contacts.go. Every handler works
 * on the caller's own rows only: the caller is the user id carried by the
 * bearer token of the request, and every query is filtered by it.
 *
 * Each handler takes the store installed by SetDB, the configuration and
 * clock the token service reads, and the already-parsed parts of the request:
 * the Authorization header, the path id (None when it is not an unsigned
 * decimal), the query parameters (0 when absent or not a number) and the
 * decoded JSON body.
 */
module Contacts {
  import opened Wrappers
  import Text
  import opened Config
  import opened Token
  import opened Models
  import opened Http
  import opened Store

  /** getUserIDFromRequest: the bearer credential of the header, then the user id it carries; the first error wins. */
  function GetUserIDFromRequest(authorization: string, cfg: Option<Config>, now: nat): (r: Result<nat, TokenError>)
    ensures authorization == "" ==> r == Failure(HeaderMissing)
    ensures ExtractBearerToken(authorization).Failure? ==> r == Failure(ExtractBearerToken(authorization).error)
    ensures ExtractBearerToken(authorization).Success? && !Usable(cfg) ==> r == Failure(Secret(cfg).error)
    ensures ExtractBearerToken(authorization).Success? ==>
      r == GetUserIDFromToken(cfg, ExtractBearerToken(authorization).value, now)
    ensures r.Success? ==>
      exists token :: ExtractBearerToken(authorization) == Success(token)
        && GetUserIDFromToken(cfg, token, now) == Success(r.value)
  {
    match ExtractBearerToken(authorization)
    case Failure(e) => Failure(e)
    case Success(token) => GetUserIDFromToken(cfg, token, now)
  }

  /** A Bearer header carrying a token this service issued, read before it expires, names the user it was issued to. */
  lemma IssuedTokenIdentifiesCaller(cfg: Option<Config>, scheme: string, userId: nat, issuedAt: nat, now: nat)
    requires Usable(cfg) && ' ' !in scheme && IsBearer(scheme)
    requires now < issuedAt + TokenLifetime
    ensures GetUserIDFromRequest(scheme + " " + GenerateToken(cfg, userId, issuedAt).value, cfg, now) == Success(userId)
  {
    var token := GenerateToken(cfg, userId, issuedAt).value;
    ExtractComposed(scheme, token);
    IssuedTokenAccepted(cfg, userId, issuedAt, now);
  }

  /** The header a client sends after logging in, "Bearer " and the token, names the token's user. */
  lemma BearerHeaderIdentifiesCaller(cfg: Option<Config>, userId: nat, issuedAt: nat, now: nat)
    requires Usable(cfg) && now < issuedAt + TokenLifetime
    ensures GetUserIDFromRequest("Bearer " + GenerateToken(cfg, userId, issuedAt).value, cfg, now) == Success(userId)
  {
    var token := GenerateToken(cfg, userId, issuedAt).value;
    assert Text.Lower("Bearer") == "bearer";
    assert "Bearer " + token == "Bearer" + " " + token;
    IssuedTokenIdentifiesCaller(cfg, "Bearer", userId, issuedAt, now);
  }

  /** The 401 text every contact handler sends when the caller cannot be identified. */
  function Unauthorized(e: TokenError): (r: Response)
    ensures r.status == StatusUnauthorized
  {
    Error(StatusUnauthorized, "Failed to get user ID from token: " + e.Message())
  }

  /**
   * The listing GetAllContacts sends: page 0 means 1 and page_size 0 means
   * 10, every other value is used as given; the page is the window of the
   * owner's rows starting after (page - 1) * pageSize of them.
   */
  function Listing(contacts: seq<Contact>, uid: nat, page: int, pageSize: int): (l: Payload)
    ensures l.ContactPage?
    ensures l.page == (if page == 0 then 1 else page)
    ensures l.pageSize == (if pageSize == 0 then 10 else pageSize)
    ensures l.total == |OwnedBy(contacts, uid)|
    ensures l.contacts == Window(OwnedBy(contacts, uid), (l.page - 1) * l.pageSize, l.pageSize)
    ensures forall c :: c in l.contacts ==> c in contacts && c.userId == uid
    ensures l.pageSize > 0 ==> |l.contacts| <= l.pageSize
  {
    var p := if page == 0 then 1 else page;
    var size := if pageSize == 0 then 10 else pageSize;
    var mine := OwnedBy(contacts, uid);
    var w := Window(mine, (p - 1) * size, size);
    assert forall c :: c in w ==> c in mine;
    ContactPage(w, |mine|, p, size)
  }

  /** GetAllContacts: one page of the caller's contacts and how many they own in all. */
  method GetAllContacts(db: Db, cfg: Option<Config>, now: nat, authorization: string, page: int, pageSize: int)
    returns (r: Response)
    requires db.Valid()
    ensures GetUserIDFromRequest(authorization, cfg, now).Failure? ==>
      r == Unauthorized(GetUserIDFromRequest(authorization, cfg, now).error)
    ensures GetUserIDFromRequest(authorization, cfg, now).Success? ==>
      r == Response(StatusOK, Listing(db.contacts, GetUserIDFromRequest(authorization, cfg, now).value, page, pageSize))
  {
    var userID := GetUserIDFromRequest(authorization, cfg, now);
    if userID.Failure? {
      r := Unauthorized(userID.error);
      return;
    }
    r := Response(StatusOK, Listing(db.contacts, userID.value, page, pageSize));
  }

  /** CreateContact: the body becomes a row owned by the caller, whatever owner it names. */
  method CreateContact(db: Db, cfg: Option<Config>, now: nat, authorization: string, body: Decoded<Contact>)
    returns (r: Response)
    requires db.Valid()
    modifies db
    ensures db.Valid()
    ensures db.users == old(db.users) && db.nextUserId == old(db.nextUserId)
    ensures db.nextContactId ==
      if body.Parsed? && GetUserIDFromRequest(authorization, cfg, now).Success? && body.value.id == 0
      then old(db.nextContactId) + 1
      else old(db.nextContactId)
    ensures body.DecodeFailed? ==>
      r == Error(StatusBadRequest, body.message) && db.contacts == old(db.contacts)
    ensures body.Parsed? && GetUserIDFromRequest(authorization, cfg, now).Failure? ==>
      r == Unauthorized(GetUserIDFromRequest(authorization, cfg, now).error) && db.contacts == old(db.contacts)
    ensures body.Parsed? && GetUserIDFromRequest(authorization, cfg, now).Success? ==>
      var uid := GetUserIDFromRequest(authorization, cfg, now).value;
      var stored := body.value.(userId := uid, id := if body.value.id == 0 then old(db.nextContactId) else body.value.id);
      if ContactIdTaken(old(db.contacts), stored.id) then
        r == Error(StatusInternalServerError, "Failed to create contact") && db.contacts == old(db.contacts)
      else
        r == Response(StatusCreated, OneContact(stored)) && db.contacts == old(db.contacts) + [stored]
    ensures forall c :: c in db.contacts && c !in old(db.contacts) ==>
      GetUserIDFromRequest(authorization, cfg, now) == Success(c.userId)
  {
    if body.DecodeFailed? {
      r := Error(StatusBadRequest, body.message);
      return;
    }
    var userID := GetUserIDFromRequest(authorization, cfg, now);
    if userID.Failure? {
      r := Unauthorized(userID.error);
      return;
    }
    var contact := body.value.(userId := userID.value);
    var ok, saved := db.InsertContact(contact);
    if !ok {
      r := Error(StatusInternalServerError, "Failed to create contact");
      return;
    }
    r := Response(StatusCreated, OneContact(saved));
  }

  /** GetContactDetails: the caller's contact with that id; another user's contact is as missing as an absent one. */
  method GetContactDetails(db: Db, cfg: Option<Config>, now: nat, authorization: string, id: Option<nat>)
    returns (r: Response)
    requires db.Valid()
    ensures id.None? ==> r == Error(StatusBadRequest, "Invalid contact ID")
    ensures id.Some? && GetUserIDFromRequest(authorization, cfg, now).Failure? ==>
      r == Unauthorized(GetUserIDFromRequest(authorization, cfg, now).error)
    ensures id.Some? && GetUserIDFromRequest(authorization, cfg, now).Success? ==>
      var uid := GetUserIDFromRequest(authorization, cfg, now).value;
      if Owns(db.contacts, id.value, uid) then
        r.status == StatusOK && r.payload.OneContact?
        && r.payload.contact in db.contacts
        && r.payload.contact.id == id.value && r.payload.contact.userId == uid
      else
        r == Error(StatusNotFound, "Contact not found")
  {
    if id.None? {
      r := Error(StatusBadRequest, "Invalid contact ID");
      return;
    }
    var userID := GetUserIDFromRequest(authorization, cfg, now);
    if userID.Failure? {
      r := Unauthorized(userID.error);
      return;
    }
    var contact := FindOwned(db.contacts, id.value, userID.value);
    if contact.None? {
      r := Error(StatusNotFound, "Contact not found");
      return;
    }
    r := Response(StatusOK, OneContact(contact.value));
  }

  /** The row as UpdateContact saves it: name, email and phone from the body, key and owner kept. */
  function Edited(stored: Contact, body: Contact): (c: Contact)
    ensures c.id == stored.id && c.userId == stored.userId
    ensures c.name == body.name && c.email == body.email && c.phone == body.phone
  {
    stored.(name := body.name, email := body.email, phone := body.phone)
  }

  /** UpdateContact: rewrites name, email and phone of the caller's contact; every other row and column stays. */
  method UpdateContact(db: Db, cfg: Option<Config>, now: nat, authorization: string, id: Option<nat>, body: Decoded<Contact>)
    returns (r: Response)
    requires db.Valid()
    modifies db
    ensures db.Valid()
    ensures db.users == old(db.users) && db.nextUserId == old(db.nextUserId) && db.nextContactId == old(db.nextContactId)
    ensures |db.contacts| == |old(db.contacts)|
    ensures id.None? ==> r == Error(StatusBadRequest, "Invalid contact ID")
    ensures id.Some? && body.DecodeFailed? ==> r == Error(StatusBadRequest, body.message)
    ensures id.Some? && body.Parsed? && GetUserIDFromRequest(authorization, cfg, now).Failure? ==>
      r == Unauthorized(GetUserIDFromRequest(authorization, cfg, now).error)
    ensures (id.Some? && body.Parsed? && GetUserIDFromRequest(authorization, cfg, now).Success?
             && !Owns(old(db.contacts), id.value, GetUserIDFromRequest(authorization, cfg, now).value)) ==>
      r == Error(StatusNotFound, "Contact not found")
    ensures r.status != StatusOK ==> db.contacts == old(db.contacts)
    ensures r.status == StatusOK <==>
      (id.Some? && body.Parsed? && GetUserIDFromRequest(authorization, cfg, now).Success?
       && Owns(old(db.contacts), id.value, GetUserIDFromRequest(authorization, cfg, now).value))
    ensures r.status == StatusOK ==>
      r.payload.OneContact? && r.payload.contact.id == id.value
      && r.payload.contact.userId == GetUserIDFromRequest(authorization, cfg, now).value
      && r.payload == OneContact(Edited(FindOwned(old(db.contacts), id.value,
                                                  GetUserIDFromRequest(authorization, cfg, now).value).value,
                                        body.value))
      && forall k :: 0 <= k < |db.contacts| ==>
        db.contacts[k] == (if old(db.contacts)[k].id == id.value then Edited(old(db.contacts)[k], body.value) else old(db.contacts)[k])
  {
    if id.None? {
      r := Error(StatusBadRequest, "Invalid contact ID");
      return;
    }
    if body.DecodeFailed? {
      r := Error(StatusBadRequest, body.message);
      return;
    }
    var userID := GetUserIDFromRequest(authorization, cfg, now);
    if userID.Failure? {
      r := Unauthorized(userID.error);
      return;
    }
    var contact := FindOwned(db.contacts, id.value, userID.value);
    if contact.None? {
      r := Error(StatusNotFound, "Contact not found");
      return;
    }
    var edited := Edited(contact.value, body.value);
    ghost var before := db.contacts;
    ghost var m :| 0 <= m < |before| && before[m] == contact.value;
    db.SaveContact(edited);
    forall k | 0 <= k < |db.contacts|
      ensures db.contacts[k] == (if before[k].id == id.value then Edited(before[k], body.value) else before[k])
    {
      assert ContactKey(before[k]) == before[k].id && ContactKey(edited) == id.value;
      if before[k].id == id.value {
        assert m == k;
      }
    }
    r := Response(StatusOK, OneContact(edited));
  }

  /** DeleteContact: removes the caller's contact with that id, and nothing else. */
  method DeleteContact(db: Db, cfg: Option<Config>, now: nat, authorization: string, id: Option<nat>)
    returns (r: Response)
    requires db.Valid()
    modifies db
    ensures db.Valid()
    ensures db.users == old(db.users) && db.nextUserId == old(db.nextUserId) && db.nextContactId == old(db.nextContactId)
    ensures id.None? ==> r == Error(StatusBadRequest, "Invalid contact ID") && db.contacts == old(db.contacts)
    ensures id.Some? && GetUserIDFromRequest(authorization, cfg, now).Failure? ==>
      r == Unauthorized(GetUserIDFromRequest(authorization, cfg, now).error) && db.contacts == old(db.contacts)
    ensures id.Some? && GetUserIDFromRequest(authorization, cfg, now).Success? ==>
      var uid := GetUserIDFromRequest(authorization, cfg, now).value;
      db.contacts == WithoutOwned(old(db.contacts), id.value, uid)
      && (if Owns(old(db.contacts), id.value, uid)
          then r == Response(StatusNoContent, NoBody) && |db.contacts| == |old(db.contacts)| - 1
          else r == Error(StatusNotFound, "Contact not found") && db.contacts == old(db.contacts))
  {
    if id.None? {
      r := Error(StatusBadRequest, "Invalid contact ID");
      return;
    }
    var userID := GetUserIDFromRequest(authorization, cfg, now);
    if userID.Failure? {
      r := Unauthorized(userID.error);
      return;
    }
    var rowsAffected := db.DeleteOwned(id.value, userID.value);
    if rowsAffected == 0 {
      r := Error(StatusNotFound, "Contact not found");
      return;
    }
    r := Response(StatusNoContent, NoBody);
  }
}
