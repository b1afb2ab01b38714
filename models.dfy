/**
 * The records of internal/models: users, contacts and login credentials, with
 * what JSON decoding of a request body can and cannot set in them.
 */
module Models {

  /**
   * The password column. Registration stores a bcrypt hash; bcrypt itself is
   * modelled symbolically: `Hashed(salt, preimage)` is the hash of `preimage`
   * under a random `salt`, and only Matches ever looks at the preimage.
   */
  datatype Password = Plain(text: string) | Hashed(salt: string, preimage: string)

  /** bcrypt.GenerateFromPassword with a caller-supplied salt. */
  function Hash(plain: string, salt: string): (h: Password)
    ensures Matches(h, plain)
    ensures forall other :: Matches(h, other) ==> other == plain
  {
    Hashed(salt, plain)
  }

  /** bcrypt.CompareHashAndPassword succeeds; a stored value that is not a hash never matches. */
  predicate Matches(stored: Password, plain: string)
  {
    stored.Hashed? && stored.preimage == plain
  }

  /** models.User. */
  datatype User = User(id: nat, email: string, password: Password, active: bool)

  /** models.Contact; `userId` is the owner. */
  datatype Contact = Contact(id: nat, name: string, email: string, phone: string, userId: nat)

  /** models.Credentials, the login body. */
  datatype Credentials = Credentials(email: string, password: string)

  /** The members a JSON body for a User may carry, with Go's zero values for absent ones. */
  datatype UserFields = UserFields(id: nat, email: string, password: string, active: bool)

  /**
   * json.Decoder.Decode into models.User: `id`, `email` and `active` are
   * decoded, while `Password` is tagged `json:"-"` and keeps its zero value.
   */
  function DecodeUser(body: UserFields): (u: User)
    ensures u.password == Plain("")
    ensures u.id == body.id && u.email == body.email && u.active == body.active
  {
    User(body.id, body.email, Plain(""), body.active)
  }

  /** Two bodies that differ only in their password decode to the same User. */
  lemma PasswordNeverDecoded(a: UserFields, b: UserFields)
    requires a.id == b.id && a.email == b.email && a.active == b.active && a.password != b.password
    ensures DecodeUser(a) == DecodeUser(b)
  {
  }

  /** Outcome of decoding a request body: the value, or the decoder's error text. */
  datatype Decoded<T> = Parsed(value: T) | DecodeFailed(message: string)
}
