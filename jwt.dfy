/**
 * The signed-token mechanism the token service delegates to: JSON Web Tokens
 * (RFC 7519) signed with HMAC-SHA256 (section 3.2 of RFC 7518), as the JWT
 * library builds and checks them.
 *
 * The model keeps the three-segment compact shape `<a>.<b>.<c>` of RFC 7519
 * but writes the two claims this system uses, `user_id` and `exp`, as decimal
 * text instead of base64url JSON, and replaces HMAC-SHA256 by `Mac`, an
 * injective encoding of the secret and the signed text. The stand-in
 * idealises a MAC: recomputing it with the same secret over the same text
 * reproduces the signature, and a different secret never does (HMAC itself
 * has equivalent keys). Only canonical numerals read as numbers, so every
 * claim segment reads back as its own text and the signature covers the
 * segments as sent.
 */
module Jwt {
  import opened Wrappers
  import opened Text

  /** A claim as the parser sees it: missing, a non-negative number, or anything else. */
  datatype Claim = Absent | Number(value: nat) | NonNumeric(text: string)

  /** A decoded token: the `user_id` claim, the `exp` claim (section 4.1.4 of RFC 7519), the signature. */
  datatype Token = Token(userId: Claim, exp: Claim, sig: string)

  /** The reasons the library's Parse rejects a token. */
  datatype ParseError = Malformed | Expired | SignatureInvalid

  function ClaimText(c: Claim): string
  {
    match c
    case Absent => ""
    case Number(n) => DecimalText(n)
    case NonNumeric(t) => t
  }

  /** A decimal numeral without leading zeros: the text DecimalText writes for its value. */
  predicate Numeral(s: string)
  {
    AllDigits(s) && DecimalText(DecimalValue(s)) == s
  }

  function ClaimOf(segment: string): Claim
  {
    if segment == "" then Absent
    else if Numeral(segment) then Number(DecimalValue(segment))
    else NonNumeric(segment)
  }

  /** Every segment reads as a claim that writes back to the same segment. */
  lemma ClaimOfText(segment: string)
    ensures ClaimText(ClaimOf(segment)) == segment
  {
  }

  /** A claim that survives being written into a segment and read back. */
  predicate Canonical(c: Claim)
  {
    c.NonNumeric? ==> c.text != "" && !Numeral(c.text) && '.' !in c.text && ' ' !in c.text
  }

  lemma ClaimRoundTrip(c: Claim)
    requires Canonical(c)
    ensures ClaimOf(ClaimText(c)) == c
    ensures '.' !in ClaimText(c) && ' ' !in ClaimText(c)
  {
    if c.Number? {
      DecimalRoundTrip(c.value);
      assert Numeral(DecimalText(c.value));
      var t := DecimalText(c.value);
      assert forall k :: 0 <= k < |t| ==> t[k] != '.' && t[k] != ' ' by {
        forall k | 0 <= k < |t| ensures t[k] != '.' && t[k] != ' ' {
          assert IsDigit(t[k]);
        }
      }
    }
  }

  /** The text the signature covers: both claims, in order. */
  function SigningInput(userId: Claim, exp: Claim): string
  {
    ClaimText(userId) + "." + ClaimText(exp)
  }

  /** Stand-in for HMAC-SHA256 keyed with `secret` over the claims. */
  function Mac(secret: string, userId: Claim, exp: Claim): (sig: string)
    ensures ' ' !in sig && '.' !in sig
  {
    Escape(secret + (":" + SigningInput(userId, exp)))
  }

  /** A signature made with one secret is never the signature another secret makes over the same claims. */
  lemma MacBindsSecret(secret1: string, secret2: string, userId: Claim, exp: Claim)
    requires Mac(secret1, userId, exp) == Mac(secret2, userId, exp)
    ensures secret1 == secret2
  {
    var tail := ":" + SigningInput(userId, exp);
    var m1, m2 := secret1 + tail, secret2 + tail;
    EscapeInjective(m1, m2);
    assert secret1 == m1[..|secret1|];
    assert secret2 == m2[..|secret2|];
  }

  /** The compact serialisation: three segments separated by dots. */
  function Encode(t: Token): string
  {
    SigningInput(t.userId, t.exp) + "." + t.sig
  }

  /** The library's splitting and decoding; anything but three segments is malformed. */
  function Decode(s: string): Option<Token>
  {
    var parts := Split(s, '.');
    if |parts| != 3 then None
    else Some(Token(ClaimOf(parts[0]), ClaimOf(parts[1]), parts[2]))
  }

  predicate WellFormed(t: Token)
  {
    Canonical(t.userId) && Canonical(t.exp) && '.' !in t.sig && ' ' !in t.sig
  }

  lemma {:induction false} SplitThree(a: string, b: string, c: string)
    requires '.' !in a && '.' !in b && '.' !in c
    ensures Split(a + "." + b + "." + c, '.') == [a, b, c]
  {
    assert a + "." + b + "." + c == a + ['.'] + (b + ['.'] + c);
    SplitAfterFirst(a, b + ['.'] + c, '.');
    SplitAfterFirst(b, c, '.');
    assert Split(c, '.') == [c];
  }

  /** Decoding the serialisation of a well-formed token gives the token back, and the text has no space. */
  lemma DecodeEncode(t: Token)
    requires WellFormed(t)
    ensures Decode(Encode(t)) == Some(t)
    ensures Encode(t) != "" && ' ' !in Encode(t)
  {
    ClaimRoundTrip(t.userId);
    ClaimRoundTrip(t.exp);
    var a, b := ClaimText(t.userId), ClaimText(t.exp);
    assert Encode(t) == a + "." + b + "." + t.sig;
    SplitThree(a, b, t.sig);
  }

  /** The token the library's SignedString produces for these claims. */
  function Sign(secret: string, userId: Claim, exp: Claim): Token
  {
    Token(userId, exp, Mac(secret, userId, exp))
  }

  /** The library's expiry check: a token without `exp` never expires, a non-numeric one is invalid. */
  predicate Live(exp: Claim, now: nat)
  {
    match exp
    case Absent => true
    case Number(e) => now < e
    case NonNumeric(_) => false
  }

  /**
   * The library's Parse with the key function returning `secret`: decode,
   * validate the claims, then check the signature. A failed signature check
   * overwrites the error the claims produced, so a token that is both expired
   * and wrongly signed is reported as wrongly signed.
   */
  function Parse(secret: string, s: string, now: nat): (r: Result<Token, ParseError>)
    ensures r.Success? <==>
      Decode(s).Some? && Live(Decode(s).value.exp, now)
      && Decode(s).value.sig == Mac(secret, Decode(s).value.userId, Decode(s).value.exp)
    ensures r.Success? ==> Decode(s) == Some(r.value)
    ensures r == Failure(Malformed) <==> Decode(s).None?
    ensures r == Failure(SignatureInvalid) <==>
      Decode(s).Some? && Decode(s).value.sig != Mac(secret, Decode(s).value.userId, Decode(s).value.exp)
    ensures r == Failure(Expired) <==>
      Decode(s).Some? && Decode(s).value.sig == Mac(secret, Decode(s).value.userId, Decode(s).value.exp)
      && !Live(Decode(s).value.exp, now)
  {
    match Decode(s)
    case None => Failure(Malformed)
    case Some(t) =>
      var claimsValid := Live(t.exp, now);
      if t.sig != Mac(secret, t.userId, t.exp) then Failure(SignatureInvalid)
      else if !claimsValid then Failure(Expired)
      else Success(t)
  }

  /** A token signed with `secret` parses under `secret` while its `exp` lies ahead. */
  lemma ParseSigned(secret: string, userId: Claim, exp: Claim, now: nat)
    requires Canonical(userId) && Canonical(exp) && Live(exp, now)
    ensures Parse(secret, Encode(Sign(secret, userId, exp)), now) == Success(Sign(secret, userId, exp))
  {
    DecodeEncode(Sign(secret, userId, exp));
  }

  /** The same token is rejected for its signature under any other secret, expired or not. */
  lemma ParseOtherSecret(secret: string, other: string, userId: Claim, exp: Claim, now: nat)
    requires Canonical(userId) && Canonical(exp) && other != secret
    ensures Parse(other, Encode(Sign(secret, userId, exp)), now) == Failure(SignatureInvalid)
  {
    DecodeEncode(Sign(secret, userId, exp));
    if Mac(other, userId, exp) == Mac(secret, userId, exp) {
      MacBindsSecret(other, secret, userId, exp);
    }
  }

  /**
   * The signature covers the claim segments as sent: a token that parses
   * carries the MAC of exactly its first two segments.
   */
  lemma ParseBindsSegments(secret: string, s: string, now: nat)
    requires Parse(secret, s, now).Success?
    ensures |Split(s, '.')| == 3
    ensures Parse(secret, s, now).value.sig
         == Mac(secret, Parse(secret, s, now).value.userId, Parse(secret, s, now).value.exp)
    ensures SigningInput(Parse(secret, s, now).value.userId, Parse(secret, s, now).value.exp)
         == Split(s, '.')[0] + "." + Split(s, '.')[1]
  {
    var parts := Split(s, '.');
    ClaimOfText(parts[0]);
    ClaimOfText(parts[1]);
  }

  /**
   * Rewriting a claim segment into another spelling of the same number
   * breaks the signature: "07" is not the numeral of 7.
   */
  lemma RespelledClaimRejected(secret: string, now: nat)
    requires now < 100
    ensures Parse(secret, "07.100." + Mac(secret, Number(7), Number(100)), now) == Failure(SignatureInvalid)
  {
    var sig := Mac(secret, Number(7), Number(100));
    assert DecimalText(7) == "7";
    assert DecimalText(100) == "100" by {
      assert DecimalText(10) == "10";
    }
    DecimalRoundTrip(100);
    assert !Numeral("07");
    assert Numeral("100");
    assert "07.100." + sig == "07" + "." + "100" + "." + sig;
    SplitThree("07", "100", sig);
    assert Decode("07.100." + sig) == Some(Token(NonNumeric("07"), Number(100), sig));
    var a := secret + (":" + SigningInput(NonNumeric("07"), Number(100)));
    var b := secret + (":" + SigningInput(Number(7), Number(100)));
    assert a[|secret| + 1] == '0' && b[|secret| + 1] == '7';
    if Escape(a) == Escape(b) {
      EscapeInjective(a, b);
      assert false;
    }
  }

  /** Under its own secret it is rejected as expired once `now` is past its `exp`. */
  lemma ParseAfterExpiry(secret: string, userId: Claim, e: nat, now: nat)
    requires Canonical(userId) && now > e
    ensures Parse(secret, Encode(Sign(secret, userId, Number(e))), now) == Failure(Expired)
  {
    DecodeEncode(Sign(secret, userId, Number(e)));
  }
}
