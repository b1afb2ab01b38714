/**
 * The relational store behind the handlers (a GORM handle on two tables),
 * reduced to what the handlers ask of it: insert with an auto-increment key,
 * look up by key or by predicate, update by key, delete by predicate, count.
 *
 * Tables are sequences in storage order. The primary keys of both tables and
 * the users' email column are unique, which is all the schema enforces.
 */
module Store {
  import opened Wrappers
  import opened Models

  predicate UserIdsUnique(us: seq<User>)
  {
    forall i, j :: 0 <= i < j < |us| ==> us[i].id != us[j].id
  }

  predicate EmailsUnique(us: seq<User>)
  {
    forall i, j :: 0 <= i < j < |us| ==> us[i].email != us[j].email
  }

  predicate ContactIdsUnique(cs: seq<Contact>)
  {
    forall i, j :: 0 <= i < j < |cs| ==> cs[i].id != cs[j].id
  }

  predicate UserIdTaken(us: seq<User>, id: nat)
  {
    exists i :: 0 <= i < |us| && us[i].id == id
  }

  predicate EmailTaken(us: seq<User>, email: string)
  {
    exists i :: 0 <= i < |us| && us[i].email == email
  }

  predicate ContactIdTaken(cs: seq<Contact>, id: nat)
  {
    exists i :: 0 <= i < |cs| && cs[i].id == id
  }

  /** A contact row with this key and this owner exists. */
  predicate Owns(cs: seq<Contact>, id: nat, uid: nat)
  {
    exists i :: 0 <= i < |cs| && cs[i].id == id && cs[i].userId == uid
  }

  /** `SELECT ... WHERE id = ? LIMIT 1` on users. */
  function FindUser(us: seq<User>, id: nat): (r: Option<User>)
    ensures r.Some? ==> r.value in us && r.value.id == id
    ensures r.None? <==> !UserIdTaken(us, id)
  {
    if |us| == 0 then None
    else if us[0].id == id then Some(us[0])
    else
      var r := FindUser(us[1..], id);
      assert UserIdTaken(us[1..], id) ==> UserIdTaken(us, id);
      assert UserIdTaken(us, id) ==> UserIdTaken(us[1..], id) by {
        if UserIdTaken(us, id) {
          var i :| 0 <= i < |us| && us[i].id == id;
          assert us[1..][i - 1].id == id;
        }
      }
      r
  }

  /** `SELECT ... WHERE email = ? LIMIT 1` on users. */
  function FindUserByEmail(us: seq<User>, email: string): (r: Option<User>)
    ensures r.Some? ==> r.value in us && r.value.email == email
    ensures r.None? <==> !EmailTaken(us, email)
  {
    if |us| == 0 then None
    else if us[0].email == email then Some(us[0])
    else
      var r := FindUserByEmail(us[1..], email);
      assert EmailTaken(us[1..], email) ==> EmailTaken(us, email);
      assert EmailTaken(us, email) ==> EmailTaken(us[1..], email) by {
        if EmailTaken(us, email) {
          var i :| 0 <= i < |us| && us[i].email == email;
          assert us[1..][i - 1].email == email;
        }
      }
      r
  }

  /** `SELECT ... WHERE id = ? AND user_id = ? LIMIT 1` on contacts. */
  function FindOwned(cs: seq<Contact>, id: nat, uid: nat): (r: Option<Contact>)
    ensures r.Some? ==> r.value in cs && r.value.id == id && r.value.userId == uid
    ensures r.None? <==> !Owns(cs, id, uid)
  {
    if |cs| == 0 then None
    else if cs[0].id == id && cs[0].userId == uid then Some(cs[0])
    else
      var r := FindOwned(cs[1..], id, uid);
      assert Owns(cs[1..], id, uid) ==> Owns(cs, id, uid);
      assert Owns(cs, id, uid) ==> Owns(cs[1..], id, uid) by {
        if Owns(cs, id, uid) {
          var i :| 0 <= i < |cs| && cs[i].id == id && cs[i].userId == uid;
          assert cs[1..][i - 1].id == id;
        }
      }
      r
  }

  /** `SELECT ... WHERE user_id = ?`: the owner's rows, in storage order. */
  function OwnedBy(cs: seq<Contact>, uid: nat): (mine: seq<Contact>)
    ensures |mine| <= |cs|
    ensures forall k :: 0 <= k < |mine| ==> mine[k].userId == uid
    ensures forall c :: c in mine <==> c in cs && c.userId == uid
  {
    if |cs| == 0 then []
    else
      var rest := OwnedBy(cs[1..], uid);
      assert forall c :: c in cs <==> c == cs[0] || c in cs[1..] by {
        assert cs == [cs[0]] + cs[1..];
      }
      if cs[0].userId == uid then [cs[0]] + rest else rest
  }

  /** The owner filter keeps each of the owner's rows as often as it is stored, and no other row. */
  lemma {:induction false} OwnedByCounts(cs: seq<Contact>, uid: nat)
    ensures forall c :: multiset(OwnedBy(cs, uid))[c] == if c.userId == uid then multiset(cs)[c] else 0
  {
    if |cs| > 0 {
      OwnedByCounts(cs[1..], uid);
      assert cs == [cs[0]] + cs[1..];
      assert multiset(cs) == multiset{cs[0]} + multiset(cs[1..]);
      if cs[0].userId == uid {
        assert OwnedBy(cs, uid) == [cs[0]] + OwnedBy(cs[1..], uid);
        assert multiset(OwnedBy(cs, uid)) == multiset{cs[0]} + multiset(OwnedBy(cs[1..], uid));
      }
    }
  }

  /** `DELETE ... WHERE id = ? AND user_id = ?`: every other row stays, in order. */
  function WithoutOwned(cs: seq<Contact>, id: nat, uid: nat): (kept: seq<Contact>)
    ensures |kept| <= |cs|
    ensures |kept| == |cs| <==> !Owns(cs, id, uid)
    ensures !Owns(cs, id, uid) ==> kept == cs
    ensures forall c :: c in kept <==> c in cs && !(c.id == id && c.userId == uid)
  {
    if |cs| == 0 then []
    else
      var rest := WithoutOwned(cs[1..], id, uid);
      assert cs == [cs[0]] + cs[1..];
      assert Owns(cs[1..], id, uid) ==> Owns(cs, id, uid) by {
        if Owns(cs[1..], id, uid) {
          var i :| 0 <= i < |cs[1..]| && cs[1..][i].id == id && cs[1..][i].userId == uid;
          assert cs[i + 1] == cs[1..][i];
        }
      }
      assert Owns(cs, id, uid) && !(cs[0].id == id && cs[0].userId == uid) ==> Owns(cs[1..], id, uid) by {
        if Owns(cs, id, uid) && !(cs[0].id == id && cs[0].userId == uid) {
          var i :| 0 <= i < |cs| && cs[i].id == id && cs[i].userId == uid;
          assert cs[1..][i - 1] == cs[i];
        }
      }
      if cs[0].id == id && cs[0].userId == uid then rest else [cs[0]] + rest
  }

  /** Deleting by predicate never duplicates a key. */
  lemma {:induction false} WithoutOwnedKeepsIdsUnique(cs: seq<Contact>, id: nat, uid: nat)
    requires ContactIdsUnique(cs)
    ensures ContactIdsUnique(WithoutOwned(cs, id, uid))
  {
    if |cs| > 0 {
      WithoutOwnedKeepsIdsUnique(cs[1..], id, uid);
      var rest := WithoutOwned(cs[1..], id, uid);
      forall k | 0 <= k < |rest|
        ensures rest[k].id != cs[0].id
      {
        assert rest[k] in cs[1..];
        var m :| 0 <= m < |cs[1..]| && cs[1..][m] == rest[k];
        assert cs[m + 1] == rest[k];
      }
    }
  }

  /** With unique keys, deleting by key and owner removes at most one row. */
  lemma {:induction false} WithoutOwnedRemovesAtMostOne(cs: seq<Contact>, id: nat, uid: nat)
    requires ContactIdsUnique(cs)
    ensures |WithoutOwned(cs, id, uid)| >= |cs| - 1
  {
    if |cs| > 0 {
      if !(cs[0].id == id && cs[0].userId == uid) {
        WithoutOwnedRemovesAtMostOne(cs[1..], id, uid);
      }
    }
  }

  function UserKey(u: User): nat { u.id }

  function ContactKey(c: Contact): nat { c.id }

  /** `UPDATE ... WHERE id = key(row)`: every row with that key becomes `row`, every other row stays. */
  function SaveRow<T>(rows: seq<T>, row: T, key: T -> nat): (r: seq<T>)
    ensures |r| == |rows|
    ensures forall k :: 0 <= k < |rows| && key(rows[k]) == key(row) ==> r[k] == row
    ensures forall k :: 0 <= k < |rows| && key(rows[k]) != key(row) ==> r[k] == rows[k]
  {
    seq(|rows|, k requires 0 <= k < |rows| => if key(rows[k]) == key(row) then row else rows[k])
  }

  /** Clamps a GORM offset: a non-positive one skips nothing, one past the end skips everything. */
  function Skip(offset: int, n: nat): (start: nat)
    ensures start <= n
  {
    if offset <= 0 then 0 else if offset < n then offset else n
  }

  /**
   * `.Offset(offset).Limit(limit)`: GORM emits OFFSET only when it is positive
   * and LIMIT only when it is non-negative.
   */
  function Window<T>(s: seq<T>, offset: int, limit: int): (w: seq<T>)
    ensures Skip(offset, |s|) + |w| <= |s|
    ensures w == s[Skip(offset, |s|)..Skip(offset, |s|) + |w|]
    ensures forall x :: x in w ==> x in s
    ensures limit >= 0 ==> |w| <= limit
    ensures limit >= 0 && Skip(offset, |s|) + limit <= |s| ==> |w| == limit
    ensures (limit < 0 || Skip(offset, |s|) + limit > |s|) ==> Skip(offset, |s|) + |w| == |s|
  {
    var rest := s[Skip(offset, |s|)..];
    if 0 <= limit < |rest| then rest[..limit] else rest
  }

  /**
   * Over one fixed row sequence, page `page + 1` starts where page `page`
   * ends: the two windows together make up the double-size window.
   */
  lemma PagesAreConsecutive<T>(s: seq<T>, page: int, size: int)
    requires page >= 1 && size >= 1
    ensures Window(s, (page - 1) * size, size) + Window(s, page * size, size)
         == Window(s, (page - 1) * size, 2 * size)
  {
    var o := (page - 1) * size;
    assert o >= 0 && o + size == page * size;
    var a := Window(s, o, size);
    var b := Window(s, o + size, size);
    if Skip(o, |s|) + size <= |s| {
      assert |a| == size;
      assert Skip(o + size, |s|) == Skip(o, |s|) + size;
    } else {
      assert Skip(o + size, |s|) == |s|;
    }
  }

  /** The database handle: both tables and their id sequences. */
  class Db {
    var users: seq<User>
    var contacts: seq<Contact>
    var nextUserId: nat
    var nextContactId: nat

    ghost predicate Valid()
      reads this
    {
      UserIdsUnique(users) && EmailsUnique(users) && ContactIdsUnique(contacts)
    }

    /** Empty tables, both sequences starting at 1. */
    constructor ()
      ensures Valid()
      ensures users == [] && contacts == [] && nextUserId == 1 && nextContactId == 1
    {
      users, contacts := [], [];
      nextUserId, nextContactId := 1, 1;
    }

    /**
     * db.Create(&user): a zero id is replaced by the next value of the id
     * sequence (consumed even when the insert fails); the insert fails when
     * the key or the email is already present.
     */
    method InsertUser(u: User) returns (ok: bool, saved: User)
      requires Valid()
      modifies this
      ensures Valid()
      ensures saved == u.(id := if u.id == 0 then old(nextUserId) else u.id)
      ensures ok <==> !UserIdTaken(old(users), saved.id) && !EmailTaken(old(users), u.email)
      ensures users == if ok then old(users) + [saved] else old(users)
      ensures nextUserId == if u.id == 0 then old(nextUserId) + 1 else old(nextUserId)
      ensures contacts == old(contacts) && nextContactId == old(nextContactId)
    {
      saved := u;
      if u.id == 0 {
        saved := u.(id := nextUserId);
        nextUserId := nextUserId + 1;
      }
      ok := !UserIdTaken(users, saved.id) && !EmailTaken(users, saved.email);
      if ok {
        users := users + [saved];
      }
    }

    /** db.Create(&contact): as InsertUser, with the key as the only unique column. */
    method InsertContact(c: Contact) returns (ok: bool, saved: Contact)
      requires Valid()
      modifies this
      ensures Valid()
      ensures saved == c.(id := if c.id == 0 then old(nextContactId) else c.id)
      ensures ok <==> !ContactIdTaken(old(contacts), saved.id)
      ensures contacts == if ok then old(contacts) + [saved] else old(contacts)
      ensures nextContactId == if c.id == 0 then old(nextContactId) + 1 else old(nextContactId)
      ensures users == old(users) && nextUserId == old(nextUserId)
    {
      saved := c;
      if c.id == 0 {
        saved := c.(id := nextContactId);
        nextContactId := nextContactId + 1;
      }
      ok := !ContactIdTaken(contacts, saved.id);
      if ok {
        contacts := contacts + [saved];
      }
    }

    /** db.Save(&user) for a row that exists and keeps its email. */
    method SaveUser(u: User)
      requires Valid()
      requires exists i :: 0 <= i < |users| && users[i].id == u.id && users[i].email == u.email
      modifies this
      ensures Valid()
      ensures users == SaveRow(old(users), u, UserKey)
      ensures contacts == old(contacts) && nextUserId == old(nextUserId) && nextContactId == old(nextContactId)
    {
      users := SaveRow(users, u, UserKey);
    }

    /** db.Save(&contact) for a row that exists. */
    method SaveContact(c: Contact)
      requires Valid()
      requires ContactIdTaken(contacts, c.id)
      modifies this
      ensures Valid()
      ensures contacts == SaveRow(old(contacts), c, ContactKey)
      ensures users == old(users) && nextUserId == old(nextUserId) && nextContactId == old(nextContactId)
    {
      contacts := SaveRow(contacts, c, ContactKey);
    }

    /** db.Where("id = ? AND user_id = ?").Delete: the result's RowsAffected. */
    method DeleteOwned(id: nat, uid: nat) returns (rowsAffected: nat)
      requires Valid()
      modifies this
      ensures Valid()
      ensures contacts == WithoutOwned(old(contacts), id, uid)
      ensures rowsAffected == |old(contacts)| - |contacts|
      ensures rowsAffected == 0 <==> !Owns(old(contacts), id, uid)
      ensures rowsAffected <= 1
      ensures users == old(users) && nextUserId == old(nextUserId) && nextContactId == old(nextContactId)
    {
      var kept := WithoutOwned(contacts, id, uid);
      WithoutOwnedKeepsIdsUnique(contacts, id, uid);
      WithoutOwnedRemovesAtMostOne(contacts, id, uid);
      rowsAffected := |contacts| - |kept|;
      contacts := kept;
    }
  }
}
