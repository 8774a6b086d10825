/** The user lookups of helpers.js: `getUserByEmail` and `getUserFromCookie`. */
module Users {
  import opened Wrappers
  import opened Tables
  import opened ShortIds

  /** A record of the users database. The password is whatever the server stored;
      neither lookup reads it. */
  datatype User = User(id: string, email: string, password: string)

  /** Some user of the database has exactly this email. */
  ghost predicate HasEmail(users: Table<User>, email: string) {
    exists i :: 0 <= i < |users| && users[i].1.email == email
  }

  /** Entry `i` is the first, in enumeration order, whose user has exactly this email. */
  ghost predicate IsFirstWithEmail(users: Table<User>, email: string, i: int) {
    && 0 <= i < |users|
    && users[i].1.email == email
    && forall j :: 0 <= j < i ==> users[j].1.email != email
  }

  /** No two users share an email, as registration is meant to guarantee. */
  ghost predicate UniqueEmails(users: Table<User>) {
    forall i, j :: 0 <= i < j < |users| ==> users[i].1.email != users[j].1.email
  }

  /** The reference definition of the email lookup: the first user, in
      enumeration order, whose email equals the query; `None` when there is none. */
  function FirstUserWithEmail(email: string, users: Table<User>): (r: Option<User>)
    ensures r.None? <==> !HasEmail(users, email)
    ensures r.Some? ==> r.value.email == email
    ensures r.Some? ==> exists i :: IsFirstWithEmail(users, email, i) && r.value == users[i].1
  {
    if |users| == 0 then None
    else if users[0].1.email == email then
      assert IsFirstWithEmail(users, email, 0);
      Some(users[0].1)
    else
      FirstWithEmailShift(email, users);
      FirstUserWithEmail(email, users[1..])
  }

  /** Skipping a first user without the email shifts every first match by one. */
  lemma FirstWithEmailShift(email: string, users: Table<User>)
    requires |users| > 0 && users[0].1.email != email
    ensures forall j :: IsFirstWithEmail(users[1..], email, j) ==>
              IsFirstWithEmail(users, email, j + 1) && users[1..][j] == users[j + 1]
    ensures HasEmail(users[1..], email) <==> HasEmail(users, email)
  {
  }

  /** With unique emails the lookup finds the one user holding the email. */
  lemma FirstUserWithEmailUnique(email: string, users: Table<User>, i: int)
    requires UniqueEmails(users)
    requires 0 <= i < |users| && users[i].1.email == email
    ensures FirstUserWithEmail(email, users) == Some(users[i].1)
  {
  }

  /** getUserByEmail: the source's `for...in` scan, returning the first user
      whose email is strictly equal to the query, else `null`. */
  method GetUserByEmail(email: string, users: Table<User>) returns (r: Option<User>)
    ensures r == FirstUserWithEmail(email, users)
  {
    var i := 0;
    while i < |users|
      invariant 0 <= i <= |users|
      invariant FirstUserWithEmail(email, users) == FirstUserWithEmail(email, users[i..])
    {
      var user := users[i].1;
      if user.email == email {
        return Some(user);
      }
      assert users[i..][1..] == users[i + 1..];
      i := i + 1;
    }
    return None;
  }

  /** `req.session.user_id`: never set, set to `null`, or a user id. */
  datatype SessionUserId = Unset | Null | UserId(id: string)

  /** The property key JavaScript reads for `users[userId]`: `undefined` and
      `null` are converted to the strings "undefined" and "null". */
  function PropertyKey(session: SessionUserId): string {
    match session
    case Unset => "undefined"
    case Null => "null"
    case UserId(id) => id
  }

  /** getUserFromCookie as written: `users[userId] || null`, keyed by the
      converted session value, so a missing session id still reads a key. */
  function GetUserFromCookieAsWritten(session: SessionUserId, users: Table<User>): (r: Option<User>)
    ensures r.Some? <==> HasKey(users, PropertyKey(session))
    ensures r.Some? ==> (PropertyKey(session), r.value) in users
  {
    Get(users, PropertyKey(session))
  }

  /** getUserFromCookie as intended: the user stored under the session's id, and
      `None` when the session has no id or the id is not a key of the database. */
  function GetUserFromCookie(session: SessionUserId, users: Table<User>): (r: Option<User>)
    ensures r.Some? <==> session.UserId? && HasKey(users, session.id)
    ensures r.Some? ==> (session.id, r.value) in users
    ensures DistinctKeys(users) && session.UserId? ==>
              forall i :: 0 <= i < |users| && users[i].0 == session.id ==> r == Some(users[i].1)
  {
    match session
    case UserId(id) => Get(users, id)
    case _ => None
  }

  /** A logged-out session reads the user stored under the key "null" or
      "undefined", where the intended lookup finds nobody. */
  lemma NullSessionReadsNullKey(u: User)
    ensures GetUserFromCookieAsWritten(Null, [("null", u)]) == Some(u)
    ensures GetUserFromCookie(Null, [("null", u)]) == None
    ensures GetUserFromCookieAsWritten(Unset, [("undefined", u)]) == Some(u)
    ensures GetUserFromCookie(Unset, [("undefined", u)]) == None
  {
    assert [("null", u)][0].0 == "null";
    assert [("undefined", u)][0].0 == "undefined";
  }

  /** When every user id has the allocator's shape, neither "null" nor
      "undefined" is a key, and the code as written behaves as intended. */
  lemma CookieLookupAgreesOnShortIds(session: SessionUserId, users: Table<User>)
    requires forall i :: 0 <= i < |users| ==> IsShortId(users[i].0)
    ensures GetUserFromCookieAsWritten(session, users) == GetUserFromCookie(session, users)
  {
  }
}
