/** `urlsForUser` (helpers.js): the entries of the URL database that one user owns. */
module Urls {
  import opened Wrappers
  import opened Tables

  /** A record of the URL database, keyed by its short id. */
  datatype UrlEntry = UrlEntry(longURL: string, userID: string)

  /** The reference definition of the filter: the database's entries whose
      `userID` is strictly equal to the given one, keys and values unchanged,
      in enumeration order. */
  function OwnedBy(userID: string, db: Table<UrlEntry>): (r: Table<UrlEntry>)
    ensures forall i :: 0 <= i < |r| ==> r[i] in db && r[i].1.userID == userID
    ensures forall i :: 0 <= i < |db| && db[i].1.userID == userID ==> db[i] in r
    ensures |r| <= |db|
  {
    if |db| == 0 then []
    else
      assert forall i :: 1 <= i < |db| ==> db[i] == db[1..][i - 1];
      if db[0].1.userID == userID then [db[0]] + OwnedBy(userID, db[1..])
      else OwnedBy(userID, db[1..])
  }

  /** urlsForUser: the source's `for...in` loop, copying each owned entry into a
      fresh object; the database passed in is left as it was. */
  method UrlsForUser(userID: string, db: Table<UrlEntry>) returns (r: Table<UrlEntry>)
    ensures r == OwnedBy(userID, db)
  {
    r := [];
    var i := 0;
    while i < |db|
      invariant 0 <= i <= |db|
      invariant r + OwnedBy(userID, db[i..]) == OwnedBy(userID, db)
    {
      var (id, entry) := db[i];
      assert db[i..][1..] == db[i + 1..];
      if entry.userID == userID {
        r := r + [(id, entry)];
      }
      i := i + 1;
    }
  }

  /** The result is empty exactly when the user owns nothing, which covers an
      empty database and an unknown user. */
  lemma {:induction false} OwnedByEmpty(userID: string, db: Table<UrlEntry>)
    ensures OwnedBy(userID, db) == [] <==> forall i :: 0 <= i < |db| ==> db[i].1.userID != userID
  {
    if OwnedBy(userID, db) == [] {
      forall i | 0 <= i < |db|
        ensures db[i].1.userID != userID
      {
      }
    } else {
      assert OwnedBy(userID, db)[0] in db;
    }
  }

  /** A result key is a key of the database whose entry the user owns, and every such key is in the result. */
  lemma OwnedByKeys(userID: string, db: Table<UrlEntry>, id: string)
    ensures HasKey(OwnedBy(userID, db), id) <==>
            exists i :: 0 <= i < |db| && db[i].0 == id && db[i].1.userID == userID
  {
  }

  /** Filtering keeps the database's keys distinct. */
  lemma {:induction false} OwnedByDistinct(userID: string, db: Table<UrlEntry>)
    requires DistinctKeys(db)
    ensures DistinctKeys(OwnedBy(userID, db))
  {
    if |db| > 0 {
      var tail := db[1..];
      assert DistinctKeys(tail) by {
        assert forall i :: 0 <= i < |tail| ==> tail[i] == db[i + 1];
      }
      OwnedByDistinct(userID, tail);
      if db[0].1.userID == userID {
        var rest := OwnedBy(userID, tail);
        forall j | 0 <= j < |rest|
          ensures rest[j].0 != db[0].0
        {
          assert rest[j] in tail;
          var k :| 0 <= k < |tail| && tail[k] == rest[j];
          assert tail[k] == db[k + 1];
        }
        assert OwnedBy(userID, db) == [db[0]] + rest;
      }
    }
  }

  /** Reading a key of the result gives the database's entry when the user owns
      it, and nothing otherwise: values are carried over unchanged. */
  lemma OwnedByGet(userID: string, db: Table<UrlEntry>, id: string)
    requires DistinctKeys(db)
    ensures Get(OwnedBy(userID, db), id) ==
            (if Get(db, id).Some? && Get(db, id).value.userID == userID then Get(db, id) else None)
  {
  }

  /** Filtering distributes over concatenation: the result keeps the database's
      enumeration order, entries of an earlier part before those of a later one. */
  lemma {:induction false} OwnedByAppend(userID: string, a: Table<UrlEntry>, b: Table<UrlEntry>)
    ensures OwnedBy(userID, a + b) == OwnedBy(userID, a) + OwnedBy(userID, b)
  {
    if |a| > 0 {
      assert (a + b)[0] == a[0];
      assert (a + b)[1..] == a[1..] + b;
      OwnedByAppend(userID, a[1..], b);
    } else {
      assert a + b == b;
    }
  }

  /** Filtering twice for the same user changes nothing. */
  lemma {:induction false} OwnedByIdempotent(userID: string, db: Table<UrlEntry>)
    ensures OwnedBy(userID, OwnedBy(userID, db)) == OwnedBy(userID, db)
  {
    if |db| > 0 {
      OwnedByIdempotent(userID, db[1..]);
      if db[0].1.userID == userID {
        var r := [db[0]] + OwnedBy(userID, db[1..]);
        assert r[0] == db[0];
        assert r[1..] == OwnedBy(userID, db[1..]);
      }
    }
  }
}
