/** The fixtures and expectations of the helpers' test suite, stated about the model. */
module Scenarios {
  import opened Wrappers
  import opened Tables
  import opened ShortIds
  import opened Users
  import opened Urls

  const TestUsers: Table<User> := [
    ("userRandomID", User("userRandomID", "user@example.com", "purple-monkey-dinosaur")),
    ("user2RandomID", User("user2RandomID", "user2@example.com", "dishwasher-funk"))
  ]

  const MockDatabase: Table<UrlEntry> := [
    ("b6UTxQ", UrlEntry("https://www.tsn.ca", "userRandomID")),
    ("i3BoGr", UrlEntry("https://www.google.ca", "userRandomID"))
  ]

  /** A known email finds its user; an unknown one finds nobody. */
  lemma EmailLookupScenarios()
    ensures FirstUserWithEmail("user@example.com", TestUsers) ==
            Some(User("userRandomID", "user@example.com", "purple-monkey-dinosaur"))
    ensures FirstUserWithEmail("nonexistent@example.com", TestUsers) == None
  {
  }

  /** With the default budget, a first draw that misses the database is the id returned. */
  lemma DefaultBudgetScenario(draws: seq<Draw>)
    requires DefaultMaxRetries <= |draws|
    requires !HasKey(MockDatabase, Spell(draws[0]))
    ensures Generate(MockDatabase, DefaultMaxRetries, draws) == Success(Spell(draws[0]))
    ensures |Spell(draws[0])| == 6
  {
  }

  /** A budget of zero retries throws whatever the draws. */
  lemma ZeroRetriesScenario(draws: seq<Draw>)
    ensures Generate(MockDatabase, 0, draws) == Failure(Exhausted(ExhaustedMessage))
  {
  }

  /** The owner gets both mock entries; an unknown user and an empty database give nothing. */
  lemma UrlsForUserScenarios()
    ensures OwnedBy("userRandomID", MockDatabase) == MockDatabase
    ensures OwnedBy("nonExistentUser", MockDatabase) == []
    ensures OwnedBy("userRandomID", []) == []
  {
  }

  /** A stored session id finds its user; a `null` or unknown id finds nobody. */
  lemma CookieScenarios()
    ensures GetUserFromCookie(UserId("userRandomID"), TestUsers) == Some(TestUsers[0].1)
    ensures GetUserFromCookie(Null, TestUsers) == None
    ensures GetUserFromCookie(UserId("nonExistentUser"), TestUsers) == None
    ensures GetUserFromCookieAsWritten(Null, TestUsers) == None
  {
    assert TestUsers[0].0 == "userRandomID";
  }
}
