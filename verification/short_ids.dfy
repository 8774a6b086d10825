/** The short-id allocator `generateRandomString` (helpers.js). The source draws
    each character with `Math.random`; here the draws are an explicit input, so
    the allocator is a deterministic function of the URL database, the retry
    budget and the draw sequence. */
module ShortIds {
  import opened Wrappers
  import opened Tables

  /** The 62 symbols an id is spelled with, in the order the source lists them
      (one string in the source, written here as its three runs). */
  const Characters: string := "ABCDEFGHIJKLMNOPQRSTUVWXYZ" + "abcdefghijklmnopqrstuvwxyz" + "0123456789"

  /** Every id has exactly this many characters. */
  const IdLength: nat := 6

  /** The retry budget when the caller passes none. */
  const DefaultMaxRetries: int := 10

  const ExhaustedMessage: string := "Unable to generate a unique string after maximum retries."

  /** The error thrown once every attempt collided. */
  datatype GenError = Exhausted(message: string)

  /** One value of `Math.floor(Math.random() * 62)`. */
  type Index = i: int | 0 <= i < 62

  /** The indices one attempt draws, one per character. */
  type Draw = d: seq<Index> | |d| == IdLength witness [0, 0, 0, 0, 0, 0]

  predicate IsAlphanumeric(c: char) {
    'A' <= c <= 'Z' || 'a' <= c <= 'z' || '0' <= c <= '9'
  }

  /** The shape of every id the allocator hands out. */
  predicate IsShortId(s: string) {
    |s| == IdLength && forall i :: 0 <= i < |s| ==> IsAlphanumeric(s[i])
  }

  /** `n` consecutive code points starting at `first`. */
  function Run(first: char, n: nat): (r: string)
    requires first as int + n <= 0xD800
    ensures |r| == n
    ensures forall i :: 0 <= i < n ==> r[i] as int == first as int + i
  {
    seq(n, i requires 0 <= i < n => (first as int + i) as char)
  }

  /** The alphabet is the upper-case letters, then the lower-case letters, then the digits. */
  lemma CharactersAreRuns()
    ensures Characters == Run('A', 26) + Run('a', 26) + Run('0', 10)
  {
  }

  /** `characters[k]`: the symbol a drawn index selects. */
  function Symbol(k: Index): (c: char)
    ensures IsAlphanumeric(c)
    ensures k < 26 ==> c as int == 'A' as int + k
    ensures 26 <= k < 52 ==> c as int == 'a' as int + (k - 26)
    ensures 52 <= k ==> c as int == '0' as int + (k - 52)
  {
    CharactersAreRuns();
    assert Characters[k] == (Run('A', 26) + Run('a', 26) + Run('0', 10))[k];
    Characters[k]
  }

  /** The position of an alphanumeric character in the alphabet. */
  function IndexOf(c: char): (k: Index)
    requires IsAlphanumeric(c)
    ensures Symbol(k) == c
  {
    if 'A' <= c <= 'Z' then c as int - 'A' as int
    else if 'a' <= c <= 'z' then c as int - 'a' as int + 26
    else c as int - '0' as int + 52
  }

  /** The id one draw spells. */
  function Spell(d: Draw): (s: string)
    ensures IsShortId(s)
  {
    seq(IdLength, i requires 0 <= i < IdLength => Symbol(d[i]))
  }

  /** The draw that spells a given short id. */
  function Unspell(s: string): (d: Draw)
    requires IsShortId(s)
  {
    seq(IdLength, i requires 0 <= i < IdLength => IndexOf(s[i]))
  }

  /** Distinct draws spell distinct ids: the alphabet repeats no symbol. */
  lemma UnspellSpell(d: Draw)
    ensures Unspell(Spell(d)) == d
  {
  }

  /** Every short id is spelled by some draw: the id space is all 62^6 such strings. */
  lemma SpellUnspell(s: string)
    requires IsShortId(s)
    ensures Spell(Unspell(s)) == s
  {
  }

  /** Attempt `k` drew an id the database already holds. */
  predicate Collides<V>(db: Table<V>, draws: seq<Draw>, k: int)
    requires 0 <= k < |draws|
  {
    HasKey(db, Spell(draws[k]))
  }

  /** Attempt `k` is the first attempt that did not collide. */
  predicate FirstFresh<V>(db: Table<V>, draws: seq<Draw>, k: int) {
    0 <= k < |draws| && !Collides(db, draws, k) &&
    forall j :: 0 <= j < k ==> Collides(db, draws, j)
  }

  /** The allocator as a recursive definition: try `draws[0]`; on a collision,
      retry on the remaining draws with one attempt fewer. */
  function Generate<V>(db: Table<V>, maxRetries: int, draws: seq<Draw>): (r: Result<string, GenError>)
    requires maxRetries <= |draws|
    ensures r.Success? ==> IsShortId(r.value) && !HasKey(db, r.value)
    ensures r.Failure? ==> r.error == Exhausted(ExhaustedMessage)
    ensures maxRetries <= 0 ==> r.Failure?
    decreases maxRetries
  {
    if maxRetries <= 0 then Failure(Exhausted(ExhaustedMessage))
    else if !HasKey(db, Spell(draws[0])) then Success(Spell(draws[0]))
    else Generate(db, maxRetries - 1, draws[1..])
  }

  /** The allocator fails exactly when each of the first `maxRetries` draws collides. */
  lemma {:induction false} GenerateFailsIffAllCollide<V>(db: Table<V>, maxRetries: int, draws: seq<Draw>)
    requires maxRetries <= |draws|
    ensures Generate(db, maxRetries, draws).Failure? <==>
            forall k :: 0 <= k < maxRetries ==> Collides(db, draws, k)
    decreases maxRetries
  {
    if maxRetries > 0 {
      if HasKey(db, Spell(draws[0])) {
        GenerateFailsIffAllCollide(db, maxRetries - 1, draws[1..]);
        forall j | 0 <= j < maxRetries - 1
          ensures Collides(db, draws[1..], j) == Collides(db, draws, j + 1)
        {
          assert draws[1..][j] == draws[j + 1];
        }
        if Generate(db, maxRetries, draws).Failure? {
          forall k | 0 <= k < maxRetries
            ensures Collides(db, draws, k)
          {
            if k > 0 {
              assert Collides(db, draws[1..], k - 1);
            }
          }
        }
      } else {
        assert !Collides(db, draws, 0);
      }
    }
  }

  /** When it succeeds, the allocator returns the id of the first attempt that did not collide. */
  lemma {:induction false} GenerateReturnsFirstFresh<V>(db: Table<V>, maxRetries: int, draws: seq<Draw>, k: int)
    requires maxRetries <= |draws|
    requires k < maxRetries && FirstFresh(db, draws, k)
    ensures Generate(db, maxRetries, draws) == Success(Spell(draws[k]))
    decreases maxRetries
  {
    if k > 0 {
      assert Collides(db, draws, 0);
      forall j | 0 <= j < k - 1
        ensures Collides(db, draws[1..], j)
      {
        assert draws[1..][j] == draws[j + 1];
        assert Collides(db, draws, j + 1);
      }
      assert draws[1..][k - 1] == draws[k];
      GenerateReturnsFirstFresh(db, maxRetries - 1, draws[1..], k - 1);
    }
  }

  /** The allocator consumes at most `maxRetries` draws: the later ones never matter. */
  lemma {:induction false} GenerateReadsOnlyBudget<V>(db: Table<V>, maxRetries: int, draws: seq<Draw>)
    requires 0 <= maxRetries <= |draws|
    ensures Generate(db, maxRetries, draws) == Generate(db, maxRetries, draws[..maxRetries])
    decreases maxRetries
  {
    if maxRetries > 0 {
      assert draws[..maxRetries][0] == draws[0];
      assert draws[..maxRetries][1..] == draws[1..][..maxRetries - 1];
      GenerateReadsOnlyBudget(db, maxRetries - 1, draws[1..]);
    }
  }

  /** A larger retry budget never changes an allocation that already succeeded. */
  lemma {:induction false} GenerateMoreRetries<V>(db: Table<V>, maxRetries: int, more: int, draws: seq<Draw>)
    requires maxRetries <= more <= |draws|
    requires Generate(db, maxRetries, draws).Success?
    ensures Generate(db, more, draws) == Generate(db, maxRetries, draws)
    decreases maxRetries
  {
    if HasKey(db, Spell(draws[0])) {
      GenerateMoreRetries(db, maxRetries - 1, more - 1, draws[1..]);
    }
  }

  /** The source's nested loops: up to `maxRetries` attempts, each spelling six
      characters, returning the first id absent from the database. */
  method GenerateRandomString<V>(db: Table<V>, maxRetries: int, draws: seq<Draw>) returns (r: Result<string, GenError>)
    requires maxRetries <= |draws|
    ensures r == Generate(db, maxRetries, draws)
    ensures r.Success? ==> IsShortId(r.value) && !HasKey(db, r.value)
  {
    var attempt := 0;
    while attempt < maxRetries
      invariant 0 <= attempt <= (if maxRetries < 0 then 0 else maxRetries)
      invariant Generate(db, maxRetries, draws) == Generate(db, maxRetries - attempt, draws[attempt..])
    {
      var result := "";
      var i := 0;
      while i < IdLength
        invariant 0 <= i <= IdLength
        invariant result == Spell(draws[attempt])[..i]
      {
        result := result + [Characters[draws[attempt][i]]];
        i := i + 1;
      }
      assert result == Spell(draws[attempt]);
      if Get(db, result).None? {
        return Success(result);
      }
      assert draws[attempt..][1..] == draws[attempt + 1..];
      attempt := attempt + 1;
    }
    return Failure(Exhausted(ExhaustedMessage));
  }
}
