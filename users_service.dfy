/**
 * The identity resolver: users are identified by a login code alone. An
 * unseen code creates the user and copies every default-category template
 * into that user's categories; a known code only refreshes the last login.
 * The clock is a parameter and the random draws of the code generator are an
 * oracle `roll`.
 */
module Users {
  import opened Wrappers
  import opened Entities
  import opened Seqs
  import opened Database
  import opened Categories

  // ----- seeding the default categories -----

  /** `defaultCategories.map(...)` saved in one batch: one owned copy per template, marked default, with consecutive new ids. */
  function SeedRows(defaults: seq<DefaultCategory>, userId: nat, firstId: nat): (rows: seq<Category>)
    ensures |rows| == |defaults|
    ensures forall k :: 0 <= k < |rows| ==>
      rows[k] == Category(firstId + k, userId, defaults[k].name, defaults[k].kind,
                          defaults[k].icon, defaults[k].color, defaults[k].sortOrder, true)
  {
    if defaults == [] then []
    else
      var d := defaults[0];
      [Category(firstId, userId, d.name, d.kind, d.icon, d.color, d.sortOrder, true)]
      + SeedRows(defaults[1..], userId, firstId + 1)
  }

  /** No two templates share a (name, type): otherwise their copies break the unique key. */
  predicate DefaultsDistinct(defaults: seq<DefaultCategory>) {
    forall i, j :: 0 <= i < j < |defaults| ==> !(defaults[i].name == defaults[j].name && defaults[i].kind == defaults[j].kind)
  }

  /**
   * Seeding a user that owns no category yet keeps the tables valid, and the
   * category ids move on by the number of templates.
   */
  lemma SeedKeepsValid(
    users: seq<User>, cats: seq<Category>, txs: seq<Transaction>, nextCat: nat, nextTx: nat,
    defaults: seq<DefaultCategory>, userId: nat)
    requires CategoriesValid(cats, users, nextCat) && TransactionsValid(txs, cats, nextTx) && nextCat >= 1
    requires DefaultsFit(defaults) && DefaultsDistinct(defaults)
    requires userId in UserIds(users)
    requires forall i :: 0 <= i < |cats| ==> cats[i].userId != userId
    ensures CategoriesValid(cats + SeedRows(defaults, userId, nextCat), users, nextCat + |defaults|)
    ensures TransactionsValid(txs, cats + SeedRows(defaults, userId, nextCat), nextTx)
  {
    var rows := SeedRows(defaults, userId, nextCat);
    var cats' := cats + rows;
    forall a, b | 0 <= a < b < |cats'| ensures cats'[a].id < cats'[b].id && !SameKey(cats'[a], cats'[b]) {
      if b < |cats| {
        assert cats'[a] == cats[a] && cats'[b] == cats[b];
      } else if a < |cats| {
        assert cats'[a] == cats[a] && cats'[b] == rows[b - |cats|];
      } else {
        assert cats'[a] == rows[a - |cats|] && cats'[b] == rows[b - |cats|];
      }
    }
    forall k | 0 <= k < |cats'| ensures 1 <= cats'[k].id < nextCat + |defaults| && CategoryFits(cats'[k]) {
      if k >= |cats| {
        assert cats'[k] == rows[k - |cats|];
      }
    }
    CategoryOwnersGrow(cats, cats');
  }

  /** Adding a brand-new user and that user's seeded rows leaves every coherent cache coherent. */
  lemma SeedingKeepsEveryCache(cats: seq<Category>, users: seq<User>, u: User, rows: seq<Category>)
    requires u.id !in UserIds(users)
    requires forall k :: 0 <= k < |rows| ==> rows[k].userId == u.id
    ensures forall cache: map<string, seq<Category>> ::
      CacheCoherent(cache, cats) && CachedUsersExist(cache, users) ==>
      CacheCoherent(cache, cats + rows) && CachedUsersExist(cache, users + [u])
  {
    forall cache: map<string, seq<Category>> | CacheCoherent(cache, cats) && CachedUsersExist(cache, users)
      ensures CacheCoherent(cache, cats + rows) && CachedUsersExist(cache, users + [u])
    {
      SeedingKeepsCoherence(cache, cats, users, rows, u.id);
    }
  }

  // ----- generating a login code -----

  const CodeAlphabet: string := "ABCDEFGHIJKLMNOPQRSTUVWXYZ0123456789"
  const CodeLength: nat := 12

  /** `Math.floor(Math.random() * chars.length)`: an index into the alphabet. */
  type AlphabetIndex = i: nat | i < 36

  /** An upper-case ASCII letter or a decimal digit. */
  predicate IsCodeChar(c: char) {
    'A' <= c <= 'Z' || '0' <= c <= '9'
  }

  /** The alphabet holds exactly A-Z and 0-9. */
  lemma AlphabetIsCodeChars()
    ensures forall k :: 0 <= k < |CodeAlphabet| ==> IsCodeChar(CodeAlphabet[k])
    ensures forall c :: IsCodeChar(c) ==> c in CodeAlphabet
  {
  }

  /** The code drawn on attempt `a`: twelve characters picked by the oracle. */
  function Candidate(roll: (nat, nat) -> AlphabetIndex, a: nat): (code: string)
    ensures |code| == CodeLength
    ensures forall i :: 0 <= i < |code| ==> IsCodeChar(code[i])
  {
    AlphabetIsCodeChars();
    seq(CodeLength, i requires 0 <= i < CodeLength => CodeAlphabet[roll(a, i)])
  }

  /** Some user holds the code. */
  predicate Taken(users: seq<User>, code: string) {
    exists i :: 0 <= i < |users| && users[i].code == code
  }

  class UsersService {
    const db: Db

    constructor (db: Db)
      ensures this.db == db
    {
      this.db := db;
    }

    /** The user holding the code, if any. */
    method FindByCode(code: string) returns (r: Option<User>)
      ensures r.Some? ==> r.value in db.users && r.value.code == code
      ensures r.None? <==> !Taken(db.users, code)
    {
      match FirstIndex(db.users, UserWithCode(code))
      case None =>
        r := None;
      case Some(i) =>
        r := Some(db.users[i]);
    }

    /** The user with the id, if any. */
    method FindById(id: int) returns (r: Option<User>)
      ensures r.Some? ==> r.value in db.users && r.value.id == id
      ensures r.None? <==> forall i :: 0 <= i < |db.users| ==> db.users[i].id != id
    {
      match FirstIndex(db.users, UserWithId(id))
      case None =>
        r := None;
      case Some(i) =>
        r := Some(db.users[i]);
    }

    /**
     * A known code: only that user's last login becomes `now`. An unseen code:
     * the varchar(12) column refuses a longer code; otherwise one user is
     * added and the templates are copied to it, a batch the unique key refuses
     * as a whole when two templates share a (name, type), leaving the new user
     * without categories. Codes stay unique either way, and no cached category
     * list of the category store becomes stale.
     */
    method CreateOrLogin(code: string, now: Instant) returns (r: Result<User>)
      requires db.Valid()
      modifies db
      ensures db.Valid()
      ensures db.transactions == old(db.transactions) && db.defaultCategories == old(db.defaultCategories)
      ensures db.nextTransactionId == old(db.nextTransactionId)
      ensures forall i, j :: 0 <= i < j < |db.users| ==> db.users[i].code != db.users[j].code
      ensures Taken(old(db.users), code) ==>
        exists i :: 0 <= i < |old(db.users)| && old(db.users)[i].code == code
          && r == Ok(old(db.users)[i].(lastLoginAt := Some(now)))
          && db.users == old(db.users)[i := r.value]
          && db.categories == old(db.categories)
          && db.nextUserId == old(db.nextUserId) && db.nextCategoryId == old(db.nextCategoryId)
      ensures !Taken(old(db.users), code) && |code| > CodeWidth ==>
        && r == Err(ConstraintViolation)
        && db.users == old(db.users) && db.categories == old(db.categories)
        && db.nextUserId == old(db.nextUserId) && db.nextCategoryId == old(db.nextCategoryId)
      ensures !Taken(old(db.users), code) && |code| <= CodeWidth ==>
        && db.users == old(db.users) + [User(old(db.nextUserId), code, now, None)]
        && db.nextUserId == old(db.nextUserId) + 1
        && (if DefaultsDistinct(db.defaultCategories) then
              && r == Ok(User(old(db.nextUserId), code, now, None))
              && db.categories == old(db.categories) + SeedRows(db.defaultCategories, old(db.nextUserId), old(db.nextCategoryId))
              && db.nextCategoryId == old(db.nextCategoryId) + |db.defaultCategories|
            else
              && r == Err(ConstraintViolation)
              && db.categories == old(db.categories) && db.nextCategoryId == old(db.nextCategoryId))
      ensures forall cache: map<string, seq<Category>> ::
        CacheCoherent(cache, old(db.categories)) && CachedUsersExist(cache, old(db.users)) ==>
        CacheCoherent(cache, db.categories) && CachedUsersExist(cache, db.users)
    {
      var found := FirstIndex(db.users, UserWithCode(code));
      if found.Some? {
        var u := LogIn(found.value, now);
        return Ok(u);
      }
      if |code| > CodeWidth {
        return Err(ConstraintViolation);
      }
      r := SignUp(code, now);
    }

    /** A known user logs in again: only its last login changes. */
    method LogIn(i: nat, now: Instant) returns (u: User)
      requires db.Valid() && i < |db.users|
      modifies db
      ensures db.Valid()
      ensures u == old(db.users)[i].(lastLoginAt := Some(now))
      ensures db.users == old(db.users)[i := u]
      ensures db.transactions == old(db.transactions) && db.defaultCategories == old(db.defaultCategories)
      ensures db.categories == old(db.categories)
      ensures db.nextUserId == old(db.nextUserId) && db.nextCategoryId == old(db.nextCategoryId)
      ensures db.nextTransactionId == old(db.nextTransactionId)
      ensures forall a, b :: 0 <= a < b < |db.users| ==> db.users[a].code != db.users[b].code
      ensures forall cache: map<string, seq<Category>> ::
        CachedUsersExist(cache, old(db.users)) ==> CachedUsersExist(cache, db.users)
    {
      u := db.users[i].(lastLoginAt := Some(now));
      ReplaceUserKeepsValid(db.users, db.categories, db.nextUserId, db.nextCategoryId, i, u);
      db.users := db.users[i := u];
    }

    /**
     * An unseen code that fits the column: one user is added, then the
     * templates are copied to it unless two of them share a (name, type).
     */
    method SignUp(code: string, now: Instant) returns (r: Result<User>)
      requires db.Valid() && !Taken(db.users, code) && |code| <= CodeWidth
      modifies db
      ensures db.Valid()
      ensures db.transactions == old(db.transactions) && db.defaultCategories == old(db.defaultCategories)
      ensures db.nextTransactionId == old(db.nextTransactionId)
      ensures forall a, b :: 0 <= a < b < |db.users| ==> db.users[a].code != db.users[b].code
      ensures db.users == old(db.users) + [User(old(db.nextUserId), code, now, None)]
      ensures db.nextUserId == old(db.nextUserId) + 1
      ensures DefaultsDistinct(db.defaultCategories) ==>
        && r == Ok(User(old(db.nextUserId), code, now, None))
        && db.categories == old(db.categories) + SeedRows(db.defaultCategories, old(db.nextUserId), old(db.nextCategoryId))
        && db.nextCategoryId == old(db.nextCategoryId) + |db.defaultCategories|
      ensures !DefaultsDistinct(db.defaultCategories) ==>
        && r == Err(ConstraintViolation)
        && db.categories == old(db.categories) && db.nextCategoryId == old(db.nextCategoryId)
      ensures forall cache: map<string, seq<Category>> ::
        CacheCoherent(cache, old(db.categories)) && CachedUsersExist(cache, old(db.users)) ==>
        CacheCoherent(cache, db.categories) && CachedUsersExist(cache, db.users)
    {
      var users0, cats0 := db.users, db.categories;
      var u := AddUser(code, now);
      if !DefaultsDistinct(db.defaultCategories) {
        SeedingKeepsEveryCache(cats0, users0, u, []);
        assert cats0 + [] == cats0;
        return Err(ConstraintViolation);
      }
      CopyDefaults(u.id);
      SeedingKeepsEveryCache(cats0, users0, u, SeedRows(db.defaultCategories, u.id, old(db.nextCategoryId)));
      r := Ok(u);
    }

    /** The user row for an unseen code, with the next id and no login yet. */
    method AddUser(code: string, now: Instant) returns (u: User)
      requires db.Valid() && !Taken(db.users, code) && |code| <= CodeWidth
      modifies db
      ensures db.Valid()
      ensures u == User(old(db.nextUserId), code, now, None) && u.id !in UserIds(old(db.users))
      ensures db.users == old(db.users) + [u] && db.nextUserId == old(db.nextUserId) + 1
      ensures forall a, b :: 0 <= a < b < |db.users| ==> db.users[a].code != db.users[b].code
      ensures forall k :: 0 <= k < |db.categories| ==> db.categories[k].userId != u.id
      ensures db.categories == old(db.categories) && db.nextCategoryId == old(db.nextCategoryId)
      ensures db.transactions == old(db.transactions) && db.defaultCategories == old(db.defaultCategories)
      ensures db.nextTransactionId == old(db.nextTransactionId)
    {
      u := User(db.nextUserId, code, now, None);
      assert u.id !in UserIds(db.users);
      InsertUserKeepsValid(db.users, db.categories, db.nextUserId, db.nextCategoryId, u);
      db.users := db.users + [u];
      db.nextUserId := db.nextUserId + 1;
    }

    /** The batch insert of one copy of every template for a user that owns no category yet. */
    method CopyDefaults(userId: nat)
      requires db.Valid() && DefaultsDistinct(db.defaultCategories)
      requires userId in UserIds(db.users)
      requires forall k :: 0 <= k < |db.categories| ==> db.categories[k].userId != userId
      modifies db
      ensures db.Valid()
      ensures db.categories == old(db.categories) + SeedRows(db.defaultCategories, userId, old(db.nextCategoryId))
      ensures db.nextCategoryId == old(db.nextCategoryId) + |db.defaultCategories|
      ensures db.users == old(db.users) && db.nextUserId == old(db.nextUserId)
      ensures db.transactions == old(db.transactions) && db.defaultCategories == old(db.defaultCategories)
      ensures db.nextTransactionId == old(db.nextTransactionId)
    {
      SeedKeepsValid(db.users, db.categories, db.transactions, db.nextCategoryId, db.nextTransactionId, db.defaultCategories, userId);
      db.categories := db.categories + SeedRows(db.defaultCategories, userId, db.nextCategoryId);
      db.nextCategoryId := db.nextCategoryId + |db.defaultCategories|;
    }

    /**
     * Draws candidates until one is free. The source loops until then; here the
     * number of draws is bounded by `maxAttempts`, and `None` means every draw
     * was taken. A returned code is the first free draw: twelve characters of
     * A-Z and 0-9 that no user holds.
     */
    method GenerateCode(roll: (nat, nat) -> AlphabetIndex, maxAttempts: nat) returns (r: Option<string>)
      ensures r.Some? ==> |r.value| == CodeLength && forall i :: 0 <= i < |r.value| ==> IsCodeChar(r.value[i])
      ensures r.Some? ==> !Taken(db.users, r.value)
      ensures r.Some? ==> exists a :: 0 <= a < maxAttempts && r.value == Candidate(roll, a)
                                      && forall b :: 0 <= b < a ==> Taken(db.users, Candidate(roll, b))
      ensures r.None? ==> forall a :: 0 <= a < maxAttempts ==> Taken(db.users, Candidate(roll, a))
    {
      var attempt := 0;
      while attempt < maxAttempts
        invariant 0 <= attempt <= maxAttempts
        invariant forall b :: 0 <= b < attempt ==> Taken(db.users, Candidate(roll, b))
        decreases maxAttempts - attempt
      {
        var code := DrawCode(roll, attempt);
        var user := FindByCode(code);
        if user.None? {
          return Some(code);
        }
        attempt := attempt + 1;
      }
      r := None;
    }

    /** The inner `for` loop: twelve draws appended one by one. */
    method DrawCode(roll: (nat, nat) -> AlphabetIndex, attempt: nat) returns (code: string)
      ensures code == Candidate(roll, attempt)
    {
      code := "";
      for i := 0 to CodeLength
        invariant |code| == i
        invariant forall j :: 0 <= j < i ==> code[j] == CodeAlphabet[roll(attempt, j)]
      {
        code := code + [CodeAlphabet[roll(attempt, i)]];
      }
    }
  }
}
