/**
 * The category store: the categories table behind a cache-aside layer.
 *
 * The cache is a map from the keys of `CategoryCacheKeys` to the lists the
 * list query returned. Entries never expire; every successful write of a
 * user's rows deletes that user's three keys. `CategoriesService.Valid()`
 * says that every cached list is exactly what the query would return from
 * the table now, so a cache hit and a cache miss answer alike.
 */
module Categories {
  import opened Wrappers
  import opened Entities
  import opened Seqs
  import opened Database
  import opened CategoryCacheKeys
  import opened CategoryDto

  // ----- the order of a list read -----

  /** Code-point lexicographic order on names; a proper prefix comes first. */
  predicate LexLe(a: string, b: string) {
    |a| == 0 || (|b| > 0 && (a[0] < b[0] || (a[0] == b[0] && LexLe(a[1..], b[1..]))))
  }

  lemma {:induction false} LexLeTotal(a: string, b: string)
    ensures LexLe(a, b) || LexLe(b, a)
  {
    if |a| > 0 && |b| > 0 && a[0] == b[0] {
      LexLeTotal(a[1..], b[1..]);
    }
  }

  lemma {:induction false} LexLeTransitive(a: string, b: string, c: string)
    requires LexLe(a, b) && LexLe(b, c)
    ensures LexLe(a, c)
  {
    if |a| > 0 && |b| > 0 && |c| > 0 && a[0] == b[0] && b[0] == c[0] {
      LexLeTransitive(a[1..], b[1..], c[1..]);
    }
  }

  /** `ORDER BY sortOrder ASC, name ASC`. */
  function ListedBefore(): (Category, Category) -> bool {
    (a: Category, b: Category) => a.sortOrder < b.sortOrder || (a.sortOrder == b.sortOrder && LexLe(a.name, b.name))
  }

  lemma ListedBeforeIsTotalPreorder()
    ensures TotalPreorder(ListedBefore())
  {
    forall a: Category, b: Category ensures ListedBefore()(a, b) || ListedBefore()(b, a) {
      LexLeTotal(a.name, b.name);
    }
    forall a: Category, b: Category, c: Category | ListedBefore()(a, b) && ListedBefore()(b, c)
      ensures ListedBefore()(a, c)
    {
      if a.sortOrder == b.sortOrder && b.sortOrder == c.sortOrder {
        LexLeTransitive(a.name, b.name, c.name);
      }
    }
  }

  /** `WHERE userId = :userId`, with `AND type = :type` when a type is given. */
  function Selects(userId: nat, t: Option<CategoryType>): Category -> bool {
    (c: Category) => c.userId == userId && (t.None? || c.kind == t.value)
  }

  /** The list query of `findAllByUser`: the user's rows of the type, in listing order. */
  function CategoryQuery(cats: seq<Category>, userId: nat, t: Option<CategoryType>): (r: seq<Category>)
    ensures forall i :: 0 <= i < |r| ==> r[i] in cats && r[i].userId == userId && (t.Some? ==> r[i].kind == t.value)
    ensures forall i :: 0 <= i < |cats| && cats[i].userId == userId && (t.None? || cats[i].kind == t.value) ==> cats[i] in r
    ensures multiset(r) == multiset(Filter(cats, Selects(userId, t)))
    ensures SortedBy(r, ListedBefore())
  {
    var selected := Filter(cats, Selects(userId, t));
    ListedBeforeIsTotalPreorder();
    SortBySorted(selected, ListedBefore());
    var r := SortBy(selected, ListedBefore());
    SameMultisetSameMembers(r, selected);
    r
  }

  // ----- writes and the other users' list reads -----

  /** Appending a row of another user leaves a user's list read as it was. */
  lemma AppendKeepsOtherQueries(cats: seq<Category>, c: Category, v: nat, t: Option<CategoryType>)
    requires c.userId != v
    ensures CategoryQuery(cats + [c], v, t) == CategoryQuery(cats, v, t)
  {
    FilterAppendRejected(cats, c, Selects(v, t));
  }

  /** Changing a row of another user (keeping its owner) leaves a user's list read as it was. */
  lemma ReplaceKeepsOtherQueries(cats: seq<Category>, i: nat, c: Category, v: nat, t: Option<CategoryType>)
    requires i < |cats| && cats[i].userId != v && c.userId != v
    ensures CategoryQuery(cats[i := c], v, t) == CategoryQuery(cats, v, t)
  {
    FilterReplaceRejected(cats, i, c, Selects(v, t));
  }

  /** Deleting a row of another user leaves a user's list read as it was. */
  lemma RemoveKeepsOtherQueries(cats: seq<Category>, i: nat, v: nat, t: Option<CategoryType>)
    requires i < |cats| && cats[i].userId != v
    ensures CategoryQuery(RemoveAt(cats, i), v, t) == CategoryQuery(cats, v, t)
  {
    FilterRemoveRejected(cats, i, Selects(v, t));
  }

  /** Appending rows of one user leaves every other user's list read as it was. */
  lemma {:induction false} AppendOwnedKeepsOtherQueries(cats: seq<Category>, rows: seq<Category>, v: nat, t: Option<CategoryType>)
    requires forall k :: 0 <= k < |rows| ==> rows[k].userId != v
    ensures CategoryQuery(cats + rows, v, t) == CategoryQuery(cats, v, t)
  {
    if rows != [] {
      var last := rows[|rows| - 1];
      var init := rows[..|rows| - 1];
      assert cats + rows == (cats + init) + [last];
      AppendKeepsOtherQueries(cats + init, last, v, t);
      AppendOwnedKeepsOtherQueries(cats, init, v, t);
    } else {
      assert cats + rows == cats;
    }
  }

  // ----- cache invariants -----

  /** Every cached list equals what the list query returns from `cats`. */
  ghost predicate CacheCoherent(cache: map<string, seq<Category>>, cats: seq<Category>) {
    forall u: nat, t: Option<CategoryType> :: GetCacheKey(u, t) in cache ==> cache[GetCacheKey(u, t)] == CategoryQuery(cats, u, t)
  }

  /** Coherent for every user but `userId`, whose rows were just written. */
  ghost predicate CoherentExcept(cache: map<string, seq<Category>>, cats: seq<Category>, userId: nat) {
    forall u: nat, t: Option<CategoryType> ::
      u != userId && GetCacheKey(u, t) in cache ==> cache[GetCacheKey(u, t)] == CategoryQuery(cats, u, t)
  }

  /** Lists are only cached for users that exist (the caller's id comes from a validated token). */
  ghost predicate CachedUsersExist(cache: map<string, seq<Category>>, users: seq<User>) {
    forall u: nat, t: Option<CategoryType> :: GetCacheKey(u, t) in cache ==> u in UserIds(users)
  }

  /** A write of `userId`'s rows leaves the other users' cached lists correct. */
  lemma WriteKeepsOthersCoherent(cache: map<string, seq<Category>>, cats: seq<Category>, cats': seq<Category>, userId: nat)
    requires CacheCoherent(cache, cats)
    requires forall v: nat, t: Option<CategoryType> :: v != userId ==> CategoryQuery(cats', v, t) == CategoryQuery(cats, v, t)
    ensures CoherentExcept(cache, cats', userId)
  {
  }

  /** Deleting the user's three keys makes a cache that was stale only for that user coherent again. */
  lemma InvalidationRestoresCoherence(cache: map<string, seq<Category>>, cats: seq<Category>, userId: nat)
    requires CoherentExcept(cache, cats, userId)
    ensures CacheCoherent(cache - UserCacheKeys(userId), cats)
  {
    forall u: nat, t: Option<CategoryType> | GetCacheKey(u, t) in cache - UserCacheKeys(userId)
      ensures (cache - UserCacheKeys(userId))[GetCacheKey(u, t)] == CategoryQuery(cats, u, t)
    {
      UserCacheKeysExactly(userId, u, t);
    }
  }

  /** Storing a freshly queried list of an existing user under its own key keeps both cache invariants. */
  lemma StoreKeepsCoherence(
    cache: map<string, seq<Category>>, cats: seq<Category>, users: seq<User>, userId: nat, t: Option<CategoryType>)
    requires CacheCoherent(cache, cats) && CachedUsersExist(cache, users) && userId in UserIds(users)
    ensures CacheCoherent(cache[GetCacheKey(userId, t) := CategoryQuery(cats, userId, t)], cats)
    ensures CachedUsersExist(cache[GetCacheKey(userId, t) := CategoryQuery(cats, userId, t)], users)
  {
    var cache' := cache[GetCacheKey(userId, t) := CategoryQuery(cats, userId, t)];
    forall u: nat, t': Option<CategoryType> | GetCacheKey(u, t') in cache'
      ensures cache'[GetCacheKey(u, t')] == CategoryQuery(cats, u, t') && u in UserIds(users)
    {
      if GetCacheKey(u, t') == GetCacheKey(userId, t) {
        GetCacheKeyInjective(u, t', userId, t);
      }
    }
  }

  /**
   * Rows seeded for a brand-new user need no invalidation: nothing can be cached
   * for a user that did not exist, so every cached list stays correct.
   */
  lemma SeedingKeepsCoherence(
    cache: map<string, seq<Category>>, cats: seq<Category>, users: seq<User>, rows: seq<Category>, newUser: nat)
    requires CacheCoherent(cache, cats) && CachedUsersExist(cache, users)
    requires newUser !in UserIds(users)
    requires forall k :: 0 <= k < |rows| ==> rows[k].userId == newUser
    ensures CacheCoherent(cache, cats + rows)
  {
    forall u: nat, t: Option<CategoryType> | GetCacheKey(u, t) in cache
      ensures cache[GetCacheKey(u, t)] == CategoryQuery(cats + rows, u, t)
    {
      AppendOwnedKeepsOtherQueries(cats, rows, u, t);
    }
  }

  // ----- lookups -----

  /** `findOne({ where: { id, userId } })`: the position of the user's row with that id, if any. */
  function Locate(cats: seq<Category>, id: int, userId: nat): (r: Option<nat>)
    ensures r.Some? ==> r.value < |cats| && cats[r.value].id == id && cats[r.value].userId == userId
    ensures r.None? <==> forall i :: 0 <= i < |cats| ==> !(cats[i].id == id && cats[i].userId == userId)
  {
    FirstIndex(cats, CategoryOf(id, userId))
  }

  /** `findOne({ where: { userId, name, type } })` found a row. */
  function HasCategory(cats: seq<Category>, userId: nat, name: string, kind: CategoryType): (b: bool)
    ensures b <==> exists i :: 0 <= i < |cats| && cats[i].userId == userId && cats[i].name == name && cats[i].kind == kind
  {
    FirstIndex(cats, CategoryNamed(userId, name, kind)).Some?
  }

  /** The number of transactions whose category is `categoryId` (the LEFT JOIN count). */
  function ReferenceCount(txs: seq<Transaction>, categoryId: int): nat {
    |Filter(txs, ReferencesCategory(categoryId))|
  }

  /** A category id names at most one row, so after deleting it no row carries that id. */
  lemma RemovedIdIsGone(cats: seq<Category>, users: seq<User>, nextId: nat, i: nat)
    requires CategoriesValid(cats, users, nextId) && i < |cats|
    ensures forall k :: 0 <= k < |RemoveAt(cats, i)| ==> RemoveAt(cats, i)[k].id != cats[i].id
    ensures |RemoveAt(cats, i)| == |cats| - 1
  {
    var r := RemoveAt(cats, i);
    forall k | 0 <= k < |r| ensures r[k].id != cats[i].id {
      if k < i {
        assert r[k] == cats[k];
      } else {
        assert r[k] == cats[k + 1];
      }
    }
  }

  // ----- building rows from request bodies -----

  /** `create({ ...createDto, userId })`: omitted columns take their defaults (sortOrder 0, isDefault false). */
  function NewCategory(id: nat, userId: nat, d: CreateCategoryDto): Category {
    Category(id, userId, d.name, d.kind, d.icon, d.color, if d.sortOrder.Some? then d.sortOrder.value else 0, false)
  }

  /**
   * `Object.assign(category, updateDto)`: each supplied field overwrites, the rest stay.
   * The body has no id, owner or type, so those never change.
   */
  function Merge(c: Category, d: UpdateCategoryDto): (m: Category)
    ensures m.id == c.id && m.userId == c.userId && m.kind == c.kind && m.isDefault == c.isDefault
    ensures d.name.None? ==> m.name == c.name
    ensures d.icon.None? ==> m.icon == c.icon
    ensures d.color.None? ==> m.color == c.color
    ensures d.sortOrder.None? ==> m.sortOrder == c.sortOrder
    ensures d.name.Some? ==> m.name == d.name.value
    ensures d.icon.Some? ==> m.icon == d.icon
    ensures d.color.Some? ==> m.color == d.color
    ensures d.sortOrder.Some? ==> m.sortOrder == d.sortOrder.value
    ensures d == EmptyUpdate ==> m == c
  {
    c.(name := if d.name.Some? then d.name.value else c.name,
       icon := if d.icon.Some? then d.icon else c.icon,
       color := if d.color.Some? then d.color else c.color,
       sortOrder := if d.sortOrder.Some? then d.sortOrder.value else c.sortOrder)
  }

  /** `updateDto.name && updateDto.name !== category.name`: the name check runs only for a non-empty new name. */
  predicate RenameChecked(c: Category, d: UpdateCategoryDto) {
    d.name.Some? && d.name.value != "" && d.name.value != c.name
  }

  /** Some other row than row `i` has the (user, name, type) of `c`: the unique key refuses the save. */
  predicate Clashes(cats: seq<Category>, i: nat, c: Category) {
    exists j :: 0 <= j < |cats| && j != i && SameKey(cats[j], c)
  }

  /**
   * The service's own name check leaves one way through to the unique key: a
   * rename to the empty string, which is falsy and skips the check.
   */
  lemma ClashNeedsEmptyName(cats: seq<Category>, users: seq<User>, nextId: nat, i: nat, d: UpdateCategoryDto)
    requires CategoriesValid(cats, users, nextId) && i < |cats|
    requires !(RenameChecked(cats[i], d) && HasCategory(cats, cats[i].userId, d.name.value, cats[i].kind))
    requires Clashes(cats, i, Merge(cats[i], d))
    ensures d.name == Some("") && cats[i].name != ""
  {
    var m := Merge(cats[i], d);
    var j :| 0 <= j < |cats| && j != i && SameKey(cats[j], m);
    if j < i {
      assert !SameKey(cats[j], cats[i]);
    } else {
      assert !SameKey(cats[i], cats[j]);
    }
    assert m.name != cats[i].name;
    assert HasCategory(cats, cats[i].userId, m.name, cats[i].kind) by {
      assert cats[j].userId == cats[i].userId && cats[j].name == m.name && cats[j].kind == cats[i].kind;
    }
  }

  class CategoriesService {
    const db: Db
    var cache: map<string, seq<Category>>

    ghost predicate Valid()
      reads this, db
    {
      && db.Valid()
      && CacheCoherent(cache, db.categories)
      && CachedUsersExist(cache, db.users)
    }

    constructor (db: Db)
      requires db.Valid()
      ensures Valid() && this.db == db && cache == map[]
    {
      this.db := db;
      cache := map[];
    }

    /**
     * Deletes the user's three keys, after a write of that user's rows (the only
     * entries that may be stale then). Every other entry stays.
     */
    method InvalidateUserCache(userId: nat)
      requires db.Valid() && CoherentExcept(cache, db.categories, userId) && CachedUsersExist(cache, db.users)
      modifies this
      ensures Valid()
      ensures cache == old(cache) - UserCacheKeys(userId)
      ensures forall t: Option<CategoryType> :: GetCacheKey(userId, t) !in cache
    {
      InvalidationRestoresCoherence(cache, db.categories, userId);
      cache := cache - UserCacheKeys(userId);
    }

    /**
     * A hit returns the stored list (an empty list is a hit too) and leaves the
     * cache alone; a miss runs the query and stores its result. Either way the
     * answer is the query's.
     */
    method FindAllByUser(userId: nat, t: Option<CategoryType>) returns (r: seq<Category>)
      requires Valid() && userId in UserIds(db.users)
      modifies this
      ensures Valid()
      ensures r == CategoryQuery(db.categories, userId, t)
      ensures old(GetCacheKey(userId, t) in cache) ==> r == old(cache[GetCacheKey(userId, t)]) && cache == old(cache)
      ensures cache == old(cache)[GetCacheKey(userId, t) := r]
    {
      var key := GetCacheKey(userId, t);
      if key in cache {
        r := cache[key];
        assert cache == cache[key := r];
        return;
      }
      r := StoreQuery(userId, t);
    }

    /** A miss: the list query runs and its result is stored under the key. */
    method StoreQuery(userId: nat, t: Option<CategoryType>) returns (r: seq<Category>)
      requires Valid() && userId in UserIds(db.users)
      modifies this
      ensures Valid()
      ensures r == CategoryQuery(db.categories, userId, t)
      ensures cache == old(cache)[GetCacheKey(userId, t) := r]
    {
      r := CategoryQuery(db.categories, userId, t);
      StoreKeepsCoherence(cache, db.categories, db.users, userId, t);
      cache := cache[GetCacheKey(userId, t) := r];
    }

    method FindOne(id: int, userId: nat) returns (r: Result<Category>)
      ensures r.Ok? ==> r.value in db.categories && r.value.id == id && r.value.userId == userId
      ensures r.Err? ==> r.error == NotFound
      ensures r.Err? <==> forall i :: 0 <= i < |db.categories| ==> !(db.categories[i].id == id && db.categories[i].userId == userId)
    {
      match Locate(db.categories, id, userId)
      case None =>
        r := Err(NotFound);
      case Some(i) =>
        r := Ok(db.categories[i]);
    }

    /**
     * Conflict when the user already has a category of that name and type;
     * ConstraintViolation when the int column refuses the sort order; otherwise
     * one new row.
     */
    method Create(userId: nat, d: CreateCategoryDto) returns (r: Result<Category>)
      requires Valid() && userId in UserIds(db.users) && ValidCreateCategory(d)
      modifies this, db
      ensures Valid()
      ensures db.users == old(db.users) && db.defaultCategories == old(db.defaultCategories)
      ensures db.transactions == old(db.transactions)
      ensures db.nextUserId == old(db.nextUserId) && db.nextTransactionId == old(db.nextTransactionId)
      ensures old(HasCategory(db.categories, userId, d.name, d.kind)) ==>
        && r == Err(Conflict)
        && db.categories == old(db.categories) && db.nextCategoryId == old(db.nextCategoryId)
        && cache == old(cache)
      ensures !old(HasCategory(db.categories, userId, d.name, d.kind)) && d.sortOrder.Some? && !SortOrderFits(d.sortOrder.value) ==>
        && r == Err(ConstraintViolation)
        && db.categories == old(db.categories) && db.nextCategoryId == old(db.nextCategoryId)
        && cache == old(cache)
      ensures !old(HasCategory(db.categories, userId, d.name, d.kind)) && (d.sortOrder.None? || SortOrderFits(d.sortOrder.value)) ==>
        && r == Ok(NewCategory(old(db.nextCategoryId), userId, d))
        && db.categories == old(db.categories) + [r.value]
        && db.nextCategoryId == old(db.nextCategoryId) + 1
        && cache == old(cache) - UserCacheKeys(userId)
      ensures r != Err(ConstraintViolation) ==> HasCategory(db.categories, userId, d.name, d.kind)
    {
      if HasCategory(db.categories, userId, d.name, d.kind) {
        return Err(Conflict);
      }
      var c := NewCategory(db.nextCategoryId, userId, d);
      if !SortOrderFits(c.sortOrder) {
        return Err(ConstraintViolation);
      }
      var cats := db.categories;
      InsertCategoryKeepsValid(db.users, cats, db.transactions, db.nextCategoryId, db.nextTransactionId, c);
      forall v: nat, t: Option<CategoryType> | v != userId
        ensures CategoryQuery(cats + [c], v, t) == CategoryQuery(cats, v, t)
      {
        AppendKeepsOtherQueries(cats, c, v, t);
      }
      WriteUserRows(userId, cats + [c], db.nextCategoryId + 1);
      assert db.categories[|cats|] == c;
      r := Ok(c);
    }

    /**
     * NotFound when the user has no row with that id; Conflict when a checked
     * rename hits an existing name of the same type; ConstraintViolation when the
     * unique key or the int column of the sort order refuses the save; otherwise
     * the merged row replaces the old one.
     */
    method Update(id: int, userId: nat, d: UpdateCategoryDto) returns (r: Result<Category>)
      requires Valid() && ValidUpdateCategory(d)
      modifies this, db
      ensures Valid()
      ensures db.users == old(db.users) && db.defaultCategories == old(db.defaultCategories)
      ensures db.transactions == old(db.transactions)
      ensures db.nextUserId == old(db.nextUserId) && db.nextCategoryId == old(db.nextCategoryId)
      ensures db.nextTransactionId == old(db.nextTransactionId)
      ensures r.Err? ==> db.categories == old(db.categories) && cache == old(cache)
      ensures Locate(old(db.categories), id, userId).None? ==> r == Err(NotFound)
      ensures Locate(old(db.categories), id, userId).Some? ==>
        var i := Locate(old(db.categories), id, userId).value;
        var c := old(db.categories)[i];
        if RenameChecked(c, d) && HasCategory(old(db.categories), userId, d.name.value, c.kind) then
          r == Err(Conflict)
        else if Clashes(old(db.categories), i, Merge(c, d)) || !SortOrderFits(Merge(c, d).sortOrder) then
          r == Err(ConstraintViolation)
        else
          && r == Ok(Merge(c, d))
          && db.categories == old(db.categories)[i := Merge(c, d)]
          && cache == old(cache) - UserCacheKeys(userId)
    {
      var found := Locate(db.categories, id, userId);
      if found.None? {
        return Err(NotFound);
      }
      var i := found.value;
      var cats := db.categories;
      var c := cats[i];
      if RenameChecked(c, d) && HasCategory(cats, userId, d.name.value, c.kind) {
        return Err(Conflict);
      }
      var m := Merge(c, d);
      if Clashes(cats, i, m) || !SortOrderFits(m.sortOrder) {
        return Err(ConstraintViolation);
      }
      ReplaceCategoryKeepsValid(db.users, cats, db.transactions, db.nextCategoryId, db.nextTransactionId, i, m);
      forall v: nat, t: Option<CategoryType> | v != userId
        ensures CategoryQuery(cats[i := m], v, t) == CategoryQuery(cats, v, t)
      {
        ReplaceKeepsOtherQueries(cats, i, m, v, t);
      }
      WriteUserRows(userId, cats[i := m], db.nextCategoryId);
      r := Ok(m);
    }

    /**
     * NotFound when the user has no row with that id; Conflict while any
     * transaction references it; otherwise the row is deleted.
     */
    method Remove(id: int, userId: nat) returns (r: Result<()>)
      requires Valid()
      modifies this, db
      ensures Valid()
      ensures db.users == old(db.users) && db.defaultCategories == old(db.defaultCategories)
      ensures db.transactions == old(db.transactions)
      ensures db.nextUserId == old(db.nextUserId) && db.nextCategoryId == old(db.nextCategoryId)
      ensures db.nextTransactionId == old(db.nextTransactionId)
      ensures r.Err? ==> db.categories == old(db.categories) && cache == old(cache)
      ensures Locate(old(db.categories), id, userId).None? ==> r == Err(NotFound)
      ensures Locate(old(db.categories), id, userId).Some? ==>
        if ReferenceCount(db.transactions, id) > 0 then
          r == Err(Conflict)
        else
          && r == Ok(())
          && db.categories == RemoveAt(old(db.categories), Locate(old(db.categories), id, userId).value)
          && cache == old(cache) - UserCacheKeys(userId)
    {
      var found := Locate(db.categories, id, userId);
      if found.None? {
        return Err(NotFound);
      }
      var i := found.value;
      var cats := db.categories;
      if ReferenceCount(db.transactions, id) > 0 {
        return Err(Conflict);
      }
      RemoveCategoryKeepsValid(db.users, cats, db.transactions, db.nextCategoryId, db.nextTransactionId, i);
      forall v: nat, t: Option<CategoryType> | v != userId
        ensures CategoryQuery(RemoveAt(cats, i), v, t) == CategoryQuery(cats, v, t)
      {
        RemoveKeepsOtherQueries(cats, i, v, t);
      }
      WriteUserRows(userId, RemoveAt(cats, i), db.nextCategoryId);
      r := Ok(());
    }

    /**
     * Saves a category table that differs from the current one only in
     * `userId`'s rows, then drops that user's cached lists.
     */
    method WriteUserRows(userId: nat, cats: seq<Category>, nextCat: nat)
      requires Valid() && 1 <= nextCat
      requires CategoriesValid(cats, db.users, nextCat) && TransactionsValid(db.transactions, cats, db.nextTransactionId)
      requires forall v: nat, t: Option<CategoryType> :: v != userId ==> CategoryQuery(cats, v, t) == CategoryQuery(db.categories, v, t)
      modifies this, db
      ensures Valid()
      ensures db.categories == cats && db.nextCategoryId == nextCat
      ensures cache == old(cache) - UserCacheKeys(userId)
      ensures db.users == old(db.users) && db.defaultCategories == old(db.defaultCategories)
      ensures db.transactions == old(db.transactions)
      ensures db.nextUserId == old(db.nextUserId) && db.nextTransactionId == old(db.nextTransactionId)
    {
      WriteKeepsOthersCoherent(cache, db.categories, cats, userId);
      db.categories := cats;
      db.nextCategoryId := nextCat;
      InvalidateUserCache(userId);
    }

    /** True exactly when the user has a category with exactly that name and type. */
    method CheckExists(userId: nat, name: string, kind: CategoryType) returns (b: bool)
      ensures b <==> exists i :: 0 <= i < |db.categories| && db.categories[i].userId == userId
                                 && db.categories[i].name == name && db.categories[i].kind == kind
    {
      b := HasCategory(db.categories, userId, name, kind);
    }
  }
}
