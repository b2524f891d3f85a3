/**
 * The relational store shared by the three services: the users, categories,
 * default_categories and transactions tables, each a sequence of rows in
 * primary-key order, with the next auto-increment value of each key.
 *
 * `Db.Valid()` holds what the schema enforces (primary keys, the unique code,
 * the unique (user, name, type) triple, foreign keys, column widths) together
 * with what the services keep true on top of it (a transaction's category
 * belongs to the transaction's user; amounts are not negative; notes have at
 * most 500 characters).
 */
module Database {
  import opened Wrappers
  import opened Entities
  import opened Seqs

  // ----- users -----

  predicate UsersValid(users: seq<User>, nextId: nat) {
    && (forall i :: 0 <= i < |users| ==> 1 <= users[i].id < nextId)
    && (forall i, j :: 0 <= i < j < |users| ==> users[i].id < users[j].id)
    && (forall i, j :: 0 <= i < j < |users| ==> users[i].code != users[j].code)
    && (forall i :: 0 <= i < |users| ==> |users[i].code| <= CodeWidth)
  }

  function UserIds(users: seq<User>): set<nat> {
    set u | u in users :: u.id
  }

  // ----- categories -----

  /** Two rows clash on the unique key (user, name, type). */
  predicate SameKey(a: Category, b: Category) {
    a.userId == b.userId && a.name == b.name && a.kind == b.kind
  }

  predicate CategoriesValid(cats: seq<Category>, users: seq<User>, nextId: nat) {
    && (forall i :: 0 <= i < |cats| ==> 1 <= cats[i].id < nextId)
    && (forall i, j :: 0 <= i < j < |cats| ==> cats[i].id < cats[j].id)
    && (forall i, j :: 0 <= i < j < |cats| ==> !SameKey(cats[i], cats[j]))
    && (forall i :: 0 <= i < |cats| ==> CategoryFits(cats[i]))
    && (forall i :: 0 <= i < |cats| ==> cats[i].userId in UserIds(users))
  }

  predicate DefaultsFit(defaults: seq<DefaultCategory>) {
    forall i :: 0 <= i < |defaults| ==> DefaultCategoryFits(defaults[i])
  }

  /** The (id, owner) pairs of the category table. */
  function CategoryOwners(cats: seq<Category>): set<(nat, nat)> {
    set c | c in cats :: (c.id, c.userId)
  }

  // ----- transactions -----

  predicate TransactionsValid(txs: seq<Transaction>, cats: seq<Category>, nextId: nat) {
    && (forall i :: 0 <= i < |txs| ==> 1 <= txs[i].id < nextId)
    && (forall i, j :: 0 <= i < j < |txs| ==> txs[i].id < txs[j].id)
    && (forall i :: 0 <= i < |txs| ==> 0 <= txs[i].amount < AmountBound)
    && (forall i :: 0 <= i < |txs| ==> OptionalFits(txs[i].note, 500))
    && (forall i :: 0 <= i < |txs| ==> (txs[i].categoryId, txs[i].userId) in CategoryOwners(cats))
  }

  // ----- lookups (findOne with a WHERE on key columns) -----

  function UserWithId(id: int): User -> bool {
    (u: User) => u.id == id
  }

  function UserWithCode(code: string): User -> bool {
    (u: User) => u.code == code
  }

  /** `where: { id, userId }` on categories. */
  function CategoryOf(id: int, userId: nat): Category -> bool {
    (c: Category) => c.id == id && c.userId == userId
  }

  /** `where: { userId, name, type }` on categories. */
  function CategoryNamed(userId: nat, name: string, kind: CategoryType): Category -> bool {
    (c: Category) => c.userId == userId && c.name == name && c.kind == kind
  }

  /** `where: { id, userId }` on transactions. */
  function TransactionOf(id: int, userId: nat): Transaction -> bool {
    (t: Transaction) => t.id == id && t.userId == userId
  }

  /** The transactions that reference a category (the LEFT JOIN the delete guard counts). */
  function ReferencesCategory(categoryId: int): Transaction -> bool {
    (t: Transaction) => t.categoryId == categoryId
  }

  class Db {
    var users: seq<User>
    var categories: seq<Category>
    var defaultCategories: seq<DefaultCategory>
    var transactions: seq<Transaction>
    var nextUserId: nat
    var nextCategoryId: nat
    var nextTransactionId: nat

    ghost predicate Valid()
      reads this
    {
      && 1 <= nextUserId && 1 <= nextCategoryId && 1 <= nextTransactionId
      && UsersValid(users, nextUserId)
      && CategoriesValid(categories, users, nextCategoryId)
      && DefaultsFit(defaultCategories)
      && TransactionsValid(transactions, categories, nextTransactionId)
    }

    /** An empty store whose default_categories table holds `defaults`. */
    constructor (defaults: seq<DefaultCategory>)
      requires DefaultsFit(defaults)
      ensures Valid()
      ensures users == [] && categories == [] && transactions == []
      ensures defaultCategories == defaults
      ensures nextUserId == 1 && nextCategoryId == 1 && nextTransactionId == 1
    {
      users, categories, transactions := [], [], [];
      defaultCategories := defaults;
      nextUserId, nextCategoryId, nextTransactionId := 1, 1, 1;
    }
  }

  // ----- how writes keep the tables valid -----

  /** A user row may be added with the next id and a code nobody holds. */
  lemma InsertUserKeepsValid(users: seq<User>, cats: seq<Category>, nextUser: nat, nextCat: nat, u: User)
    requires UsersValid(users, nextUser) && CategoriesValid(cats, users, nextCat)
    requires u.id == nextUser >= 1 && |u.code| <= CodeWidth
    requires forall i :: 0 <= i < |users| ==> users[i].code != u.code
    ensures UsersValid(users + [u], nextUser + 1)
    ensures CategoriesValid(cats, users + [u], nextCat)
    ensures UserIds(users + [u]) == UserIds(users) + {u.id}
  {
    var users' := users + [u];
    forall i, j | 0 <= i < j < |users'| ensures users'[i].code != users'[j].code {
      if j == |users| {
        assert users'[j] == u;
      } else {
        assert users'[i] == users[i] && users'[j] == users[j];
      }
    }
    forall x | x in UserIds(users) ensures x in UserIds(users') {
      var w :| w in users && w.id == x;
      assert w in users';
    }
    assert u in users';
  }

  /** Changing a user row in place keeps the tables valid as long as its id and code stay. */
  lemma ReplaceUserKeepsValid(users: seq<User>, cats: seq<Category>, nextUser: nat, nextCat: nat, i: nat, u: User)
    requires UsersValid(users, nextUser) && CategoriesValid(cats, users, nextCat)
    requires i < |users| && u.id == users[i].id && u.code == users[i].code
    ensures UsersValid(users[i := u], nextUser)
    ensures CategoriesValid(cats, users[i := u], nextCat)
    ensures UserIds(users[i := u]) == UserIds(users)
  {
    var users' := users[i := u];
    forall x | x in UserIds(users) ensures x in UserIds(users') {
      var k :| 0 <= k < |users| && users[k].id == x;
      assert users'[k].id == x;
      assert users'[k] in users';
    }
    forall x | x in UserIds(users') ensures x in UserIds(users) {
      var k :| 0 <= k < |users'| && users'[k].id == x;
      assert users[k].id == x;
      assert users[k] in users;
    }
  }

  /** A category row may be added with the next id when its (user, name, type) is new. */
  lemma InsertCategoryKeepsValid(
    users: seq<User>, cats: seq<Category>, txs: seq<Transaction>, nextCat: nat, nextTx: nat, c: Category)
    requires CategoriesValid(cats, users, nextCat) && TransactionsValid(txs, cats, nextTx)
    requires c.id == nextCat >= 1 && CategoryFits(c) && c.userId in UserIds(users)
    requires forall i :: 0 <= i < |cats| ==> !SameKey(cats[i], c)
    ensures CategoriesValid(cats + [c], users, nextCat + 1)
    ensures TransactionsValid(txs, cats + [c], nextTx)
  {
    var cats' := cats + [c];
    forall i, j | 0 <= i < j < |cats'| ensures !SameKey(cats'[i], cats'[j]) {
      if j == |cats| {
        assert cats'[j] == c;
      } else {
        assert cats'[i] == cats[i] && cats'[j] == cats[j];
      }
    }
    CategoryOwnersGrow(cats, cats');
  }

  lemma CategoryOwnersGrow(cats: seq<Category>, cats': seq<Category>)
    requires forall c :: c in cats ==> c in cats'
    ensures CategoryOwners(cats) <= CategoryOwners(cats')
  {
    forall p | p in CategoryOwners(cats) ensures p in CategoryOwners(cats') {
      var c :| c in cats && (c.id, c.userId) == p;
    }
  }

  /**
   * Changing a category row in place keeps the tables valid when the id, the owner
   * and the type stay, the new values fit their columns and no other row of the
   * owner has the new (name, type).
   */
  lemma ReplaceCategoryKeepsValid(
    users: seq<User>, cats: seq<Category>, txs: seq<Transaction>, nextCat: nat, nextTx: nat, i: nat, c: Category)
    requires CategoriesValid(cats, users, nextCat) && TransactionsValid(txs, cats, nextTx)
    requires i < |cats| && c.id == cats[i].id && c.userId == cats[i].userId && c.kind == cats[i].kind
    requires CategoryFits(c)
    requires forall j :: 0 <= j < |cats| && j != i ==> !SameKey(cats[j], c)
    ensures CategoriesValid(cats[i := c], users, nextCat)
    ensures TransactionsValid(txs, cats[i := c], nextTx)
  {
    var cats' := cats[i := c];
    forall a, b | 0 <= a < b < |cats'| ensures !SameKey(cats'[a], cats'[b]) {
      if a == i {
        assert !SameKey(cats[b], c);
      } else if b == i {
        assert !SameKey(cats[a], c);
      }
    }
    assert CategoryOwners(cats') == CategoryOwners(cats) by {
      forall p | p in CategoryOwners(cats) ensures p in CategoryOwners(cats') {
        var k :| 0 <= k < |cats| && (cats[k].id, cats[k].userId) == p;
        assert (cats'[k].id, cats'[k].userId) == p;
        assert cats'[k] in cats';
      }
      forall p | p in CategoryOwners(cats') ensures p in CategoryOwners(cats) {
        var k :| 0 <= k < |cats'| && (cats'[k].id, cats'[k].userId) == p;
        assert (cats[k].id, cats[k].userId) == p;
        assert cats[k] in cats;
      }
    }
  }

  /** A category row that no transaction references may be deleted. */
  lemma RemoveCategoryKeepsValid(
    users: seq<User>, cats: seq<Category>, txs: seq<Transaction>, nextCat: nat, nextTx: nat, i: nat)
    requires CategoriesValid(cats, users, nextCat) && TransactionsValid(txs, cats, nextTx)
    requires i < |cats| && Filter(txs, ReferencesCategory(cats[i].id)) == []
    ensures CategoriesValid(RemoveAt(cats, i), users, nextCat)
    ensures TransactionsValid(txs, RemoveAt(cats, i), nextTx)
  {
    RemoveCategoryKeepsCategories(users, cats, nextCat, i);
    RemoveCategoryKeepsReferences(cats, txs, i);
  }

  lemma RemoveCategoryKeepsCategories(users: seq<User>, cats: seq<Category>, nextCat: nat, i: nat)
    requires CategoriesValid(cats, users, nextCat) && i < |cats|
    ensures CategoriesValid(RemoveAt(cats, i), users, nextCat)
  {
    var cats' := RemoveAt(cats, i);
    forall a, b | 0 <= a < b < |cats'| ensures cats'[a].id < cats'[b].id && !SameKey(cats'[a], cats'[b]) {
      var a' := if a < i then a else a + 1;
      var b' := if b < i then b else b + 1;
      assert cats'[a] == cats[a'] && cats'[b] == cats[b'];
    }
  }

  lemma RemoveCategoryKeepsReferences(cats: seq<Category>, txs: seq<Transaction>, i: nat)
    requires i < |cats| && Filter(txs, ReferencesCategory(cats[i].id)) == []
    requires forall k :: 0 <= k < |txs| ==> (txs[k].categoryId, txs[k].userId) in CategoryOwners(cats)
    ensures forall k :: 0 <= k < |txs| ==> (txs[k].categoryId, txs[k].userId) in CategoryOwners(RemoveAt(cats, i))
  {
    forall k | 0 <= k < |txs| ensures (txs[k].categoryId, txs[k].userId) in CategoryOwners(RemoveAt(cats, i)) {
      var t := txs[k];
      assert t.categoryId != cats[i].id;
      var c :| c in cats && (c.id, c.userId) == (t.categoryId, t.userId);
      var m :| 0 <= m < |cats| && cats[m] == c;
      RemoveAtKeeps(cats, i, m);
    }
  }

  /** A transaction row may be added with the next id when its category belongs to its user. */
  lemma InsertTransactionKeepsValid(txs: seq<Transaction>, cats: seq<Category>, nextTx: nat, t: Transaction)
    requires TransactionsValid(txs, cats, nextTx)
    requires t.id == nextTx >= 1 && 0 <= t.amount < AmountBound && OptionalFits(t.note, 500)
    requires (t.categoryId, t.userId) in CategoryOwners(cats)
    ensures TransactionsValid(txs + [t], cats, nextTx + 1)
  {
  }

  /** Changing a transaction row in place keeps the table valid under the same conditions. */
  lemma ReplaceTransactionKeepsValid(txs: seq<Transaction>, cats: seq<Category>, nextTx: nat, i: nat, t: Transaction)
    requires TransactionsValid(txs, cats, nextTx)
    requires i < |txs| && t.id == txs[i].id && 0 <= t.amount < AmountBound && OptionalFits(t.note, 500)
    requires (t.categoryId, t.userId) in CategoryOwners(cats)
    ensures TransactionsValid(txs[i := t], cats, nextTx)
  {
  }

  /** Any transaction row may be deleted. */
  lemma RemoveTransactionKeepsValid(txs: seq<Transaction>, cats: seq<Category>, nextTx: nat, i: nat)
    requires TransactionsValid(txs, cats, nextTx) && i < |txs|
    ensures TransactionsValid(RemoveAt(txs, i), cats, nextTx)
  {
    var txs' := RemoveAt(txs, i);
    forall a, b | 0 <= a < b < |txs'| ensures txs'[a].id < txs'[b].id {
      var a' := if a < i then a else a + 1;
      var b' := if b < i then b else b + 1;
      assert txs'[a] == txs[a'] && txs'[b] == txs[b'];
    }
    forall k | 0 <= k < |txs'| ensures txs'[k] in txs {
      var k' := if k < i then k else k + 1;
      assert txs'[k] == txs[k'];
    }
  }
}
