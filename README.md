# money-notebook core, modelled in Dafny

money-notebook is a personal income/expense notebook. Its server (NestJS over
a relational database) keeps users, categories and transactions. Users log in
with a code of at most 12 characters and nothing else. A new user's categories
are copied from a table of default categories. Category lists are kept in a cache that
never expires. The transaction list is filtered, ordered newest first and
paged. The statistics endpoint sums amounts per type over a period. The web
client also has an in-memory category store that answers in place of the
server while its mock switch is on.

The project models these pieces:

- `wrappers.dfy` (`Wrappers`) holds `Option`.
- `seqs.dfy` (`Seqs`) holds the sequence vocabulary the queries are written in:
  `Filter`, `FirstIndex`, `RemoveAt`, `Window`, and the insertion sort `SortBy`
  with its sortedness and permutation lemmas.
- `entities.dfy` (`Entities`) holds the rows: `User`, `Category`,
  `DefaultCategory` and `Transaction`. It also holds the `Error`/`Result` pair
  and the column widths and ranges (the sort order is a 32-bit int). An
  `Error` is `NotFound`, `Conflict` or `ConstraintViolation`; the last is a
  save the database refuses.
- `database.dfy` (`Database`) holds the class `Db`. Its four tables are `seq`
  fields in auto-increment order. `Db.Valid()` holds the table constraints:
  - unique, ascending ids;
  - unique user codes;
  - the unique (user, name, type) key on categories;
  - column widths and ranges;
  - the foreign keys from categories to users and from transactions to
    categories.

  It also holds facts that no table constraint enforces but the services keep
  true:
  - a transaction's category belongs to the transaction's own user;
  - amounts are not negative;
  - notes have at most 500 characters.

  One lemma per kind of write shows that the write keeps `Db.Valid()`.
- `category_cache_keys.dfy` (`CategoryCacheKeys`) holds the cache keys
  `categories:user:<id>:<income|expense|all>`, with proofs that no two
  (user, type) pairs share a key.
- `category_dto.dfy` (`CategoryDto`) and `transaction_dto.dfy`
  (`TransactionDto`) turn the request bodies' validation rules into predicates.
  These predicates are the preconditions of the service methods. The filter's
  paging defaults are modelled here too.
- `categories_service.dfy` (`Categories`) is the category store, the class
  `CategoriesService`. It holds the table and a `map<string, seq<Category>>`
  cache. `CategoriesService.Valid()` adds this cache invariant: every cached
  entry equals the query for its key, and belongs to an existing user.
- `transactions_service.dfy` (`Transactions`) is the transaction store, the
  class `TransactionsService`. Its listing is specified by `FindAllQuery`,
  which filters, sorts and slices.
- `users_service.dfy` (`Users`) is the identity resolver, the class
  `UsersService`. It covers create-or-login, copying the default categories,
  and the code generator.
- `mock_category_service.dfy` (`MockCategories`) is the client's mock store,
  the class `MockCategoryService`, with its two lists.

Clocks and randomness are parameters:

- `now` is the time of a write.
- `loadedAt` is the time the client module was loaded.
- `roll(attempt, position)` is the index of the character picked by
  `Math.random()` at that attempt and position.

The caller's user id is a parameter too. In the server it comes from the
login token, which the token strategy resolves to an existing user
(api/src/auth/auth.service.ts:43-49). Methods whose invariants need that user
to exist therefore require it.

Some behaviour of the source is modelled as written and shown by a lemma:

- The category update checks for a name clash only when the new name is
  non-empty and differs from the old one. An empty name then reaches the save
  unchecked, and the unique key can refuse it. `ClashNeedsEmptyName` proves
  this is the only way a validated update reaches that refusal.
- The transaction update checks category ownership only for a truthy,
  different `categoryId`. A `categoryId` of 0 skips the check and is assigned.
  The foreign key then refuses the save, which the model reports as
  `ConstraintViolation`.
- Neither the create nor the update of a transaction compares the
  transaction's type with its category's type.

## Model

| member | source | states |
|---|---|---|
| CategoryCacheKeys.GetCacheKey | api/src/categories/categories.service.ts:14 | every key starts with the prefix `categories:user:` |
| CategoryCacheKeys.GetCacheKeyInjective | api/src/categories/categories.service.ts:25-29 | equal keys mean the same user and the same type (or both "all"): a typed key never equals the "all" key, and users never share keys |
| Entities.DecimalString | api/src/categories/categories.service.ts:27-28 | the text of a number is at least one character, at least two from 10 on, and made of decimal digits only |
| Entities.DecimalStringInjective | api/src/categories/categories.service.ts:27-28 | the decimal rendering of a user id is injective |
| CategoryCacheKeys.UserCacheKeysExactly | api/src/categories/categories.service.ts:31-37 | a key is among the three deleted for user u exactly when it is one of u's keys |
| Categories.CategoriesService.InvalidateUserCache | api/src/categories/categories.service.ts:31-39 | the cache afterwards is the old cache minus exactly user u's keys, so the cache invariant is restored |
| Categories.InvalidationRestoresCoherence | api/src/categories/categories.service.ts:31-39 | removing u's keys from a cache stale only for u makes every remaining entry equal its query |
| Categories.WriteKeepsOthersCoherent | api/src/categories/categories.service.ts:107-110 | a write that changes no other user's query leaves the cache stale at most for the writer |
| Categories.CategoryQuery | api/src/categories/categories.service.ts:55-65 | the result holds exactly the user's categories (of the type, when given), as a permutation of the table's matching rows, sorted by sortOrder then name |
| Categories.ListedBeforeIsTotalPreorder | api/src/categories/categories.service.ts:58-59 | the order by sortOrder, then name, is total and transitive |
| Categories.LexLeTotal | api/src/categories/categories.service.ts:59 | any two names are comparable |
| Categories.LexLeTransitive | api/src/categories/categories.service.ts:59 | the name order is transitive |
| Categories.CategoriesService.FindAllByUser | api/src/categories/categories.service.ts:41-71 | on a hit the stored list is returned and the cache is untouched; on a miss the query result is returned and stored under the key; either way the result equals the query, because the cache invariant is kept |
| Categories.CategoriesService.StoreQuery | api/src/categories/categories.service.ts:55-70 | on a miss the query result is returned and stored under exactly the requested key, and the cache invariant is kept |
| Categories.StoreKeepsCoherence | api/src/categories/categories.service.ts:65-68 | storing the query result under its key keeps the cache invariant |
| Categories.AppendKeepsOtherQueries | api/src/categories/categories.service.ts:102-107 | adding a row of one user changes no other user's query |
| Categories.ReplaceKeepsOtherQueries | api/src/categories/categories.service.ts:137-138 | replacing a row of one user changes no other user's query |
| Categories.RemoveKeepsOtherQueries | api/src/categories/categories.service.ts:164 | deleting a row of one user changes no other user's query |
| Categories.AppendOwnedKeepsOtherQueries | api/src/users/users.service.ts:61 | adding a batch of rows owned by others changes no other user's query |
| Categories.SeedingKeepsCoherence | api/src/users/users.service.ts:30-36 | seeding a brand-new user keeps every cached entry correct, since no entry can be that user's |
| Categories.Locate | api/src/categories/categories.service.ts:74-76 | finds a row with that id and owner, or none exists |
| Categories.CategoriesService.FindOne | api/src/categories/categories.service.ts:73-83 | returns the caller's row with that id; NotFound exactly when the caller has none |
| Categories.HasCategory | api/src/categories/categories.service.ts:90-96 | true exactly when the user has a row with that name and type |
| Categories.CategoriesService.Create | api/src/categories/categories.service.ts:85-113 | Conflict with table and cache unchanged when (user, name, type) exists; ConstraintViolation with table and cache unchanged when a supplied sort order is outside the 32-bit int column; otherwise exactly one new row owned by the user, built from the request, and the user's keys are gone; afterwards the triple exists unless the column refused the row |
| Categories.Merge | api/src/categories/categories.service.ts:137 | each supplied name, icon, color and sort order is written; each omitted field is kept; id, owner, type and the default flag never change; an empty update changes nothing |
| Categories.CategoriesService.Update | api/src/categories/categories.service.ts:115-144 | NotFound when the caller has no such row; Conflict on a checked rename to a used name of the same type; ConstraintViolation when the unique key refuses the save or the merged sort order is outside the 32-bit int column; otherwise the merged row replaces the old one and the user's keys are gone; errors change nothing |
| Categories.ClashNeedsEmptyName | api/src/categories/categories.service.ts:123-137 | when the conflict check passes but the merged row breaks the unique key, the new name was the empty string |
| Categories.CategoriesService.Remove | api/src/categories/categories.service.ts:146-168 | NotFound when the caller has no such row; Conflict with table and cache unchanged while any transaction references it; otherwise exactly that row is removed and the user's keys are gone |
| Categories.CategoriesService.WriteUserRows | api/src/categories/categories.service.ts:138-141 | a save that changes only one user's rows, followed by the invalidation, leaves the table as saved and the cache minus exactly that user's keys, with the cache invariant restored |
| Categories.RemovedIdIsGone | api/src/categories/categories.service.ts:164 | after the removal no row carries the removed id, and the table is one row shorter |
| Categories.CategoriesService.CheckExists | api/src/categories/categories.service.ts:170-179 | true exactly when the user has a category with exactly that name and type |
| Categories.CategoriesService.constructor | api/src/categories/categories.service.ts:18-23 | starts with an empty cache that satisfies the cache invariant |
| Database.Db.constructor | api/src/categories/entities/category.entity.ts:19-42 | empty tables that satisfy every table constraint |
| Database.InsertUserKeepsValid | api/src/users/entities/user.entity.ts:17-20 | a new user with a fresh id and an unused code of at most 12 characters keeps the user table valid |
| Database.ReplaceUserKeepsValid | api/src/users/users.service.ts:39-40 | rewriting a user with the same id and code keeps the tables valid and the set of user ids |
| Database.InsertCategoryKeepsValid | api/src/categories/entities/category.entity.ts:19-42 | a fitting row with a fresh id, an existing owner and an unused (user, name, type) keeps the tables valid |
| Database.CategoryOwnersGrow | api/src/transactions/entities/transaction.entity.ts:52-55 | more category rows never break a transaction's foreign key |
| Database.ReplaceCategoryKeepsValid | api/src/categories/entities/category.entity.ts:19-42 | a fitting replacement with the same id, owner and type and no key clash keeps the tables valid |
| Database.RemoveCategoryKeepsValid | api/src/transactions/entities/transaction.entity.ts:52-54 | deleting a category no transaction references keeps the tables valid |
| Database.RemoveCategoryKeepsCategories | api/src/categories/entities/category.entity.ts:19-21 | deleting a category row keeps the category constraints |
| Database.RemoveCategoryKeepsReferences | api/src/transactions/entities/transaction.entity.ts:52-55 | deleting an unreferenced category keeps every transaction's category reference |
| Database.InsertTransactionKeepsValid | api/src/transactions/entities/transaction.entity.ts:21-39 | a fitting transaction with a fresh id and an owned category keeps the table valid |
| Database.ReplaceTransactionKeepsValid | api/src/transactions/entities/transaction.entity.ts:21-39 | a fitting replacement with the same id and an owned category keeps the table valid |
| Database.RemoveTransactionKeepsValid | api/src/transactions/transactions.service.ts:138 | deleting a transaction keeps the table valid |
| CategoryDto.EmptyUpdateIsValid | api/src/categories/dto/category.dto.ts:58-96 | an update with every field omitted passes validation |
| CategoryDto.ValidCreateFitsColumns | api/src/categories/dto/category.dto.ts:17-47 | a valid create body fits the name, icon and color columns |
| TransactionDto.PageOf | api/src/transactions/dto/transaction.dto.ts:143-153 | page 1 when omitted, and at least 1 when valid |
| TransactionDto.LimitOf | api/src/transactions/dto/transaction.dto.ts:155-165 | limit 20 when omitted, and at least 1 when valid |
| TransactionDto.Offset | api/src/transactions/transactions.service.ts:53-59 | the skip is never negative, and it is 0 exactly on page 1 |
| Transactions.NewerOrSameIsTotalPreorder | api/src/transactions/transactions.service.ts:57-58 | newest-date-then-newest-creation is a total preorder |
| Transactions.Ordered | api/src/transactions/transactions.service.ts:26-58 | exactly the selected rows (the owner's, in the period when both dates are given, of the type and category when given), newest first |
| Transactions.OrderedIsPermutation | api/src/transactions/transactions.service.ts:56-62 | the ordered listing is a permutation of the matching rows: each appears exactly as often as in the table |
| Transactions.FindAllQuery | api/src/transactions/transactions.service.ts:22-65 | total counts every selected row; data is the ordered listing from the offset on, at most limit rows; every row is the caller's and passes the filters; data stays sorted |
| Transactions.TransactionsService.FindAll | api/src/transactions/transactions.service.ts:22-65 | returns the page the listing specification gives |
| Transactions.SortedWindow | api/src/transactions/transactions.service.ts:59-60 | a slice of a sorted listing is sorted |
| Transactions.DateFilterNeedsBothEnds | api/src/transactions/transactions.service.ts:31-39 | with either date missing, the page is the same as with no dates at all |
| Transactions.SameMatchesSamePage | api/src/transactions/transactions.service.ts:51-64 | two filters selecting the same rows with the same skip and take give the same page |
| Entities.EndOfDay | api/src/transactions/transactions.service.ts:36 | the end of day d lies in [DayStart(d), DayStart(d+1)): inside day d, before the next midnight |
| Transactions.PeriodCoversWholeDays | api/src/transactions/transactions.service.ts:33-36 | the period holds exactly the instants from the start day's midnight up to, not including, the midnight after the end day |
| Transactions.TotalIgnoresPaging | api/src/transactions/transactions.service.ts:51 | total does not depend on page or limit |
| Transactions.EveryMatchIsOnItsPage | api/src/transactions/transactions.service.ts:53-62 | the k-th row of the ordered listing is row k mod limit of page k div limit + 1 |
| Transactions.CaseSumIsSumOfCounted | api/src/transactions/transactions.service.ts:148-153 | the CASE-WHEN sum is the sum of the amounts of exactly the user's in-period rows of that type |
| Transactions.EmptyPeriodSumsToZero | api/src/transactions/transactions.service.ts:153-156 | a period that ends before it starts sums to 0 |
| Transactions.CaseSumNonNegative | api/src/transactions/transactions.service.ts:149-150 | with non-negative amounts, each total is non-negative |
| Transactions.CaseSumAppend | api/src/transactions/transactions.service.ts:149-150 | a new row adds its amount to its type's total exactly when it is counted |
| Transactions.TotalsAgreeWithListing | api/src/transactions/transactions.service.ts:148-156 | a total is the sum over the listing filtered by the same period and type |
| Transactions.StatsOf | api/src/transactions/transactions.service.ts:141-171 | income and expense are the sums of the user's in-period amounts of each type, the balance is their difference, both dates are echoed, and an empty period gives zeros |
| Transactions.TransactionsService.GetStats | api/src/transactions/transactions.service.ts:141-171 | returns the statistics the specification function gives |
| Transactions.TransactionsService.FindOne | api/src/transactions/transactions.service.ts:67-78 | returns the caller's row with that id; NotFound exactly when the caller has none |
| Transactions.LocateTransaction | api/src/transactions/transactions.service.ts:68-71 | finds a row with that id and owner, or none exists |
| Transactions.CreatedRowKeepsValid | api/src/transactions/dto/transaction.dto.ts:28-49 | a create body that passes validation (amount at least 0, note of at most 500 characters), names one of the caller's categories and fits the decimal column gives a row the transaction table accepts |
| Transactions.TransactionsService.Create | api/src/transactions/transactions.service.ts:80-103 | NotFound and no row unless the category is the caller's; ConstraintViolation when the amount overflows decimal(15,2); otherwise exactly one new row carrying the request's fields, dated at midnight of the given day |
| Transactions.ApplyUpdate | api/src/transactions/transactions.service.ts:126-131 | each supplied type, amount, category and note is written, and a supplied date becomes its midnight; each omitted field is kept, the date included; id, owner and creation time stay; an empty update changes nothing |
| Transactions.CategoryIdExists | api/src/transactions/entities/transaction.entity.ts:52-55 | true exactly when some category row has that id |
| Transactions.TransactionsService.Update | api/src/transactions/transactions.service.ts:105-134 | NotFound when the caller has no such row, or when a different non-zero category is not the caller's; ConstraintViolation when the save is refused; otherwise the merged row replaces the old one; errors change nothing |
| Transactions.TransactionsService.SaveUpdate | api/src/transactions/transactions.service.ts:126-133 | the merged row replaces exactly row i and the tables stay valid; nothing else changes |
| Transactions.NegativeCategoryIsChecked | api/src/transactions/transactions.service.ts:113-124 | a negative category id never passes the ownership check |
| Transactions.UpdateKeepsValid | api/src/transactions/transactions.service.ts:126-133 | a merged row that passes the checks keeps the table valid |
| Transactions.OwnershipAfterUpdate | api/src/transactions/transactions.service.ts:113-131 | after a passing update the row's category belongs to the caller, including when category 0 is never checked |
| Transactions.TransactionsService.Remove | api/src/transactions/transactions.service.ts:136-139 | NotFound and nothing removed when the caller has no such row; otherwise exactly that row is removed |
| Transactions.TransactionsService.DeleteRow | api/src/transactions/transactions.service.ts:138 | exactly row i leaves the table, the tables stay valid, and nothing else changes |
| Transactions.RemovedTransactionIsGone | api/src/transactions/transactions.service.ts:138 | after the removal no row carries the removed id |
| Users.UsersService.FindByCode | api/src/users/users.service.ts:19-21 | returns a user holding the code, or none exactly when no user holds it |
| Users.UsersService.FindById | api/src/users/users.service.ts:23-25 | returns the user with the id, or none exactly when there is none |
| Users.UsersService.CreateOrLogin | api/src/users/users.service.ts:27-44 | a known code changes only that user's last login; an unseen code adds exactly one user with that code and copies the defaults to it; codes stay unique; no cached category list becomes stale |
| Users.UsersService.LogIn | api/src/users/users.service.ts:37-41 | only the found user's last login becomes now; codes stay unique and every cached user still exists |
| Users.UsersService.SignUp | api/src/users/users.service.ts:30-36 | exactly one user with the code is added; the defaults are copied to it unless two share a (name, type), which is ConstraintViolation with no category written; no cached list becomes stale |
| Users.SeedingKeepsEveryCache | api/src/users/users.service.ts:30-36 | for every cache that is coherent and whose keys belong to existing users, adding a brand-new user and rows owned only by that user keeps both properties |
| Users.UsersService.AddUser | api/src/users/users.service.ts:32-33 | the new user gets the next id and the code, no one else held the code, and the user owns no category yet |
| Users.UsersService.CopyDefaults | api/src/users/users.service.ts:46-62 | one owned copy of every template is appended with consecutive new ids, and the tables stay valid |
| Users.SeedRows | api/src/users/users.service.ts:49-59 | one row per default, in order, with name, type, icon, color and sort order copied, owned by the user, marked default, with consecutive ids |
| Users.SeedKeepsValid | api/src/users/users.service.ts:46-62 | seeding a user who owns no category keeps the tables valid when the defaults are distinct |
| Users.AlphabetIsCodeChars | api/src/users/users.service.ts:65 | the alphabet is exactly A-Z and 0-9 |
| Users.Candidate | api/src/users/users.service.ts:70-73 | each draw is 12 characters from A-Z and 0-9 |
| Users.UsersService.DrawCode | api/src/users/users.service.ts:70-73 | the inner loop builds exactly the draw for its attempt |
| Users.UsersService.GenerateCode | api/src/users/users.service.ts:64-79 | the returned code has 12 characters from A-Z and 0-9, no user holds it, and it is the first free draw; none means every draw was taken |
| MockCategories.MockCategoryService.constructor | frontend/app/services/categoryService.ts:11-103 | the six income and eight expense starting entries, each list of its own type |
| MockCategories.MockCategoryService.GetCategories | frontend/app/services/categoryService.ts:111-123 | the list for the type: every entry has that type, and it is the full list filtered by type |
| MockCategories.MockCategoryService.GetAllCategories | frontend/app/services/categoryService.ts:126-135 | the income list followed by the expense list |
| MockCategories.MockCategoryService.AllCategoriesSplitByKind | frontend/app/services/categoryService.ts:114-131 | filtering the full list by a type gives back that type's list |
| MockCategories.KindSplit | frontend/app/services/categoryService.ts:129-130 | filtering two lists of distinct types by type separates them |
| MockCategories.FilterOwnKind | frontend/app/services/categoryService.ts:129-130 | filtering a list of one type by that type keeps all of it |
| MockCategories.FilterOtherKind | frontend/app/services/categoryService.ts:129-130 | filtering a list of one type by the other type keeps nothing |
| MockCategories.MockCategoryService.CreateCategory | frontend/app/services/categoryService.ts:138-167 | exactly one entry with the clock's decimal id is appended to its type's list, the other list is unchanged, duplicates are not checked, and the name then exists |
| MockCategories.MockCategoryService.DeleteCategory | frontend/app/services/categoryService.ts:170-184 | both lists keep, in order, exactly the entries with another id; the id is gone; success is reported whether or not it was there |
| MockCategories.DeleteUndoesCreate | frontend/app/services/categoryService.ts:146-177 | deleting the id of an entry just appended to a list without it gives the list back |
| MockCategories.DeleteIdempotent | frontend/app/services/categoryService.ts:176-177 | deleting twice is deleting once |
| MockCategories.DeleteKeepsKind | frontend/app/services/categoryService.ts:176-177 | a delete keeps each list of one type, drops every entry with the id, keeps every other entry and their order |
| MockCategories.Rename | frontend/app/services/categoryService.ts:196-210 | same length; entries with the id get the new name and nothing else changes |
| MockCategories.RenameKeepsKinds | frontend/app/services/categoryService.ts:196-210 | renaming keeps every id and type, so each list keeps its type |
| MockCategories.RenameAbsentId | frontend/app/services/categoryService.ts:196-210 | renaming an absent id changes nothing |
| MockCategories.RenameIdempotent | frontend/app/services/categoryService.ts:196-210 | renaming twice with the same name is renaming once |
| MockCategories.LastWithId | frontend/app/services/categoryService.ts:196-210 | the last position holding the id, or none exactly when no entry holds it |
| MockCategories.AfterPassStep | frontend/app/services/categoryService.ts:198-201 | one more entry of the pass sets the updated entry exactly when it has the id |
| MockCategories.RenamePass | frontend/app/services/categoryService.ts:196-202 | one map pass builds the renamed list and the last renamed entry |
| MockCategories.MockCategoryService.UpdateCategory | frontend/app/services/categoryService.ts:187-227 | both lists are renamed and keep their lengths; the answer is the last renamed entry, an expense one first, and it is none exactly when no entry had the id |
| MockCategories.LowerChar | frontend/app/services/categoryService.ts:237 | the result is never an upper-case ASCII letter; an upper-case letter becomes a lower-case one; any other character is kept |
| MockCategories.ToLower | frontend/app/services/categoryService.ts:237 | same length as the text, with each character lower-cased by LowerChar |
| MockCategories.ToLowerIdempotent | frontend/app/services/categoryService.ts:237 | lower-casing twice is lower-casing once |
| MockCategories.AnyNamed | frontend/app/services/categoryService.ts:236-238 | true exactly when some entry's name equals the argument after ASCII lower-casing of both |
| MockCategories.AnyNamedIgnoresCase | frontend/app/services/categoryService.ts:237 | the check gives the same answer for a name and its lower-case form |
| MockCategories.MockCategoryService.CategoryExists | frontend/app/services/categoryService.ts:230-245 | true exactly when the type's list has an entry whose name equals the argument ignoring ASCII case |

## Left out

- The cache is a plain map. The Redis/Keyv store, its serialisation and its TTL are not modelled; entries never expire here, as with `CACHE_TTL = 0`.
- Several server operations run concurrently in the source. The model runs each service call as one atomic step, so interleavings between the existence check and the save are not modelled. The `Promise.all` over the three cache deletions is one map subtraction.
- The database collation is not modelled. Name comparisons (the uniqueness check, the unique key, `checkExists`) are exact. The name ordering is code-point lexicographic, not the collation's order.
- Users.UsersService.FindByCode, Users.UsersService.CreateOrLogin and Users.UsersService.GenerateCode compare login codes exactly. The source compares them through the database collation in three places: the lookup by code, the unique key on the code column, and the free-code check. The login request limits the code's length, not its case. A code that differs from a stored one only in letter case may therefore log in to that user in the source, but it creates a new user here.
- Transactions.TransactionsService.GetStats: both dates are required days here. The controller passes the two query parameters as raw strings without validation. A missing `endDate` becomes the bound `'undefined 23:59:59'` and is echoed back as `undefined`, and a malformed date reaches the query as text. Such requests are outside the model.
- Categories.CategoriesService.CheckExists: the name and type are required here, and the type is one of the two enum values. The controller passes both query parameters unchecked. When `name` is missing, the ORM drops it from the `where` clause, so the source answers whether the user has any category of that type. A type spelled differently, such as `INCOME`, reaches the query through the collation. Such requests are outside the model.
- Categories.CategoriesService.FindAllByUser: the cache invariant covers only the keys built from the two enum values or from no type. The controller passes the `type` query parameter through as an unchecked string. A different spelling, such as `INCOME`, that the database's collation still matches would be cached under a key that `invalidateUserCache` never deletes. Such a request is outside the model, because `CategoryType` has exactly two values.
- Ties in either listing order keep table (id) order. The database leaves the order of ties unspecified.
- Users.UsersService.CopyDefaults: the default rows are copied in table (id) order, so the copies' ids follow that order. The source reads the defaults with a `find()` that has no ORDER BY (`api/src/users/users.service.ts:47`), so which copy gets which id is unspecified there.
- Dates are whole days for request fields and seconds for stored instants, in UTC. ISO-8601 parsing, a time of day inside a date string and time zones are not modelled. The `' 23:59:59'` suffix is `EndOfDay`.
- Amounts are integers in minor units. Decimal rounding and the `parseFloat(...) || 0` conversion of the sums are not modelled; an empty sum is 0 either way.
- Explicit `null` values in request bodies are not modelled. Bodies are taken as already whitelisted by the validation pipe, so the field merges see only the declared fields.
- Transactions.FindAllQuery: `page` and `limit` are integers here. `NaN` or fractional values cannot occur.
- The loaded `category` relation of a transaction is assumed not to override its `categoryId` column when it is saved.
- Users.UsersService.GenerateCode: the source retries without bound until a draw is free. The model stops after `maxAttempts` draws and then returns none.
- The two login-code rules disagree. `api/src/auth/dto/auth.dto.ts:13` accepts 1 to 12 characters; `api/src/users/dto/user.dto.ts:12` demands exactly 12. The model takes neither as a precondition of `CreateOrLogin`. It keeps only the `varchar(12)` column, which refuses a longer code with `ConstraintViolation`.
- The category module's `CategoryType` enum file is not part of this model; the type is the two-valued `CategoryType`.
- The transaction module registers a cache that the transaction service never uses. The model has none.
- The client's `createdAt` is an ISO string; here it is the clock value. Ids made by two creates within one millisecond coincide, as in the source; the model does not prevent it.
- MockCategories.ToLower: only the ASCII letters A-Z are lower-cased. JavaScript's full Unicode case mapping is not modelled.
- The client's simulated delays of 300 and 200 ms are not modelled.
- `getCategories` hands out the store's own array, which a later `push` also changes. The model returns a value, so this aliasing is not modelled.
- The client's network branch (`useMock = false`) is not modelled.
- Logging (`console.log`) is not modelled.
