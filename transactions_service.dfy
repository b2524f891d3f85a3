/**
 * The transaction store: a filtered, ordered and paged listing, per-type
 * totals over a period, and the writes, which check that the category named
 * by a transaction belongs to the caller. This store has no cache.
 */
module Transactions {
  import opened Wrappers
  import opened Entities
  import opened Seqs
  import opened Database
  import opened TransactionDto
  import opened Categories

  // ----- the listing -----

  /** The BETWEEN of both list and stats: from the start day's midnight to the end day's 23:59:59. */
  predicate InPeriod(x: Transaction, start: Day, end: Day) {
    DayStart(start) <= x.transactionDate <= EndOfDay(end)
  }

  /**
   * The WHERE clause `findAll` builds: the owner always; the period only when
   * both dates are given; the type when given; the category when given and
   * not 0 (a falsy id adds no condition).
   */
  predicate Selected(x: Transaction, userId: nat, f: TransactionFilterDto) {
    && x.userId == userId
    && (f.startDate.Some? && f.endDate.Some? ==> InPeriod(x, f.startDate.value, f.endDate.value))
    && (f.kind.Some? ==> x.kind == f.kind.value)
    && (f.categoryId.Some? && f.categoryId.value != 0 ==> x.categoryId == f.categoryId.value)
  }

  function Matches(userId: nat, f: TransactionFilterDto): Transaction -> bool {
    (x: Transaction) => Selected(x, userId, f)
  }

  /** `ORDER BY transactionDate DESC, createdAt DESC`. */
  function NewerOrSame(): (Transaction, Transaction) -> bool {
    (a: Transaction, b: Transaction) =>
      a.transactionDate > b.transactionDate || (a.transactionDate == b.transactionDate && a.createdAt >= b.createdAt)
  }

  lemma NewerOrSameIsTotalPreorder()
    ensures TotalPreorder(NewerOrSame())
  {
  }

  /** The whole filtered listing, newest first, before paging. */
  function Ordered(txs: seq<Transaction>, userId: nat, f: TransactionFilterDto): (r: seq<Transaction>)
    ensures |r| == |Filter(txs, Matches(userId, f))|
    ensures forall i :: 0 <= i < |r| ==> r[i] in txs && Selected(r[i], userId, f)
    ensures forall i :: 0 <= i < |txs| && Selected(txs[i], userId, f) ==> txs[i] in r
    ensures SortedBy(r, NewerOrSame())
  {
    var matching := Filter(txs, Matches(userId, f));
    NewerOrSameIsTotalPreorder();
    SortBySorted(matching, NewerOrSame());
    var r := SortBy(matching, NewerOrSame());
    SameMultisetSameMembers(r, matching);
    r
  }

  /** The ordered listing holds each matching row exactly as often as the table does. */
  lemma OrderedIsPermutation(txs: seq<Transaction>, userId: nat, f: TransactionFilterDto)
    ensures multiset(Ordered(txs, userId, f)) == multiset(Filter(txs, Matches(userId, f)))
  {
    NewerOrSameIsTotalPreorder();
  }

  /** `{ data, total }`. */
  datatype Page = Page(data: seq<Transaction>, total: nat)

  /**
   * `findAll`: every returned row is the user's and passes the filters, the
   * rows come newest first, they are the window [(page - 1) * limit, +limit)
   * of the whole ordered listing, and `total` counts that whole listing.
   */
  function FindAllQuery(txs: seq<Transaction>, userId: nat, f: TransactionFilterDto): (p: Page)
    requires ValidFilter(f)
    ensures p.total == |Filter(txs, Matches(userId, f))|
    ensures |p.data| <= LimitOf(f)
    ensures |p.data| == if Offset(f) >= p.total then 0 else Min(LimitOf(f), p.total - Offset(f))
    ensures forall i :: 0 <= i < |p.data| ==> p.data[i] == Ordered(txs, userId, f)[Offset(f) + i]
    ensures forall i :: 0 <= i < |p.data| ==> p.data[i] in txs && Selected(p.data[i], userId, f)
    ensures SortedBy(p.data, NewerOrSame())
  {
    var ordered := Ordered(txs, userId, f);
    var data := Window(ordered, Offset(f), LimitOf(f));
    SortedWindow(ordered, Offset(f), LimitOf(f), NewerOrSame());
    Page(data, |ordered|)
  }

  /** A window of a sorted sequence is sorted. */
  lemma SortedWindow<T>(s: seq<T>, offset: nat, limit: nat, le: (T, T) -> bool)
    requires SortedBy(s, le)
    ensures SortedBy(Window(s, offset, limit), le)
  {
    var w := Window(s, offset, limit);
    forall i, j | 0 <= i < j < |w| ensures le(w[i], w[j]) {
      assert w[i] == s[offset + i] && w[j] == s[offset + j];
    }
  }

  /** The period condition is dropped unless both ends are given. */
  lemma {:induction false} DateFilterNeedsBothEnds(txs: seq<Transaction>, userId: nat, f: TransactionFilterDto)
    requires ValidFilter(f) && (f.startDate.None? || f.endDate.None?)
    ensures FindAllQuery(txs, userId, f) == FindAllQuery(txs, userId, f.(startDate := None, endDate := None))
  {
    var g := f.(startDate := None, endDate := None);
    forall i | 0 <= i < |txs| ensures Matches(userId, f)(txs[i]) == Matches(userId, g)(txs[i]) {
    }
    FilterCongruent(txs, Matches(userId, f), Matches(userId, g));
    assert Offset(f) == Offset(g) && LimitOf(f) == LimitOf(g);
    SameMatchesSamePage(txs, userId, f, g);
  }

  /** Two filters that select the same rows and ask for the same window give the same page. */
  lemma SameMatchesSamePage(txs: seq<Transaction>, userId: nat, f: TransactionFilterDto, g: TransactionFilterDto)
    requires ValidFilter(f) && ValidFilter(g)
    requires Filter(txs, Matches(userId, f)) == Filter(txs, Matches(userId, g))
    requires Offset(f) == Offset(g) && LimitOf(f) == LimitOf(g)
    ensures FindAllQuery(txs, userId, f) == FindAllQuery(txs, userId, g)
  {
    assert Ordered(txs, userId, f) == Ordered(txs, userId, g);
  }

  /** With both dates, every instant of every day from the start day to the end day is included, and no other. */
  lemma PeriodCoversWholeDays(x: Transaction, start: Day, end: Day)
    ensures InPeriod(x, start, end) <==> DayStart(start) <= x.transactionDate < DayStart(end + 1)
  {
  }

  /** `total` depends on the filters only, never on page or limit. */
  lemma TotalIgnoresPaging(txs: seq<Transaction>, userId: nat, f: TransactionFilterDto, page: Option<int>, limit: Option<int>)
    requires ValidFilter(f) && ValidFilter(f.(page := page, limit := limit))
    ensures FindAllQuery(txs, userId, f.(page := page, limit := limit)).total == FindAllQuery(txs, userId, f).total
  {
    FilterCongruent(txs, Matches(userId, f), Matches(userId, f.(page := page, limit := limit)));
  }

  /** The k-th row of the whole listing is row k mod limit of page k div limit + 1. */
  lemma EveryMatchIsOnItsPage(txs: seq<Transaction>, userId: nat, f: TransactionFilterDto, k: nat)
    requires ValidFilter(f) && k < |Filter(txs, Matches(userId, f))|
    requires f.page == Some(k / LimitOf(f) + 1)
    ensures k % LimitOf(f) < |FindAllQuery(txs, userId, f).data|
    ensures FindAllQuery(txs, userId, f).data[k % LimitOf(f)] == Ordered(txs, userId, f)[k]
  {
    var limit, offset := LimitOf(f), Offset(f);
    PageStart(k, limit, PageOf(f), offset);
    WindowAt(Ordered(txs, userId, f), offset, limit, k);
  }

  /** Position k of a sequence is position k - offset of any window from offset that is long enough to reach it. */
  lemma WindowAt<T>(s: seq<T>, offset: nat, limit: nat, k: nat)
    requires offset <= k < |s| && k - offset < limit
    ensures k - offset < |Window(s, offset, limit)| && Window(s, offset, limit)[k - offset] == s[k]
  {
  }

  /** Page k div limit + 1 starts at the multiple of limit at or below k, and k sits k mod limit into it. */
  lemma PageStart(k: nat, limit: int, page: int, offset: int)
    requires limit >= 1 && page == k / limit + 1 && offset == (page - 1) * limit
    ensures offset <= k && offset + k % limit == k && 0 <= k % limit < limit
  {
    assert offset == (k / limit) * limit;
  }

  // ----- the totals -----

  /** `SUM(CASE WHEN type = :kind THEN amount ELSE 0 END)` over the user's rows in the period. */
  function CaseSum(txs: seq<Transaction>, userId: nat, start: Day, end: Day, kind: CategoryType): int {
    if txs == [] then 0
    else
      var x := txs[0];
      (if x.userId == userId && InPeriod(x, start, end) && x.kind == kind then x.amount else 0)
      + CaseSum(txs[1..], userId, start, end, kind)
  }

  function SumAmounts(s: seq<Transaction>): int {
    if s == [] then 0 else s[0].amount + SumAmounts(s[1..])
  }

  /** The rows one total adds up. */
  function Counted(userId: nat, start: Day, end: Day, kind: CategoryType): Transaction -> bool {
    (x: Transaction) => x.userId == userId && InPeriod(x, start, end) && x.kind == kind
  }

  /** The CASE-WHEN sum is the sum of the amounts of exactly the counted rows. */
  lemma {:induction false} CaseSumIsSumOfCounted(txs: seq<Transaction>, userId: nat, start: Day, end: Day, kind: CategoryType)
    ensures CaseSum(txs, userId, start, end, kind) == SumAmounts(Filter(txs, Counted(userId, start, end, kind)))
  {
    if txs != [] {
      var p := Counted(userId, start, end, kind);
      CaseSumIsSumOfCounted(txs[1..], userId, start, end, kind);
      if p(txs[0]) {
        assert Filter(txs, p) == [txs[0]] + Filter(txs[1..], p);
        assert ([txs[0]] + Filter(txs[1..], p))[1..] == Filter(txs[1..], p);
      } else {
        assert Filter(txs, p) == Filter(txs[1..], p);
      }
    }
  }

  /** A period whose end day comes before its start day holds nothing: its totals are 0. */
  lemma {:induction false} EmptyPeriodSumsToZero(txs: seq<Transaction>, userId: nat, start: Day, end: Day, kind: CategoryType)
    ensures end < start ==> CaseSum(txs, userId, start, end, kind) == 0
  {
    if txs != [] && end < start {
      assert EndOfDay(end) < DayStart(end + 1) <= DayStart(start);
      EmptyPeriodSumsToZero(txs[1..], userId, start, end, kind);
    }
  }

  /** Amounts are never negative, so neither is a total. */
  lemma {:induction false} CaseSumNonNegative(txs: seq<Transaction>, userId: nat, start: Day, end: Day, kind: CategoryType)
    requires forall i :: 0 <= i < |txs| ==> txs[i].amount >= 0
    ensures CaseSum(txs, userId, start, end, kind) >= 0
  {
    if txs != [] {
      CaseSumNonNegative(txs[1..], userId, start, end, kind);
    }
  }

  /** A new row adds its amount to the one total it is counted in, and nothing to the others. */
  lemma {:induction false} CaseSumAppend(txs: seq<Transaction>, t: Transaction, userId: nat, start: Day, end: Day, kind: CategoryType)
    ensures CaseSum(txs + [t], userId, start, end, kind)
         == CaseSum(txs, userId, start, end, kind) + (if Counted(userId, start, end, kind)(t) then t.amount else 0)
  {
    if txs == [] {
      assert [t][1..] == [];
    } else {
      assert (txs + [t])[1..] == txs[1..] + [t];
      CaseSumAppend(txs[1..], t, userId, start, end, kind);
    }
  }

  /**
   * A total agrees with the listing: the income (or expense) total of a period
   * is the sum of the amounts `findAll` selects for that type and period.
   */
  lemma TotalsAgreeWithListing(txs: seq<Transaction>, userId: nat, start: Day, end: Day, kind: CategoryType)
    ensures CaseSum(txs, userId, start, end, kind)
         == SumAmounts(Filter(txs, Matches(userId, TransactionFilterDto(Some(start), Some(end), Some(kind), None, None, None))))
  {
    var f := TransactionFilterDto(Some(start), Some(end), Some(kind), None, None, None);
    CaseSumIsSumOfCounted(txs, userId, start, end, kind);
    FilterCongruent(txs, Counted(userId, start, end, kind), Matches(userId, f));
  }

  /** The stats response. */
  datatype Stats = Stats(totalIncome: int, totalExpense: int, balance: int, startDate: Day, endDate: Day)

  /** `getStats`: both totals over the period, their difference, and the dates echoed back. */
  function StatsOf(txs: seq<Transaction>, userId: nat, start: Day, end: Day): (s: Stats)
    ensures s.totalIncome == SumAmounts(Filter(txs, Counted(userId, start, end, Income)))
    ensures s.totalExpense == SumAmounts(Filter(txs, Counted(userId, start, end, Expense)))
    ensures s.balance == s.totalIncome - s.totalExpense
    ensures s.startDate == start && s.endDate == end
    ensures end < start ==> s.totalIncome == 0 && s.totalExpense == 0 && s.balance == 0
  {
    CaseSumIsSumOfCounted(txs, userId, start, end, Income);
    CaseSumIsSumOfCounted(txs, userId, start, end, Expense);
    EmptyPeriodSumsToZero(txs, userId, start, end, Income);
    EmptyPeriodSumsToZero(txs, userId, start, end, Expense);
    var income := CaseSum(txs, userId, start, end, Income);
    var expense := CaseSum(txs, userId, start, end, Expense);
    Stats(income, expense, income - expense, start, end)
  }

  // ----- rows built from request bodies -----

  /** The row `create` builds: the date is midnight of the given day, the creation time is `now`. */
  function NewTransaction(id: nat, userId: nat, categoryId: nat, d: CreateTransactionDto, now: Instant): Transaction {
    Transaction(id, userId, categoryId, d.kind, d.amount, d.note, DayStart(d.transactionDate), now)
  }

  /**
   * What the create body's checks buy: a valid body (amount at least 0, note of
   * at most 500 characters) naming one of the caller's categories, with an
   * amount the decimal column holds, gives a row the table accepts.
   */
  lemma CreatedRowKeepsValid(txs: seq<Transaction>, cats: seq<Category>, nextTx: nat, userId: nat, d: CreateTransactionDto, now: Instant)
    requires TransactionsValid(txs, cats, nextTx) && nextTx >= 1
    requires ValidCreateTransaction(d) && AmountFits(d.amount)
    requires Locate(cats, d.categoryId, userId).Some?
    ensures TransactionsValid(txs + [NewTransaction(nextTx, userId, d.categoryId as nat, d, now)], cats, nextTx + 1)
  {
    var c := cats[Locate(cats, d.categoryId, userId).value];
    assert c in cats;
    InsertTransactionKeepsValid(txs, cats, nextTx, NewTransaction(nextTx, userId, d.categoryId as nat, d, now));
  }

  /** `updateDto.categoryId && updateDto.categoryId !== transaction.categoryId`: only then is ownership checked. */
  predicate CategoryChecked(x: Transaction, d: UpdateTransactionDto) {
    d.categoryId.Some? && d.categoryId.value != 0 && d.categoryId.value != x.categoryId
  }

  /**
   * `Object.assign(transaction, { ...updateDto, transactionDate })`: each supplied
   * field overwrites; the date is kept when omitted; id, owner and creation time stay.
   */
  function ApplyUpdate(x: Transaction, d: UpdateTransactionDto): (m: Transaction)
    requires d.categoryId.Some? ==> d.categoryId.value >= 0
    ensures m.id == x.id && m.userId == x.userId && m.createdAt == x.createdAt
    ensures d.kind.None? ==> m.kind == x.kind
    ensures d.amount.None? ==> m.amount == x.amount
    ensures d.categoryId.None? ==> m.categoryId == x.categoryId
    ensures d.note.None? ==> m.note == x.note
    ensures d.transactionDate.None? ==> m.transactionDate == x.transactionDate
    ensures d.kind.Some? ==> m.kind == d.kind.value
    ensures d.amount.Some? ==> m.amount == d.amount.value
    ensures d.categoryId.Some? ==> m.categoryId == d.categoryId.value
    ensures d.note.Some? ==> m.note == d.note
    ensures d.transactionDate.Some? ==> m.transactionDate == DayStart(d.transactionDate.value)
    ensures d == UpdateTransactionDto(None, None, None, None, None) ==> m == x
  {
    x.(kind := if d.kind.Some? then d.kind.value else x.kind,
       amount := if d.amount.Some? then d.amount.value else x.amount,
       categoryId := if d.categoryId.Some? then d.categoryId.value else x.categoryId,
       note := if d.note.Some? then d.note else x.note,
       transactionDate := if d.transactionDate.Some? then DayStart(d.transactionDate.value) else x.transactionDate)
  }

  /** The foreign key: some category row has this id (whoever owns it). */
  function CategoryIdExists(cats: seq<Category>, id: int): (b: bool)
    ensures b <==> exists k :: 0 <= k < |cats| && cats[k].id == id
  {
    FirstIndex(cats, (c: Category) => c.id == id).Some?
  }

  /** `findOne({ where: { id, userId } })` on the transaction table. */
  function LocateTransaction(txs: seq<Transaction>, id: int, userId: nat): (r: Option<nat>)
    ensures r.Some? ==> r.value < |txs| && txs[r.value].id == id && txs[r.value].userId == userId
    ensures r.None? <==> forall i :: 0 <= i < |txs| ==> !(txs[i].id == id && txs[i].userId == userId)
  {
    FirstIndex(txs, TransactionOf(id, userId))
  }

  /** Transaction ids are unique, so a deleted row's id is gone from the table. */
  lemma RemovedTransactionIsGone(txs: seq<Transaction>, cats: seq<Category>, nextId: nat, i: nat)
    requires TransactionsValid(txs, cats, nextId) && i < |txs|
    ensures forall k :: 0 <= k < |RemoveAt(txs, i)| ==> RemoveAt(txs, i)[k].id != txs[i].id
  {
    var r := RemoveAt(txs, i);
    forall k | 0 <= k < |r| ensures r[k].id != txs[i].id {
      if k < i {
        assert r[k] == txs[k];
      } else {
        assert r[k] == txs[k + 1];
      }
    }
  }

  class TransactionsService {
    const db: Db

    constructor (db: Db)
      ensures this.db == db
    {
      this.db := db;
    }

    method FindAll(userId: nat, f: TransactionFilterDto) returns (p: Page)
      requires ValidFilter(f)
      ensures p == FindAllQuery(db.transactions, userId, f)
    {
      p := FindAllQuery(db.transactions, userId, f);
    }

    method FindOne(id: int, userId: nat) returns (r: Result<Transaction>)
      ensures r.Ok? ==> r.value in db.transactions && r.value.id == id && r.value.userId == userId
      ensures r.Err? ==> r.error == NotFound
      ensures r.Err? <==> forall i :: 0 <= i < |db.transactions| ==> !(db.transactions[i].id == id && db.transactions[i].userId == userId)
    {
      match LocateTransaction(db.transactions, id, userId)
      case None =>
        r := Err(NotFound);
      case Some(i) =>
        r := Ok(db.transactions[i]);
    }

    /**
     * NotFound (and no row) unless the category is the caller's; the decimal
     * column refuses an amount of 10^13 or more; otherwise one new row.
     */
    method Create(userId: nat, d: CreateTransactionDto, now: Instant) returns (r: Result<Transaction>)
      requires db.Valid() && ValidCreateTransaction(d)
      modifies db
      ensures db.Valid()
      ensures db.users == old(db.users) && db.categories == old(db.categories)
      ensures db.defaultCategories == old(db.defaultCategories)
      ensures db.nextUserId == old(db.nextUserId) && db.nextCategoryId == old(db.nextCategoryId)
      ensures r.Err? ==> db.transactions == old(db.transactions) && db.nextTransactionId == old(db.nextTransactionId)
      ensures Locate(db.categories, d.categoryId, userId).None? ==> r == Err(NotFound)
      ensures Locate(db.categories, d.categoryId, userId).Some? && !AmountFits(d.amount) ==> r == Err(ConstraintViolation)
      ensures Locate(db.categories, d.categoryId, userId).Some? && AmountFits(d.amount) ==>
        && r == Ok(NewTransaction(old(db.nextTransactionId), userId, d.categoryId as nat, d, now))
        && db.transactions == old(db.transactions) + [r.value]
        && db.nextTransactionId == old(db.nextTransactionId) + 1
    {
      var found := Locate(db.categories, d.categoryId, userId);
      if found.None? {
        return Err(NotFound);
      }
      if !AmountFits(d.amount) {
        return Err(ConstraintViolation);
      }
      var t := NewTransaction(db.nextTransactionId, userId, d.categoryId as nat, d, now);
      CreatedRowKeepsValid(db.transactions, db.categories, db.nextTransactionId, userId, d, now);
      db.transactions := db.transactions + [t];
      db.nextTransactionId := db.nextTransactionId + 1;
      r := Ok(t);
    }

    /**
     * NotFound when the caller has no such row, or when a different, non-zero
     * category is supplied that is not the caller's; ConstraintViolation when the
     * save is refused (category 0 has no row; the amount overflows the column);
     * otherwise the merged row replaces the old one.
     */
    method Update(id: int, userId: nat, d: UpdateTransactionDto) returns (r: Result<Transaction>)
      requires db.Valid() && ValidUpdateTransaction(d)
      modifies db
      ensures db.Valid()
      ensures db.users == old(db.users) && db.categories == old(db.categories)
      ensures db.defaultCategories == old(db.defaultCategories)
      ensures db.nextUserId == old(db.nextUserId) && db.nextCategoryId == old(db.nextCategoryId)
      ensures db.nextTransactionId == old(db.nextTransactionId)
      ensures r.Err? ==> db.transactions == old(db.transactions)
      ensures LocateTransaction(old(db.transactions), id, userId).None? ==> r == Err(NotFound)
      ensures LocateTransaction(old(db.transactions), id, userId).Some? ==>
        var i := LocateTransaction(old(db.transactions), id, userId).value;
        var x := old(db.transactions)[i];
        if CategoryChecked(x, d) && Locate(db.categories, d.categoryId.value, userId).None? then
          r == Err(NotFound)
        else
          var m := ApplyUpdate(x, d);
          if !CategoryIdExists(db.categories, m.categoryId) || !AmountFits(m.amount) then
            r == Err(ConstraintViolation)
          else
            r == Ok(m) && db.transactions == old(db.transactions)[i := m]
    {
      var found := LocateTransaction(db.transactions, id, userId);
      if found.None? {
        return Err(NotFound);
      }
      var i := found.value;
      var x := db.transactions[i];
      if CategoryChecked(x, d) && Locate(db.categories, d.categoryId.value, userId).None? {
        return Err(NotFound);
      }
      NegativeCategoryIsChecked(db.categories, x, d, userId);
      var m := ApplyUpdate(x, d);
      if !CategoryIdExists(db.categories, m.categoryId) || !AmountFits(m.amount) {
        return Err(ConstraintViolation);
      }
      SaveUpdate(i, d, userId);
      r := Ok(m);
    }

    /** The save at the end of `update`: the merged row replaces row `i`. */
    method SaveUpdate(i: nat, d: UpdateTransactionDto, userId: nat)
      requires db.Valid() && ValidUpdateTransaction(d)
      requires i < |db.transactions| && db.transactions[i].userId == userId
      requires !(CategoryChecked(db.transactions[i], d) && Locate(db.categories, d.categoryId.value, userId).None?)
      requires d.categoryId.Some? ==> d.categoryId.value >= 0
      requires CategoryIdExists(db.categories, ApplyUpdate(db.transactions[i], d).categoryId)
      requires AmountFits(ApplyUpdate(db.transactions[i], d).amount)
      modifies db
      ensures db.Valid()
      ensures db.transactions == old(db.transactions)[i := ApplyUpdate(old(db.transactions)[i], d)]
      ensures db.users == old(db.users) && db.categories == old(db.categories)
      ensures db.defaultCategories == old(db.defaultCategories)
      ensures db.nextUserId == old(db.nextUserId) && db.nextCategoryId == old(db.nextCategoryId)
      ensures db.nextTransactionId == old(db.nextTransactionId)
    {
      UpdateKeepsValid(db.categories, db.users, db.nextCategoryId, db.transactions, db.nextTransactionId, i, d, userId);
      db.transactions := db.transactions[i := ApplyUpdate(db.transactions[i], d)];
    }

    /** NotFound when the caller has no such row; otherwise the row is deleted. */
    method Remove(id: int, userId: nat) returns (r: Result<()>)
      requires db.Valid()
      modifies db
      ensures db.Valid()
      ensures db.users == old(db.users) && db.categories == old(db.categories)
      ensures db.defaultCategories == old(db.defaultCategories)
      ensures db.nextUserId == old(db.nextUserId) && db.nextCategoryId == old(db.nextCategoryId)
      ensures db.nextTransactionId == old(db.nextTransactionId)
      ensures LocateTransaction(old(db.transactions), id, userId).None? ==>
        r == Err(NotFound) && db.transactions == old(db.transactions)
      ensures LocateTransaction(old(db.transactions), id, userId).Some? ==>
        r == Ok(()) && db.transactions == RemoveAt(old(db.transactions), LocateTransaction(old(db.transactions), id, userId).value)
    {
      var found := LocateTransaction(db.transactions, id, userId);
      if found.None? {
        return Err(NotFound);
      }
      DeleteRow(found.value);
      r := Ok(());
    }

    /** The delete at the end of `remove`: row `i` leaves the table. */
    method DeleteRow(i: nat)
      requires db.Valid() && i < |db.transactions|
      modifies db
      ensures db.Valid()
      ensures db.transactions == RemoveAt(old(db.transactions), i)
      ensures db.users == old(db.users) && db.categories == old(db.categories)
      ensures db.defaultCategories == old(db.defaultCategories)
      ensures db.nextUserId == old(db.nextUserId) && db.nextCategoryId == old(db.nextCategoryId)
      ensures db.nextTransactionId == old(db.nextTransactionId)
    {
      RemoveTransactionKeepsValid(db.transactions, db.categories, db.nextTransactionId, i);
      db.transactions := RemoveAt(db.transactions, i);
    }

    method GetStats(userId: nat, start: Day, end: Day) returns (s: Stats)
      ensures s == StatsOf(db.transactions, userId, start, end)
    {
      s := StatsOf(db.transactions, userId, start, end);
    }
  }

  /** A negative category id is never the row's and never the caller's, so the check stops it. */
  lemma NegativeCategoryIsChecked(cats: seq<Category>, x: Transaction, d: UpdateTransactionDto, userId: nat)
    requires !(CategoryChecked(x, d) && Locate(cats, d.categoryId.value, userId).None?)
    ensures d.categoryId.Some? ==> d.categoryId.value >= 0
  {
  }

  /** A merged row that passed the checks and the save keeps the transaction table valid. */
  lemma UpdateKeepsValid(
    cats: seq<Category>, users: seq<User>, nextCat: nat, txs: seq<Transaction>, nextTx: nat,
    i: nat, d: UpdateTransactionDto, userId: nat)
    requires CategoriesValid(cats, users, nextCat) && TransactionsValid(txs, cats, nextTx)
    requires i < |txs| && txs[i].userId == userId && ValidUpdateTransaction(d)
    requires !(CategoryChecked(txs[i], d) && Locate(cats, d.categoryId.value, userId).None?)
    requires d.categoryId.Some? ==> d.categoryId.value >= 0
    requires CategoryIdExists(cats, ApplyUpdate(txs[i], d).categoryId) && AmountFits(ApplyUpdate(txs[i], d).amount)
    ensures TransactionsValid(txs[i := ApplyUpdate(txs[i], d)], cats, nextTx)
  {
    var m := ApplyUpdate(txs[i], d);
    OwnershipAfterUpdate(cats, users, nextCat, txs, nextTx, i, d, userId);
    ReplaceTransactionKeepsValid(txs, cats, nextTx, i, m);
  }

  /**
   * After the checks `update` makes, a merged row whose category has a row at
   * all has a category of the caller: an unchanged category was the caller's,
   * a changed non-zero one was checked, and category 0 has no row.
   */
  lemma OwnershipAfterUpdate(
    cats: seq<Category>, users: seq<User>, nextCat: nat, txs: seq<Transaction>, nextTx: nat,
    i: nat, d: UpdateTransactionDto, userId: nat)
    requires CategoriesValid(cats, users, nextCat) && TransactionsValid(txs, cats, nextTx)
    requires i < |txs| && txs[i].userId == userId
    requires !(CategoryChecked(txs[i], d) && Locate(cats, d.categoryId.value, userId).None?)
    requires d.categoryId.Some? ==> d.categoryId.value >= 0
    requires CategoryIdExists(cats, ApplyUpdate(txs[i], d).categoryId)
    ensures (ApplyUpdate(txs[i], d).categoryId, userId) in CategoryOwners(cats)
  {
    var m := ApplyUpdate(txs[i], d);
    if CategoryChecked(txs[i], d) {
      var k := Locate(cats, d.categoryId.value, userId).value;
      assert cats[k] in cats && (cats[k].id, cats[k].userId) == (m.categoryId, userId);
    }
  }
}
