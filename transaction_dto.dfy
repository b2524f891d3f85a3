/**
 * The request bodies and query of the transaction endpoints, the checks the
 * validation pipe applies to them, and the paging defaults. A date string is
 * represented by the day it names (its ISO 8601 parsing is not modelled).
 */
module TransactionDto {
  import opened Wrappers
  import opened Entities

  /** type, amount, categoryId and transactionDate are required; note is optional. */
  datatype CreateTransactionDto = CreateTransactionDto(
    kind: CategoryType,
    amount: int,
    categoryId: int,
    note: Option<string>,
    transactionDate: Day)

  /** Every field is optional. */
  datatype UpdateTransactionDto = UpdateTransactionDto(
    kind: Option<CategoryType>,
    amount: Option<int>,
    categoryId: Option<int>,
    note: Option<string>,
    transactionDate: Option<Day>)

  datatype TransactionFilterDto = TransactionFilterDto(
    startDate: Option<Day>,
    endDate: Option<Day>,
    kind: Option<CategoryType>,
    categoryId: Option<int>,
    page: Option<int>,
    limit: Option<int>)

  const MaxNoteLength: nat := 500
  const DefaultPage: int := 1
  const DefaultLimit: int := 20

  /** amount is at least 0; a note has at most 500 characters. */
  predicate ValidCreateTransaction(d: CreateTransactionDto) {
    d.amount >= 0 && OptionalFits(d.note, MaxNoteLength)
  }

  predicate ValidUpdateTransaction(d: UpdateTransactionDto) {
    (d.amount.Some? ==> d.amount.value >= 0) && OptionalFits(d.note, MaxNoteLength)
  }

  /** page and limit, when given, are at least 1. */
  predicate ValidFilter(f: TransactionFilterDto) {
    (f.page.Some? ==> f.page.value >= 1) && (f.limit.Some? ==> f.limit.value >= 1)
  }

  /** `filter.page || 1`: an absent (or zero) page means the first page. */
  function PageOf(f: TransactionFilterDto): (page: int)
    ensures f.page.None? ==> page == DefaultPage
    ensures ValidFilter(f) ==> page >= 1
  {
    if f.page.Some? && f.page.value != 0 then f.page.value else DefaultPage
  }

  /** `filter.limit || 20`. */
  function LimitOf(f: TransactionFilterDto): (limit: int)
    ensures f.limit.None? ==> limit == DefaultLimit
    ensures ValidFilter(f) ==> limit >= 1
  {
    if f.limit.Some? && f.limit.value != 0 then f.limit.value else DefaultLimit
  }

  /** `(page - 1) * limit`, the number of rows skipped: never negative, and 0 exactly on the first page. */
  function Offset(f: TransactionFilterDto): (skip: int)
    requires ValidFilter(f)
    ensures skip >= 0
    ensures skip == 0 <==> PageOf(f) == 1
  {
    (PageOf(f) - 1) * LimitOf(f)
  }
}
