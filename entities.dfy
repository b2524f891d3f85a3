/**
 * The rows of the relational store: users, categories, default-category
 * templates and transactions, with the column widths the schema declares.
 *
 * Ids are the auto-increment primary keys (they start at 1). Amounts are
 * integers in minor units (hundredths), which is what a decimal(15,2) column
 * holds exactly. Instants are whole seconds; a calendar day 'YYYY-MM-DD' is a
 * day number.
 */
module Entities {
  import opened Wrappers

  /** The `CategoryType` enum, whose values are 'income' and 'expense'. */
  datatype CategoryType = Income | Expense

  type Day = int
  type Instant = int

  const SecondsPerDay: int := 86400

  /** `new Date('YYYY-MM-DD')`: midnight at the start of the day. */
  function DayStart(d: Day): Instant {
    d * SecondsPerDay
  }

  /** 'YYYY-MM-DD' + ' 23:59:59': the last second of the day. */
  function EndOfDay(d: Day): (t: Instant)
    ensures DayStart(d) <= t < DayStart(d + 1)
  {
    d * SecondsPerDay + (SecondsPerDay - 1)
  }

  datatype User = User(id: nat, code: string, createdAt: Instant, lastLoginAt: Option<Instant>)

  datatype Category = Category(
    id: nat,
    userId: nat,
    name: string,
    kind: CategoryType,
    icon: Option<string>,
    color: Option<string>,
    sortOrder: int,
    isDefault: bool)

  datatype DefaultCategory = DefaultCategory(
    id: nat,
    name: string,
    kind: CategoryType,
    icon: Option<string>,
    color: Option<string>,
    sortOrder: int)

  datatype Transaction = Transaction(
    id: nat,
    userId: nat,
    categoryId: nat,
    kind: CategoryType,
    amount: int,
    note: Option<string>,
    transactionDate: Instant,
    createdAt: Instant)

  /**
   * NotFound and Conflict are the services' own exceptions; ConstraintViolation
   * is a write the database itself refuses (unique key, foreign key, column range).
   */
  datatype Error = NotFound | Conflict | ConstraintViolation

  datatype Result<T> = Ok(value: T) | Err(error: Error)

  /** varchar(12) for the login code. */
  const CodeWidth: nat := 12
  /** varchar(100), varchar(50) and varchar(20) for name, icon and color. */
  const NameWidth: nat := 100
  const IconWidth: nat := 50
  const ColorWidth: nat := 20
  /** decimal(15,2): thirteen digits before the point, two after, so |amount| < 10^15 minor units. */
  const AmountBound: int := 1_000_000_000_000_000

  /** int for sort_order: a signed 32-bit value. */
  const SortOrderMin: int := -0x8000_0000
  const SortOrderMax: int := 0x7FFF_FFFF

  predicate SortOrderFits(n: int) {
    SortOrderMin <= n <= SortOrderMax
  }

  predicate OptionalFits(s: Option<string>, width: nat) {
    s.Some? ==> |s.value| <= width
  }

  predicate CategoryFits(c: Category) {
    && |c.name| <= NameWidth && OptionalFits(c.icon, IconWidth) && OptionalFits(c.color, ColorWidth)
    && SortOrderFits(c.sortOrder)
  }

  predicate DefaultCategoryFits(d: DefaultCategory) {
    && |d.name| <= NameWidth && OptionalFits(d.icon, IconWidth) && OptionalFits(d.color, ColorWidth)
    && SortOrderFits(d.sortOrder)
  }

  predicate AmountFits(amount: int) {
    -AmountBound < amount < AmountBound
  }

  // ----- decimal text of numbers -----

  function DigitChar(d: nat): (c: char)
    requires d < 10
    ensures '0' <= c <= '9'
  {
    (48 + d) as char
  }

  /** The decimal text of a number, as a template literal prints it. */
  function DecimalString(n: nat): (s: string)
    ensures 1 <= |s|
    ensures n >= 10 ==> 2 <= |s|
    ensures forall i :: 0 <= i < |s| ==> '0' <= s[i] <= '9'
  {
    if n < 10 then [DigitChar(n)] else DecimalString(n / 10) + [DigitChar(n % 10)]
  }

  /** Different numbers print differently. */
  lemma {:induction false} DecimalStringInjective(a: nat, b: nat)
    requires DecimalString(a) == DecimalString(b)
    ensures a == b
  {
    var s := DecimalString(a);
    if a >= 10 && b >= 10 {
      assert DigitChar(a % 10) == s[|s| - 1] == DigitChar(b % 10);
      assert DecimalString(a / 10) == s[..|s| - 1] == DecimalString(b / 10);
      DecimalStringInjective(a / 10, b / 10);
    } else if a < 10 && b < 10 {
      assert DigitChar(a) == s[0] == DigitChar(b);
    }
  }
}
