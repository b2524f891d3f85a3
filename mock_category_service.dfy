/**
 * The client's in-memory category store, which answers in place of the
 * server while its mock switch is on: two lists, one per type, appended to
 * on create, filtered on delete and renamed in place on update. Ids are the
 * decimal text of the creation clock in milliseconds; the clock is a
 * parameter.
 */
module MockCategories {
  import opened Wrappers
  import opened Entities
  import opened Seqs

  datatype MockCategory = MockCategory(id: string, name: string, kind: CategoryType, createdAt: nat)

  /** The six income rows the store starts with, ids "1" to "6". */
  function InitialIncome(loadedAt: nat): seq<MockCategory> {
    [ MockCategory("1", "Lương", Income, loadedAt),
      MockCategory("2", "Thưởng", Income, loadedAt),
      MockCategory("3", "Đầu tư", Income, loadedAt),
      MockCategory("4", "Bán hàng", Income, loadedAt),
      MockCategory("5", "Cho thuê", Income, loadedAt),
      MockCategory("6", "Khác", Income, loadedAt) ]
  }

  /** The eight expense rows the store starts with, ids "7" to "14". */
  function InitialExpense(loadedAt: nat): seq<MockCategory> {
    [ MockCategory("7", "Ăn uống", Expense, loadedAt),
      MockCategory("8", "Di chuyển", Expense, loadedAt),
      MockCategory("9", "Mua sắm", Expense, loadedAt),
      MockCategory("10", "Hóa đơn", Expense, loadedAt),
      MockCategory("11", "Giải trí", Expense, loadedAt),
      MockCategory("12", "Sức khỏe", Expense, loadedAt),
      MockCategory("13", "Giáo dục", Expense, loadedAt),
      MockCategory("14", "Khác", Expense, loadedAt) ]
  }

  /** Every entry of `s` has type `t`. */
  predicate AllOfKind(s: seq<MockCategory>, t: CategoryType) {
    forall i :: 0 <= i < |s| ==> s[i].kind == t
  }

  function OfKind(t: CategoryType): MockCategory -> bool {
    (c: MockCategory) => c.kind == t
  }

  /** Filtering a list of one type by that type keeps all of it. */
  lemma FilterOwnKind(s: seq<MockCategory>, t: CategoryType)
    requires AllOfKind(s, t)
    ensures Filter(s, OfKind(t)) == s
  {
    var p := OfKind(t);
    assert forall i :: 0 <= i < |s| ==> p(s[i]);
    FilterAllAccepted(s, p);
  }

  /** Filtering a list of one type by another type keeps none of it. */
  lemma FilterOtherKind(s: seq<MockCategory>, t: CategoryType, u: CategoryType)
    requires AllOfKind(s, t) && t != u
    ensures Filter(s, OfKind(u)) == []
  {
    var q := OfKind(u);
    assert forall i :: 0 <= i < |s| ==> !q(s[i]);
    FilterAllRejected(s, q);
  }

  /** Filtering by type a list of one type followed by a list of another keeps the first list, or the second. */
  lemma KindSplit(a: seq<MockCategory>, b: seq<MockCategory>, t: CategoryType, u: CategoryType)
    requires AllOfKind(a, t) && AllOfKind(b, u) && t != u
    ensures Filter(a + b, OfKind(t)) == a
    ensures Filter(b, OfKind(u)) == b && Filter(a, OfKind(u)) == []
    ensures Filter(a + b, OfKind(u)) == b
  {
    FilterOwnKind(a, t);
    FilterOwnKind(b, u);
    FilterOtherKind(a, t, u);
    FilterOtherKind(b, u, t);
    FilterAppend(a, b, OfKind(t));
    FilterAppend(a, b, OfKind(u));
    assert a + [] == a && [] + b == b;
  }

  /** `c.id !== id`, the condition `deleteCategory` keeps entries by. */
  function IdOtherThan(id: string): MockCategory -> bool {
    (c: MockCategory) => c.id != id
  }

  /** Deleting the id of an entry just appended to a list that lacked it gives the list back. */
  lemma DeleteUndoesCreate(s: seq<MockCategory>, c: MockCategory)
    requires forall i :: 0 <= i < |s| ==> s[i].id != c.id
    ensures Filter(s + [c], IdOtherThan(c.id)) == s
  {
    var p := IdOtherThan(c.id);
    assert forall i :: 0 <= i < |s| ==> p(s[i]);
    FilterAppendRejected(s, c, p);
    FilterAllAccepted(s, p);
  }

  /** Deleting twice is deleting once. */
  lemma DeleteIdempotent(s: seq<MockCategory>, id: string)
    ensures Filter(Filter(s, IdOtherThan(id)), IdOtherThan(id)) == Filter(s, IdOtherThan(id))
  {
    FilterAllAccepted(Filter(s, IdOtherThan(id)), IdOtherThan(id));
  }

  /** Deleting from a list of one kind leaves a list of that kind with no entry of the id, keeping the order of the rest. */
  lemma DeleteKeepsKind(s: seq<MockCategory>, id: string, t: CategoryType)
    requires AllOfKind(s, t)
    ensures AllOfKind(Filter(s, IdOtherThan(id)), t)
    ensures forall i :: 0 <= i < |Filter(s, IdOtherThan(id))| ==> Filter(s, IdOtherThan(id))[i].id != id
    ensures IsSubsequence(Filter(s, IdOtherThan(id)), s)
    ensures forall i :: 0 <= i < |s| && s[i].id != id ==> s[i] in Filter(s, IdOtherThan(id))
  {
    FilterIsSubsequence(s, IdOtherThan(id));
  }

  // ----- renaming -----

  /** `list.map(c => c.id === id ? { ...c, name } : c)`. */
  function Rename(s: seq<MockCategory>, id: string, name: string): (r: seq<MockCategory>)
    ensures |r| == |s|
    ensures forall i :: 0 <= i < |s| ==> r[i] == if s[i].id == id then s[i].(name := name) else s[i]
  {
    if s == [] then [] else [if s[0].id == id then s[0].(name := name) else s[0]] + Rename(s[1..], id, name)
  }

  /** Renaming leaves every entry's id and type, so a list's type invariant holds after it. */
  lemma RenameKeepsKinds(s: seq<MockCategory>, id: string, name: string, t: CategoryType)
    requires AllOfKind(s, t)
    ensures AllOfKind(Rename(s, id, name), t)
    ensures forall i :: 0 <= i < |s| ==> Rename(s, id, name)[i].id == s[i].id
  {
  }

  /** Renaming an id no entry has leaves the list as it was. */
  lemma RenameAbsentId(s: seq<MockCategory>, id: string, name: string)
    requires forall i :: 0 <= i < |s| ==> s[i].id != id
    ensures Rename(s, id, name) == s
  {
    assert forall i :: 0 <= i < |s| ==> Rename(s, id, name)[i] == s[i];
  }

  /** Renaming twice with the same name is renaming once. */
  lemma RenameIdempotent(s: seq<MockCategory>, id: string, name: string)
    ensures Rename(Rename(s, id, name), id, name) == Rename(s, id, name)
  {
    var once := Rename(s, id, name);
    assert forall i :: 0 <= i < |s| ==> Rename(once, id, name)[i] == once[i];
  }

  /** The position of the last entry with the id, the one the `map` callback assigns last. */
  function LastWithId(s: seq<MockCategory>, id: string): (r: Option<nat>)
    ensures r.Some? ==> r.value < |s| && s[r.value].id == id && forall j :: r.value < j < |s| ==> s[j].id != id
    ensures r.None? <==> forall j :: 0 <= j < |s| ==> s[j].id != id
  {
    if s == [] then None
    else if s[|s| - 1].id == id then Some(|s| - 1)
    else LastWithId(s[..|s| - 1], id)
  }

  /** What `updatedCategory` holds after one `map` pass that started from `prior`. */
  function AfterPass(s: seq<MockCategory>, id: string, name: string, prior: Option<MockCategory>): Option<MockCategory> {
    match LastWithId(s, id)
    case Some(k) => Some(s[k].(name := name))
    case None => prior
  }

  /** One more step of the pass: an entry with the id becomes the updated one, any other leaves it. */
  lemma AfterPassStep(s: seq<MockCategory>, i: nat, id: string, name: string, prior: Option<MockCategory>)
    requires i < |s|
    ensures AfterPass(s[..i + 1], id, name, prior)
         == if s[i].id == id then Some(s[i].(name := name)) else AfterPass(s[..i], id, name, prior)
  {
    assert s[..i + 1][..i] == s[..i];
  }

  // ----- case-insensitive names -----

  /** `toLowerCase` on one character, for the ASCII letters. */
  function LowerChar(c: char): (l: char)
    ensures !('A' <= l <= 'Z')
    ensures 'A' <= c <= 'Z' ==> 'a' <= l <= 'z'
    ensures !('A' <= c <= 'Z') ==> l == c
  {
    if 'A' <= c <= 'Z' then (c as int + 32) as char else c
  }

  function ToLower(s: string): (r: string)
    ensures |r| == |s|
    ensures forall i :: 0 <= i < |s| ==> r[i] == LowerChar(s[i])
  {
    seq(|s|, i requires 0 <= i < |s| => LowerChar(s[i]))
  }

  /** Lower-casing twice is lower-casing once. */
  lemma ToLowerIdempotent(s: string)
    ensures ToLower(ToLower(s)) == ToLower(s)
  {
    var once := ToLower(s);
    assert forall i :: 0 <= i < |s| ==> ToLower(once)[i] == LowerChar(once[i]) == once[i];
  }

  /** `c.name.toLowerCase() === name.toLowerCase()`. */
  function SameNameIgnoringCase(name: string): MockCategory -> bool {
    (c: MockCategory) => ToLower(c.name) == ToLower(name)
  }

  /** `categories.some(...)` with the condition above. */
  function AnyNamed(s: seq<MockCategory>, name: string): (b: bool)
    ensures b <==> exists i :: 0 <= i < |s| && ToLower(s[i].name) == ToLower(name)
  {
    FirstIndex(s, SameNameIgnoringCase(name)).Some?
  }

  /** The check cannot tell a name from its lower-case form. */
  lemma AnyNamedIgnoresCase(s: seq<MockCategory>, name: string)
    ensures AnyNamed(s, ToLower(name)) == AnyNamed(s, name)
  {
    ToLowerIdempotent(name);
  }

  class MockCategoryService {
    var income: seq<MockCategory>
    var expense: seq<MockCategory>

    /** Each list holds entries of its own type only. */
    ghost predicate Valid()
      reads this
    {
      AllOfKind(income, Income) && AllOfKind(expense, Expense)
    }

    constructor (loadedAt: nat)
      ensures Valid()
      ensures income == InitialIncome(loadedAt) && expense == InitialExpense(loadedAt)
    {
      income := InitialIncome(loadedAt);
      expense := InitialExpense(loadedAt);
    }

    function ListOf(t: CategoryType): seq<MockCategory>
      reads this
    {
      if t == Income then income else expense
    }

    /** `getCategories(type)`: the list of that type, whose entries all have that type. */
    function GetCategories(t: CategoryType): (r: seq<MockCategory>)
      reads this
      requires Valid()
      ensures AllOfKind(r, t)
      ensures r == Filter(GetAllCategories(), OfKind(t))
    {
      AllCategoriesSplitByKind();
      ListOf(t)
    }

    /** `getAllCategories()`: the income list followed by the expense list. */
    function GetAllCategories(): (r: seq<MockCategory>)
      reads this
      ensures |r| == |income| + |expense|
      ensures r[..|income|] == income && r[|income|..] == expense
    {
      income + expense
    }

    /** Under the type invariant, the combined list splits back into the two lists by type. */
    lemma AllCategoriesSplitByKind()
      requires Valid()
      ensures Filter(income + expense, OfKind(Income)) == income
      ensures Filter(income + expense, OfKind(Expense)) == expense
    {
      KindSplit(income, expense, Income, Expense);
    }

    /**
     * Appends one entry to the end of the list of its type, whatever names are
     * already there; the other list stays.
     */
    method CreateCategory(name: string, t: CategoryType, now: nat) returns (c: MockCategory)
      requires Valid()
      modifies this
      ensures Valid()
      ensures c == MockCategory(DecimalString(now), name, t, now)
      ensures t == Income ==> income == old(income) + [c] && expense == old(expense)
      ensures t == Expense ==> expense == old(expense) + [c] && income == old(income)
      ensures AnyNamed(ListOf(t), name)
    {
      c := MockCategory(DecimalString(now), name, t, now);
      if t == Income {
        income := income + [c];
      } else {
        expense := expense + [c];
      }
      assert ListOf(t)[|ListOf(t)| - 1] == c;
    }

    /**
     * Keeps the entries of both lists whose id differs, in their order. It
     * reports success whether or not any entry had the id.
     */
    method DeleteCategory(id: string) returns (ok: bool)
      requires Valid()
      modifies this
      ensures Valid()
      ensures ok
      ensures income == Filter(old(income), IdOtherThan(id)) && expense == Filter(old(expense), IdOtherThan(id))
      ensures forall i :: 0 <= i < |income| ==> income[i].id != id
      ensures forall i :: 0 <= i < |expense| ==> expense[i].id != id
      ensures IsSubsequence(income, old(income)) && IsSubsequence(expense, old(expense))
      ensures forall i :: 0 <= i < |old(income)| && old(income)[i].id != id ==> old(income)[i] in income
      ensures forall i :: 0 <= i < |old(expense)| && old(expense)[i].id != id ==> old(expense)[i] in expense
    {
      DeleteKeepsKind(income, id, Income);
      DeleteKeepsKind(expense, id, Expense);
      income := Filter(income, IdOtherThan(id));
      expense := Filter(expense, IdOtherThan(id));
      ok := true;
    }

    /**
     * Renames every entry with the id in both lists, keeping their lengths.
     * The answer is the last renamed entry (an expense one before an income
     * one), or nothing when no entry had the id.
     */
    method UpdateCategory(id: string, name: string) returns (r: Option<MockCategory>)
      requires Valid()
      modifies this
      ensures Valid()
      ensures income == Rename(old(income), id, name) && expense == Rename(old(expense), id, name)
      ensures |income| == |old(income)| && |expense| == |old(expense)|
      ensures r == AfterPass(old(expense), id, name, AfterPass(old(income), id, name, None))
      ensures r.None? <==> (forall i :: 0 <= i < |old(income)| ==> old(income)[i].id != id)
                           && (forall i :: 0 <= i < |old(expense)| ==> old(expense)[i].id != id)
      ensures r.Some? ==> r.value.id == id && r.value.name == name
    {
      var updated: Option<MockCategory> := None;
      RenameKeepsKinds(income, id, name, Income);
      RenameKeepsKinds(expense, id, name, Expense);
      income, updated := RenamePass(income, id, name, updated);
      expense, updated := RenamePass(expense, id, name, updated);
      r := updated;
    }

    /** `categoryExists(name, type)`: some entry of that type's list has the name, ignoring case. */
    function CategoryExists(name: string, t: CategoryType): (b: bool)
      reads this
      ensures b <==> exists i :: 0 <= i < |ListOf(t)| && ToLower(ListOf(t)[i].name) == ToLower(name)
    {
      AnyNamed(ListOf(t), name)
    }
  }

  /**
   * One `map` pass: walks the list, renaming each entry with the id and
   * recording it as the updated one.
   */
  method RenamePass(s: seq<MockCategory>, id: string, name: string, prior: Option<MockCategory>)
    returns (r: seq<MockCategory>, updated: Option<MockCategory>)
    ensures r == Rename(s, id, name)
    ensures updated == AfterPass(s, id, name, prior)
  {
    r := [];
    updated := prior;
    assert s[..0] == [];
    for i := 0 to |s|
      invariant |r| == i
      invariant forall j :: 0 <= j < i ==> r[j] == if s[j].id == id then s[j].(name := name) else s[j]
      invariant updated == AfterPass(s[..i], id, name, prior)
    {
      AfterPassStep(s, i, id, name, prior);
      var c := s[i];
      if c.id == id {
        c := c.(name := name);
        updated := Some(c);
      }
      r := r + [c];
    }
    assert s[..|s|] == s;
    var renamed := Rename(s, id, name);
    assert |r| == |renamed| && forall j :: 0 <= j < |r| ==> r[j] == renamed[j];
  }
}
