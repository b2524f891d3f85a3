/**
 * The string keys under which the category store caches its list reads:
 * 'categories:user:' + userId + ':' + ('all' | 'income' | 'expense').
 */
module CategoryCacheKeys {
  import opened Wrappers
  import opened Entities

  const CacheKeyPrefix: string := "categories:user:"

  /** The enum value of a category type. */
  function TypeName(t: CategoryType): string {
    match t
    case Income => "income"
    case Expense => "expense"
  }

  function KeySuffix(t: Option<CategoryType>): string {
    match t
    case None => "all"
    case Some(k) => TypeName(k)
  }

  /** The cache key of the list of one user's categories, of one type or of all types. */
  function GetCacheKey(userId: nat, t: Option<CategoryType>): (key: string)
    ensures |CacheKeyPrefix| < |key| && key[..|CacheKeyPrefix|] == CacheKeyPrefix
  {
    CacheKeyPrefix + KeyBody(userId, t)
  }

  /** `userId:suffix`, the part of a key after the prefix. */
  function KeyBody(userId: nat, t: Option<CategoryType>): string {
    DecimalString(userId) + ":" + KeySuffix(t)
  }

  lemma KeySuffixInjective(t1: Option<CategoryType>, t2: Option<CategoryType>)
    requires KeySuffix(t1) == KeySuffix(t2)
    ensures t1 == t2
  {
  }

  /** Two texts each followed by ':' split the same way when neither text holds a ':'. */
  lemma SplitAtColon(a: string, b: string, c: string, d: string)
    requires forall i :: 0 <= i < |a| ==> a[i] != ':'
    requires forall i :: 0 <= i < |c| ==> c[i] != ':'
    requires a + ":" + b == c + ":" + d
    ensures a == c && b == d
  {
    var x := a + ":" + b;
    assert x[|a|] == ':';
    assert x[|c|] == ':';
    assert |a| == |c|;
    assert a == x[..|a|] == c;
    assert b == x[|a| + 1..] == d;
  }

  /** Keys of different users never collide, and a per-type key differs from the 'all' key. */
  lemma GetCacheKeyInjective(u1: nat, t1: Option<CategoryType>, u2: nat, t2: Option<CategoryType>)
    requires GetCacheKey(u1, t1) == GetCacheKey(u2, t2)
    ensures u1 == u2 && t1 == t2
  {
    var p := CacheKeyPrefix;
    var k := GetCacheKey(u1, t1);
    assert KeyBody(u1, t1) == k[|p|..] == KeyBody(u2, t2);
    SplitAtColon(DecimalString(u1), KeySuffix(t1), DecimalString(u2), KeySuffix(t2));
    DecimalStringInjective(u1, u2);
    KeySuffixInjective(t1, t2);
  }

  /** The three keys `invalidateUserCache` deletes. */
  function UserCacheKeys(userId: nat): set<string> {
    {GetCacheKey(userId, None), GetCacheKey(userId, Some(Income)), GetCacheKey(userId, Some(Expense))}
  }

  /** A key belongs to the invalidated set exactly when it is a key of that user. */
  lemma UserCacheKeysExactly(userId: nat, v: nat, t: Option<CategoryType>)
    ensures GetCacheKey(v, t) in UserCacheKeys(userId) <==> v == userId
  {
    if GetCacheKey(v, t) in UserCacheKeys(userId) {
      if GetCacheKey(v, t) == GetCacheKey(userId, None) {
        GetCacheKeyInjective(v, t, userId, None);
      } else if GetCacheKey(v, t) == GetCacheKey(userId, Some(Income)) {
        GetCacheKeyInjective(v, t, userId, Some(Income));
      } else {
        GetCacheKeyInjective(v, t, userId, Some(Expense));
      }
    }
    if v == userId {
      assert t == None || t == Some(Income) || t == Some(Expense);
    }
  }
}
