/** How the routers' `findMany` calls are modelled: a `where` filter over the
    table's rows, a stable `orderBy`, cursor positioning and `take`, followed by
    the routers' own "fetch limit+1, pop the extra item" pagination step. */
module Queries {
  import opened Wrappers
  import opened Domain

  /** The rows of `s` that satisfy `p`, in their original order. */
  function Filter<T>(s: seq<T>, p: T -> bool): (r: seq<T>)
    ensures |r| <= |s|
    ensures forall x :: x in r ==> x in s && p(x)
    ensures forall x :: x in s && p(x) ==> x in r
  {
    if s == [] then []
    else if p(s[0]) then [s[0]] + Filter(s[1..], p)
    else Filter(s[1..], p)
  }

  /** `r` is `s` with some elements dropped and the rest kept in order. */
  ghost predicate IsSublist<T>(r: seq<T>, s: seq<T>)
    decreases |s|
  {
    r == [] || (s != [] && ((r[0] == s[0] && IsSublist(r[1..], s[1..])) || IsSublist(r, s[1..])))
  }

  lemma {:induction false} FilterIsSublist<T>(s: seq<T>, p: T -> bool)
    ensures IsSublist(Filter(s, p), s)
  {
    if s != [] {
      FilterIsSublist(s[1..], p);
      if p(s[0]) {
        assert Filter(s, p)[1..] == Filter(s[1..], p);
      }
    }
  }

  /** The filter drops nothing exactly when every row satisfies `p`. */
  lemma {:induction false} FilterKeepsAll<T>(s: seq<T>, p: T -> bool)
    ensures |Filter(s, p)| == |s| <==> forall i :: 0 <= i < |s| ==> p(s[i])
  {
    if s != [] {
      FilterKeepsAll(s[1..], p);
      if p(s[0]) {
        if forall i :: 0 <= i < |s| - 1 ==> p(s[1..][i]) {
          forall i | 0 <= i < |s| ensures p(s[i]) {
            if i > 0 { assert s[i] == s[1..][i - 1]; }
          }
        }
      } else {
        assert |Filter(s[1..], p)| <= |s[1..]|;
      }
    }
  }

  /** The filter keeps every copy of a row that satisfies `p` and no copy of
      one that does not. */
  lemma {:induction false} FilterMultiset<T>(s: seq<T>, p: T -> bool)
    ensures forall x :: multiset(Filter(s, p))[x] == (if p(x) then multiset(s)[x] else 0)
  {
    if s != [] {
      FilterMultiset(s[1..], p);
      assert s == [s[0]] + s[1..];
    }
  }

  /** `le` is a total preorder: an ordering in which any two rows compare. */
  ghost predicate TotalPreorder<T(!new)>(le: (T, T) -> bool) {
    (forall x, y :: le(x, y) || le(y, x)) &&
    (forall x, y, z :: le(x, y) && le(y, z) ==> le(x, z))
  }

  ghost predicate Sorted<T>(s: seq<T>, le: (T, T) -> bool) {
    forall i, j :: 0 <= i < j < |s| ==> le(s[i], s[j])
  }

  /** Places `x` before the first row it does not follow. */
  function Insert<T>(x: T, s: seq<T>, le: (T, T) -> bool): (r: seq<T>)
    ensures multiset(r) == multiset(s) + multiset{x}
    ensures |r| == |s| + 1
  {
    if s == [] || le(x, s[0]) then [x] + s
    else
      assert s == [s[0]] + s[1..];
      [s[0]] + Insert(x, s[1..], le)
  }

  lemma {:induction false} InsertSorted<T(!new)>(x: T, s: seq<T>, le: (T, T) -> bool)
    requires TotalPreorder(le)
    requires Sorted(s, le)
    ensures Sorted(Insert(x, s, le), le)
  {
    if s != [] && !le(x, s[0]) {
      assert le(s[0], x);
      InsertSorted(x, s[1..], le);
      var r := Insert(x, s, le);
      var tail := Insert(x, s[1..], le);
      assert r == [s[0]] + tail;
      forall j | 0 < j < |r| ensures le(s[0], r[j]) {
        assert r[j] in multiset(tail);
        assert r[j] in multiset(s[1..]) + multiset{x};
        if r[j] != x {
          assert r[j] in multiset(s[1..]);
          assert r[j] in s[1..];
        }
      }
    }
  }

  /** A stable sort: the model of an `orderBy` over rows that arrive in storage order. */
  function SortBy<T>(s: seq<T>, le: (T, T) -> bool): (r: seq<T>)
    ensures multiset(r) == multiset(s)
    ensures |r| == |s|
  {
    if s == [] then []
    else
      assert s == [s[0]] + s[1..];
      Insert(s[0], SortBy(s[1..], le), le)
  }

  lemma {:induction false} SortBySorted<T(!new)>(s: seq<T>, le: (T, T) -> bool)
    requires TotalPreorder(le)
    ensures Sorted(SortBy(s, le), le)
  {
    if s != [] {
      SortBySorted(s[1..], le);
      InsertSorted(s[0], SortBy(s[1..], le), le);
    }
  }

  /** Cursor positioning: the rows from the one whose id is `cursor` on; an id that
      is not among the rows positions past the end. */
  function FromCursor<T>(s: seq<T>, cursor: Option<Id>, idOf: T -> Id): (r: seq<T>)
    ensures cursor.None? ==> r == s
    ensures |r| <= |s| && r == s[|s| - |r|..]
    ensures cursor.Some? && r != [] ==> idOf(r[0]) == cursor.value
  {
    if cursor.None? || s == [] || idOf(s[0]) == cursor.value then
      (if cursor.None? || s != [] then s else [])
    else
      var r := FromCursor(s[1..], cursor, idOf);
      assert s[1..][|s[1..]| - |r|..] == s[|s| - |r|..];
      r
  }

  /** The cursor lands on the first row carrying its id. */
  lemma {:induction false} FromCursorAt<T>(s: seq<T>, j: nat, idOf: T -> Id)
    requires j < |s|
    requires forall i :: 0 <= i < j ==> idOf(s[i]) != idOf(s[j])
    ensures FromCursor(s, Some(idOf(s[j])), idOf) == s[j..]
  {
    if j > 0 {
      FromCursorAt(s[1..], j - 1, idOf);
      assert s[1..][j - 1..] == s[j..];
    }
  }

  /** `take: n` */
  function Take<T>(s: seq<T>, n: nat): (r: seq<T>)
    ensures |r| <= n
    ensures r <= s
    ensures |r| == n || r == s
  {
    if |s| <= n then s else s[..n]
  }

  lemma {:induction false} FilterCongruent<T>(s: seq<T>, p: T -> bool, q: T -> bool)
    requires forall x :: x in s ==> p(x) == q(x)
    ensures Filter(s, p) == Filter(s, q)
  {
    if s != [] {
      FilterCongruent(s[1..], p, q);
    }
  }

  /** What a `findMany` returns: the rows satisfying `where`, ordered by `le`,
      from the cursor on, at most `take` of them. */
  function FindMany<T>(rows: seq<T>, where: T -> bool, le: (T, T) -> bool,
                       cursor: Option<Id>, idOf: T -> Id, take: nat): (r: seq<T>)
    ensures |r| <= take
    ensures forall x :: x in r ==> x in rows && where(x)
    ensures multiset(r) <= multiset(Filter(rows, where))
    ensures cursor.None? ==>
      |r| == (if |Filter(rows, where)| <= take then |Filter(rows, where)| else take)
    ensures cursor.None? && |Filter(rows, where)| <= take ==> multiset(r) == multiset(Filter(rows, where))
    ensures cursor.Some? && r != [] ==> idOf(r[0]) == cursor.value
    ensures cursor.None? ==> r <= SortBy(Filter(rows, where), le)
  {
    var matching := SortBy(Filter(rows, where), le);
    var from := FromCursor(matching, cursor, idOf);
    var r := Take(from, take);
    PrefixOfSuffixMultiset(matching, from, r);
    assert forall x :: x in r ==> x in multiset(r);
    assert cursor.None? ==> from == matching && r <= matching;
    r
  }

  /** A prefix of a suffix holds no more copies of a row than the whole. */
  lemma PrefixOfSuffixMultiset<T>(s: seq<T>, suffix: seq<T>, r: seq<T>)
    requires |suffix| <= |s| && suffix == s[|s| - |suffix|..] && r <= suffix
    ensures multiset(r) <= multiset(s)
  {
    var a := |s| - |suffix|;
    assert s == s[..a] + r + suffix[|r|..];
  }

  /** A contiguous part of a sorted sequence is sorted. */
  lemma SortedSlice<T>(s: seq<T>, a: nat, b: nat, le: (T, T) -> bool)
    requires a <= b <= |s| && Sorted(s, le)
    ensures Sorted(s[a..b], le)
  {
    var t := s[a..b];
    forall i, j | 0 <= i < j < |t| ensures le(t[i], t[j]) {
      assert t[i] == s[a + i] && t[j] == s[a + j];
    }
  }

  /** A `findMany` result comes out in the requested order. */
  lemma FindManySorted<T(!new)>(rows: seq<T>, where: T -> bool, le: (T, T) -> bool,
                                cursor: Option<Id>, idOf: T -> Id, take: nat)
    requires TotalPreorder(le)
    ensures Sorted(FindMany(rows, where, le, cursor, idOf, take), le)
  {
    SortBySorted(Filter(rows, where), le);
    FindManyKeepsOrder(rows, where, le, cursor, idOf, take);
  }

  /** A prefix of a sorted sequence is sorted. */
  lemma SortedPrefix<T>(s: seq<T>, r: seq<T>, le: (T, T) -> bool)
    requires Sorted(s, le) && r <= s
    ensures Sorted(r, le)
  {
    assert r == s[..|r|];
    SortedSlice(s, 0, |r|, le);
  }

  /** A prefix of a suffix of a sorted sequence is sorted. */
  lemma SortedPrefixOfSuffix<T>(s: seq<T>, suffix: seq<T>, r: seq<T>, le: (T, T) -> bool)
    requires Sorted(s, le) && |suffix| <= |s| && suffix == s[|s| - |suffix|..] && r <= suffix
    ensures Sorted(r, le)
  {
    SortedSlice(s, |s| - |suffix|, |s|, le);
    assert r == suffix[..|r|];
    SortedSlice(suffix, 0, |r|, le);
  }

  /** The cursor and `take` only cut a contiguous part out of the sorted rows. */
  lemma FindManyKeepsOrder<T>(rows: seq<T>, where: T -> bool, le: (T, T) -> bool,
                              cursor: Option<Id>, idOf: T -> Id, take: nat)
    requires Sorted(SortBy(Filter(rows, where), le), le)
    ensures Sorted(FindMany(rows, where, le, cursor, idOf, take), le)
  {
    var matching := SortBy(Filter(rows, where), le);
    var from := FromCursor(matching, cursor, idOf);
    var r := FindMany(rows, where, le, cursor, idOf, take);
    SortedPrefixOfSuffix(matching, from, r, le);
  }

  /** `findMany` with two `where` filters that agree on every row. */
  lemma FindManyCongruent<T>(rows: seq<T>, w1: T -> bool, w2: T -> bool, le: (T, T) -> bool,
                             cursor: Option<Id>, idOf: T -> Id, take: nat)
    requires forall x :: x in rows ==> w1(x) == w2(x)
    ensures FindMany(rows, w1, le, cursor, idOf, take) == FindMany(rows, w2, le, cursor, idOf, take)
  {
    FilterCongruent(rows, w1, w2);
  }

  /** The `limit` input of the paginated lists: `z.number().min(1).max(100).default(10)`. */
  function ParseLimit(limit: Option<int>): (r: Result<nat>)
    ensures limit.None? ==> r == Success(10)
    ensures limit.Some? ==> (r.Success? <==> 1 <= limit.value <= 100)
    ensures r.Success? ==> 1 <= r.value <= 100 && (limit.Some? ==> r.value == limit.value)
    ensures r.Failure? ==> r.error == BadRequest
  {
    match limit
    case None => Success(10)
    case Some(n) => if n < 1 || n > 100 then Failure(BadRequest) else Success(n)
  }

  /** A page of results and the cursor of the page after it. */
  datatype Page<T> = Page(items: seq<T>, nextCursor: Option<Id>)

  /** The routers' pagination step: given at most `limit + 1` fetched rows, removes
      the extra row, if any, and reports its id as the next cursor. */
  method PopExtra<T>(fetched: seq<T>, limit: nat, idOf: T -> Id) returns (page: Page<T>)
    requires |fetched| <= limit + 1
    ensures |page.items| <= limit
    ensures page.nextCursor.Some? <==> |fetched| == limit + 1
    ensures page.nextCursor.Some? ==> page.nextCursor.value == idOf(fetched[limit])
    ensures page.items + (if page.nextCursor.Some? then [fetched[limit]] else []) == fetched
  {
    var items := fetched;
    var nextCursor: Option<Id> := None;
    if |items| > limit {
      var nextItem := items[|items| - 1];
      items := items[..|items| - 1];
      nextCursor := Some(idOf(nextItem));
    }
    page := Page(items, nextCursor);
  }
}
