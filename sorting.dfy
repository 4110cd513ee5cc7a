/**
 * Result ordering for the `ORDER BY` clauses of the listing queries. SQL
 * leaves the order of ties open, so a listing is specified only as "a
 * permutation of the selected rows, sorted by the key"; insertion sort is
 * one function meeting that specification.
 */
module Sorting {

  import opened Common

  /** `le` is total and transitive: an ordering by some key, ties allowed. */
  ghost predicate TotalPreorder<T(!new)>(le: (T, T) -> bool) {
    && (forall x, y :: le(x, y) || le(y, x))
    && (forall x, y, z :: le(x, y) && le(y, z) ==> le(x, z))
  }

  predicate SortedBy<T>(s: seq<T>, le: (T, T) -> bool) {
    forall i, j :: 0 <= i < j < |s| ==> le(s[i], s[j])
  }

  function Insert<T(!new)>(x: T, s: seq<T>, le: (T, T) -> bool): (r: seq<T>)
    requires TotalPreorder(le)
    requires SortedBy(s, le)
    ensures SortedBy(r, le)
    ensures multiset(r) == multiset(s) + multiset{x}
  {
    if s == [] then [x]
    else if le(x, s[0]) then
      InsertFront(x, s, le);
      [x] + s
    else
      var rest := Insert(x, s[1..], le);
      InsertBehind(x, s, rest, le);
      [s[0]] + rest
  }

  lemma InsertFront<T(!new)>(x: T, s: seq<T>, le: (T, T) -> bool)
    requires TotalPreorder(le) && SortedBy(s, le)
    requires s != [] && le(x, s[0])
    ensures SortedBy([x] + s, le)
  {
    forall j | 1 <= j < |[x] + s| ensures le(x, ([x] + s)[j]) {
      if j > 1 {
        assert le(s[0], s[j - 1]);
      }
    }
  }

  lemma InsertBehind<T(!new)>(x: T, s: seq<T>, rest: seq<T>, le: (T, T) -> bool)
    requires TotalPreorder(le) && SortedBy(s, le) && SortedBy(rest, le)
    requires s != [] && !le(x, s[0])
    requires multiset(rest) == multiset(s[1..]) + multiset{x}
    ensures SortedBy([s[0]] + rest, le)
    ensures multiset([s[0]] + rest) == multiset(s) + multiset{x}
  {
    assert s == [s[0]] + s[1..];
    forall y | y in rest ensures le(s[0], y) {
      assert y in multiset(rest);
      if y != x {
        assert y in s[1..];
      }
    }
    var r := [s[0]] + rest;
    forall i, j | 0 <= i < j < |r| ensures le(r[i], r[j]) {
      assert r[j] == rest[j - 1];
      if i > 0 {
        assert r[i] == rest[i - 1];
      } else {
        assert rest[j - 1] in rest;
      }
    }
  }

  /** Sorts `s` by `le`: the result is sorted and has exactly the elements of `s`. */
  function Sort<T(!new)>(s: seq<T>, le: (T, T) -> bool): (r: seq<T>)
    requires TotalPreorder(le)
    ensures SortedBy(r, le)
    ensures multiset(r) == multiset(s)
    ensures |r| == |s|
    ensures forall y :: y in r <==> y in s
  {
    if s == [] then []
    else
      var r := Insert(s[0], Sort(s[1..], le), le);
      SameElements(s, r);
      r
  }

  lemma SameElements<T>(s: seq<T>, r: seq<T>)
    requires s != [] && multiset(r) == multiset(s[1..]) + multiset{s[0]}
    ensures multiset(r) == multiset(s) && |r| == |s|
    ensures forall y :: y in r <==> y in s
  {
    assert s == [s[0]] + s[1..];
    assert |multiset(r)| == |r| && |multiset(s)| == |s|;
    forall y ensures y in r <==> y in s {
      assert y in r <==> y in multiset(r);
      assert y in s <==> y in multiset(s);
    }
  }

  /** String order by character code (the `C` collation). */
  predicate StrLe(a: string, b: string) {
    if a == [] then true
    else if b == [] then false
    else if a[0] != b[0] then a[0] < b[0]
    else StrLe(a[1..], b[1..])
  }

  lemma {:induction false} StrLeTotal(a: string, b: string)
    ensures StrLe(a, b) || StrLe(b, a)
  {
    if a != [] && b != [] && a[0] == b[0] {
      StrLeTotal(a[1..], b[1..]);
    }
  }

  lemma {:induction false} StrLeTrans(a: string, b: string, c: string)
    requires StrLe(a, b) && StrLe(b, c)
    ensures StrLe(a, c)
  {
    if a != [] && b != [] && c != [] && a[0] == b[0] == c[0] {
      StrLeTrans(a[1..], b[1..], c[1..]);
    }
  }

  /** Ascending order of a nullable text column; `NULL` sorts last, as in PostgreSQL. */
  predicate NullableStrLe(a: Option<string>, b: Option<string>) {
    match (a, b)
    case (None, _) => b.None?
    case (Some(_), None) => true
    case (Some(x), Some(y)) => StrLe(x, y)
  }

  lemma NullableStrLePreorder()
    ensures TotalPreorder(NullableStrLe)
  {
    forall x: Option<string>, y: Option<string> ensures NullableStrLe(x, y) || NullableStrLe(y, x) {
      if x.Some? && y.Some? { StrLeTotal(x.value, y.value); }
    }
    forall x: Option<string>, y: Option<string>, z: Option<string> | NullableStrLe(x, y) && NullableStrLe(y, z)
      ensures NullableStrLe(x, z)
    {
      if x.Some? && y.Some? && z.Some? { StrLeTrans(x.value, y.value, z.value); }
    }
  }

  /** Ascending order of an integer key. */
  function ByKey<T(!new)>(key: T -> int): (le: (T, T) -> bool)
    ensures forall x, y :: le(x, y) <==> key(x) <= key(y)
  {
    (x: T, y: T) => key(x) <= key(y)
  }

  /** Descending order of an integer key. */
  function ByKeyDesc<T(!new)>(key: T -> int): (le: (T, T) -> bool)
    ensures forall x, y :: le(x, y) <==> key(x) >= key(y)
  {
    (x: T, y: T) => key(x) >= key(y)
  }

  /** Ascending order of a nullable text key. */
  function ByText<T(!new)>(key: T -> Option<string>): (le: (T, T) -> bool)
    ensures forall x, y :: le(x, y) <==> NullableStrLe(key(x), key(y))
  {
    (x: T, y: T) => NullableStrLe(key(x), key(y))
  }

  /** `ORDER BY a, b`: order by `first`, and by `second` among ties of `first`. */
  function Then<T(!new)>(first: (T, T) -> bool, second: (T, T) -> bool): (le: (T, T) -> bool)
    ensures forall x, y :: le(x, y) <==> first(x, y) && (first(y, x) ==> second(x, y))
  {
    (x: T, y: T) => first(x, y) && (first(y, x) ==> second(x, y))
  }

  lemma ByKeyPreorder<T(!new)>(key: T -> int)
    ensures TotalPreorder(ByKey(key)) && TotalPreorder(ByKeyDesc(key))
  {
  }

  lemma ByTextPreorder<T(!new)>(key: T -> Option<string>)
    ensures TotalPreorder(ByText(key))
  {
    NullableStrLePreorder();
  }

  /** Refining a total preorder by a second one gives a total preorder. */
  lemma ThenPreorder<T(!new)>(first: (T, T) -> bool, second: (T, T) -> bool)
    requires TotalPreorder(first) && TotalPreorder(second)
    ensures TotalPreorder(Then(first, second))
  {
  }
}
