/**
 * The two clauses of the bot's `SELECT`s: `WHERE cond`, which keeps the rows meeting a
 * condition in table order, and `ORDER BY key` on one integer column (a due time).  SQL
 * leaves the order of rows with equal keys open; this model settles it as table order
 * (a stable insertion sort).
 */
module Query {

  ghost predicate SortedBy<T>(s: seq<T>, key: T -> int) {
    forall i, j :: 0 <= i < j < |s| ==> key(s[i]) <= key(s[j])
  }

  /** Putting in front an element no larger than the first keeps a sorted sequence sorted. */
  lemma SortedCons<T>(a: T, s: seq<T>, key: T -> int)
    requires SortedBy(s, key) && (s == [] || key(a) <= key(s[0]))
    ensures SortedBy([a] + s, key)
  {
    var r := [a] + s;
    forall i, j | 0 <= i < j < |r| ensures key(r[i]) <= key(r[j]) {
      if i == 0 {
        assert r[j] == s[j - 1];
      } else {
        assert r[i] == s[i - 1] && r[j] == s[j - 1];
      }
    }
  }

  /** Inserts `x` before the first element with a key no smaller than its own. */
  function Insert<T>(x: T, s: seq<T>, key: T -> int): (r: seq<T>)
    requires SortedBy(s, key)
    ensures SortedBy(r, key)
    ensures multiset(r) == multiset(s) + multiset{x}
    ensures |r| == |s| + 1
    ensures r[0] == x || (s != [] && r[0] == s[0])
  {
    if s == [] || key(x) <= key(s[0]) then
      SortedCons(x, s, key);
      [x] + s
    else
      var rest := Insert(x, s[1..], key);
      InsertStep(x, s, rest, key);
      [s[0]] + rest
  }

  lemma InsertStep<T>(x: T, s: seq<T>, rest: seq<T>, key: T -> int)
    requires SortedBy(s, key) && s != [] && key(s[0]) < key(x)
    requires SortedBy(rest, key) && multiset(rest) == multiset(s[1..]) + multiset{x}
    requires |rest| == |s| && (rest[0] == x || (|s| > 1 && rest[0] == s[1]))
    ensures SortedBy([s[0]] + rest, key)
    ensures multiset([s[0]] + rest) == multiset(s) + multiset{x}
  {
    assert s == [s[0]] + s[1..];
    SortedCons(s[0], rest, key);
  }

  /** The rows of `s` in ascending key order: what `ORDER BY key` returns. */
  function SortBy<T>(s: seq<T>, key: T -> int): (r: seq<T>)
    ensures SortedBy(r, key)
    ensures multiset(r) == multiset(s)
  {
    if s == [] then []
    else
      assert s == [s[0]] + s[1..];
      Insert(s[0], SortBy(s[1..], key), key)
  }

  /** Rows that all share one key stay in table order. */
  lemma {:induction false} SortByEqualKeys<T>(s: seq<T>, key: T -> int)
    requires forall i :: 0 <= i < |s| ==> key(s[i]) == key(s[0])
    ensures SortBy(s, key) == s
  {
    if s != [] {
      SortByEqualKeys(s[1..], key);
      assert s == [s[0]] + s[1..];
    }
  }

  /** Sorting keeps exactly the rows it was given, so a row's presence in a query is decided by the filter alone. */
  lemma {:induction false} SortByMembers<T>(s: seq<T>, key: T -> int, x: T)
    ensures x in SortBy(s, key) <==> x in s
  {
    calc {
      x in SortBy(s, key);
      x in multiset(SortBy(s, key));
      x in multiset(s);
      x in s;
    }
  }

  /** `WHERE cond`: the rows meeting `cond`, each as often as in the table, in table order. */
  function Where<T(!new)>(s: seq<T>, cond: T -> bool): (r: seq<T>)
    ensures |r| <= |s|
    ensures forall x :: x in r <==> x in s && cond(x)
    ensures forall x :: multiset(r)[x] == if cond(x) then multiset(s)[x] else 0
  {
    if s == [] then []
    else
      assert s == [s[0]] + s[1..];
      if cond(s[0]) then [s[0]] + Where(s[1..], cond)
      else Where(s[1..], cond)
  }

  /** `WHERE` decides the first row and goes on with the rest. */
  lemma WhereCons<T(!new)>(s: seq<T>, cond: T -> bool)
    requires s != []
    ensures Where(s, cond) == (if cond(s[0]) then [s[0]] else []) + Where(s[1..], cond)
  {
  }

  /** No element occurs twice. */
  ghost predicate Distinct<T>(s: seq<T>) {
    forall i, j :: 0 <= i < j < |s| ==> s[i] != s[j]
  }

  lemma DistinctCons<T>(a: T, s: seq<T>)
    requires Distinct(s) && a !in s
    ensures Distinct([a] + s)
  {
    var r := [a] + s;
    forall i, j | 0 <= i < j < |r| ensures r[i] != r[j] {
      assert r[j] == s[j - 1];
      if i > 0 {
        assert r[i] == s[i - 1];
      }
    }
  }

  /** Inserting an element not yet present keeps the elements distinct. */
  lemma {:induction false} InsertDistinct<T>(x: T, s: seq<T>, key: T -> int)
    requires SortedBy(s, key) && Distinct(s) && x !in s
    ensures Distinct(Insert(x, s, key))
  {
    if s == [] || key(x) < key(s[0]) {
      DistinctCons(x, s);
    } else {
      var rest := Insert(x, s[1..], key);
      InsertDistinct(x, s[1..], key);
      assert s[0] !in multiset(s[1..]) + multiset{x} by {
        assert s[0] !in s[1..];
      }
      assert s[0] !in multiset(rest);
      DistinctCons(s[0], rest);
    }
  }

  /** Sorting a sequence without repeats gives one without repeats: no row is listed twice by `ORDER BY`. */
  lemma {:induction false} SortByDistinct<T>(s: seq<T>, key: T -> int)
    requires Distinct(s)
    ensures Distinct(SortBy(s, key))
  {
    if s != [] {
      SortByDistinct(s[1..], key);
      var rest := SortBy(s[1..], key);
      assert s[0] !in multiset(rest) by {
        assert s[0] !in s[1..];
      }
      InsertDistinct(s[0], rest, key);
    }
  }

  /** Filtering a sequence without repeats gives one without repeats. */
  lemma {:induction false} WhereDistinct<T(!new)>(s: seq<T>, cond: T -> bool)
    requires Distinct(s)
    ensures Distinct(Where(s, cond))
  {
    if s != [] {
      WhereDistinct(s[1..], cond);
      if cond(s[0]) {
        assert s[0] !in s[1..];
        DistinctCons(s[0], Where(s[1..], cond));
      }
    }
  }

  /** No two elements share a key: a `PRIMARY KEY` column. */
  ghost predicate KeysApart<T>(s: seq<T>, key: T -> int) {
    forall i, j :: 0 <= i < j < |s| ==> key(s[i]) != key(s[j])
  }

  lemma KeysApartCons<T>(a: T, s: seq<T>, key: T -> int)
    requires KeysApart(s, key) && forall x :: x in s ==> key(x) != key(a)
    ensures KeysApart([a] + s, key)
  {
    var r := [a] + s;
    forall i, j | 0 <= i < j < |r| ensures key(r[i]) != key(r[j]) {
      assert r[j] == s[j - 1];
      if i > 0 {
        assert r[i] == s[i - 1];
      }
    }
  }

  /** Filtering keeps the keys of the remaining rows apart. */
  lemma {:induction false} WhereKeysApart<T(!new)>(s: seq<T>, cond: T -> bool, key: T -> int)
    requires KeysApart(s, key)
    ensures KeysApart(Where(s, cond), key)
  {
    if s != [] {
      WhereKeysApart(s[1..], cond, key);
      if cond(s[0]) {
        forall x | x in Where(s[1..], cond) ensures key(x) != key(s[0]) {
          var j :| 0 <= j < |s[1..]| && s[1..][j] == x;
          assert s[j + 1] == x;
        }
        KeysApartCons(s[0], Where(s[1..], cond), key);
      }
    }
  }
}
