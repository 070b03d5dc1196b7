/**
 Keyset ordering.  `ORDER BY ... DESC` over a finite set of rows is the unique strictly
 descending enumeration of that set, and `LIMIT n` is a prefix of it.  Everything the
 paginated services do with SQL ordering is stated against the functions of this module.
 */
module Keyset {
  ghost predicate StrictTotal<T(!new)>(lt: (T, T) -> bool) {
    && (forall x :: !lt(x, x))
    && (forall x, y, z :: lt(x, y) && lt(y, z) ==> lt(x, z))
    && (forall x, y :: x == y || lt(x, y) || lt(y, x))
  }

  ghost predicate Descending<T(!new)>(lt: (T, T) -> bool, s: seq<T>) {
    forall i, j | 0 <= i < j < |s| :: lt(s[j], s[i])
  }

  ghost predicate IsMax<T(!new)>(lt: (T, T) -> bool, rows: set<T>, m: T) {
    m in rows && forall x | x in rows :: x == m || lt(x, m)
  }

  lemma {:induction false} MaxExists<T(!new)>(lt: (T, T) -> bool, rows: set<T>)
    requires StrictTotal(lt) && rows != {}
    ensures exists m :: IsMax(lt, rows, m)
    decreases |rows|
  {
    var x :| x in rows;
    if rows == {x} {
      assert IsMax(lt, rows, x);
    } else {
      var rest := rows - {x};
      MaxExists(lt, rest);
      var m :| IsMax(lt, rest, m);
      if lt(m, x) {
        assert IsMax(lt, rows, x);
      } else {
        assert IsMax(lt, rows, m);
      }
    }
  }

  function MaxOf<T(==,!new)>(lt: (T, T) -> bool, rows: set<T>): (m: T)
    requires StrictTotal(lt) && rows != {}
    ensures IsMax(lt, rows, m)
  {
    MaxExists(lt, rows);
    assert exists m :: IsMax(lt, rows, m) && m in rows;
    var m :| m in rows && forall x | x in rows :: x == m || lt(x, m);
    m
  }

  /** `SELECT ... ORDER BY ... DESC`. */
  function Desc<T(==,!new)>(lt: (T, T) -> bool, rows: set<T>): (s: seq<T>)
    requires StrictTotal(lt)
    ensures Descending(lt, s)
    ensures forall x :: x in s <==> x in rows
    ensures |s| == |rows|
    decreases |rows|
  {
    if rows == {} then []
    else
      var m := MaxOf(lt, rows);
      var rest := Desc(lt, rows - {m});
      assert forall x :: x in [m] + rest <==> x == m || x in rest;
      [m] + rest
  }

  /** `LIMIT n`. */
  function Take<T>(s: seq<T>, n: nat): (r: seq<T>)
    ensures |r| == if n < |s| then n else |s|
    ensures r <= s
  {
    if n < |s| then s[..n] else s
  }

  lemma {:induction false} DescendingUnique<T(!new)>(lt: (T, T) -> bool, a: seq<T>, b: seq<T>)
    requires StrictTotal(lt) && Descending(lt, a) && Descending(lt, b)
    requires forall x :: x in a <==> x in b
    ensures a == b
  {
    if a == [] {
      assert forall k | 0 <= k < |b| :: b[k] in b;
    } else {
      assert a[0] in b;
      assert b[0] in a;
      assert a[0] == b[0];
      forall x ensures x in a[1..] <==> x in b[1..] {
        assert x in a <==> x == a[0] || x in a[1..];
        assert x in b <==> x == b[0] || x in b[1..];
      }
      DescendingUnique(lt, a[1..], b[1..]);
    }
  }

  /** Rows kept by a filter stay in the same order. */
  function Where<T(!new)>(s: seq<T>, p: T -> bool): (r: seq<T>)
    ensures forall x :: x in r <==> x in s && p(x)
  {
    if s == [] then []
    else
      assert forall x :: x in s <==> x == s[0] || x in s[1..];
      if p(s[0]) then [s[0]] + Where(s[1..], p) else Where(s[1..], p)
  }

  lemma {:induction false} WhereDescending<T(!new)>(lt: (T, T) -> bool, s: seq<T>, p: T -> bool)
    requires Descending(lt, s)
    ensures Descending(lt, Where(s, p))
  {
    if s != [] {
      WhereDescending(lt, s[1..], p);
      assert forall x | x in s[1..] :: lt(x, s[0]);
    }
  }

  /** Filtering before or after the sort is the same. */
  lemma {:induction false} FilterCommutes<T(!new)>(lt: (T, T) -> bool, rows: set<T>, p: T -> bool)
    requires StrictTotal(lt)
    ensures Where(Desc(lt, rows), p) == Desc(lt, set x | x in rows && p(x))
  {
    WhereDescending(lt, Desc(lt, rows), p);
    DescendingUnique(lt, Where(Desc(lt, rows), p), Desc(lt, set x | x in rows && p(x)));
  }

  /** `x` is among the first `n` of `s`. */
  ghost predicate Within<T(!new)>(s: seq<T>, x: T, n: nat) {
    exists k | 0 <= k < |s| && k < n :: s[k] == x
  }

  lemma WithinTake<T(!new)>(s: seq<T>, x: T, n: nat)
    ensures Within(s, x, n) <==> x in Take(s, n)
  {
    if Within(s, x, n) {
      var k :| 0 <= k < |s| && k < n && s[k] == x;
      assert Take(s, n)[k] == x;
    }
    if x in Take(s, n) {
      var k :| 0 <= k < |Take(s, n)| && Take(s, n)[k] == x;
      assert s[k] == x;
    }
  }

  lemma {:induction false} RankInSubsequence<T(!new)>(lt: (T, T) -> bool, whole: seq<T>, part: seq<T>, i: nat)
    requires StrictTotal(lt) && Descending(lt, whole) && Descending(lt, part)
    requires forall x | x in part :: x in whole
    requires i < |whole| && whole[i] in part
    ensures Within(part, whole[i], i + 1)
  {
    var j :| 0 <= j < |part| && part[j] == whole[i];
    if j == 0 || i == 0 {
      assert part[0] in whole;
      assert part[0] == whole[i];
    } else {
      var rest := if part[0] == whole[0] then part[1..] else part;
      forall x | x in rest ensures x in whole[1..] {
        assert x in part && x in whole;
        var k :| 0 <= k < |rest| && rest[k] == x;
        assert part[0] in whole;
      }
      assert whole[i] in rest by {
        assert part[0] == whole[0] ==> rest[j - 1] == whole[i];
      }
      RankInSubsequence(lt, whole[1..], rest, i - 1);
      var k :| 0 <= k < |rest| && k < i && rest[k] == whole[i];
      assert part[if part[0] == whole[0] then k + 1 else k] == whole[i];
    }
  }

  /** A row in the first n of the whole table is in the first n of any part of it that holds the row. */
  lemma {:induction false} RankInPart<T(!new)>(lt: (T, T) -> bool, rows: set<T>, part: set<T>, x: T, n: nat)
    requires StrictTotal(lt) && part <= rows && x in part
    requires Within(Desc(lt, rows), x, n)
    ensures Within(Desc(lt, part), x, n)
  {
    var k :| 0 <= k < |Desc(lt, rows)| && k < n && Desc(lt, rows)[k] == x;
    RankInSubsequence(lt, Desc(lt, rows), Desc(lt, part), k);
  }

  lemma TakeCons<T>(m: T, rest: seq<T>, n: nat)
    requires n > 0
    ensures Take([m] + rest, n) == [m] + Take(rest, n - 1)
  {
  }

  ghost predicate AllIn<T(!new)>(part: seq<T>, whole: seq<T>) {
    forall x | x in part :: x in whole
  }

  lemma SameHead<T(!new)>(lt: (T, T) -> bool, all: seq<T>, some: seq<T>)
    requires StrictTotal(lt) && Descending(lt, all) && Descending(lt, some)
    requires all != [] && all[0] in some && AllIn(some, all)
    ensures some != [] && some[0] == all[0] && AllIn(some[1..], all[1..])
  {
    assert some[0] in all;
    forall x | x in some[1..] ensures x in all[1..] {
      var i :| 0 <= i < |some[1..]| && some[1..][i] == x;
      assert lt(some[i + 1], some[0]) && some[i + 1] in all;
    }
  }

  /** Below a common head, what was in the first n is in the first n - 1 of the rest. */
  lemma TailKept<T(!new)>(lt: (T, T) -> bool, all: seq<T>, some: seq<T>, n: nat)
    requires StrictTotal(lt) && Descending(lt, all) && n > 0 && all != [] && some != [] && some[0] == all[0]
    requires AllIn(Take(all, n), some)
    ensures AllIn(Take(all[1..], n - 1), some[1..])
  {
    forall x | x in Take(all[1..], n - 1) ensures x in some[1..] {
      var i :| 0 <= i < |Take(all[1..], n - 1)| && Take(all[1..], n - 1)[i] == x;
      assert Take(all, n)[i + 1] == all[i + 1] == x;
      assert x in some && lt(x, all[0]);
    }
  }

  lemma PartOfNothing<T(!new)>(all: seq<T>, some: seq<T>)
    requires AllIn(some, all)
    ensures all == [] ==> some == []
  {
    if some != [] {
      assert some[0] in all;
    }
  }

  /** Of two descending lists one is part of the other and holds its first n: then their first n are the same. */
  lemma {:induction false} SamePrefix<T(!new)>(lt: (T, T) -> bool, all: seq<T>, some: seq<T>, n: nat)
    requires StrictTotal(lt) && Descending(lt, all) && Descending(lt, some)
    requires AllIn(some, all) && AllIn(Take(all, n), some)
    ensures Take(some, n) == Take(all, n)
    decreases n
  {
    if all == [] {
      PartOfNothing(all, some);
    } else if n > 0 {
      assert Take(all, n)[0] == all[0];
      SameHead(lt, all, some);
      TailKept(lt, all, some, n);
      var first, rest, others := all[0], all[1..], some[1..];
      SamePrefix(lt, rest, others, n - 1);
      assert all == [first] + rest && some == [first] + others;
      TakeCons(first, rest, n);
      TakeCons(first, others, n);
    }
  }

  /** Throwing away rows outside the first n does not change the first n. */
  lemma {:induction false} PrefixSurvives<T(!new)>(lt: (T, T) -> bool, rows: set<T>, kept: set<T>, n: nat)
    requires StrictTotal(lt) && kept <= rows
    requires forall x | x in Take(Desc(lt, rows), n) :: x in kept
    ensures Take(Desc(lt, kept), n) == Take(Desc(lt, rows), n)
  {
    SamePrefix(lt, Desc(lt, rows), Desc(lt, kept), n);
  }

  // ---- What a limited query returns ----

  /** Rows that come before x. */
  function Above<T(!new)>(lt: (T, T) -> bool, rows: set<T>, x: T): set<T> {
    set y | y in rows && lt(x, y)
  }

  lemma {:induction false} PrefixSize<T(!new)>(lt: (T, T) -> bool, s: seq<T>, k: nat)
    requires StrictTotal(lt) && Descending(lt, s) && k <= |s|
    ensures |set y | y in s[..k]| == k
  {
    if k == 0 {
      assert (set y | y in s[..0]) == {};
    } else {
      PrefixSize(lt, s, k - 1);
      OneMore(lt, s[..k - 1], s[k - 1]);
      assert s[..k] == s[..k - 1] + [s[k - 1]];
    }
  }

  lemma OneMore<T(!new)>(lt: (T, T) -> bool, before: seq<T>, x: T)
    requires StrictTotal(lt) && forall i | 0 <= i < |before| :: lt(x, before[i])
    ensures |set y | y in before + [x]| == |set y | y in before| + 1
  {
    assert (set y | y in before + [x]) == (set y | y in before) + {x};
    assert x !in before;
  }

  lemma PrefixIff<T(!new)>(lt: (T, T) -> bool, s: seq<T>, k: nat, y: T)
    requires StrictTotal(lt) && Descending(lt, s) && k < |s|
    ensures y in s[..k] <==> y in s && lt(s[k], y)
  {
    if y in s[..k] {
      var i :| 0 <= i < k && s[..k][i] == y;
      assert s[i] in s && lt(s[k], s[i]);
    }
    if y in s && lt(s[k], y) {
      var i :| 0 <= i < |s| && s[i] == y;
      assert !(k < i);
      assert i < k && s[..k][i] == y;
    }
  }

  /** The row at place k has exactly k rows before it. */
  lemma {:induction false} AboveSize<T(!new)>(lt: (T, T) -> bool, rows: set<T>, k: nat)
    requires StrictTotal(lt) && k < |Desc(lt, rows)|
    ensures |Above(lt, rows, Desc(lt, rows)[k])| == k
  {
    var s := Desc(lt, rows);
    forall y ensures y in s[..k] <==> y in Above(lt, rows, s[k]) {
      PrefixIff(lt, s, k, y);
    }
    assert (set y | y in s[..k]) == Above(lt, rows, s[k]);
    PrefixSize(lt, s, k);
  }

  /** `LIMIT n` returns a row exactly when fewer than n come before it. */
  lemma {:induction false} TakeIff<T(!new)>(lt: (T, T) -> bool, rows: set<T>, x: T, n: nat)
    requires StrictTotal(lt)
    ensures x in Take(Desc(lt, rows), n) <==> x in rows && |Above(lt, rows, x)| < n
  {
    WithinTake(Desc(lt, rows), x, n);
    if x in rows {
      var k :| 0 <= k < |Desc(lt, rows)| && Desc(lt, rows)[k] == x;
      AboveSize(lt, rows, k);
      if Within(Desc(lt, rows), x, n) {
        var i :| 0 <= i < |Desc(lt, rows)| && i < n && Desc(lt, rows)[i] == x;
        AboveSize(lt, rows, i);
      }
    }
  }

  /** The rows of `ORDER BY ... DESC LIMIT n`. */
  function Top<T(==,!new)>(lt: (T, T) -> bool, rows: set<T>, n: nat): (r: set<T>)
    requires StrictTotal(lt)
    ensures r <= rows
    ensures forall x :: x in r <==> x in Take(Desc(lt, rows), n)
  {
    var first := Take(Desc(lt, rows), n);
    forall x | x in first ensures x in rows { assert x in Desc(lt, rows); }
    set x | x in first
  }

  /** Merging the first m of each part and then taking n gives the first n of the whole, when n <= m. */
  lemma {:induction false} MergeOfTops<T(!new)>(lt: (T, T) -> bool, a: set<T>, b: set<T>, m: nat, n: nat)
    requires StrictTotal(lt) && n <= m
    ensures Take(Desc(lt, Top(lt, a, m) + Top(lt, b, m)), n) == Take(Desc(lt, a + b), n)
  {
    forall x | x in Take(Desc(lt, a + b), n) ensures x in Top(lt, a, m) + Top(lt, b, m) {
      WithinTake(Desc(lt, a + b), x, n);
      assert x in Desc(lt, a + b);
      var part := if x in a then a else b;
      RankInPart(lt, a + b, part, x, n);
      assert Within(Desc(lt, part), x, m);
      WithinTake(Desc(lt, part), x, m);
    }
    PrefixSurvives(lt, a + b, Top(lt, a, m) + Top(lt, b, m), n);
  }
}
