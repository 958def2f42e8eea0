/**
 * How the store orders and filters rows: `ORDER BY` on text columns compares
 * strings character by character (code point order, a proper prefix first),
 * a NULL column sorts before any text, and a multi-column ordering compares
 * column by column. `SortBy` and `Filter` are the `order_by(...)` and
 * `filter(...)` of a query.
 */
module Ordering {
  import opened Wrappers

  /** `less` is a strict total order. */
  ghost predicate StrictTotal<T(!new)>(less: (T, T) -> bool) {
    && (forall x :: !less(x, x))
    && (forall x, y, z :: less(x, y) && less(y, z) ==> less(x, z))
    && (forall x, y :: x == y || less(x, y) || less(y, x))
  }

  /** Lexicographic order induced by `less`: a proper prefix comes first. */
  predicate LexLeq<T(==)>(a: seq<T>, b: seq<T>, less: (T, T) -> bool) {
    a == [] || (b != [] && (less(a[0], b[0]) || (a[0] == b[0] && LexLeq(a[1..], b[1..], less))))
  }

  lemma {:induction false} LexLeqTotal<T(!new)>(a: seq<T>, b: seq<T>, less: (T, T) -> bool)
    requires StrictTotal(less)
    ensures LexLeq(a, b, less) || LexLeq(b, a, less)
  {
    if a != [] && b != [] && a[0] == b[0] {
      LexLeqTotal(a[1..], b[1..], less);
    }
  }

  lemma {:induction false} LexLeqTransitive<T(!new)>(a: seq<T>, b: seq<T>, c: seq<T>, less: (T, T) -> bool)
    requires StrictTotal(less)
    requires LexLeq(a, b, less) && LexLeq(b, c, less)
    ensures LexLeq(a, c, less)
  {
    if a != [] && a[0] == b[0] && b[0] == c[0] {
      LexLeqTransitive(a[1..], b[1..], c[1..], less);
    }
  }

  lemma {:induction false} LexLeqAntisymmetric<T(!new)>(a: seq<T>, b: seq<T>, less: (T, T) -> bool)
    requires StrictTotal(less)
    requires LexLeq(a, b, less) && LexLeq(b, a, less)
    ensures a == b
  {
    if a != [] {
      assert b != [] && a[0] == b[0];
      LexLeqAntisymmetric(a[1..], b[1..], less);
      assert a == [a[0]] + a[1..] && b == [b[0]] + b[1..];
    }
  }

  predicate CharLess(x: char, y: char) {
    x < y
  }

  /** Text comparison of the store: code point order, a proper prefix first. */
  predicate StrLeq(a: string, b: string) {
    LexLeq(a, b, CharLess)
  }

  predicate StrLess(a: string, b: string) {
    StrLeq(a, b) && a != b
  }

  lemma CharLessIsStrictTotal()
    ensures StrictTotal(CharLess)
  {
  }

  /** One column of an ordering: a nullable text. */
  type Column = Option<string>

  /** NULL first, then text in `StrLess` order. */
  predicate ColumnLess(x: Column, y: Column) {
    match (x, y)
    case (None, Some(_)) => true
    case (Some(a), Some(b)) => StrLess(a, b)
    case _ => false
  }

  lemma ColumnLessIsStrictTotal()
    ensures StrictTotal(ColumnLess)
  {
    CharLessIsStrictTotal();
    forall x: Column, y: Column, z: Column | ColumnLess(x, y) && ColumnLess(y, z)
      ensures ColumnLess(x, z)
    {
      if x.Some? {
        LexLeqTransitive(x.value, y.value, z.value, CharLess);
        if x.value == z.value {
          LexLeqAntisymmetric(x.value, y.value, CharLess);
        }
      }
    }
    forall x: Column, y: Column
      ensures x == y || ColumnLess(x, y) || ColumnLess(y, x)
    {
      if x.Some? && y.Some? {
        LexLeqTotal(x.value, y.value, CharLess);
      }
    }
  }

  /** A row's sort key: its ordering columns, most significant first. */
  type SortKey = seq<Column>

  /** `ORDER BY c1, c2, ...` ascending: compare column by column. */
  predicate KeyLeq(a: SortKey, b: SortKey) {
    LexLeq(a, b, ColumnLess)
  }

  lemma KeyLeqTotal(a: SortKey, b: SortKey)
    ensures KeyLeq(a, b) || KeyLeq(b, a)
  {
    ColumnLessIsStrictTotal();
    LexLeqTotal(a, b, ColumnLess);
  }

  lemma KeyLeqTransitive(a: SortKey, b: SortKey, c: SortKey)
    requires KeyLeq(a, b) && KeyLeq(b, c)
    ensures KeyLeq(a, c)
  {
    ColumnLessIsStrictTotal();
    LexLeqTransitive(a, b, c, ColumnLess);
  }

  /** Two-column keys compare on the first column, then on the second. */
  lemma KeyLeqTwoColumns(a1: Column, a2: Column, b1: Column, b2: Column)
    ensures KeyLeq([a1, a2], [b1, b2]) <==>
              ColumnLess(a1, b1) || (a1 == b1 && (ColumnLess(a2, b2) || a2 == b2))
  {
    assert [a1, a2][1..] == [a2] && [b1, b2][1..] == [b2];
    assert LexLeq([a2], [b2], ColumnLess) <==> ColumnLess(a2, b2) || a2 == b2;
    assert KeyLeq([a1, a2], [b1, b2]) <==>
             ColumnLess(a1, b1) || (a1 == b1 && LexLeq([a2], [b2], ColumnLess));
  }

  /** One-column keys compare as their column. */
  lemma KeyLeqOneColumn(a: Column, b: Column)
    ensures KeyLeq([a], [b]) <==> ColumnLess(a, b) || a == b
  {
    assert [a][1..] == [] && [b][1..] == [];
    assert LexLeq([a][1..], [b][1..], ColumnLess);
  }

  ghost predicate SortedBy<T>(xs: seq<T>, key: T -> SortKey) {
    forall i, j :: 0 <= i < j < |xs| ==> KeyLeq(key(xs[i]), key(xs[j]))
  }

  /** Inserts `x` in front of the first element whose key is not below `x`'s. */
  function Insert<T(==)>(x: T, xs: seq<T>, key: T -> SortKey): (r: seq<T>)
    requires SortedBy(xs, key)
    ensures SortedBy(r, key)
    ensures multiset(r) == multiset(xs) + multiset{x}
  {
    if xs == [] then [x]
    else if KeyLeq(key(x), key(xs[0])) then
      var r := [x] + xs;
      forall j | 1 <= j < |r| ensures KeyLeq(key(x), key(r[j])) {
        if j > 1 { KeyLeqTransitive(key(x), key(xs[0]), key(r[j])); }
      }
      assert xs == [xs[0]] + xs[1..];
      r
    else
      var rest := Insert(x, xs[1..], key);
      var r := [xs[0]] + rest;
      KeyLeqTotal(key(x), key(xs[0]));
      forall j | 0 <= j < |rest| ensures KeyLeq(key(xs[0]), key(rest[j])) {
        assert rest[j] in multiset(rest);
        if rest[j] != x {
          var k :| 0 <= k < |xs[1..]| && xs[1..][k] == rest[j];
          assert xs[k + 1] == rest[j];
        }
      }
      assert xs == [xs[0]] + xs[1..];
      r
  }

  /** `ORDER BY key`: the rows, rearranged into ascending key order. */
  function SortBy<T(==)>(xs: seq<T>, key: T -> SortKey): (r: seq<T>)
    ensures SortedBy(r, key)
    ensures multiset(r) == multiset(xs)
  {
    if xs == [] then []
    else
      assert xs == [xs[0]] + xs[1..];
      Insert(xs[0], SortBy(xs[1..], key), key)
  }

  /** `filter(...)`: the elements satisfying `p`, each as often as in `xs`, in their order. */
  function Filter<T(==,!new)>(xs: seq<T>, p: T -> bool): (r: seq<T>)
    ensures forall x :: multiset(r)[x] == if p(x) then multiset(xs)[x] else 0
    ensures forall k :: 0 <= k < |r| ==> p(r[k])
  {
    if xs == [] then []
    else
      assert xs == [xs[0]] + xs[1..];
      if p(xs[0]) then [xs[0]] + Filter(xs[1..], p) else Filter(xs[1..], p)
  }

  lemma FilterMembership<T(!new)>(xs: seq<T>, p: T -> bool, x: T)
    ensures x in Filter(xs, p) <==> x in xs && p(x)
  {
    assert x in Filter(xs, p) <==> x in multiset(Filter(xs, p));
    assert x in xs <==> x in multiset(xs);
  }

  /** A relation that holds between every earlier and later element still holds after filtering. */
  lemma {:induction false} FilterKeepsPairwise<T(!new)>(xs: seq<T>, p: T -> bool, rel: (T, T) -> bool)
    requires forall i, j :: 0 <= i < j < |xs| ==> rel(xs[i], xs[j])
    ensures forall i, j :: 0 <= i < j < |Filter(xs, p)| ==> rel(Filter(xs, p)[i], Filter(xs, p)[j])
  {
    if xs != [] {
      var tail := xs[1..];
      var rest := Filter(tail, p);
      forall i, j | 0 <= i < j < |tail| ensures rel(tail[i], tail[j]) {
        assert tail[i] == xs[i + 1] && tail[j] == xs[j + 1];
      }
      FilterKeepsPairwise(tail, p, rel);
      if p(xs[0]) {
        var r := Filter(xs, p);
        assert r == [xs[0]] + rest;
        forall j | 0 < j < |r| ensures rel(r[0], r[j]) {
          assert r[j] == rest[j - 1];
          FilterMembership(tail, p, rest[j - 1]);
          var k :| 0 <= k < |tail| && tail[k] == rest[j - 1];
          assert tail[k] == xs[k + 1];
        }
      }
    }
  }
}
