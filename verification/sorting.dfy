/** `ORDER BY <column> DESC` on an in-memory table: an insertion sort on an
    integer key, proved to give a permutation of its input in
    non-increasing key order. */
module Sorting {
  predicate SortedDesc<T>(rows: seq<T>, key: T -> int) {
    forall i, j :: 0 <= i < j < |rows| ==> key(rows[i]) >= key(rows[j])
  }

  /** Every element of `rows` has a key of at most `k`. */
  predicate AllAtMost<T>(rows: seq<T>, key: T -> int, k: int) {
    forall i :: 0 <= i < |rows| ==> key(rows[i]) <= k
  }

  lemma AllAtMostOfMultiset<T>(a: seq<T>, b: seq<T>, key: T -> int, k: int)
    requires multiset(a) <= multiset(b) && AllAtMost(b, key, k)
    ensures AllAtMost(a, key, k)
  {
    forall i | 0 <= i < |a| ensures key(a[i]) <= k {
      assert a[i] in multiset(a);
      assert a[i] in multiset(b);
      var j :| 0 <= j < |b| && b[j] == a[i];
    }
  }

  /** Puts `x` in front of the first element with a key not above its own. */
  function Insert<T>(x: T, rows: seq<T>, key: T -> int): (r: seq<T>)
    requires SortedDesc(rows, key)
    ensures SortedDesc(r, key)
    ensures multiset(r) == multiset(rows) + multiset{x}
    ensures |r| == |rows| + 1
  {
    if rows == [] then [x]
    else if key(x) >= key(rows[0]) then
      assert AllAtMost(rows, key, key(x));
      [x] + rows
    else
      var rest := Insert(x, rows[1..], key);
      assert rows == [rows[0]] + rows[1..];
      assert AllAtMost(rows[1..] + [x], key, key(rows[0])) by {
        forall i | 0 <= i < |rows[1..] + [x]| ensures key((rows[1..] + [x])[i]) <= key(rows[0]) {
          if i < |rows| - 1 {
            assert (rows[1..] + [x])[i] == rows[i + 1];
          }
        }
      }
      assert multiset(rest) == multiset(rows[1..] + [x]);
      AllAtMostOfMultiset(rest, rows[1..] + [x], key, key(rows[0]));
      [rows[0]] + rest
  }

  /** The rows in non-increasing key order. */
  function SortDesc<T>(rows: seq<T>, key: T -> int): (r: seq<T>)
    ensures SortedDesc(r, key)
    ensures multiset(r) == multiset(rows)
    ensures |r| == |rows|
  {
    if rows == [] then []
    else
      assert rows == rows[..|rows| - 1] + [rows[|rows| - 1]];
      Insert(rows[|rows| - 1], SortDesc(rows[..|rows| - 1], key), key)
  }

  /** Sorting keeps exactly the rows it was given. */
  lemma SortDescMembership<T>(rows: seq<T>, key: T -> int, x: T)
    ensures x in SortDesc(rows, key) <==> x in rows
  {
    var r := SortDesc(rows, key);
    assert x in r <==> x in multiset(r);
    assert x in rows <==> x in multiset(rows);
  }

  /** An already sorted list comes back unchanged when all its keys are
      distinct. */
  lemma {:induction false} SortDescOfSorted<T>(rows: seq<T>, key: T -> int)
    requires forall i, j :: 0 <= i < j < |rows| ==> key(rows[i]) > key(rows[j])
    ensures SortDesc(rows, key) == rows
  {
    if rows != [] {
      var init, last := rows[..|rows| - 1], rows[|rows| - 1];
      SortDescOfSorted(init, key);
      InsertLast(last, init, key);
      assert init + [last] == rows;
    }
  }

  lemma {:induction false} InsertLast<T>(x: T, rows: seq<T>, key: T -> int)
    requires SortedDesc(rows, key)
    requires forall i :: 0 <= i < |rows| ==> key(rows[i]) > key(x)
    ensures Insert(x, rows, key) == rows + [x]
  {
    if rows != [] {
      InsertLast(x, rows[1..], key);
      assert [rows[0]] + (rows[1..] + [x]) == rows + [x];
    }
  }
}
