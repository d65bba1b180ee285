/** The two pieces of SQL the journal and mood queries use on a table held
    as a sequence of rows in insertion order: `WHERE` and
    `ORDER BY <key> DESC`. */
module Query {

  /** `SELECT * ... WHERE p`: the rows that satisfy `p`, in table order. */
  function Where<T(!new)>(rows: seq<T>, p: T -> bool): (r: seq<T>)
    ensures forall x :: multiset(r)[x] == if p(x) then multiset(rows)[x] else 0
    ensures forall i :: 0 <= i < |r| ==> p(r[i])
  {
    if rows == [] then []
    else
      var rest := Where(rows[1..], p);
      assert rows == [rows[0]] + rows[1..];
      if p(rows[0]) then [rows[0]] + rest else rest
  }

  /** Non-increasing in `key`, the order `ORDER BY key DESC` promises. */
  ghost predicate SortedDesc<T>(s: seq<T>, key: T -> int) {
    forall i, j :: 0 <= i < j < |s| ==> key(s[i]) >= key(s[j])
  }

  /** Puts `x` into a non-increasing sequence before the first element with
      a smaller key. */
  function InsertDesc<T>(x: T, s: seq<T>, key: T -> int): (r: seq<T>)
    requires SortedDesc(s, key)
    ensures SortedDesc(r, key)
    ensures multiset(r) == multiset(s) + multiset{x}
    ensures |r| == |s| + 1
    ensures r[0] == x || (s != [] && r[0] == s[0])
  {
    if s == [] then [x]
    else if key(x) >= key(s[0]) then ConsSorted(x, s, key); [x] + s
    else
      assert s == [s[0]] + s[1..];
      var rest := InsertDesc(x, s[1..], key);
      ConsSorted(s[0], rest, key);
      [s[0]] + rest
  }

  /** An element no smaller than the head of a non-increasing sequence
      can be put in front of it. */
  lemma ConsSorted<T>(y: T, s: seq<T>, key: T -> int)
    requires SortedDesc(s, key)
    requires s != [] ==> key(s[0]) <= key(y)
    ensures SortedDesc([y] + s, key)
  {
    var r := [y] + s;
    forall i, j | 0 <= i < j < |r|
      ensures key(r[i]) >= key(r[j])
    {
      if i == 0 {
        assert r[j] == s[j - 1];
        assert key(s[0]) >= key(s[j - 1]) || j == 1;
      } else {
        assert r[i] == s[i - 1] && r[j] == s[j - 1];
      }
    }
  }

  /** `ORDER BY key DESC`: the same rows, rearranged into non-increasing
      key order. Ties keep no particular order in SQL; this one is a
      stable insertion sort. */
  function OrderByDesc<T>(rows: seq<T>, key: T -> int): (r: seq<T>)
    ensures SortedDesc(r, key)
    ensures multiset(r) == multiset(rows)
  {
    if rows == [] then []
    else
      assert rows == [rows[0]] + rows[1..];
      InsertDesc(rows[0], OrderByDesc(rows[1..], key), key)
  }

  /** Rows a query returns come from the table and satisfy its condition,
      so they keep every property all stored rows have. */
  lemma SelectedRowsKeep<T(!new)>(r: seq<T>, rows: seq<T>, p: T -> bool, q: T -> bool)
    requires forall x :: multiset(r)[x] == if p(x) then multiset(rows)[x] else 0
    requires forall i :: 0 <= i < |rows| ==> q(rows[i])
    ensures forall i :: 0 <= i < |r| ==> p(r[i]) && q(r[i])
  {
    forall i | 0 <= i < |r|
      ensures p(r[i]) && q(r[i])
    {
      assert multiset(r)[r[i]] > 0;
      assert r[i] in rows;
      var k :| 0 <= k < |rows| && rows[k] == r[i];
    }
  }
}
