/**
 * The ordering of query results (`.sort({...})` in MongoDB): an insertion sort on a
 * lexicographic integer key, promising sortedness and a permutation and nothing about the
 * order of equal keys. A descending field is encoded by negating it in the key.
 */
module Sorting {

  /** A sort key, compared lexicographically and ascending. */
  datatype Key = Key(first: int, second: int, third: int)

  predicate KeyLe(a: Key, b: Key) {
    || a.first < b.first
    || (a.first == b.first && (a.second < b.second || (a.second == b.second && a.third <= b.third)))
  }

  predicate SortedBy<T>(s: seq<T>, key: T -> Key) {
    forall i, j :: 0 <= i < j < |s| ==> KeyLe(key(s[i]), key(s[j]))
  }

  /** Inserts `x` before the first element whose key is not smaller than its own. */
  function Insert<T>(x: T, s: seq<T>, key: T -> Key): (r: seq<T>)
    requires SortedBy(s, key)
    ensures SortedBy(r, key)
    ensures multiset(r) == multiset(s) + multiset{x}
    ensures |r| == |s| + 1
    ensures r[0] == x || (s != [] && r[0] == s[0])
  {
    if s == [] then [x]
    else if KeyLe(key(x), key(s[0])) then
      ConsSorted(x, s, key);
      [x] + s
    else
      var rest := Insert(x, s[1..], key);
      assert KeyLe(key(s[0]), key(rest[0]));
      assert s == [s[0]] + s[1..];
      ConsSorted(s[0], rest, key);
      [s[0]] + rest
  }

  /** An element no larger than the head of a sorted sequence can be put in front of it. */
  lemma ConsSorted<T>(y: T, r: seq<T>, key: T -> Key)
    requires SortedBy(r, key) && (r != [] ==> KeyLe(key(y), key(r[0])))
    ensures SortedBy([y] + r, key)
  {
    var t := [y] + r;
    forall i, j | 0 <= i < j < |t| ensures KeyLe(key(t[i]), key(t[j])) {
      if i == 0 && j > 1 {
        assert t[j] == r[j - 1];
        assert KeyLe(key(r[0]), key(r[j - 1]));
      }
    }
  }

  /** The elements of `s`, reordered so that their keys ascend. */
  function SortBy<T>(s: seq<T>, key: T -> Key): (r: seq<T>)
    ensures SortedBy(r, key)
    ensures multiset(r) == multiset(s)
  {
    if s == [] then []
    else
      assert s == [s[0]] + s[1..];
      Insert(s[0], SortBy(s[1..], key), key)
  }
}
