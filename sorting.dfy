/**
 * `Array.prototype.sort` with a comparator, as the timetable code uses it:
 * a stable sort by a key compared lexicographically as a pair of integers
 * (`(startMin, endMin)` for the week grid, `(start, 0)` for the day view,
 * `(-lastUsedAt, 0)` for the recent-username list). It is modelled as a
 * stable insertion sort on values.
 */
module Sorting {

  datatype Key = Key(major: int, minor: int)

  /** The comparator's "not after": `a` may stay before `b`. */
  predicate KeyLe(a: Key, b: Key) {
    a.major < b.major || (a.major == b.major && a.minor <= b.minor)
  }

  ghost predicate SortedBy<T>(s: seq<T>, key: T -> Key) {
    forall i, j :: 0 <= i < j < |s| ==> KeyLe(key(s[i]), key(s[j]))
  }

  /** Inserts `x` after every element whose key is not greater than its own. */
  function Insert<T>(s: seq<T>, x: T, key: T -> Key): (r: seq<T>)
    requires SortedBy(s, key)
    ensures |r| == |s| + 1
    ensures multiset(r) == multiset(s) + multiset{x}
    ensures SortedBy(r, key)
    decreases |s|
  {
    if s == [] then [x]
    else
      var last := s[|s| - 1];
      if KeyLe(key(last), key(x)) then s + [x]
      else
        var front := Insert(s[..|s| - 1], x, key);
        assert multiset(s) == multiset(s[..|s| - 1]) + multiset{last} by {
          assert s == s[..|s| - 1] + [last];
        }
        assert SortedBy(front + [last], key) by {
          forall i, j | 0 <= i < j < |front| + 1
            ensures KeyLe(key((front + [last])[i]), key((front + [last])[j]))
          {
            if j == |front| {
              var e := front[i];
              assert e in multiset(front);
              assert e == x || e in multiset(s[..|s| - 1]);
              if e != x {
                var m :| 0 <= m < |s| - 1 && s[m] == e;
                assert KeyLe(key(s[m]), key(s[|s| - 1]));
              }
            }
          }
        }
        assert forall k :: 0 <= k < |front| ==> (front + [last])[k] == front[k];
        front + [last]
  }

  /** The stable sort: each element is inserted after the equal keys before it. */
  function SortBy<T>(s: seq<T>, key: T -> Key): (r: seq<T>)
    ensures |r| == |s|
    ensures multiset(r) == multiset(s)
    ensures SortedBy(r, key)
  {
    if s == [] then []
    else
      assert s == s[..|s| - 1] + [s[|s| - 1]];
      Insert(SortBy(s[..|s| - 1], key), s[|s| - 1], key)
  }

  /** Sorting a list that is already in order leaves it as it is. */
  lemma {:induction false} SortBySorted<T>(s: seq<T>, key: T -> Key)
    requires SortedBy(s, key)
    ensures SortBy(s, key) == s
  {
    if s != [] {
      var front, last := s[..|s| - 1], s[|s| - 1];
      assert s == front + [last];
      assert SortedBy(front, key);
      SortBySorted(front, key);
      assert SortBy(s, key) == Insert(front, last, key);
      if front != [] {
        assert KeyLe(key(front[|front| - 1]), key(last));
      }
    }
  }
}
