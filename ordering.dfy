/** `ORDER BY created_at DESC`: a stable insertion sort by a timestamp key, newest first. */
module Ordering {

  /** Keys never increase from left to right. */
  ghost predicate NewestFirst<T>(s: seq<T>, key: T -> int) {
    forall i, j :: 0 <= i < j < |s| ==> key(s[i]) >= key(s[j])
  }

  /** Prepending an element at least as new as the head keeps the order. */
  lemma PrependNewestFirst<T>(h: T, t: seq<T>, key: T -> int)
    requires NewestFirst(t, key)
    requires t != [] ==> key(h) >= key(t[0])
    ensures NewestFirst([h] + t, key)
  {
    var s := [h] + t;
    forall i, j | 0 <= i < j < |s|
      ensures key(s[i]) >= key(s[j])
    {
      if i == 0 {
        assert s[j] == t[j - 1];
        if j > 1 {
          assert key(t[0]) >= key(t[j - 1]);
        }
      } else {
        assert s[i] == t[i - 1] && s[j] == t[j - 1];
      }
    }
  }

  /** Places `x` into a newest-first sequence, before every element whose key is not larger. */
  function InsertNewestFirst<T>(x: T, s: seq<T>, key: T -> int): (r: seq<T>)
    requires NewestFirst(s, key)
    ensures NewestFirst(r, key)
    ensures multiset(r) == multiset(s) + multiset{x}
    ensures |r| == |s| + 1 && (r[0] == x || (|s| > 0 && r[0] == s[0]))
    decreases |s|
  {
    if s == [] then [x]
    else if key(x) >= key(s[0]) then
      PrependNewestFirst(x, s, key);
      [x] + s
    else
      assert NewestFirst(s[1..], key) by {
        forall i, j | 0 <= i < j < |s[1..]| ensures key(s[1..][i]) >= key(s[1..][j]) {
          assert s[1..][i] == s[i + 1] && s[1..][j] == s[j + 1];
        }
      }
      var tail := InsertNewestFirst(x, s[1..], key);
      assert |s| > 1 ==> key(s[0]) >= key(s[1]);
      PrependNewestFirst(s[0], tail, key);
      assert s == [s[0]] + s[1..];
      [s[0]] + tail
  }

  /** The rows of `s` ordered newest first; rows with equal keys keep their table order. */
  function SortNewestFirst<T>(s: seq<T>, key: T -> int): (r: seq<T>)
    ensures NewestFirst(r, key)
    ensures multiset(r) == multiset(s)
    decreases |s|
  {
    if s == [] then []
    else
      assert s == [s[0]] + s[1..];
      InsertNewestFirst(s[0], SortNewestFirst(s[1..], key), key)
  }

  /** Sorting keeps exactly the elements of the input. */
  lemma SortKeepsMembers<T>(s: seq<T>, key: T -> int, x: T)
    ensures x in SortNewestFirst(s, key) <==> x in s
  {
    assert x in SortNewestFirst(s, key) <==> x in multiset(SortNewestFirst(s, key));
  }
}
