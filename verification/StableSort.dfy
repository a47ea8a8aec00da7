/** What Python's `list.sort(key=..., reverse=True)` guarantees: descending keys, ties in their old order. */
module StableSort {

  function WithKey<T>(s: seq<T>, key: T -> int, k: int): seq<T> {
    if s == [] then [] else (if key(s[0]) == k then [s[0]] else []) + WithKey(s[1..], key, k)
  }

  ghost predicate Descending<T>(s: seq<T>, key: T -> int) {
    forall i, j :: 0 <= i < j < |s| ==> key(s[i]) >= key(s[j])
  }

  /** `after` is `before` sorted by descending key; the elements with any one key keep their order. */
  ghost predicate StableDescending<T>(before: seq<T>, after: seq<T>, key: T -> int) {
    Descending(after, key) && forall k: int :: WithKey(after, key, k) == WithKey(before, key, k)
  }

  function Insert<T>(x: T, s: seq<T>, key: T -> int): seq<T> {
    if s == [] || key(x) >= key(s[0]) then [x] + s else [s[0]] + Insert(x, s[1..], key)
  }

  function Sorted<T>(s: seq<T>, key: T -> int): seq<T> {
    if s == [] then [] else Insert(s[0], Sorted(s[1..], key), key)
  }

  lemma {:induction false} InsertStable<T>(x: T, s: seq<T>, key: T -> int)
    requires Descending(s, key)
    ensures StableDescending([x] + s, Insert(x, s, key), key)
    ensures forall y :: y in Insert(x, s, key) ==> y == x || y in s
  {
    if s == [] || key(x) >= key(s[0]) {
    } else {
      var rest := Insert(x, s[1..], key);
      InsertStable(x, s[1..], key);
      assert Insert(x, s, key)[1..] == rest;
      forall i, j | 0 <= i < j < |rest| + 1 ensures key(([s[0]] + rest)[i]) >= key(([s[0]] + rest)[j]) {
        assert rest[j - 1] in rest;
      }
      forall k: int ensures WithKey(Insert(x, s, key), key, k) == WithKey([x] + s, key, k) {
        assert ([x] + s)[1..] == s && ([x] + s[1..])[1..] == s[1..];
        assert WithKey([x] + s[1..], key, k) == WithKey(rest, key, k);
      }
    }
  }

  /** Sorting is stable and descending. */
  lemma {:induction false} SortedStable<T>(s: seq<T>, key: T -> int)
    ensures StableDescending(s, Sorted(s, key), key)
  {
    if s != [] {
      var rest := Sorted(s[1..], key);
      SortedStable(s[1..], key);
      InsertStable(s[0], rest, key);
      forall k: int ensures WithKey(Sorted(s, key), key, k) == WithKey(s, key, k) {
        assert ([s[0]] + rest)[1..] == rest;
        assert WithKey(Sorted(s, key), key, k) == WithKey([s[0]] + rest, key, k);
      }
    }
  }

  lemma {:induction false} GroupHolds<T>(s: seq<T>, key: T -> int, x: T)
    ensures multiset(WithKey(s, key, key(x)))[x] == multiset(s)[x]
  {
    if s != [] {
      var rest := s[1..];
      GroupHolds(rest, key, x);
      assert s == [s[0]] + rest;
      if key(s[0]) == key(x) {
        assert WithKey(s, key, key(x)) == [s[0]] + WithKey(rest, key, key(x));
      } else {
        assert WithKey(s, key, key(x)) == WithKey(rest, key, key(x));
      }
    }
  }

  /** Sorting keeps every element, as often as it was there. */
  lemma SortedIsPermutation<T>(before: seq<T>, after: seq<T>, key: T -> int)
    requires StableDescending(before, after, key)
    ensures multiset(before) == multiset(after)
  {
    hide WithKey;
    forall x ensures multiset(before)[x] == multiset(after)[x] {
      GroupHolds(before, key, x);
      GroupHolds(after, key, x);
      assert WithKey(after, key, key(x)) == WithKey(before, key, key(x));
    }
  }

  /** Any two stable descending sorts of the same list agree, so the order is fully determined. */
  lemma {:induction false} StableUnique<T>(before: seq<T>, a: seq<T>, b: seq<T>, key: T -> int)
    requires StableDescending(before, a, key) && StableDescending(before, b, key)
    ensures a == b
  {
    assert forall k: int :: WithKey(a, key, k) == WithKey(b, key, k);
    SameGroups(a, b, key);
  }

  lemma {:induction false} SameGroups<T>(a: seq<T>, b: seq<T>, key: T -> int)
    requires Descending(a, key) && Descending(b, key) && forall k: int :: WithKey(a, key, k) == WithKey(b, key, k)
    ensures a == b
    decreases |a|
  {
    if a == [] {
      if b != [] {
        HeadHasGroup(b, key);
        assert false;
      }
    } else {
      var k := key(a[0]);
      assert WithKey(a, key, k) == WithKey(b, key, k);
      GroupAppears(b, key, k);
      assert b != [];
      assert WithKey(a, key, key(b[0])) == WithKey(b, key, key(b[0]));
      GroupAppears(a, key, key(b[0]));
      assert key(b[0]) == k && a[0] == WithKey(a, key, k)[0] == b[0];
      forall k': int ensures WithKey(a[1..], key, k') == WithKey(b[1..], key, k') {
        var n := if k == k' then 1 else 0;
        assert WithKey(a, key, k')[n..] == WithKey(a[1..], key, k')
          && WithKey(b, key, k')[n..] == WithKey(b[1..], key, k');
        assert WithKey(a, key, k') == WithKey(b, key, k');
      }
      SameGroups(a[1..], b[1..], key);
    }
  }

  lemma HeadHasGroup<T>(s: seq<T>, key: T -> int)
    requires s != []
    ensures WithKey(s, key, key(s[0])) != []
  {}

  lemma {:induction false} GroupAppears<T>(s: seq<T>, key: T -> int, k: int)
    ensures WithKey(s, key, k) != [] ==> exists i :: 0 <= i < |s| && key(s[i]) == k
  {
    if s != [] {
      GroupAppears(s[1..], key, k);
      if exists i :: 0 <= i < |s[1..]| && key(s[1..][i]) == k {
        var i :| 0 <= i < |s[1..]| && key(s[1..][i]) == k;
        assert key(s[i + 1]) == k;
      }
    }
  }
}
